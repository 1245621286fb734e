/** RecipeViewSet.get_queryset (api/views.py): the recipe list narrowed
    filter by filter, by tag slugs, by author and, for a signed-in user
    only, by the tri-state shopping-cart and favourite flags.  A filter
    across a relation (tags, carts, favourites) is a join, which yields a
    recipe once per matching row; `.distinct()`, called only with the tag
    filter, drops the repeats. */
module RecipeFilters {
  import opened Common
  import opened Seqs
  import opened Models

  /** The query parameters: every `tags` value, `author`, present when the
      parameter is a non-empty id, and the two flags as given. */
  datatype RecipeQuery = RecipeQuery(tags: seq<string>, author: Option<int>,
                                     isInShoppingCart: Option<string>, isFavorited: Option<string>)

  /** Tuples.SYMBOL_TRUE_SEARCH and Tuples.SYMBOL_FALSE_SEARCH */
  predicate IsTrueFlag(flag: Option<string>) {
    flag == Some("1") || flag == Some("true")
  }

  predicate IsFalseFlag(flag: Option<string>) {
    flag == Some("0") || flag == Some("false")
  }

  /** Whether a recipe survives a flag filter, given whether it is in the
      user's cart (or favourites): kept when in it for a true flag,
      excluded when in it for a false flag, always kept otherwise. */
  predicate FlagKeeps(flag: Option<string>, member: bool) {
    if IsTrueFlag(flag) then member else if IsFalseFlag(flag) then !member else true
  }

  /** tags__slug__in=slugs */
  predicate HasTagIn(r: Recipe, tagTable: map<int, Tag>, slugs: seq<string>) {
    exists t :: t in r.tags && t in tagTable && tagTable[t].slug in slugs
  }

  predicate ByAuthor(r: Recipe, author: int) {
    r.author.Registered? && r.author.id == author
  }

  /** in_carts__user=user */
  predicate InCart(r: Recipe, user: User, carts: seq<ShoppingCart>) {
    exists k :: 0 <= k < |carts| && SameUser(carts[k].user, user) && carts[k].recipe.id == r.id
  }

  /** in_favorites__user=user */
  predicate IsFavorite(r: Recipe, user: User, favorites: seq<FavoriteRecipe>) {
    exists k :: 0 <= k < |favorites| && SameUser(favorites[k].user, user) && favorites[k].recipe.id == r.id
  }

  predicate TagsPass(r: Recipe, tagTable: map<int, Tag>, q: RecipeQuery) {
    q.tags == [] || HasTagIn(r, tagTable, q.tags)
  }

  predicate AuthorPasses(r: Recipe, q: RecipeQuery) {
    q.author.None? || ByAuthor(r, q.author.value)
  }

  predicate FlagsPass(r: Recipe, user: User, carts: seq<ShoppingCart>, favorites: seq<FavoriteRecipe>, q: RecipeQuery) {
    user.Anonymous? ||
    (FlagKeeps(q.isInShoppingCart, InCart(r, user, carts)) && FlagKeeps(q.isFavorited, IsFavorite(r, user, favorites)))
  }

  /** The recipes the list shows: those that pass every filter. */
  predicate Selected(r: Recipe, tagTable: map<int, Tag>, user: User,
                     carts: seq<ShoppingCart>, favorites: seq<FavoriteRecipe>, q: RecipeQuery) {
    TagsPass(r, tagTable, q) && AuthorPasses(r, q) && FlagsPass(r, user, carts, favorites, q)
  }

  function SelectedTest(tagTable: map<int, Tag>, user: User, carts: seq<ShoppingCart>,
                        favorites: seq<FavoriteRecipe>, q: RecipeQuery): Recipe -> bool {
    (r: Recipe) => Selected(r, tagTable, user, carts, favorites, q)
  }

  // The rows each join yields for a recipe

  /** The rows of tags__slug__in=slugs: one per tag of the recipe whose
      slug was asked for. */
  function TagRowCount(r: Recipe, tagTable: map<int, Tag>, slugs: seq<string>): nat {
    |set t | t in r.tags && t in tagTable && tagTable[t].slug in slugs|
  }

  /** The rows of in_carts__user=user: one per cart row of the user's for
      the recipe. */
  function CartRowCount(r: Recipe, user: User, carts: seq<ShoppingCart>): nat {
    Count(carts, (c: ShoppingCart) => SameUser(c.user, user) && c.recipe.id == r.id)
  }

  /** The rows of in_favorites__user=user. */
  function FavoriteRowCount(r: Recipe, user: User, favorites: seq<FavoriteRecipe>): nat {
    Count(favorites, (f: FavoriteRecipe) => SameUser(f.user, user) && f.recipe.id == r.id)
  }

  lemma TagRowsPositive(r: Recipe, tagTable: map<int, Tag>, slugs: seq<string>)
    ensures TagRowCount(r, tagTable, slugs) > 0 <==> HasTagIn(r, tagTable, slugs)
  {
    var matching := set t | t in r.tags && t in tagTable && tagTable[t].slug in slugs;
    if HasTagIn(r, tagTable, slugs) {
      var t :| t in r.tags && t in tagTable && tagTable[t].slug in slugs;
      assert t in matching;
    }
    if matching != {} {
      if forall t :: t !in matching {
        assert false;
      }
      var t :| t in matching;
      assert t in r.tags && t in tagTable && tagTable[t].slug in slugs;
    }
  }

  lemma CartRowsPositive(r: Recipe, user: User, carts: seq<ShoppingCart>)
    ensures CartRowCount(r, user, carts) > 0 <==> InCart(r, user, carts)
  {
    CountPositive(carts, (c: ShoppingCart) => SameUser(c.user, user) && c.recipe.id == r.id);
  }

  lemma FavoriteRowsPositive(r: Recipe, user: User, favorites: seq<FavoriteRecipe>)
    ensures FavoriteRowCount(r, user, favorites) > 0 <==> IsFavorite(r, user, favorites)
  {
    CountPositive(favorites, (f: FavoriteRecipe) => SameUser(f.user, user) && f.recipe.id == r.id);
  }

  /** Each filter's factor in the number of rows the query yields for a
      recipe: the join's row count for a filter across a relation, one or
      none for a filter on the recipe's own columns or an exclude, one when
      the filter is not applied. */
  function TagFactor(r: Recipe, tagTable: map<int, Tag>, q: RecipeQuery): nat {
    if q.tags != [] then TagRowCount(r, tagTable, q.tags) else 1
  }

  function AuthorFactor(r: Recipe, q: RecipeQuery): nat {
    if AuthorPasses(r, q) then 1 else 0
  }

  function CartFactor(r: Recipe, user: User, carts: seq<ShoppingCart>, q: RecipeQuery): nat {
    if user.Anonymous? then 1
    else if IsTrueFlag(q.isInShoppingCart) then CartRowCount(r, user, carts)
    else if IsFalseFlag(q.isInShoppingCart) && InCart(r, user, carts) then 0
    else 1
  }

  function FavoriteFactor(r: Recipe, user: User, favorites: seq<FavoriteRecipe>, q: RecipeQuery): nat {
    if user.Anonymous? then 1
    else if IsTrueFlag(q.isFavorited) then FavoriteRowCount(r, user, favorites)
    else if IsFalseFlag(q.isFavorited) && IsFavorite(r, user, favorites) then 0
    else 1
  }

  /** The number of rows the query yields for a recipe before `.distinct()`. */
  function Multiplicity(r: Recipe, tagTable: map<int, Tag>, user: User,
                        carts: seq<ShoppingCart>, favorites: seq<FavoriteRecipe>, q: RecipeQuery): nat {
    TagFactor(r, tagTable, q) * AuthorFactor(r, q) * CartFactor(r, user, carts, q) * FavoriteFactor(r, user, favorites, q)
  }

  function MultiplicityOf(tagTable: map<int, Tag>, user: User, carts: seq<ShoppingCart>,
                          favorites: seq<FavoriteRecipe>, q: RecipeQuery): Recipe -> nat {
    (r: Recipe) => Multiplicity(r, tagTable, user, carts, favorites, q)
  }

  /** The list the view returns: the rows of every join, with repeats
      dropped when the query set was made distinct. */
  function Listing(recipes: seq<Recipe>, tagTable: map<int, Tag>, user: User,
                   carts: seq<ShoppingCart>, favorites: seq<FavoriteRecipe>, q: RecipeQuery): seq<Recipe> {
    var rows := Expand(recipes, MultiplicityOf(tagTable, user, carts, favorites, q));
    if q.tags != [] then Dedup(rows) else rows
  }

  /** A recipe yields rows exactly when it passes every filter. */
  lemma {:induction false} MultiplicityPositive(r: Recipe, tagTable: map<int, Tag>, user: User,
                                                carts: seq<ShoppingCart>, favorites: seq<FavoriteRecipe>, q: RecipeQuery)
    ensures Multiplicity(r, tagTable, user, carts, favorites, q) > 0 <==> Selected(r, tagTable, user, carts, favorites, q)
  {
    TagRowsPositive(r, tagTable, q.tags);
    CartRowsPositive(r, user, carts);
    FavoriteRowsPositive(r, user, favorites);
    var a, b, c, d := TagFactor(r, tagTable, q), AuthorFactor(r, q), CartFactor(r, user, carts, q),
                      FavoriteFactor(r, user, favorites, q);
    ProductPositive(a, b, c, d);
  }

  lemma ProductPositive(a: nat, b: nat, c: nat, d: nat)
    ensures a * b * c * d > 0 <==> a > 0 && b > 0 && c > 0 && d > 0
  {
    if a > 0 && b > 0 && c > 0 && d > 0 {
      assert a * b > 0;
      assert a * b * c > 0;
    }
  }

  // The tests the view's filters apply, and the rows after each stage

  function TagJoin(tagTable: map<int, Tag>, slugs: seq<string>): Recipe -> nat {
    (r: Recipe) => TagRowCount(r, tagTable, slugs)
  }

  function AuthorTest(author: int): Recipe -> bool {
    (r: Recipe) => ByAuthor(r, author)
  }

  function CartJoin(user: User, carts: seq<ShoppingCart>): Recipe -> nat {
    (r: Recipe) => CartRowCount(r, user, carts)
  }

  function NotInCartTest(user: User, carts: seq<ShoppingCart>): Recipe -> bool {
    (r: Recipe) => !InCart(r, user, carts)
  }

  function FavoriteJoin(user: User, favorites: seq<FavoriteRecipe>): Recipe -> nat {
    (r: Recipe) => FavoriteRowCount(r, user, favorites)
  }

  function NotFavoriteTest(user: User, favorites: seq<FavoriteRecipe>): Recipe -> bool {
    (r: Recipe) => !IsFavorite(r, user, favorites)
  }

  function TagStage(tagTable: map<int, Tag>, q: RecipeQuery): Recipe -> nat {
    (r: Recipe) => TagFactor(r, tagTable, q)
  }

  function AuthorStage(tagTable: map<int, Tag>, q: RecipeQuery): Recipe -> nat {
    (r: Recipe) => TagFactor(r, tagTable, q) * AuthorFactor(r, q)
  }

  function CartStage(tagTable: map<int, Tag>, user: User, carts: seq<ShoppingCart>, q: RecipeQuery): Recipe -> nat {
    (r: Recipe) => TagFactor(r, tagTable, q) * AuthorFactor(r, q) * CartFactor(r, user, carts, q)
  }

  lemma TagStep(recipes: seq<Recipe>, tagTable: map<int, Tag>, q: RecipeQuery)
    ensures (if q.tags != [] then Expand(recipes, TagJoin(tagTable, q.tags)) else recipes)
         == Expand(recipes, TagStage(tagTable, q))
  {
    if q.tags != [] {
      ExpandAgrees(recipes, TagJoin(tagTable, q.tags), TagStage(tagTable, q));
    } else {
      ExpandOnce(recipes, TagStage(tagTable, q));
    }
  }

  lemma AuthorStep(recipes: seq<Recipe>, tagTable: map<int, Tag>, q: RecipeQuery)
    requires q.author.Some?
    ensures Filter(Expand(recipes, TagStage(tagTable, q)), AuthorTest(q.author.value))
         == Expand(recipes, AuthorStage(tagTable, q))
  {
    FilterExpand(recipes, TagStage(tagTable, q), AuthorTest(q.author.value), AuthorStage(tagTable, q));
  }

  lemma NoAuthorStep(recipes: seq<Recipe>, tagTable: map<int, Tag>, q: RecipeQuery)
    requires q.author.None?
    ensures Expand(recipes, TagStage(tagTable, q)) == Expand(recipes, AuthorStage(tagTable, q))
  {
    ExpandAgrees(recipes, TagStage(tagTable, q), AuthorStage(tagTable, q));
  }

  lemma AnonymousStep(recipes: seq<Recipe>, tagTable: map<int, Tag>,
                      carts: seq<ShoppingCart>, favorites: seq<FavoriteRecipe>, q: RecipeQuery)
    ensures Expand(recipes, AuthorStage(tagTable, q))
         == Expand(recipes, MultiplicityOf(tagTable, Anonymous, carts, favorites, q))
  {
    ExpandAgrees(recipes, AuthorStage(tagTable, q), MultiplicityOf(tagTable, Anonymous, carts, favorites, q));
  }

  lemma CartStep(recipes: seq<Recipe>, tagTable: map<int, Tag>, user: User, carts: seq<ShoppingCart>, q: RecipeQuery)
    requires user.Registered?
    ensures IsTrueFlag(q.isInShoppingCart) ==>
      Expand(Expand(recipes, AuthorStage(tagTable, q)), CartJoin(user, carts)) == Expand(recipes, CartStage(tagTable, user, carts, q))
    ensures IsFalseFlag(q.isInShoppingCart) ==>
      Filter(Expand(recipes, AuthorStage(tagTable, q)), NotInCartTest(user, carts)) == Expand(recipes, CartStage(tagTable, user, carts, q))
    ensures !IsTrueFlag(q.isInShoppingCart) && !IsFalseFlag(q.isInShoppingCart) ==>
      Expand(recipes, AuthorStage(tagTable, q)) == Expand(recipes, CartStage(tagTable, user, carts, q))
  {
    if IsTrueFlag(q.isInShoppingCart) {
      ExpandThen(recipes, AuthorStage(tagTable, q), CartJoin(user, carts), CartStage(tagTable, user, carts, q));
    } else if IsFalseFlag(q.isInShoppingCart) {
      FilterExpand(recipes, AuthorStage(tagTable, q), NotInCartTest(user, carts), CartStage(tagTable, user, carts, q));
    } else {
      ExpandAgrees(recipes, AuthorStage(tagTable, q), CartStage(tagTable, user, carts, q));
    }
  }

  lemma FavoriteStep(recipes: seq<Recipe>, tagTable: map<int, Tag>, user: User,
                     carts: seq<ShoppingCart>, favorites: seq<FavoriteRecipe>, q: RecipeQuery)
    requires user.Registered?
    ensures IsTrueFlag(q.isFavorited) ==>
      Expand(Expand(recipes, CartStage(tagTable, user, carts, q)), FavoriteJoin(user, favorites))
        == Expand(recipes, MultiplicityOf(tagTable, user, carts, favorites, q))
    ensures IsFalseFlag(q.isFavorited) ==>
      Filter(Expand(recipes, CartStage(tagTable, user, carts, q)), NotFavoriteTest(user, favorites))
        == Expand(recipes, MultiplicityOf(tagTable, user, carts, favorites, q))
    ensures !IsTrueFlag(q.isFavorited) && !IsFalseFlag(q.isFavorited) ==>
      Expand(recipes, CartStage(tagTable, user, carts, q)) == Expand(recipes, MultiplicityOf(tagTable, user, carts, favorites, q))
  {
    var total := MultiplicityOf(tagTable, user, carts, favorites, q);
    if IsTrueFlag(q.isFavorited) {
      ExpandThen(recipes, CartStage(tagTable, user, carts, q), FavoriteJoin(user, favorites), total);
    } else if IsFalseFlag(q.isFavorited) {
      FilterExpand(recipes, CartStage(tagTable, user, carts, q), NotFavoriteTest(user, favorites), total);
    } else {
      ExpandAgrees(recipes, CartStage(tagTable, user, carts, q), total);
    }
  }

  /** get_queryset: each filter replaces the query set; a join filter
      yields a recipe once per matching row, and a query set made
      `.distinct()` drops repeated rows when it is evaluated. */
  method RecipeQueryset(recipes: seq<Recipe>, tagTable: map<int, Tag>, user: User,
                        carts: seq<ShoppingCart>, favorites: seq<FavoriteRecipe>, q: RecipeQuery)
    returns (queryset: seq<Recipe>)
    ensures queryset == Listing(recipes, tagTable, user, carts, favorites, q)
  {
    queryset := recipes;
    var distinct := false;
    if q.tags != [] {
      queryset := Expand(queryset, TagJoin(tagTable, q.tags));
      distinct := true;
    }
    TagStep(recipes, tagTable, q);

    if q.author.Some? {
      queryset := Filter(queryset, AuthorTest(q.author.value));
      AuthorStep(recipes, tagTable, q);
    } else {
      NoAuthorStep(recipes, tagTable, q);
    }

    if user.Anonymous? {
      AnonymousStep(recipes, tagTable, carts, favorites, q);
      if distinct {
        queryset := Dedup(queryset);
      }
      return;
    }

    CartStep(recipes, tagTable, user, carts, q);
    var isInCart := q.isInShoppingCart;
    if IsTrueFlag(isInCart) {
      queryset := Expand(queryset, CartJoin(user, carts));
    } else if IsFalseFlag(isInCart) {
      queryset := Filter(queryset, NotInCartTest(user, carts));
    }

    FavoriteStep(recipes, tagTable, user, carts, favorites, q);
    var isFavorite := q.isFavorited;
    if IsTrueFlag(isFavorite) {
      queryset := Expand(queryset, FavoriteJoin(user, favorites));
    }
    if IsFalseFlag(isFavorite) {
      queryset := Filter(queryset, NotFavoriteTest(user, favorites));
    }
    if distinct {
      queryset := Dedup(queryset);
    }
  }

  /** The three readings of a flag: '1'/'true' keeps the members, '0'/'false'
      drops them, any other value (or none) keeps everything. */
  lemma FlagReadings(flag: Option<string>, member: bool)
    ensures flag == Some("1") || flag == Some("true") ==> (FlagKeeps(flag, member) <==> member)
    ensures flag == Some("0") || flag == Some("false") ==> (FlagKeeps(flag, member) <==> !member)
    ensures flag !in {Some("1"), Some("true"), Some("0"), Some("false")} ==> FlagKeeps(flag, member)
  {
  }

  /** The list shows a recipe exactly when it is in the table and passes
      every filter.  With tags given it has no repeats; without them each
      recipe occurs as often as it yields rows, so a recipe with two cart
      rows of the user's is listed twice under a true cart flag. */
  lemma ListedIff(recipes: seq<Recipe>, tagTable: map<int, Tag>, user: User,
                  carts: seq<ShoppingCart>, favorites: seq<FavoriteRecipe>, q: RecipeQuery)
    ensures forall r :: r in Listing(recipes, tagTable, user, carts, favorites, q) <==>
      r in recipes && Selected(r, tagTable, user, carts, favorites, q)
    ensures q.tags != [] ==> Distinct(Listing(recipes, tagTable, user, carts, favorites, q))
    ensures q.tags == [] ==> forall r :: (multiset(Listing(recipes, tagTable, user, carts, favorites, q))[r] ==
      multiset(recipes)[r] * Multiplicity(r, tagTable, user, carts, favorites, q))
  {
    var m := MultiplicityOf(tagTable, user, carts, favorites, q);
    var rows := Expand(recipes, m);
    forall r ensures r in rows <==> r in recipes && Selected(r, tagTable, user, carts, favorites, q) {
      ExpandElements(recipes, m, r);
      MultiplicityPositive(r, tagTable, user, carts, favorites, q);
    }
    DedupAfterElements({}, rows);
    forall r ensures multiset(rows)[r] == multiset(recipes)[r] * Multiplicity(r, tagTable, user, carts, favorites, q) {
      ExpandCount(recipes, m, r);
    }
  }

  /** Each selected recipe of a duplicate-free table is listed once, in
      table order, when tags are given (the `.distinct()` call), or when the
      user has at most one cart row and one favourite row for each recipe. */
  lemma ListedOnce(recipes: seq<Recipe>, tagTable: map<int, Tag>, user: User,
                   carts: seq<ShoppingCart>, favorites: seq<FavoriteRecipe>, q: RecipeQuery)
    requires Distinct(recipes)
    requires q.tags != [] || forall i :: 0 <= i < |recipes| ==>
      CartRowCount(recipes[i], user, carts) <= 1 && FavoriteRowCount(recipes[i], user, favorites) <= 1
    ensures Listing(recipes, tagTable, user, carts, favorites, q) == Filter(recipes, SelectedTest(tagTable, user, carts, favorites, q))
  {
    var m := MultiplicityOf(tagTable, user, carts, favorites, q);
    var selected := SelectedTest(tagTable, user, carts, favorites, q);
    forall i | 0 <= i < |recipes| ensures selected(recipes[i]) == (m(recipes[i]) > 0) {
      MultiplicityPositive(recipes[i], tagTable, user, carts, favorites, q);
    }
    if q.tags != [] {
      DedupExpand({}, recipes, m, selected);
    } else {
      forall i | 0 <= i < |recipes| ensures m(recipes[i]) == if selected(recipes[i]) then 1 else 0 {
        SingleRows(recipes[i], tagTable, user, carts, favorites, q);
      }
      FilterAsExpand(recipes, selected, m);
    }
  }

  lemma SingleRows(r: Recipe, tagTable: map<int, Tag>, user: User,
                   carts: seq<ShoppingCart>, favorites: seq<FavoriteRecipe>, q: RecipeQuery)
    requires q.tags == [] && CartRowCount(r, user, carts) <= 1 && FavoriteRowCount(r, user, favorites) <= 1
    ensures Multiplicity(r, tagTable, user, carts, favorites, q) == if Selected(r, tagTable, user, carts, favorites, q) then 1 else 0
  {
    MultiplicityPositive(r, tagTable, user, carts, favorites, q);
    var c, d := CartFactor(r, user, carts, q), FavoriteFactor(r, user, favorites, q);
    assert TagFactor(r, tagTable, q) == 1;
    assert AuthorFactor(r, q) <= 1 && c <= 1 && d <= 1;
  }

  /** Two cart rows for one recipe, no tags and a true cart flag: the
      recipe is listed twice. */
  lemma DuplicateCartRowListedTwice()
    ensures var u := Registered(1, "cook@host", "cook", "Cook", true, false);
      var r := Recipe(5, u, "tea", "tea.png", "Boil.", {}, 3);
      Listing([r], map[], u, [ShoppingCart(u, r), ShoppingCart(u, r)], [], RecipeQuery([], None, Some("1"), None)) == [r, r]
  {
    var u := Registered(1, "cook@host", "cook", "Cook", true, false);
    var r := Recipe(5, u, "tea", "tea.png", "Boil.", {}, 3);
    var carts := [ShoppingCart(u, r), ShoppingCart(u, r)];
    var q := RecipeQuery([], None, Some("1"), None);
    assert CartRowCount(r, u, carts) == 2;
    assert Multiplicity(r, map[], u, carts, [], q) == 2;
    assert Repeat(r, 2) == [r, r];
  }

  /** For an anonymous user both flags are ignored. */
  lemma AnonymousIgnoresFlags(recipes: seq<Recipe>, tagTable: map<int, Tag>,
                              carts: seq<ShoppingCart>, favorites: seq<FavoriteRecipe>, q: RecipeQuery)
    ensures Listing(recipes, tagTable, Anonymous, carts, favorites, q)
         == Listing(recipes, tagTable, Anonymous, carts, favorites, q.(isInShoppingCart := None, isFavorited := None))
  {
    ExpandAgrees(recipes, MultiplicityOf(tagTable, Anonymous, carts, favorites, q),
                 MultiplicityOf(tagTable, Anonymous, carts, favorites, q.(isInShoppingCart := None, isFavorited := None)));
  }

  /** With a true cart flag a signed-in user sees only recipes in their
      cart; with a false one, only recipes not in it. */
  lemma CartFlagSplits(recipes: seq<Recipe>, tagTable: map<int, Tag>, user: User,
                       carts: seq<ShoppingCart>, favorites: seq<FavoriteRecipe>, q: RecipeQuery)
    requires user.Registered?
    ensures IsTrueFlag(q.isInShoppingCart) ==>
      forall r :: r in Listing(recipes, tagTable, user, carts, favorites, q) ==> InCart(r, user, carts)
    ensures IsFalseFlag(q.isInShoppingCart) ==>
      forall r :: r in Listing(recipes, tagTable, user, carts, favorites, q) ==> !InCart(r, user, carts)
  {
    ListedIff(recipes, tagTable, user, carts, favorites, q);
  }
}
