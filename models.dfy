/** The records of the recipe store (recipes/models.py, and the user model's
    text form from users/models.py): every field a datatype field, every
    field and uniqueness constraint a predicate over the records or the
    table holding them, and every __str__ a function giving the text. */
module Models {
  import opened Common
  import opened Seqs

  /** Largest value a PositiveSmallIntegerField column stores. */
  const MaxPositiveSmallInt := 32767

  /** request.user: Django's AnonymousUser, or a row of the user table. */
  datatype User =
    | Anonymous
    | Registered(id: int, email: string, username: string, firstName: string,
                 isActive: bool, isStaff: bool)

  predicate IsAuthenticated(u: User) { u.Registered? }

  /** AnonymousUser.is_active and is_staff are both False. */
  predicate IsActive(u: User) { u.Registered? && u.isActive }

  predicate IsStaff(u: User) { u.Registered? && u.isStaff }

  /** Django's `==` on users: two rows are equal when their primary keys
      are, and any two AnonymousUser objects are equal. */
  predicate SameUser(a: User, b: User) {
    (a.Anonymous? && b.Anonymous?) || (a.Registered? && b.Registered? && a.id == b.id)
  }

  /** str(user): a registered user shows as their email. */
  function UserText(u: User): string {
    if u.Anonymous? then "AnonymousUser" else u.email
  }

  datatype Tag = Tag(id: int, name: string, color: string, slug: string)

  datatype Ingredient = Ingredient(id: int, name: string, measurementUnit: string)

  /** A recipe row; `tags` holds the primary keys of its tags. */
  datatype Recipe = Recipe(id: int, author: User, name: string, image: string,
                           text: string, tags: set<int>, cookingTime: int)

  /** A line item: `amount` of `ingredient` in the recipe with id `recipe`. */
  datatype RecipeIngredient = RecipeIngredient(recipe: int, ingredient: Ingredient, amount: int)

  datatype Subscribe = Subscribe(user: User, author: User)

  datatype FavoriteRecipe = FavoriteRecipe(user: User, recipe: Recipe)

  datatype ShoppingCart = ShoppingCart(user: User, recipe: Recipe)

  // Field constraints

  predicate ValidTag(t: Tag) {
    |t.name| <= 200 && |t.color| <= 7 && |t.slug| <= 100
  }

  /** name, color and slug are each unique across the tag table. */
  predicate TagsUnique(tags: seq<Tag>) {
    forall i, j :: 0 <= i < j < |tags| ==>
      tags[i].name != tags[j].name && tags[i].color != tags[j].color && tags[i].slug != tags[j].slug
  }

  predicate ValidIngredient(i: Ingredient) {
    |i.name| <= 200 && |i.measurementUnit| <= 200
  }

  /** cooking_time: a PositiveSmallIntegerField with MinValueValidator(1). */
  predicate ValidRecipe(r: Recipe) {
    |r.name| <= 255 && 1 <= r.cookingTime <= MaxPositiveSmallInt
  }

  /** amount: a PositiveSmallIntegerField with MinValueValidator(1). */
  predicate ValidLineItem(item: RecipeIngredient) {
    1 <= item.amount <= MaxPositiveSmallInt
  }

  function LineItemKeys(items: seq<RecipeIngredient>): (keys: seq<(int, int)>)
    ensures |keys| == |items|
    ensures forall k :: 0 <= k < |items| ==> keys[k] == (items[k].recipe, items[k].ingredient.id)
  {
    seq(|items|, k requires 0 <= k < |items| => (items[k].recipe, items[k].ingredient.id))
  }

  /** The 'unique ingredient' constraint on (recipe, ingredient). */
  predicate LineItemsUnique(items: seq<RecipeIngredient>) {
    Distinct(LineItemKeys(items))
  }

  /** The primary key a user row is stored under; AnonymousUser has none.
      Two users have the same key exactly when SameUser holds. */
  function UserKey(u: User): Option<int> {
    if u.Registered? then Some(u.id) else None
  }

  function SubscriptionKeys(subs: seq<Subscribe>): (keys: seq<(Option<int>, Option<int>)>)
    ensures |keys| == |subs|
    ensures forall k :: 0 <= k < |subs| ==> keys[k] == (UserKey(subs[k].user), UserKey(subs[k].author))
  {
    seq(|subs|, k requires 0 <= k < |subs| => (UserKey(subs[k].user), UserKey(subs[k].author)))
  }

  /** The 'unique_subscription' constraint on (user_id, author_id). */
  predicate SubscriptionsUnique(subs: seq<Subscribe>) {
    Distinct(SubscriptionKeys(subs))
  }

  /** Under the tag table's constraints a name, a colour or a slug picks
      out a single tag, so filtering on tags__slug names whole tags. */
  lemma TagsUniqueIdentify(tags: seq<Tag>, i: nat, j: nat)
    requires TagsUnique(tags) && i < |tags| && j < |tags|
    requires tags[i].name == tags[j].name || tags[i].color == tags[j].color || tags[i].slug == tags[j].slug
    ensures i == j
  {
  }

  /** A line-item table meets its unique constraint exactly when it has
      as many distinct (recipe, ingredient) keys as rows. */
  lemma LineItemsUniqueIffKeyCount(items: seq<RecipeIngredient>)
    ensures LineItemsUnique(items) <==> |Elements(LineItemKeys(items))| == |items|
  {
    DistinctIffCardinality(LineItemKeys(items));
  }

  /** Under the subscription constraint a (user_id, author_id) pair occurs
      at most once, so an `exists()` query on it finds a single row or none;
      and no two rows join the same follower to the same author. */
  lemma SubscriptionsUniqueIffAtMostOnce(subs: seq<Subscribe>)
    ensures SubscriptionsUnique(subs) <==> forall key :: multiset(SubscriptionKeys(subs))[key] <= 1
    ensures SubscriptionsUnique(subs) <==> forall i, j :: 0 <= i < j < |subs| ==>
      !(SameUser(subs[i].user, subs[j].user) && SameUser(subs[i].author, subs[j].author))
  {
    DistinctIffAtMostOnce(SubscriptionKeys(subs));
    forall i, j | 0 <= i < j < |subs|
      ensures SubscriptionKeys(subs)[i] == SubscriptionKeys(subs)[j] <==>
        SameUser(subs[i].user, subs[j].user) && SameUser(subs[i].author, subs[j].author)
    {
      UserKeyIdentifies(subs[i].user, subs[j].user);
      UserKeyIdentifies(subs[i].author, subs[j].author);
    }
  }

  lemma UserKeyIdentifies(a: User, b: User)
    ensures UserKey(a) == UserKey(b) <==> SameUser(a, b)
  {
  }

  // Text forms (__str__)

  function TagText(t: Tag): string {
    t.name
  }

  /** str(ingredient) is "name, unit." */
  function IngredientText(i: Ingredient): string {
    i.name + ", " + i.measurementUnit + "."
  }

  /** str(recipe) is "author, name". */
  function RecipeText(r: Recipe): string {
    UserText(r.author) + ", " + r.name
  }

  function SubscribeText(s: Subscribe): string {
    "Пользователь " + UserText(s.user) + ", автор " + UserText(s.author)
  }

  function FavoriteRecipeText(f: FavoriteRecipe): string {
    UserText(f.user) + " добавил рецепт \"" + RecipeText(f.recipe) + "\" в избранное."
  }

  function ShoppingCartText(c: ShoppingCart): string {
    "\"" + RecipeText(c.recipe) + "\" в корзине покупок " + UserText(c.user) + "."
  }

  /** The text before and after the first `c` in `s`, if there is one. */
  function SplitAtFirst(s: string, c: char): Option<(string, string)>
  {
    if s == [] then None
    else if s[0] == c then Some(([], s[1..]))
    else match SplitAtFirst(s[1..], c)
      case None => None
      case Some(parts) => Some(([s[0]] + parts.0, parts.1))
  }

  lemma {:induction false} SplitAtFirstOf(a: string, c: char, b: string)
    requires c !in a
    ensures SplitAtFirst(a + [c] + b, c) == Some((a, b))
  {
    if a == [] {
      assert a + [c] + b == [c] + b;
    } else {
      assert (a + [c] + b)[0] == a[0] != c;
      assert (a + [c] + b)[1..] == a[1..] + [c] + b;
      SplitAtFirstOf(a[1..], c, b);
      assert [a[0]] + a[1..] == a;
    }
  }

  /** Reads back the name and unit of an ingredient's text form. */
  function ParseIngredientText(s: string): Option<(string, string)> {
    match SplitAtFirst(s, ',')
    case None => None
    case Some(parts) =>
      var rest := parts.1;
      if |rest| >= 2 && rest[0] == ' ' && rest[|rest| - 1] == '.'
      then Some((parts.0, rest[1..|rest| - 1]))
      else None
  }

  /** Reads back the author and recipe name of a recipe's text form. */
  function ParseRecipeText(s: string): Option<(string, string)> {
    match SplitAtFirst(s, ',')
    case None => None
    case Some(parts) =>
      var rest := parts.1;
      if |rest| >= 1 && rest[0] == ' ' then Some((parts.0, rest[1..])) else None
  }

  /** An ingredient whose name has no comma can be read back from its
      text form, so such ingredients render alike only when they agree on
      name and unit. */
  lemma IngredientTextRoundTrip(i: Ingredient)
    requires ',' !in i.name
    ensures ParseIngredientText(IngredientText(i)) == Some((i.name, i.measurementUnit))
  {
    var rest := " " + i.measurementUnit + ".";
    assert IngredientText(i) == i.name + [','] + rest;
    SplitAtFirstOf(i.name, ',', rest);
    assert rest[1..|rest| - 1] == i.measurementUnit;
  }

  lemma RecipeTextRoundTrip(r: Recipe)
    requires ',' !in UserText(r.author)
    ensures ParseRecipeText(RecipeText(r)) == Some((UserText(r.author), r.name))
  {
    var rest := " " + r.name;
    assert RecipeText(r) == UserText(r.author) + [','] + rest;
    SplitAtFirstOf(UserText(r.author), ',', rest);
  }

  /** The text between a known prefix and a known suffix, if `s` has both. */
  function StripAffixes(s: string, pre: string, suf: string): Option<string> {
    if |pre| + |suf| <= |s| && s[..|pre|] == pre && s[|s| - |suf|..] == suf
    then Some(s[|pre|..|s| - |suf|])
    else None
  }

  lemma StripAffixesOf(pre: string, mid: string, suf: string)
    ensures StripAffixes(pre + mid + suf, pre, suf) == Some(mid)
  {
    var s := pre + mid + suf;
    assert s[..|pre|] == pre;
    assert s[|s| - |suf|..] == suf;
    assert s[|pre|..|s| - |suf|] == mid;
  }

  /** Tag names are unique, so a tag's text form names a single tag. */
  lemma TagTextIdentifies(tags: seq<Tag>, i: nat, j: nat)
    requires TagsUnique(tags) && i < |tags| && j < |tags|
    requires TagText(tags[i]) == TagText(tags[j])
    ensures i == j
  {
    TagsUniqueIdentify(tags, i, j);
  }

  /** Reads back follower and author from a subscription's text form. */
  function ParseSubscribeText(s: string): Option<(string, string)> {
    match StripAffixes(s, "Пользователь ", "")
    case None => None
    case Some(body) =>
      match SplitAtFirst(body, ',')
      case None => None
      case Some(parts) =>
        match StripAffixes(parts.1, " автор ", "")
        case None => None
        case Some(author) => Some((parts.0, author))
  }

  /** A subscription whose follower's text has no comma can be read back
      from "Пользователь user, автор author". */
  lemma SubscribeTextRoundTrip(sub: Subscribe)
    requires ',' !in UserText(sub.user)
    ensures ParseSubscribeText(SubscribeText(sub)) == Some((UserText(sub.user), UserText(sub.author)))
  {
    var u := UserText(sub.user);
    var a := UserText(sub.author);
    var body := u + [','] + (" автор " + a);
    assert SubscribeText(sub) == "Пользователь " + body + "";
    StripAffixesOf("Пользователь ", body, "");
    SplitAtFirstOf(u, ',', " автор " + a);
    assert " автор " + a == " автор " + a + "";
    StripAffixesOf(" автор ", a, "");
  }

  const FavoriteInfix := " добавил рецепт \""
  const FavoriteSuffix := "\" в избранное."

  /** Reads back user and recipe from a favourite's text form. */
  function ParseFavoriteRecipeText(s: string): Option<(string, string)> {
    match SplitAtFirst(s, ' ')
    case None => None
    case Some(parts) =>
      match StripAffixes(" " + parts.1, FavoriteInfix, FavoriteSuffix)
      case None => None
      case Some(recipe) => Some((parts.0, recipe))
  }

  /** A favourite whose user's text has no space can be read back from
      'user добавил рецепт "recipe" в избранное.'. */
  lemma FavoriteRecipeTextRoundTrip(f: FavoriteRecipe)
    requires ' ' !in UserText(f.user)
    ensures ParseFavoriteRecipeText(FavoriteRecipeText(f)) == Some((UserText(f.user), RecipeText(f.recipe)))
  {
    var u := UserText(f.user);
    var r := RecipeText(f.recipe);
    var rest := FavoriteInfix[1..] + r + FavoriteSuffix;
    assert FavoriteRecipeText(f) == u + [' '] + rest;
    SplitAtFirstOf(u, ' ', rest);
    assert " " + rest == FavoriteInfix + r + FavoriteSuffix;
    StripAffixesOf(FavoriteInfix, r, FavoriteSuffix);
  }

  const CartInfix := "\" в корзине покупок "

  /** Reads back recipe and user from a cart row's text form. */
  function ParseShoppingCartText(s: string): Option<(string, string)> {
    match StripAffixes(s, "\"", "")
    case None => None
    case Some(body) =>
      match SplitAtFirst(body, '"')
      case None => None
      case Some(parts) =>
        match StripAffixes("\"" + parts.1, CartInfix, ".")
        case None => None
        case Some(user) => Some((parts.0, user))
  }

  /** A cart row whose recipe text has no double quote can be read back
      from '"recipe" в корзине покупок user.'. */
  lemma ShoppingCartTextRoundTrip(c: ShoppingCart)
    requires '"' !in RecipeText(c.recipe)
    ensures ParseShoppingCartText(ShoppingCartText(c)) == Some((RecipeText(c.recipe), UserText(c.user)))
  {
    var r := RecipeText(c.recipe);
    var u := UserText(c.user);
    assert ShoppingCartText(c) == "\"" + r + CartInfix + u + ".";
    CartTextOf(r, u);
  }

  lemma CartTextOf(r: string, u: string)
    requires '"' !in r
    ensures ParseShoppingCartText("\"" + r + CartInfix + u + ".") == Some((r, u))
  {
    var rest := CartInfix[1..] + u + ".";
    var body := r + ['"'] + rest;
    assert "\"" + r + CartInfix + u + "." == "\"" + body + "";
    StripAffixesOf("\"", body, "");
    SplitAtFirstOf(r, '"', rest);
    assert "\"" + rest == CartInfix + u + ".";
    StripAffixesOf(CartInfix, u, ".");
  }
}
