/** RecipeViewSet.download_shopping_cart (api/views.py): the text of the
    shopping list.  The line items of every recipe in the user's cart are
    grouped by ingredient name and unit with their amounts summed (the
    query's values(...).annotate(Sum(...))), one line is written per group,
    and the lines are framed by a header and a footer and joined by
    newlines.  A user without a cart gets a 400. */
module ShoppingList {
  import opened Common
  import opened Seqs
  import opened Decimal
  import opened Models

  /** One row of the query: an ingredient's name and unit and an amount
      (a single line item, or a group's sum). */
  datatype Purchase = Purchase(name: string, unit: string, amount: int)

  function Key(p: Purchase): (string, string) {
    (p.name, p.unit)
  }

  /** The cart belongs to the user (a signed-in user: an anonymous one owns
      no cart). */
  predicate OwnedBy(c: ShoppingCart, user: User) {
    user.Registered? && SameUser(c.user, user)
  }

  /** user.carts.exists() */
  predicate HasCart(user: User, carts: seq<ShoppingCart>) {
    exists k :: 0 <= k < |carts| && OwnedBy(carts[k], user)
  }

  /** The line items of the recipe with id `recipe`, as rows. */
  function RecipeRows(recipe: int, items: seq<RecipeIngredient>): seq<Purchase>
    decreases |items|
  {
    if items == [] then []
    else
      var it := items[0];
      (if it.recipe == recipe then [Purchase(it.ingredient.name, it.ingredient.measurementUnit, it.amount)] else [])
        + RecipeRows(recipe, items[1..])
  }

  /** Ingredient rows joined through recipe__recipe__in_carts__user: the
      line items of each of the user's cart entries, in cart order. */
  function CartRows(user: User, carts: seq<ShoppingCart>, items: seq<RecipeIngredient>): seq<Purchase>
    decreases |carts|
  {
    if carts == [] then []
    else
      (if OwnedBy(carts[0], user) then RecipeRows(carts[0].recipe.id, items) else [])
        + CartRows(user, carts[1..], items)
  }

  // Grouping by (name, unit)

  function Keys(groups: seq<Purchase>): (keys: seq<(string, string)>)
    ensures |keys| == |groups|
    ensures forall i :: 0 <= i < |groups| ==> keys[i] == Key(groups[i])
    decreases |groups|
  {
    if groups == [] then [] else [Key(groups[0])] + Keys(groups[1..])
  }

  /** Adds one row to the groups: into the group with its key, or as a new
      group at the end. */
  function AddRow(groups: seq<Purchase>, p: Purchase): seq<Purchase>
    decreases |groups|
  {
    if groups == [] then [p]
    else if Key(groups[0]) == Key(p) then [groups[0].(amount := groups[0].amount + p.amount)] + groups[1..]
    else [groups[0]] + AddRow(groups[1..], p)
  }

  /** The groups of `rows`, in order of first appearance. */
  function Aggregate(rows: seq<Purchase>): seq<Purchase>
    decreases |rows|
  {
    if rows == [] then [] else AddRow(Aggregate(rows[..|rows| - 1]), rows[|rows| - 1])
  }

  /** Sum('recipe__amount') over the rows with key `k`. */
  function Total(rows: seq<Purchase>, k: (string, string)): int
    decreases |rows|
  {
    if rows == [] then 0
    else Total(rows[..|rows| - 1], k) + (if Key(rows[|rows| - 1]) == k then rows[|rows| - 1].amount else 0)
  }

  /** Sum of the amounts of the groups with key `k`. */
  function AmountOf(groups: seq<Purchase>, k: (string, string)): int
    decreases |groups|
  {
    if groups == [] then 0 else (if Key(groups[0]) == k then groups[0].amount else 0) + AmountOf(groups[1..], k)
  }

  function RowKeys(rows: seq<Purchase>): set<(string, string)> {
    set i | 0 <= i < |rows| :: Key(rows[i])
  }

  lemma KeysCons(g: Purchase, rest: seq<Purchase>)
    ensures Keys([g] + rest) == [Key(g)] + Keys(rest)
  {
    assert ([g] + rest)[1..] == rest;
  }

  /** Adding a row adds its key to the keys of the groups. */
  lemma {:induction false} AddRowElements(groups: seq<Purchase>, p: Purchase)
    ensures Elements(Keys(AddRow(groups, p))) == Elements(Keys(groups)) + {Key(p)}
    decreases |groups|
  {
    if groups != [] {
      var g := groups[0];
      var rest := groups[1..];
      assert groups == [g] + rest;
      KeysCons(g, rest);
      ElementsOfCons(Keys(groups));
      var added := AddRow(groups, p);
      if Key(g) == Key(p) {
        var g' := g.(amount := g.amount + p.amount);
        assert added == [g'] + rest;
        KeysCons(g', rest);
        ElementsOfCons(Keys(added));
      } else {
        AddRowElements(rest, p);
        assert added == [g] + AddRow(rest, p);
        KeysCons(g, AddRow(rest, p));
        ElementsOfCons(Keys(added));
      }
    }
  }

  /** Adding a row keeps the keys of the groups pairwise different. */
  lemma {:induction false} AddRowDistinct(groups: seq<Purchase>, p: Purchase)
    requires Distinct(Keys(groups))
    ensures Distinct(Keys(AddRow(groups, p)))
    decreases |groups|
  {
    if groups != [] {
      var g := groups[0];
      var rest := groups[1..];
      assert groups == [g] + rest;
      KeysCons(g, rest);
      DistinctCons(Key(g), Keys(rest));
      var added := AddRow(groups, p);
      if Key(g) == Key(p) {
        var g' := g.(amount := g.amount + p.amount);
        assert added == [g'] + rest;
        KeysCons(g', rest);
        DistinctCons(Key(g'), Keys(rest));
      } else {
        AddRowDistinct(rest, p);
        AddRowElements(rest, p);
        assert Key(g) !in Elements(Keys(AddRow(rest, p)));
        assert added == [g] + AddRow(rest, p);
        KeysCons(g, AddRow(rest, p));
        DistinctCons(Key(g), Keys(AddRow(rest, p)));
      }
    }
  }

  lemma {:induction false} AddRowAmount(groups: seq<Purchase>, p: Purchase, k: (string, string))
    ensures AmountOf(AddRow(groups, p), k) == AmountOf(groups, k) + (if Key(p) == k then p.amount else 0)
    decreases |groups|
  {
    if groups != [] {
      if Key(groups[0]) == Key(p) {
        assert AddRow(groups, p)[1..] == groups[1..];
      } else {
        AddRowAmount(groups[1..], p, k);
        assert AddRow(groups, p)[1..] == AddRow(groups[1..], p);
      }
    }
  }

  /** With distinct keys, a group's amount is the whole amount for its key. */
  lemma {:induction false} AmountOfDistinct(groups: seq<Purchase>, i: nat)
    requires Distinct(Keys(groups)) && i < |groups|
    ensures AmountOf(groups, Key(groups[i])) == groups[i].amount
    decreases |groups|
  {
    var rest := groups[1..];
    var ks := Keys(groups);
    assert Distinct(Keys(rest)) by {
      forall a, b | 0 <= a < b < |rest| ensures Keys(rest)[a] != Keys(rest)[b] {
        assert Keys(rest)[a] == ks[a + 1] && Keys(rest)[b] == ks[b + 1];
      }
    }
    if i == 0 {
      AmountOfAbsent(rest, Key(groups[0]));
      forall j | 0 <= j < |rest| ensures Key(rest[j]) != Key(groups[0]) {
        assert Key(rest[j]) == ks[j + 1];
      }
    } else {
      assert Key(groups[0]) == ks[0] != ks[i] == Key(groups[i]);
      AmountOfDistinct(rest, i - 1);
    }
  }

  lemma {:induction false} AmountOfAbsent(groups: seq<Purchase>, k: (string, string))
    ensures (forall j :: 0 <= j < |groups| ==> Key(groups[j]) != k) ==> AmountOf(groups, k) == 0
    decreases |groups|
  {
    if groups != [] {
      AmountOfAbsent(groups[1..], k);
      if forall j :: 0 <= j < |groups| ==> Key(groups[j]) != k {
        assert forall j :: 0 <= j < |groups[1..]| ==> groups[1..][j] == groups[j + 1];
      }
    }
  }

  lemma RowKeysSnoc(rows: seq<Purchase>)
    requires rows != []
    ensures RowKeys(rows) == RowKeys(rows[..|rows| - 1]) + {Key(rows[|rows| - 1])}
  {
    var n := |rows| - 1;
    var front := rows[..n];
    forall x | x in RowKeys(rows) ensures x in RowKeys(front) + {Key(rows[n])} {
      var i :| 0 <= i < |rows| && Key(rows[i]) == x;
      if i < n { assert front[i] == rows[i]; }
    }
    forall x | x in RowKeys(front) ensures x in RowKeys(rows) {
      var i :| 0 <= i < |front| && Key(front[i]) == x;
      assert rows[i] == front[i];
    }
  }

  /** The groups have one key for each key among the rows, each once. */
  lemma {:induction false} AggregateKeys(rows: seq<Purchase>)
    ensures Distinct(Keys(Aggregate(rows)))
    ensures Elements(Keys(Aggregate(rows))) == RowKeys(rows)
    decreases |rows|
  {
    if rows != [] {
      var n := |rows| - 1;
      var front := rows[..n];
      assert Aggregate(rows) == AddRow(Aggregate(front), rows[n]);
      AggregateKeys(front);
      AddRowElements(Aggregate(front), rows[n]);
      AddRowDistinct(Aggregate(front), rows[n]);
      RowKeysSnoc(rows);
    } else {
      assert Keys([]) == [];
    }
  }

  /** Each key's amount among the groups is the sum over its rows. */
  lemma {:induction false} AggregateAmounts(rows: seq<Purchase>, k: (string, string))
    ensures AmountOf(Aggregate(rows), k) == Total(rows, k)
    decreases |rows|
  {
    if rows != [] {
      var n := |rows| - 1;
      var front := rows[..n];
      assert Aggregate(rows) == AddRow(Aggregate(front), rows[n]);
      AggregateAmounts(front, k);
      AddRowAmount(Aggregate(front), rows[n], k);
    }
  }

  /** The groups have pairwise different keys, one for each key among the
      rows, and each key's amount is the sum over its rows. */
  lemma AggregateGroups(rows: seq<Purchase>)
    ensures Distinct(Keys(Aggregate(rows)))
    ensures Elements(Keys(Aggregate(rows))) == RowKeys(rows)
    ensures forall k :: AmountOf(Aggregate(rows), k) == Total(rows, k)
  {
    AggregateKeys(rows);
    forall k ensures AmountOf(Aggregate(rows), k) == Total(rows, k) {
      AggregateAmounts(rows, k);
    }
  }

  /** Each group carries the summed amount of its key. */
  lemma GroupTotals(rows: seq<Purchase>)
    ensures forall i :: 0 <= i < |Aggregate(rows)| ==>
      Aggregate(rows)[i].amount == Total(rows, Key(Aggregate(rows)[i]))
  {
    AggregateGroups(rows);
    forall i | 0 <= i < |Aggregate(rows)| ensures Aggregate(rows)[i].amount == Total(rows, Key(Aggregate(rows)[i])) {
      AmountOfDistinct(Aggregate(rows), i);
    }
  }

  // The text

  function Header(user: User): string
    requires user.Registered?
  {
    "Список покупок для:\n\n" + user.firstName + "\n"
  }

  const Footer := "\nПосчитано в Foodgram"

  /** f'{name}: {amount} {measurement}' */
  function LineText(g: Purchase): string {
    g.name + ": " + IntToString(g.amount) + " " + g.unit
  }

  function GroupLines(groups: seq<Purchase>): (lines: seq<string>)
    ensures |lines| == |groups|
    ensures forall i :: 0 <= i < |groups| ==> lines[i] == LineText(groups[i])
  {
    seq(|groups|, i requires 0 <= i < |groups| => LineText(groups[i]))
  }

  /** The response body, or the 400 for a user without a cart. */
  function ShoppingReport(user: User, carts: seq<ShoppingCart>, items: seq<RecipeIngredient>): Result<string, Error> {
    if !HasCart(user, carts) then Err(BadRequest)
    else Ok(Join([Header(user)] + GroupLines(Aggregate(CartRows(user, carts, items))) + [Footer], "\n"))
  }

  method DownloadShoppingCart(user: User, carts: seq<ShoppingCart>, items: seq<RecipeIngredient>)
    returns (r: Result<string, Error>)
    ensures r == ShoppingReport(user, carts, items)
  {
    if !HasCart(user, carts) {
      return Err(BadRequest);
    }
    var shoppingList := [Header(user)];
    var ingredients := Aggregate(CartRows(user, carts, items));
    var i := 0;
    while i < |ingredients|
      invariant 0 <= i <= |ingredients|
      invariant shoppingList == [Header(user)] + GroupLines(ingredients[..i])
    {
      assert GroupLines(ingredients[..i + 1]) == GroupLines(ingredients[..i]) + [LineText(ingredients[i])];
      shoppingList := shoppingList + [LineText(ingredients[i])];
      i := i + 1;
    }
    assert ingredients[..i] == ingredients;
    shoppingList := shoppingList + [Footer];
    return Ok(Join(shoppingList, "\n"));
  }

  /** No cart, no list: the 400 comes before anything is built. */
  lemma NoCartRefused(user: User, carts: seq<ShoppingCart>, items: seq<RecipeIngredient>)
    requires !HasCart(user, carts)
    ensures ShoppingReport(user, carts, items) == Err(BadRequest)
  {
  }

  /** The list opens with the header and closes with the footer. */
  lemma ReportFramed(user: User, carts: seq<ShoppingCart>, items: seq<RecipeIngredient>)
    requires HasCart(user, carts)
    ensures ShoppingReport(user, carts, items).Ok?
    ensures Header(user) <= ShoppingReport(user, carts, items).value
    ensures IsSuffix(Footer, ShoppingReport(user, carts, items).value)
  {
    var lines := [Header(user)] + GroupLines(Aggregate(CartRows(user, carts, items))) + [Footer];
    JoinFrames(lines, "\n");
  }

  /** Between header and footer there is one line per distinct (name, unit)
      among the cart's line items, each with the sum of its amounts. */
  lemma ReportLines(user: User, carts: seq<ShoppingCart>, items: seq<RecipeIngredient>)
    requires user.Registered?
    ensures var rows := CartRows(user, carts, items);
      var groups := Aggregate(rows);
      var lines := [Header(user)] + GroupLines(groups) + [Footer];
      |lines| == |groups| + 2 &&
      Distinct(Keys(groups)) && Elements(Keys(groups)) == RowKeys(rows) &&
      forall i :: 0 <= i < |groups| ==>
        lines[i + 1] == LineText(groups[i]) && groups[i].amount == Total(rows, Key(groups[i]))
  {
    var rows := CartRows(user, carts, items);
    var groups := Aggregate(rows);
    var body := GroupLines(groups);
    var lines := [Header(user)] + body + [Footer];
    AggregateKeys(rows);
    GroupTotals(rows);
    forall i | 0 <= i < |groups| ensures lines[i + 1] == LineText(groups[i]) {
      assert lines[i + 1] == body[i];
    }
  }

  /** Two carted recipes that both use 200 g and 150 g of flour give one
      flour line with 350 g. */
  lemma FlourSummed()
    ensures Aggregate([Purchase("мука", "г", 200), Purchase("мука", "г", 150)]) == [Purchase("мука", "г", 350)]
    ensures LineText(Purchase("мука", "г", 350)) == "мука: 350 г"
  {
    var rows := [Purchase("мука", "г", 200), Purchase("мука", "г", 150)];
    assert rows[..1] == [rows[0]] && [rows[0]][..0] == [];
    assert Aggregate([rows[0]]) == [rows[0]];
    assert NatToString(350) == "350" by {
      assert NatToString(3) == "3";
      assert NatToString(35) == "35";
    }
  }
}
