/** api/services.py: the line-item builder that turns the validated
    ingredients dict into one RecipeIngredient row per entry, and the
    keyboard-layout table that maps the 33 Latin keys to the Cyrillic
    letters on the same keys. */
module Services {
  import opened Common
  import opened Seqs
  import opened Models
  import opened ApiValidators

  /** `items` holds, in the key order `order`, one line item per entry of
      `ingredients`, carrying `recipe` and the entry's ingredient and
      amount; `order` lists every key of the dict exactly once. */
  predicate BuiltFrom(recipe: int, ingredients: map<int, Entry>, order: seq<int>, items: seq<RecipeIngredient>) {
    Distinct(order) && Elements(order) == ingredients.Keys && |items| == |order| &&
    forall i :: 0 <= i < |order| ==>
      order[i] in ingredients && ingredients[order[i]].Paired? &&
      items[i] == RecipeIngredient(recipe, ingredients[order[i]].ingredient, ingredients[order[i]].amount)
  }

  /** recipe_ingredients_set(recipe, ingredients): the rows handed to
      bulk_create.  Unpacking a bare amount (an id the validator could not
      resolve) raises before anything is created: Err(UnpackError).
      `order` is the dict's iteration order, which the model leaves open. */
  method RecipeIngredientsSet(recipe: int, ingredients: map<int, Entry>)
    returns (r: Result<seq<RecipeIngredient>, Error>, ghost order: seq<int>)
    ensures r.Ok? <==> forall id :: id in ingredients ==> ingredients[id].Paired?
    ensures r.Err? ==> r.error == UnpackError
    ensures r.Ok? ==> BuiltFrom(recipe, ingredients, order, r.value)
  {
    var objs: seq<RecipeIngredient> := [];
    order := [];
    var pending := ingredients.Keys;
    while pending != {}
      invariant pending <= ingredients.Keys
      invariant Distinct(order) && Elements(order) == ingredients.Keys - pending
      invariant |objs| == |order|
      invariant forall id :: id in Elements(order) ==> id in ingredients && ingredients[id].Paired?
      invariant forall i :: 0 <= i < |order| ==>
        order[i] in ingredients && ingredients[order[i]].Paired? &&
        objs[i] == RecipeIngredient(recipe, ingredients[order[i]].ingredient, ingredients[order[i]].amount)
      decreases pending
    {
      if forall id :: id !in pending { assert false; }
      var id :| id in pending;
      var entry := ingredients[id];
      if entry.Bare? {
        return Err(UnpackError), order;
      }
      assert id !in Elements(order);
      objs := objs + [RecipeIngredient(recipe, entry.ingredient, entry.amount)];
      ElementsOfSnoc(order, id);
      order := order + [id];
      pending := pending - {id};
    }
    return Ok(objs), order;
  }

  /** The rows built from a successful validation into a recipe satisfy the
      line-item constraints: the (recipe, ingredient) keys are unique and
      every amount is at least 1.  The catalogue is keyed by primary key. */
  lemma ValidatedItemsUnique(subs: seq<Submission>, catalog: map<int, Ingredient>,
                             recipe: int, order: seq<int>, items: seq<RecipeIngredient>)
    requires forall id :: id in catalog ==> catalog[id].id == id
    requires ValidateIngredients(subs, catalog).Ok?
    requires BuiltFrom(recipe, ValidateIngredients(subs, catalog).value, order, items)
    ensures LineItemsUnique(items)
    ensures forall i :: 0 <= i < |items| ==> items[i].amount >= 1
  {
    var m := ValidateIngredients(subs, catalog).value;
    ValidateResult(subs, catalog);
    forall i | 0 <= i < |order| ensures items[i].ingredient.id == order[i] && items[i].amount >= 1 {
      assert order[i] in Elements(order);
      assert order[i] in SubmittedIds(subs);
    }
    var keys := LineItemKeys(items);
    forall i, j | 0 <= i < j < |keys| ensures keys[i] != keys[j] {
      assert keys[i].1 == order[i] && keys[j].1 == order[j];
    }
  }

  /** When a submitted id is missing from the catalogue, the validated dict
      still holds it bare, so building line items from it fails. */
  lemma UnresolvedIdBreaksBuilder(subs: seq<Submission>, catalog: map<int, Ingredient>, id: int)
    requires ValidateIngredients(subs, catalog).Ok?
    requires id in SubmittedIds(subs) && id !in catalog
    ensures id in ValidateIngredients(subs, catalog).value
    ensures ValidateIngredients(subs, catalog).value[id].Bare?
  {
    ValidateResult(subs, catalog);
  }

  // incorrect_layout = str.maketrans(LatinKeys, CyrillicKeys)

  const LatinKeys := "qwertyuiop[]asdfghjkl;'zxcvbnm,./"
  const CyrillicKeys := "йцукенгшщзхъфывапролджэячсмитьбю."

  /** The first position of `c` in `s`. */
  function Position(s: string, c: char): (i: nat)
    requires c in s
    ensures i < |s| && s[i] == c
    ensures forall j :: 0 <= j < i ==> s[j] != c
  {
    if s[0] == c then 0 else 1 + Position(s[1..], c)
  }

  /** What the table does to one character: a Latin key becomes the
      Cyrillic letter at the same position, any other character stays. */
  function TranslateChar(c: char): char {
    if c in LatinKeys then CyrillicKeys[Position(LatinKeys, c)] else c
  }

  /** s.translate(incorrect_layout) */
  function Translate(s: string): string {
    seq(|s|, i requires 0 <= i < |s| => TranslateChar(s[i]))
  }

  lemma KeyStringLengths()
    ensures |LatinKeys| == 33 && |CyrillicKeys| == 33
  {
  }

  // Distinctness of the two 33-character strings, in chunks of eight first
  // positions: one lemma over all positions of a literal is more than the
  // verifier's resource budget allows, each chunk is well within it.
  // KeyStringsDistinct puts the chunks together.

  lemma LatinKeysDistinct0()
    ensures forall i, j :: 0 <= i < 8 && i < j < |LatinKeys| ==> LatinKeys[i] != LatinKeys[j]
  {
  }

  lemma LatinKeysDistinct1()
    ensures forall i, j :: 8 <= i < 16 && i < j < |LatinKeys| ==> LatinKeys[i] != LatinKeys[j]
  {
  }

  lemma LatinKeysDistinct2()
    ensures forall i, j :: 16 <= i < 24 && i < j < |LatinKeys| ==> LatinKeys[i] != LatinKeys[j]
  {
  }

  lemma LatinKeysDistinct3()
    ensures forall i, j :: 24 <= i < j < |LatinKeys| ==> LatinKeys[i] != LatinKeys[j]
  {
  }

  lemma CyrillicKeysDistinct0()
    ensures forall i, j :: 0 <= i < 8 && i < j < |CyrillicKeys| ==> CyrillicKeys[i] != CyrillicKeys[j]
  {
  }

  lemma CyrillicKeysDistinct1()
    ensures forall i, j :: 8 <= i < 16 && i < j < |CyrillicKeys| ==> CyrillicKeys[i] != CyrillicKeys[j]
  {
  }

  lemma CyrillicKeysDistinct2()
    ensures forall i, j :: 16 <= i < 24 && i < j < |CyrillicKeys| ==> CyrillicKeys[i] != CyrillicKeys[j]
  {
  }

  lemma CyrillicKeysDistinct3()
    ensures forall i, j :: 24 <= i < j < |CyrillicKeys| ==> CyrillicKeys[i] != CyrillicKeys[j]
  {
  }

  /** Neither string of the table repeats a character, so the table is a
      one-to-one map from the Latin keys onto the Cyrillic ones. */
  lemma KeyStringsDistinct()
    ensures Distinct(LatinKeys) && Distinct(CyrillicKeys)
  {
    LatinKeysDistinct0();
    LatinKeysDistinct1();
    LatinKeysDistinct2();
    LatinKeysDistinct3();
    CyrillicKeysDistinct0();
    CyrillicKeysDistinct1();
    CyrillicKeysDistinct2();
    CyrillicKeysDistinct3();
  }

  /** The i-th Latin key becomes the i-th Cyrillic letter. */
  lemma TranslateKey(i: nat)
    requires i < |LatinKeys|
    ensures TranslateChar(LatinKeys[i]) == CyrillicKeys[i]
  {
    KeyStringsDistinct();
    assert LatinKeys[i] in LatinKeys;
  }

  /** Two different Latin keys translate to two different letters. */
  lemma TranslateKeysInjective(i: nat, j: nat)
    requires i < |LatinKeys| && j < |LatinKeys| && i != j
    ensures TranslateChar(LatinKeys[i]) != TranslateChar(LatinKeys[j])
  {
    TranslateKey(i);
    TranslateKey(j);
    KeyStringsDistinct();
  }

  /** Translation keeps the length, replaces each Latin key by its Cyrillic
      letter and leaves every other character as it was. */
  lemma TranslateShape(s: string)
    ensures |Translate(s)| == |s|
    ensures forall i :: 0 <= i < |s| && s[i] !in LatinKeys ==> Translate(s)[i] == s[i]
    ensures forall i :: 0 <= i < |s| && s[i] in LatinKeys ==> Translate(s)[i] in CyrillicKeys
  {
  }

  lemma TranslateFirstKey()
    ensures TranslateChar('q') == 'й'
  {
    TranslateKey(0);
  }

  lemma TranslateLastKey()
    ensures TranslateChar('/') == '.'
  {
    TranslateKey(32);
  }

  /** '.' is both a key (it becomes 'ю') and a letter the table produces. */
  lemma TranslateDotKey()
    ensures TranslateChar('.') == 'ю'
  {
    TranslateKey(31);
  }
}
