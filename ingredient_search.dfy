/** IngredientViewSet.get_queryset (api/views.py): the ingredient search.
    A query starting with '%' is percent-decoded, any other is re-read
    through the keyboard-layout table; the query is lower-cased; the
    ingredients whose name starts with it come first, then those that only
    contain it, each group in catalogue order. */
module IngredientSearch {
  import opened Common
  import opened Seqs
  import opened Models
  import opened Services

  /** str.lower on one character, for the ASCII and the basic Cyrillic
      letters (А-Я and Ё); every other character is left as it is. */
  function LowerChar(c: char): char {
    if 'A' <= c <= 'Z' then (c as int + 32) as char
    else if 'А' <= c <= 'Я' then (c as int + 32) as char
    else if c == 'Ё' then 'ё'
    else c
  }

  function Lower(s: string): string {
    seq(|s|, i requires 0 <= i < |s| => LowerChar(s[i]))
  }

  /** Lower-casing twice is lower-casing once. */
  lemma LowerIdempotent(s: string)
    ensures Lower(Lower(s)) == Lower(s)
  {
    assert forall i :: 0 <= i < |s| ==> LowerChar(LowerChar(s[i])) == LowerChar(s[i]);
  }

  /** name__istartswith=q */
  predicate IStartsWith(name: string, q: string) {
    Lower(q) <= Lower(name)
  }

  /** `pat` occurs in `text` at position k. */
  predicate OccursAt(text: string, pat: string, k: int) {
    0 <= k && k + |pat| <= |text| && text[k..k + |pat|] == pat
  }

  /** name__icontains=q */
  predicate IContains(name: string, q: string) {
    exists k :: 0 <= k <= |name| && OccursAt(Lower(name), Lower(q), k)
  }

  lemma StartsImpliesContains(name: string, q: string)
    requires IStartsWith(name, q)
    ensures IContains(name, q)
  {
    assert OccursAt(Lower(name), Lower(q), 0);
  }

  /** The query after decoding or re-reading and lower-casing; `unquote`
      stands for urllib.parse.unquote. */
  function NormaliseQuery(name: string, unquote: string -> string): string
    requires name != []
  {
    Lower(if name[0] == '%' then unquote(name) else Translate(name))
  }

  function PrefixTest(q: string): Ingredient -> bool {
    (ing: Ingredient) => IStartsWith(ing.name, q)
  }

  function ContainsTest(q: string): Ingredient -> bool {
    (ing: Ingredient) => IContains(ing.name, q)
  }

  /** Contains the query without starting with it. */
  function InnerOnlyTest(q: string): Ingredient -> bool {
    (ing: Ingredient) => IContains(ing.name, q) && !IStartsWith(ing.name, q)
  }

  function NotInTest(found: set<Ingredient>): Ingredient -> bool {
    (ing: Ingredient) => ing !in found
  }

  /** What the search returns for the `name` query parameter. */
  function SearchResult(catalog: seq<Ingredient>, name: Option<string>, unquote: string -> string): seq<Ingredient> {
    if name.None? || name.value == [] then catalog
    else
      var q := NormaliseQuery(name.value, unquote);
      Filter(catalog, PrefixTest(q)) + Filter(catalog, InnerOnlyTest(q))
  }

  method SearchIngredients(catalog: seq<Ingredient>, name: Option<string>, unquote: string -> string)
    returns (queryset: seq<Ingredient>)
    ensures queryset == SearchResult(catalog, name, unquote)
  {
    queryset := catalog;
    if name.Some? && name.value != [] {
      var q := name.value;
      if q[0] == '%' {
        q := unquote(q);
      } else {
        q := Translate(q);
      }
      q := Lower(q);
      var startQueryset := Filter(catalog, PrefixTest(q));
      var ingredientsSet := Elements(startQueryset);
      var contQueryset := Filter(catalog, ContainsTest(q));
      startQueryset := ExtendMissing(startQueryset, contQueryset, ingredientsSet);
      InnerOnlyByExclusion(catalog, q);
      queryset := startQueryset;
    }
  }

  /** start.extend([ing for ing in cont if ing not in found]) */
  method ExtendMissing(start: seq<Ingredient>, cont: seq<Ingredient>, found: set<Ingredient>)
    returns (r: seq<Ingredient>)
    ensures r == start + Filter(cont, NotInTest(found))
  {
    r := start;
    var i := 0;
    while i < |cont|
      invariant 0 <= i <= |cont|
      invariant r == start + Filter(cont[..i], NotInTest(found))
    {
      var ing := cont[i];
      FilterAppend(cont[..i], [ing], NotInTest(found));
      assert cont[..i + 1] == cont[..i] + [ing];
      if ing !in found {
        r := r + [ing];
      }
      i := i + 1;
    }
    assert cont[..i] == cont;
  }

  /** A catalogue entry is in the set of prefix matches exactly when its
      name starts with the query. */
  lemma InPrefixGroupIff(catalog: seq<Ingredient>, q: string)
    ensures forall i :: 0 <= i < |catalog| ==>
      (catalog[i] in Elements(Filter(catalog, PrefixTest(q))) <==> IStartsWith(catalog[i].name, q))
  {
    var a := Filter(catalog, PrefixTest(q));
    forall i | 0 <= i < |catalog| && catalog[i] in Elements(a) ensures IStartsWith(catalog[i].name, q) {
      var k :| 0 <= k < |a| && a[k] == catalog[i];
    }
  }

  /** Dropping the prefix matches from the entries that contain the query
      leaves those that contain it only further in. */
  lemma InnerOnlyByExclusion(catalog: seq<Ingredient>, q: string)
    ensures Filter(Filter(catalog, ContainsTest(q)), NotInTest(Elements(Filter(catalog, PrefixTest(q)))))
         == Filter(catalog, InnerOnlyTest(q))
  {
    InPrefixGroupIff(catalog, q);
    FilterThen(catalog, ContainsTest(q), NotInTest(Elements(Filter(catalog, PrefixTest(q)))), InnerOnlyTest(q));
  }

  /** Without a query, or with an empty one, the catalogue is returned as
      it is. */
  lemma EmptyQueryUnchanged(catalog: seq<Ingredient>, unquote: string -> string)
    ensures SearchResult(catalog, None, unquote) == catalog
    ensures SearchResult(catalog, Some(""), unquote) == catalog
  {
  }

  /** The normalised query is lower-cased already. */
  lemma QueryIsLowered(name: string, unquote: string -> string)
    requires name != []
    ensures Lower(NormaliseQuery(name, unquote)) == NormaliseQuery(name, unquote)
  {
    LowerIdempotent(if name[0] == '%' then unquote(name) else Translate(name));
  }

  /** The matches that start with the query come before all others. */
  lemma PrefixMatchesFirst(catalog: seq<Ingredient>, name: string, unquote: string -> string)
    requires name != []
    ensures var r := SearchResult(catalog, Some(name), unquote);
      var q := NormaliseQuery(name, unquote);
      forall i, j :: 0 <= i < j < |r| && IStartsWith(r[j].name, q) ==> IStartsWith(r[i].name, q)
  {
    var q := NormaliseQuery(name, unquote);
    var a := Filter(catalog, PrefixTest(q));
    var b := Filter(catalog, InnerOnlyTest(q));
    var r := a + b;
    forall k | |a| <= k < |r| ensures !IStartsWith(r[k].name, q) {
      assert r[k] == b[k - |a|];
    }
  }

  /** The result holds exactly the catalogue entries whose name contains
      the query. */
  lemma SearchFindsContaining(catalog: seq<Ingredient>, name: string, unquote: string -> string)
    requires name != []
    ensures var r := SearchResult(catalog, Some(name), unquote);
      var q := NormaliseQuery(name, unquote);
      (forall i :: 0 <= i < |r| ==> r[i] in catalog && IContains(r[i].name, q)) &&
      (forall i :: 0 <= i < |catalog| && IContains(catalog[i].name, q) ==> catalog[i] in r)
  {
    var q := NormaliseQuery(name, unquote);
    var a := Filter(catalog, PrefixTest(q));
    var b := Filter(catalog, InnerOnlyTest(q));
    var r := a + b;
    forall i | 0 <= i < |r| ensures r[i] in catalog && IContains(r[i].name, q) {
      if i < |a| {
        StartsImpliesContains(a[i].name, q);
      } else {
        assert r[i] == b[i - |a|];
      }
    }
    forall i | 0 <= i < |catalog| && IContains(catalog[i].name, q) ensures catalog[i] in r {
      if IStartsWith(catalog[i].name, q) {
        assert catalog[i] in a;
      } else {
        assert catalog[i] in b;
      }
    }
  }

  /** A catalogue without repeated entries gives a result without repeated
      entries: no ingredient is listed in both groups. */
  lemma SearchNoDuplicates(catalog: seq<Ingredient>, name: Option<string>, unquote: string -> string)
    requires Distinct(catalog)
    ensures Distinct(SearchResult(catalog, name, unquote))
  {
    if name.Some? && name.value != [] {
      var q := NormaliseQuery(name.value, unquote);
      var a := Filter(catalog, PrefixTest(q));
      var b := Filter(catalog, InnerOnlyTest(q));
      FilterDistinct(catalog, PrefixTest(q));
      FilterDistinct(catalog, InnerOnlyTest(q));
      forall i, j | 0 <= i < |a| && 0 <= j < |b| ensures a[i] != b[j] {
        assert IStartsWith(a[i].name, q) && !IStartsWith(b[j].name, q);
      }
      DistinctConcat(a, b);
    }
  }

  /** Each group keeps catalogue order: searching a catalogue made of a
      front and a back part lists, within each group, the front part's
      matches before the back part's. */
  lemma SearchKeepsCatalogueOrder(front: seq<Ingredient>, back: seq<Ingredient>, name: string, unquote: string -> string)
    requires name != []
    ensures var q := NormaliseQuery(name, unquote);
      SearchResult(front + back, Some(name), unquote) ==
        Filter(front, PrefixTest(q)) + Filter(back, PrefixTest(q)) +
        (Filter(front, InnerOnlyTest(q)) + Filter(back, InnerOnlyTest(q)))
  {
    var q := NormaliseQuery(name, unquote);
    FilterAppend(front, back, PrefixTest(q));
    FilterAppend(front, back, InnerOnlyTest(q));
  }
}
