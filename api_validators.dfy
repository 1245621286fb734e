/** The recipe-submission validators (api/validators.py).

    ingredients_validator makes one pass over the submitted (id, amount)
    pairs, summing the amounts of repeated ids into a dict and refusing a
    malformed amount or a running total that is not positive; it refuses an
    empty result and a result none of whose ids is in the ingredient
    catalogue; it then replaces the entry of every id the catalogue knows by
    an (ingredient, amount) pair.  Ids the catalogue does not know stay in
    the dict with their bare summed amount.

    tags_exist_validator compares the number of distinct existing tags
    among the submitted ids with the number of ids submitted. */
module ApiValidators {
  import opened Common
  import opened Seqs
  import opened Decimal
  import opened Models

  const MalformedAmountMessage := "Неправильное количество ингидиента"
  const NonPositiveAmountMessage := "Неправильное количество ингридиента"
  const BadIngredientsMessage := "Неправильные ингидиенты"
  const UnknownTagMessage := "Указан несуществующий тэг"

  /** The 'amount' of a submission: a JSON number or a JSON string. */
  datatype Amount = IntAmount(n: int) | TextAmount(text: string)

  datatype Submission = Submission(id: int, amount: Amount)

  /** A value of the validator's dict: the bare running total (a Python int)
      or, once the id is resolved, the (ingredient, amount) pair. */
  datatype Entry = Bare(amount: int) | Paired(ingredient: Ingredient, amount: int)

  /** isinstance(amount, int) or amount.isdigit() */
  predicate WellFormed(a: Amount) {
    a.IntAmount? || IsDigitString(a.text)
  }

  /** int(amount), for a well-formed amount (0 for any other). */
  function AmountValue(a: Amount): int {
    if a.IntAmount? then a.n else if IsDigitString(a.text) then DecimalValue(a.text) else 0
  }

  /** valid_ings.get(id, 0) */
  function Total(totals: map<int, Entry>, id: int): int {
    if id in totals then totals[id].amount else 0
  }

  /** The running total of submission `s` is positive and its amount well
      formed: the two checks the first loop makes on each submission. */
  predicate StepOk(totals: map<int, Entry>, s: Submission) {
    WellFormed(s.amount) && Total(totals, s.id) + AmountValue(s.amount) > 0
  }

  /** valid_ings[id] = amount, after the checks on `s` passed. */
  function Step(totals: map<int, Entry>, s: Submission): map<int, Entry> {
    totals[s.id := Bare(Total(totals, s.id) + AmountValue(s.amount))]
  }

  /** The first loop of ingredients_validator, run on `subs` from the dict
      `totals`. */
  function Accumulate(totals: map<int, Entry>, subs: seq<Submission>): Result<map<int, Entry>, Error>
    decreases |subs|
  {
    if subs == [] then Ok(totals)
    else
      var s := subs[0];
      if !WellFormed(s.amount) then Err(ValidationError(MalformedAmountMessage))
      else if Total(totals, s.id) + AmountValue(s.amount) <= 0 then Err(ValidationError(NonPositiveAmountMessage))
      else Accumulate(Step(totals, s), subs[1..])
  }

  /** The second loop: every id the catalogue knows gets its ingredient. */
  function Resolve(totals: map<int, Entry>, catalog: map<int, Ingredient>): map<int, Entry> {
    map id | id in totals :: if id in catalog then Paired(catalog[id], totals[id].amount) else totals[id]
  }

  /** ingredients_validator(subs, Ingredient), with the ingredient table as
      the map `catalog` from primary key to row. */
  function ValidateIngredients(subs: seq<Submission>, catalog: map<int, Ingredient>): Result<map<int, Entry>, Error> {
    match Accumulate(map[], subs)
    case Err(e) => Err(e)
    case Ok(totals) =>
      if totals == map[] then Err(ValidationError(BadIngredientsMessage))
      else if totals.Keys * catalog.Keys == {} then Err(ValidationError(BadIngredientsMessage))
      else Ok(Resolve(totals, catalog))
  }

  method IngredientsValidator(ingredients: seq<Submission>, catalog: map<int, Ingredient>)
    returns (r: Result<map<int, Entry>, Error>)
    ensures r == ValidateIngredients(ingredients, catalog)
  {
    var validIngs: map<int, Entry> := map[];
    var i := 0;
    while i < |ingredients|
      invariant 0 <= i <= |ingredients|
      invariant Accumulate(validIngs, ingredients[i..]) == Accumulate(map[], ingredients)
    {
      var ing := ingredients[i];
      assert ingredients[i..][0] == ing && ingredients[i..][1..] == ingredients[i + 1..];
      if !WellFormed(ing.amount) {
        return Err(ValidationError(MalformedAmountMessage));
      }
      var amount := Total(validIngs, ing.id) + AmountValue(ing.amount);
      if amount <= 0 {
        return Err(ValidationError(NonPositiveAmountMessage));
      }
      validIngs := validIngs[ing.id := Bare(amount)];
      i := i + 1;
    }
    assert ingredients[i..] == [];
    if validIngs == map[] {
      return Err(ValidationError(BadIngredientsMessage));
    }
    // db_ings = Ingredient.objects.filter(pk__in=valid_ings.keys())
    var dbIngs := validIngs.Keys * catalog.Keys;
    if dbIngs == {} {
      return Err(ValidationError(BadIngredientsMessage));
    }
    ghost var totals := validIngs;
    var pending := dbIngs;
    while pending != {}
      invariant pending <= dbIngs
      invariant validIngs.Keys == totals.Keys
      invariant forall id :: id in totals ==>
        validIngs[id] == if id in dbIngs - pending then Paired(catalog[id], totals[id].amount) else totals[id]
      decreases pending
    {
      if forall id :: id !in pending { assert false; }
      var pk :| pk in pending;
      validIngs := validIngs[pk := Paired(catalog[pk], validIngs[pk].amount)];
      pending := pending - {pk};
    }
    assert dbIngs - pending == dbIngs;
    forall id | id in totals ensures validIngs[id] == Resolve(totals, catalog)[id] {
    }
    assert validIngs == Resolve(totals, catalog);
    return Ok(validIngs);
  }

  // What the validator computes, stated against the submissions themselves

  /** The ids that occur in the submissions. */
  function SubmittedIds(subs: seq<Submission>): set<int> {
    set k | 0 <= k < |subs| :: subs[k].id
  }

  /** Sum of the amounts submitted for `id`. */
  function SumFor(subs: seq<Submission>, id: int): int
    decreases |subs|
  {
    if subs == [] then 0
    else (if subs[0].id == id then AmountValue(subs[0].amount) else 0) + SumFor(subs[1..], id)
  }

  /** Every amount is well formed, and after each submission the running
      total for its id, starting from `totals`, is positive. */
  predicate RunningTotalsPositive(totals: map<int, Entry>, subs: seq<Submission>) {
    forall k :: 0 <= k < |subs| ==>
      WellFormed(subs[k].amount) && Total(totals, subs[k].id) + SumFor(subs[..k + 1], subs[k].id) > 0
  }

  lemma SumForCons(subs: seq<Submission>, k: nat, id: int)
    requires k < |subs|
    ensures SumFor(subs[..k + 1], id) ==
      (if subs[0].id == id then AmountValue(subs[0].amount) else 0) + (if k == 0 then 0 else SumFor(subs[1..][..k], id))
  {
    assert subs[..k + 1][1..] == subs[1..][..k];
    if k == 0 { assert subs[1..][..k] == []; }
  }

  /** The running total at position k >= 1, seen from the dict after the
      first submission. */
  lemma RunningTotalShift(totals: map<int, Entry>, subs: seq<Submission>, k: nat)
    requires 1 <= k < |subs|
    ensures Total(totals, subs[k].id) + SumFor(subs[..k + 1], subs[k].id)
         == Total(Step(totals, subs[0]), subs[1..][k - 1].id) + SumFor(subs[1..][..k], subs[1..][k - 1].id)
  {
    SumForCons(subs, k, subs[k].id);
  }

  lemma RunningTotalsCons(totals: map<int, Entry>, subs: seq<Submission>)
    requires subs != []
    ensures RunningTotalsPositive(totals, subs) <==>
      StepOk(totals, subs[0]) && RunningTotalsPositive(Step(totals, subs[0]), subs[1..])
  {
    var t := subs[1..];
    var next := Step(totals, subs[0]);
    SumForCons(subs, 0, subs[0].id);
    if RunningTotalsPositive(totals, subs) {
      forall k | 0 <= k < |t|
        ensures WellFormed(t[k].amount) && Total(next, t[k].id) + SumFor(t[..k + 1], t[k].id) > 0
      {
        RunningTotalShift(totals, subs, k + 1);
      }
    }
    if StepOk(totals, subs[0]) && RunningTotalsPositive(next, t) {
      forall k | 1 <= k < |subs|
        ensures WellFormed(subs[k].amount) && Total(totals, subs[k].id) + SumFor(subs[..k + 1], subs[k].id) > 0
      {
        RunningTotalShift(totals, subs, k);
      }
    }
  }

  lemma SubmittedIdsCons(subs: seq<Submission>)
    requires subs != []
    ensures SubmittedIds(subs) == {subs[0].id} + SubmittedIds(subs[1..])
  {
    var t := subs[1..];
    forall x | x in SubmittedIds(subs) ensures x in {subs[0].id} + SubmittedIds(t) {
      var k :| 0 <= k < |subs| && subs[k].id == x;
      if k > 0 { assert t[k - 1].id == x; }
    }
    forall x | x in SubmittedIds(t) ensures x in SubmittedIds(subs) {
      var k :| 0 <= k < |t| && t[k].id == x;
      assert subs[k + 1].id == x;
    }
  }

  /** The first loop succeeds exactly when every amount is well formed and
      every running total stays positive; a negative amount is therefore
      accepted when the total it leaves is still positive. */
  lemma {:induction false} AccumulateSucceedsIff(totals: map<int, Entry>, subs: seq<Submission>)
    ensures Accumulate(totals, subs).Ok? <==> RunningTotalsPositive(totals, subs)
    decreases |subs|
  {
    if subs != [] {
      RunningTotalsCons(totals, subs);
      if StepOk(totals, subs[0]) {
        AccumulateSucceedsIff(Step(totals, subs[0]), subs[1..]);
      }
    }
  }

  /** The first loop stops at the first submission whose amount is
      malformed or whose running total is not positive, with the message
      that belongs to that check. */
  lemma {:induction false} AccumulateFailsAt(totals: map<int, Entry>, subs: seq<Submission>, k: nat)
    requires k < |subs|
    requires RunningTotalsPositive(totals, subs[..k])
    requires !(WellFormed(subs[k].amount) && Total(totals, subs[k].id) + SumFor(subs[..k + 1], subs[k].id) > 0)
    ensures Accumulate(totals, subs) ==
      Err(ValidationError(if WellFormed(subs[k].amount) then NonPositiveAmountMessage else MalformedAmountMessage))
    decreases k
  {
    SumForCons(subs, 0, subs[0].id);
    if k > 0 {
      var t := subs[1..];
      var p := subs[..k];
      RunningTotalsCons(totals, p);
      assert p[0] == subs[0] && p[1..] == t[..k - 1];
      RunningTotalShift(totals, subs, k);
      AccumulateFailsAt(Step(totals, subs[0]), t, k - 1);
    }
  }

  /** What a successful first loop holds: one entry per submitted id (and
      per id already in `totals`), a bare amount equal to the starting total
      plus the sum of every amount submitted for that id. */
  lemma {:induction false} AccumulateSums(totals: map<int, Entry>, subs: seq<Submission>)
    requires Accumulate(totals, subs).Ok?
    ensures Accumulate(totals, subs).value.Keys == totals.Keys + SubmittedIds(subs)
    ensures forall id :: id in Accumulate(totals, subs).value ==>
      Accumulate(totals, subs).value[id] ==
        if id in SubmittedIds(subs) then Bare(Total(totals, id) + SumFor(subs, id)) else totals[id]
    decreases |subs|
  {
    if subs != [] {
      var next := Step(totals, subs[0]);
      AccumulateSums(next, subs[1..]);
      SubmittedIdsCons(subs);
      assert Accumulate(totals, subs) == Accumulate(next, subs[1..]);
      forall id | id in SubmittedIds(subs) && id !in SubmittedIds(subs[1..])
        ensures SumFor(subs[1..], id) == 0
      {
        SumForAbsentIds(subs[1..], id);
      }
    }
  }

  lemma SumForAbsentIds(subs: seq<Submission>, id: int)
    requires id !in SubmittedIds(subs)
    ensures SumFor(subs, id) == 0
  {
    forall j | 0 <= j < |subs| ensures subs[j].id != id {
      assert subs[j].id in SubmittedIds(subs);
    }
    SumForAbsent(subs, id);
  }

  /** Every failure of the first loop carries one of its two messages. */
  lemma {:induction false} AccumulateErrors(totals: map<int, Entry>, subs: seq<Submission>)
    requires Accumulate(totals, subs).Err?
    ensures Accumulate(totals, subs).error in
      {ValidationError(MalformedAmountMessage), ValidationError(NonPositiveAmountMessage)}
    decreases |subs|
  {
    if StepOk(totals, subs[0]) {
      AccumulateErrors(Step(totals, subs[0]), subs[1..]);
    }
  }

  /** The validator succeeds exactly when some submission was made, every
      running total stays positive, and at least one submitted id is in the
      catalogue. */
  lemma ValidateSucceedsIff(subs: seq<Submission>, catalog: map<int, Ingredient>)
    ensures ValidateIngredients(subs, catalog).Ok? <==>
      subs != [] && RunningTotalsPositive(map[], subs) && SubmittedIds(subs) * catalog.Keys != {}
  {
    AccumulateSucceedsIff(map[], subs);
    if Accumulate(map[], subs).Ok? {
      AccumulateSums(map[], subs);
      if subs != [] { assert subs[0].id in SubmittedIds(subs); }
    }
  }

  /** Every failure of the validator is a ValidationError with one of its
      three messages; the two last checks share theirs. */
  lemma ValidateErrors(subs: seq<Submission>, catalog: map<int, Ingredient>)
    requires ValidateIngredients(subs, catalog).Err?
    ensures ValidateIngredients(subs, catalog).error in
      {ValidationError(MalformedAmountMessage), ValidationError(NonPositiveAmountMessage), ValidationError(BadIngredientsMessage)}
  {
    if Accumulate(map[], subs).Err? {
      AccumulateErrors(map[], subs);
    }
  }

  /** An empty submission list is refused. */
  lemma EmptySubmissionRefused(catalog: map<int, Ingredient>)
    ensures ValidateIngredients([], catalog) == Err(ValidationError(BadIngredientsMessage))
  {
  }

  /** The last position at which `id` is submitted. */
  lemma {:induction false} LastSubmission(subs: seq<Submission>, id: int) returns (k: nat)
    requires id in SubmittedIds(subs)
    ensures k < |subs| && subs[k].id == id
    ensures forall j :: k < j < |subs| ==> subs[j].id != id
    decreases |subs|
  {
    var n := |subs| - 1;
    if subs[n].id == id {
      k := n;
    } else {
      var p := subs[..n];
      var w :| 0 <= w < |subs| && subs[w].id == id;
      assert p[w].id == id;
      k := LastSubmission(p, id);
      assert forall j :: k < j < n ==> p[j] == subs[j];
    }
  }

  /** When every running total stays positive, so does the whole sum for
      each submitted id. */
  lemma SumForPositive(subs: seq<Submission>, id: int)
    requires RunningTotalsPositive(map[], subs)
    requires id in SubmittedIds(subs)
    ensures SumFor(subs, id) > 0
  {
    var k := LastSubmission(subs, id);
    SumForSplit(subs, k + 1, id);
    var rest := subs[k + 1..];
    forall j | 0 <= j < |rest| ensures rest[j].id != id {
      assert rest[j] == subs[k + 1 + j];
    }
    SumForAbsent(subs[k + 1..], id);
  }

  /** On success every distinct submitted id occurs exactly once, with the
      sum of its submitted amounts, which is positive: paired with its
      ingredient when the catalogue has the id, bare otherwise. */
  lemma ValidateResult(subs: seq<Submission>, catalog: map<int, Ingredient>)
    requires ValidateIngredients(subs, catalog).Ok?
    ensures ValidateIngredients(subs, catalog).value.Keys == SubmittedIds(subs)
    ensures forall id :: id in SubmittedIds(subs) ==> SumFor(subs, id) > 0
    ensures forall id :: id in SubmittedIds(subs) ==>
      ValidateIngredients(subs, catalog).value[id] ==
        if id in catalog then Paired(catalog[id], SumFor(subs, id)) else Bare(SumFor(subs, id))
  {
    AccumulateSums(map[], subs);
    AccumulateSucceedsIff(map[], subs);
    forall id | id in SubmittedIds(subs) ensures SumFor(subs, id) > 0 {
      SumForPositive(subs, id);
    }
  }

  lemma {:induction false} SumForSplit(subs: seq<Submission>, n: nat, id: int)
    requires n <= |subs|
    ensures SumFor(subs, id) == SumFor(subs[..n], id) + SumFor(subs[n..], id)
    decreases n
  {
    if n > 0 {
      SumForSplit(subs[1..], n - 1, id);
      assert subs[..n][1..] == subs[1..][..n - 1];
      assert subs[1..][n - 1..] == subs[n..];
    } else {
      assert subs[..n] == [] && subs[n..] == subs;
    }
  }

  lemma {:induction false} SumForAbsent(subs: seq<Submission>, id: int)
    requires forall j :: 0 <= j < |subs| ==> subs[j].id != id
    ensures SumFor(subs, id) == 0
    decreases |subs|
  {
    if subs != [] { SumForAbsent(subs[1..], id); }
  }

  // The examples the validator's behaviour turns on

  const Flour := Ingredient(1, "мука", "г")

  /** An id missing from the catalogue stays in the result with its bare
      amount: it is neither removed nor refused. */
  lemma UnknownIdKeptBare()
    ensures ValidateIngredients([Submission(1, IntAmount(2)), Submission(999, IntAmount(3))], map[1 := Flour])
         == Ok(map[1 := Paired(Flour, 2), 999 := Bare(3)])
  {
    var subs := [Submission(1, IntAmount(2)), Submission(999, IntAmount(3))];
    var m1: map<int, Entry> := map[1 := Bare(2)];
    var m2: map<int, Entry> := map[1 := Bare(2), 999 := Bare(3)];
    assert subs[1..] == [subs[1]] && [subs[1]][1..] == [];
    assert Step(map[], subs[0]) == m1;
    assert Step(m1, subs[1]) == m2;
    assert Accumulate(m1, [subs[1]]) == Accumulate(m2, []);
    assert Accumulate(map[], subs) == Ok(m2);
    assert 1 in m2.Keys * map[1 := Flour].Keys;
    assert Resolve(m2, map[1 := Flour]) == map[1 := Paired(Flour, 2), 999 := Bare(3)];
  }

  /** A negative number is accepted while the running total stays positive,
      and the repeated id is merged into one summed entry. */
  lemma NegativeAmountMerged()
    ensures ValidateIngredients([Submission(1, IntAmount(5)), Submission(1, IntAmount(-3))], map[1 := Flour])
         == Ok(map[1 := Paired(Flour, 2)])
  {
    var subs := [Submission(1, IntAmount(5)), Submission(1, IntAmount(-3))];
    var m1: map<int, Entry> := map[1 := Bare(5)];
    var m2: map<int, Entry> := map[1 := Bare(2)];
    assert subs[1..] == [subs[1]] && [subs[1]][1..] == [];
    assert Step(map[], subs[0]) == m1;
    assert Step(m1, subs[1]) == m2;
    assert Accumulate(m1, [subs[1]]) == Accumulate(m2, []);
    assert Accumulate(map[], subs) == Ok(m2);
    assert 1 in m2.Keys * map[1 := Flour].Keys;
    assert Resolve(m2, map[1 := Flour]) == map[1 := Paired(Flour, 2)];
  }

  /** A string amount must be all digits: "-3" and "2a" are refused. */
  lemma SignedTextRefused()
    ensures ValidateIngredients([Submission(1, TextAmount("-3"))], map[1 := Flour])
         == Err(ValidationError(MalformedAmountMessage))
    ensures ValidateIngredients([Submission(1, TextAmount("2a"))], map[1 := Flour])
         == Err(ValidationError(MalformedAmountMessage))
  {
    assert !IsDigit("-3"[0]);
    assert !IsDigit("2a"[1]);
  }

  /** tags_exist_validator(tags_ids, Tag), with the tag table given by the
      set of its primary keys. */
  function TagsExistValidator(tagIds: seq<int>, existing: set<int>): Outcome<Error> {
    var found := set t | t in tagIds && t in existing;
    if |found| != |tagIds| then Fail(ValidationError(UnknownTagMessage)) else Pass
  }

  /** The tag check passes exactly when every submitted id exists and none
      is submitted twice: a repeated id is refused even when it exists. */
  lemma TagsExistIff(tagIds: seq<int>, existing: set<int>)
    ensures TagsExistValidator(tagIds, existing).Pass? <==>
      Distinct(tagIds) && forall k :: 0 <= k < |tagIds| ==> tagIds[k] in existing
  {
    var found := set t | t in tagIds && t in existing;
    assert found <= Elements(tagIds);
    ElementsBound(tagIds);
    DistinctIffCardinality(tagIds);
    if forall k :: 0 <= k < |tagIds| ==> tagIds[k] in existing {
      assert found == Elements(tagIds);
    } else {
      var k :| 0 <= k < |tagIds| && tagIds[k] !in existing;
      var all := Elements(tagIds);
      assert tagIds[k] in all - found;
      assert all == found + (all - found);
      assert |all| == |found| + |all - found|;
    }
  }
}
