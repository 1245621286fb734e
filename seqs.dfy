/** Sequence helpers the model is written with: duplicate-freedom, an
    order-keeping filter (what a query-set filter does to the rows it keeps),
    the rows of a join and their de-duplication, and joining lines with a
    separator (Python's str.join). */
module Seqs {

  /** No element occurs twice. */
  predicate Distinct<T(==)>(s: seq<T>) {
    forall i, j :: 0 <= i < j < |s| ==> s[i] != s[j]
  }

  function Elements<T(==)>(s: seq<T>): set<T> {
    set x | x in s
  }

  /** A sequence is duplicate-free exactly when each value occurs at most
      once in it. */
  lemma {:induction false} DistinctIffAtMostOnce<T>(s: seq<T>)
    ensures Distinct(s) <==> forall x :: multiset(s)[x] <= 1
  {
    if s != [] {
      var t := s[1..];
      assert s == [s[0]] + t;
      assert multiset(s) == multiset{s[0]} + multiset(t);
      DistinctIffAtMostOnce(t);
      if Distinct(s) {
        assert Distinct(t) by {
          forall i, j | 0 <= i < j < |t| ensures t[i] != t[j] {
            assert t[i] == s[i + 1] && t[j] == s[j + 1];
          }
        }
        assert s[0] !in t by {
          forall k | 0 <= k < |t| ensures t[k] != s[0] {
            assert t[k] == s[k + 1];
          }
        }
        assert multiset(t)[s[0]] == 0;
      } else {
        var i, j :| 0 <= i < j < |s| && s[i] == s[j];
        if i == 0 {
          assert t[j - 1] == s[0];
          assert multiset(s)[s[0]] >= 2;
        } else {
          assert t[i - 1] == t[j - 1];
          assert !Distinct(t);
          var x :| multiset(t)[x] > 1;
          assert multiset(s)[x] > 1;
        }
      }
    }
  }

  lemma {:induction false} ElementsOfCons<T>(s: seq<T>)
    requires s != []
    ensures Elements(s) == {s[0]} + Elements(s[1..])
  {
    forall x | x in Elements(s) ensures x in {s[0]} + Elements(s[1..]) {
      var k :| 0 <= k < |s| && s[k] == x;
      if k > 0 { assert s[1..][k - 1] == x; }
    }
  }

  lemma ElementsOfSnoc<T>(s: seq<T>, x: T)
    ensures Elements(s + [x]) == Elements(s) + {x}
  {
    forall y | y in Elements(s + [x]) ensures y in Elements(s) + {x} {
      var k :| 0 <= k < |s + [x]| && (s + [x])[k] == y;
      if k < |s| { assert s[k] == y; }
    }
  }

  /** A sequence with a first element is duplicate-free exactly when its
      tail is and does not hold that element. */
  lemma DistinctCons<T>(x: T, s: seq<T>)
    ensures Distinct([x] + s) <==> x !in Elements(s) && Distinct(s)
  {
    var t := [x] + s;
    assert t[1..] == s;
    if Distinct(t) {
      forall i, j | 0 <= i < j < |s| ensures s[i] != s[j] {
        assert s[i] == t[i + 1] && s[j] == t[j + 1];
      }
      forall k | 0 <= k < |s| ensures s[k] != x {
        assert s[k] == t[k + 1] && t[0] == x;
      }
    }
    if x !in Elements(s) && Distinct(s) {
      forall i, j | 0 <= i < j < |t| ensures t[i] != t[j] {
        assert t[j] == s[j - 1] && s[j - 1] in Elements(s);
        if i > 0 { assert t[i] == s[i - 1]; }
      }
    }
  }

  /** Two duplicate-free sequences with no element in common make a
      duplicate-free concatenation. */
  lemma DistinctConcat<T>(a: seq<T>, b: seq<T>)
    requires Distinct(a) && Distinct(b)
    requires forall i, j :: 0 <= i < |a| && 0 <= j < |b| ==> a[i] != b[j]
    ensures Distinct(a + b)
  {
    var r := a + b;
    forall i, j | 0 <= i < j < |r| ensures r[i] != r[j] {
      if j < |a| {
        assert r[i] == a[i] && r[j] == a[j];
      } else if i < |a| {
        assert r[i] == a[i] && r[j] == b[j - |a|];
      } else {
        assert r[i] == b[i - |a|] && r[j] == b[j - |a|];
      }
    }
  }

  /** A sequence has at least as many positions as distinct elements. */
  lemma {:induction false} ElementsBound<T>(s: seq<T>)
    ensures |Elements(s)| <= |s|
  {
    if s != [] {
      ElementsOfCons(s);
      ElementsBound(s[1..]);
    }
  }

  /** A sequence is duplicate-free exactly when its element set is as
      large as the sequence is long. */
  lemma {:induction false} DistinctIffCardinality<T>(s: seq<T>)
    ensures Distinct(s) <==> |Elements(s)| == |s|
  {
    if s != [] {
      var t := s[1..];
      ElementsOfCons(s);
      ElementsBound(t);
      DistinctIffCardinality(t);
      if Distinct(s) {
        assert Distinct(t) by {
          forall i, j | 0 <= i < j < |t| ensures t[i] != t[j] {
            assert t[i] == s[i + 1] && t[j] == s[j + 1];
          }
        }
        assert s[0] !in Elements(t);
      } else {
        var i, j :| 0 <= i < j < |s| && s[i] == s[j];
        if i == 0 {
          assert s[0] in Elements(t) by { assert t[j - 1] == s[j]; }
          assert {s[0]} + Elements(t) == Elements(t);
        } else {
          assert t[i - 1] == t[j - 1];
          assert !Distinct(t);
        }
      }
    }
  }

  /** The elements of `s` that satisfy `p`, in the order of `s`. */
  function Filter<T(==)>(s: seq<T>, p: T -> bool): (r: seq<T>)
    ensures |r| <= |s|
    ensures forall i :: 0 <= i < |r| ==> r[i] in s && p(r[i])
    ensures forall i :: 0 <= i < |s| && p(s[i]) ==> s[i] in r
  {
    if s == [] then []
    else if p(s[0]) then [s[0]] + Filter(s[1..], p)
    else Filter(s[1..], p)
  }

  lemma {:induction false} FilterDistinct<T>(s: seq<T>, p: T -> bool)
    requires Distinct(s)
    ensures Distinct(Filter(s, p))
  {
    if s != [] {
      var t := s[1..];
      assert Distinct(t) by {
        forall i, j | 0 <= i < j < |t| ensures t[i] != t[j] {
          assert t[i] == s[i + 1] && t[j] == s[j + 1];
        }
      }
      FilterDistinct(t, p);
      if p(s[0]) {
        var f := Filter(t, p);
        assert s[0] !in f;
        var r := [s[0]] + f;
        forall i, j | 0 <= i < j < |r| ensures r[i] != r[j] {
          assert r[j] == f[j - 1];
          if i > 0 { assert r[i] == f[i - 1]; }
        }
      }
    }
  }

  /** Filtering twice is filtering once by both conditions. */
  lemma {:induction false} FilterTwice<T>(s: seq<T>, p: T -> bool, q: T -> bool)
    ensures Filter(Filter(s, p), q) == Filter(s, x => p(x) && q(x))
  {
    if s != [] {
      FilterTwice(s[1..], p, q);
      if p(s[0]) {
        assert ([s[0]] + Filter(s[1..], p))[1..] == Filter(s[1..], p);
      }
    }
  }

  /** Two conditions that agree on the elements of `s` filter it alike. */
  lemma {:induction false} FilterAgrees<T>(s: seq<T>, p: T -> bool, q: T -> bool)
    requires forall i :: 0 <= i < |s| ==> p(s[i]) == q(s[i])
    ensures Filter(s, p) == Filter(s, q)
  {
    if s != [] {
      FilterAgrees(s[1..], p, q);
    }
  }

  /** A condition every element meets keeps the whole sequence. */
  lemma {:induction false} FilterAll<T>(s: seq<T>, p: T -> bool)
    requires forall i :: 0 <= i < |s| ==> p(s[i])
    ensures Filter(s, p) == s
  {
    if s != [] {
      FilterAll(s[1..], p);
    }
  }

  /** Filtering by `p` and then by `q` is filtering once by any `r` that is
      their conjunction on the elements of `s`. */
  lemma FilterThen<T>(s: seq<T>, p: T -> bool, q: T -> bool, r: T -> bool)
    requires forall i :: 0 <= i < |s| ==> r(s[i]) == (p(s[i]) && q(s[i]))
    ensures Filter(Filter(s, p), q) == Filter(s, r)
  {
    FilterTwice(s, p, q);
    FilterAgrees(s, x => p(x) && q(x), r);
  }

  /** Filtering distributes over concatenation: whatever it keeps from the
      front part comes before whatever it keeps from the back part, so the
      order of `s` is kept. */
  lemma {:induction false} FilterAppend<T>(a: seq<T>, b: seq<T>, p: T -> bool)
    ensures Filter(a + b, p) == Filter(a, p) + Filter(b, p)
  {
    if a == [] {
      assert a + b == b;
    } else {
      assert (a + b)[0] == a[0];
      assert (a + b)[1..] == a[1..] + b;
      FilterAppend(a[1..], b, p);
    }
  }

  /** The number of elements of `s` that satisfy `p`. */
  function Count<T(==)>(s: seq<T>, p: T -> bool): nat {
    |Filter(s, p)|
  }

  /** Some element satisfies `p` exactly when the count is positive. */
  lemma CountPositive<T>(s: seq<T>, p: T -> bool)
    ensures Count(s, p) > 0 <==> exists k :: 0 <= k < |s| && p(s[k])
  {
    if Count(s, p) > 0 {
      var r := Filter(s, p);
      assert r[0] in s && p(r[0]);
    }
  }

  /** `n` copies of `x`. */
  function Repeat<T>(x: T, n: nat): (r: seq<T>)
    ensures |r| == n && forall i :: 0 <= i < n ==> r[i] == x
  {
    if n == 0 then [] else [x] + Repeat(x, n - 1)
  }

  lemma RepeatAdd<T>(x: T, a: nat, b: nat)
    ensures Repeat(x, a) + Repeat(x, b) == Repeat(x, a + b)
  {
    assert forall i :: 0 <= i < a + b ==> (Repeat(x, a) + Repeat(x, b))[i] == x;
  }

  /** Every element `x` of `s` in place `m(x)` times: the rows an SQL join
      yields when `x` has `m(x)` matching rows on the other side. */
  function Expand<T>(s: seq<T>, m: T -> nat): seq<T> {
    if s == [] then [] else Repeat(s[0], m(s[0])) + Expand(s[1..], m)
  }

  lemma {:induction false} ExpandAppend<T>(a: seq<T>, b: seq<T>, m: T -> nat)
    ensures Expand(a + b, m) == Expand(a, m) + Expand(b, m)
  {
    if a == [] {
      assert a + b == b;
    } else {
      assert (a + b)[0] == a[0];
      assert (a + b)[1..] == a[1..] + b;
      ExpandAppend(a[1..], b, m);
    }
  }

  lemma {:induction false} ExpandRepeat<T>(x: T, n: nat, m: T -> nat)
    ensures Expand(Repeat(x, n), m) == Repeat(x, n * m(x))
  {
    if n > 0 {
      var r := Repeat(x, n);
      assert r[0] == x && r[1..] == Repeat(x, n - 1);
      ExpandRepeat(x, n - 1, m);
      RepeatAdd(x, m(x), (n - 1) * m(x));
      assert m(x) + (n - 1) * m(x) == n * m(x);
    }
  }

  /** Two counts that agree on the elements of `s` expand it alike. */
  lemma {:induction false} ExpandAgrees<T>(s: seq<T>, a: T -> nat, b: T -> nat)
    requires forall i :: 0 <= i < |s| ==> a(s[i]) == b(s[i])
    ensures Expand(s, a) == Expand(s, b)
  {
    if s != [] {
      ExpandAgrees(s[1..], a, b);
    }
  }

  /** Joining by `a` and then by `b` is joining once by their product. */
  lemma {:induction false} ExpandThen<T>(s: seq<T>, a: T -> nat, b: T -> nat, c: T -> nat)
    requires forall i :: 0 <= i < |s| ==> c(s[i]) == a(s[i]) * b(s[i])
    ensures Expand(Expand(s, a), b) == Expand(s, c)
  {
    if s != [] {
      ExpandAppend(Repeat(s[0], a(s[0])), Expand(s[1..], a), b);
      ExpandRepeat(s[0], a(s[0]), b);
      ExpandThen(s[1..], a, b, c);
    }
  }

  /** A count of one keeps the sequence. */
  lemma {:induction false} ExpandOnce<T>(s: seq<T>, m: T -> nat)
    requires forall i :: 0 <= i < |s| ==> m(s[i]) == 1
    ensures Expand(s, m) == s
  {
    if s != [] {
      ExpandOnce(s[1..], m);
      assert s == [s[0]] + s[1..];
    }
  }

  /** A filter is a join with zero or one matching row. */
  lemma {:induction false} FilterAsExpand<T>(s: seq<T>, p: T -> bool, c: T -> nat)
    requires forall i :: 0 <= i < |s| ==> c(s[i]) == if p(s[i]) then 1 else 0
    ensures Filter(s, p) == Expand(s, c)
  {
    if s != [] {
      FilterAsExpand(s[1..], p, c);
    }
  }

  /** Filtering the rows of a join keeps those of the elements that pass. */
  lemma FilterExpand<T>(s: seq<T>, a: T -> nat, p: T -> bool, c: T -> nat)
    requires forall i :: 0 <= i < |s| ==> c(s[i]) == if p(s[i]) then a(s[i]) else 0
    ensures Filter(Expand(s, a), p) == Expand(s, c)
  {
    var unit := (x: T) => if p(x) then 1 else 0;
    FilterAsExpand(Expand(s, a), p, unit);
    ExpandThen(s, a, unit, c);
  }

  /** An element is among the rows of a join exactly when it has a row. */
  lemma {:induction false} ExpandElements<T>(s: seq<T>, m: T -> nat, x: T)
    ensures x in Expand(s, m) <==> x in s && m(x) > 0
  {
    if s != [] {
      ExpandElements(s[1..], m, x);
      assert x in s <==> x == s[0] || x in s[1..];
    }
  }

  /** A join repeats each element as often as it occurs times its count. */
  lemma {:induction false} ExpandCount<T>(s: seq<T>, m: T -> nat, x: T)
    ensures multiset(Expand(s, m))[x] == multiset(s)[x] * m(x)
  {
    if s != [] {
      var t := s[1..];
      ExpandCount(t, m, x);
      RepeatCount(s[0], m(s[0]), x);
      ExpandConsCount(s, m, x);
      MultisetConsCount(s, x);
      if x == s[0] {
        MulSucc(multiset(t)[x], m(x));
      }
    }
  }

  lemma ExpandConsCount<T>(s: seq<T>, m: T -> nat, x: T)
    requires s != []
    ensures multiset(Expand(s, m))[x] == multiset(Repeat(s[0], m(s[0])))[x] + multiset(Expand(s[1..], m))[x]
  {
    assert Expand(s, m) == Repeat(s[0], m(s[0])) + Expand(s[1..], m);
  }

  lemma MultisetConsCount<T>(s: seq<T>, x: T)
    requires s != []
    ensures multiset(s)[x] == (if x == s[0] then 1 else 0) + multiset(s[1..])[x]
  {
    assert s == [s[0]] + s[1..];
  }

  lemma MulSucc(c: nat, k: nat)
    ensures (c + 1) * k == k + c * k
  {
  }

  lemma {:induction false} RepeatCount<T>(y: T, n: nat, x: T)
    ensures multiset(Repeat(y, n))[x] == if x == y then n else 0
  {
    if n > 0 {
      RepeatCount(y, n - 1, x);
      assert Repeat(y, n) == [y] + Repeat(y, n - 1);
    }
  }

  /** The elements of `s` that are not in `seen`, each at its first
      occurrence: what SELECT DISTINCT keeps of an ordered result. */
  function DedupAfter<T(==)>(seen: set<T>, s: seq<T>): seq<T>
    decreases |s|
  {
    if s == [] then []
    else if s[0] in seen then DedupAfter(seen, s[1..])
    else [s[0]] + DedupAfter(seen + {s[0]}, s[1..])
  }

  function Dedup<T(==)>(s: seq<T>): seq<T> {
    DedupAfter({}, s)
  }

  /** The result has no repeats and holds exactly the unseen elements. */
  lemma {:induction false} DedupAfterElements<T>(seen: set<T>, s: seq<T>)
    ensures Distinct(DedupAfter(seen, s))
    ensures forall x :: x in DedupAfter(seen, s) <==> x in s && x !in seen
    decreases |s|
  {
    if s != [] {
      DedupAfterElements(seen, s[1..]);
      DedupAfterElements(seen + {s[0]}, s[1..]);
      assert forall x :: x in s <==> x == s[0] || x in s[1..];
      if s[0] !in seen {
        DistinctCons(s[0], DedupAfter(seen + {s[0]}, s[1..]));
      }
    }
  }

  lemma {:induction false} DedupSkips<T>(seen: set<T>, x: T, n: nat, t: seq<T>)
    requires x in seen
    ensures DedupAfter(seen, Repeat(x, n) + t) == DedupAfter(seen, t)
  {
    if n > 0 {
      var r := Repeat(x, n) + t;
      assert r[0] == x && r[1..] == Repeat(x, n - 1) + t;
      DedupSkips(seen, x, n - 1, t);
    } else {
      assert Repeat(x, n) + t == t;
    }
  }

  /** SELECT DISTINCT over a join of duplicate-free rows leaves the rows
      that have a match, once each and in their order. */
  lemma {:induction false} DedupExpand<T>(seen: set<T>, s: seq<T>, m: T -> nat, p: T -> bool)
    requires Distinct(s)
    requires forall i :: 0 <= i < |s| ==> s[i] !in seen && p(s[i]) == (m(s[i]) > 0)
    ensures DedupAfter(seen, Expand(s, m)) == Filter(s, p)
    decreases |s|
  {
    if s != [] {
      var t := s[1..];
      assert Distinct(t) && s[0] !in t by {
        DistinctCons(s[0], t);
        assert s == [s[0]] + t;
      }
      var rest := Expand(t, m);
      if m(s[0]) == 0 {
        assert Expand(s, m) == rest;
        DedupExpand(seen, t, m, p);
      } else {
        var e := Repeat(s[0], m(s[0])) + rest;
        assert e[0] == s[0] && e[1..] == Repeat(s[0], m(s[0]) - 1) + rest;
        DedupSkips(seen + {s[0]}, s[0], m(s[0]) - 1, rest);
        DedupExpand(seen + {s[0]}, t, m, p);
      }
    }
  }

  /** The lines of `parts` separated by `sep`, as Python's sep.join(parts). */
  function Join(parts: seq<string>, sep: string): string
    decreases |parts|
  {
    if parts == [] then ""
    else if |parts| == 1 then parts[0]
    else parts[0] + sep + Join(parts[1..], sep)
  }

  predicate IsSuffix<T(==)>(a: seq<T>, b: seq<T>) {
    |a| <= |b| && b[|b| - |a|..] == a
  }

  /** The joined text starts with the first part and ends with the last. */
  lemma {:induction false} JoinFrames(parts: seq<string>, sep: string)
    requires parts != []
    ensures parts[0] <= Join(parts, sep)
    ensures IsSuffix(parts[|parts| - 1], Join(parts, sep))
  {
    if |parts| > 1 {
      var tail := parts[1..];
      JoinFrames(tail, sep);
      var rest := Join(tail, sep);
      var whole := parts[0] + sep + rest;
      assert whole[|whole| - |tail[|tail| - 1]|..] == rest[|rest| - |tail[|tail| - 1]|..];
    }
  }
}
