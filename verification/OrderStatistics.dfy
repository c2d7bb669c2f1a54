/** Ranks in unsorted lists of frame times. Times are exact reals. */
module OrderStatistics {

  /** How many samples are below v. */
  function Below(s: seq<real>, v: real): (n: nat)
    ensures n <= |s|
  {
    if s == [] then 0 else Below(s[..|s| - 1], v) + if s[|s| - 1] < v then 1 else 0
  }

  /** How many are v or less. */
  function AtMost(s: seq<real>, v: real): (n: nat)
    ensures n <= |s|
  {
    if s == [] then 0 else AtMost(s[..|s| - 1], v) + if s[|s| - 1] <= v then 1 else 0
  }

  /** v is what stands at index k once s is sorted. */
  ghost predicate IsRank(s: seq<real>, k: nat, v: real) {
    v in s && Below(s, v) <= k < AtMost(s, v)
  }

  lemma {:induction false} CountsConcat(a: seq<real>, b: seq<real>, v: real)
    ensures Below(a + b, v) == Below(a, v) + Below(b, v)
    ensures AtMost(a + b, v) == AtMost(a, v) + AtMost(b, v)
  {
    if b == [] {
      assert a + b == a;
    } else {
      assert (a + b)[..|a + b| - 1] == a + b[..|b| - 1];
      CountsConcat(a, b[..|b| - 1], v);
    }
  }

  lemma {:induction false} CountsOrdered(s: seq<real>, v: real, w: real)
    ensures Below(s, v) <= AtMost(s, v)
    ensures v < w ==> AtMost(s, v) <= Below(s, w)
    ensures v in s ==> Below(s, v) < AtMost(s, v)
  {
    if s != [] {
      CountsOrdered(s[..|s| - 1], v, w);
      assert s == s[..|s| - 1] + [s[|s| - 1]];
    }
  }

  /** There is only one value at each rank. */
  lemma RankIsUnique(s: seq<real>, k: nat, v: real, w: real)
    requires IsRank(s, k, v) && IsRank(s, k, w)
    ensures v == w
  {
    CountsOrdered(s, v, w);
    CountsOrdered(s, w, v);
  }

  function Lower(s: seq<real>, p: real): seq<real> {
    if s == [] then [] else Lower(s[..|s| - 1], p) + if s[|s| - 1] < p then [s[|s| - 1]] else []
  }

  function Higher(s: seq<real>, p: real): seq<real> {
    if s == [] then [] else Higher(s[..|s| - 1], p) + if s[|s| - 1] > p then [s[|s| - 1]] else []
  }

  lemma CountsSnoc(s: seq<real>, x: real, v: real)
    ensures Below(s + [x], v) == Below(s, v) + if x < v then 1 else 0
    ensures AtMost(s + [x], v) == AtMost(s, v) + if x <= v then 1 else 0
  {
    assert (s + [x])[..|s|] == s;
  }

  lemma {:induction false} LowerMembers(s: seq<real>, p: real, v: real)
    ensures |Lower(s, p)| == Below(s, p)
    ensures v in Lower(s, p) <==> v in s && v < p
  {
    if s != [] {
      LowerMembers(s[..|s| - 1], p, v);
      assert s == s[..|s| - 1] + [s[|s| - 1]];
    }
  }

  lemma {:induction false} LowerPart(s: seq<real>, p: real, v: real)
    requires v < p
    ensures Below(s, v) == Below(Lower(s, p), v) && AtMost(s, v) == AtMost(Lower(s, p), v)
  {
    if s != [] {
      var front, x := s[..|s| - 1], s[|s| - 1];
      LowerPart(front, p, v);
      assert s == front + [x];
      CountsSnoc(front, x, v);
      if x < p { CountsSnoc(Lower(front, p), x, v); } else { assert Lower(front, p) + [] == Lower(front, p); }
    }
  }

  lemma {:induction false} HigherPart(s: seq<real>, p: real, v: real)
    ensures |Higher(s, p)| == |s| - AtMost(s, p)
    ensures v in Higher(s, p) <==> v in s && v > p
    ensures v > p ==> Below(s, v) == AtMost(s, p) + Below(Higher(s, p), v)
                      && AtMost(s, v) == AtMost(s, p) + AtMost(Higher(s, p), v)
  {
    if s != [] {
      var front, x := s[..|s| - 1], s[|s| - 1];
      HigherPart(front, p, v);
      assert Higher(s, p) == Higher(front, p) + if x > p then [x] else [];
      hide *;
      assert s == front + [x];
      CountsSnoc(front, x, p);
      CountsSnoc(front, x, v);
      if x > p {
        CountsSnoc(Higher(front, p), x, v);
      } else {
        assert Higher(s, p) == Higher(front, p);
      }
    }
  }

  lemma CountsOne(x: real, v: real)
    ensures Below([x], v) == (if x < v then 1 else 0) && AtMost([x], v) == (if x <= v then 1 else 0)
    ensures Below([], v) == 0 && AtMost([], v) == 0
  {
    assert [x][..0] == [];
  }

  /** `std::nth_element`, by partition around a pivot. */
  function Nth(s: seq<real>, k: nat): (v: real)
    requires k < |s|
    ensures IsRank(s, k, v)
    decreases |s|
  {
    var p := s[0];
    CountsOrdered(s, p, p);
    LowerMembers(s, p, p);
    HigherPart(s, p, p);
    if k < Below(s, p) then
      var v := Nth(Lower(s, p), k);
      LowerMembers(s, p, v);
      LowerPart(s, p, v);
      v
    else if k < AtMost(s, p) then p
    else
      var v := Nth(Higher(s, p), k - AtMost(s, p));
      HigherPart(s, p, v);
      v
  }

  /** Replacing the oldest sample by a new one moves a rank no further than to a neighbouring rank of the old window. */
  lemma ReplacementMovesOneRank(x: real, rest: seq<real>, y: real, k: nat)
    requires k < |rest| + 1
    ensures k > 0 ==> Nth([x] + rest, k - 1) <= Nth(rest + [y], k)
    ensures k < |rest| ==> Nth(rest + [y], k) <= Nth([x] + rest, k + 1)
  {
    var s, t := [x] + rest, rest + [y];
    var v := Nth(t, k);
    CountsConcat([x], rest, v);
    CountsConcat(rest, [y], v);
    CountsOne(x, v);
    CountsOne(y, v);
    if k > 0 {
      var u := Nth(s, k - 1);
      CountsOrdered(s, v, u);
    }
    if k < |rest| {
      var u := Nth(s, k + 1);
      CountsOrdered(s, u, v);
    }
  }

  // ----- ranks are what sorting gives -----

  ghost predicate Sorted(s: seq<real>) {
    forall i, j | 0 <= i < j < |s| :: s[i] <= s[j]
  }

  lemma RemoveOne(front: seq<real>, x: real, a: seq<real>, b: seq<real>)
    requires multiset(front + [x]) == multiset(a + [x] + b)
    ensures multiset(front) == multiset(a + b)
  {
    var m, n := multiset(front), multiset(a + b);
    assert multiset(front + [x]) == m + multiset{x};
    assert multiset(a + [x] + b) == multiset(a) + multiset{x} + multiset(b) == n + multiset{x};
    assert (m + multiset{x}) - multiset{x} == m && (n + multiset{x}) - multiset{x} == n;
  }

  lemma {:induction false} CountsAreOfMultiset(s: seq<real>, t: seq<real>, v: real)
    requires multiset(s) == multiset(t)
    ensures Below(s, v) == Below(t, v) && AtMost(s, v) == AtMost(t, v)
    decreases |s|
  {
    if s == [] {
      assert |multiset(t)| == |t| == 0;
    } else {
      var front, x := s[..|s| - 1], s[|s| - 1];
      assert s == front + [x] && x in multiset(t);
      var k :| 0 <= k < |t| && t[k] == x;
      var a, b := t[..k], t[k + 1..];
      assert t == a + [x] + b;
      RemoveOne(front, x, a, b);
      CountsAreOfMultiset(front, a + b, v);
      hide *;
      CountsSnoc(front, x, v);
      CountsConcat(a, b, v);
      CountsConcat(a + [x], b, v);
      CountsSnoc(a, x, v);
    }
  }

  lemma {:induction false} SortedCounts(s: seq<real>, k: nat)
    requires Sorted(s) && k < |s|
    ensures Below(s, s[k]) <= k < AtMost(s, s[k])
  {
    var n := |s| - 1;
    var front := s[..n];
    assert s == front + [s[n]];
    CountsSnoc(front, s[n], s[k]);
    if k < n {
      SortedCounts(front, k);
    } else {
      NoneAbove(front, s[n]);
    }
  }

  lemma {:induction false} NoneAbove(s: seq<real>, v: real)
    requires forall i | 0 <= i < |s| :: s[i] <= v
    ensures AtMost(s, v) == |s|
  {
    if s != [] { NoneAbove(s[..|s| - 1], v); }
  }

  /** The value found is the one at that index of the sorted list. */
  lemma NthIsSorted(s: seq<real>, sorted: seq<real>, k: nat)
    requires multiset(s) == multiset(sorted) && Sorted(sorted) && k < |s|
    ensures |sorted| == |s| && Nth(s, k) == sorted[k]
  {
    assert |multiset(s)| == |s| && |multiset(sorted)| == |sorted|;
    var v := sorted[k];
    SortedCounts(sorted, k);
    CountsAreOfMultiset(s, sorted, v);
    assert v in multiset(s);
    RankIsUnique(s, k, v, Nth(s, k));
  }
}
