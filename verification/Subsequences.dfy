/** Sequences with some elements left out, order kept. */
module Subsequences {

  ghost predicate IsSubseq<T(!new)>(a: seq<T>, b: seq<T>)
    decreases |b|
  {
    if a == [] then true
    else if b == [] then false
    else
      || (a[|a| - 1] == b[|b| - 1] && IsSubseq(a[..|a| - 1], b[..|b| - 1]))
      || IsSubseq(a, b[..|b| - 1])
  }

  lemma Take<T(!new)>(a: seq<T>, b: seq<T>, x: T)
    requires IsSubseq(a, b)
    ensures IsSubseq(a + [x], b + [x])
  {
    assert (a + [x])[..|a|] == a && (b + [x])[..|b|] == b;
  }

  lemma Skip<T(!new)>(a: seq<T>, b: seq<T>, x: T)
    requires IsSubseq(a, b)
    ensures IsSubseq(a, b + [x])
  {
    assert (b + [x])[..|b|] == b;
  }

  lemma {:induction false} Reflexive<T(!new)>(a: seq<T>)
    ensures IsSubseq(a, a)
  {
    if a != [] { Reflexive(a[..|a| - 1]); }
  }

  lemma {:induction false} Prefix<T(!new)>(a: seq<T>, b: seq<T>, n: nat)
    requires n <= |a| && IsSubseq(a, b)
    ensures IsSubseq(a[..n], b)
    decreases |b|
  {
    if n == |a| {
      assert a[..n] == a;
    } else if n > 0 {
      if a[|a| - 1] == b[|b| - 1] && IsSubseq(a[..|a| - 1], b[..|b| - 1]) {
        Prefix(a[..|a| - 1], b[..|b| - 1], n);
        assert a[..|a| - 1][..n] == a[..n];
        Skip(a[..n], b[..|b| - 1], b[|b| - 1]);
      } else {
        Prefix(a, b[..|b| - 1], n);
        Skip(a[..n], b[..|b| - 1], b[|b| - 1]);
      }
      assert b[..|b| - 1] + [b[|b| - 1]] == b;
    }
  }

  lemma {:induction false} SuffixOf<T(!new)>(b: seq<T>, n: nat)
    requires n <= |b|
    ensures IsSubseq(b[n..], b)
    decreases |b|
  {
    if n < |b| {
      SuffixOf(b[..|b| - 1], n);
      assert b[n..][..|b[n..]| - 1] == b[..|b| - 1][n..];
    }
  }

  lemma {:induction false} Transitive<T(!new)>(a: seq<T>, b: seq<T>, c: seq<T>)
    requires IsSubseq(a, b) && IsSubseq(b, c)
    ensures IsSubseq(a, c)
    decreases |b| + |c|
  {
    if a != [] && b != [] {
      var c' := c[..|c| - 1];
      if b[|b| - 1] == c[|c| - 1] && IsSubseq(b[..|b| - 1], c') {
        if a[|a| - 1] == b[|b| - 1] && IsSubseq(a[..|a| - 1], b[..|b| - 1]) {
          Transitive(a[..|a| - 1], b[..|b| - 1], c');
        } else {
          Transitive(a, b[..|b| - 1], c');
        }
      } else {
        Transitive(a, b, c');
      }
    }
  }

  lemma {:induction false} Members<T(!new)>(a: seq<T>, b: seq<T>)
    requires IsSubseq(a, b)
    ensures |a| <= |b| && forall x | x in a :: x in b
    decreases |b|
  {
    if a != [] {
      if a[|a| - 1] == b[|b| - 1] && IsSubseq(a[..|a| - 1], b[..|b| - 1]) {
        Members(a[..|a| - 1], b[..|b| - 1]);
        assert a == a[..|a| - 1] + [a[|a| - 1]];
      } else {
        Members(a, b[..|b| - 1]);
      }
    }
  }

  lemma {:induction false} SameLength<T(!new)>(a: seq<T>, b: seq<T>)
    requires IsSubseq(a, b) && |a| == |b|
    ensures a == b
    decreases |b|
  {
    if a != [] {
      if !(a[|a| - 1] == b[|b| - 1] && IsSubseq(a[..|a| - 1], b[..|b| - 1])) { Members(a, b[..|b| - 1]); }
      SameLength(a[..|a| - 1], b[..|b| - 1]);
      assert a == a[..|a| - 1] + [a[|a| - 1]] && b == b[..|b| - 1] + [b[|b| - 1]];
    }
  }

  lemma {:induction false} Concat<T(!new)>(a: seq<T>, b: seq<T>, c: seq<T>, d: seq<T>)
    requires IsSubseq(a, b) && IsSubseq(c, d)
    ensures IsSubseq(a + c, b + d)
    decreases |d|
  {
    if d == [] {
      assert a + c == a && b + d == b;
    } else {
      var d', y := d[..|d| - 1], d[|d| - 1];
      assert b + d == (b + d') + [y];
      if c != [] && c[|c| - 1] == y && IsSubseq(c[..|c| - 1], d') {
        Concat(a, b, c[..|c| - 1], d');
        Take(a + c[..|c| - 1], b + d', y);
        assert (a + c[..|c| - 1]) + [y] == a + c;
      } else {
        Concat(a, b, c, d');
        Skip(a + c, b + d', y);
      }
    }
  }
}
