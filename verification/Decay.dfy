/** Rounded exponential decay, as `SnapshotTopAndDecay` applies it to each counter. The factor is the rational p / q. */
module Decay {
  import opened Bits

  /** `std::round(x * p / q)`: halves are rounded away from zero. */
  function Decayed(x: nat, p: nat, q: nat): nat
    requires q > 0
  {
    (2 * (x * p) + q) / (2 * q)
  }

  /** It is the nearest integer, and the larger of two equally near ones. */
  lemma DecayedIsNearest(x: nat, p: nat, q: nat)
    requires q > 0
    ensures 2 * (x * p) - q < 2 * (Decayed(x, p, q) * q) <= 2 * (x * p) + q
  {
    var n, d := 2 * (x * p) + q, Decayed(x, p, q);
    assert n == d * (2 * q) + n % (2 * q);
    assert d * (2 * q) == 2 * (d * q);
  }

  lemma AtLeastIff(x: nat, m: nat, p: nat, q: nat)
    requires q > 0
    ensures Decayed(x, p, q) >= m <==> 2 * (m * q) <= 2 * (x * p) + q
  {
    var d := Decayed(x, p, q);
    DecayedIsNearest(x, p, q);
    hide Decayed;
    if d >= m { MulMonotone(m, d, q); } else { MulGap(m, d, q); }
  }

  /** The largest counter the decay leaves alone. */
  function Floor(p: nat, q: nat): nat
    requires p < q
  {
    q / (2 * (q - p))
  }

  lemma FloorIs(x: nat, p: nat, q: nat)
    requires p < q
    ensures x <= Floor(p, q) <==> 2 * (x * (q - p)) <= q
  {
    var d, k := 2 * (q - p), Floor(p, q);
    assert q == k * d + q % d;
    assert x * d == 2 * (x * (q - p));
    if x <= k { MulMonotone(x, k, d); } else { MulGap(x, k, d); }
  }

  lemma DecayedMonotone(x: nat, y: nat, p: nat, q: nat)
    requires x <= y && q > 0
    ensures Decayed(x, p, q) <= Decayed(y, p, q)
  {
    var dx, dy := Decayed(x, p, q), Decayed(y, p, q);
    DecayedIsNearest(x, p, q);
    DecayedIsNearest(y, p, q);
    MulMonotone(x, y, p);
    if dy < dx { MulGap(dx, dy, q); }
  }

  /** Exactly the counters up to the floor are fixed; a larger one shrinks but not below the floor. */
  lemma DecayedStep(x: nat, p: nat, q: nat)
    requires p < q
    ensures Decayed(x, p, q) <= x
    ensures Decayed(x, p, q) == x <==> x <= Floor(p, q)
    ensures x >= Floor(p, q) ==> Decayed(x, p, q) >= Floor(p, q)
  {
    hide Decayed, Floor;
    var k := Floor(p, q);
    NotAbove(x, p, q);
    FixedIff(x, p, q);
    FixedIff(k, p, q);
    if k <= x { DecayedMonotone(k, x, p, q); }
  }

  lemma NotAbove(x: nat, p: nat, q: nat)
    requires p < q
    ensures Decayed(x, p, q) <= x
  {
    hide Decayed;
    AtLeastIff(x, x + 1, p, q);
    assert (x + 1) * q == x * q + q;
    MulMonotone(p, q, x);
    assert p * x == x * p && q * x == x * q;
  }

  lemma FixedIff(x: nat, p: nat, q: nat)
    requires p < q
    ensures Decayed(x, p, q) >= x <==> x <= Floor(p, q)
  {
    hide Decayed, Floor;
    AtLeastIff(x, x, p, q);
    FloorIs(x, p, q);
    assert x * q == x * p + x * (q - p);
  }

  function Iterated(x: nat, n: nat, p: nat, q: nat): nat
    requires q > 0
    decreases n
  {
    if n == 0 then x else Iterated(Decayed(x, p, q), n - 1, p, q)
  }

  function Min(x: nat, y: nat): nat {
    if x < y then x else y
  }

  /** An idle counter x comes down to exactly min(x, Floor) within x snapshots and stays there. */
  lemma {:induction false} IdleReachesFloor(x: nat, n: nat, p: nat, q: nat)
    requires p < q && n >= x - Min(x, Floor(p, q))
    ensures Iterated(x, n, p, q) == Min(x, Floor(p, q))
  {
    if n > 0 {
      DecayedStep(x, p, q);
      IdleReachesFloor(Decayed(x, p, q), n - 1, p, q);
    }
  }

  /** Idle counters die out exactly for factors below one half. */
  lemma FloorIsZeroIff(p: nat, q: nat)
    requires p < q
    ensures Floor(p, q) == 0 <==> 2 * p < q
  {
    FloorIs(1, p, q);
  }

  lemma HalvedAtLeast(x: nat, p: nat, q: nat)
    requires 2 * p < q
    ensures 2 * Decayed(x, p, q) <= x
  {
    hide Decayed;
    var h := x / 2;
    AtLeastIff(x, h + 1, p, q);
    assert 2 * ((h + 1) * q) == (2 * h + 2) * q;
    MulMonotone(x + 1, 2 * h + 2, q);
    assert (x + 1) * q == x * q + q;
    assert 2 * (x * p) == x * (2 * p);
    if x > 0 { MulGap(q, 2 * p, x); assert q * x == x * q && 2 * p * x == x * (2 * p); }
  }

  /** Below one half a counter is gone after n snapshots as soon as it is below 2^n. */
  lemma {:induction false} DiesWithin(x: nat, n: nat, p: nat, q: nat)
    requires 2 * p < q && x < Pow2(n)
    ensures Iterated(x, n, p, q) == 0
  {
    if n > 0 {
      HalvedAtLeast(x, p, q);
      DiesWithin(Decayed(x, p, q), n - 1, p, q);
    }
  }

  // ----- the factor shipped -----

  /** `kDecay = 0.55`. */
  const SHIPPED_NUM := 11
  const SHIPPED_DEN := 20

  /** With 0.55 every idle counter ends at 1, not at 0. */
  lemma ShippedNeverDies(x: nat, n: nat)
    requires 1 <= x <= n
    ensures Iterated(x, n, SHIPPED_NUM, SHIPPED_DEN) == 1
  {
    IdleReachesFloor(x, n, SHIPPED_NUM, SHIPPED_DEN);
  }

  // ----- what the viewer's running sum measures -----

  function Sum(s: seq<nat>): nat {
    if s == [] then 0 else s[0] + Sum(s[1..])
  }

  /** The values emitted for one script, one per snapshot: what the last decay left, plus what was added since. */
  function Emitted(carry: nat, added: seq<nat>, p: nat, q: nat): (w: seq<nat>)
    requires q > 0
    ensures |w| == |added|
    decreases |added|
  {
    if added == [] then []
    else
      var w := carry + added[0];
      [w] + Emitted(Decayed(w, p, q), added[1..], p, q)
  }

  /** (1 - d) times the sum of the emitted values plus d times the last one is the total activity, up to half a microsecond per
      decay: n values, n - 1 decays between them. Multiplied out by 2q here. */
  lemma {:induction false} SumIntegratesActivity(carry: nat, added: seq<nat>, p: nat, q: nat)
    requires p < q && added != []
    ensures var w := Emitted(carry, added, p, q);
            var measured := 2 * ((q - p) * Sum(w)) + 2 * (p * w[|w| - 1]);
            var actual := 2 * (q * (carry + Sum(added)));
            actual - q * (|added| - 1) <= measured <= actual + q * (|added| - 1)
    decreases |added|
  {
    var w := carry + added[0];
    var ws := Emitted(carry, added, p, q);
    if |added| == 1 {
      assert added[1..] == [] && ws == [w] && ws[1..] == [];
      assert Sum(ws) == w + Sum([]) && Sum(added) == added[0] + Sum([]);
      assert (q - p) * w + p * w == q * w;
    } else {
      var d := Decayed(w, p, q);
      var rest := Emitted(d, added[1..], p, q);
      SumIntegratesActivity(d, added[1..], p, q);
      DecayedIsNearest(w, p, q);
      assert ws == [w] + rest && ws[1..] == rest && ws[|ws| - 1] == rest[|rest| - 1];
      assert Sum(ws) == w + Sum(rest);
      assert Sum(added) == added[0] + Sum(added[1..]);
      Recombine(w, Sum(rest), d, Sum(added[1..]), |added| - 2, p, q);
    }
  }

  lemma Recombine(w: nat, s: nat, d: nat, a: nat, n: nat, p: nat, q: nat)
    requires p < q
    ensures (q - p) * (w + s) == (q - p) * s + q * w - p * w
    ensures q * (w + a) == q * (d + a) + q * w - q * d
    ensures q * (n + 1) == q * n + q
    ensures d * q == q * d && w * p == p * w
  {
  }

  /** If no window adds more than A, no emitted value exceeds (A + 1/2) / (1 - d). */
  lemma {:induction false} EmittedBounded(carry: nat, added: seq<nat>, A: nat, p: nat, q: nat)
    requires p < q && (forall a | a in added :: a <= A)
    requires 2 * ((q - p) * carry) <= (2 * A + 1) * p + (q - p)
    ensures forall w | w in Emitted(carry, added, p, q) :: 2 * ((q - p) * w) <= (2 * A + 1) * q
    decreases |added|
  {
    if added != [] {
      var w := carry + added[0];
      assert added[0] in added;
      assert 2 * ((q - p) * w) <= (2 * A + 1) * q by { BoundedNow(carry, added[0], A, p, q); }
      BoundedNext(w, A, p, q);
      assert forall a | a in added[1..] :: a in added;
      EmittedBounded(Decayed(w, p, q), added[1..], A, p, q);
    }
  }

  lemma BoundedNow(carry: nat, a: nat, A: nat, p: nat, q: nat)
    requires p < q && a <= A
    requires 2 * ((q - p) * carry) <= (2 * A + 1) * p + (q - p)
    ensures 2 * ((q - p) * (carry + a)) <= (2 * A + 1) * q
  {
    var c := q - p;
    MulMonotone(a, A, c);
    Distribute(c, carry, a);
    Distribute(2 * A + 1, p, c);
    assert (2 * A + 1) * c == 2 * (A * c) + c;
    assert p + c == q;
  }

  lemma Distribute(x: int, y: int, z: int)
    ensures x * (y + z) == x * y + x * z == x * y + z * x
  {
  }

  lemma BoundedNext(w: nat, A: nat, p: nat, q: nat)
    requires p < q && 2 * ((q - p) * w) <= (2 * A + 1) * q
    ensures 2 * ((q - p) * Decayed(w, p, q)) <= (2 * A + 1) * p + (q - p)
  {
    var d, c, b := Decayed(w, p, q), q - p, 2 * A + 1;
    DecayedIsNearest(w, p, q);
    // c * (2 d q) <= c * (2 w p + q), and 2 c w <= b q
    assert 2 * (d * q) <= 2 * (w * p) + q;
    MulMonotone(2 * (d * q), 2 * (w * p) + q, c);
    MulMonotone(2 * (c * w), b * q, p);
    assert (2 * (d * q)) * c == (2 * (c * d)) * q by { Shuffle(d, q, c); }
    assert (2 * (w * p) + q) * c == (2 * (c * w)) * p + c * q by { Shuffle(w, p, c); }
    assert (b * q) * p + c * q == (b * p + c) * q;
    if 2 * (c * d) > b * p + c { MulGap(2 * (c * d), b * p + c, q); }
  }

  lemma Shuffle(x: nat, y: nat, c: nat)
    ensures (2 * (x * y)) * c == (2 * (c * x)) * y
  {
    assert (x * y) * c == (c * x) * y;
  }
}
