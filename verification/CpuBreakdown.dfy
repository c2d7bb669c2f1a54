/** The microsecond clock and the per-subsystem accumulators of `plugin/src/samplers/cpu_breakdown.cpp`. */
module CpuBreakdown {
  import opened Bits

  const MICROS: nat := 1_000_000
  const INT64_MAX: nat := 0x7FFF_FFFF_FFFF_FFFF

  // ----- the clock -----

  /** Ticks to microseconds by split division; the counter is never negative. */
  function QpcNowUs(c: nat, freq: int): nat {
    if freq <= 0 then 0
    else (c / freq) * MICROS + (c % freq) * MICROS / freq
  }

  /** Without a counter the clock stands at 0; with one it is exact. */
  lemma QpcIsExact(c: nat, freq: int)
    ensures QpcNowUs(c, freq) == if freq > 0 then c * MICROS / freq else 0
  {
    if freq <= 0 { return; }
    var q, r := c / freq, c % freq;
    assert c == q * freq + r;
    var d, m := r * MICROS / freq, (r * MICROS) % freq;
    assert r * MICROS == d * freq + m;
    assert (q * freq) * MICROS == (q * MICROS) * freq;
    assert c * MICROS == (q * MICROS) * freq + r * MICROS == (q * MICROS + d) * freq + m;
    DivUnique(c * MICROS, q * MICROS + d, freq, m);
  }

  lemma DivUnique(x: int, q: int, d: nat, r: nat)
    requires r < d && x == q * d + r
    ensures x / d == q
  {
    ModUnique(x, q, d, r);
    if x / d > q { MulGap(x / d, q, d); } else if x / d < q { MulGap(q, x / d, d); }
  }

  lemma DivMonotone(x: nat, y: nat, d: nat)
    requires x <= y && d > 0
    ensures x / d <= y / d
  {
    if x / d > y / d { MulGap(x / d, y / d, d); }
  }

  /** A bracket's delta is never negative. */
  lemma QpcIsMonotone(c: nat, c': nat, freq: int)
    requires c <= c'
    ensures QpcNowUs(c, freq) <= QpcNowUs(c', freq)
  {
    if freq > 0 {
      QpcIsExact(c, freq);
      QpcIsExact(c', freq);
      DivMonotone(c * MICROS, c' * MICROS, freq);
    }
  }

  /** Every intermediate value of the split division fits an int64. */
  predicate NoOverflow(c: nat, freq: nat)
    requires freq > 0
  {
    (c / freq) * MICROS <= INT64_MAX && (c % freq) * MICROS <= INT64_MAX && QpcNowUs(c, freq) <= INT64_MAX
  }

  /** The split division is safe for every counter whose result fits, exactly for frequencies up to 9223372036855. */
  lemma OverflowSafeIff(freq: nat)
    requires 0 < freq <= INT64_MAX
    ensures (forall c: nat | QpcNowUs(c, freq) <= INT64_MAX :: NoOverflow(c, freq)) <==> freq <= 9_223_372_036_855
  {
    if freq <= 9_223_372_036_855 {
      forall c: nat | QpcNowUs(c, freq) <= INT64_MAX ensures NoOverflow(c, freq) { SmallIsSafe(c, freq); }
    } else {
      LargeOverflows(freq);
    }
  }

  lemma SmallIsSafe(c: nat, freq: nat)
    requires 0 < freq <= 9_223_372_036_855 && QpcNowUs(c, freq) <= INT64_MAX
    ensures NoOverflow(c, freq)
  {
    var q, r := c / freq, c % freq;
    assert QpcNowUs(c, freq) == q * MICROS + r * MICROS / freq;
    assert r <= 9_223_372_036_854;
    hide QpcNowUs;
    DivMonotone(0, r * MICROS, freq);
  }

  /** The last tick before a full second: its remainder times a million is too large, its result is not. */
  lemma LargeOverflows(freq: nat)
    requires 9_223_372_036_855 < freq <= INT64_MAX
    ensures QpcNowUs(freq - 1, freq) <= INT64_MAX && !NoOverflow(freq - 1, freq)
  {
    var c := freq - 1;
    DivUnique(c, 0, freq, c);
    ModUnique(c, 0, freq, c);
    var x := c * MICROS;
    assert x == MICROS * freq - MICROS;
    var d := x / freq;
    assert x == d * freq + x % freq;
    if d >= MICROS { MulMonotone(MICROS, d, freq); }
  }

  // ----- the accumulators -----

  datatype Subsystem = Papyrus | Havok | Ai | RenderSubmit | Streaming

  /** One atomic operation on one bucket: an Add* call from any thread, or one of the five exchanges of ConsumeFrame. */
  datatype Action = Add(s: Subsystem, us: int) | Exchange(s: Subsystem)

  datatype Buckets = Buckets(papyrus: int, havok: int, ai: int, renderSubmit: int, streaming: int)

  datatype Snapshot = Snapshot(papyrusMs: real, havokMs: real, aiMs: real, renderSubmitMs: real, streamingMs: real)

  const EMPTY := Buckets(0, 0, 0, 0, 0)

  function Get(b: Buckets, s: Subsystem): int {
    match s
    case Papyrus => b.papyrus
    case Havok => b.havok
    case Ai => b.ai
    case RenderSubmit => b.renderSubmit
    case Streaming => b.streaming
  }

  function Set(b: Buckets, s: Subsystem, v: int): Buckets {
    match s
    case Papyrus => b.(papyrus := v)
    case Havok => b.(havok := v)
    case Ai => b.(ai := v)
    case RenderSubmit => b.(renderSubmit := v)
    case Streaming => b.(streaming := v)
  }

  function Apply(b: Buckets, a: Action): Buckets {
    match a
    case Add(s, us) => if us > 0 then Set(b, s, Get(b, s) + us) else b
    case Exchange(s) => Set(b, s, 0)
  }

  class Accumulators {
    var b: Buckets

    constructor ()
      ensures b == EMPTY
    {
      b := EMPTY;
    }

    method AddUs(s: Subsystem, us: int)
      modifies this
      ensures b == Apply(old(b), Add(s, us))
    {
      if us > 0 { b := Set(b, s, Get(b, s) + us); }
    }

    /** With nobody adding meanwhile, the five exchanges take out everything, and each bucket is handed out in milliseconds. */
    method ConsumeFrame() returns (snap: Snapshot)
      modifies this
      ensures b == EMPTY
      ensures snap.papyrusMs * 1000.0 == old(b).papyrus as real && snap.havokMs * 1000.0 == old(b).havok as real
      ensures snap.aiMs * 1000.0 == old(b).ai as real && snap.renderSubmitMs * 1000.0 == old(b).renderSubmit as real
      ensures snap.streamingMs * 1000.0 == old(b).streaming as real
    {
      var p := b.papyrus;
      b := Set(b, Papyrus, 0);
      var h := b.havok;
      b := Set(b, Havok, 0);
      var i := b.ai;
      b := Set(b, Ai, 0);
      var r := b.renderSubmit;
      b := Set(b, RenderSubmit, 0);
      var s := b.streaming;
      b := Set(b, Streaming, 0);
      snap := Snapshot(p as real / 1000.0, h as real / 1000.0, i as real / 1000.0, r as real / 1000.0, s as real / 1000.0);
    }
  }

  function After(b: Buckets, acts: seq<Action>): Buckets {
    if acts == [] then b else Apply(After(b, acts[..|acts| - 1]), acts[|acts| - 1])
  }

  /** The total a bucket's exchanges have returned. */
  function Drained(b: Buckets, acts: seq<Action>, s: Subsystem): int {
    if acts == [] then 0
    else
      var n := |acts| - 1;
      Drained(b, acts[..n], s) + if acts[n] == Exchange(s) then Get(After(b, acts[..n]), s) else 0
  }

  /** The total of the positive deltas added to it. */
  function Given(acts: seq<Action>, s: Subsystem): nat {
    if acts == [] then 0
    else
      var n := |acts| - 1;
      Given(acts[..n], s) + if acts[n].Add? && acts[n].s == s && acts[n].us > 0 then acts[n].us else 0
  }

  /** In every interleaving no microsecond is lost or counted twice: what the frames have drained and what is left is what was
      added. */
  lemma {:induction false} NothingIsLost(b: Buckets, acts: seq<Action>, s: Subsystem)
    requires Get(b, s) == 0
    ensures Drained(b, acts, s) + Get(After(b, acts), s) == Given(acts, s)
    ensures Get(After(b, acts), s) >= 0
    decreases |acts|
  {
    if acts != [] { NothingIsLost(b, acts[..|acts| - 1], s); }
  }
}
