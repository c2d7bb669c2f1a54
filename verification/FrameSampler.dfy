/** The per-frame hook of `plugin/src/samplers/frame_sampler.cpp`: frame times, their rolling median, and the residual of the CPU
    breakdown. Floating point is replaced by exact reals. */
module FrameSampler {
  import opened OrderStatistics

  const WINDOW: nat := 240

  /** The last `WINDOW` frame times of a history. */
  function Recent(history: seq<real>): (r: seq<real>)
    ensures |r| == if |history| < WINDOW then |history| else WINDOW
  {
    if |history| < WINDOW then history else history[|history| - WINDOW..]
  }

  /** Counter ticks in milliseconds. */
  function Millis(ticks: int, freq: int): (ms: real)
    requires freq != 0
    ensures ms * freq as real == 1000.0 * ticks as real
  {
    ticks as real * 1000.0 / freq as real
  }

  /** The slots of a window and the recent history: in order while it fills, a rotation of it afterwards. */
  ghost predicate Holds(w: seq<real>, count: nat, idx: nat, history: seq<real>) {
    && |w| == WINDOW && count == |Recent(history)| && idx < WINDOW
    && (count < WINDOW ==> idx == 0 && w[..count] == Recent(history))
    && (count == WINDOW ==> w[idx..] + w[..idx] == Recent(history))
  }

  /** The published median: the order statistic of rank floor(n / 2) of the recent history. */
  ghost predicate Published(history: seq<real>, p50: real) {
    history != [] ==> IsRank(Recent(history), |Recent(history)| / 2, p50)
  }

  class FrameState {
    const window: array<real>
    var lastPresent: int
    var count: nat
    var idx: nat
    var p50: real
    const freq: int                 // qpc_freq
    ghost var history: seq<real>
    ghost var readings: seq<Reading>

    /** The slots hold exactly the recent history; once full, the oldest sample is at `idx`. */
    ghost predicate Valid()
      reads this, window
    {
      Slots() && Published(history, p50)
    }

    /** The history is what the hook's rule makes of the counter readings so far. */
    ghost predicate Timed()
      reads this
    {
      lastPresent == LastPresent(readings) && (freq != 0 ==> history == FrameTimes(readings, freq))
    }

    constructor (freq: int)
      ensures Valid() && Timed() && this.freq == freq && fresh(window)
      ensures history == [] && readings == [] && p50 == 16.6 && lastPresent == 0
    {
      this.freq := freq;
      window := new real[WINDOW](_ => 0.0);
      lastPresent, count, idx, p50, history, readings := 0, 0, 0, 16.6, [], [];
    }

    /** The published median is the order statistic of rank floor(n / 2) of the last n <= 240 frame times. */
    method UpdateRollingP50(dt: real)
      requires Valid()
      modifies this`count, this`idx, this`p50, this`history, window
      ensures Valid() && history == old(history) + [dt]
      ensures p50 == Nth(Recent(history), |Recent(history)| / 2)
    {
      Store(dt);
      p50 := Median();
    }

    /** `std::nth_element` on a copy of the filled slots. */
    method Median() returns (m: real)
      requires Slots() && history != []
      ensures m == Nth(Recent(history), |Recent(history)| / 2)
    {
      MedianOfSlots(window[..], count, idx, history);
      hide IsRank, Nth, Recent, Holds;
      var copy := window[..count];
      m := Nth(copy, count / 2);
    }

    /** One call of the hook, with the counter read before and after the game's own update. Nothing is sampled without a
        counter or a writer. */
    method OnUpdate(r: Reading, hasWriter: bool, known: real)
      returns (sampled: bool, dt: real, cpu: real, other: real)
      requires Valid() && Timed()
      modifies this, window
      ensures Valid() && Timed() && sampled == (freq != 0 && hasWriter)
      ensures !sampled ==> history == old(history) && readings == old(readings) && p50 == old(p50)
      ensures sampled ==> history == old(history) + [dt] && readings == old(readings) + [r]
      ensures sampled ==> cpu * freq as real == 1000.0 * (r.after - r.before) as real
      ensures sampled && old(lastPresent) == 0 ==> dt == cpu
      ensures sampled && old(lastPresent) != 0 ==> dt * freq as real == 1000.0 * (r.after - old(lastPresent)) as real
      ensures sampled ==> known + other == if cpu > known then cpu else known
    {
      hide Millis, FrameTimes, Recent, Nth, IsRank, Holds, Published, Total, Other;
      sampled, dt, cpu, other := false, 0.0, 0.0, 0.0;
      if freq == 0 || !hasWriter { return; }
      sampled := true;
      cpu := Millis(r.after - r.before, freq);
      dt := if lastPresent == 0 then cpu else Millis(r.after - lastPresent, freq);
      OneMoreFrame(readings, r, freq);
      lastPresent := r.after;
      readings := readings + [r];
      UpdateRollingP50(dt);
      other := Other(cpu, known);
    }

    ghost predicate Slots()
      reads this, window
    {
      window.Length == WINDOW && Holds(window[..], count, idx, history)
    }

    method Store(dt: real)
      requires Slots()
      modifies this`count, this`idx, this`history, window
      ensures Slots() && history == old(history) + [dt]
    {
      ghost var w, h := window[..], history;
      assert count <= WINDOW && idx < WINDOW;
      hide Holds, Recent;
      if count < WINDOW {
        Fill(w, count, idx, h, dt);
        window[count] := dt;
        count := count + 1;
      } else {
        RotateOne(w, idx, h, dt);
        window[idx] := dt;
        idx := (idx + 1) % WINDOW;
      }
      history := h + [dt];
    }
  }

  lemma RecentSnoc(history: seq<real>, dt: real)
    ensures |history| < WINDOW ==> Recent(history) == history && Recent(history + [dt]) == history + [dt]
    ensures |history| >= WINDOW ==> Recent(history + [dt]) == Recent(history)[1..] + [dt]
    ensures |Recent(history + [dt])| == if |history| < WINDOW then |history| + 1 else WINDOW
  {
  }

  lemma Fill(w: seq<real>, n: nat, idx: nat, history: seq<real>, dt: real)
    requires Holds(w, n, idx, history) && n < WINDOW
    ensures Holds(w[n := dt], n + 1, idx, history + [dt])
  {
    var w' := w[n := dt];
    assert w'[..n + 1] == w[..n] + [dt];
    if n + 1 == WINDOW { assert w'[0..] + w'[..0] == w'[..n + 1]; }
  }

  lemma RotateOne(w: seq<real>, idx: nat, history: seq<real>, dt: real)
    requires Holds(w, WINDOW, idx, history)
    ensures Holds(w[idx := dt], WINDOW, (idx + 1) % WINDOW, history + [dt])
  {
    var w', j, r := w[idx := dt], (idx + 1) % WINDOW, Recent(history);
    assert j == (if idx + 1 == WINDOW then 0 else idx + 1);
    RecentSnoc(history, dt);
    hide Recent;
    assert r[1..] == w[idx + 1..] + w[..idx];
    assert w'[idx + 1..] + w'[..idx + 1] == r[1..] + [dt];
    if j == 0 { assert w'[0..] + w'[..0] == w'[WINDOW..] + w'[..WINDOW]; }
  }

  lemma MedianOfSlots(w: seq<real>, count: nat, idx: nat, history: seq<real>)
    requires Holds(w, count, idx, history) && count > 0
    ensures count <= |w| && count == |Recent(history)|
    ensures Nth(w[..count], count / 2) == Nth(Recent(history), count / 2)
    ensures IsRank(Recent(history), count / 2, Nth(w[..count], count / 2))
  {
    CopyCounts(w, count, idx, history);
    hide IsRank, Recent;
    SameRank(w[..count], Recent(history), count / 2, Nth(w[..count], count / 2));
  }

  /** Ranks do not see the rotation. */
  lemma CopyCounts(w: seq<real>, count: nat, idx: nat, history: seq<real>)
    requires Holds(w, count, idx, history)
    ensures count <= |w| && |w[..count]| == |Recent(history)|
    ensures forall v :: v in w[..count] <==> v in Recent(history)
    ensures forall v :: Below(w[..count], v) == Below(Recent(history), v)
                        && AtMost(w[..count], v) == AtMost(Recent(history), v)
  {
    if count == WINDOW {
      assert w[..count] == w[..idx] + w[idx..];
      forall v ensures Below(w[..count], v) == Below(Recent(history), v)
                       && AtMost(w[..count], v) == AtMost(Recent(history), v) {
        CountsConcat(w[..idx], w[idx..], v);
        CountsConcat(w[idx..], w[..idx], v);
      }
    }
  }

  lemma SameRank(s: seq<real>, t: seq<real>, k: nat, v: real)
    requires IsRank(s, k, v) && k < |t|
    requires forall x :: x in s <==> x in t
    requires forall x :: Below(s, x) == Below(t, x) && AtMost(s, x) == AtMost(t, x)
    ensures IsRank(t, k, v) && v == Nth(t, k)
  {
    RankIsUnique(t, k, v, Nth(t, k));
  }

  /** While the window slides, one frame moves the median at most to a neighbouring rank of the old window. */
  lemma MedianMovesSmoothly(history: seq<real>, dt: real)
    requires |history| >= WINDOW
    ensures var old', now := Recent(history), Recent(history + [dt]);
            Nth(old', 119) <= Nth(now, 120) <= Nth(old', 121)
  {
    var r := Recent(history);
    assert r == [r[0]] + r[1..] && Recent(history + [dt]) == r[1..] + [dt];
    ReplacementMovesOneRank(r[0], r[1..], dt, 120);
  }

  // ----- the residual -----

  /** The `other_ms` of a breakdown record. */
  function Other(cpu: real, known: real): (other: real)
    ensures other >= 0.0 && known + other == if cpu > known then cpu else known
  {
    if cpu > known then cpu - known else 0.0
  }

  // ----- frame times add up -----

  /** The performance counter before and after the game's own update. */
  datatype Reading = Reading(before: int, after: int)

  /** `last_present_qpc`, 0 while there is none. */
  function LastPresent(rs: seq<Reading>): int {
    if rs == [] then 0 else rs[|rs| - 1].after
  }

  /** The frame times the hook reports: from the last frame's end, or from the update's begin if that is 0. */
  function FrameTimes(rs: seq<Reading>, freq: int): seq<real>
    requires freq != 0
  {
    if rs == [] then []
    else
      var before, r := rs[..|rs| - 1], rs[|rs| - 1];
      FrameTimes(before, freq) + [Millis(Elapsed(LastPresent(before), r), freq)]
  }

  function Elapsed(last: int, r: Reading): int {
    r.after - if last == 0 then r.before else last
  }

  lemma OneMoreFrame(rs: seq<Reading>, r: Reading, freq: int)
    requires freq != 0
    ensures FrameTimes(rs + [r], freq) == FrameTimes(rs, freq) + [Millis(Elapsed(LastPresent(rs), r), freq)]
    ensures Total(FrameTimes(rs + [r], freq)) == Total(FrameTimes(rs, freq)) + Millis(Elapsed(LastPresent(rs), r), freq)
  {
    hide Millis;
    assert (rs + [r])[..|rs|] == rs;
    assert FrameTimes(rs + [r], freq)[..|FrameTimes(rs, freq)|] == FrameTimes(rs, freq);
  }

  /** The ticks between the frames that no frame time covers: those before an update that finds a last reading of 0. */
  function Uncovered(rs: seq<Reading>): int {
    if rs == [] then 0
    else
      var before, r := rs[..|rs| - 1], rs[|rs| - 1];
      Uncovered(before) + if LastPresent(before) == 0 && before != [] then r.before - before[|before| - 1].after else 0
  }

  function Total(s: seq<real>): real {
    if s == [] then 0.0 else Total(s[..|s| - 1]) + s[|s| - 1]
  }

  /** The frame times sum to the time from the first update's begin to the last update's end, short of what is uncovered; and
      nothing is uncovered if the counter never reads 0 at the end of a frame. */
  lemma FrameTimesAddUp(rs: seq<Reading>, freq: int)
    requires freq != 0 && rs != []
    ensures Total(FrameTimes(rs, freq)) * freq as real == 1000.0 * (rs[|rs| - 1].after - rs[0].before - Uncovered(rs)) as real
    ensures (forall r | r in rs :: r.after != 0) ==> Uncovered(rs) == 0
  {
    TotalMillis(rs, freq);
    hide Millis, FrameTimes, Total;
  }

  lemma {:induction false} TotalMillis(rs: seq<Reading>, freq: int)
    requires freq != 0 && rs != []
    ensures Total(FrameTimes(rs, freq)) == Millis(rs[|rs| - 1].after - rs[0].before - Uncovered(rs), freq)
    ensures (forall r | r in rs :: r.after != 0) ==> Uncovered(rs) == 0
  {
    hide Millis, FrameTimes, Total;
    var n := |rs| - 1;
    var before, r := rs[..n], rs[n];
    assert rs == before + [r];
    OneMoreFrame(before, r, freq);
    if n == 0 {
      NoFrames(freq);
    } else {
      TotalMillis(before, freq);
      assert before[0] == rs[0] && (forall x | x in before :: x in rs) && before[n - 1] in before;
      MillisAdd(before[n - 1].after - rs[0].before - Uncovered(before), Elapsed(LastPresent(before), r), freq);
    }
  }

  lemma NoFrames(freq: int)
    requires freq != 0
    ensures Total(FrameTimes([], freq)) == 0.0
  {
  }

  lemma MillisAdd(a: int, b: int, freq: int)
    requires freq != 0
    ensures Millis(a, freq) + Millis(b, freq) == Millis(a + b, freq)
  {
    var x, y, f := a as real * 1000.0, b as real * 1000.0, freq as real;
    assert (a + b) as real * 1000.0 == x + y;
    assert x / f + y / f == (x + y) / f;
  }
}
