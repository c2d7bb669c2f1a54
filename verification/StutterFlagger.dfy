/** `plugin/src/diagnostics/stutter_flagger.cpp`: which frames are reported as stutters, given the rolling median that the frame
    hook has just updated. */
module StutterFlagger {
  import opened OrderStatistics
  import opened FrameSampler
  import opened PapyrusAttribution

  datatype FlaggerConfig = FlaggerConfig(enabled: bool, hasWriter: bool, ratio: real, minFrameMs: real)

  /** `StutterFlagger::OnFrame` gets as far as building an event. */
  predicate Flags(cfg: FlaggerConfig, dt: real, p50: real) {
    cfg.enabled && cfg.hasWriter && !(dt < cfg.minFrameMs) && !(p50 <= 0.0) && !(dt / p50 < cfg.ratio)
  }

  class StutterFlagger {
    var enabled: bool
    var ratio: real
    var minFrameMs: real
    var hasWriter: bool

    function Config(): FlaggerConfig
      reads this
    {
      FlaggerConfig(enabled, hasWriter, ratio, minFrameMs)
    }

    constructor ()
      ensures Config() == FlaggerConfig(true, false, 2.5, 5.0)
    {
      enabled, hasWriter, ratio, minFrameMs := true, false, 2.5, 5.0;
    }

    method Configure(cfg: FlaggerConfig)
      modifies this
      ensures Config() == cfg
    {
      enabled, ratio, minFrameMs, hasWriter := cfg.enabled, cfg.ratio, cfg.minFrameMs, cfg.hasWriter;
    }

    /** An event carries the eight leading scripts as they are at that instant; the table is only read. */
    method OnFrame(dt: real, p50: real, attribution: PapyrusAttribution) returns (flagged: bool, top: seq<Script>)
      modifies attribution
      ensures flagged == Flags(Config(), dt, p50)
      ensures attribution.table == old(attribution.table)
      ensures flagged ==> IsTop(attribution.table, 8, top)
    {
      flagged, top := false, [];
      if !enabled || !hasWriter { return; }
      if dt < minFrameMs { return; }
      if p50 <= 0.0 { return; }
      if dt / p50 < ratio { return; }
      FactorOneReads(attribution.table, 1, 1);
      top := attribution.SnapshotTopAndDecay(8, 1, 1);
      flagged := true;
    }
  }

  /** The median the flagger compares a frame with already includes that frame. */
  predicate FrameFlagged(cfg: FlaggerConfig, before: seq<real>, dt: real) {
    var r := Recent(before + [dt]);
    Flags(cfg, dt, Nth(r, |r| / 2))
  }

  lemma RatioAboveOne(dt: real, p50: real, ratio: real)
    requires p50 > 0.0 && ratio > 1.0 && dt / p50 >= ratio
    ensures dt > p50
  {
    MulStrict(1.0, dt / p50, p50);
  }

  /** Exactly the frames at or above the floor and at or above `ratio` times a positive median are flagged, if the flagger is on. */
  lemma FlagsIff(cfg: FlaggerConfig, dt: real, p50: real)
    ensures Flags(cfg, dt, p50)
        <==> cfg.enabled && cfg.hasWriter && dt >= cfg.minFrameMs && p50 > 0.0 && dt >= cfg.ratio * p50
  {
    if p50 > 0.0 {
      if dt >= cfg.ratio * p50 { RatioReached(dt, p50, cfg.ratio); } else { RatioMissed(dt, p50, cfg.ratio); }
    }
  }

  lemma RatioMissed(G: real, F: real, ratio: real)
    requires F > 0.0 && G < ratio * F
    ensures G / F < ratio
  {
    if G / F > ratio { MulStrict(ratio, G / F, F); assert false; }
    assert G / F == ratio ==> G == ratio * F;
  }

  lemma MulStrict(a: real, b: real, c: real)
    requires a < b && c > 0.0
    ensures a * c < b * c
  {
    assert (b - a) * c > 0.0;
  }

  lemma RatioReached(G: real, F: real, ratio: real)
    requires F > 0.0 && G >= ratio * F
    ensures G / F >= ratio
  {
    if G / F < ratio { MulStrict(G / F, ratio, F); assert false; }
  }

  /** With a ratio above 1 a flagged frame is strictly slower than more than half of the window, so the first two frames are
      never flagged. */
  lemma FlaggedIsSlow(cfg: FlaggerConfig, before: seq<real>, dt: real)
    requires cfg.ratio > 1.0 && FrameFlagged(cfg, before, dt)
    ensures var r := Recent(before + [dt]); Below(r, dt) >= |r| / 2 + 1
    ensures |before| >= 2
    ensures cfg.enabled && cfg.hasWriter && dt >= cfg.minFrameMs
  {
    var r := Recent(before + [dt]);
    var m := Nth(r, |r| / 2);
    RatioAboveOne(dt, m, cfg.ratio);
    CountsOrdered(r, m, dt);
    CountsOrdered(r, dt, dt);
    assert r[|r| - 1] == dt;
  }

  // ----- a sustained slowdown -----

  function Times(n: nat, v: real): (s: seq<real>)
    ensures |s| == n && forall i | 0 <= i < n :: s[i] == v
  {
    seq(n, _ => v)
  }

  lemma {:induction false} CountsTimes(n: nat, v: real, w: real)
    ensures Below(Times(n, v), w) == if v < w then n else 0
    ensures AtMost(Times(n, v), w) == if v <= w then n else 0
  {
    if n > 0 {
      CountsTimes(n - 1, v, w);
      assert Times(n, v)[..n - 1] == Times(n - 1, v);
    }
  }

  lemma MedianAfterStep(F: real, G: real, j: nat)
    requires F < G && j <= WINDOW
    ensures Nth(Times(WINDOW - j, F) + Times(j, G), 120) == if j < 120 then F else G
  {
    var s := Times(WINDOW - j, F) + Times(j, G);
    var v := if j < 120 then F else G;
    CountsConcat(Times(WINDOW - j, F), Times(j, G), v);
    CountsTimes(WINDOW - j, F, v);
    CountsTimes(j, G, v);
    assert v in s by { if j < 120 { assert s[0] == F; } else { assert s[WINDOW - 1] == G; } }
    RankIsUnique(s, 120, v, Nth(s, 120));
  }

  /** After a full window of F > 0, a lasting step up to G >= ratio * F is flagged on exactly the first 119 slow frames: from the
      120th on the median is G itself. */
  lemma StepIsFlaggedExactly119Times(cfg: FlaggerConfig, before: seq<real>, F: real, G: real, j: nat)
    requires cfg.enabled && cfg.hasWriter && cfg.ratio > 1.0
    requires F > 0.0 && G >= cfg.ratio * F && G >= cfg.minFrameMs
    requires |before| >= WINDOW && Recent(before) == Times(WINDOW, F)
    ensures FrameFlagged(cfg, before + Times(j, G), G) <==> j + 1 <= 119
  {
    MulStrict(1.0, cfg.ratio, F);
    var k := if j + 1 < WINDOW then j + 1 else WINDOW;
    MedianOnSlowFrame(before, F, G, j, k);
    DecideOnStep(cfg, F, G);
    hide Nth, Recent, Flags;
  }

  lemma MedianOnSlowFrame(before: seq<real>, F: real, G: real, j: nat, k: nat)
    requires F < G && |before| >= WINDOW && Recent(before) == Times(WINDOW, F)
    requires k == if j + 1 < WINDOW then j + 1 else WINDOW
    ensures var r := Recent(before + Times(j, G) + [G]);
            |r| / 2 == 120 && Nth(r, 120) == if k < 120 then F else G
  {
    hide Nth, Recent;
    assert before + Times(j, G) + [G] == before + Times(j + 1, G);
    RecentAfterStep(before, F, G, j + 1, k);
    MedianAfterStep(F, G, k);
  }

  lemma DecideOnStep(cfg: FlaggerConfig, F: real, G: real)
    requires cfg.enabled && cfg.hasWriter && cfg.ratio > 1.0
    requires 0.0 < F < G && G >= cfg.ratio * F && G >= cfg.minFrameMs
    ensures Flags(cfg, G, F) && !Flags(cfg, G, G)
  {
    RatioReached(G, F, cfg.ratio);
    assert G / G == 1.0;
  }

  lemma RecentAfterStep(before: seq<real>, F: real, G: real, j: nat, k: nat)
    requires |before| >= WINDOW && Recent(before) == Times(WINDOW, F)
    requires k == if j < WINDOW then j else WINDOW
    ensures Recent(before + Times(j, G)) == Times(WINDOW - k, F) + Times(k, G)
  {
    var r := Recent(before + Times(j, G));
    forall i | 0 <= i < WINDOW ensures r[i] == (Times(WINDOW - k, F) + Times(k, G))[i] {
      if i < WINDOW - k {
        assert r[i] == before[|before| - WINDOW + (i + k)] == Recent(before)[i + k];
      }
    }
  }
}
