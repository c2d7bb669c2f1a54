/** The viewer's session state, `viewer/src/state/telemetry_store.cpp` and `.h`: one Ingest per parsed record, capped rings for
    the charts, and running sums per script. A record is taken after its fields have been read out of the JSON. */
module TelemetryStore {
  import opened Options

  const FRAME_RING: nat := 60 * 60
  const BREAKDOWN_RING: nat := 60 * 60
  const LOW_RATE_RING: nat := 600
  const EVENT_LOG_CAP: nat := 4096

  /** A sample: its time stamp and its other fields. */
  datatype Sample = Sample(t: real, fields: seq<real>)

  datatype HotScript = HotScript(name: string, us: nat, cps: real, pctFrame: real)

  datatype Record =
    | Frame(s: Sample)
    | Breakdown(s: Sample)
    | Memory(s: Sample)
    | Pressure(s: Sample)
    | Stutter(s: Sample)
    | Event(s: Sample, kind: string)
    | PapyrusTop(scripts: seq<HotScript>)
    | Other                                // kinds that touch no ring and no sum

  datatype Store = Store(
    total: nat,
    lastFrame: Option<Sample>,
    lastBreakdown: Option<Sample>,
    lastMemory: Option<Sample>,
    lastPressure: Option<Sample>,
    frames: seq<Sample>,
    breakdowns: seq<Sample>,
    memories: seq<Sample>,
    pressures: seq<Sample>,
    stutters: seq<Sample>,
    events: seq<(Sample, string)>,
    hot: seq<HotScript>,
    cumulative: map<string, nat>
  )

  const EMPTY := Store(0, None, None, None, None, [], [], [], [], [], [], [], map[])

  /** The newest `cap` elements, or all of them. */
  function Last<T>(s: seq<T>, cap: nat): seq<T> {
    if |s| <= cap then s else s[|s| - cap..]
  }

  function Summed(sums: map<string, nat>, scripts: seq<HotScript>): map<string, nat> {
    if scripts == [] then sums
    else
      var before := Summed(sums, scripts[..|scripts| - 1]);
      var x := scripts[|scripts| - 1];
      if x.name == "" then before
      else before[x.name := (if x.name in before then before[x.name] else 0) + x.us]
  }

  function Ingested(s: Store, r: Record): Store {
    var s := s.(total := s.total + 1);
    match r
    case Frame(x) => s.(lastFrame := Some(x), frames := Last(s.frames + [x], FRAME_RING))
    case Breakdown(x) => s.(lastBreakdown := Some(x), breakdowns := Last(s.breakdowns + [x], BREAKDOWN_RING))
    case Memory(x) => s.(lastMemory := Some(x), memories := Last(s.memories + [x], LOW_RATE_RING))
    case Pressure(x) => s.(lastPressure := Some(x), pressures := Last(s.pressures + [x], LOW_RATE_RING))
    case Stutter(x) => s.(stutters := Last(s.stutters + [x], LOW_RATE_RING))
    case Event(x, kind) => s.(events := Last(s.events + [(x, kind)], EVENT_LOG_CAP))
    case PapyrusTop(scripts) => s.(hot := scripts, cumulative := Summed(s.cumulative, scripts))
    case Other => s
  }

  // ----- the class -----

  method PushCapped<T>(q: seq<T>, v: T, cap: nat) returns (r: seq<T>)
    ensures r == Last(q + [v], cap)
  {
    r := q + [v];
    while |r| > cap
      invariant |r| <= |q| + 1 && r == (q + [v])[|q| + 1 - |r|..]
      invariant |r| >= if |q| + 1 <= cap then |q| + 1 else cap
    {
      assert r[1..] == (q + [v])[|q| + 2 - |r|..];
      r := r[1..];
    }
  }

  class TelemetryStore {
    var totalRecords: nat
    var lastFrame: Option<Sample>
    var lastBreakdown: Option<Sample>
    var lastMemory: Option<Sample>
    var lastPressure: Option<Sample>
    var frames: seq<Sample>
    var breakdowns: seq<Sample>
    var memories: seq<Sample>
    var pressures: seq<Sample>
    var stutters: seq<Sample>
    var events: seq<(Sample, string)>
    var hotScripts: seq<HotScript>
    var papyrusCumulativeUs: map<string, nat>

    function Model(): Store
      reads this
    {
      Store(totalRecords, lastFrame, lastBreakdown, lastMemory, lastPressure,
            frames, breakdowns, memories, pressures, stutters, events, hotScripts, papyrusCumulativeUs)
    }

    constructor ()
      ensures Model() == EMPTY
    {
      totalRecords := 0;
      lastFrame, lastBreakdown, lastMemory, lastPressure := None, None, None, None;
      frames, breakdowns, memories, pressures, stutters, events := [], [], [], [], [], [];
      hotScripts, papyrusCumulativeUs := [], map[];
    }

    method Ingest(r: Record)
      modifies this
      ensures Model() == Ingested(old(Model()), r)
    {
      hide Summed, Last;
      totalRecords := totalRecords + 1;
      match r
      case Frame(s) => TakeFrame(s);
      case Breakdown(s) => TakeBreakdown(s);
      case Memory(s) => TakeMemory(s);
      case Pressure(s) => TakePressure(s);
      case Stutter(s) => stutters := PushCapped(stutters, s, LOW_RATE_RING);
      case Event(s, kind) => events := PushCapped(events, (s, kind), EVENT_LOG_CAP);
      case PapyrusTop(scripts) => TakeScripts(scripts);
      case Other =>
    }

    method TakeFrame(s: Sample)
      modifies this`lastFrame, this`frames
      ensures lastFrame == Some(s) && frames == Last(old(frames) + [s], FRAME_RING)
    {
      lastFrame := Some(s);
      frames := PushCapped(frames, s, FRAME_RING);
    }

    method TakeBreakdown(s: Sample)
      modifies this`lastBreakdown, this`breakdowns
      ensures lastBreakdown == Some(s) && breakdowns == Last(old(breakdowns) + [s], BREAKDOWN_RING)
    {
      lastBreakdown := Some(s);
      breakdowns := PushCapped(breakdowns, s, BREAKDOWN_RING);
    }

    method TakeMemory(s: Sample)
      modifies this`lastMemory, this`memories
      ensures lastMemory == Some(s) && memories == Last(old(memories) + [s], LOW_RATE_RING)
    {
      lastMemory := Some(s);
      memories := PushCapped(memories, s, LOW_RATE_RING);
    }

    method TakePressure(s: Sample)
      modifies this`lastPressure, this`pressures
      ensures lastPressure == Some(s) && pressures == Last(old(pressures) + [s], LOW_RATE_RING)
    {
      lastPressure := Some(s);
      pressures := PushCapped(pressures, s, LOW_RATE_RING);
    }

    method TakeScripts(scripts: seq<HotScript>)
      modifies this`hotScripts, this`papyrusCumulativeUs
      ensures hotScripts == scripts
      ensures papyrusCumulativeUs == Summed(old(papyrusCumulativeUs), scripts)
    {
      hotScripts := [];
      for i := 0 to |scripts|
        invariant hotScripts == scripts[..i]
        invariant papyrusCumulativeUs == Summed(old(papyrusCumulativeUs), scripts[..i])
      {
        var x := scripts[i];
        assert scripts[..i + 1][..i] == scripts[..i];
        hotScripts := hotScripts + [x];
        if x.name != "" {
          papyrusCumulativeUs := papyrusCumulativeUs[x.name :=
            (if x.name in papyrusCumulativeUs then papyrusCumulativeUs[x.name] else 0) + x.us];
        }
      }
      assert scripts[..|scripts|] == scripts;
    }

    /** A cleared store cannot be told from a new one. */
    method Clear()
      modifies this
      ensures Model() == EMPTY
    {
      lastFrame, lastBreakdown, lastMemory, lastPressure := None, None, None, None;
      hotScripts, papyrusCumulativeUs := [], map[];
      ClearRings();
      totalRecords := 0;
    }

    method ClearRings()
      modifies this`frames, this`breakdowns, this`memories, this`pressures, this`events, this`stutters
      ensures frames == breakdowns == memories == pressures == stutters == [] && events == []
    {
      frames, breakdowns, memories, pressures, stutters, events := [], [], [], [], [], [];
    }
  }

  // ----- whole streams -----

  function IngestAll(s: Store, rs: seq<Record>): Store {
    if rs == [] then s else Ingested(IngestAll(s, rs[..|rs| - 1]), rs[|rs| - 1])
  }

  datatype Kind = KFrame | KBreakdown | KMemory | KPressure | KStutter

  function SampleOf(r: Record, k: Kind): seq<Sample> {
    match r
    case Frame(x) => if k.KFrame? then [x] else []
    case Breakdown(x) => if k.KBreakdown? then [x] else []
    case Memory(x) => if k.KMemory? then [x] else []
    case Pressure(x) => if k.KPressure? then [x] else []
    case Stutter(x) => if k.KStutter? then [x] else []
    case _ => []
  }

  /** The samples of one kind in a stream, in order. */
  function Project(rs: seq<Record>, k: Kind): seq<Sample> {
    if rs == [] then [] else Project(rs[..|rs| - 1], k) + SampleOf(rs[|rs| - 1], k)
  }

  function EventsOf(rs: seq<Record>): seq<(Sample, string)> {
    if rs == [] then []
    else EventsOf(rs[..|rs| - 1]) + match rs[|rs| - 1] case Event(x, kind) => [(x, kind)] case _ => []
  }

  function Ring(s: Store, k: Kind): seq<Sample> {
    match k
    case KFrame => s.frames
    case KBreakdown => s.breakdowns
    case KMemory => s.memories
    case KPressure => s.pressures
    case KStutter => s.stutters
  }

  function Latest(s: Store, k: Kind): Option<Sample>
    requires !k.KStutter?
  {
    match k
    case KFrame => s.lastFrame
    case KBreakdown => s.lastBreakdown
    case KMemory => s.lastMemory
    case KPressure => s.lastPressure
  }

  function Cap(k: Kind): nat {
    match k
    case KFrame => FRAME_RING
    case KBreakdown => BREAKDOWN_RING
    case _ => LOW_RATE_RING
  }

  /** What is kept is an end of the history, as long as the cap allows. */
  lemma LastIsTail<T>(s: seq<T>, cap: nat)
    ensures var tail := Last(s, cap);
            && |tail| == (if |s| <= cap then |s| else cap)
            && s == s[..|s| - |tail|] + tail
  {
  }

  lemma LastOfLast<T>(s: seq<T>, x: T, cap: nat)
    requires cap > 0
    ensures Last(Last(s, cap) + [x], cap) == Last(s + [x], cap)
  {
  }

  lemma LastFits<T>(s: seq<T>, cap: nat)
    ensures |Last(s, cap)| <= cap && Last(s, cap) + [] == Last(s, cap) && s + [] == s
  {
  }

  lemma IngestedRing(s: Store, r: Record, k: Kind)
    ensures var x := SampleOf(r, k);
            && Ring(Ingested(s, r), k) == (if x == [] then Ring(s, k) else Last(Ring(s, k) + x, Cap(k)))
            && (!k.KStutter? ==> Latest(Ingested(s, r), k) == if x == [] then Latest(s, k) else Some(x[0]))
  {
    hide Summed, Last;
  }

  lemma {:induction false} RingIsLast(rs: seq<Record>, k: Kind)
    ensures Ring(IngestAll(EMPTY, rs), k) == Last(Project(rs, k), Cap(k))
    ensures !k.KStutter? ==>
              Latest(IngestAll(EMPTY, rs), k) == if Project(rs, k) == [] then None else Some(Project(rs, k)[|Project(rs, k)| - 1])
    decreases |rs|
  {
    if rs != [] {
      var before, r := rs[..|rs| - 1], rs[|rs| - 1];
      RingIsLast(before, k);
      IngestedRing(IngestAll(EMPTY, before), r, k);
      var x, h := SampleOf(r, k), Project(before, k);
      hide Ingested;
      if x == [] { LastFits(h, Cap(k)); } else { assert x == [x[0]]; LastOfLast(h, x[0], Cap(k)); }
    }
  }

  /** Whatever is ingested: every ring is the end of its kind's full history, as long as its cap allows, and every latest value that
      history's last element. */
  lemma RingsHoldTheTail(rs: seq<Record>, k: Kind)
    ensures Ring(IngestAll(EMPTY, rs), k) == Last(Project(rs, k), Cap(k))
    ensures var ring, all := Ring(IngestAll(EMPTY, rs), k), Project(rs, k);
            && |ring| == (if |all| <= Cap(k) then |all| else Cap(k))
            && Cap(k) == (if k.KFrame? || k.KBreakdown? then 3600 else 600)
            && all == all[..|all| - |ring|] + ring
    ensures !k.KStutter? ==>
              Latest(IngestAll(EMPTY, rs), k) == if Project(rs, k) == [] then None else Some(Project(rs, k)[|Project(rs, k)| - 1])
  {
    RingIsLast(rs, k);
    LastIsTail(Project(rs, k), Cap(k));
    hide Ring, Latest, Project, IngestAll, Last;
  }

  lemma {:induction false} EventsHoldTheTail(rs: seq<Record>)
    ensures IngestAll(EMPTY, rs).events == Last(EventsOf(rs), EVENT_LOG_CAP)
    ensures IngestAll(EMPTY, rs).total == |rs|
    decreases |rs|
  {
    if rs != [] {
      var before, r := rs[..|rs| - 1], rs[|rs| - 1];
      EventsHoldTheTail(before);
      LastFits(EventsOf(before), EVENT_LOG_CAP);
      if r.Event? { LastOfLast(EventsOf(before), (r.s, r.kind), EVENT_LOG_CAP); }
    }
  }

  /** The script lists of a stream, in order. */
  function TopsOf(rs: seq<Record>): seq<seq<HotScript>> {
    if rs == [] then []
    else TopsOf(rs[..|rs| - 1]) + if rs[|rs| - 1].PapyrusTop? then [rs[|rs| - 1].scripts] else []
  }

  function SumAll(lists: seq<seq<HotScript>>): map<string, nat> {
    if lists == [] then map[] else Summed(SumAll(lists[..|lists| - 1]), lists[|lists| - 1])
  }

  /** The script table shows the newest list, and the running sums are those of all lists. */
  lemma {:induction false} ScriptsAreSummed(rs: seq<Record>)
    ensures var s, tops := IngestAll(EMPTY, rs), TopsOf(rs);
            s.cumulative == SumAll(tops) && s.hot == if tops == [] then [] else tops[|tops| - 1]
    decreases |rs|
  {
    hide Summed, Last;
    if rs != [] {
      var before, r := rs[..|rs| - 1], rs[|rs| - 1];
      ScriptsAreSummed(before);
      if r.PapyrusTop? {
        assert TopsOf(rs)[..|TopsOf(before)|] == TopsOf(before);
      } else {
        assert TopsOf(rs) == TopsOf(before);
      }
    }
  }

  predicate SameKind(a: Record, b: Record) {
    || (a.Frame? && b.Frame?) || (a.Breakdown? && b.Breakdown?)
    || (a.Memory? && b.Memory?) || (a.Pressure? && b.Pressure?) || (a.Stutter? && b.Stutter?)
    || (a.Event? && b.Event?) || (a.PapyrusTop? && b.PapyrusTop?)
  }

  /** Records of unrelated kinds commute. */
  lemma UnrelatedCommute(s: Store, a: Record, b: Record)
    requires !SameKind(a, b)
    ensures Ingested(Ingested(s, a), b) == Ingested(Ingested(s, b), a)
  {
    hide Summed, Last;
    match a
    case Frame(_) =>
    case Breakdown(_) =>
    case Memory(_) =>
    case _ =>
  }

  // ----- frame and breakdown pairs -----

  function Stamps(s: seq<Sample>): (ts: seq<real>)
    ensures |ts| == |s|
  {
    seq(|s|, i requires 0 <= i < |s| => s[i].t)
  }

  /** The frame hook submits each frame's two records with one time stamp; other threads' records may come in between. */
  ghost predicate Paired(rs: seq<Record>)
    decreases |rs|
  {
    if rs == [] then true
    else
      var r := rs[|rs| - 1];
      if r.Breakdown? then
        |rs| >= 2 && EndsWithFrame(rs[..|rs| - 1], r.s.t)
      else !r.Frame? && Paired(rs[..|rs| - 1])
  }

  ghost predicate EndsWithFrame(rs: seq<Record>, t: real)
    decreases |rs|
  {
    if rs == [] then false
    else
      var r := rs[|rs| - 1];
      if r.Frame? then r.s.t == t && Paired(rs[..|rs| - 1])
      else !r.Breakdown? && EndsWithFrame(rs[..|rs| - 1], t)
  }

  lemma {:induction false} PairedStamps(rs: seq<Record>)
    requires Paired(rs)
    ensures Stamps(Project(rs, KFrame)) == Stamps(Project(rs, KBreakdown))
    decreases |rs|
  {
    if rs != [] {
      var before, r := rs[..|rs| - 1], rs[|rs| - 1];
      StampsConcat(Project(before, KFrame), SampleOf(r, KFrame));
      StampsConcat(Project(before, KBreakdown), SampleOf(r, KBreakdown));
      if r.Breakdown? {
        HalfPaired(before, r.s.t);
        assert Stamps([r.s]) == [r.s.t];
        assert Stamps([]) == [];
      } else {
        PairedStamps(before);
      }
    }
  }

  lemma {:induction false} HalfPaired(rs: seq<Record>, t: real)
    requires EndsWithFrame(rs, t)
    ensures Stamps(Project(rs, KFrame)) == Stamps(Project(rs, KBreakdown)) + [t]
    decreases |rs|
  {
    var before, r := rs[..|rs| - 1], rs[|rs| - 1];
    StampsConcat(Project(before, KFrame), SampleOf(r, KFrame));
    StampsConcat(Project(before, KBreakdown), SampleOf(r, KBreakdown));
    assert Stamps([]) == [];
    if r.Frame? {
      PairedStamps(before);
      assert Stamps([r.s]) == [r.s.t];
    } else {
      HalfPaired(before, t);
    }
  }

  lemma StampsConcat(a: seq<Sample>, b: seq<Sample>)
    ensures Stamps(a + b) == Stamps(a) + Stamps(b)
  {
  }

  /** So at every pair boundary of a stream that lost nothing the two rings line up, entry by entry. */
  lemma RingsAlign(rs: seq<Record>)
    requires Paired(rs)
    ensures var s := IngestAll(EMPTY, rs); Stamps(s.frames) == Stamps(s.breakdowns)
  {
    RingsHoldTheTail(rs, KFrame);
    RingsHoldTheTail(rs, KBreakdown);
    PairedStamps(rs);
    StampsOfLast(Project(rs, KFrame), FRAME_RING);
    StampsOfLast(Project(rs, KBreakdown), FRAME_RING);
  }

  lemma StampsOfLast(s: seq<Sample>, cap: nat)
    ensures Stamps(Last(s, cap)) == Last(Stamps(s), cap)
  {
  }

  // ----- running sums -----

  ghost predicate DistinctNames(scripts: seq<HotScript>) {
    forall i, j | 0 <= i < j < |scripts| :: scripts[i].name != scripts[j].name
  }

  function SumOf(sums: map<string, nat>, name: string): nat {
    if name in sums then sums[name] else 0
  }

  /** A script without a name has no sum. */
  lemma {:induction false} NamelessHasNoSum(sums: map<string, nat>, scripts: seq<HotScript>)
    requires "" !in sums
    ensures "" !in Summed(sums, scripts)
  {
    if scripts != [] { NamelessHasNoSum(sums, scripts[..|scripts| - 1]); }
  }

  /** A list of distinct scripts adds each one's value to its own sum, once. */
  lemma {:induction false} SummedOnce(sums: map<string, nat>, scripts: seq<HotScript>, name: string)
    requires DistinctNames(scripts) && name != ""
    ensures forall i | 0 <= i < |scripts| && scripts[i].name == name ::
              SumOf(Summed(sums, scripts), name) == SumOf(sums, name) + scripts[i].us
    ensures (forall i | 0 <= i < |scripts| :: scripts[i].name != name) ==>
              SumOf(Summed(sums, scripts), name) == SumOf(sums, name)
  {
    if scripts != [] {
      var n := |scripts| - 1;
      SummedOnce(sums, scripts[..n], name);
      assert forall i | 0 <= i < n :: scripts[..n][i] == scripts[i];
    }
  }
}
