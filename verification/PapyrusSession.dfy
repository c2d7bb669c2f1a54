/** Script attribution from the VM hook to the viewer's pie chart: the hook adds to the table, the sampler emits the leading
    scripts every period and decays (`plugin/src/samplers/papyrus_sampler.cpp`), the viewer sums what it receives. */
module PapyrusSession {
  import opened Decay
  import opened PapyrusAttribution
  import T = TelemetryStore
  import opened MemorySampler

  // ----- the plugin -----

  /** The hook's calls between two snapshots. */
  type Window = seq<(string, nat)>

  function AddAll(t: Table, calls: Window): Table {
    if calls == [] then t
    else Added(AddAll(t, calls[..|calls| - 1]), calls[|calls| - 1].0, calls[|calls| - 1].1)
  }

  function TotalIn(calls: Window, name: string): nat {
    if calls == [] then 0
    else TotalIn(calls[..|calls| - 1], name) + if calls[|calls| - 1].0 == name then calls[|calls| - 1].1 else 0
  }

  /** How often the hook reported the script with some time. */
  function CallsIn(calls: Window, name: string): nat {
    if calls == [] then 0
    else CallsIn(calls[..|calls| - 1], name) + if calls[|calls| - 1].0 == name && calls[|calls| - 1].1 > 0 then 1 else 0
  }

  function Calls(t: Table, name: string): nat {
    if name in t then t[name].calls else 0
  }

  function Total(t: Table, name: string): nat {
    if name in t then t[name].total else 0
  }

  /** The table at each snapshot, just before it decays. */
  function Snapshots(t: Table, windows: seq<Window>, p: nat, q: nat): (ts: seq<Table>)
    requires q > 0
    ensures |ts| == |windows|
    decreases |windows|
  {
    if windows == [] then []
    else
      var now := AddAll(t, windows[0]);
      [now] + Snapshots(DecayedTable(now, p, q), windows[1..], p, q)
  }

  function Activity(windows: seq<Window>, name: string): (a: seq<nat>)
    ensures |a| == |windows|
  {
    if windows == [] then [] else [TotalIn(windows[0], name)] + Activity(windows[1..], name)
  }

  /** The table adds up, per script, the time and the number of the calls; a call without a name or without time leaves no trace. */
  lemma {:induction false} AddAllTotals(t: Table, calls: Window, name: string)
    requires name != ""
    ensures Total(AddAll(t, calls), name) == Total(t, name) + TotalIn(calls, name)
    ensures Calls(AddAll(t, calls), name) == Calls(t, name) + CallsIn(calls, name)
    ensures name in AddAll(t, calls) <==> name in t || CallsIn(calls, name) > 0
    ensures "" in AddAll(t, calls) <==> "" in t
  {
    if calls != [] { AddAllTotals(t, calls[..|calls| - 1], name); }
  }

  lemma DecayedTotal(t: Table, name: string, p: nat, q: nat)
    requires 0 < p < q
    ensures Total(DecayedTable(t, p, q), name) == Decayed(Total(t, name), p, q)
  {
    if name !in t { AtLeastIff(0, 1, p, q); }
  }

  /** Per script, the table runs through exactly the emitted values of `Decay`. */
  lemma {:induction false} TotalsAreEmitted(t: Table, windows: seq<Window>, p: nat, q: nat, name: string)
    requires 0 < p < q && name != ""
    ensures forall k | 0 <= k < |windows| ::
              Total(Snapshots(t, windows, p, q)[k], name) == Emitted(Total(t, name), Activity(windows, name), p, q)[k]
    decreases |windows|
  {
    hide Decayed, DecayedTable;
    if windows != [] {
      var now := AddAll(t, windows[0]);
      AddAllTotals(t, windows[0], name);
      DecayedTotal(now, name, p, q);
      TotalsAreEmitted(DecayedTable(now, p, q), windows[1..], p, q, name);
      assert Activity(windows, name)[1..] == Activity(windows[1..], name);
      var e := Emitted(Total(t, name), Activity(windows, name), p, q);
      var rest := Emitted(Decayed(Total(now, name), p, q), Activity(windows[1..], name), p, q);
      assert e == [Total(now, name)] + rest;
      forall k | 0 < k < |windows| ensures Total(Snapshots(t, windows, p, q)[k], name) == e[k] {
        assert e[k] == rest[k - 1];
      }
    }
  }

  // ----- the record on the wire -----

  /** `pct_frame`: milliseconds per frame of the period, against a frame of 16.667 ms. */
  function PerFrame(s: Script, periodSec: real): real
    requires periodSec > 0.0
  {
    s.total as real / 1000.0 / (16.667 * (periodSec / 0.0167))
  }

  lemma PerFrameIs(s: Script, periodSec: real)
    requires periodSec > 0.0
    ensures PerFrame(s, periodSec) * (16667.0 * periodSec) == s.total as real * 0.0167
  {
    var d := 16.667 * (periodSec / 0.0167);
    assert d * 0.0167 == 16.667 * periodSec;
    assert PerFrame(s, periodSec) * d == s.total as real / 1000.0;
    assert (PerFrame(s, periodSec) * d) * 16.7 == PerFrame(s, periodSec) * (d * 16.7);
  }

  /** `EmitTopScripts`: the values before the decay. */
  function ToWire(top: seq<Script>, periodSec: real): (w: seq<T.HotScript>)
    requires periodSec > 0.0
    ensures |w| == |top|
  {
    seq(|top|, i requires 0 <= i < |top| =>
      T.HotScript(top[i].name, top[i].total, top[i].calls as real / periodSec, PerFrame(top[i], periodSec)))
  }

  /** What is sent of a script: its time in the window as it is, its calls per second, and its share of a frame, given that
      16.667 ms make one and 0.0167 s are one. */
  lemma WireSays(top: seq<Script>, periodSec: real, i: nat)
    requires periodSec > 0.0 && i < |top|
    ensures var w := ToWire(top, periodSec)[i];
            && w.name == top[i].name && w.us == top[i].total
            && w.cps * periodSec == top[i].calls as real
            && w.pctFrame * (16667.0 * periodSec) == top[i].total as real * 0.0167
  {
    PerFrameIs(top[i], periodSec);
    hide PerFrame;
    assert top[i].calls as real / periodSec * periodSec == top[i].calls as real;
  }

  class PapyrusSampler {
    const attribution: PapyrusAttribution
    var next: int
    ghost var fired: seq<int>

    constructor (attribution: PapyrusAttribution)
      ensures this.attribution == attribution
    {
      this.attribution, next, fired := attribution, 0, [];
    }

    /** Emits the leading scripts with their values before the decay, then decays by 0.55. The period is positive because the
        sampler's constructor replaces a rate of 0 or less by 10 Hz. */
    method EmitTopScripts(topN: nat, periodSec: real) returns (scripts: seq<T.HotScript>, ghost top: seq<Script>)
      requires periodSec > 0.0
      modifies attribution
      ensures IsTop(old(attribution.table), topN, top) && scripts == ToWire(top, periodSec)
      ensures attribution.table == DecayedTable(old(attribution.table), 11, 20)
    {
      var snapshot := attribution.SnapshotTopAndDecay(topN, SHIPPED_NUM, SHIPPED_DEN);
      scripts, top := [], snapshot;
      for i := 0 to |snapshot|
        invariant scripts == ToWire(snapshot[..i], periodSec)
      {
        var e := snapshot[i];
        assert snapshot[..i + 1] == snapshot[..i] + [e];
        scripts := scripts + [T.HotScript(e.name, e.total, e.calls as real / periodSec,
                                          e.total as real / 1000.0 / (16.667 * (periodSec / 0.0167)))];
      }
      assert snapshot[..|snapshot|] == snapshot;
    }

    /** The snapshot loop with the VM hook installed, whose calls come in between the polls. It fires as a periodic timer does, and what it
        emits are the leading scripts of the tables that the windows between the firings build up. */
    method SnapshotLoop(start: int, period: nat, polls: seq<Poll>, topN: nat, periodSec: real)
      returns (sent: seq<seq<T.HotScript>>, ghost tops: seq<seq<Script>>)
      requires periodSec > 0.0
      modifies this, attribution
      ensures Timer(next, period, fired) == Ticks(Timer(start, period, []), Times(polls))
      ensures var g := Grouped(start, period, polls);
              && Emits(Snapshots(old(attribution.table), g.done, SHIPPED_NUM, SHIPPED_DEN), topN, tops)
              && sent == Wire(tops, periodSec) && |sent| == |fired|
              && attribution.table == AddAll(Left(old(attribution.table), g.done, SHIPPED_NUM, SHIPPED_DEN), g.open)
    {
      ghost var t0 := attribution.table;
      next, fired, sent, tops := start, [], [], [];
      hide *;
      NothingSampled(t0, start, period, topN, periodSec);
      assert polls[..0] == [];
      for i := 0 to |polls|
        invariant Sampled(t0, start, period, polls[..i], topN, periodSec, attribution.table, Timer(next, period, fired), sent, tops)
      {
        ghost var table, timer := attribution.table, Timer(next, period, fired);
        Hooked(polls[i].calls);
        ghost var hooked := attribution.table;
        var fires;
        fires, next := Advance(next, period, polls[i].now, fired);
        if fires {
          var scripts, top := EmitTopScripts(topN, periodSec);
          TurnFires(t0, start, period, polls, i, topN, periodSec, table, hooked, timer, sent, tops, top);
          fired, sent, tops := fired + [polls[i].now], sent + [scripts], tops + [top];
        } else {
          TurnWaits(t0, start, period, polls, i, topN, periodSec, table, hooked, timer, sent, tops);
        }
      }
      assert polls[..|polls|] == polls;
      SampledSays(t0, start, period, polls, topN, periodSec, attribution.table, Timer(next, period, fired), sent, tops);
    }

    /** The hook's calls between two polls. */
    method Hooked(calls: Window)
      modifies attribution
      ensures attribution.table == AddAll(old(attribution.table), calls)
    {
      for i := 0 to |calls|
        invariant attribution.table == AddAll(old(attribution.table), calls[..i])
      {
        assert calls[..i + 1][..i] == calls[..i];
        attribution.Add(calls[i].0, calls[i].1);
      }
      assert calls[..|calls|] == calls;
    }
  }

  // ----- the loop's windows -----

  /** One turn of the snapshot loop: the hook's calls since the last one, then the clock reading. */
  datatype Poll = Poll(calls: Window, now: int)

  function Times(polls: seq<Poll>): seq<int> {
    if polls == [] then [] else Times(polls[..|polls| - 1]) + [polls[|polls| - 1].now]
  }

  /** The windows ended by a firing, and the calls since. */
  datatype Groups = Groups(done: seq<Window>, open: Window)

  function Grouped(start: int, period: nat, polls: seq<Poll>): Groups {
    if polls == [] then Groups([], [])
    else
      var n := |polls| - 1;
      var g := Grouped(start, period, polls[..n]);
      var w := g.open + polls[n].calls;
      if polls[n].now >= Ticks(Timer(start, period, []), Times(polls[..n])).next then Groups(g.done + [w], [])
      else g.(open := w)
  }

  function Joined(windows: seq<Window>): Window {
    if windows == [] then [] else Joined(windows[..|windows| - 1]) + windows[|windows| - 1]
  }

  function CallsOf(polls: seq<Poll>): Window {
    if polls == [] then [] else CallsOf(polls[..|polls| - 1]) + polls[|polls| - 1].calls
  }

  /** Every call of the hook falls into exactly one window, in order, and there is a window per firing. */
  lemma {:induction false} WindowsCoverCalls(start: int, period: nat, polls: seq<Poll>)
    ensures var g := Grouped(start, period, polls);
            && Joined(g.done) + g.open == CallsOf(polls)
            && |g.done| == |Ticks(Timer(start, period, []), Times(polls)).fired|
  {
    if polls != [] {
      var n := |polls| - 1;
      WindowsCoverCalls(start, period, polls[..n]);
      OnePoll(start, period, polls, n);
      assert polls[..n + 1] == polls;
      var g, calls := Grouped(start, period, polls[..n]), polls[n].calls;
      var w := g.open + calls;
      assert (g.done + [w])[..|g.done|] == g.done;
      assert Joined(g.done + [w]) == Joined(g.done) + w;
      assert Joined(g.done) + w + [] == (Joined(g.done) + g.open) + calls == Joined(g.done) + w;
      hide Ticks, Times, Grouped, Joined;
    }
  }

  lemma OnePoll(start: int, period: nat, polls: seq<Poll>, i: nat)
    requires i < |polls|
    ensures var t, g := Ticks(Timer(start, period, []), Times(polls[..i])), Grouped(start, period, polls[..i]);
            var w := g.open + polls[i].calls;
            && Ticks(Timer(start, period, []), Times(polls[..i + 1])) == Tick(t, polls[i].now)
            && Grouped(start, period, polls[..i + 1])
               == if polls[i].now >= t.next then Groups(g.done + [w], []) else g.(open := w)
  {
    hide Tick;
    assert polls[..i + 1][..i] == polls[..i];
    var ts := Times(polls[..i + 1]);
    assert ts[..|ts| - 1] == Times(polls[..i]);
  }

  /** The table after the last of these windows has been emitted and decayed. */
  function Left(t: Table, windows: seq<Window>, p: nat, q: nat): Table
    requires q > 0
    decreases |windows|
  {
    if windows == [] then t else Left(DecayedTable(AddAll(t, windows[0]), p, q), windows[1..], p, q)
  }

  lemma {:induction false} AddAllConcat(t: Table, a: Window, b: Window)
    ensures AddAll(AddAll(t, a), b) == AddAll(t, a + b)
  {
    if b == [] {
      assert a + b == a;
    } else {
      AddAllConcat(t, a, b[..|b| - 1]);
      assert (a + b)[..|a + b| - 1] == a + b[..|b| - 1];
    }
  }

  lemma {:induction false} OneMoreWindow(t: Table, windows: seq<Window>, w: Window, p: nat, q: nat)
    requires q > 0
    ensures Snapshots(t, windows + [w], p, q) == Snapshots(t, windows, p, q) + [AddAll(Left(t, windows, p, q), w)]
    ensures Left(t, windows + [w], p, q) == DecayedTable(AddAll(Left(t, windows, p, q), w), p, q)
    decreases |windows|
  {
    hide DecayedTable, AddAll;
    if windows == [] {
      assert windows + [w] == [w] && [w][1..] == [];
    } else {
      assert (windows + [w])[1..] == windows[1..] + [w];
      OneMoreWindow(DecayedTable(AddAll(t, windows[0]), p, q), windows[1..], w, p, q);
    }
  }

  lemma OneMoreTop(tables: seq<Table>, topN: nat, tops: seq<seq<Script>>, t: Table, top: seq<Script>, periodSec: real)
    requires Emits(tables, topN, tops) && IsTop(t, topN, top) && periodSec > 0.0
    ensures Emits(tables + [t], topN, tops + [top])
    ensures Wire(tops + [top], periodSec) == Wire(tops, periodSec) + [ToWire(top, periodSec)]
  {
    hide IsTop;
    WireSnoc(tops, top, periodSec);
  }

  lemma {:induction false} WireSnoc(tops: seq<seq<Script>>, top: seq<Script>, periodSec: real)
    requires periodSec > 0.0
    ensures Wire(tops + [top], periodSec) == Wire(tops, periodSec) + [ToWire(top, periodSec)]
    decreases |tops|
  {
    hide ToWire;
    if tops == [] {
      assert tops + [top] == [top] && [top][1..] == [];
    } else {
      assert (tops + [top])[1..] == tops[1..] + [top];
      WireSnoc(tops[1..], top, periodSec);
    }
  }

  /** Where the snapshot loop stands after some polls. */
  ghost predicate Sampled(t0: Table, start: int, period: nat, polls: seq<Poll>, topN: nat, periodSec: real,
                          table: Table, timer: Timer, sent: seq<seq<T.HotScript>>, tops: seq<seq<Script>>)
    requires periodSec > 0.0
  {
    var g := Grouped(start, period, polls);
    && timer == Ticks(Timer(start, period, []), Times(polls))
    && Emits(Snapshots(t0, g.done, SHIPPED_NUM, SHIPPED_DEN), topN, tops)
    && sent == Wire(tops, periodSec) && |sent| == |timer.fired|
    && table == AddAll(Left(t0, g.done, SHIPPED_NUM, SHIPPED_DEN), g.open)
  }

  lemma NothingSampled(t0: Table, start: int, period: nat, topN: nat, periodSec: real)
    requires periodSec > 0.0
    ensures Sampled(t0, start, period, [], topN, periodSec, t0, Timer(start, period, []), [], [])
  {
  }

  lemma SampledSays(t0: Table, start: int, period: nat, polls: seq<Poll>, topN: nat, periodSec: real,
                    table: Table, timer: Timer, sent: seq<seq<T.HotScript>>, tops: seq<seq<Script>>)
    requires periodSec > 0.0 && Sampled(t0, start, period, polls, topN, periodSec, table, timer, sent, tops)
    ensures timer == Ticks(Timer(start, period, []), Times(polls))
    ensures var g := Grouped(start, period, polls);
            && Emits(Snapshots(t0, g.done, SHIPPED_NUM, SHIPPED_DEN), topN, tops)
            && sent == Wire(tops, periodSec) && |sent| == |timer.fired|
            && table == AddAll(Left(t0, g.done, SHIPPED_NUM, SHIPPED_DEN), g.open)
  {
  }

  lemma TurnWaits(t0: Table, start: int, period: nat, polls: seq<Poll>, i: nat, topN: nat, periodSec: real,
                  table: Table, hooked: Table, timer: Timer, sent: seq<seq<T.HotScript>>, tops: seq<seq<Script>>)
    requires i < |polls| && periodSec > 0.0
    requires Sampled(t0, start, period, polls[..i], topN, periodSec, table, timer, sent, tops)
    requires hooked == AddAll(table, polls[i].calls) && polls[i].now < timer.next
    ensures Sampled(t0, start, period, polls[..i + 1], topN, periodSec, hooked, Tick(timer, polls[i].now), sent, tops)
  {
    var g := Grouped(start, period, polls[..i]);
    assert Tick(timer, polls[i].now).fired == timer.fired;
    hide Ticks, Tick, Times, Grouped, Emits, Snapshots, Wire, AddAll, Left;
    OnePoll(start, period, polls, i);
    AddAllConcat(Left(t0, g.done, SHIPPED_NUM, SHIPPED_DEN), g.open, polls[i].calls);
  }

  lemma TurnFires(t0: Table, start: int, period: nat, polls: seq<Poll>, i: nat, topN: nat, periodSec: real,
                  table: Table, hooked: Table, timer: Timer, sent: seq<seq<T.HotScript>>, tops: seq<seq<Script>>, top: seq<Script>)
    requires i < |polls| && periodSec > 0.0
    requires Sampled(t0, start, period, polls[..i], topN, periodSec, table, timer, sent, tops)
    requires hooked == AddAll(table, polls[i].calls) && polls[i].now >= timer.next && IsTop(hooked, topN, top)
    ensures Sampled(t0, start, period, polls[..i + 1], topN, periodSec, DecayedTable(hooked, SHIPPED_NUM, SHIPPED_DEN),
                    Tick(timer, polls[i].now), sent + [ToWire(top, periodSec)], tops + [top])
  {
    var g := Grouped(start, period, polls[..i]);
    var left, w := Left(t0, g.done, SHIPPED_NUM, SHIPPED_DEN), g.open + polls[i].calls;
    var after := DecayedTable(hooked, SHIPPED_NUM, SHIPPED_DEN);
    assert Tick(timer, polls[i].now).fired == timer.fired + [polls[i].now];
    assert AddAll(after, []) == after;
    hide Ticks, Tick, Times, Grouped, Emits, Snapshots, Wire, AddAll, Left, DecayedTable, IsTop, ToWire;
    OnePoll(start, period, polls, i);
    AddAllConcat(left, g.open, polls[i].calls);
    OneMoreWindow(t0, g.done, w, SHIPPED_NUM, SHIPPED_DEN);
    OneMoreTop(Snapshots(t0, g.done, SHIPPED_NUM, SHIPPED_DEN), topN, tops, AddAll(left, w), top, periodSec);
  }

  // ----- the viewer -----

  /** The lists emitted for a session: a leading selection of each snapshot's table. */
  ghost predicate Emits(tables: seq<Table>, topN: nat, tops: seq<seq<Script>>) {
    |tops| == |tables| && forall k | 0 <= k < |tops| :: IsTop(tables[k], topN, tops[k])
  }

  function Wire(tops: seq<seq<Script>>, periodSec: real): (w: seq<seq<T.HotScript>>)
    requires periodSec > 0.0
    ensures |w| == |tops|
  {
    if tops == [] then [] else [ToWire(tops[0], periodSec)] + Wire(tops[1..], periodSec)
  }

  lemma {:induction false} SumSnoc(w: seq<nat>, x: nat)
    ensures Sum(w + [x]) == Sum(w) + x
  {
    if w == [] {
      assert w + [x] == [x] && [x][1..] == [];
    } else {
      assert (w + [x])[1..] == w[1..] + [x];
      SumSnoc(w[1..], x);
    }
  }

  lemma {:induction false} SumsAddUp(tables: seq<Table>, topN: nat, tops: seq<seq<Script>>, periodSec: real, name: string, w: seq<nat>)
    requires Emits(tables, topN, tops) && periodSec > 0.0 && name != "" && |w| == |tops|
    requires forall k | 0 <= k < |tops| :: Listed(name, tops[k]) && Total(tables[k], name) == w[k]
    ensures T.SumOf(T.SumAll(Wire(tops, periodSec)), name) == Sum(w)
    decreases |tops|
  {
    if tops != [] {
      var n := |tops| - 1;
      assert Listed(name, tops[n]) && Total(tables[n], name) == w[n];
      forall k | 0 <= k < |tops[..n]| ensures Listed(name, tops[..n][k]) && Total(tables[..n][k], name) == w[..n][k] {
        assert Listed(name, tops[k]) && Total(tables[k], name) == w[k];
      }
      SumsAddUp(tables[..n], topN, tops[..n], periodSec, name, w[..n]);
      assert tops == tops[..n] + [tops[n]] && w == w[..n] + [w[n]];
      SumSnoc(w[..n], w[n]);
      WireSnoc(tops[..n], tops[n], periodSec);
      var lists := Wire(tops, periodSec);
      assert lists[..n] == Wire(tops[..n], periodSec) && lists[n] == ToWire(tops[n], periodSec);
      OneListAdds(T.SumAll(lists[..n]), tables[n], topN, tops[n], periodSec, name);
      hide ToWire, Wire, Sum, Listed, Emits;
    }
  }

  lemma OneListAdds(sums: map<string, nat>, t: Table, topN: nat, top: seq<Script>, periodSec: real, name: string)
    requires IsTop(t, topN, top) && Listed(name, top) && periodSec > 0.0 && name != ""
    ensures T.SumOf(T.Summed(sums, ToWire(top, periodSec)), name) == T.SumOf(sums, name) + Total(t, name)
  {
    var list := ToWire(top, periodSec);
    var i :| 0 <= i < |top| && top[i].name == name;
    assert Copies(t, top[i]);
    T.SummedOnce(sums, list, name);
    assert list[i].name == name && list[i].us == top[i].total;
  }

  /** End to end, with decay p / q: for a script listed in each of n snapshots, whose windows added up to A microseconds and whose
      last listed value is w, the viewer's sum S, after any stream of records with these lists among them, satisfies
      |(1 - p/q) S + (p/q) w - A| <= (n - 1) / 2. Multiplied by 2q. */
  lemma ViewerSumMeasuresActivity(windows: seq<Window>, topN: nat, tops: seq<seq<Script>>, p: nat, q: nat,
                                  periodSec: real, name: string, stream: seq<T.Record>)
    requires 0 < p < q && periodSec > 0.0 && name != "" && windows != []
    requires Emits(Snapshots(map[], windows, p, q), topN, tops) && T.TopsOf(stream) == Wire(tops, periodSec)
    requires forall k | 0 <= k < |tops| :: Listed(name, tops[k])
    ensures var S := T.SumOf(T.IngestAll(T.EMPTY, stream).cumulative, name);
            var w := Total(Snapshots(map[], windows, p, q)[|windows| - 1], name);
            var measured := 2 * ((q - p) * S) + 2 * (p * w);
            var A := 2 * (q * Sum(Activity(windows, name)));
            A - q * (|windows| - 1) <= measured <= A + q * (|windows| - 1)
  {
    hide *;
    T.ScriptsAreSummed(stream);
    ViewerSumIsSum(windows, topN, tops, p, q, periodSec, name);
    Integrates(T.SumOf(T.IngestAll(T.EMPTY, stream).cumulative, name),
               Total(Snapshots(map[], windows, p, q)[|windows| - 1], name), Activity(windows, name), p, q);
  }

  lemma Integrates(S: nat, last: nat, added: seq<nat>, p: nat, q: nat)
    requires p < q && added != []
    requires var w := Emitted(0, added, p, q); S == Sum(w) && last == w[|w| - 1]
    ensures var measured, A := 2 * ((q - p) * S) + 2 * (p * last), 2 * (q * Sum(added));
            A - q * (|added| - 1) <= measured <= A + q * (|added| - 1)
  {
    hide *;
    SumIntegratesActivity(0, added, p, q);
    assert 0 + Sum(added) == Sum(added);
  }

  lemma ViewerSumIsSum(windows: seq<Window>, topN: nat, tops: seq<seq<Script>>, p: nat, q: nat,
                       periodSec: real, name: string)
    requires 0 < p < q && periodSec > 0.0 && name != "" && windows != []
    requires Emits(Snapshots(map[], windows, p, q), topN, tops)
    requires forall k | 0 <= k < |tops| :: Listed(name, tops[k])
    ensures var w := Emitted(0, Activity(windows, name), p, q);
            && T.SumOf(T.SumAll(Wire(tops, periodSec)), name) == Sum(w)
            && Total(Snapshots(map[], windows, p, q)[|windows| - 1], name) == w[|w| - 1]
  {
    var tables := Snapshots(map[], windows, p, q);
    var w := Emitted(0, Activity(windows, name), p, q);
    TotalsAreEmitted(map[], windows, p, q, name);
    assert Total(map[], name) == 0;
    hide Snapshots, Emitted, Activity, IsTop, Listed, Wire, Sum;
    forall k | 0 <= k < |tops| ensures Listed(name, tops[k]) && Total(tables[k], name) == w[k] {
    }
    SumsAddUp(tables, topN, tops, periodSec, name, w);
  }

  /** If the script never gets more than A microseconds in a window, no value listed for it exceeds (A + 1/2) / (1 - p/q). */
  lemma ListedValuesBounded(windows: seq<Window>, p: nat, q: nat, name: string, A: nat)
    requires 0 < p < q && name != ""
    requires forall a | a in Activity(windows, name) :: a <= A
    ensures forall k | 0 <= k < |windows| ::
              2 * ((q - p) * Total(Snapshots(map[], windows, p, q)[k], name)) <= (2 * A + 1) * q
  {
    TotalsAreEmitted(map[], windows, p, q, name);
    var e := Emitted(0, Activity(windows, name), p, q);
    assert 2 * ((q - p) * 0) <= (2 * A + 1) * p + (q - p);
    EmittedBounded(0, Activity(windows, name), A, p, q);
    forall k | 0 <= k < |windows|
      ensures 2 * ((q - p) * Total(Snapshots(map[], windows, p, q)[k], name)) <= (2 * A + 1) * q
    {
      assert e[k] in e;
    }
  }
}
