/** Per-script time attribution, `plugin/src/samplers/papyrus_attribution.cpp`: a table of counters, a top-N snapshot of it,
    and a rounded decay after each snapshot. */
module PapyrusAttribution {
  import opened Decay
  import opened Bits

  datatype Entry = Entry(total: nat, calls: nat)

  datatype Script = Script(name: string, total: nat, calls: nat)

  type Table = map<string, Entry>

  function Added(t: Table, name: string, us: nat): Table {
    if name == "" || us == 0 then t
    else if name !in t then t[name := Entry(us, 1)]
    else t[name := Entry(t[name].total + us, t[name].calls + 1)]
  }

  function DecayedEntry(e: Entry, p: nat, q: nat): Entry
    requires q > 0
  {
    Entry(Decayed(e.total, p, q), Decayed(e.calls, p, q))
  }

  predicate Gone(e: Entry) {
    e.total == 0 && e.calls == 0
  }

  /** A factor of 0 or less clears the table, one of 1 or more leaves it alone. */
  function DecayedTable(t: Table, p: int, q: nat): Table
    requires q > 0
  {
    if p <= 0 then map[]
    else if p >= q then t
    else map n | n in t && !Gone(DecayedEntry(t[n], p, q)) :: DecayedEntry(t[n], p, q)
  }

  // ----- the snapshot -----

  predicate Copies(t: Table, s: Script) {
    s.name in t && s.total == t[s.name].total && s.calls == t[s.name].calls
  }

  ghost predicate DistinctNames(s: seq<Script>) {
    forall i, j | 0 <= i < j < |s| :: s[i].name != s[j].name
  }

  ghost predicate Descending(s: seq<Script>) {
    forall i, j | 0 <= i < j < |s| :: s[i].total >= s[j].total
  }

  ghost predicate Listed(name: string, s: seq<Script>) {
    exists i :: 0 <= i < |s| && s[i].name == name
  }

  /** No script left out is ahead of one that is listed. */
  ghost predicate Leading(t: Table, top: seq<Script>) {
    forall name | name in t && !Listed(name, top) :: forall i | 0 <= i < |top| :: t[name].total <= top[i].total
  }

  ghost predicate IsTop(t: Table, n: nat, top: seq<Script>) {
    && |top| == Min(n, |t|)
    && (forall i | 0 <= i < |top| :: Copies(t, top[i]))
    && DistinctNames(top) && Descending(top) && Leading(t, top)
  }

  /** `std::partial_sort` by total, descending: the first m places are settled one after the other. Ties may go either way. */
  method PartialSort(v: seq<Script>, m: nat) returns (s: seq<Script>)
    requires m <= |v| && DistinctNames(v)
    ensures |s| == |v| && DistinctNames(s) && (forall x :: x in s <==> x in v)
    ensures Descending(s[..m])
    ensures forall i, j | 0 <= i < m <= j < |s| :: s[i].total >= s[j].total
  {
    s := v;
    for i := 0 to m
      invariant |s| == |v| && DistinctNames(s) && (forall x :: x in s <==> x in v)
      invariant Descending(s[..i])
      invariant forall a, b | 0 <= a < i <= b < |s| :: s[a].total >= s[b].total
    {
      var best := i;
      for j := i + 1 to |s|
        invariant i <= best < |s| && forall k | i <= k < j :: s[best].total >= s[k].total
      {
        if s[j].total > s[best].total { best := j; }
      }
      SwapKeeps(s, i, best);
      s := s[i := s[best]][best := s[i]];
    }
  }

  lemma SwapKeeps(s: seq<Script>, i: nat, j: nat)
    requires i <= j < |s|
    ensures forall x :: x in s[i := s[j]][j := s[i]] <==> x in s
    ensures DistinctNames(s) ==> DistinctNames(s[i := s[j]][j := s[i]])
  {
    var t := s[i := s[j]][j := s[i]];
    assert t[i] == s[j] && t[j] == s[i];
    forall x | x in s ensures x in t {
      var k :| 0 <= k < |s| && s[k] == x;
      assert k != i && k != j ==> t[k] == x;
    }
  }

  class PapyrusAttribution {
    var table: Table

    constructor ()
      ensures table == map[]
    {
      table := map[];
    }

    method Add(name: string, us: nat)
      modifies this
      ensures table == Added(old(table), name, us)
    {
      if name == "" || us == 0 { return; }
      if name !in table {
        table := table[name := Entry(us, 1)];
      } else {
        table := table[name := Entry(table[name].total + us, table[name].calls + 1)];
      }
    }

    /** Emits the leading scripts as they were BEFORE the decay. The decay factor is p / q. */
    method SnapshotTopAndDecay(topN: nat, p: int, q: nat) returns (snapshot: seq<Script>)
      requires q > 0
      modifies this
      ensures IsTop(old(table), topN, snapshot)
      ensures table == DecayedTable(old(table), p, q)
    {
      ghost var was := table;
      snapshot := CopyOut(table);
      var m := if topN < |snapshot| then topN else |snapshot|;
      ghost var all := snapshot;
      snapshot := PartialSort(snapshot, m);
      ghost var sorted := snapshot;
      if |snapshot| > topN { snapshot := snapshot[..topN]; }
      assert snapshot == sorted[..m];
      assert forall x | x in all :: Copies(was, x);
      assert forall i | 0 <= i < |sorted| :: sorted[i] in all;
      CutIsTop(was, topN, sorted, m);
      if p <= 0 {
        table := map[];
      } else if p < q {
        DecayAll(p, q);
      }
    }

    /** The decay loop, which erases entries as it passes them. */
    method DecayAll(p: nat, q: nat)
      requires 0 < p < q
      modifies this
      ensures table == DecayedTable(old(table), p, q)
    {
      hide Decayed;
      ghost var was := table;
      var left := table.Keys;
      while left != {}
        invariant left <= was.Keys
        invariant forall n | n in left :: n in table && table[n] == was[n]
        invariant forall n | n in was && n !in left :: n in table <==> !Gone(DecayedEntry(was[n], p, q))
        invariant forall n | n in table :: n in was && (n !in left ==> table[n] == DecayedEntry(was[n], p, q))
        decreases left
      {
        var n :| n in left;
        var e := DecayedEntry(table[n], p, q);
        if e.total == 0 && e.calls == 0 { table := table - {n}; } else { table := table[n := e]; }
        left := left - {n};
      }
    }

    method Reset()
      modifies this
      ensures table == map[]
    {
      table := map[];
    }
  }

  /** Copies the table in whatever order its hash gives. */
  method CopyOut(t: Table) returns (v: seq<Script>)
    ensures |v| == |t| && DistinctNames(v)
    ensures forall i | 0 <= i < |v| :: Copies(t, v[i])
    ensures forall n | n in t :: Script(n, t[n].total, t[n].calls) in v
  {
    v := [];
    var left := t.Keys;
    while left != {}
      invariant left <= t.Keys && |v| + |left| == |t|
      invariant DistinctNames(v)
      invariant forall i | 0 <= i < |v| :: Copies(t, v[i]) && v[i].name !in left
      invariant forall n | n in t && n !in left :: Script(n, t[n].total, t[n].calls) in v
      decreases left
    {
      var n :| n in left;
      v := v + [Script(n, t[n].total, t[n].calls)];
      left := left - {n};
    }
  }

  lemma ListedInPrefix(s: seq<Script>, m: nat, j: nat)
    requires j < m <= |s|
    ensures Listed(s[j].name, s[..m])
  {
    assert s[..m][j] == s[j];
  }

  lemma CutIsTop(t: Table, n: nat, sorted: seq<Script>, m: nat)
    requires |sorted| == |t| && m == Min(n, |t|) && DistinctNames(sorted)
    requires forall i | 0 <= i < |sorted| :: Copies(t, sorted[i])
    requires forall k | k in t :: Script(k, t[k].total, t[k].calls) in sorted
    requires Descending(sorted[..m])
    requires forall i, j | 0 <= i < m <= j < |sorted| :: sorted[i].total >= sorted[j].total
    ensures IsTop(t, n, sorted[..m])
  {
    var top := sorted[..m];
    forall k, i | k in t && !Listed(k, top) && 0 <= i < m ensures t[k].total <= top[i].total {
      var j :| 0 <= j < |sorted| && sorted[j] == Script(k, t[k].total, t[k].calls);
      if j < m { ListedInPrefix(sorted, m, j); assert false; }
    }
  }

  /** The flagger's call, with factor 1, is a pure read, as any with a larger factor. */
  lemma FactorOneReads(t: Table, p: nat, q: nat)
    requires 0 < q <= p
    ensures DecayedTable(t, p, q) == t
  {
  }

  /** Clearing the table for a factor of 0 or less is what rounding by 0 would do to it. */
  lemma ZeroFactorForgets(t: Table, p: int, q: nat, name: string)
    requires q > 0 && p <= 0
    ensures name !in DecayedTable(t, p, q) && DecayedTable(t, p, q) == DecayedTable(t, 0, q)
    ensures name in t ==> Gone(DecayedEntry(t[name], 0, q))
  {
    if name in t {
      AtLeastIff(t[name].total, 1, 0, q);
      AtLeastIff(t[name].calls, 1, 0, q);
    }
  }

  // ----- what survives a decay -----

  /** An emitted list read again from a later table: the scripts still there, with their values now. */
  function Reread(t: Table, top: seq<Script>): seq<Script> {
    if top == [] then []
    else
      var name := top[|top| - 1].name;
      Reread(t, top[..|top| - 1]) + if name in t then [Script(name, t[name].total, t[name].calls)] else []
  }

  function Names(s: seq<Script>): set<string> {
    set x | x in s :: x.name
  }

  lemma {:induction false} NamesCount(s: seq<Script>)
    requires DistinctNames(s)
    ensures |Names(s)| == |s|
  {
    if s != [] {
      var front, x := s[..|s| - 1], s[|s| - 1];
      NamesCount(front);
      assert s == front + [x];
      assert Names(s) == Names(front) + {x.name};
      assert x.name !in Names(front);
    }
  }

  lemma SubsetCount(a: set<string>, b: set<string>)
    requires a <= b
    ensures |a| <= |b|
    ensures |a| == |b| <==> a == b
  {
    assert b == a + (b - a);
  }

  ghost predicate InOrder(t: Table, top: seq<Script>) {
    forall i, j | 0 <= i < j < |top| && top[i].name in t && top[j].name in t :: t[top[i].name].total >= t[top[j].name].total
  }

  lemma {:induction false} RereadIs(t: Table, top: seq<Script>)
    requires DistinctNames(top) && InOrder(t, top)
    ensures var s := Reread(t, top);
            && DistinctNames(s) && Descending(s) && Names(s) == Names(top) * t.Keys
            && forall x | x in s :: Copies(t, x)
  {
    if top != [] {
      var front, x := top[..|top| - 1], top[|top| - 1];
      assert top == front + [x];
      FrontInOrder(t, front, x);
      RereadIs(t, front);
      RereadOneMore(t, front, x, Reread(t, front));
      NamesSnoc(front, x);
      hide DistinctNames, Descending, Names, InOrder, Copies;
    }
  }

  lemma FrontInOrder(t: Table, front: seq<Script>, x: Script)
    requires DistinctNames(front + [x]) && InOrder(t, front + [x])
    ensures DistinctNames(front) && InOrder(t, front)
    ensures forall i | 0 <= i < |front| :: front[i].name != x.name
                                           && (front[i].name in t && x.name in t ==> t[front[i].name].total >= t[x.name].total)
  {
    var top := front + [x];
    assert top[|front|] == x && forall i | 0 <= i < |front| :: top[i] == front[i];
  }

  lemma NamesSnoc(front: seq<Script>, x: Script)
    ensures Names(front + [x]) == Names(front) + {x.name}
  {
    assert x in front + [x] && forall y | y in front :: y in front + [x];
  }

  lemma RereadOneMore(t: Table, front: seq<Script>, x: Script, s: seq<Script>)
    requires DistinctNames(front + [x]) && InOrder(t, front + [x])
    requires DistinctNames(s) && Descending(s) && Names(s) == Names(front) * t.Keys
    requires forall y | y in s :: Copies(t, y)
    ensures var s' := s + if x.name in t then [Script(x.name, t[x.name].total, t[x.name].calls)] else [];
            && DistinctNames(s') && Descending(s') && Names(s') == (Names(front) + {x.name}) * t.Keys
            && forall y | y in s' :: Copies(t, y)
  {
    FrontInOrder(t, front, x);
    if x.name in t {
      var last := Script(x.name, t[x.name].total, t[x.name].calls);
      forall k | 0 <= k < |s| ensures s[k].name != x.name && s[k].total >= last.total {
        assert Copies(t, s[k]) && s[k].name in Names(s);
        var y :| y in front && y.name == s[k].name;
        var i :| 0 <= i < |front| && front[i] == y;
      }
      NamesSnoc(s, last);
    } else {
      assert s + [] == s;
    }
  }

  /** The entry has at least half a microsecond or half a call left after the decay. */
  predicate Survives(e: Entry, p: nat, q: nat) {
    q <= 2 * (p * e.total) || q <= 2 * (p * e.calls)
  }

  lemma SurvivesIff(e: Entry, p: nat, q: nat)
    requires 0 < p < q
    ensures Survives(e, p, q) <==> !Gone(DecayedEntry(e, p, q))
  {
    AtLeastIff(e.total, 1, p, q);
    AtLeastIff(e.calls, 1, p, q);
    assert e.total * p == p * e.total && e.calls * p == p * e.calls;
    hide Decayed;
  }

  /** With nothing added in between, a list emitted as the top N stays the top N of the decayed table if and only if all the listed
      scripts have enough to survive the decay or none of the unlisted ones has. */
  lemma TopStaysTopIff(t: Table, n: nat, top: seq<Script>, p: nat, q: nat)
    requires IsTop(t, n, top) && 0 < p < q
    ensures var d := DecayedTable(t, p, q);
            IsTop(d, n, Reread(d, top))
            <==> (|| (forall i | 0 <= i < |top| :: Survives(Entry(top[i].total, top[i].calls), p, q))
                  || (forall name | name in t && !Listed(name, top) :: !Survives(t[name], p, q)))
  {
    var d := DecayedTable(t, p, q);
    TopStaysTopKeys(t, n, top, p, q);
    assert forall i | 0 <= i < |top| :: Copies(t, top[i]);
    hide IsTop, Reread;
    forall name | name in t ensures name in d <==> Survives(t[name], p, q) { SurvivesIff(t[name], p, q); }
    assert d.Keys <= t.Keys;
    hide DecayedTable, Survives;
    ListedKeys(t, d, top, p, q);
    UnlistedKeys(t, d, top, p, q);
  }

  lemma ListedKeys(t: Table, d: Table, top: seq<Script>, p: nat, q: nat)
    requires forall i | 0 <= i < |top| :: Copies(t, top[i])
    requires forall name | name in t :: name in d <==> Survives(t[name], p, q)
    ensures Names(top) <= d.Keys <==> forall i | 0 <= i < |top| :: Survives(Entry(top[i].total, top[i].calls), p, q)
  {
    hide Survives;
    if Names(top) <= d.Keys {
      forall i | 0 <= i < |top| ensures Survives(Entry(top[i].total, top[i].calls), p, q) {
        assert Copies(t, top[i]) && top[i].name in Names(top);
      }
    } else {
      var name :| name in Names(top) && name !in d;
      var i := PlaceOf(top, name);
      assert Copies(t, top[i]) && !Survives(Entry(top[i].total, top[i].calls), p, q);
    }
  }

  lemma UnlistedKeys(t: Table, d: Table, top: seq<Script>, p: nat, q: nat)
    requires d.Keys <= t.Keys && forall name | name in t :: name in d <==> Survives(t[name], p, q)
    ensures d.Keys <= Names(top) <==> forall name | name in t && !Listed(name, top) :: !Survives(t[name], p, q)
  {
    hide Survives;
    forall name ensures Listed(name, top) <==> name in Names(top) { ListedIff(name, top); }
  }

  lemma TopStaysTopKeys(t: Table, n: nat, top: seq<Script>, p: nat, q: nat)
    requires IsTop(t, n, top) && 0 < p < q
    ensures var d := DecayedTable(t, p, q);
            IsTop(d, n, Reread(d, top)) <==> Names(top) <= d.Keys || d.Keys <= Names(top)
  {
    var d := DecayedTable(t, p, q);
    var s := Reread(d, top);
    DecayKeepsLead(t, top, p, q);
    RereadIs(d, top);
    NamesCount(s);
    NamesCount(top);
    RereadLeads(d, top, s);
    RereadCount(Names(top), d.Keys, t.Keys, n);
    assert forall i | 0 <= i < |s| :: s[i] in s;
    assert d.Keys <= t.Keys;
    hide DecayedTable, Reread, Leading, Names;
  }

  lemma DecayKeepsLead(t: Table, top: seq<Script>, p: nat, q: nat)
    requires 0 < p < q && Descending(top) && Leading(t, top) && forall i | 0 <= i < |top| :: Copies(t, top[i])
    ensures InOrder(DecayedTable(t, p, q), top) && Names(top) <= t.Keys
    ensures forall name, i | name in DecayedTable(t, p, q) && !Listed(name, top) && 0 <= i < |top|
                             && top[i].name in DecayedTable(t, p, q) ::
              DecayedTable(t, p, q)[name].total <= DecayedTable(t, p, q)[top[i].name].total
  {
    hide Decayed;
    var d := DecayedTable(t, p, q);
    forall i, j | 0 <= i < j < |top| && top[i].name in d && top[j].name in d
      ensures d[top[i].name].total >= d[top[j].name].total
    {
      DecayedMonotone(top[j].total, top[i].total, p, q);
    }
    forall name, i | name in d && !Listed(name, top) && 0 <= i < |top| && top[i].name in d
      ensures d[name].total <= d[top[i].name].total
    {
      DecayedMonotone(t[name].total, top[i].total, p, q);
    }
  }

  lemma RereadLeads(d: Table, top: seq<Script>, s: seq<Script>)
    requires Names(s) == Names(top) * d.Keys && forall x | x in s :: Copies(d, x)
    requires forall name, i | name in d && !Listed(name, top) && 0 <= i < |top| && top[i].name in d ::
               d[name].total <= d[top[i].name].total
    ensures Leading(d, s)
  {
    forall name, k | name in d && !Listed(name, s) && 0 <= k < |s| ensures d[name].total <= s[k].total {
      ListedIff(name, s);
      ListedIff(name, top);
      assert s[k].name in Names(s) && Copies(d, s[k]);
      var i := PlaceOf(top, s[k].name);
    }
  }

  lemma ListedIff(name: string, s: seq<Script>)
    ensures Listed(name, s) <==> name in Names(s)
  {
    if name in Names(s) { var i := PlaceOf(s, name); }
  }

  lemma PlaceOf(s: seq<Script>, name: string) returns (i: nat)
    requires name in Names(s)
    ensures i < |s| && s[i].name == name
  {
    var x :| x in s && x.name == name;
    i :| 0 <= i < |s| && s[i] == x;
  }

  lemma RereadCount(listed: set<string>, left: set<string>, all: set<string>, n: nat)
    requires listed <= all && left <= all && |listed| == Min(n, |all|)
    ensures |listed * left| == Min(n, |left|) <==> listed <= left || left <= listed
  {
    SubsetCount(listed * left, listed);
    SubsetCount(listed * left, left);
    SubsetCount(listed, all);
    SubsetCount(left, all);
    assert listed <= left <==> listed * left == listed;
    assert left <= listed <==> listed * left == left;
  }

  /** For factors from one half up, as shipped, no live script is reaped, so the list just emitted is still the top N. */
  lemma TopStaysTop(t: Table, n: nat, top: seq<Script>, p: nat, q: nat)
    requires IsTop(t, n, top) && AllLive(t) && 0 < p < q <= 2 * p
    ensures var d := DecayedTable(t, p, q);
            IsTop(d, n, Reread(d, top)) && Names(Reread(d, top)) == Names(top)
  {
    var d := DecayedTable(t, p, q);
    TopStaysTopKeys(t, n, top, p, q);
    assert Names(top) <= t.Keys by { DecayKeepsLead(t, top, p, q); }
    hide Decayed;
    forall name | name in t ensures name in d { StaysPositive(t[name].total, 1, p, q); }
    assert InOrder(d, top) by { DecayKeepsLead(t, top, p, q); }
    RereadIs(d, top);
  }

  /** Below one half it can fail: a listed script is reaped while an unlisted one, with more calls, is not. */
  lemma SmallFactorLosesTheTop(a: string, b: string)
    requires a != b
    ensures var t: Table := map[a := Entry(1, 1), b := Entry(1, 5)];
            var top := [Script(a, 1, 1)];
            var d := DecayedTable(t, 1, 4);
            IsTop(t, 1, top) && d == map[b := Entry(0, 1)] && !IsTop(d, 1, Reread(d, top))
  {
    var t: Table := map[a := Entry(1, 1), b := Entry(1, 5)];
    var top := [Script(a, 1, 1)];
    var d := DecayedTable(t, 1, 4);
    assert DecayedEntry(Entry(1, 1), 1, 4) == Entry(0, 0) && DecayedEntry(Entry(1, 5), 1, 4) == Entry(0, 1);
    hide DecayedEntry;
    assert d.Keys == {b};
    assert d == map[b := Entry(0, 1)];
    hide DecayedTable;
    assert t.Keys == {a, b} && |t| == |t.Keys| && |d| == |d.Keys|;
    assert Copies(t, top[0]) && DistinctNames(top) && Descending(top) && Leading(t, top);
    assert Reread(d, top) == [] by { assert top[..0] == []; }
    EmptyIsNoTop(d);
  }

  lemma EmptyIsNoTop(t: Table)
    requires |t| == 1
    ensures !IsTop(t, 1, [])
  {
  }

  /** n decays with nothing added in between. */
  function IdleTable(t: Table, n: nat, p: nat, q: nat): Table
    requires q > 0
    decreases n
  {
    if n == 0 then t else IdleTable(DecayedTable(t, p, q), n - 1, p, q)
  }

  lemma {:induction false} IteratedZero(n: nat, p: nat, q: nat)
    requires q > 0
    ensures Iterated(0, n, p, q) == 0
  {
    if n > 0 {
      assert Decayed(0, p, q) == 0 by { AtLeastIff(0, 1, p, q); }
      IteratedZero(n - 1, p, q);
    }
  }

  /** An idle entry's counters decay independently; it is reaped when both have reached 0. */
  lemma {:induction false} IdleEntry(t: Table, n: nat, p: nat, q: nat, name: string)
    requires 0 < p < q && name in t && !Gone(t[name])
    ensures var e := Entry(Iterated(t[name].total, n, p, q), Iterated(t[name].calls, n, p, q));
            && (name in IdleTable(t, n, p, q) <==> !Gone(e))
            && (name in IdleTable(t, n, p, q) ==> IdleTable(t, n, p, q)[name] == e)
    decreases n
  {
    hide Decayed;
    if n > 0 {
      var d := DecayedTable(t, p, q);
      if name in d {
        IdleEntry(d, n - 1, p, q, name);
      } else {
        IteratedZero(n - 1, p, q);
        NothingReturns(d, n - 1, p, q, name);
      }
    }
  }

  lemma {:induction false} NothingReturns(t: Table, n: nat, p: nat, q: nat, name: string)
    requires 0 < p < q && name !in t
    ensures name !in IdleTable(t, n, p, q)
    decreases n
  {
    if n > 0 { NothingReturns(DecayedTable(t, p, q), n - 1, p, q, name); }
  }

  /** Left idle, an entry is reaped within n snapshots when the factor is below one half and its counters below 2^n. */
  lemma IdleIsReaped(t: Table, n: nat, p: nat, q: nat, name: string)
    requires 0 < 2 * p < q && name in t && t[name].total < Pow2(n) && t[name].calls < Pow2(n)
    requires !Gone(t[name])
    ensures name !in IdleTable(t, n, p, q)
  {
    IdleEntry(t, n, p, q, name);
    DiesWithin(t[name].total, n, p, q);
    DiesWithin(t[name].calls, n, p, q);
  }

  /** With the shipped 0.55 it is never reaped: it ends as one microsecond and one call, and stays so. */
  lemma IdleStaysForever(t: Table, n: nat, name: string)
    requires name in t && 1 <= t[name].total <= n && 1 <= t[name].calls <= n
    ensures name in IdleTable(t, n, SHIPPED_NUM, SHIPPED_DEN)
    ensures IdleTable(t, n, SHIPPED_NUM, SHIPPED_DEN)[name] == Entry(1, 1)
  {
    IdleEntry(t, n, SHIPPED_NUM, SHIPPED_DEN, name);
    ShippedNeverDies(t[name].total, n);
    ShippedNeverDies(t[name].calls, n);
  }

  /** For any factor below 1: some number of idle snapshots reaps every entry, if and only if the factor is below one half. */
  lemma ReapsIff(p: nat, q: nat, e: Entry)
    requires 0 < p < q && e.total >= 1 && e.calls >= 1
    ensures (exists n: nat :: Gone(Entry(Iterated(e.total, n, p, q), Iterated(e.calls, n, p, q)))) <==> 2 * p < q
  {
    hide Decayed;
    FloorIsZeroIff(p, q);
    var n := e.total + e.calls;
    IdleReachesFloor(e.total, n, p, q);
    IdleReachesFloor(e.calls, n, p, q);
    if 2 * p < q {
      assert Gone(Entry(Iterated(e.total, n, p, q), Iterated(e.calls, n, p, q)));
    } else {
      forall m: nat ensures Iterated(e.total, m, p, q) >= 1 { StaysPositive(e.total, m, p, q); }
    }
  }

  lemma {:induction false} StaysPositive(x: nat, n: nat, p: nat, q: nat)
    requires p < q <= 2 * p && x >= 1
    ensures Iterated(x, n, p, q) >= 1
    decreases n
  {
    hide Decayed;
    if n > 0 {
      AtLeastIff(x, 1, p, q);
      MulMonotone(1, x, p);
      StaysPositive(Decayed(x, p, q), n - 1, p, q);
    }
  }

  // ----- runs -----

  datatype Action = Add(name: string, us: nat) | Snapshot(p: int, q: nat) | Reset

  function Apply(t: Table, a: Action): Table
    requires a.Snapshot? ==> a.q > 0
  {
    match a
    case Add(name, us) => Added(t, name, us)
    case Snapshot(p, q) => DecayedTable(t, p, q)
    case Reset => map[]
  }

  /** The calls the plugin really makes: the hook's, the sampler's decay of 0.55, the flagger's factor 1, and the reset when the
      sampler stops. */
  predicate Shipped(a: Action) {
    a.Snapshot? ==> a.q > 0 && (a.p == a.q || (a.p == SHIPPED_NUM && a.q == SHIPPED_DEN))
  }

  ghost predicate Run(t: Table, acts: seq<Action>, u: Table)
    decreases |acts|
  {
    if acts == [] then t == u
    else Shipped(acts[0]) && Run(Apply(t, acts[0]), acts[1..], u)
  }

  ghost predicate AllLive(t: Table) {
    forall n | n in t :: t[n].total >= 1 && t[n].calls >= 1
  }

  lemma ShippedKeepsAll(t: Table, a: Action)
    requires AllLive(t) && Shipped(a)
    ensures AllLive(Apply(t, a)) && (!a.Reset? ==> t.Keys <= Apply(t, a).Keys)
  {
    hide Decayed;
    if a.Snapshot? && a.p < a.q {
      forall n | n in t ensures !Gone(DecayedEntry(t[n], a.p, a.q)) && n in Apply(t, a) {
        StaysPositive(t[n].total, 1, a.p, a.q);
        StaysPositive(t[n].calls, 1, a.p, a.q);
      }
      forall n | n in Apply(t, a) ensures Apply(t, a)[n].total >= 1 && Apply(t, a)[n].calls >= 1 {
        StaysPositive(t[n].total, 1, a.p, a.q);
        StaysPositive(t[n].calls, 1, a.p, a.q);
      }
    }
  }

  /** So in a whole session the table never shrinks until the sampler stops: every script ever added is still in it, unless a reset
      came in between. */
  lemma {:induction false} TableNeverShrinks(t: Table, acts: seq<Action>, u: Table)
    requires AllLive(t) && Run(t, acts, u)
    ensures AllLive(u)
    ensures (forall a | a in acts :: !a.Reset?) ==> t.Keys <= u.Keys
    ensures forall i | 0 <= i < |acts| && acts[i].Add? && acts[i].name != "" && acts[i].us != 0
                       && (forall a | a in acts[i + 1..] :: !a.Reset?) :: acts[i].name in u
    decreases |acts|
  {
    if acts != [] {
      var m := Apply(t, acts[0]);
      ShippedKeepsAll(t, acts[0]);
      assert acts[0].Add? && acts[0].name != "" && acts[0].us != 0 ==> acts[0].name in m;
      hide Apply;
      TableNeverShrinks(m, acts[1..], u);
      assert acts == [acts[0]] + acts[1..];
      forall i | 0 < i < |acts| && acts[i].Add? && acts[i].name != "" && acts[i].us != 0
                 && (forall a | a in acts[i + 1..] :: !a.Reset?)
        ensures acts[i].name in u
      {
        assert acts[1..][i - 1] == acts[i] && acts[1..][(i - 1) + 1..] == acts[i + 1..];
      }
    }
  }
}
