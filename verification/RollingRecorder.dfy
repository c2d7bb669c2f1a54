/** `plugin/src/transport/rolling_recorder.cpp`: the record stream on disk in files of one time window each, the three newest
    closed files kept, plus permanent pinned copies. A gzip file is the list of the records written to it. */
module RollingRecorder {
  import opened Subsequences

  // ----- names -----

  datatype Path = Session(stamp: string) | Pinned(name: string, stamp: string)

  function FileName(p: Path): string {
    match p
    case Session(stamp) => "session-" + stamp + ".ndjson.gz"
    case Pinned(name, stamp) => "pinned-" + name + "-" + stamp + ".ndjson.gz"
  }

  /** Time stamps are `YYYYMMDD-HHMMSS`; with that length fixed, different paths never share a file name. */
  lemma FileNamesDiffer(p: Path, q: Path)
    requires |p.stamp| == |q.stamp| == 15
    ensures FileName(p) == FileName(q) <==> p == q
  {
    var f, g := FileName(p), FileName(q);
    FirstLetter(p);
    FirstLetter(q);
    if f == g {
      StampBack(p);
      StampBack(q);
      if p.Pinned? {
        NameBack(p);
        NameBack(q);
      }
    }
  }

  lemma FirstLetter(p: Path)
    ensures FileName(p) != "" && FileName(p)[0] == if p.Session? then 's' else 'p'
  {
  }

  lemma StampBack(p: Path)
    requires |p.stamp| == 15
    ensures var f := FileName(p); |f| >= 25 && f[|f| - 25..|f| - 10] == p.stamp
  {
    var f := FileName(p);
    var front := if p.Session? then "session-" else "pinned-" + p.name + "-";
    assert f == front + (p.stamp + ".ndjson.gz");
  }

  lemma NameBack(p: Path)
    requires p.Pinned? && |p.stamp| == 15
    ensures var f := FileName(p); |f| >= 33 && f[7..|f| - 26] == p.name
  {
    assert FileName(p) == "pinned-" + (p.name + ("-" + p.stamp + ".ndjson.gz"));
  }

  predicate NameChar(c: char) {
    '0' <= c <= '9' || 'a' <= c <= 'z' || 'A' <= c <= 'Z' || c == '-' || c == '_'
  }

  function Keep(name: string): string {
    if name == "" then ""
    else if NameChar(name[|name| - 1]) then Keep(name[..|name| - 1]) + [name[|name| - 1]]
    else Keep(name[..|name| - 1])
  }

  function Clean(name: string): string {
    if Keep(name) == "" then "pinned" else Keep(name)
  }

  /** Letters, digits, dash and underscore. */
  lemma AllowedIff(c: char)
    ensures NameChar(c) <==> ('a' <= c <= 'z' || 'A' <= c <= 'Z' || '0' <= c <= '9' || c == '-' || c == '_')
  {
  }

  lemma {:induction false} KeepConcat(a: string, b: string)
    ensures Keep(a + b) == Keep(a) + Keep(b)
  {
    hide NameChar;
    if b == "" {
      assert a + b == a && Keep(a) + "" == Keep(a);
    } else {
      var n := |b| - 1;
      KeepConcat(a, b[..n]);
      assert (a + b)[..|a + b| - 1] == a + b[..n];
      assert Keep(a) + (Keep(b[..n]) + [b[n]]) == (Keep(a) + Keep(b[..n])) + [b[n]];
    }
  }

  lemma {:induction false} KeepIs(name: string)
    ensures IsSubseq(Keep(name), name)
    ensures forall c :: c in Keep(name) <==> c in name && NameChar(c)
  {
    hide NameChar, IsSubseq;
    if name == "" {
      Reflexive(name);
    } else {
      var front, x := name[..|name| - 1], name[|name| - 1];
      assert name == front + [x];
      KeepIs(front);
      if NameChar(x) { Take(Keep(front), front, x); } else { Skip(Keep(front), front, x); }
    }
  }

  lemma {:induction false} KeepAll(name: string)
    requires forall c | c in name :: NameChar(c)
    ensures Keep(name) == name
  {
    hide NameChar;
    if name != "" {
      assert name[|name| - 1] in name && forall c | c in name[..|name| - 1] :: c in name;
      KeepAll(name[..|name| - 1]);
      assert name == name[..|name| - 1] + [name[|name| - 1]];
    }
  }

  /** A pin's name holds only what a file name may, is never empty, and is the name asked for exactly if that was neither empty nor
      held anything else. */
  lemma CleanIs(name: string)
    ensures Clean(name) != "" && forall c | c in Clean(name) :: NameChar(c)
    ensures Clean(name) == name <==> name != "" && forall c | c in name :: NameChar(c)
    ensures (exists c :: c in name && NameChar(c)) ==> IsSubseq(Clean(name), name)
    ensures (forall c | c in name :: !NameChar(c)) ==> Clean(name) == "pinned"
  {
    KeepIs(name);
    var pinned := "pinned";
    assert forall i | 0 <= i < 6 :: NameChar(pinned[i]);
    assert forall c | c in pinned :: NameChar(c);
    if forall c | c in name :: NameChar(c) { KeepAll(name); }
    if Keep(name) != "" { assert Keep(name)[0] in Keep(name); }
    hide Keep, NameChar, IsSubseq;
  }

  // ----- state -----

  datatype Entry = Entry(text: string, at: int)

  datatype File = File(openedAt: int, entries: seq<Entry>)

  /** One file ever opened, with everything ever written to it. */
  datatype Gen = Gen(path: Path, file: File)

  datatype Recorder = Recorder(
    window: int,
    running: bool,
    open: bool,                // _gz is not null
    current: Path,
    windowStart: int,
    rotated: seq<Path>,        // newest first
    disk: map<Path, File>,
    gens: seq<Gen>             // history, oldest first
  )

  const KEEP_ROTATIONS := 3

  /** What the outside decides during one call: the clock, and whether the file operations succeed. */
  datatype Env = Env(stamp: string, pinStamp: string, openTime: int,
                     opens: bool, writes: bool, copies: bool, removes: bool)

  datatype Action =
    | Start(env: Env, dirMade: bool)
    | Append(text: string, now: int, env: Env)
    | RotateNow(env: Env)
    | PinCurrent(name: string, env: Env)
    | Stop(env: Env)

  function Prune(r: Recorder, removes: bool): Recorder {
    if |r.rotated| <= KEEP_ROTATIONS then r
    else
      r.(rotated := r.rotated[..KEEP_ROTATIONS],
         disk := if removes then Drop(r.disk, r.rotated, KEEP_ROTATIONS) else r.disk)
  }

  /** The directory without the listed files from index n on. */
  function Drop(disk: map<Path, File>, paths: seq<Path>, n: nat): map<Path, File>
    requires n <= |paths|
  {
    disk - set p | p in paths[n..]
  }

  lemma NothingGone(disk: map<Path, File>, paths: seq<Path>)
    ensures Drop(disk, paths, |paths|) == disk
  {
  }

  lemma OneMoreGone(disk: map<Path, File>, paths: seq<Path>, n: nat)
    requires 0 < n <= |paths|
    ensures Drop(disk, paths, n - 1) == Drop(disk, paths, n) - {paths[n - 1]}
  {
    assert paths[n - 1..] == [paths[n - 1]] + paths[n..];
  }

  function Close(r: Recorder, removes: bool): Recorder {
    if r.open then Prune(r.(open := false, rotated := [r.current] + r.rotated), removes) else r
  }

  /** `gzopen(..., "wb")` truncates a file of that name. */
  function Open(r: Recorder, env: Env): Recorder {
    var r' := r.(current := Session(env.stamp));
    if !env.opens then r'
    else
      var f := File(env.openTime, []);
      r'.(open := true, windowStart := env.openTime, disk := r.disk[r'.current := f], gens := r.gens + [Gen(r'.current, f)])
  }

  /** `gzwrite` reports 0, the failure value, for an empty record as well. */
  function Write(r: Recorder, e: Entry, env: Env): Recorder {
    if !env.writes || e.text == "" then Close(r, env.removes)
    else if r.current !in r.disk then r
    else
      var f := r.disk[r.current];
      r.(disk := r.disk[r.current := f.(entries := f.entries + [e])], gens := Extended(r.gens, e))
  }

  /** One more entry in the newest file. */
  function Extended(gens: seq<Gen>, e: Entry): seq<Gen> {
    if gens == [] then []
    else
      var g := gens[|gens| - 1];
      gens[..|gens| - 1] + [g.(file := g.file.(entries := g.file.entries + [e]))]
  }

  function Copy(r: Recorder, to: Path): Recorder {
    if r.current in r.disk then r.(disk := r.disk[to := r.disk[r.current]]) else r
  }

  predicate Expired(r: Recorder, now: int) {
    now - r.windowStart >= r.window
  }

  function Apply(r: Recorder, a: Action): Recorder {
    match a
    case Start(env, dirMade) =>
      if r.running || !dirMade then r
      else Open(r, env).(running := env.opens)
    case Append(text, now, env) =>
      if !r.running || !r.open then r
      else if !Expired(r, now) then Write(r, Entry(text, now), env)
      else
        var r' := Open(Close(r, env.removes), env);
        if env.opens then Write(r', Entry(text, now), env) else r'
    case RotateNow(env) => if r.open then Open(Close(r, env.removes), env) else r
    case PinCurrent(name, env) =>
      if !r.open then r
      else
        var r' := Close(r, env.removes);
        Open(if env.copies then Copy(r', Pinned(Clean(name), env.pinStamp)) else r', env)
    case Stop(env) => if r.running then Close(r.(running := false), env.removes) else r
  }

  // ----- the class -----

  class RollingRecorder {
    const window: int
    var running: bool
    var open: bool
    var current: Path
    var windowStart: int
    var rotated: seq<Path>
    var disk: map<Path, File>
    ghost var gens: seq<Gen>

    ghost function Model(): Recorder
      reads this
    {
      Recorder(window, running, open, current, windowStart, rotated, disk, gens)
    }

    constructor (rollingMinutes: int, directory: map<Path, File>)
      ensures Model() == Recorder(60 * (if rollingMinutes <= 0 then 5 else rollingMinutes),
                                  false, false, Session(""), 0, [], directory, [])
    {
      window := 60 * (if rollingMinutes <= 0 then 5 else rollingMinutes);
      running, open, current, windowStart, rotated, disk, gens := false, false, Session(""), 0, [], directory, [];
    }

    method PruneOldFiles(removes: bool)
      modifies this
      ensures Model() == Prune(old(Model()), removes)
    {
      ghost var was, before := rotated, disk;
      NothingGone(before, was);
      hide Drop;
      while |rotated| > KEEP_ROTATIONS
        invariant |rotated| <= |was| && rotated == was[..|rotated|]
        invariant |rotated| >= if |was| < KEEP_ROTATIONS then |was| else KEEP_ROTATIONS
        invariant Model() == old(Model()).(rotated := rotated, disk := if removes then Drop(before, was, |rotated|) else before)
      {
        OneMoreGone(before, was, |rotated|);
        if removes { disk := disk - {rotated[|rotated| - 1]}; }
        rotated := rotated[..|rotated| - 1];
      }
    }

    method CloseCurrent(removes: bool)
      modifies this
      ensures Model() == Close(old(Model()), removes)
    {
      if open {
        open := false;
        rotated := [current] + rotated;
        PruneOldFiles(removes);
      }
    }

    method OpenNewFile(env: Env) returns (ok: bool)
      modifies this
      ensures Model() == Open(old(Model()), env) && ok == env.opens
    {
      current := Session(env.stamp);
      if !env.opens { return false; }
      disk := disk[current := File(env.openTime, [])];
      gens := gens + [Gen(current, File(env.openTime, []))];
      open, windowStart := true, env.openTime;
      ok := true;
    }

    method Start(env: Env, dirMade: bool) returns (ok: bool)
      modifies this
      ensures Model() == Apply(old(Model()), Action.Start(env, dirMade))
      ensures ok == (!old(running) && dirMade && env.opens)
    {
      if running { return false; }
      running := true;
      if !dirMade { running := false; return false; }
      ok := OpenNewFile(env);
      if !ok { running := false; }
    }

    method Append(text: string, now: int, env: Env)
      modifies this
      ensures Model() == Apply(old(Model()), Action.Append(text, now, env))
    {
      if !running || !open { return; }
      if now - windowStart >= window {
        CloseCurrent(env.removes);
        var ok := OpenNewFile(env);
        if !ok { return; }
      }
      if !env.writes || text == "" {
        CloseCurrent(env.removes);
      } else if current in disk {
        disk := disk[current := disk[current].(entries := disk[current].entries + [Entry(text, now)])];
        gens := Extended(gens, Entry(text, now));
      }
    }

    method RotateNow(env: Env)
      modifies this
      ensures Model() == Apply(old(Model()), Action.RotateNow(env))
    {
      if open {
        CloseCurrent(env.removes);
        var _ := OpenNewFile(env);
      }
    }

    method PinCurrent(name: string, env: Env) returns (pinned: seq<Path>)
      modifies this
      ensures Model() == Apply(old(Model()), Action.PinCurrent(name, env))
      ensures pinned == if old(open) && env.copies then [Pinned(Clean(name), env.pinStamp)] else []
    {
      if !open { return []; }
      var clean := "";
      for i := 0 to |name|
        invariant clean == Keep(name[..i])
      {
        assert name[..i + 1][..i] == name[..i];
        if NameChar(name[i]) { clean := clean + [name[i]]; }
      }
      assert name[..|name|] == name;
      if clean == "" { clean := "pinned"; }
      var pinPath := Pinned(clean, env.pinStamp);
      var closing := current;
      CloseCurrent(env.removes);
      if !env.copies {
        var _ := OpenNewFile(env);
        return [];
      }
      if closing in disk { disk := disk[pinPath := disk[closing]]; }
      var _ := OpenNewFile(env);
      pinned := [pinPath];
    }

    method Stop(env: Env)
      modifies this
      ensures Model() == Apply(old(Model()), Action.Stop(env))
    {
      if !running { return; }
      running := false;
      CloseCurrent(env.removes);
    }
  }

  // ----- the invariant -----

  ghost predicate Distinct(gens: seq<Gen>) {
    forall i, j | 0 <= i < j < |gens| :: gens[i].path != gens[j].path
  }

  /** How many of the newest files are kept: the rotated ones and the open one. */
  function Held(r: Recorder): nat {
    |r.rotated| + if r.open then 1 else 0
  }

  /** The files kept, oldest first. */
  function Retained(r: Recorder): seq<Gen>
    requires Held(r) <= |r.gens|
  {
    r.gens[|r.gens| - Held(r)..]
  }

  /** `before` is the directory as the recorder found it. */
  ghost predicate Inv(before: map<Path, File>, r: Recorder) {
    && r.window > 0 && |r.rotated| <= KEEP_ROTATIONS && (r.open ==> r.running)
    && Held(r) <= |r.gens|
    && (|r.rotated| < KEEP_ROTATIONS ==> Held(r) == |r.gens|)
    && Lists(r, Retained(r)) && OnDisk(before, r.disk, Retained(r))
  }

  ghost predicate Lists(r: Recorder, kept: seq<Gen>)
    requires Held(r) == |kept|
  {
    && Distinct(kept)
    && (forall i | 0 <= i < |r.rotated| :: r.rotated[i] == kept[|r.rotated| - 1 - i].path)
    && (r.open ==> r.current == kept[|kept| - 1].path && r.windowStart == kept[|kept| - 1].file.openedAt)
  }

  /** The session files on disk are those kept, as they were written, and those that were there before. */
  ghost predicate OnDisk(before: map<Path, File>, disk: map<Path, File>, kept: seq<Gen>) {
    && (forall i | 0 <= i < |kept| ::
          kept[i].path.Session? && kept[i].path in disk && disk[kept[i].path] == kept[i].file && kept[i].path !in before)
    && (forall p | p in disk && p.Session? :: p in before || p in Paths(kept))
    && (forall p | p in before && p.Session? :: p in disk && disk[p] == before[p])
  }

  function Paths(kept: seq<Gen>): seq<Path> {
    seq(|kept|, i requires 0 <= i < |kept| => kept[i].path)
  }

  /** Every record was appended within one window of the opening of its file. */
  ghost predicate InWindow(r: Recorder) {
    forall g | g in r.gens :: forall e | e in g.file.entries :: e.at - g.file.openedAt < r.window
  }

  /** The call opens a new session file. */
  predicate Opens(r: Recorder, a: Action) {
    match a
    case Start(_, dirMade) => !r.running && dirMade
    case Append(_, now, _) => r.running && r.open && Expired(r, now)
    case RotateNow(_) => r.open
    case PinCurrent(_, _) => r.open
    case Stop(_) => false
  }

  /** What the theorems assume of the outside: removes succeed; each new session file gets a name not on disk, and is opened no
      earlier than the clock was read to decide on it. */
  ghost predicate Fair(r: Recorder, a: Action) {
    && a.env.removes
    && (Opens(r, a) ==> Session(a.env.stamp) !in r.disk && (a.Append? ==> a.now <= a.env.openTime))
  }

  lemma OnDiskOpen(before: map<Path, File>, disk: map<Path, File>, kept: seq<Gen>, g: Gen)
    requires OnDisk(before, disk, kept) && g.path.Session? && g.path !in disk
    ensures OnDisk(before, disk[g.path := g.file], kept + [g])
  {
    assert Paths(kept + [g]) == Paths(kept) + [g.path];
  }

  lemma OnDiskDrop(before: map<Path, File>, disk: map<Path, File>, kept: seq<Gen>)
    requires OnDisk(before, disk, kept) && Distinct(kept) && kept != []
    ensures OnDisk(before, disk - {kept[0].path}, kept[1..])
  {
    assert Paths(kept) == [kept[0].path] + Paths(kept[1..]);
  }

  lemma OnDiskWrite(before: map<Path, File>, disk: map<Path, File>, kept: seq<Gen>, f: File)
    requires OnDisk(before, disk, kept) && Distinct(kept) && kept != []
    ensures var last := kept[|kept| - 1];
            OnDisk(before, disk[last.path := f], kept[..|kept| - 1] + [last.(file := f)])
  {
    var last := kept[|kept| - 1];
    assert Paths(kept[..|kept| - 1] + [last.(file := f)]) == Paths(kept);
  }

  lemma OnDiskPin(before: map<Path, File>, disk: map<Path, File>, kept: seq<Gen>, to: Path, f: File)
    requires OnDisk(before, disk, kept) && to.Pinned?
    ensures OnDisk(before, disk[to := f], kept)
  {
  }

  lemma OpenKeeps(before: map<Path, File>, r: Recorder, env: Env)
    requires Inv(before, r) && !r.open && Session(env.stamp) !in r.disk && env.opens
    ensures Inv(before, Open(r, env).(running := true))
  {
    var g := Gen(Session(env.stamp), File(env.openTime, []));
    var kept := Retained(r);
    OnDiskOpen(before, r.disk, kept, g);
    NotOnDiskIsNew(before, r.disk, kept, g);
    OneMoreRetained(r, Open(r, env).(running := true), kept, g);
    hide OnDisk, Retained, Distinct, Lists;
  }

  lemma OneMoreRetained(r: Recorder, t: Recorder, kept: seq<Gen>, g: Gen)
    requires Held(r) <= |r.gens| && kept == Retained(r) && Lists(r, kept) && Distinct(kept + [g])
    requires !r.open && t.open && t.rotated == r.rotated && t.gens == r.gens + [g]
    requires t.current == g.path && t.windowStart == g.file.openedAt
    ensures Held(t) == Held(r) + 1 && Retained(t) == kept + [g] && Lists(t, kept + [g])
  {
    hide Distinct;
  }

  lemma NotOnDiskIsNew(before: map<Path, File>, disk: map<Path, File>, kept: seq<Gen>, g: Gen)
    requires OnDisk(before, disk, kept) && Distinct(kept) && g.path !in disk
    ensures Distinct(kept + [g])
  {
  }

  lemma CloseKeeps(before: map<Path, File>, r: Recorder)
    requires Inv(before, r)
    ensures Inv(before, Close(r, true)) && !Close(r, true).open
    ensures Close(r, true).gens == r.gens
  {
    hide OnDisk;
    if !r.open {
    } else if |r.rotated| < KEEP_ROTATIONS {
      var t := Close(r, true);
      assert t == r.(open := false, rotated := [r.current] + r.rotated);
      OneMoreRotated(r, t, Retained(r));
      hide Retained, Lists, Held, Distinct, Close;
    } else {
      CloseDrops(before, r);
    }
  }

  lemma OneMoreRotated(r: Recorder, t: Recorder, kept: seq<Gen>)
    requires r.open && Held(r) <= |r.gens| && kept == Retained(r) && Lists(r, kept)
    requires t == r.(open := false, rotated := [r.current] + r.rotated)
    ensures Held(t) == Held(r) && Retained(t) == kept && Lists(t, kept)
  {
    hide Distinct;
  }

  lemma CloseDrops(before: map<Path, File>, r: Recorder)
    requires Inv(before, r) && r.open && |r.rotated| == KEEP_ROTATIONS
    ensures Inv(before, Close(r, true))
  {
    var t := Close(r, true);
    var kept := Retained(r);
    OnDiskDrop(before, r.disk, kept);
    hide OnDisk;
    assert ([r.current] + r.rotated)[KEEP_ROTATIONS..] == [kept[0].path];
    assert t.disk == r.disk - {kept[0].path};
    OldestGoes(r, t, kept);
    hide Retained, Distinct, Lists, Held, Close;
  }

  lemma OldestGoes(r: Recorder, t: Recorder, kept: seq<Gen>)
    requires r.open && |r.rotated| == KEEP_ROTATIONS && Held(r) <= |r.gens| && kept == Retained(r) && Lists(r, kept)
    requires !t.open && t.gens == r.gens && t.rotated == ([r.current] + r.rotated)[..KEEP_ROTATIONS]
    ensures Held(t) == KEEP_ROTATIONS && Retained(t) == kept[1..] && Lists(t, kept[1..])
  {
  }

  lemma WriteKeeps(before: map<Path, File>, r: Recorder, e: Entry, env: Env)
    requires Inv(before, r) && r.open && env.removes && env.writes && e.text != ""
    ensures Inv(before, Write(r, e, env))
    ensures Write(r, e, env).gens == Extended(r.gens, e)
  {
    OpenIsLast(before, r);
    var t := Write(r, e, env);
    var kept := Retained(r);
    var last := kept[|kept| - 1];
    var f := last.file.(entries := last.file.entries + [e]);
    OnDiskWrite(before, r.disk, kept, f);
    RetainedExtended(r, t, e);
    ListsWrite(r, t, kept, f);
    assert t == r.(disk := r.disk[last.path := f], gens := Extended(r.gens, e));
    hide OnDisk, Retained, Extended, Lists, Held, Write;
  }

  lemma ListsWrite(r: Recorder, t: Recorder, kept: seq<Gen>, f: File)
    requires r.open && Held(r) == |kept| && Lists(r, kept)
    requires f.openedAt == kept[|kept| - 1].file.openedAt
    requires t.rotated == r.rotated && t.open && t.current == r.current && t.windowStart == r.windowStart
    ensures Lists(t, kept[..|kept| - 1] + [kept[|kept| - 1].(file := f)])
  {
    var kept' := kept[..|kept| - 1] + [kept[|kept| - 1].(file := f)];
    assert forall i | 0 <= i < |kept| :: kept'[i].path == kept[i].path;
  }

  lemma RetainedExtended(r: Recorder, t: Recorder, e: Entry)
    requires r.open && t.open && Held(r) <= |r.gens| && t.gens == Extended(r.gens, e) && t.rotated == r.rotated
    ensures Held(t) == Held(r) >= 1 && |t.gens| == |r.gens|
    ensures var kept := Retained(r);
            var last := kept[|kept| - 1];
            Retained(t) == kept[..|kept| - 1] + [last.(file := last.file.(entries := last.file.entries + [e]))]
  {
    var n, h := |r.gens|, Held(r);
    assert r.gens[n - h..][h - 1] == r.gens[n - 1] && r.gens[n - h..][..h - 1] == r.gens[n - h..n - 1];
    assert t.gens[n - h..][..h - 1] == r.gens[n - h..n - 1];
    assert t.gens[n - h..] == t.gens[n - h..][..h - 1] + [t.gens[n - 1]];
  }

  lemma OpenIsLast(before: map<Path, File>, r: Recorder)
    requires Inv(before, r) && r.open
    ensures r.gens != []
    ensures var last := r.gens[|r.gens| - 1];
            last.path == r.current && last.file.openedAt == r.windowStart
            && r.current in r.disk && r.disk[r.current] == last.file
  {
    var kept := Retained(r);
    assert kept[|kept| - 1] == r.gens[|r.gens| - 1];
  }

  lemma CopyKeeps(before: map<Path, File>, r: Recorder, to: Path)
    requires Inv(before, r) && to.Pinned?
    ensures Inv(before, Copy(r, to))
  {
    if r.current in r.disk {
      OnDiskPin(before, r.disk, Retained(r), to, r.disk[r.current]);
      DiskOnly(r, Copy(r, to));
      hide OnDisk, Lists, Retained, Held;
    }
  }

  lemma DiskOnly(r: Recorder, t: Recorder)
    requires t == r.(disk := t.disk) && Held(r) <= |r.gens| && Lists(r, Retained(r))
    ensures Held(t) == Held(r) && Retained(t) == Retained(r) && Lists(t, Retained(t))
  {
    hide Distinct;
  }

  lemma OpenFailsKeeps(before: map<Path, File>, r: Recorder, env: Env, running: bool)
    requires Inv(before, r) && !r.open && !env.opens
    ensures Inv(before, Open(r, env).(running := running))
  {
    hide OnDisk, Lists;
    var t := Open(r, env).(running := running);
    assert Retained(t) == Retained(r);
    assert Lists(t, Retained(r)) by { ListsIgnores(r, t, Retained(r)); }
  }

  lemma ListsIgnores(r: Recorder, t: Recorder, kept: seq<Gen>)
    requires Held(r) == Held(t) == |kept| && !r.open && !t.open && r.rotated == t.rotated && Lists(r, kept)
    ensures Lists(t, kept)
  {
  }

  lemma ReopenKeeps(before: map<Path, File>, r: Recorder, env: Env)
    requires Inv(before, r) && r.running && !r.open && Session(env.stamp) !in r.disk
    ensures Inv(before, Open(r, env))
  {
    hide OnDisk, Lists, Retained;
    if env.opens {
      OpenKeeps(before, r, env);
      assert Open(r, env).(running := true) == Open(r, env);
    } else {
      OpenFailsKeeps(before, r, env, true);
      assert Open(r, env).(running := true) == Open(r, env);
    }
  }

  lemma CloseRemovesOnly(r: Recorder)
    ensures forall p | p in Close(r, true).disk :: p in r.disk
    ensures Close(r, true).running == r.running
  {
  }

  lemma ActionKeeps(before: map<Path, File>, r: Recorder, a: Action)
    requires Inv(before, r) && Fair(r, a)
    ensures Inv(before, Apply(r, a))
  {
    hide OnDisk, Lists, Retained;
    var c := Close(r, true);
    CloseKeeps(before, r);
    CloseRemovesOnly(r);
    match a
    case Start(env, dirMade) =>
      if !r.running && dirMade {
        if env.opens { OpenKeeps(before, r, env); } else { OpenFailsKeeps(before, r, env, false); }
      }
    case Append(text, now, env) =>
      if r.running && r.open {
        if !Expired(r, now) {
          AppendKeeps(before, r, Entry(text, now), env);
        } else {
          ReopenKeeps(before, c, env);
          if env.opens { AppendKeeps(before, Open(c, env), Entry(text, now), env); }
        }
      }
    case RotateNow(env) => if r.open { ReopenKeeps(before, c, env); }
    case PinCurrent(name, env) =>
      if r.open {
        var to := Pinned(Clean(name), env.pinStamp);
        CopyKeeps(before, c, to);
        ReopenKeeps(before, if env.copies then Copy(c, to) else c, env);
      }
    case Stop(env) =>
      if r.running {
        StopKeeps(before, r);
      }
  }

  lemma AppendKeeps(before: map<Path, File>, r: Recorder, e: Entry, env: Env)
    requires Inv(before, r) && r.open && env.removes
    ensures Inv(before, Write(r, e, env))
  {
    if !env.writes || e.text == "" { CloseKeeps(before, r); } else { WriteKeeps(before, r, e, env); }
  }

  lemma StopKeeps(before: map<Path, File>, r: Recorder)
    requires Inv(before, r)
    ensures Inv(before, Close(r.(running := false), true))
  {
    CloseKeeps(before, r);
    var c, c' := Close(r, true), Close(r.(running := false), true);
    assert c' == c.(running := false);
    hide OnDisk, Lists;
    assert Retained(c') == Retained(c);
    ListsIgnores(c, c', Retained(c));
  }

  // ----- runs -----

  ghost predicate Run(r: Recorder, acts: seq<Action>, t: Recorder)
    decreases |acts|
  {
    if acts == [] then r == t
    else Fair(r, acts[0]) && Run(Apply(r, acts[0]), acts[1..], t)
  }

  /** The recorder as its constructor leaves it. */
  function Fresh(window: int, before: map<Path, File>): Recorder {
    Recorder(window, false, false, Session(""), 0, [], before, [])
  }

  function LogOf(gens: seq<Gen>): seq<Entry> {
    if gens == [] then [] else LogOf(gens[..|gens| - 1]) + gens[|gens| - 1].file.entries
  }

  /** The records a call writes: what Append was given, if the recorder is on, any rotation succeeds and the write does. */
  function WrittenBy(r: Recorder, a: Action): seq<Entry> {
    match a
    case Append(text, now, env) =>
      if r.running && r.open && (Expired(r, now) ==> env.opens) && env.writes && text != "" then [Entry(text, now)] else []
    case _ => []
  }

  function WrittenIn(r: Recorder, acts: seq<Action>): seq<Entry>
    decreases |acts|
  {
    if acts == [] then [] else WrittenBy(r, acts[0]) + WrittenIn(Apply(r, acts[0]), acts[1..])
  }

  /** The records read back from disk: the rotated files, oldest first, then the open one. */
  function ReadBack(r: Recorder): seq<Entry> {
    ReadFiles(r.disk, r.rotated) + (if r.open && r.current in r.disk then r.disk[r.current].entries else [])
  }

  function ReadFiles(disk: map<Path, File>, newestFirst: seq<Path>): seq<Entry> {
    if newestFirst == [] then []
    else ReadFiles(disk, newestFirst[1..]) + (if newestFirst[0] in disk then disk[newestFirst[0]].entries else [])
  }

  lemma LogSnoc(gens: seq<Gen>, g: Gen)
    ensures LogOf(gens + [g]) == LogOf(gens) + g.file.entries
  {
    assert (gens + [g])[..|gens|] == gens;
  }

  lemma {:induction false} LogOfConcat(a: seq<Gen>, b: seq<Gen>)
    ensures LogOf(a + b) == LogOf(a) + LogOf(b)
  {
    if b == [] {
      assert a + b == a;
    } else {
      var front, g := b[..|b| - 1], b[|b| - 1];
      LogOfConcat(a, front);
      LogSnoc(front, g);
      LogSnoc(a + front, g);
      hide LogOf;
      assert b == front + [g] && a + b == (a + front) + [g];
      assert (LogOf(a) + LogOf(front)) + g.file.entries == LogOf(a) + (LogOf(front) + g.file.entries);
    }
  }

  lemma {:induction false} ReadFilesIsLog(disk: map<Path, File>, rotated: seq<Path>, kept: seq<Gen>)
    requires |rotated| == |kept|
    requires forall i | 0 <= i < |kept| :: rotated[i] == kept[|kept| - 1 - i].path
    requires forall i | 0 <= i < |kept| :: kept[i].path in disk && disk[kept[i].path] == kept[i].file
    ensures ReadFiles(disk, rotated) == LogOf(kept)
  {
    if rotated != [] { ReadFilesIsLog(disk, rotated[1..], kept[..|kept| - 1]); }
  }

  /** What is on disk is exactly a suffix of everything written; what is missing are whole files, the oldest ones. */
  lemma DiskIsSuffixOfLog(before: map<Path, File>, r: Recorder)
    requires Inv(before, r)
    ensures LogOf(r.gens) == LogOf(r.gens[..|r.gens| - Held(r)]) + ReadBack(r)
  {
    var kept := Retained(r);
    assert r.gens == r.gens[..|r.gens| - Held(r)] + kept;
    LogOfConcat(r.gens[..|r.gens| - Held(r)], kept);
    ReadBackIsKept(before, r, kept);
  }

  lemma ReadBackIsKept(before: map<Path, File>, r: Recorder, kept: seq<Gen>)
    requires Held(r) == |kept| && Lists(r, kept) && OnDisk(before, r.disk, kept)
    ensures ReadBack(r) == LogOf(kept)
  {
    hide Distinct, ReadFiles, Paths;
    if r.open {
      var n := |r.rotated|;
      ReadFilesIsLog(r.disk, r.rotated, kept[..n]);
      assert LogOf(kept) == LogOf(kept[..n]) + kept[n].file.entries;
    } else {
      ReadFilesIsLog(r.disk, r.rotated, kept);
      assert ReadFiles(r.disk, r.rotated) + [] == ReadFiles(r.disk, r.rotated);
    }
  }

  lemma ExtendedLog(gens: seq<Gen>, e: Entry)
    requires gens != []
    ensures LogOf(Extended(gens, e)) == LogOf(gens) + [e]
  {
    var n := |gens| - 1;
    assert Extended(gens, e)[..n] == gens[..n];
    assert LogOf(gens[..n]) + (gens[n].file.entries + [e]) == LogOf(gens) + [e];
  }

  lemma OpenLog(r: Recorder, env: Env)
    ensures LogOf(Open(r, env).gens) == LogOf(r.gens)
  {
    if env.opens { assert Open(r, env).gens[..|r.gens|] == r.gens; }
  }

  lemma ActionLogs(before: map<Path, File>, r: Recorder, a: Action)
    requires Inv(before, r) && Fair(r, a)
    ensures LogOf(Apply(r, a).gens) == LogOf(r.gens) + WrittenBy(r, a)
  {
    hide LogOf, OnDisk, Lists, Retained, Distinct;
    var c := Close(r, true);
    CloseKeeps(before, r);
    assert LogOf(r.gens) + [] == LogOf(r.gens);
    match a
    case Append(_, _, env) => AppendLogs(before, r, a);
    case RotateNow(env) => OpenLog(c, env);
    case PinCurrent(name, env) =>
      OpenLog(c, env);
      OpenLog(Copy(c, Pinned(Clean(name), env.pinStamp)), env);
    case Start(env, _) => OpenLog(r, env);
    case Stop(_) =>
  }

  lemma AppendLogs(before: map<Path, File>, r: Recorder, a: Action)
    requires Inv(before, r) && Fair(r, a) && a.Append?
    ensures LogOf(Apply(r, a).gens) == LogOf(r.gens) + WrittenBy(r, a)
  {
    hide Inv, Close, Write, LogOf;
    var c, e, env := Close(r, true), Entry(a.text, a.now), a.env;
    CloseKeeps(before, r);
    CloseRemovesOnly(r);
    OpenLog(c, env);
    assert LogOf(r.gens) + [] == LogOf(r.gens);
    if r.running && r.open && (Expired(r, a.now) ==> env.opens) {
      if Expired(r, a.now) {
        OpenKeeps(before, c, env);
        assert Open(c, env).(running := true) == Open(c, env);
        WriteLogs(before, Open(c, env), e, env);
      } else {
        WriteLogs(before, r, e, env);
      }
    }
  }

  lemma WriteLogs(before: map<Path, File>, r: Recorder, e: Entry, env: Env)
    requires Inv(before, r) && r.open && env.removes
    ensures LogOf(Write(r, e, env).gens) == LogOf(r.gens) + (if env.writes && e.text != "" then [e] else [])
  {
    if env.writes && e.text != "" {
      WriteKeeps(before, r, e, env);
      ExtendedLog(r.gens, e);
    } else {
      CloseKeeps(before, r);
      assert LogOf(r.gens) + [] == LogOf(r.gens);
    }
  }

  lemma {:induction false} RunKeeps(before: map<Path, File>, r: Recorder, acts: seq<Action>, t: Recorder)
    requires Inv(before, r) && Run(r, acts, t)
    ensures Inv(before, t)
    ensures LogOf(t.gens) == LogOf(r.gens) + WrittenIn(r, acts)
    decreases |acts|
  {
    hide LogOf, WrittenBy, Inv, Fair, Apply;
    if acts != [] {
      ActionKeeps(before, r, acts[0]);
      ActionLogs(before, r, acts[0]);
      RunKeeps(before, Apply(r, acts[0]), acts[1..], t);
    } else {
      assert LogOf(r.gens) + [] == LogOf(r.gens);
    }
  }

  /** After any run of Start, Append, RotateNow, PinCurrent and Stop: at most three closed files are kept; what is read back,
      oldest file first and the open one last, is a suffix of everything ever written, short of whole oldest files; and
      session files found at the start are untouched. */
  lemma DiskHoldsTheNewest(window: int, before: map<Path, File>, acts: seq<Action>, t: Recorder)
    requires window > 0 && Run(Fresh(window, before), acts, t)
    ensures |t.rotated| <= KEEP_ROTATIONS && Held(t) <= |t.gens|
    ensures WrittenIn(Fresh(window, before), acts) == LogOf(t.gens[..|t.gens| - Held(t)]) + ReadBack(t)
    ensures |t.rotated| < KEEP_ROTATIONS ==> WrittenIn(Fresh(window, before), acts) == ReadBack(t)
    ensures forall p | p in before && p.Session? :: p in t.disk && t.disk[p] == before[p]
  {
    hide *;
    var r := Fresh(window, before);
    FreshInv(window, before);
    RunKeeps(before, r, acts, t);
    DiskIsSuffixOfLog(before, t);
    KeptCounts(before, t);
    assert [] + WrittenIn(r, acts) == WrittenIn(r, acts);
    if |t.rotated| < KEEP_ROTATIONS { assert t.gens[..0] == r.gens && [] + ReadBack(t) == ReadBack(t); }
  }

  lemma NothingPruned(window: int, before: map<Path, File>, acts: seq<Action>, t: Recorder)
    requires window > 0 && Run(Fresh(window, before), acts, t) && |t.rotated| < KEEP_ROTATIONS
    ensures Held(t) == |t.gens| && LogOf(t.gens[..|t.gens| - Held(t)]) == []
  {
    hide Inv, Run;
    FreshInv(window, before);
    RunKeeps(before, Fresh(window, before), acts, t);
    KeptCounts(before, t);
  }

  lemma FreshInv(window: int, before: map<Path, File>)
    requires window > 0
    ensures Inv(before, Fresh(window, before)) && InWindow(Fresh(window, before))
    ensures Fresh(window, before).gens == [] && LogOf(Fresh(window, before).gens) == []
  {
    assert Retained(Fresh(window, before)) == [];
  }

  lemma KeptCounts(before: map<Path, File>, r: Recorder)
    requires Inv(before, r)
    ensures |r.rotated| <= KEEP_ROTATIONS && Held(r) <= |r.gens|
    ensures |r.rotated| < KEEP_ROTATIONS ==> Held(r) == |r.gens|
    ensures forall p | p in before && p.Session? :: p in r.disk && r.disk[p] == before[p]
  {
  }

  /** A session file on disk that was not there at the start is one of those written. */
  lemma FileOf(before: map<Path, File>, r: Recorder, p: Path) returns (i: nat)
    requires Inv(before, r) && p in r.disk && p.Session? && p !in before
    ensures i < |r.gens| && r.gens[i] == Gen(p, r.disk[p])
  {
    var kept := Retained(r);
    var j := KeptFile(before, r.disk, kept, p);
    i := |r.gens| - Held(r) + j;
    assert r.gens[i] == kept[j];
    hide Inv;
  }

  lemma KeptFile(before: map<Path, File>, disk: map<Path, File>, kept: seq<Gen>, p: Path) returns (j: nat)
    requires OnDisk(before, disk, kept) && p in disk && p.Session? && p !in before
    ensures j < |kept| && kept[j] == Gen(p, disk[p])
  {
    assert p in Paths(kept);
    j :| 0 <= j < |kept| && Paths(kept)[j] == p;
  }

  // ----- the time window -----

  lemma WindowAppend(r: Recorder, e: Entry)
    requires InWindow(r) && r.gens != [] && e.at - r.gens[|r.gens| - 1].file.openedAt < r.window
    ensures InWindow(r.(gens := Extended(r.gens, e)))
  {
    var t, last := Extended(r.gens, e), r.gens[|r.gens| - 1];
    forall g | g in t ensures forall f | f in g.file.entries :: f.at - g.file.openedAt < r.window {
      if g !in r.gens { assert g.file.entries == last.file.entries + [e]; }
    }
  }

  lemma WindowOpen(r: Recorder, env: Env)
    requires InWindow(r)
    ensures InWindow(Open(r, env))
  {
    assert forall g | g in Open(r, env).gens :: g in r.gens || g.file.entries == [];
  }

  lemma WindowWrite(before: map<Path, File>, r: Recorder, e: Entry, env: Env)
    requires Inv(before, r) && InWindow(r) && r.open && env.removes && e.at - r.windowStart < r.window
    ensures InWindow(Write(r, e, env))
  {
    if !env.writes || e.text == "" {
      CloseKeeps(before, r);
      SameGens(r, Write(r, e, env));
    } else {
      WriteKeeps(before, r, e, env);
      OpenIsLast(before, r);
      hide Inv;
      WindowAppend(r, e);
      SameGens(r.(gens := Extended(r.gens, e)), Write(r, e, env));
    }
  }

  lemma ActionKeepsWindow(before: map<Path, File>, r: Recorder, a: Action)
    requires Inv(before, r) && InWindow(r) && Fair(r, a)
    ensures InWindow(Apply(r, a))
  {
    hide Inv, InWindow, Close, Fair;
    assert a.env.removes by { FairRemoves(r, a); }
    var c := Close(r, true);
    CloseSameGens(r);
    SameGens(r, c);
    match a
    case Append(_, _, _) => AppendKeepsWindow(before, r, a);
    case RotateNow(env) => WindowOpen(c, env);
    case PinCurrent(name, env) =>
      var copied := Copy(c, Pinned(Clean(name), env.pinStamp));
      SameGens(c, copied);
      WindowOpen(c, env);
      WindowOpen(copied, env);
    case Start(env, _) =>
      WindowOpen(r, env);
      SameGens(Open(r, env), Open(r, env).(running := env.opens));
    case Stop(env) => StopKeepsWindow(r);
  }

  lemma FairRemoves(r: Recorder, a: Action)
    requires Fair(r, a)
    ensures a.env.removes
  {
  }

  lemma CloseSameGens(r: Recorder)
    ensures Close(r, true).gens == r.gens && Close(r, true).window == r.window
  {
  }

  lemma StopKeepsWindow(r: Recorder)
    requires InWindow(r)
    ensures InWindow(Close(r.(running := false), true))
  {
    hide InWindow;
    SameGens(r, Close(r.(running := false), true));
  }

  lemma SameGens(r: Recorder, t: Recorder)
    requires InWindow(r) && t.gens == r.gens && t.window == r.window
    ensures InWindow(t)
  {
  }

  lemma AppendKeepsWindow(before: map<Path, File>, r: Recorder, a: Action)
    requires Inv(before, r) && InWindow(r) && Fair(r, a) && a.Append?
    ensures InWindow(Apply(r, a))
  {
    assert r.window > 0;
    hide Inv, InWindow, Close, Write;
    var c, e, env := Close(r, true), Entry(a.text, a.now), a.env;
    CloseKeeps(before, r);
    CloseRemovesOnly(r);
    CloseSameGens(r);
    SameGens(r, c);
    if r.running && r.open {
      if !Expired(r, a.now) {
        WindowWrite(before, r, e, env);
      } else {
        WindowOpen(c, env);
        if env.opens {
          OpenKeeps(before, c, env);
          assert Open(c, env).(running := true) == Open(c, env);
          WindowWrite(before, Open(c, env), e, env);
        }
      }
    }
  }

  lemma {:induction false} RunKeepsWindow(before: map<Path, File>, r: Recorder, acts: seq<Action>, t: Recorder)
    requires Inv(before, r) && InWindow(r) && Run(r, acts, t)
    ensures InWindow(t)
    decreases |acts|
  {
    hide Inv, InWindow, Fair, Apply;
    if acts != [] {
      ActionKeeps(before, r, acts[0]);
      ActionKeepsWindow(before, r, acts[0]);
      RunKeepsWindow(before, Apply(r, acts[0]), acts[1..], t);
    }
  }

  /** In any run each record sits in a file that was opened less than one window before it was appended. */
  lemma FilesSpanOneWindow(window: int, before: map<Path, File>, acts: seq<Action>, t: Recorder)
    requires window > 0 && Run(Fresh(window, before), acts, t)
    ensures InWindow(t)
  {
    var r := Fresh(window, before);
    FreshInv(window, before);
    RunKeepsWindow(before, r, acts, t);
  }

  /** What a list of Append calls was given. */
  function Handed(acts: seq<Action>): seq<Entry> {
    if acts == [] then [] else (if acts[0].Append? then [Entry(acts[0].text, acts[0].now)] else []) + Handed(acts[1..])
  }

  /** The open file is kept open until its window is over: Appends before that go into it one after the other, and change nothing
      else. */
  lemma {:induction false} StaysOpenForItsWindow(before: map<Path, File>, r: Recorder, acts: seq<Action>, t: Recorder)
    requires Inv(before, r) && r.open && Run(r, acts, t) && r.current in r.disk
    requires forall a | a in acts ::
               a.Append? && a.text != "" && a.env.writes && a.now < r.disk[r.current].openedAt + r.window
    ensures t.open && t.current == r.current && t.rotated == r.rotated && |t.gens| == |r.gens|
    ensures var f := r.disk[r.current];
            t.disk == r.disk[r.current := f.(entries := f.entries + Handed(acts))]
    decreases |acts|
  {
    hide Inv, Apply, Fair, Opens;
    var f := r.disk[r.current];
    if acts == [] {
      assert f.entries + [] == f.entries && r.disk[r.current := f] == r.disk;
    } else {
      var a, m := acts[0], Apply(r, acts[0]);
      assert a in acts;
      AppendInWindow(before, r, a);
      ActionKeeps(before, r, a);
      assert forall b | b in acts[1..] :: b in acts;
      StaysOpenForItsWindow(before, m, acts[1..], t);
      var e := Entry(a.text, a.now);
      assert (f.entries + [e]) + Handed(acts[1..]) == f.entries + ([e] + Handed(acts[1..]));
      assert Handed(acts) == [e] + Handed(acts[1..]);
    }
  }

  lemma AppendInWindow(before: map<Path, File>, r: Recorder, a: Action)
    requires Inv(before, r) && r.open && Fair(r, a) && r.current in r.disk
    requires a.Append? && a.text != "" && a.env.writes && a.now < r.disk[r.current].openedAt + r.window
    ensures var f, t := r.disk[r.current], Apply(r, a);
            && t.open && t.current == r.current && t.rotated == r.rotated && |t.gens| == |r.gens| && t.window == r.window
            && t.disk == r.disk[r.current := f.(entries := f.entries + [Entry(a.text, a.now)])]
  {
    OpenIsLast(before, r);
    assert r.running;
    hide Inv;
  }

  /** An Append opens another file exactly when the open one's window is over. */
  lemma AppendRotatesIff(before: map<Path, File>, r: Recorder, a: Action)
    requires Inv(before, r) && r.open && Fair(r, a) && a.Append? && a.env.opens && r.current in r.disk
    ensures |Apply(r, a).gens| == |r.gens| + 1 <==> a.now - r.disk[r.current].openedAt >= r.window
    ensures |Apply(r, a).gens| == |r.gens| <==> a.now - r.disk[r.current].openedAt < r.window
  {
    OpenIsLast(before, r);
    assert r.running;
    ActionSinceOpen(before, r, a);
    hide Inv, Apply, Fair;
  }

  // ----- off and on again -----

  /** Started when off: on exactly if the directory and the file could be made, and then with an empty file open. */
  lemma StartTurnsOn(before: map<Path, File>, r: Recorder, env: Env, dirMade: bool)
    requires Inv(before, r) && !r.running && Fair(r, Start(env, dirMade))
    ensures var t := Apply(r, Start(env, dirMade));
            && (t.running <==> dirMade && env.opens) && (t.open <==> t.running)
            && (t.running ==> t.current in t.disk && t.disk[t.current] == File(env.openTime, []))
  {
    assert !r.open;
    hide Inv;
  }

  /** Stopped: off, nothing open, nothing written lost. */
  lemma StopTurnsOff(before: map<Path, File>, r: Recorder, env: Env)
    requires Inv(before, r) && env.removes
    ensures var t := Apply(r, Stop(env)); !t.running && !t.open && t.gens == r.gens
  {
    hide OnDisk, Lists;
  }

  /** A write that fails closes the file. */
  lemma FailedWriteCloses(r: Recorder, a: Action)
    requires r.running && r.open && a.Append? && (!a.env.writes || a.text == "")
    ensures !Apply(r, a).open && Apply(r, a).running
  {
  }

  /** After a failed write or a failed open the recorder stays silent: no call but Stop does anything at all, until Start after it. */
  lemma {:induction false} SilentUntilStopped(r: Recorder, acts: seq<Action>, t: Recorder)
    requires r.running && !r.open && Run(r, acts, t) && forall a | a in acts :: !a.Stop?
    ensures t == r
    decreases |acts|
  {
    if acts != [] {
      assert acts[0] in acts && forall a | a in acts[1..] :: a in acts;
      assert Apply(r, acts[0]) == r;
      SilentUntilStopped(r, acts[1..], t);
    }
  }

  // ----- pins -----

  /** What is in the file opened last. */
  function Newest(r: Recorder): seq<Entry> {
    if r.gens == [] then [] else r.gens[|r.gens| - 1].file.entries
  }

  /** The records a run writes after its last successful open, `sofar` being in the open file when it starts. An Append that rotates
      writes its record into the new file. */
  function SinceOpen(r: Recorder, acts: seq<Action>, sofar: seq<Entry>): seq<Entry>
    decreases |acts|
  {
    if acts == [] then sofar
    else
      var a := acts[0];
      SinceOpen(Apply(r, a), acts[1..], (if Opens(r, a) && a.env.opens then [] else sofar) + WrittenBy(r, a))
  }

  lemma ActionSinceOpen(before: map<Path, File>, r: Recorder, a: Action)
    requires Inv(before, r) && Fair(r, a)
    ensures Newest(Apply(r, a)) == (if Opens(r, a) && a.env.opens then [] else Newest(r)) + WrittenBy(r, a)
    ensures |Apply(r, a).gens| == |r.gens| + if Opens(r, a) && a.env.opens then 1 else 0
  {
    hide Inv, Close, Write;
    assert a.env.removes;
    var c := Close(r, true);
    CloseSameGens(r);
    match a
    case Append(_, _, env) => AppendSinceOpen(before, r, a);
    case RotateNow(env) => OpenSinceOpen(c, env);
    case PinCurrent(name, env) =>
      OpenSinceOpen(c, env);
      OpenSinceOpen(Copy(c, Pinned(Clean(name), env.pinStamp)), env);
    case Start(env, _) => OpenSinceOpen(r, env);
    case Stop(_) => CloseSameGens(r.(running := false));
    assert Newest(r) + [] == Newest(r);
  }

  lemma OpenSinceOpen(r: Recorder, env: Env)
    ensures Newest(Open(r, env)) == (if env.opens then [] else Newest(r))
    ensures |Open(r, env).gens| == |r.gens| + if env.opens then 1 else 0
  {
  }

  lemma AppendSinceOpen(before: map<Path, File>, r: Recorder, a: Action)
    requires Inv(before, r) && Fair(r, a) && a.Append?
    ensures Newest(Apply(r, a)) == (if Opens(r, a) && a.env.opens then [] else Newest(r)) + WrittenBy(r, a)
    ensures |Apply(r, a).gens| == |r.gens| + if Opens(r, a) && a.env.opens then 1 else 0
  {
    hide Inv, Close, Write;
    var c, e, env := Close(r, true), Entry(a.text, a.now), a.env;
    CloseKeeps(before, r);
    CloseRemovesOnly(r);
    OpenSinceOpen(c, env);
    assert Newest(r) + [] == Newest(r);
    if r.running && r.open {
      if !Expired(r, a.now) {
        WriteSinceOpen(before, r, e, env);
      } else if env.opens {
        OpenKeeps(before, c, env);
        assert Open(c, env).(running := true) == Open(c, env);
        WriteSinceOpen(before, Open(c, env), e, env);
      }
    }
  }

  lemma WriteSinceOpen(before: map<Path, File>, r: Recorder, e: Entry, env: Env)
    requires Inv(before, r) && r.open && env.removes
    ensures Newest(Write(r, e, env)) == Newest(r) + if env.writes && e.text != "" then [e] else []
    ensures |Write(r, e, env).gens| == |r.gens|
  {
    OpenIsLast(before, r);
    NewestExtended(r, Write(r, e, env), e);
    hide Inv, Extended, Newest;
    if env.writes && e.text != "" {
      WriteKeeps(before, r, e, env);
      hide Write;
    } else {
      CloseSameGens(r);
      SameNewest(r, Write(r, e, env));
    }
  }

  lemma NewestExtended(r: Recorder, t: Recorder, e: Entry)
    requires r.gens != []
    ensures |Extended(r.gens, e)| == |r.gens|
    ensures t.gens == Extended(r.gens, e) ==> Newest(t) == Newest(r) + [e]
  {
  }

  lemma SameNewest(r: Recorder, t: Recorder)
    requires t.gens == r.gens
    ensures Newest(t) == Newest(r) + []
  {
  }

  lemma {:induction false} NewestIsSinceOpen(before: map<Path, File>, r: Recorder, acts: seq<Action>, t: Recorder)
    requires Inv(before, r) && Run(r, acts, t)
    ensures Inv(before, t) && Newest(t) == SinceOpen(r, acts, Newest(r))
    decreases |acts|
  {
    hide Inv, Fair, Apply, Newest, Opens, WrittenBy;
    if acts != [] {
      ActionKeeps(before, r, acts[0]);
      ActionSinceOpen(before, r, acts[0]);
      NewestIsSinceOpen(before, Apply(r, acts[0]), acts[1..], t);
    }
  }

  /** In a run in which no file is opened, the newest file grows by exactly what is written. */
  lemma {:induction false} NewestGrows(before: map<Path, File>, r: Recorder, acts: seq<Action>, t: Recorder)
    requires Inv(before, r) && Run(r, acts, t)
    ensures |t.gens| >= |r.gens|
    ensures |t.gens| == |r.gens| ==> Newest(t) == Newest(r) + WrittenIn(r, acts)
    decreases |acts|
  {
    hide Inv, Fair, Apply, Newest, Opens, WrittenBy;
    if acts == [] {
      assert Newest(r) + [] == Newest(r);
    } else {
      ActionKeeps(before, r, acts[0]);
      ActionSinceOpen(before, r, acts[0]);
      NewestGrows(before, Apply(r, acts[0]), acts[1..], t);
      assert (Newest(r) + WrittenBy(r, acts[0])) + WrittenIn(Apply(r, acts[0]), acts[1..])
          == Newest(r) + (WrittenBy(r, acts[0]) + WrittenIn(Apply(r, acts[0]), acts[1..]));
    }
  }

  lemma PinCopiesNewest(before: map<Path, File>, r: Recorder, name: string, env: Env)
    requires Inv(before, r) && r.open && env.copies && Fair(r, PinCurrent(name, env))
    ensures var p, t := Pinned(Clean(name), env.pinStamp), Apply(r, PinCurrent(name, env));
            r.current in r.disk && p in t.disk && t.disk[p] == r.disk[r.current] && t.disk[p].entries == Newest(r)
  {
    OpenIsLast(before, r);
    CloseKeepsCurrent(before, r);
    hide Inv;
  }

  /** Whenever a pin is taken and succeeds, whatever went before: it holds exactly the records written since the file was opened. */
  lemma PinHoldsCurrentFile(window: int, before: map<Path, File>, acts: seq<Action>, t: Recorder, name: string, env: Env)
    requires window > 0 && Run(Fresh(window, before), acts, t)
    requires t.open && env.copies && Fair(t, PinCurrent(name, env))
    ensures var p, u := Pinned(Clean(name), env.pinStamp), Apply(t, PinCurrent(name, env));
            p in u.disk && u.disk[p].entries == SinceOpen(Fresh(window, before), acts, [])
  {
    FreshInv(window, before);
    assert Newest(Fresh(window, before)) == [];
    NewestIsSinceOpen(before, Fresh(window, before), acts, t);
    PinCopiesNewest(before, t, name, env);
    hide *;
  }

  /** From any moment o at which a file is open: a pin taken before another file is opened holds what was in that file and everything
      written since. */
  lemma PinHoldsWrittenSince(before: map<Path, File>, o: Recorder, acts: seq<Action>, t: Recorder, name: string, env: Env)
    requires Inv(before, o) && o.open && Run(o, acts, t) && t.open && |t.gens| == |o.gens|
    requires env.copies && Fair(t, PinCurrent(name, env))
    ensures o.current in o.disk
    ensures var p, u := Pinned(Clean(name), env.pinStamp), Apply(t, PinCurrent(name, env));
            p in u.disk && u.disk[p].entries == o.disk[o.current].entries + WrittenIn(o, acts)
  {
    NewestGrows(before, o, acts, t);
    NewestIsSinceOpen(before, o, acts, t);
    OpenIsLast(before, o);
    PinCopiesNewest(before, t, name, env);
    assert Newest(o) == o.disk[o.current].entries;
    hide *;
  }

  lemma CloseKeepsCurrent(before: map<Path, File>, r: Recorder)
    requires Inv(before, r) && r.open
    ensures r.current in r.disk && r.current in Close(r, true).disk
    ensures Close(r, true).disk[r.current] == r.disk[r.current] && Close(r, true).current == r.current
  {
    var kept := Retained(r);
    assert r.current == kept[|kept| - 1].path;
    if |r.rotated| == KEEP_ROTATIONS {
      assert ([r.current] + r.rotated)[KEEP_ROTATIONS..] == [kept[0].path];
    }
  }

  // ----- a pin is a rotation -----

  /** The schedule with every pin replaced by a plain rotation. */
  function Unpinned(acts: seq<Action>): seq<Action> {
    if acts == [] then [] else [Rotating(acts[0])] + Unpinned(acts[1..])
  }

  function Rotating(a: Action): Action {
    if a.PinCurrent? then RotateNow(a.env) else a
  }

  /** The same session files, whatever pins there are. */
  ghost predicate SameSessions(d: map<Path, File>, e: map<Path, File>) {
    forall p: Path | p.Session? :: (p in d <==> p in e) && (p in d && p in e ==> d[p] == e[p])
  }

  /** Two recorders that differ in pinned files only. */
  ghost predicate Alike(r: Recorder, s: Recorder) {
    && r.(disk := s.disk) == s && SameSessions(r.disk, s.disk)
    && r.current.Session? && forall i | 0 <= i < |r.rotated| :: r.rotated[i].Session?
  }

  lemma CloseAlike(r: Recorder, s: Recorder, removes: bool)
    requires Alike(r, s)
    ensures Alike(Close(r, removes), Close(s, removes))
  {
  }

  lemma OpenAlike(r: Recorder, s: Recorder, env: Env)
    requires Alike(r, s)
    ensures Alike(Open(r, env), Open(s, env))
  {
  }

  lemma WriteAlike(r: Recorder, s: Recorder, e: Entry, env: Env)
    requires Alike(r, s)
    ensures Alike(Write(r, e, env), Write(s, e, env))
  {
    hide Close, Extended;
    CloseAlike(r, s, env.removes);
  }

  lemma CopyAlike(r: Recorder, s: Recorder, to: Path)
    requires Alike(r, s) && to.Pinned?
    ensures Alike(Copy(r, to), s)
  {
  }

  /** A pin, its copy failing or not, leaves the recorder as a rotation does. */
  lemma StepAlike(r: Recorder, s: Recorder, a: Action)
    requires Alike(r, s) && Fair(r, a)
    ensures Fair(s, Rotating(a)) && Alike(Apply(r, a), Apply(s, Rotating(a)))
    ensures WrittenBy(s, Rotating(a)) == WrittenBy(r, a)
  {
    hide Close, Open, Write, Copy;
    assert a.env == Rotating(a).env && r.open == s.open && r.running == s.running && r.windowStart == s.windowStart;
    assert Opens(r, a) == Opens(s, Rotating(a)) && (Session(a.env.stamp) in r.disk <==> Session(a.env.stamp) in s.disk);
    hide Alike, SameSessions;
    var c, d := Close(r, a.env.removes), Close(s, a.env.removes);
    CloseAlike(r, s, a.env.removes);
    match a
    case Append(text, now, env) =>
      OpenAlike(c, d, env);
      WriteAlike(r, s, Entry(text, now), env);
      WriteAlike(Open(c, env), Open(d, env), Entry(text, now), env);
    case RotateNow(env) => OpenAlike(c, d, env);
    case PinCurrent(name, env) =>
      CopyAlike(c, d, Pinned(Clean(name), env.pinStamp));
      OpenAlike(c, d, env);
      OpenAlike(Copy(c, Pinned(Clean(name), env.pinStamp)), d, env);
    case Start(env, _) =>
      OpenAlike(r, s, env);
      RunningAlike(Open(r, env), Open(s, env), env.opens);
    case Stop(env) =>
      RunningAlike(r, s, false);
      CloseAlike(r.(running := false), s.(running := false), env.removes);
  }

  lemma RunningAlike(r: Recorder, s: Recorder, running: bool)
    requires Alike(r, s)
    ensures Alike(r.(running := running), s.(running := running))
  {
  }

  lemma {:induction false} ReadFilesAlike(d: map<Path, File>, e: map<Path, File>, paths: seq<Path>)
    requires SameSessions(d, e) && forall i | 0 <= i < |paths| :: paths[i].Session?
    ensures ReadFiles(d, paths) == ReadFiles(e, paths)
  {
    if paths != [] {
      ReadFilesAlike(d, e, paths[1..]);
      assert paths[0].Session?;
    }
  }

  /** For the session's log a pin is a plain rotation: replace every pin of a run, whether its copy succeeded or failed, by a rotation.
      The run stays a fair one, writes the same records, and ends with the same rotated files and the same records on disk. */
  lemma {:induction false} PinRotates(r: Recorder, s: Recorder, acts: seq<Action>, t: Recorder) returns (u: Recorder)
    requires Alike(r, s) && Run(r, acts, t)
    ensures Run(s, Unpinned(acts), u) && Alike(t, u)
    ensures WrittenIn(s, Unpinned(acts)) == WrittenIn(r, acts)
    ensures u.rotated == t.rotated && ReadBack(u) == ReadBack(t)
    decreases |acts|
  {
    hide Fair, Apply, WrittenBy, Rotating;
    if acts == [] {
      u := s;
      ReadFilesAlike(t.disk, u.disk, t.rotated);
    } else {
      StepAlike(r, s, acts[0]);
      assert Unpinned(acts)[1..] == Unpinned(acts[1..]);
      hide Alike, ReadBack;
      u := PinRotates(Apply(r, acts[0]), Apply(s, Rotating(acts[0])), acts[1..], t);
    }
  }

  // ----- pins stay -----

  /** The pin path a call may write. */
  predicate Pins(a: Action, p: Path) {
    a.PinCurrent? && p == Pinned(Clean(a.name), a.env.pinStamp)
  }

  lemma ActionSparesPin(before: map<Path, File>, r: Recorder, a: Action, p: Path)
    requires Inv(before, r) && Fair(r, a) && p.Pinned? && p in r.disk && !Pins(a, p)
    ensures p in Apply(r, a).disk && Apply(r, a).disk[p] == r.disk[p]
  {
    hide Inv, Close, Fair;
    assert a.env.removes by { FairRemoves(r, a); }
    ClosesSparePins(before, r, p);
    if a.Append? {
      if r.running && r.open { AppendSparesPin(before, r, a, p); }
    } else {
      var c := Close(r, true);
      match a
      case Stop(_) => StopSparesPin(before, r, p);
      case PinCurrent(name, env) => CopySparesPin(c, Pinned(Clean(name), env.pinStamp), p);
      case _ =>
    }
  }

  lemma StopSparesPin(before: map<Path, File>, r: Recorder, p: Path)
    requires Inv(before, r) && p.Pinned? && p in r.disk
    ensures var t := Close(r.(running := false), true); p in t.disk && t.disk[p] == r.disk[p]
  {
    ClosesSparePins(before, r, p);
    assert Close(r.(running := false), true).disk == Close(r, true).disk;
  }

  lemma CopySparesPin(r: Recorder, to: Path, p: Path)
    requires p in r.disk && p != to
    ensures p in Copy(r, to).disk && Copy(r, to).disk[p] == r.disk[p]
  {
  }

  lemma AppendSparesPin(before: map<Path, File>, r: Recorder, a: Action, p: Path)
    requires Inv(before, r) && Fair(r, a) && p.Pinned? && p in r.disk
    requires a.Append? && r.running && r.open
    ensures p in Apply(r, a).disk && Apply(r, a).disk[p] == r.disk[p]
  {
    hide Inv, Close, Write;
    var c := Close(r, true);
    ClosesSparePins(before, r, p);
    CloseKeeps(before, r);
    CloseRemovesOnly(r);
    if !Expired(r, a.now) {
      WriteSparesPin(before, r, Entry(a.text, a.now), a.env, p);
    } else if a.env.opens {
      OpenKeeps(before, c, a.env);
      assert Open(c, a.env).(running := true) == Open(c, a.env);
      WriteSparesPin(before, Open(c, a.env), Entry(a.text, a.now), a.env, p);
    }
  }

  lemma WriteSparesPin(before: map<Path, File>, r: Recorder, e: Entry, env: Env, p: Path)
    requires Inv(before, r) && r.open && env.removes && p.Pinned? && p in r.disk
    ensures p in Write(r, e, env).disk && Write(r, e, env).disk[p] == r.disk[p]
  {
    ClosesSparePins(before, r, p);
    FilesAreSessions(before, r);
  }

  lemma ClosesSparePins(before: map<Path, File>, r: Recorder, p: Path)
    requires Inv(before, r) && p.Pinned? && p in r.disk
    ensures p in Close(r, true).disk && Close(r, true).disk[p] == r.disk[p]
  {
    if r.open {
      FilesAreSessions(before, r);
      hide Inv;
      var gone := ([r.current] + r.rotated)[if |r.rotated| < 3 then |r.rotated| + 1 else 3..];
      assert forall q | q in gone :: q.Session?;
    }
  }

  lemma FilesAreSessions(before: map<Path, File>, r: Recorder)
    requires Inv(before, r)
    ensures forall q | q in r.rotated :: q.Session?
    ensures r.open ==> r.current.Session?
  {
    var kept := Retained(r);
    forall q | q in r.rotated ensures q.Session? {
      var i :| 0 <= i < |r.rotated| && r.rotated[i] == q;
      assert q == kept[|r.rotated| - 1 - i].path;
    }
  }

  /** No later append, rotation, prune or differently named pin alters a pin. */
  lemma {:induction false} PinsArePermanent(before: map<Path, File>, r: Recorder, acts: seq<Action>, t: Recorder, p: Path)
    requires Inv(before, r) && Run(r, acts, t) && p.Pinned? && p in r.disk
    requires forall a | a in acts :: !Pins(a, p)
    ensures p in t.disk && t.disk[p] == r.disk[p]
    decreases |acts|
  {
    hide Inv, Fair, Apply, Pins;
    if acts != [] {
      ActionKeeps(before, r, acts[0]);
      ActionSparesPin(before, r, acts[0], p);
      assert forall a | a in acts[1..] :: a in acts;
      PinsArePermanent(before, Apply(r, acts[0]), acts[1..], t, p);
    }
  }

  // ----- why names must be fresh -----

  /** After a run from o: everything written so far is whole files gone, the oldest ones, then what is read back from disk. */
  ghost predicate SuffixOnDisk(o: Recorder, acts: seq<Action>, t: Recorder) {
    Held(t) <= |t.gens| && LogOf(o.gens) + WrittenIn(o, acts) == LogOf(t.gens[..|t.gens| - Held(t)]) + ReadBack(t)
  }

  /** A file opened under any name that is on no kept list is safe, even if the name is that of a file found at the start. */
  lemma OpenUnlisted(before: map<Path, File>, r: Recorder, env: Env)
    requires Inv(before, r) && !r.open && env.opens && Session(env.stamp) !in r.rotated
    ensures Inv(before - {Session(env.stamp)}, Open(r, env).(running := true))
  {
    var p := Session(env.stamp);
    var r' := r.(disk := r.disk - {p});
    InvWithout(before, r, p);
    hide Inv;
    OpenKeeps(before - {p}, r', env);
    OpenOverwrites(r, env);
    hide Open;
  }

  lemma OpenOverwrites(r: Recorder, env: Env)
    requires env.opens
    ensures Open(r.(disk := r.disk - {Session(env.stamp)}), env) == Open(r, env)
  {
    var p, f := Session(env.stamp), File(env.openTime, []);
    assert (r.disk - {p})[p := f] == r.disk[p := f];
  }

  lemma InvWithout(before: map<Path, File>, r: Recorder, p: Path)
    requires Inv(before, r) && !r.open && p !in r.rotated
    ensures Inv(before - {p}, r.(disk := r.disk - {p}))
  {
    var kept := Retained(r);
    NotListed(r, kept, p);
    OnDiskWithout(before, r.disk, kept, p);
    DiskOnly(r, r.(disk := r.disk - {p}));
    hide OnDisk, Lists, Retained, Held;
  }

  lemma NotListed(r: Recorder, kept: seq<Gen>, p: Path)
    requires Held(r) == |kept| && Lists(r, kept) && !r.open && p !in r.rotated
    ensures forall i | 0 <= i < |kept| :: kept[i].path != p
  {
    hide Distinct;
    assert forall i | 0 <= i < |kept| :: kept[i].path == r.rotated[|kept| - 1 - i];
  }

  lemma OnDiskWithout(before: map<Path, File>, disk: map<Path, File>, kept: seq<Gen>, p: Path)
    requires OnDisk(before, disk, kept) && forall i | 0 <= i < |kept| :: kept[i].path != p
    ensures OnDisk(before - {p}, disk - {p}, kept)
  {
  }

  lemma {:induction false} ReadFilesReplaced(disk: map<Path, File>, paths: seq<Path>, p: Path, f: File)
    requires p in disk && forall i, j | 0 <= i < j < |paths| :: paths[i] != paths[j]
    ensures |ReadFiles(disk[p := f], paths)|
         == |ReadFiles(disk, paths)| + if p in paths then |f.entries| - |disk[p].entries| else 0
  {
    if paths != [] {
      ReadFilesReplaced(disk, paths[1..], p, f);
      assert paths == [paths[0]] + paths[1..];
    }
  }

  lemma KeptIsRotated(before: map<Path, File>, r: Recorder)
    requires Inv(before, r) && !r.open
    ensures forall i, j | 0 <= i < j < |r.rotated| :: r.rotated[i] != r.rotated[j]
    ensures forall p | p in r.rotated :: p in r.disk
    ensures |LogOf(r.gens)| == |LogOf(r.gens[..|r.gens| - |r.rotated|])| + |ReadFiles(r.disk, r.rotated)|
  {
    hide ReadFiles, LogOf;
    DiskIsSuffixOfLog(before, r);
    ListedAndThere(before, r, Retained(r));
    hide Inv;
  }

  lemma ListedAndThere(before: map<Path, File>, r: Recorder, kept: seq<Gen>)
    requires Held(r) == |kept| && !r.open && Lists(r, kept) && OnDisk(before, r.disk, kept)
    ensures forall i, j | 0 <= i < j < |r.rotated| :: r.rotated[i] != r.rotated[j]
    ensures forall p | p in r.rotated :: p in r.disk
  {
    assert forall i | 0 <= i < |r.rotated| :: r.rotated[i] == kept[|r.rotated| - 1 - i].path;
  }

  lemma ReadBackLength(r: Recorder)
    requires r.open && r.current in r.disk
    ensures |ReadBack(r)| == |ReadFiles(r.disk, r.rotated)| + |r.disk[r.current].entries|
  {
    hide ReadFiles;
  }

  /** Opened under a listed name: the counts no longer add up if the old file had records in it. */
  lemma FullNameBreaks(before: map<Path, File>, r: Recorder, env: Env)
    requires Inv(before, r) && !r.open && env.opens && Session(env.stamp) in r.rotated
    requires Session(env.stamp) in r.disk && r.disk[Session(env.stamp)].entries != []
    ensures var o := Open(r, env).(running := true); Run(o, [], o) && !SuffixOnDisk(o, [], o)
  {
    var o := Open(r, env).(running := true);
    KeptIsRotated(before, r);
    OpenLog(r, env);
    ReadFilesReplaced(r.disk, r.rotated, Session(env.stamp), File(env.openTime, []));
    ReadBackLength(o);
    assert o.gens[..|r.gens| - |r.rotated|] == r.gens[..|r.gens| - |r.rotated|];
    hide Inv, LogOf, ReadFiles, ReadBack;
  }

  /** And they no longer do so after one record if it was empty: that record is read back twice. */
  lemma EmptyNameBreaks(before: map<Path, File>, r: Recorder, env: Env) returns (acts: seq<Action>, t: Recorder)
    requires Inv(before, r) && !r.open && env.opens && Session(env.stamp) in r.rotated
    requires Session(env.stamp) in r.disk && r.disk[Session(env.stamp)].entries == []
    ensures var o := Open(r, env).(running := true); Run(o, acts, t) && !SuffixOnDisk(o, acts, t)
  {
    var p, e := Session(env.stamp), Entry("x", env.openTime);
    var o := Open(r, env).(running := true);
    var a := Append("x", env.openTime, Env("", "", env.openTime, true, true, true, true));
    acts, t := [a], Apply(o, a);
    KeptIsRotated(before, r);
    OpenLog(r, env);
    assert r.window > 0;
    hide Inv, LogOf, ReadFiles, ReadBack;
    WriteToOpen(o, a, e);
    assert [] + [e] == [e];
    assert WrittenBy(o, a) == [e];
    hide Apply, Fair, WrittenBy;
    OneStep(o, a, t);
    assert t.gens[..|r.gens| - |r.rotated|] == r.gens[..|r.gens| - |r.rotated|];
    ReadFilesReplaced(r.disk, r.rotated, p, File(env.openTime, [e]));
    assert t.disk == r.disk[p := File(env.openTime, [e])] && t.open && t.current == p && t.rotated == r.rotated;
    assert |t.gens| == |r.gens| + 1;
    hide Extended, Open;
    ReadBackLength(t);
    assert |LogOf(o.gens) + WrittenIn(o, acts)| == |LogOf(r.gens)| + 1;
  }

  lemma OneStep(o: Recorder, a: Action, t: Recorder)
    requires Fair(o, a) && t == Apply(o, a)
    ensures Run(o, [a], t) && WrittenIn(o, [a]) == WrittenBy(o, a)
  {
    hide Fair, Apply, WrittenBy;
    assert [a][1..] == [] && Run(t, [], t);
    assert WrittenBy(o, a) + WrittenIn(t, []) == WrittenBy(o, a);
  }

  lemma WriteToOpen(o: Recorder, a: Action, e: Entry)
    requires o.running && o.open && o.window > 0 && o.current in o.disk && o.gens != []
    requires a.Append? && a.text != "" && a.now == o.windowStart && a.env.writes && a.env.removes && e == Entry(a.text, a.now)
    ensures Fair(o, a)
    ensures var f := o.disk[o.current];
            Apply(o, a) == o.(disk := o.disk[o.current := f.(entries := f.entries + [e])], gens := Extended(o.gens, e))
  {
  }

  /** A file is opened under some name. Whatever fair calls follow, the disk holds a suffix of everything written, short of whole
      oldest files, if and only if that name is not on the list of kept files; an empty kept file of that name is enough to
      break it. */
  lemma OpenKeepsRecordsIff(before: map<Path, File>, r: Recorder, env: Env)
    requires Inv(before, r) && !r.open && env.opens
    ensures var o := Open(r, env).(running := true);
            (forall acts, t | Run(o, acts, t) :: SuffixOnDisk(o, acts, t)) <==> Session(env.stamp) !in r.rotated
  {
    var o := Open(r, env).(running := true);
    if Session(env.stamp) in r.rotated {
      KeptIsRotated(before, r);
      if r.disk[Session(env.stamp)].entries != [] {
        FullNameBreaks(before, r, env);
      } else {
        var acts, t := EmptyNameBreaks(before, r, env);
      }
    } else {
      var before' := before - {Session(env.stamp)};
      OpenUnlisted(before, r, env);
      hide Inv, Run, LogOf, ReadBack;
      forall acts, t | Run(o, acts, t) ensures SuffixOnDisk(o, acts, t) {
        RunKeeps(before', o, acts, t);
        DiskIsSuffixOfLog(before', t);
        KeptCounts(before', t);
      }
    }
  }

  /** A run in which no open hits a file with something in it, and the only record is lost all the same: the name "a" is opened
      twice in a row, so it is listed twice, and pruning the older entry removes the file of the newer one. */
  lemma ReusedEmptyNameLoses(a: string, b: string, c: string, d: string)
    requires a != b && a != c && a != d && b != c && b != d && c != d
    ensures var r1 := Apply(Fresh(300, map[]), Start(At(a), true));
            var r2 := Apply(r1, RotateNow(At(a)));
            var r3 := Apply(r2, Append("x", 0, At(a)));
            var t := Apply(Apply(Apply(r3, RotateNow(At(b))), RotateNow(At(c))), RotateNow(At(d)));
            && r1.disk[Session(a)].entries == [] && WrittenBy(r2, Append("x", 0, At(a))) == [Entry("x", 0)]
            && t.rotated == [Session(c), Session(b), Session(a)] && Session(a) !in t.disk
            && ReadBack(t) == []
  {
    var A, B, C, D, f, e := Session(a), Session(b), Session(c), Session(d), File(0, []), Entry("x", 0);
    var r3 := Recorder(300, true, true, A, 0, [A], map[A := File(0, [e])], [Gen(A, f), Gen(A, File(0, [e]))]);
    OpenedTwice(a);
    RotateShort(r3, b);
    var r4 := Apply(r3, RotateNow(At(b)));
    RotateShort(r4, c);
    var r5 := Apply(r4, RotateNow(At(c)));
    hide Apply, Fresh, At, WrittenBy, ReadBack;
    RotateFull(r5, d);
    var t := Apply(r5, RotateNow(At(d)));
    assert t.disk == ((map[A := File(0, [e])][B := f][C := f]) - {A})[D := f];
    NothingLeft(t);
  }

  lemma OpenedTwice(a: string)
    ensures var r1 := Apply(Fresh(300, map[]), Start(At(a), true));
            var r2 := Apply(r1, RotateNow(At(a)));
            && r1.disk == map[Session(a) := File(0, [])] && WrittenBy(r2, Append("x", 0, At(a))) == [Entry("x", 0)]
            && Apply(r2, Append("x", 0, At(a)))
               == Recorder(300, true, true, Session(a), 0, [Session(a)], map[Session(a) := File(0, [Entry("x", 0)])],
                           [Gen(Session(a), File(0, [])), Gen(Session(a), File(0, [Entry("x", 0)]))])
  {
    var A, f, e := Session(a), File(0, []), Entry("x", 0);
    var r1 := Recorder(300, true, true, A, 0, [], map[A := f], [Gen(A, f)]);
    assert Apply(Fresh(300, map[]), Start(At(a), true)) == r1;
    RotateShort(r1, a);
    var r2 := r1.(rotated := [A], gens := [Gen(A, f), Gen(A, f)]);
    assert Apply(r1, RotateNow(At(a))) == r2 by { assert [A] + [] == [A] && r1.disk[A := f] == r1.disk; }
    assert WrittenBy(r2, Append("x", 0, At(a))) == [e];
    WriteToOpen(r2, Append("x", 0, At(a)), e);
    assert [] + [e] == [e] && [Gen(A, f), Gen(A, f)][..1] == [Gen(A, f)];
    hide Apply;
  }

  /** Everything succeeds, at clock reading 0. */
  function At(stamp: string): Env {
    Env(stamp, stamp, 0, true, true, true, true)
  }

  lemma RotateShort(r: Recorder, stamp: string)
    requires r.open && |r.rotated| < KEEP_ROTATIONS
    ensures Apply(r, RotateNow(At(stamp)))
         == r.(current := Session(stamp), windowStart := 0, rotated := [r.current] + r.rotated,
               disk := r.disk[Session(stamp) := File(0, [])], gens := r.gens + [Gen(Session(stamp), File(0, []))])
  {
  }

  lemma RotateFull(r: Recorder, stamp: string)
    requires r.open && |r.rotated| == KEEP_ROTATIONS
    ensures var t := Apply(r, RotateNow(At(stamp)));
            && t.open && t.current == Session(stamp) && t.rotated == [r.current] + r.rotated[..2]
            && t.disk == (r.disk - {r.rotated[2]})[Session(stamp) := File(0, [])]
  {
    assert ([r.current] + r.rotated)[KEEP_ROTATIONS..] == [r.rotated[2]];
  }

  lemma NothingLeft(t: Recorder)
    requires t.open && |t.rotated| == 3 && forall p | p in t.disk :: t.disk[p].entries == []
    ensures ReadBack(t) == []
  {
    assert t.rotated[1..][1..][1..] == [];
    assert ReadFiles(t.disk, t.rotated[1..][1..]) == [];
    assert ReadFiles(t.disk, t.rotated[1..]) == [];
  }

  /** Two opens within one second: the first file's record is gone from disk although it was written. */
  lemma SameSecondLoses(e: Entry, stamp: string, env: Env)
    requires env == Env(stamp, stamp, 0, true, true, true, true)
    ensures var f := File(0, [e]);
            var r := Recorder(300, true, true, Session(stamp), 0, [], map[Session(stamp) := f], [Gen(Session(stamp), f)]);
            && ReadBack(r) == [e]
            && ReadBack(Apply(r, RotateNow(env))) == [] && LogOf(Apply(r, RotateNow(env)).gens) == [e]
  {
    var f := File(0, [e]);
    var r := Recorder(300, true, true, Session(stamp), 0, [], map[Session(stamp) := f], [Gen(Session(stamp), f)]);
    var t := Apply(r, RotateNow(env));
    var g0, g1 := Gen(Session(stamp), f), Gen(Session(stamp), File(0, []));
    assert t.gens == [g0, g1] && [g0, g1][..1] == [g0] && [g0][..0] == [];
    assert LogOf([g0]) == LogOf([]) + [e] == [e];
    assert LogOf([g0, g1]) == LogOf([g0]) + [] == [e];
    assert t.rotated == [Session(stamp)] && [Session(stamp)][1..] == [];
    assert t.disk[Session(stamp)].entries == [];
    assert ReadBack(r) == ReadFiles(r.disk, []) + [e] == [e];
    assert ReadFiles(t.disk, t.rotated) == ReadFiles(t.disk, []) + [] == [];
    assert ReadBack(t) == [] + [];
  }
}
