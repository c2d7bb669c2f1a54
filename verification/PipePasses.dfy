/** Whole passes of the pipe server's two loops: what one broadcast and one turn of the writer do from beginning to end, and that
    the methods of `PipeServer` do the same. */
module PipePasses {
  import opened PipeServer
  import opened PipeProtocol
  import opened Framing

  lemma {:induction false} RunConcat(s: Server, a: seq<Action>, m: Server, b: seq<Action>, t: Server)
    requires Run(s, a, m) && Run(m, b, t)
    ensures Run(s, a + b, t)
    decreases |a|
  {
    hide Enabled, Apply;
    if a == [] {
      assert a + b == b;
    } else {
      assert (a + b)[1..] == a[1..] + b;
      RunConcat(Apply(s, a[0]), a[1..], m, b, t);
    }
  }

  lemma Then(s: Server, acts: seq<Action>, m: Server, a: Action) returns (acts': seq<Action>, t: Server)
    requires Run(s, acts, m) && Enabled(m, a)
    ensures acts' == acts + [a] && t == Apply(m, a) && Run(s, acts', t)
  {
    acts', t := acts + [a], Apply(m, a);
    assert [a][1..] == [] && Run(t, [], t) && Run(m, [a], t);
    RunConcat(s, acts, m, [a], t);
  }

  // ----- one pass of the writer -----

  /** Client c is still to come in this pass, or everything it had been given is written. */
  ghost predicate Progress(s: Server, c: nat, given: seq<string>)
    requires c < |s.sessions|
  {
    var k := s.sessions[c];
    && given <= k.enqueued
    && match s.w
       case WTop => false
       case WNext(snap) => c in snap || given <= k.written
       case WChecked(d, snap) => d == c || c in snap || given <= k.written
       case WWriting(d, local, snap) => c in snap || given <= k.written || (d == c && given <= k.written + local)
  }

  /** Inside a pass, and the write to client c does not fail, nor is it found dead. */
  predicate Spares(a: Action, c: nat) {
    !a.Snapshot? && !a.EndPass? && !(a.WriteFails? && a.c == c) && !(a.CheckToWrite? && a.c == c && !a.alive)
  }

  lemma ProgressKept(s: Server, a: Action, c: nat, given: seq<string>)
    requires c < |s.sessions| && Conserved(s, c) && Progress(s, c, given) && Enabled(s, a) && Spares(a, c)
    ensures c < |Apply(s, a).sessions| && Progress(Apply(s, a), c, given)
  {
    hide Fits, Enqueue, Bytes;
    if OfWriter(a) { WriterProgress(s, a, c, given); }
  }

  lemma WriterProgress(s: Server, a: Action, c: nat, given: seq<string>)
    requires c < |s.sessions| && Conserved(s, c) && Progress(s, c, given) && Enabled(s, a) && Spares(a, c) && OfWriter(a)
    ensures c < |Apply(s, a).sessions| && Progress(Apply(s, a), c, given)
  {
    hide Bytes;
    var k := s.sessions[c];
    match a
    case CheckToWrite(d, alive) => assert s.w.snap == [d] + s.w.snap[1..];
    case Swap(d) =>
      if d == c { assert k.enqueued == k.written + [] + [] + k.q.outbound == k.written + k.q.outbound; }
    case WriteOk(d) =>
      if d == c {
        assert s.w.local == [s.w.local[0]] + s.w.local[1..];
        assert k.written + s.w.local == (k.written + [s.w.local[0]]) + s.w.local[1..];
      }
    case Written(d) => if d == c { assert k.written + [] == k.written; }
    case _ =>
  }

  lemma {:induction false} PassProgress(s: Server, mid: seq<Action>, t: Server, c: nat, given: seq<string>)
    requires Inv(s) && c < |s.sessions| && Progress(s, c, given)
    requires Run(s, mid + [EndPass], t) && forall a | a in mid :: Spares(a, c)
    ensures c < |t.sessions| && given <= t.sessions[c].written
    decreases |mid|
  {
    hide Inv, Conserved, Accounted, Control;
    assert Conserved(s, c) by { InvConserves(s, c); }
    var acts := mid + [EndPass];
    if mid == [] {
      assert acts[0] == EndPass && acts[1..] == [] && Run(Apply(s, EndPass), [], t);
    } else {
      assert acts[0] == mid[0] && acts[1..] == mid[1..] + [EndPass];
      ProgressKept(s, mid[0], c, given);
      StepKeepsInv(s, mid[0]);
      assert forall a | a in mid[1..] :: a in mid;
      hide Enabled, Apply, Progress, Spares;
      PassProgress(Apply(s, mid[0]), mid[1..], t, c, given);
    }
  }

  lemma InvConserves(s: Server, c: nat)
    requires Inv(s) && c < |s.sessions|
    ensures Conserved(s, c)
  {
  }

  /** A complete pass, whatever the other threads do meanwhile: every listed client that it neither finds dead nor fails to write to
      has been written everything it had been given when the pass began. */
  lemma PassWritesEverything(s: Server, reaped: set<nat>, mid: seq<Action>, t: Server, c: nat)
    requires Inv(s) && s.w.WTop? && c in s.clients
    requires Run(s, [Snapshot(reaped)] + mid + [EndPass], t) && forall a | a in mid :: Spares(a, c)
    ensures c < |s.sessions| && c < |t.sessions| && s.sessions[c].enqueued <= t.sessions[c].written
  {
    var acts := [Snapshot(reaped)] + mid + [EndPass];
    assert acts[0] == Snapshot(reaped) && acts[1..] == mid + [EndPass];
    var m := Apply(s, Snapshot(reaped));
    StepKeepsInv(s, Snapshot(reaped));
    assert c < |s.sessions|;
    hide Inv;
    PassProgress(m, mid, t, c, s.sessions[c].enqueued);
  }

  /** What the writer does by itself, taking every load of `alive` as it is and every write as a success. */
  predicate Smooth(a: Action, s: Server) {
    match a
    case CheckToWrite(c, alive) => c < |s.sessions| && alive == s.sessions[c].q.alive
    case Swap(_) => true
    case WriteOk(_) => true
    case Written(_) => true
    case _ => false
  }

  /** Of the rest of the server only the queues and what is written change. */
  ghost predicate Undisturbed(s: Server, t: Server) {
    && t.b == s.b && t.clients == s.clients && |t.sessions| == |s.sessions| && t.broadcasts == s.broadcasts && t.dropped == s.dropped
    && forall c: nat | c < |s.sessions| ::
         t.sessions[c].q.alive == s.sessions[c].q.alive && t.sessions[c].enqueued == s.sessions[c].enqueued
  }

  lemma {:induction false} WriteRest(s: Server, c: nat) returns (acts: seq<Action>, t: Server)
    requires c < |s.sessions| && s.w.WWriting? && s.w.c == c
    ensures Run(s, acts, t) && t.w == WNext(s.w.snap) && Undisturbed(s, t)
    ensures forall a | a in acts :: Smooth(a, s)
    decreases |s.w.local|
  {
    if s.w.local == [] {
      acts, t := [Written(c)], Apply(s, Written(c));
      assert [Written(c)][1..] == [] && Run(t, [], t);
    } else {
      var m := Apply(s, WriteOk(c));
      assert Undisturbed(s, m);
      var more;
      more, t := WriteRest(m, c);
      hide Apply, Enabled;
      assert Enabled(s, WriteOk(c)) by { EnabledOk(s, c); }
      acts := [WriteOk(c)] + more;
      assert acts[1..] == more;
      assert forall a | a in more :: Smooth(a, s);
    }
  }

  lemma EnabledOk(s: Server, c: nat)
    requires c < |s.sessions| && s.w.WWriting? && s.w.c == c && s.w.local != []
    ensures Enabled(s, WriteOk(c))
  {
  }

  lemma OneClient(s: Server) returns (acts: seq<Action>, t: Server)
    requires Inv(s) && s.w.WNext? && s.w.snap != [] && s.w.snap[0] < |s.sessions|
    ensures Run(s, acts, t) && t.w == WNext(s.w.snap[1..]) && Undisturbed(s, t)
    ensures forall a | a in acts :: Smooth(a, s)
  {
    var c := s.w.snap[0];
    var alive := s.sessions[c].q.alive;
    InvConserves(s, c);
    acts, t := [], s;
    assert Run(s, [], s);
    acts, t := Then(s, acts, t, CheckToWrite(c, alive));
    if alive {
      acts, t := Then(s, acts, t, Swap(c));
      assert Undisturbed(s, t);
      var m, more := t, [];
      more, t := WriteRest(m, c);
      RunConcat(s, acts, m, more, t);
      assert forall a | a in acts + more :: Smooth(a, s);
      acts := acts + more;
    }
  }

  lemma {:induction false} EveryClient(s: Server) returns (acts: seq<Action>, t: Server)
    requires Inv(s) && s.w.WNext? && forall c | c in s.w.snap :: c < |s.sessions|
    ensures Run(s, acts, t) && t.w == WNext([]) && Undisturbed(s, t)
    ensures forall a | a in acts :: Smooth(a, s)
    decreases |s.w.snap|
  {
    acts, t := [], s;
    if s.w.snap != [] {
      var m, first, rest;
      assert s.w.snap[0] in s.w.snap && forall c | c in s.w.snap[1..] :: c in s.w.snap;
      first, m := OneClient(s);
      RunKeepsInv(s, first, m);
      hide Inv, Run, Enabled, Apply;
      rest, t := EveryClient(m);
      RunConcat(s, first, m, rest, t);
      assert forall a | a in first + rest :: Smooth(a, s);
      acts := first + rest;
    }
  }

  /** From every reachable state between passes such a pass can be made, and after it every living client on the list has been
      written everything it had been given. */
  lemma PassExists(s: Server) returns (mid: seq<Action>, t: Server)
    requires Inv(s) && s.w.WTop? && s.b.BIdle?
    ensures Run(s, [Snapshot({})] + mid + [EndPass], t) && t.w.WTop? && |t.sessions| == |s.sessions|
    ensures forall c | c in s.clients :: c < |s.sessions| && (s.sessions[c].q.alive ==> t.sessions[c].written == s.sessions[c].enqueued)
  {
    var m := Apply(s, Snapshot({}));
    StepKeepsInv(s, Snapshot({}));
    var u;
    mid, u := EveryClient(m);
    var acts;
    acts, t := Then(m, mid, u, EndPass);
    var all := [Snapshot({})] + mid + [EndPass];
    assert all[0] == Snapshot({}) && all[1..] == acts;
    RunKeepsInv(s, all, t);
    forall c | c in s.clients
      ensures c < |s.sessions| && (s.sessions[c].q.alive ==> t.sessions[c].written == s.sessions[c].enqueued)
    {
      assert c < |s.sessions|;
      if s.sessions[c].q.alive {
        assert forall a | a in mid :: Spares(a, c);
        PassWritesEverything(s, {}, mid, t, c);
        InvConserves(t, c);
        WrittenIsAll(t, c, s.sessions[c].enqueued);
      }
    }
  }

  lemma WrittenIsAll(t: Server, c: nat, given: seq<string>)
    requires c < |t.sessions| && Conserved(t, c) && t.sessions[c].enqueued == given && given <= t.sessions[c].written
    ensures t.sessions[c].written == given
  {
    var k := t.sessions[c];
    assert |k.written| <= |k.enqueued|;
  }

  // ----- one broadcast -----

  /** The queues of the listed clients, in the order of the list. */
  ghost function Queues(s: Server): (q: seq<Session>)
    requires forall c | c in s.clients :: c < |s.sessions|
    ensures |q| == |s.clients|
  {
    seq(|s.clients|, i requires 0 <= i < |s.clients| => assert s.clients[i] in s.clients; s.sessions[s.clients[i]].q)
  }

  /** The broadcaster has come past the first n clients of the list. */
  ghost predicate Past(s: Server, rec: string, n: nat, t: Server)
    requires forall c | c in s.clients :: c < |s.sessions|
    requires n <= |s.clients|
  {
    && t == s.(b := BNext(rec, s.clients[n..]), broadcasts := s.broadcasts + [rec], sessions := t.sessions, dropped := t.dropped)
    && |t.sessions| == |s.sessions|
    && (forall i | 0 <= i < |s.clients| :: Queues(t)[i] == if i < n then Offered(Queues(s)[i], rec) else Queues(s)[i])
    && (forall c: nat | c < |s.sessions| && c !in s.clients :: t.sessions[c] == s.sessions[c])
    && t.dropped == s.dropped + Refusals(Queues(s)[..n], rec)
  }

  lemma {:induction false} OfferFirst(s: Server, rec: string, n: nat) returns (acts: seq<Action>, t: Server)
    requires Control(s) && s.b.BIdle? && n <= |s.clients|
    ensures Run(s, acts, t) && Past(s, rec, n, t)
  {
    if n == 0 {
      acts, t := [BeginBroadcast(rec)], Apply(s, BeginBroadcast(rec));
      assert [BeginBroadcast(rec)][1..] == [] && Run(t, [], t);
      assert s.clients[0..] == s.clients && Queues(s)[..0] == [];
      assert forall i | 0 <= i < |s.clients| :: Queues(t)[i] == Queues(s)[i];
    } else {
      var before, m;
      before, m := OfferFirst(s, rec, n - 1);
      acts, t := OfferNext(s, rec, n - 1, before, m);
    }
  }

  lemma OfferNext(s: Server, rec: string, n: nat, acts: seq<Action>, m: Server) returns (acts': seq<Action>, t: Server)
    requires Control(s) && s.b.BIdle? && n < |s.clients| && Run(s, acts, m) && Past(s, rec, n, m)
    ensures Run(s, acts', t) && Past(s, rec, n + 1, t)
  {
    var c := s.clients[n];
    assert c in s.clients && m.b.todo[0] == c && m.b.todo[1..] == s.clients[n + 1..];
    var alive := m.sessions[c].q.alive;
    assert m.sessions[c].q == Queues(m)[n] == Queues(s)[n];
    acts', t := Then(s, acts, m, CheckToOffer(c, alive));
    if alive { acts', t := Then(s, acts', t, Offer(c)); }
    OneOffered(s, rec, n, m, t);
  }

  lemma OneOffered(s: Server, rec: string, n: nat, m: Server, t: Server)
    requires Control(s) && n < |s.clients| && Past(s, rec, n, m)
    requires var c, q := s.clients[n], Queues(s)[n];
             && c < |s.sessions|
             && t == m.(b := BNext(rec, s.clients[n + 1..]), sessions := t.sessions, dropped := t.dropped)
             && |t.sessions| == |m.sessions| && t.sessions[c].q == Offered(q, rec)
             && (forall d: nat | d < |m.sessions| && d != c :: t.sessions[d] == m.sessions[d])
             && t.dropped == m.dropped + if Refuses(q, rec) then 1 else 0
    ensures Past(s, rec, n + 1, t)
  {
    hide Offered, Refuses;
    var qs := Queues(s);
    assert qs[..n + 1][..n] == qs[..n];
    forall i | 0 <= i < |s.clients|
      ensures Queues(t)[i] == if i < n + 1 then Offered(qs[i], rec) else qs[i]
    {
      assert s.clients[i] in s.clients;
      if i != n { assert s.clients[i] != s.clients[n] && Queues(t)[i] == Queues(m)[i]; }
    }
  }

  /** A whole broadcast, every load of `alive` fresh: each listed client's queue is as `Offered` says, the others are untouched, and
      the drop counter has grown by the refusals. */
  lemma BroadcastPass(s: Server, rec: string) returns (acts: seq<Action>, t: Server)
    requires Control(s) && s.b.BIdle?
    ensures Run(s, acts, t) && t.b.BIdle?
    ensures t == s.(broadcasts := s.broadcasts + [rec], sessions := t.sessions, dropped := t.dropped) && |t.sessions| == |s.sessions|
    ensures forall i | 0 <= i < |s.clients| :: Queues(t)[i] == Offered(Queues(s)[i], rec)
    ensures forall c: nat | c < |s.sessions| && c !in s.clients :: t.sessions[c] == s.sessions[c]
    ensures t.dropped == s.dropped + Refusals(Queues(s), rec)
  {
    var m, before;
    before, m := OfferFirst(s, rec, |s.clients|);
    acts, t := Then(s, before, m, EndBroadcast);
    assert Queues(s)[..|s.clients|] == Queues(s);
    assert forall i | 0 <= i < |s.clients| :: Queues(t)[i] == Queues(m)[i];
  }

  /** The method does what that run of the protocol does: same queues, same order in them, same drops. */
  method BroadcastFollowsProtocol(server: PipeServer, rec: string, ghost s: Server) returns (ghost acts: seq<Action>, ghost t: Server)
    requires server.Valid() && Inv(s) && s.b.BIdle? && server.Models() == Queues(s)
    modifies server`droppedBroadcasts, server.clients
    ensures Run(s, acts, t) && Inv(t) && t.b.BIdle? && t.clients == s.clients && t.broadcasts == s.broadcasts + [rec]
    ensures server.clients == old(server.clients) && server.Models() == Queues(t)
    ensures server.droppedBroadcasts - old(server.droppedBroadcasts) == t.dropped - s.dropped
  {
    server.Broadcast(rec);
    acts, t := BroadcastPass(s, rec);
    RunKeepsInv(s, acts, t);
    assert server.Models() == Queues(t);
  }

  // ----- taking the snapshot -----

  function Dead(s: Server): set<nat>
    requires forall c | c in s.clients :: c < |s.sessions|
  {
    set c | c in s.clients && !s.sessions[c].q.alive
  }

  lemma {:induction false} WithoutSnoc(ids: seq<nat>, c: nat, gone: set<nat>)
    ensures Without(ids + [c], gone) == Without(ids, gone) + if c in gone then [] else [c]
  {
    if ids == [] {
      assert ids + [c] == [c] && [c][1..] == [];
    } else {
      assert (ids + [c])[1..] == ids[1..] + [c];
      WithoutSnoc(ids[1..], c, gone);
      var first, last := if ids[0] in gone then [] else [ids[0]], if c in gone then [] else [c];
      assert first + (Without(ids[1..], gone) + last) == (first + Without(ids[1..], gone)) + last;
    }
  }

  /** The list the method leaves and the list the protocol leaves hold the same clients in the same order. */
  lemma {:induction false} LivingIsWithout(cs: seq<ClientSession>, ids: seq<nat>, sessions: seq<Client>, dead: set<nat>)
    requires |cs| == |ids| && (forall i | 0 <= i < |ids| :: ids[i] < |sessions| && cs[i].Model() == sessions[ids[i]].q)
    requires forall i | 0 <= i < |ids| :: ids[i] in dead <==> !sessions[ids[i]].q.alive
    ensures var l, k := Living(cs), Without(ids, dead);
            && |l| == |k| && forall i | 0 <= i < |l| :: k[i] < |sessions| && l[i].Model() == sessions[k[i]].q
  {
    if cs != [] {
      var n := |cs| - 1;
      assert ids == ids[..n] + [ids[n]];
      WithoutSnoc(ids[..n], ids[n], dead);
      LivingIsWithout(cs[..n], ids[..n], sessions, dead);
    }
  }

  lemma SnapshotStep(s: Server)
    requires Inv(s) && s.b.BIdle? && s.w.WTop?
    ensures Enabled(s, Snapshot(Dead(s)))
    ensures var t := Apply(s, Snapshot(Dead(s)));
            && Inv(t) && t.w == WNext(s.clients) && t.sessions == s.sessions && t.clients == Without(s.clients, Dead(s))
            && forall c | c in t.clients :: c < |t.sessions| && t.sessions[c].q.alive
  {
    assert forall c | c in s.clients :: c < |s.sessions|;
    StepKeepsInv(s, Snapshot(Dead(s)));
    WithoutIs(s.clients, Dead(s));
  }

  /** The method leaves the list the protocol leaves, and hands out the list it had. */
  method SnapshotFollowsProtocol(server: PipeServer, ghost s: Server) returns (snap: seq<ClientSession>, ghost t: Server)
    requires server.Valid() && Inv(s) && s.b.BIdle? && s.w.WTop? && server.Models() == Queues(s)
    modifies server`clients
    ensures snap == old(server.clients)
    ensures Enabled(s, Snapshot(Dead(s))) && t == Apply(s, Snapshot(Dead(s))) && Inv(t)
    ensures t.w == WNext(s.clients) && server.Models() == Queues(t)
    ensures forall c | c in t.clients :: t.sessions[c].q.alive
  {
    SnapshotStep(s);
    ListModels(server);
    hide *;
    t := Apply(s, Snapshot(Dead(s)));
    snap := server.SnapshotAndReap();
    SameList(snap, s);
    ListModels(server);
    ModelsAre(server.Models(), t);
  }

  lemma ListModels(server: PipeServer)
    ensures forall i | 0 <= i < |server.clients| :: server.Models()[i] == server.clients[i].Model()
  {
  }

  lemma ModelsAre(models: seq<Session>, t: Server)
    requires (forall c | c in t.clients :: c < |t.sessions|) && |models| == |t.clients|
    requires forall i | 0 <= i < |models| :: t.clients[i] < |t.sessions| && models[i] == t.sessions[t.clients[i]].q
    ensures models == Queues(t)
  {
  }

  lemma SameList(cs: seq<ClientSession>, s: Server)
    requires Inv(s) && |cs| == |s.clients| && forall i | 0 <= i < |cs| :: cs[i].Model() == Queues(s)[i]
    ensures var l, k := Living(cs), Without(s.clients, Dead(s));
            && |l| == |k| && forall i | 0 <= i < |l| :: k[i] < |s.sessions| && l[i].Model() == s.sessions[k[i]].q
  {
    assert forall i | 0 <= i < |s.clients| :: s.clients[i] in s.clients;
    LivingIsWithout(cs, s.clients, s.sessions, Dead(s));
  }

  // ----- writing one client's queue out -----

  lemma {:induction false} WriteFirst(s: Server, c: nat, n: nat) returns (acts: seq<Action>, t: Server)
    requires c < |s.sessions| && s.w.WWriting? && s.w.c == c && n <= |s.w.local|
    ensures Run(s, acts, t)
    ensures var k := s.sessions[c];
            t == s.(w := WWriting(c, s.w.local[n..], s.w.snap), sessions := s.sessions[c := k.(written := k.written + s.w.local[..n])])
  {
    if n == 0 {
      acts, t := [], s;
      assert s.w.local[0..] == s.w.local && s.w.local[..0] == [];
      assert s.sessions[c].written + [] == s.sessions[c].written && s.sessions[c := s.sessions[c]] == s.sessions;
    } else {
      var before, m;
      before, m := WriteFirst(s, c, n - 1);
      acts, t := Then(s, before, m, WriteOk(c));
      assert m.w.local[0] == s.w.local[n - 1] && m.w.local[1..] == s.w.local[n..];
      assert s.w.local[..n] == s.w.local[..n - 1] + [s.w.local[n - 1]];
      var k := s.sessions[c];
      assert (k.written + s.w.local[..n - 1]) + [s.w.local[n - 1]] == k.written + s.w.local[..n];
    }
  }

  /** The protocol's steps for a turn in which the pipe takes the first n records whole, then, if there are more, the first bytes of
      the next one. */
  lemma TurnOf(s: Server, n: nat, taken: nat) returns (acts: seq<Action>, t: Server)
    requires Inv(s) && s.w.WNext? && s.w.snap != [] && s.w.snap[0] < |s.sessions| && s.sessions[s.w.snap[0]].q.alive
    requires var local := s.sessions[s.w.snap[0]].q.outbound;
             n <= |local| && (n < |local| ==> taken < |local[n]|)
    ensures Run(s, acts, t) && t.w == WNext(s.w.snap[1..]) && |t.sessions| == |s.sessions|
    ensures var c, local := s.w.snap[0], s.sessions[s.w.snap[0]].q.outbound;
            && t.sessions[c].q == Session(n == |local|, [], 0)
            && t.sessions[c].written == s.sessions[c].written + local[..n]
            && (n < |local| ==> t.sessions[c].partial == local[n][..taken] && t.sessions[c].discarded == local[n..])
            && forall d: nat | d < |s.sessions| && d != c :: t.sessions[d] == s.sessions[d]
  {
    var c := s.w.snap[0];
    var local := s.sessions[c].q.outbound;
    InvConserves(s, c);
    acts, t := [], s;
    assert Run(s, [], s);
    acts, t := Then(s, acts, t, CheckToWrite(c, true));
    acts, t := Then(s, acts, t, Swap(c));
    var m, more := t, [];
    more, t := WriteFirst(m, c, n);
    RunConcat(s, acts, m, more, t);
    acts := acts + more;
    if n == |local| {
      acts, t := Then(s, acts, t, Written(c));
    } else {
      assert t.w.local[0] == local[n];
      acts, t := Then(s, acts, t, WriteFails(c, taken));
    }
  }

  /** The method's turn for a client is one of the protocol's: the same queue afterwards, the same records taken whole, the same bytes
      of a broken-off one. */
  method WriteOutFollowsProtocol(server: PipeServer, c: ClientSession, room: nat, ghost s: Server)
    returns (sent: seq<string>, bytes: string, ghost acts: seq<Action>, ghost t: Server)
    requires Inv(s) && s.w.WNext? && s.w.snap != [] && s.w.snap[0] < |s.sessions| && c.Model() == s.sessions[s.w.snap[0]].q
    modifies c
    ensures Run(s, acts, t) && Inv(t) && t.w == WNext(s.w.snap[1..]) && |t.sessions| == |s.sessions|
    ensures c.Model() == t.sessions[s.w.snap[0]].q && t.sessions[s.w.snap[0]].written == s.sessions[s.w.snap[0]].written + sent
    ensures old(c.alive) ==> bytes == Flatten(sent) + if c.alive then "" else t.sessions[s.w.snap[0]].partial
  {
    ghost var id, local, alive := s.w.snap[0], c.outbound, c.alive;
    sent, bytes := server.WriteOut(c, room);
    if alive {
      ghost var taken: nat := 0;
      if |sent| < |local| {
        taken :| taken < |local[|sent|]| && bytes == Flatten(sent) + local[|sent|][..taken];
      }
      assert local[..|sent|] == sent;
      acts, t := TurnOf(s, |sent|, taken);
      RunKeepsInv(s, acts, t);
      SentAll(local, room, sent, bytes);
      hide Inv;
    } else {
      acts, t := [], s;
      assert Run(s, [], s);
      acts, t := Then(s, acts, t, CheckToWrite(id, false));
      RunKeepsInv(s, acts, t);
      assert s.sessions[id].written + [] == s.sessions[id].written;
    }
  }

  lemma SentAll(queued: seq<string>, room: nat, sent: seq<string>, bytes: string)
    requires TakenFrom(queued, room, sent, bytes)
    ensures |Flatten(queued)| <= room <==> |sent| == |queued|
    ensures |sent| == |queued| ==> sent == queued && bytes == Flatten(sent) + ""
  {
  }

  // ----- joining -----

  /** A new client is put at the end of the list, alive and with nothing queued or counted; nobody else notices. */
  lemma JoinIsListed(s: Server)
    requires Inv(s) && s.b.BIdle?
    ensures var t, c := Apply(s, Join), |s.sessions|;
            && t.clients == s.clients + [c] && |t.sessions| == c + 1 && t.sessions[..c] == s.sessions
            && t.sessions[c].q == Session(true, [], 0) && t.sessions[c].joinedAt == |t.broadcasts|
            && t.sessions[c].enqueued == t.sessions[c].written == [] && t.sessions[c].drops == t.sessions[c].skips == 0
            && t.b == s.b && t.w == s.w && c !in s.clients
  {
    assert Control(s);
    hide Inv;
  }

  /** A client whose reader has ended is dead, and the next snapshot that finds it so takes it off the list. */
  lemma ReaderExitEndsClient(s: Server, c: nat)
    requires Inv(s) && s.b.BIdle? && s.w.WTop? && c < |s.sessions|
    ensures var m := Apply(s, ReaderExits(c));
            && Inv(m) && !m.sessions[c].q.alive && m.clients == s.clients
            && Enabled(m, Snapshot(Dead(m))) && c !in Apply(m, Snapshot(Dead(m))).clients
  {
    StepKeepsInv(s, ReaderExits(c));
    SnapshotStep(Apply(s, ReaderExits(c)));
    hide Inv;
  }
}
