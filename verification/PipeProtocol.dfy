/** The pipe server's threads interleaved: the broadcaster, the writer loop, the acceptor and the readers.

    Each lock region, each load of an `alive` flag and each pipe write is one step. A load of `alive` may be stale, but the
    writer, once it has seen a client dead or killed it, does not see it alive again. */
module PipeProtocol {
  import opened PipeServer
  import opened Subsequences

  datatype Client = Client(
    q: Session,
    writerSawDead: bool,
    joinedAt: nat,            // history: broadcasts begun before the client joined
    enqueued: seq<string>,    // history
    written: seq<string>,     // history: records the pipe took whole
    discarded: seq<string>,   // history: the rest of the batch whose write failed
    partial: string,          // history: the bytes the pipe took of the first of these
    drops: nat,               // history: refused for the watermark
    skips: nat                // history: passed over as dead
  )

  datatype Broadcaster =
    | BIdle                                         // the client list is unlocked
    | BNext(rec: string, todo: seq<nat>)
    | BChecked(rec: string, c: nat, todo: seq<nat>) // found alive, queue not yet locked

  datatype Writer =
    | WTop
    | WNext(snap: seq<nat>)
    | WChecked(c: nat, snap: seq<nat>)
    | WWriting(c: nat, local: seq<string>, snap: seq<nat>)

  datatype Server = Server(
    sessions: seq<Client>,    // every session ever accepted; the shared pointers keep them
    clients: seq<nat>,        // the list
    b: Broadcaster,
    w: Writer,
    dropped: nat,             // _droppedBroadcasts
    broadcasts: seq<string>   // history
  )

  datatype Action =
    | Join
    | BeginBroadcast(rec: string)
    | CheckToOffer(c: nat, alive: bool)
    | Offer(c: nat)
    | EndBroadcast
    | Snapshot(reaped: set<nat>)
    | CheckToWrite(c: nat, alive: bool)
    | Swap(c: nat)
    | WriteOk(c: nat)
    | WriteFails(c: nat, taken: nat)
    | Written(c: nat)
    | EndPass
    | ReaderExits(c: nat)

  const NEW_CLIENT := Client(Session(true, [], 0), false, 0, [], [], [], "", 0, 0)

  const EMPTY := Server([], [], BIdle, WTop, 0, [])

  predicate Enabled(s: Server, a: Action) {
    match a
    case Join => s.b.BIdle?
    case BeginBroadcast(_) => s.b.BIdle?
    case CheckToOffer(c, alive) =>
      c < |s.sessions| && s.b.BNext? && s.b.todo != [] && s.b.todo[0] == c && (alive || !s.sessions[c].q.alive)
    case Offer(c) => c < |s.sessions| && s.b.BChecked? && s.b.c == c
    case EndBroadcast => s.b.BNext? && s.b.todo == []
    case Snapshot(reaped) =>
      s.b.BIdle? && s.w.WTop? && forall c | c in reaped :: c < |s.sessions| && !s.sessions[c].q.alive
    case CheckToWrite(c, alive) =>
      && c < |s.sessions| && s.w.WNext? && s.w.snap != [] && s.w.snap[0] == c
      && if alive then !s.sessions[c].writerSawDead else !s.sessions[c].q.alive
    case Swap(c) => c < |s.sessions| && s.w.WChecked? && s.w.c == c
    case WriteOk(c) => c < |s.sessions| && s.w.WWriting? && s.w.c == c && s.w.local != []
    case WriteFails(c, taken) =>
      c < |s.sessions| && s.w.WWriting? && s.w.c == c && s.w.local != [] && taken < |s.w.local[0]|
    case Written(c) => c < |s.sessions| && s.w.WWriting? && s.w.c == c && s.w.local == []
    case EndPass => s.w.WNext? && s.w.snap == []
    case ReaderExits(c) => c < |s.sessions|
  }

  function Without(ids: seq<nat>, gone: set<nat>): seq<nat> {
    if ids == [] then []
    else (if ids[0] in gone then [] else [ids[0]]) + Without(ids[1..], gone)
  }

  function Apply(s: Server, a: Action): Server
    requires Enabled(s, a)
  {
    match a
    case Join =>
      s.(sessions := s.sessions + [NEW_CLIENT.(joinedAt := |s.broadcasts|)], clients := s.clients + [|s.sessions|])
    case BeginBroadcast(rec) => s.(b := BNext(rec, s.clients), broadcasts := s.broadcasts + [rec])
    case CheckToOffer(c, alive) =>
      if alive then s.(b := BChecked(s.b.rec, c, s.b.todo[1..]))
      else s.(b := BNext(s.b.rec, s.b.todo[1..]), sessions := s.sessions[c := s.sessions[c].(skips := s.sessions[c].skips + 1)])
    case Offer(c) =>
      var k := s.sessions[c];
      if Fits(k.q, s.b.rec) then
        s.(b := BNext(s.b.rec, s.b.todo),
           sessions := s.sessions[c := k.(q := Enqueue(k.q, s.b.rec), enqueued := k.enqueued + [s.b.rec])])
      else
        s.(b := BNext(s.b.rec, s.b.todo), dropped := s.dropped + 1, sessions := s.sessions[c := k.(drops := k.drops + 1)])
    case EndBroadcast => s.(b := BIdle)
    case Snapshot(reaped) => s.(w := WNext(s.clients), clients := Without(s.clients, reaped))
    case CheckToWrite(c, alive) =>
      if alive then s.(w := WChecked(c, s.w.snap[1..]))
      else s.(w := WNext(s.w.snap[1..]), sessions := s.sessions[c := s.sessions[c].(writerSawDead := true)])
    case Swap(c) =>
      var k := s.sessions[c];
      s.(w := WWriting(c, k.q.outbound, s.w.snap), sessions := s.sessions[c := k.(q := k.q.(outbound := [], pending := 0))])
    case WriteOk(c) =>
      s.(w := s.w.(local := s.w.local[1..]),
         sessions := s.sessions[c := s.sessions[c].(written := s.sessions[c].written + [s.w.local[0]])])
    case WriteFails(c, taken) =>
      var k := s.sessions[c];
      s.(w := WNext(s.w.snap),
         sessions := s.sessions[c := k.(q := k.q.(alive := false), writerSawDead := true,
                                        discarded := s.w.local, partial := s.w.local[0][..taken])])
    case Written(c) => s.(w := WNext(s.w.snap))
    case EndPass => s.(w := WTop)
    case ReaderExits(c) => s.(sessions := s.sessions[c := s.sessions[c].(q := s.sessions[c].q.(alive := false))])
  }

  ghost predicate Run(s: Server, acts: seq<Action>, t: Server)
    decreases |acts|
  {
    if acts == [] then s == t
    else Enabled(s, acts[0]) && Run(Apply(s, acts[0]), acts[1..], t)
  }

  // ----- the invariant -----

  /** The batch the writer has taken from client c and not yet written. */
  function Batch(s: Server, c: nat): seq<string> {
    if s.w.WWriting? && s.w.c == c then s.w.local else []
  }

  /** The running broadcast has not reached client c yet. */
  predicate Owed(s: Server, c: nat) {
    match s.b
    case BIdle => false
    case BNext(_, todo) => c in todo
    case BChecked(_, c', todo) => c == c' || c in todo
  }

  /** The client has room within its watermark and keeps every record it was given until it is written or thrown away; of a record
      whose write failed the pipe may have taken the first bytes. */
  ghost predicate Conserved(s: Server, c: nat)
    requires c < |s.sessions|
  {
    var k := s.sessions[c];
    && k.enqueued == k.written + k.discarded + Batch(s, c) + k.q.outbound
    && k.q.pending == Bytes(k.q.outbound) <= HIGH_WATERMARK
    && (k.discarded != [] ==> k.writerSawDead && |k.partial| < |k.discarded[0]| && k.partial == k.discarded[0][..|k.partial|])
    && (k.discarded == [] ==> k.partial == "")
    && (k.skips > 0 ==> !k.q.alive)
    && (k.writerSawDead ==> !k.q.alive && Batch(s, c) == [] && !(s.w.WChecked? && s.w.c == c))
  }

  /** What was enqueued is what was broadcast since the client joined, minus refusals and skips, in order. */
  ghost predicate Accounted(s: Server, c: nat)
    requires c < |s.sessions|
  {
    var k := s.sessions[c];
    var n := |s.broadcasts| - (if Owed(s, c) then 1 else 0);
    && k.joinedAt <= n
    && IsSubseq(k.enqueued, s.broadcasts[k.joinedAt..n])
    && (c in s.clients ==> k.joinedAt + |k.enqueued| + k.drops + k.skips == n)
  }

  ghost predicate NoDup(ids: seq<nat>) {
    forall i, j | 0 <= i < j < |ids| :: ids[i] != ids[j]
  }

  ghost predicate Control(s: Server) {
    && NoDup(s.clients) && (forall c | c in s.clients :: c < |s.sessions|)
    && (!s.b.BIdle? ==>
          && NoDup(s.b.todo) && (forall c | c in s.b.todo :: c in s.clients)
          && s.broadcasts != [] && s.broadcasts[|s.broadcasts| - 1] == s.b.rec)
    && (s.b.BChecked? ==> s.b.c in s.clients && s.b.c !in s.b.todo)
    && (s.w.WChecked? || s.w.WWriting? ==> s.w.c < |s.sessions|)
  }

  function Drops(sessions: seq<Client>): nat {
    if sessions == [] then 0 else Drops(sessions[..|sessions| - 1]) + sessions[|sessions| - 1].drops
  }

  ghost predicate Inv(s: Server) {
    && Control(s)
    && (forall c: nat | c < |s.sessions| :: Conserved(s, c) && Accounted(s, c))
    && s.dropped == Drops(s.sessions)
  }

  lemma {:induction false} WithoutIs(ids: seq<nat>, gone: set<nat>)
    ensures forall c :: c in Without(ids, gone) <==> c in ids && c !in gone
    ensures NoDup(ids) ==> NoDup(Without(ids, gone))
  {
    if ids != [] {
      WithoutIs(ids[1..], gone);
      assert ids == [ids[0]] + ids[1..];
      if NoDup(ids) {
        assert NoDup(ids[1..]) by { assert forall i | 0 <= i < |ids[1..]| :: ids[1..][i] == ids[i + 1]; }
        assert ids[0] !in ids[1..];
      }
    }
  }

  lemma {:induction false} DropsUpdate(sessions: seq<Client>, c: nat, k: Client)
    requires c < |sessions|
    ensures Drops(sessions[c := k]) == Drops(sessions) - sessions[c].drops + k.drops
  {
    var n := |sessions| - 1;
    if c == n {
      assert sessions[c := k][..n] == sessions[..n];
    } else {
      DropsUpdate(sessions[..n], c, k);
      assert sessions[c := k][..n] == sessions[..n][c := k];
    }
  }

  lemma ControlKept(s: Server, a: Action)
    requires Control(s) && Enabled(s, a)
    ensures Control(Apply(s, a))
  {
    match a
    case Join => assert forall i | 0 <= i < |s.clients| :: s.clients[i] in s.clients;
    case CheckToOffer(c, alive) =>
      NextTodo(s.b.todo);
      assert forall i | 0 <= i < |s.b.todo[1..]| :: s.b.todo[1..][i] == s.b.todo[i + 1];
    case Snapshot(reaped) => WithoutIs(s.clients, reaped);
    case _ =>
  }

  lemma DropsKept(s: Server, a: Action)
    requires s.dropped == Drops(s.sessions) && Enabled(s, a)
    ensures Apply(s, a).dropped == Drops(Apply(s, a).sessions)
  {
    var t := Apply(s, a);
    if |t.sessions| > |s.sessions| {
      assert t.sessions[..|t.sessions| - 1] == s.sessions;
    } else {
      assert |t.sessions| == |s.sessions|;
      if t.sessions != s.sessions {
        var c :| 0 <= c < |s.sessions| && t.sessions == s.sessions[c := t.sessions[c]];
        DropsUpdate(s.sessions, c, t.sessions[c]);
      }
    }
  }

  predicate OfWriter(a: Action) {
    a.Snapshot? || a.CheckToWrite? || a.Swap? || a.WriteOk? || a.WriteFails? || a.Written? || a.EndPass?
  }

  lemma ConservedKept(s: Server, a: Action, c: nat)
    requires Control(s) && Enabled(s, a) && c < |Apply(s, a).sessions|
    requires c < |s.sessions| ==> Conserved(s, c)
    ensures Conserved(Apply(s, a), c)
  {
    if c < |s.sessions| {
      if OfWriter(a) {
        WriterConserves(s, a, c);
      } else {
        OthersConserve(s, a, c);
      }
    }
  }

  lemma OthersConserve(s: Server, a: Action, c: nat)
    requires Enabled(s, a) && !OfWriter(a) && c < |s.sessions| && Conserved(s, c)
    ensures Conserved(Apply(s, a), c)
  {
    hide Bytes, Fits, Enqueue;
    if a.Offer? && a.c == c { OfferConserves(s, c); }
  }

  lemma OfferConserves(s: Server, c: nat)
    requires c < |s.sessions| && Enabled(s, Offer(c)) && Conserved(s, c)
    ensures Conserved(Apply(s, Offer(c)), c)
  {
    hide Bytes;
    var k := s.sessions[c];
    if Fits(k.q, s.b.rec) {
      BytesSnoc(k.q.outbound, s.b.rec);
      Regroup(k.written, k.discarded, Batch(s, c), k.q.outbound, s.b.rec);
    }
  }

  lemma WriterConserves(s: Server, a: Action, c: nat)
    requires Enabled(s, a) && OfWriter(a) && c < |s.sessions| && Conserved(s, c)
    ensures Conserved(Apply(s, a), c)
  {
    hide Fits, Enqueue;
    var k := s.sessions[c];
    if a.Swap? && a.c == c {
      Swapped(k.written + k.discarded, k.q.outbound);
    } else if a.WriteOk? && a.c == c {
      assert k.discarded == [];
      HeadWritten(k.written, s.w.local, k.q.outbound);
    } else if a.WriteFails? && a.c == c {
      assert k.discarded == [];
      Swapped(k.written, s.w.local);
    }
    hide Bytes;
  }

  lemma Swapped(a: seq<string>, b: seq<string>)
    ensures a + [] + b == a + b + []
  {
  }

  lemma HeadWritten(a: seq<string>, b: seq<string>, c: seq<string>)
    requires b != []
    ensures a + [] + b + c == (a + [b[0]]) + [] + b[1..] + c
  {
    assert b == [b[0]] + b[1..];
  }

  lemma Regroup(a: seq<string>, b: seq<string>, c: seq<string>, d: seq<string>, x: string)
    ensures a + b + c + d + [x] == a + b + c + (d + [x])
  {
  }

  /** The last broadcast has just been settled for a client, whichever way. */
  lemma Settle(s: Server, c: nat)
    requires Control(s) && c < |s.sessions| && Accounted(s, c) && Owed(s, c)
    ensures var k, n := s.sessions[c], |s.broadcasts|;
            && k.joinedAt < n
            && IsSubseq(k.enqueued, s.broadcasts[k.joinedAt..n])
            && IsSubseq(k.enqueued + [s.b.rec], s.broadcasts[k.joinedAt..n])
  {
    var k, n := s.sessions[c], |s.broadcasts|;
    assert s.broadcasts[k.joinedAt..n] == s.broadcasts[k.joinedAt..n - 1] + [s.b.rec];
    Skip(k.enqueued, s.broadcasts[k.joinedAt..n - 1], s.b.rec);
    Take(k.enqueued, s.broadcasts[k.joinedAt..n - 1], s.b.rec);
  }

  lemma NextTodo(todo: seq<nat>)
    requires todo != [] && NoDup(todo)
    ensures todo[0] in todo && todo[0] !in todo[1..]
    ensures forall c :: c in todo <==> c == todo[0] || c in todo[1..]
  {
    assert todo == [todo[0]] + todo[1..];
    assert forall i | 0 <= i < |todo[1..]| :: todo[1..][i] == todo[i + 1];
  }

  lemma CheckAccounted(s: Server, a: Action, c: nat)
    requires Control(s) && Enabled(s, a) && c < |s.sessions| && Accounted(s, c) && a.CheckToOffer?
    ensures Accounted(Apply(s, a), c)
  {
    hide IsSubseq;
    NextTodo(s.b.todo);
    if a.c == c && !a.alive { Settle(s, c); }
    hide Control, NoDup;
  }

  lemma OfferAccounted(s: Server, d: nat, c: nat)
    requires Control(s) && Enabled(s, Offer(d)) && c < |s.sessions| && Accounted(s, c)
    ensures Accounted(Apply(s, Offer(d)), c)
  {
    hide IsSubseq, Fits, Enqueue;
    if d == c { Settle(s, c); }
    assert s.b.c !in s.b.todo;
    hide Control;
  }

  lemma BeginAccounted(s: Server, rec: string, c: nat)
    requires Control(s) && Enabled(s, BeginBroadcast(rec)) && c < |s.sessions| && Accounted(s, c)
    ensures Accounted(Apply(s, BeginBroadcast(rec)), c)
  {
    hide IsSubseq;
    var t, k, n := Apply(s, BeginBroadcast(rec)), s.sessions[c], |s.broadcasts|;
    assert t.broadcasts[k.joinedAt..n] == s.broadcasts[k.joinedAt..n];
    assert t.broadcasts[k.joinedAt..n + 1] == s.broadcasts[k.joinedAt..n] + [rec];
    Skip(k.enqueued, s.broadcasts[k.joinedAt..n], rec);
  }

  lemma AccountedKept(s: Server, a: Action, c: nat)
    requires Control(s) && Enabled(s, a) && c < |Apply(s, a).sessions|
    requires c < |s.sessions| ==> Accounted(s, c)
    ensures Accounted(Apply(s, a), c)
  {
    var t := Apply(s, a);
    if c == |s.sessions| {
      assert IsSubseq([], t.broadcasts[t.sessions[c].joinedAt..]);
      return;
    }
    hide IsSubseq, Control;
    match a
    case BeginBroadcast(rec) => BeginAccounted(s, rec, c);
    case CheckToOffer(_, _) => CheckAccounted(s, a, c);
    case Offer(d) => OfferAccounted(s, d, c);
    case Snapshot(reaped) => WithoutIs(s.clients, reaped);
    case _ =>
  }

  lemma StepKeepsInv(s: Server, a: Action)
    requires Inv(s) && Enabled(s, a)
    ensures Inv(Apply(s, a))
  {
    hide Conserved, Accounted, Control, Drops;
    ControlKept(s, a);
    DropsKept(s, a);
    var t := Apply(s, a);
    forall c: nat | c < |t.sessions| ensures Conserved(t, c) && Accounted(t, c) {
      ConservedKept(s, a, c);
      AccountedKept(s, a, c);
    }
  }

  lemma {:induction false} RunKeepsInv(s: Server, acts: seq<Action>, t: Server)
    requires Inv(s) && Run(s, acts, t)
    ensures Inv(t)
    decreases |acts|
  {
    hide Inv;
    if acts != [] {
      StepKeepsInv(s, acts[0]);
      RunKeepsInv(Apply(s, acts[0]), acts[1..], t);
    }
  }

  // ----- what the server promises -----

  /** In every interleaving, for every client ever connected: its queue is byte-counted and within the watermark; what it was
      given is what the pipe took, the batch being written, the queue, and for a dead client a discarded rest; what the pipe
      took is a selection, in order, of the broadcasts since it joined; a client still listed has exactly the refusals and
      skips to show for the rest. The global drop counter is the sum of the clients' refusals. */
  lemma ServerIsSafe(acts: seq<Action>, t: Server)
    requires Run(EMPTY, acts, t)
    ensures forall c: nat | c < |t.sessions| :: Conserved(t, c) && Accounted(t, c)
    ensures forall c: nat | c < |t.sessions| ::
              t.sessions[c].joinedAt <= |t.broadcasts|
              && IsSubseq(t.sessions[c].written, t.broadcasts[t.sessions[c].joinedAt..])
    ensures t.dropped == Drops(t.sessions)
  {
    RunKeepsInv(EMPTY, acts, t);
    hide IsSubseq;
    forall c: nat | c < |t.sessions|
      ensures t.sessions[c].joinedAt <= |t.broadcasts|
      ensures IsSubseq(t.sessions[c].written, t.broadcasts[t.sessions[c].joinedAt..])
    {
      WrittenIsSubseq(t, c);
    }
  }

  lemma WrittenIsSubseq(s: Server, c: nat)
    requires c < |s.sessions| && Conserved(s, c) && Accounted(s, c)
    ensures s.sessions[c].joinedAt <= |s.broadcasts|
    ensures IsSubseq(s.sessions[c].written, s.broadcasts[s.sessions[c].joinedAt..])
  {
    hide IsSubseq;
    var k := s.sessions[c];
    var since := s.broadcasts[k.joinedAt..];
    var n := |s.broadcasts| - (if Owed(s, c) then 1 else 0);
    if n < |s.broadcasts| {
      assert since == s.broadcasts[k.joinedAt..n] + [s.broadcasts[n]];
      Skip(k.enqueued, s.broadcasts[k.joinedAt..n], s.broadcasts[n]);
    } else {
      assert since == s.broadcasts[k.joinedAt..n];
    }
    Prefix(k.enqueued, since, |k.written|);
    assert k.enqueued[..|k.written|] == k.written;
  }

  lemma DeadNeedsNoWriter(s: Server, a: Action, c: nat)
    requires c < |s.sessions| && Conserved(s, c) && Enabled(s, a)
    ensures var t := Apply(s, a);
            && c < |t.sessions|
            && (!s.sessions[c].q.alive ==> !t.sessions[c].q.alive)
            && (s.sessions[c].writerSawDead ==>
                  && t.sessions[c].writerSawDead
                  && t.sessions[c].written == s.sessions[c].written && t.sessions[c].discarded == s.sessions[c].discarded
                  && t.sessions[c].partial == s.sessions[c].partial)
  {
  }

  /** A record is refused, and counted, exactly when it would take the bytes really queued over the watermark; else it is queued. */
  lemma RefusedIffOverWatermark(s: Server, c: nat)
    requires Inv(s) && Enabled(s, Offer(c))
    ensures var t := Apply(s, Offer(c));
            && (t.dropped == s.dropped + 1 <==> Bytes(s.sessions[c].q.outbound) + |s.b.rec| > 16_777_216)
            && (t.dropped == s.dropped <==> t.sessions[c].q.outbound == s.sessions[c].q.outbound + [s.b.rec])
  {
    assert Conserved(s, c);
    hide Bytes, Drops;
    assert |s.sessions[c].q.outbound + [s.b.rec]| > |s.sessions[c].q.outbound|;
  }

  /** A dead client stays dead, and once the writer has lost it nothing more is written to it. */
  lemma {:induction false} DeadStaysDead(s: Server, acts: seq<Action>, t: Server, c: nat)
    requires Inv(s) && Run(s, acts, t) && c < |s.sessions|
    ensures c < |t.sessions|
    ensures !s.sessions[c].q.alive ==> !t.sessions[c].q.alive
    ensures s.sessions[c].writerSawDead ==>
              && t.sessions[c].written == s.sessions[c].written && t.sessions[c].discarded == s.sessions[c].discarded
              && t.sessions[c].partial == s.sessions[c].partial
    decreases |acts|
  {
    if acts != [] {
      StepKeepsInv(s, acts[0]);
      DeadNeedsNoWriter(s, acts[0], c);
      hide Inv, Apply;
      DeadStaysDead(Apply(s, acts[0]), acts[1..], t, c);
    }
  }

  // ----- isolation -----

  /** Everything a schedule's effect on client c depends on. */
  datatype View = View(client: Client, rec: string, batch: seq<string>)

  function ViewOf(s: Server, c: nat): View
    requires c < |s.sessions|
  {
    View(s.sessions[c], if s.b.BIdle? then "" else s.b.rec, Batch(s, c))
  }

  /** The actions a client can be touched by: the broadcasts themselves, and those on its own session. */
  predicate Concerns(a: Action, c: nat) {
    match a
    case BeginBroadcast(_) => true
    case EndBroadcast => true
    case CheckToOffer(d, _) => d == c
    case Offer(d) => d == c
    case CheckToWrite(d, _) => d == c
    case Swap(d) => d == c
    case WriteOk(d) => d == c
    case WriteFails(d, _) => d == c
    case Written(d) => d == c
    case ReaderExits(d) => d == c
    case _ => false
  }

  /** A schedule as client c sees it. */
  function Proj(acts: seq<Action>, c: nat): seq<Action> {
    if acts == [] then [] else (if Concerns(acts[0], c) then [acts[0]] else []) + Proj(acts[1..], c)
  }

  /** What happens to other clients leaves no trace on client c. */
  lemma ForeignStep(s: Server, a: Action, c: nat)
    requires Enabled(s, a) && !Concerns(a, c) && c < |s.sessions|
    ensures var t := Apply(s, a);
            c < |t.sessions| && ViewOf(t, c) == ViewOf(s, c) && t.b.BIdle? == s.b.BIdle?
  {
    hide Fits, Enqueue, Without;
  }

  /** One client's backlog, refusals, write failures or death never change what another is offered, given or written: two runs
      that treat client c alike, whatever they do to all the others, leave it alike. The other clients may be connected in one
      run and not in the other, dead in one and alive in the other, or be written to a different number of times. */
  lemma {:induction false} ClientsAreIsolated(s: Server, s': Server, acts: seq<Action>, acts': seq<Action>,
                                              t: Server, t': Server, c: nat)
    requires Run(s, acts, t) && Run(s', acts', t') && Proj(acts, c) == Proj(acts', c)
    requires c < |s.sessions| && c < |s'.sessions| && ViewOf(s, c) == ViewOf(s', c)
    requires s.b.BIdle? == s'.b.BIdle?
    ensures c < |t.sessions| && c < |t'.sessions| && ViewOf(t, c) == ViewOf(t', c)
    ensures t.b.BIdle? == t'.b.BIdle?
    decreases |acts| + |acts'|
  {
    hide Enabled, Apply, ViewOf, Concerns;
    if acts != [] && !Concerns(acts[0], c) {
      ForeignStep(s, acts[0], c);
      ClientsAreIsolated(Apply(s, acts[0]), s', acts[1..], acts', t, t', c);
    } else if acts' != [] && !Concerns(acts'[0], c) {
      ForeignStep(s', acts'[0], c);
      ClientsAreIsolated(s, Apply(s', acts'[0]), acts, acts'[1..], t, t', c);
    } else if acts != [] && acts' != [] {
      assert acts[0] == Proj(acts, c)[0] == Proj(acts', c)[0] == acts'[0];
      assert Proj(acts[1..], c) == Proj(acts, c)[1..] == Proj(acts', c)[1..] == Proj(acts'[1..], c);
      StepIsIsolated(s, s', acts[0], c);
      ClientsAreIsolated(Apply(s, acts[0]), Apply(s', acts'[0]), acts[1..], acts'[1..], t, t', c);
    }
  }

  lemma StepIsIsolated(s: Server, s': Server, a: Action, c: nat)
    requires Enabled(s, a) && Enabled(s', a)
    requires c < |s.sessions| && c < |s'.sessions| && ViewOf(s, c) == ViewOf(s', c)
    requires s.b.BIdle? == s'.b.BIdle?
    ensures var t, t' := Apply(s, a), Apply(s', a);
            && c < |t.sessions| && c < |t'.sessions| && ViewOf(t, c) == ViewOf(t', c)
            && t.b.BIdle? == t'.b.BIdle?
  {
    if OfWriter(a) {
      WriterIsIsolated(s, s', a, c);
    } else {
      assert Apply(s, a).w == s.w && Apply(s', a).w == s'.w;
    }
  }

  lemma WriterIsIsolated(s: Server, s': Server, a: Action, c: nat)
    requires Enabled(s, a) && Enabled(s', a) && OfWriter(a)
    requires c < |s.sessions| && c < |s'.sessions| && ViewOf(s, c) == ViewOf(s', c)
    ensures var t, t' := Apply(s, a), Apply(s', a);
            && c < |t.sessions| && c < |t'.sessions|
            && t.b == s.b && t'.b == s'.b
            && t.sessions[c] == t'.sessions[c] && Batch(t, c) == Batch(t', c)
  {
  }
}
