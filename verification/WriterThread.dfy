/** `plugin/src/transport/writer_thread.cpp`: Submit frames records into the ring; the writer loop pops them and hands
    each one to the pipe server and then to the recorder. */
module WriterThread {
  import opened Framing
  import opened RingBuffer
  import opened RingProtocol
  import opened Subsequences

  class WriterThread {
    const ring: StringSpscRing

    constructor (capacity: nat)
      requires capacity <= Bits.Pow2(63)
      ensures fresh(ring) && fresh(ring.slots) && ring.Valid() && ring.Contents() == [] && ring.dropped == 0
    {
      ring := new StringSpscRing(capacity);
    }

    /** An empty record is ignored; any other one is queued, terminated, unless the ring is full. */
    method Submit(rec: string)
      requires ring.Valid()
      modifies ring`head, ring`dropped, ring.slots
      ensures ring.Valid()
      ensures rec == "" ==> ring.Contents() == old(ring.Contents()) && ring.dropped == old(ring.dropped)
      ensures rec != "" && |old(ring.Contents())| < ring.capacity ==>
                ring.Contents() == old(ring.Contents()) + [Frame(rec)] && ring.dropped == old(ring.dropped)
      ensures rec != "" && |old(ring.Contents())| >= ring.capacity ==>
                ring.Contents() == old(ring.Contents()) && ring.dropped == old(ring.dropped) + 1
    {
      var record := rec;
      if record == "" { return; }
      if record[|record| - 1] != '\n' { record := record + "\n"; }
      var ok := ring.TryPush(record);
    }
  }

  // ----- the threads interleaved -----

  datatype Pc =
    | Checking                                  // about to read _running
    | Popping                                   // inside TryPop
    | Holding(rec: string)                      // popped, not yet broadcast
    | Broadcasted(rec: string)                  // about to read _recorder
    | Teeing(rec: string, recorder: bool)       // about to append, if there is a recorder
    | Finished

  datatype Pipeline = Pipeline(
    ring: Ring,
    pc: Pc,
    draining: bool,           // past the main loop
    stopped: bool,            // _running is false
    before: nat,              // records accepted by pushes that happen before Stop
    attached: bool,           // _recorder is set
    sawRecorder: bool,        // the writer has read it
    teeFrom: nat,             // history: broadcasts made before it first did
    submitted: seq<string>,   // history: framed records handed to TryPush
    broadcast: seq<string>,   // history
    recorded: seq<string>     // history
  )

  datatype Event =
    | Submit(rec: string)
    | Producer(a: Action)
    | ReadRunning(running: bool)
    | Consumer(a: Action)
    | Broadcast
    | ReadRecorder(present: bool)
    | Tee
    | Attach
    | Stop(before: nat)

  function Start(log: nat): Pipeline {
    Pipeline(RingProtocol.Init(log, 1), Checking, false, false, 0, false, false, 0, [], [], [])
  }

  predicate IsProducer(a: Action) {
    a.LoadHead? || a.LoadTail? || a.Reject? || a.WriteSlot? || a.StoreHead?
  }

  predicate IsConsumer(a: Action) {
    a.PopLoadTail? || a.PopLoadHead? || a.PopEmpty? || a.TakeSlot? || a.StoreTail?
  }

  /** Loads of _running and _recorder may be stale as well, never older than what the writer has read before.
      Reading that _running is false makes visible every push that happened before Stop. */
  predicate Can(s: Pipeline, e: Event) {
    match e
    case Submit(r) => r == "" || RingProtocol.Enabled(s.ring, CallPush(0, Frame(r)))
    case Producer(a) => IsProducer(a) && RingProtocol.Enabled(s.ring, a)
    case ReadRunning(running) => s.pc.Checking? && (running || s.stopped)
    case Consumer(a) => s.pc.Popping? && IsConsumer(a) && RingProtocol.Enabled(s.ring, a)
    case Broadcast => s.pc.Holding?
    case ReadRecorder(present) => s.pc.Broadcasted? && s.broadcast != [] && (if present then s.attached else !s.sawRecorder)
    case Tee => s.pc.Teeing?
    case Attach => !s.attached
    case Stop(before) => !s.stopped && before <= |s.ring.accepted|
  }

  function Do(s: Pipeline, e: Event): Pipeline
    requires Can(s, e)
  {
    match e
    case Submit(r) =>
      if r == "" then s
      else s.(ring := RingProtocol.Apply(s.ring, CallPush(0, Frame(r))), submitted := s.submitted + [Frame(r)])
    case Producer(a) => s.(ring := RingProtocol.Apply(s.ring, a))
    case ReadRunning(running) =>
      if running then s.(pc := Popping)
      else s.(pc := Popping, draining := true,
              ring := s.ring.(seenHead := if s.ring.seenHead < s.before then s.before else s.ring.seenHead))
    case Consumer(a) =>
      var t := s.(ring := RingProtocol.Apply(s.ring, a));
      if a.PopEmpty? then t.(pc := if s.draining then Finished else Checking)
      else if a.StoreTail? then t.(pc := Holding(s.ring.consumer.record))
      else t
    case Broadcast => s.(pc := Broadcasted(s.pc.rec), broadcast := s.broadcast + [s.pc.rec])
    case ReadRecorder(present) =>
      s.(pc := Teeing(s.pc.rec, present), sawRecorder := present,
         teeFrom := if present && !s.sawRecorder then |s.broadcast| - 1 else s.teeFrom)
    case Tee =>
      s.(pc := if s.draining then Popping else Checking,
         recorded := if s.pc.recorder then s.recorded + [s.pc.rec] else s.recorded)
    case Attach => s.(attached := true)
    case Stop(before) => s.(stopped := true, before := before)
  }

  ghost predicate Happens(s: Pipeline, events: seq<Event>, t: Pipeline)
    decreases |events|
  {
    if events == [] then s == t
    else Can(s, events[0]) && Happens(Do(s, events[0]), events[1..], t)
  }

  // ----- invariants -----

  /** The record a producer is inside TryPush with, if any. */
  function InFlight(p: RingProtocol.Producer): seq<string> {
    if p.PIdle? then [] else [p.record]
  }

  /** The broadcast records whose turn of the loop body is over. */
  function Processed(s: Pipeline): seq<string> {
    if (s.pc.Broadcasted? || s.pc.Teeing?) && s.broadcast != [] then s.broadcast[..|s.broadcast| - 1] else s.broadcast
  }

  ghost predicate Submissions(s: Pipeline) {
    && RingProtocol.Inv(s.ring)
    && var inFlight := InFlight(s.ring.producers[0]);
       && |s.submitted| == |s.ring.accepted| + s.ring.dropped + |inFlight|
       && IsSubseq(s.ring.accepted + inFlight, s.submitted)
  }

  ghost predicate Popped(s: Pipeline) {
    && (!s.pc.Popping? ==> s.ring.consumer.CIdle?)
    && s.ring.popped == s.broadcast + (if s.pc.Holding? then [s.pc.rec] else [])
    && (s.pc.Broadcasted? || s.pc.Teeing? ==> s.broadcast != [] && s.broadcast[|s.broadcast| - 1] == s.pc.rec)
  }

  ghost predicate Recorded(s: Pipeline) {
    && (s.sawRecorder ==> s.attached && s.teeFrom <= |Processed(s)| && s.recorded == Processed(s)[s.teeFrom..])
    && (!s.sawRecorder ==> s.recorded == [])
    && (s.pc.Teeing? ==> s.pc.recorder == s.sawRecorder)
  }

  ghost predicate Stopping(s: Pipeline)
    requires RingProtocol.Inv(s.ring)
  {
    && (s.stopped ==> s.before <= |s.ring.accepted|)
    && (s.draining ==> s.stopped && s.before <= s.ring.seenHead)
    && (s.pc.Checking? ==> !s.draining)
    && (s.pc.Finished? ==> s.draining && RingProtocol.T(s.ring) == s.ring.seenHead)
  }

  ghost predicate PipelineInv(s: Pipeline) {
    Submissions(s) && Popped(s) && Recorded(s) && Stopping(s)
  }

  lemma StartInv(log: nat)
    requires log <= 63
    ensures PipelineInv(Start(log))
  {
    RingProtocol.InitInv(log);
  }

  /** What a step inside TryPush does to the ring, seen from outside. */
  lemma PushEffect(r: Ring, a: Action)
    requires RingProtocol.Inv(r) && RingProtocol.Enabled(r, a) && (IsProducer(a) || a.CallPush?)
    ensures var t := RingProtocol.Apply(r, a);
            && |r.producers| == |t.producers| == 1
            && t == r.(slots := t.slots, heads := t.heads, producers := t.producers, seenTail := t.seenTail,
                       dropped := t.dropped, accepted := t.accepted)
            && var f, f' := InFlight(r.producers[0]), InFlight(t.producers[0]);
               if a.CallPush? then f == [] && f' == [a.record] && t.accepted == r.accepted && t.dropped == r.dropped
               else if a.Reject? then |f| == 1 && f' == [] && t.accepted == r.accepted && t.dropped == r.dropped + 1
               else if a.StoreHead? then |f| == 1 && f' == [] && t.accepted == r.accepted + f && t.dropped == r.dropped
               else |f| == 1 && f' == f && t.accepted == r.accepted && t.dropped == r.dropped
  {
    hide Bits.BitAnd, Bits.Pow2, SlotOf;
  }

  /** A step that only pushes leaves the rest of the invariant alone. */
  lemma RestKept(s: Pipeline, t: Pipeline)
    requires PipelineInv(s) && RingProtocol.Inv(t.ring)
    requires t == s.(ring := t.ring, submitted := t.submitted)
    requires t.ring.popped == s.ring.popped && t.ring.consumer == s.ring.consumer
    requires t.ring.seenHead == s.ring.seenHead && t.ring.tails == s.ring.tails
    requires |s.ring.accepted| <= |t.ring.accepted|
    ensures Popped(t) && Recorded(t) && Stopping(t)
  {
    hide RingProtocol.Inv, IsSubseq;
  }

  lemma SubmitKeeps(s: Pipeline, r: string)
    requires PipelineInv(s) && Can(s, Submit(r))
    ensures PipelineInv(Do(s, Submit(r)))
  {
    hide IsSubseq, Frame, RingProtocol.Inv;
    if r != "" {
      var a := CallPush(0, Frame(r));
      RingProtocol.StepKeepsInv(s.ring, a);
      PushEffect(s.ring, a);
      var t := Do(s, Submit(r));
      hide RingProtocol.Enabled, RingProtocol.Apply;
      assert s.ring.accepted + [] == s.ring.accepted;
      Take(s.ring.accepted, s.submitted, Frame(r));
      RestKept(s, t);
    }
  }

  lemma ProducerKeeps(s: Pipeline, a: Action)
    requires PipelineInv(s) && Can(s, Producer(a))
    ensures PipelineInv(Do(s, Producer(a)))
  {
    hide IsSubseq, RingProtocol.Inv;
    RingProtocol.StepKeepsInv(s.ring, a);
    PushEffect(s.ring, a);
    var t := Do(s, Producer(a));
    hide RingProtocol.Enabled, RingProtocol.Apply, InFlight;
    RestKept(s, t);
    TurnEnds(s, t);
  }

  /** A push under way stays under way, is dropped, or is accepted. */
  lemma TurnEnds(s: Pipeline, t: Pipeline)
    requires Submissions(s) && RingProtocol.Inv(t.ring) && t.submitted == s.submitted
    requires |s.ring.producers| == |t.ring.producers| == 1
    requires var f, f' := InFlight(s.ring.producers[0]), InFlight(t.ring.producers[0]);
             && |f| == 1
             && (|| (f' == f && t.ring.accepted == s.ring.accepted && t.ring.dropped == s.ring.dropped)
                 || (f' == [] && t.ring.accepted == s.ring.accepted && t.ring.dropped == s.ring.dropped + 1)
                 || (f' == [] && t.ring.accepted == s.ring.accepted + f && t.ring.dropped == s.ring.dropped))
    ensures Submissions(t)
  {
    hide IsSubseq, RingProtocol.Inv, InFlight;
    var accepted, f := s.ring.accepted, InFlight(s.ring.producers[0]);
    Prefix(accepted + f, s.submitted, |accepted|);
    assert (accepted + f)[..|accepted|] == accepted == accepted + [] && (accepted + f) + [] == accepted + f;
  }

  lemma ReadRunningKeeps(s: Pipeline, running: bool)
    requires PipelineInv(s) && Can(s, ReadRunning(running))
    ensures PipelineInv(Do(s, ReadRunning(running)))
  {
    hide IsSubseq, RingProtocol.Inv;
    if !running && s.ring.seenHead < s.before { RingProtocol.RaiseView(s.ring, s.before); }
    assert Do(s, ReadRunning(running)).ring.producers == s.ring.producers;
  }

  /** What a step inside TryPop does to the ring, seen from outside. */
  lemma PopEffect(r: Ring, a: Action)
    requires RingProtocol.Inv(r) && RingProtocol.Enabled(r, a) && IsConsumer(a)
    ensures var t := RingProtocol.Apply(r, a);
            && t == r.(slots := t.slots, tails := t.tails, consumer := t.consumer, seenHead := t.seenHead, popped := t.popped)
            && r.seenHead <= t.seenHead
            && (a.PopEmpty? || a.StoreTail? ==> t.consumer.CIdle?)
            && t.popped == (if a.StoreTail? then r.popped + [r.consumer.record] else r.popped)
            && (a.PopEmpty? ==> t.tails == r.tails && t.seenHead == r.seenHead && RingProtocol.T(r) == r.seenHead)
  {
    hide Bits.BitAnd, Bits.Pow2, SlotOf;
    if a.PopEmpty? { RingProtocol.EmptyMeansCaughtUp(r); }
  }

  lemma ConsumerKeeps(s: Pipeline, a: Action)
    requires PipelineInv(s) && Can(s, Consumer(a))
    ensures PipelineInv(Do(s, Consumer(a)))
  {
    hide IsSubseq, RingProtocol.Inv, InFlight;
    RingProtocol.StepKeepsInv(s.ring, a);
    PopEffect(s.ring, a);
    var t := Do(s, Consumer(a));
    assert a.StoreTail? ==> s.ring.consumer.CTook?;
    hide RingProtocol.Enabled, RingProtocol.Apply, IsConsumer;
    assert Submissions(t);
    hide Submissions;
    assert s.broadcast + [] == s.broadcast;
  }

  lemma LoopKeeps(s: Pipeline, e: Event)
    requires PipelineInv(s) && Can(s, e) && (e.Broadcast? || e.ReadRecorder? || e.Tee?)
    ensures PipelineInv(Do(s, e))
  {
    hide IsSubseq, RingProtocol.Inv, RingProtocol.Enabled, RingProtocol.Apply, InFlight, Frame;
    var t := Do(s, e);
    assert t.ring == s.ring && Submissions(t) && Stopping(t);
    hide Submissions, Stopping;
    if e.Broadcast? {
      assert t.broadcast[..|t.broadcast| - 1] == s.broadcast;
    } else if e.Tee? {
      assert s.broadcast == Processed(s) + [s.pc.rec] && Processed(t) == s.broadcast;
      if s.sawRecorder { OneMoreRecorded(Processed(s), s.teeFrom, s.pc.rec); }
      hide Processed;
    }
  }

  lemma OneMoreRecorded(done: seq<string>, teeFrom: nat, rec: string)
    requires teeFrom <= |done|
    ensures (done + [rec])[teeFrom..] == done[teeFrom..] + [rec]
  {
  }

  lemma EventKeepsInv(s: Pipeline, e: Event)
    requires PipelineInv(s) && Can(s, e)
    ensures PipelineInv(Do(s, e))
  {
    hide IsSubseq, RingProtocol.Inv, RingProtocol.Enabled, RingProtocol.Apply, InFlight, Frame;
    match e
    case Submit(r) => SubmitKeeps(s, r);
    case Producer(a) => ProducerKeeps(s, a);
    case ReadRunning(running) => ReadRunningKeeps(s, running);
    case Consumer(a) => ConsumerKeeps(s, a);
    case Attach =>
    case Stop(_) =>
    case _ => LoopKeeps(s, e);
  }

  lemma {:induction false} HappensKeepsInv(s: Pipeline, events: seq<Event>, t: Pipeline)
    requires PipelineInv(s) && Happens(s, events, t)
    ensures PipelineInv(t)
    decreases |events|
  {
    if events != [] {
      EventKeepsInv(s, events[0]);
      HappensKeepsInv(Do(s, events[0]), events[1..], t);
    }
  }

  // ----- what the pipeline promises -----

  /** The framed non-empty records of the Submit calls in a schedule. */
  function Submitted(events: seq<Event>): seq<string> {
    if events == [] then [] else SubmittedBy(events[0]) + Submitted(events[1..])
  }

  function SubmittedBy(e: Event): seq<string> {
    if e.Submit? && e.rec != "" then [Frame(e.rec)] else []
  }

  lemma EventSubmits(s: Pipeline, e: Event)
    requires Can(s, e)
    ensures Do(s, e).submitted == s.submitted + SubmittedBy(e)
  {
    hide Frame, RingProtocol.Enabled, RingProtocol.Apply;
    assert s.submitted + [] == s.submitted;
  }

  lemma {:induction false} SubmittedIsHistory(s: Pipeline, events: seq<Event>, t: Pipeline)
    requires Happens(s, events, t)
    ensures t.submitted == s.submitted + Submitted(events)
    decreases |events|
  {
    hide Can, Do, SubmittedBy;
    if events == [] {
      assert s.submitted + [] == s.submitted;
    } else {
      EventSubmits(s, events[0]);
      SubmittedIsHistory(Do(s, events[0]), events[1..], t);
    }
  }

  /** In every schedule: each accepted record is broadcast once and in order; the recorder gets, one step behind, exactly
      the broadcasts from the moment it was first seen; every non-empty submission is accepted, dropped or still inside
      TryPush. */
  lemma PipelineIsSafe(log: nat, events: seq<Event>, t: Pipeline)
    requires log <= 63 && Happens(Start(log), events, t)
    ensures t.broadcast <= t.ring.accepted
    ensures t.sawRecorder ==> t.teeFrom <= |Processed(t)| && t.recorded == Processed(t)[t.teeFrom..]
    ensures !t.sawRecorder ==> t.recorded == []
    ensures |t.ring.producers| == 1
    ensures |Submitted(events)| == |t.ring.accepted| + t.ring.dropped + |InFlight(t.ring.producers[0])|
    ensures IsSubseq(t.ring.accepted, Submitted(events))
  {
    StartInv(log);
    HappensKeepsInv(Start(log), events, t);
    SubmittedIsHistory(Start(log), events, t);
    assert Start(log).submitted + Submitted(events) == Submitted(events);
    hide Happens, Start, Submitted;
    InvSays(t);
  }

  lemma InvSays(t: Pipeline)
    requires PipelineInv(t)
    ensures t.broadcast <= t.ring.accepted
    ensures |t.ring.producers| == 1
    ensures |t.submitted| == |t.ring.accepted| + t.ring.dropped + |InFlight(t.ring.producers[0])|
    ensures IsSubseq(t.ring.accepted, t.submitted)
  {
    hide IsSubseq;
    var accepted, f := t.ring.accepted, InFlight(t.ring.producers[0]);
    Prefix(accepted + f, t.submitted, |accepted|);
    assert (accepted + f)[..|accepted|] == accepted;
  }

  /** When the writer has finished, everything accepted by pushes that happened before Stop has been broadcast; nothing is
      missing exactly when the ring is empty, so nothing is missing if no push was accepted after Stop. */
  lemma StopDrains(log: nat, events: seq<Event>, t: Pipeline)
    requires log <= 63 && Happens(Start(log), events, t) && t.pc.Finished?
    ensures RingProtocol.Inv(t.ring) && t.ring.accepted == t.broadcast + RingProtocol.Abs(t.ring).queue
    ensures t.before <= |t.broadcast|
    ensures t.broadcast == t.ring.accepted <==> RingProtocol.Abs(t.ring).queue == []
    ensures t.before == |t.ring.accepted| ==> t.broadcast == t.ring.accepted
    ensures t.sawRecorder ==> t.teeFrom <= |t.broadcast| && t.recorded == t.broadcast[t.teeFrom..]
  {
    StartInv(log);
    HappensKeepsInv(Start(log), events, t);
    RingProtocol.QueueIsAcceptedNotPopped(t.ring);
    assert t.broadcast + [] == t.broadcast;
  }

  /** However many records went through before: if not every accepted push happens before Stop, the last one may be accepted after
      the last look at the ring, and is then never broadcast. */
  lemma LateSubmitIsStranded(log: nat, before: nat, n: nat) returns (events: seq<Event>, t: Pipeline)
    requires log <= 63 && before < n
    ensures Happens(Start(log), events, t)
    ensures t.pc.Finished? && t.before == before && |t.ring.accepted| == n && |t.broadcast| == n - 1
  {
    var s;
    events, s := Rounds(log, n - 1);
    events, s := StopAndFinish(log, events, s, before);
    events, t := OnePush(log, events, s);
  }

  /** Of n accepted records, the first `before` of them pushed before Stop: all are broadcast, whatever the schedule, if and only if
      no push was accepted that does not happen before Stop. */
  lemma StopDrainsIff(log: nat, before: nat, n: nat)
    requires log <= 63 && before <= n
    ensures (forall events, t | Happens(Start(log), events, t) && t.pc.Finished? && t.before == before && |t.ring.accepted| == n ::
               t.broadcast == t.ring.accepted)
        <==> before == n
  {
    if before == n {
      forall events, t | Happens(Start(log), events, t) && t.pc.Finished? && t.before == before && |t.ring.accepted| == n
        ensures t.broadcast == t.ring.accepted
      {
        StopDrains(log, events, t);
      }
    } else {
      var events, t := LateSubmitIsStranded(log, before, n);
      hide Happens, Start;
      assert Happens(Start(log), events, t) && t.broadcast != t.ring.accepted;
    }
  }

  /** Nothing under way and nothing left to do. */
  ghost predicate AtRest(s: Pipeline) {
    && RingProtocol.Inv(s.ring) && s.ring.producers[0].PIdle? && s.ring.consumer.CIdle?
    && RingProtocol.T(s.ring) == RingProtocol.H(s.ring)
  }

  ghost predicate Running(s: Pipeline) {
    AtRest(s) && s.pc == Checking && !s.draining && !s.stopped && !s.sawRecorder && |s.broadcast| == |s.ring.accepted|
  }

  lemma StartRuns(log: nat)
    requires log <= 63
    ensures Running(Start(log)) && Start(log).ring.accepted == []
  {
    RingProtocol.InitInv(log);
  }

  /** One record submitted and pushed while everything else stands still. */
  lemma OnePush(log: nat, events: seq<Event>, s: Pipeline) returns (events': seq<Event>, t: Pipeline)
    requires Happens(Start(log), events, s) && AtRest(s)
    ensures Happens(Start(log), events', t)
    ensures t == s.(ring := t.ring, submitted := t.submitted)
    ensures RingProtocol.Inv(t.ring) && t.ring.producers[0].PIdle? && t.ring.accepted == s.ring.accepted + ["x\n"]
    ensures t.ring.consumer == s.ring.consumer && t.ring.tails == s.ring.tails
    ensures RingProtocol.H(t.ring) == RingProtocol.H(s.ring) + 1
  {
    hide Happens, Start, Bits.Pow2;
    assert Frame("x") == "x\n";
    var last := RingProtocol.T(s.ring);
    var r1, r2, r3, r4, r5 := RingProtocol.PushAlone(s.ring, "x\n");
    assert RingProtocol.H(r5) == |r5.accepted| && RingProtocol.H(s.ring) == |s.ring.accepted|;
    hide Frame, RingProtocol.Inv, RingProtocol.Enabled, RingProtocol.Apply;
    var start := Start(log);
    events', t := Then(start, events, s, Submit("x"), s.(ring := r1, submitted := s.submitted + ["x\n"]));
    events', t := Then(start, events', t, Producer(LoadHead(0)), t.(ring := r2));
    events', t := Then(start, events', t, Producer(LoadTail(0, last)), t.(ring := r3));
    events', t := Then(start, events', t, Producer(WriteSlot(0)), t.(ring := r4));
    events', t := Then(start, events', t, Producer(StoreHead(0)), t.(ring := r5));
  }

  /** One turn of the writer's loop on a ring of one record, no recorder attached. */
  lemma OneTurn(log: nat, events: seq<Event>, s: Pipeline) returns (events': seq<Event>, t: Pipeline)
    requires Happens(Start(log), events, s) && s.pc == Checking && !s.draining && !s.stopped && !s.sawRecorder
    requires RingProtocol.Inv(s.ring) && s.ring.producers[0].PIdle? && s.ring.consumer.CIdle?
    requires RingProtocol.H(s.ring) == RingProtocol.T(s.ring) + 1 && |s.broadcast| + 1 == |s.ring.accepted|
    ensures Happens(Start(log), events', t) && Running(t) && t.ring.accepted == s.ring.accepted
  {
    hide Happens, Start, Bits.Pow2;
    var head := RingProtocol.H(s.ring);
    var r1, r2, r3, r4 := RingProtocol.PopAlone(s.ring);
    var rec := r3.consumer.record;
    var start := Start(log);
    hide RingProtocol.Inv, RingProtocol.Enabled, RingProtocol.Apply;
    events', t := Then(start, events, s, ReadRunning(true), s.(pc := Popping));
    events', t := Then(start, events', t, Consumer(PopLoadTail), t.(ring := r1));
    events', t := Then(start, events', t, Consumer(PopLoadHead(head)), t.(ring := r2));
    events', t := Then(start, events', t, Consumer(TakeSlot("")), t.(ring := r3));
    events', t := Then(start, events', t, Consumer(StoreTail), t.(ring := r4, pc := Holding(rec)));
    events', t := Handled(log, events', t, rec);
  }

  lemma Handled(log: nat, events: seq<Event>, s: Pipeline, rec: string) returns (events': seq<Event>, t: Pipeline)
    requires Happens(Start(log), events, s) && s.pc == Holding(rec) && !s.draining && !s.sawRecorder
    ensures Happens(Start(log), events', t) && t == s.(pc := Checking, broadcast := s.broadcast + [rec])
  {
    hide Happens, Start, RingProtocol.Enabled, RingProtocol.Apply;
    var start := Start(log);
    events', t := Then(start, events, s, Broadcast, s.(pc := Broadcasted(rec), broadcast := s.broadcast + [rec]));
    events', t := Then(start, events', t, ReadRecorder(false), t.(pc := Teeing(rec, false)));
    events', t := Then(start, events', t, Tee, t.(pc := Checking));
  }

  /** k records, one after another, each pushed and broadcast before the next. */
  lemma {:induction false} Rounds(log: nat, k: nat) returns (events: seq<Event>, t: Pipeline)
    requires log <= 63
    ensures Happens(Start(log), events, t) && Running(t) && |t.ring.accepted| == k
  {
    if k == 0 {
      events, t := [], Start(log);
      StartRuns(log);
    } else {
      events, t := Rounds(log, k - 1);
      hide Happens, Start;
      events, t := OnePush(log, events, t);
      events, t := OneTurn(log, events, t);
    }
  }

  /** Stop, then the drain that finds nothing. */
  lemma StopAndFinish(log: nat, events: seq<Event>, s: Pipeline, before: nat) returns (events': seq<Event>, t: Pipeline)
    requires Happens(Start(log), events, s) && Running(s) && before <= |s.ring.accepted|
    ensures Happens(Start(log), events', t) && AtRest(t)
    ensures t == s.(stopped := true, before := before, draining := true, pc := Finished)
  {
    hide Happens, Start, Bits.Pow2;
    var head := RingProtocol.H(s.ring);
    assert s.ring.seenHead == head == |s.ring.accepted|;
    var r1, r2 := RingProtocol.LookAlone(s.ring);
    hide RingProtocol.Inv, RingProtocol.Enabled, RingProtocol.Apply;
    var start := Start(log);
    events', t := Then(start, events, s, Stop(before), s.(stopped := true, before := before));
    events', t := Then(start, events', t, ReadRunning(false), t.(draining := true, pc := Popping));
    events', t := Then(start, events', t, Consumer(PopLoadTail), t.(ring := r1));
    events', t := Then(start, events', t, Consumer(PopLoadHead(head)), t.(ring := r2));
    events', t := Then(start, events', t, Consumer(PopEmpty), t.(ring := s.ring, pc := Finished));
  }

  lemma {:induction false} HappensSnoc(s: Pipeline, events: seq<Event>, t: Pipeline, e: Event)
    requires Happens(s, events, t) && Can(t, e)
    ensures Happens(s, events + [e], Do(t, e))
    decreases |events|
  {
    hide Can, Do;
    if events == [] {
      assert [e][1..] == [] && Happens(Do(t, e), [], Do(t, e));
    } else {
      HappensSnoc(Do(s, events[0]), events[1..], t, e);
      assert (events + [e])[1..] == events[1..] + [e];
    }
  }

  lemma Then(s: Pipeline, events: seq<Event>, t: Pipeline, e: Event, u: Pipeline) returns (events': seq<Event>, u': Pipeline)
    requires Happens(s, events, t) && Can(t, e) && u == Do(t, e)
    ensures events' == events + [e] && u' == u && Happens(s, events', u')
  {
    HappensSnoc(s, events, t, e);
    events', u' := events + [e], u;
  }

  // ----- shutdown can always be completed -----

  predicate OfWriter(e: Event) {
    e.ReadRunning? || e.Consumer? || e.Broadcast? || e.ReadRecorder? || e.Tee?
  }

  /** Inside the drain, having loaded a head that says the ring is empty although it no longer is. */
  predicate TooLate(s: Pipeline) {
    && s.draining && s.pc.Popping? && s.ring.consumer.CHasBoth?
    && RingProtocol.T(s.ring) == s.ring.seenHead < RingProtocol.H(s.ring)
  }

  /** The writer's next step once _running is false, with every load fresh. */
  function Next(s: Pipeline): Event
    requires |s.ring.heads| > 0
  {
    match s.pc
    case Checking => ReadRunning(false)
    case Popping =>
      (match s.ring.consumer
       case CIdle => Consumer(PopLoadTail)
       case CHasTail(_) => Consumer(PopLoadHead(|s.ring.heads| - 1))
       case CHasBoth(tail, head) => if tail == head then Consumer(PopEmpty) else Consumer(TakeSlot(""))
       case CTook(_, _) => Consumer(StoreTail))
    case Holding(_) => Broadcast
    case Broadcasted(_) => ReadRecorder(s.attached)
    case _ => Tee
  }

  /** Steps left: ten for each record in the ring, and those of the current turn. */
  function Rank(s: Pipeline): int {
    10 * (RingProtocol.H(s.ring) - RingProtocol.T(s.ring))
    + match s.pc
      case Checking => 6
      case Popping =>
        (match s.ring.consumer
         case CIdle => 5
         case CHasTail(_) => 4
         case CHasBoth(_, _) => 3
         case CTook(_, _) => 2)
        + (if s.draining then 0 else 8)
      case Holding(_) => 9
      case Broadcasted(_) => 8
      case Teeing(_, _) => 7
      case Finished => 0
  }

  /** The first broadcast that the recorder is still to be asked about. */
  function Unasked(s: Pipeline): int {
    if s.pc.Broadcasted? then |s.broadcast| - 1 else |s.broadcast|
  }

  lemma PopNext(r: Ring, a: Action)
    requires RingProtocol.Inv(r)
    requires a == match r.consumer
                  case CIdle => PopLoadTail
                  case CHasTail(_) => PopLoadHead(|r.heads| - 1)
                  case CHasBoth(tail, head) => if tail == head then PopEmpty else TakeSlot("")
                  case CTook(_, _) => StoreTail
    ensures RingProtocol.Enabled(r, a) && IsConsumer(a)
    ensures var t := RingProtocol.Apply(r, a);
            && t.heads == r.heads && t.accepted == r.accepted && t.producers == r.producers
            && RingProtocol.T(t) == RingProtocol.T(r) + (if a.StoreTail? then 1 else 0)
            && (a.PopLoadTail? ==> t.consumer.CHasTail?) && (a.TakeSlot? ==> t.consumer.CTook?)
            && (a.PopLoadHead? ==> t.consumer.CHasBoth? && t.seenHead == RingProtocol.H(r))
            && (a.PopEmpty? ==> t.consumer.CIdle? && t.seenHead == r.seenHead == RingProtocol.T(r))
  {
    hide Bits.BitAnd, Bits.Pow2, SlotOf;
    if r.consumer.CHasBoth? { RingProtocol.ConsumerAgrees(r); }
  }

  lemma NextIsPossible(s: Pipeline)
    requires PipelineInv(s) && s.stopped && !s.pc.Finished?
    ensures |s.ring.heads| > 0 && Can(s, Next(s)) && OfWriter(Next(s))
    ensures var t := Do(s, Next(s));
            && 0 <= Rank(t) < Rank(s) && t.stopped && t.ring.accepted == s.ring.accepted && t.attached == s.attached
            && (TooLate(t) ==> TooLate(s))
            && (t.pc.Finished? && !TooLate(s) ==> RingProtocol.T(t.ring) == RingProtocol.H(t.ring))
            && Unasked(t) >= Unasked(s)
            && (s.sawRecorder && s.attached ==> t.sawRecorder && t.teeFrom == s.teeFrom)
            && (s.attached && Unasked(t) > Unasked(s) ==> t.sawRecorder && t.teeFrom <= Unasked(s))
  {
    hide IsSubseq, InFlight, Frame;
    assert 0 <= RingProtocol.T(s.ring) <= RingProtocol.H(s.ring);
    if s.pc.Popping? {
      PopStepCounts(s);
    } else {
      hide RingProtocol.Inv;
      OtherStepCounts(s);
    }
  }

  lemma PopStepCounts(s: Pipeline)
    requires PipelineInv(s) && s.stopped && s.pc.Popping?
    ensures |s.ring.heads| > 0 && Can(s, Next(s)) && OfWriter(Next(s))
    ensures var t := Do(s, Next(s));
            && 0 <= Rank(t) < Rank(s) && t.stopped && t.ring.accepted == s.ring.accepted && t.attached == s.attached
            && (TooLate(t) ==> TooLate(s))
            && (t.pc.Finished? && !TooLate(s) ==> RingProtocol.T(t.ring) == RingProtocol.H(t.ring))
            && Unasked(t) == Unasked(s) && t.sawRecorder == s.sawRecorder && t.teeFrom == s.teeFrom
  {
    var a := Next(s).a;
    PopNext(s.ring, a);
    assert 0 <= RingProtocol.T(s.ring) <= RingProtocol.H(s.ring);
    assert s.ring.consumer.CTook? ==> RingProtocol.T(s.ring) < RingProtocol.H(s.ring);
    hide RingProtocol.Inv, RingProtocol.Apply, RingProtocol.Enabled, Submissions, Popped, Recorded, Stopping, IsConsumer;
  }

  lemma OtherStepCounts(s: Pipeline)
    requires PipelineInv(s) && s.stopped && !s.pc.Finished? && !s.pc.Popping?
    requires |s.ring.heads| > 0 && 0 <= RingProtocol.T(s.ring) <= RingProtocol.H(s.ring)
    ensures Can(s, Next(s)) && OfWriter(Next(s))
    ensures var t := Do(s, Next(s));
            && 0 <= Rank(t) < Rank(s) && t.stopped && t.ring.accepted == s.ring.accepted && t.attached == s.attached
            && !TooLate(t) && !t.pc.Finished?
            && Unasked(t) >= Unasked(s)
            && (s.sawRecorder && s.attached ==> t.sawRecorder && t.teeFrom == s.teeFrom)
            && (s.attached && Unasked(t) > Unasked(s) ==> t.sawRecorder && t.teeFrom <= Unasked(s))
  {
    hide IsSubseq, InFlight, Frame, RingProtocol.Inv, RingProtocol.Apply, RingProtocol.Enabled;
    assert s.ring.consumer.CIdle?;
    hide Submissions;
  }

  /** Once _running is false the writer can always finish by itself, from whatever state it is in: it looks at _running again, drains
      and stops. If it is not too late, everything accepted by then is broadcast; and if a recorder is attached, it is given every
      broadcast from the first one it was not yet asked about. */
  lemma {:induction false} Finish(s: Pipeline) returns (events: seq<Event>, t: Pipeline)
    requires PipelineInv(s) && s.stopped
    ensures Happens(s, events, t) && PipelineInv(t) && t.pc.Finished? && forall e | e in events :: OfWriter(e)
    ensures t.ring.accepted == s.ring.accepted && |t.broadcast| >= Unasked(s)
    ensures !s.pc.Finished? && !TooLate(s) ==> t.broadcast == t.ring.accepted
    ensures s.sawRecorder && s.attached ==> t.sawRecorder && t.teeFrom == s.teeFrom
    ensures s.attached && |t.broadcast| > Unasked(s) ==>
              t.sawRecorder && t.teeFrom <= Unasked(s) && t.recorded == t.broadcast[t.teeFrom..]
    decreases if s.pc.Finished? then 0 else Rank(s)
  {
    if s.pc.Finished? {
      events, t := [], s;
    } else {
      NextIsPossible(s);
      var e := Next(s);
      var m := Do(s, e);
      EventKeepsInv(s, e);
      SawBefore(s);
      SawBefore(m);
      hide PipelineInv, Can, Do, Rank, Next, TooLate, Unasked, OfWriter;
      var rest;
      rest, t := Finish(m);
      events := [e] + rest;
      assert events[1..] == rest;
      if t.sawRecorder { RecordedAtEnd(t); }
      if m.pc.Finished? && !TooLate(s) { AllBroadcast(t); }
    }
  }

  /** A recorder attached after Stop is still given every broadcast it was not yet asked about. */
  lemma AttachThenFinish(s: Pipeline) returns (events: seq<Event>, t: Pipeline)
    requires PipelineInv(s) && s.stopped && Can(s, Attach) && !s.pc.Finished?
    ensures Happens(s, [Attach] + events, t) && t.pc.Finished? && forall e | e in events :: OfWriter(e)
    ensures |t.broadcast| > Unasked(s) ==> t.sawRecorder && t.recorded == t.broadcast[Unasked(s)..]
  {
    var m := Do(s, Attach);
    EventKeepsInv(s, Attach);
    NotSeenYet(s);
    hide PipelineInv, Unasked, OfWriter, Can, Do;
    events, t := Finish(m);
    assert ([Attach] + events)[1..] == events;
    if |t.broadcast| > Unasked(s) { FirstAsked(m, events, t); }
  }

  lemma NotSeenYet(s: Pipeline)
    requires PipelineInv(s) && Can(s, Attach)
    ensures !s.sawRecorder && Unasked(s) >= 0
    ensures var m := Do(s, Attach);
            Unasked(m) == Unasked(s) && m.stopped == s.stopped && m.attached && !m.sawRecorder && m.pc == s.pc
  {
    hide RingProtocol.Inv, IsSubseq;
  }

  /** The recorder is first seen when it is asked about, not before. */
  lemma {:induction false} FirstAsked(s: Pipeline, events: seq<Event>, t: Pipeline)
    requires PipelineInv(s) && Happens(s, events, t) && !s.sawRecorder
    ensures t.sawRecorder ==> t.teeFrom >= Unasked(s)
    decreases |events|
  {
    if events != [] {
      var m := Do(s, events[0]);
      AskedStep(s, events[0]);
      EventKeepsInv(s, events[0]);
      if m.sawRecorder {
        hide PipelineInv, Can, Do, Unasked;
        TeeFromStays(m, events[1..], t);
      } else {
        hide PipelineInv, Can, Do, Unasked;
        FirstAsked(m, events[1..], t);
      }
    }
  }

  lemma AskedStep(s: Pipeline, e: Event)
    requires PipelineInv(s) && Can(s, e) && !s.sawRecorder
    ensures var m := Do(s, e);
            Unasked(m) >= Unasked(s) && (m.sawRecorder ==> m.teeFrom >= Unasked(s))
  {
    hide RingProtocol.Inv, RingProtocol.Enabled, RingProtocol.Apply, IsSubseq, Frame, InFlight;
  }

  lemma {:induction false} TeeFromStays(s: Pipeline, events: seq<Event>, t: Pipeline)
    requires PipelineInv(s) && Happens(s, events, t) && s.sawRecorder
    ensures t.sawRecorder && t.teeFrom == s.teeFrom
    decreases |events|
  {
    if events != [] {
      TeeFromStep(s, events[0]);
      EventKeepsInv(s, events[0]);
      hide PipelineInv, Can, Do;
      TeeFromStays(Do(s, events[0]), events[1..], t);
    }
  }

  lemma TeeFromStep(s: Pipeline, e: Event)
    requires PipelineInv(s) && Can(s, e) && s.sawRecorder
    ensures Do(s, e).sawRecorder && Do(s, e).teeFrom == s.teeFrom
  {
    hide RingProtocol.Inv, RingProtocol.Enabled, RingProtocol.Apply, IsSubseq, Frame, InFlight;
  }

  lemma SawBefore(s: Pipeline)
    requires PipelineInv(s)
    ensures s.sawRecorder ==> s.attached && s.teeFrom <= Unasked(s)
    ensures Unasked(s) >= 0 && (s.pc.Finished? ==> Unasked(s) == |s.broadcast|)
  {
    hide RingProtocol.Inv, IsSubseq;
  }

  lemma RecordedAtEnd(t: Pipeline)
    requires PipelineInv(t) && t.pc.Finished? && t.sawRecorder
    ensures t.teeFrom <= |t.broadcast| && t.recorded == t.broadcast[t.teeFrom..]
  {
    hide RingProtocol.Inv, IsSubseq;
  }

  lemma AllBroadcast(t: Pipeline)
    requires PipelineInv(t) && t.pc.Finished? && RingProtocol.T(t.ring) == RingProtocol.H(t.ring)
    ensures t.broadcast == t.ring.accepted
  {
    assert t.broadcast + [] == t.broadcast;
  }

  /** And only then: if it is too late, whatever the writer does by itself leaves an accepted record behind. So from any state after
      Stop the writer alone can still broadcast everything accepted if and only if it is not too late. */
  lemma FinishIff(s: Pipeline)
    requires PipelineInv(s) && s.stopped && !s.pc.Finished?
    ensures (exists events, t :: Happens(s, events, t) && t.pc.Finished? && (forall e | e in events :: OfWriter(e))
                                 && t.broadcast == t.ring.accepted)
        <==> !TooLate(s)
  {
    if TooLate(s) {
      forall events, t | Happens(s, events, t) && t.pc.Finished? && forall e | e in events :: OfWriter(e)
        ensures t.broadcast != t.ring.accepted
      {
        LeftBehind(s, events, t);
      }
    } else {
      var events, t := Finish(s);
      hide Happens, PipelineInv, TooLate;
      assert Happens(s, events, t);
    }
  }

  lemma LeftBehind(s: Pipeline, events: seq<Event>, t: Pipeline)
    requires PipelineInv(s) && TooLate(s) && Happens(s, events, t) && t.pc.Finished?
    requires forall e | e in events :: OfWriter(e)
    ensures t.broadcast != t.ring.accepted
  {
    assert events != [];
    OnlyEmpty(s, events[0]);
    var m := Do(s, events[0]);
    hide PipelineInv;
    assert forall i | 0 <= i < |events[1..]| :: events[1..][i] in events;
    FinishedStays(m, events[1..], t);
  }

  lemma FinishedStays(s: Pipeline, events: seq<Event>, t: Pipeline)
    requires s.pc.Finished? && Happens(s, events, t) && forall i | 0 <= i < |events| :: OfWriter(events[i])
    ensures events == [] && t == s
  {
  }

  lemma OnlyEmpty(s: Pipeline, e: Event)
    requires PipelineInv(s) && TooLate(s) && Can(s, e) && OfWriter(e)
    ensures e == Consumer(PopEmpty)
    ensures var t := Do(s, e); t.pc.Finished? && t.broadcast == s.broadcast && |t.broadcast| < |t.ring.accepted|
  {
    hide IsSubseq, InFlight, Frame;
    RingProtocol.ConsumerAgrees(s.ring);
    assert s.broadcast + [] == s.broadcast;
    assert |s.ring.popped| == RingProtocol.T(s.ring) && |s.ring.accepted| == RingProtocol.H(s.ring);
  }
}
