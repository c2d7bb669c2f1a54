/** The ring of `plugin/src/transport/ring_buffer.h` as its threads interleave.

    Every load, store and slot access of TryPush and TryPop is a step of its own. A counter is kept
    as its modification order, the list of all values it ever had. A thread loads its own counter
    exactly, but a load of the other side's counter may return any value of that order, as long as it is
    not older than one this thread has already seen: that is what an acquire load of a 64-bit atomic
    promises. The number of producers is a parameter; the class promises to work for one. */
module RingProtocol {
  import opened Bits
  import opened RingBuffer

  datatype Producer =
    | PIdle
    | PCalled(record: string)
    | PHasHead(record: string, head: Word)
    | PHasBoth(record: string, head: Word, tail: Word)
    | PWrote(record: string, head: Word)

  datatype Consumer =
    | CIdle
    | CHasTail(tail: Word)
    | CHasBoth(tail: Word, head: Word)
    | CTook(tail: Word, record: string)

  datatype Ring = Ring(
    log: nat,                  // capacity == 2^log
    slots: seq<string>,
    heads: seq<Word>,          // modification order of _head
    tails: seq<Word>,          // modification order of _tail
    producers: seq<Producer>,
    seenTail: seq<nat>,        // per producer: newest entry of `tails` it has read
    consumer: Consumer,
    seenHead: nat,             // newest entry of `heads` the consumer has read
    dropped: nat,
    accepted: seq<string>,     // history: records whose push returned true
    popped: seq<string>        // history: records whose pop returned true
  )

  datatype Action =
    | CallPush(p: nat, record: string)
    | LoadHead(p: nat)
    | LoadTail(p: nat, i: nat)
    | Reject(p: nat)
    | WriteSlot(p: nat)
    | StoreHead(p: nat)
    | PopLoadTail
    | PopLoadHead(i: nat)
    | PopEmpty
    | TakeSlot(junk: string)
    | StoreTail

  function Init(log: nat, producers: nat): Ring {
    Ring(log, seq(Pow2(log), _ => ""), [0], [0],
         seq(producers, _ => PIdle), seq(producers, _ => 0), CIdle, 0, 0, [], [])
  }

  predicate Enabled(s: Ring, a: Action) {
    && |s.slots| == Pow2(s.log) && s.heads != [] && s.tails != [] && |s.seenTail| == |s.producers|
    && match a
       case CallPush(p, _) => p < |s.producers| && s.producers[p].PIdle?
       case LoadHead(p) => p < |s.producers| && s.producers[p].PCalled?
       case LoadTail(p, i) => p < |s.producers| && s.producers[p].PHasHead? && s.seenTail[p] <= i < |s.tails|
       case Reject(p) => p < |s.producers| && s.producers[p].PHasBoth? && Full(s, p)
       case WriteSlot(p) => p < |s.producers| && s.producers[p].PHasBoth? && !Full(s, p)
       case StoreHead(p) => p < |s.producers| && s.producers[p].PWrote?
       case PopLoadTail => s.consumer.CIdle?
       case PopLoadHead(i) => s.consumer.CHasTail? && s.seenHead <= i < |s.heads|
       case PopEmpty => s.consumer.CHasBoth? && s.consumer.tail == s.consumer.head
       case TakeSlot(_) => s.consumer.CHasBoth? && s.consumer.tail != s.consumer.head
       case StoreTail => s.consumer.CTook?
  }

  /** The overflow test of TryPush, on the two values it loaded. */
  predicate Full(s: Ring, p: nat)
    requires p < |s.producers| && s.producers[p].PHasBoth?
  {
    Sub(s.producers[p].head, s.producers[p].tail) >= Pow2(s.log)
  }

  function Apply(s: Ring, a: Action): Ring
    requires Enabled(s, a)
  {
    match a
    case CallPush(p, r) => s.(producers := s.producers[p := PCalled(r)])
    case LoadHead(p) =>
      s.(producers := s.producers[p := PHasHead(s.producers[p].record, s.heads[|s.heads| - 1])])
    case LoadTail(p, i) =>
      s.(producers := s.producers[p := PHasBoth(s.producers[p].record, s.producers[p].head, s.tails[i])],
         seenTail := s.seenTail[p := i])
    case Reject(p) => s.(producers := s.producers[p := PIdle], dropped := s.dropped + 1)
    case WriteSlot(p) =>
      s.(slots := s.slots[BitAnd(s.producers[p].head, Pow2(s.log) - 1) := s.producers[p].record],
         producers := s.producers[p := PWrote(s.producers[p].record, s.producers[p].head)])
    case StoreHead(p) =>
      s.(heads := s.heads + [Inc(s.producers[p].head)], producers := s.producers[p := PIdle],
         accepted := s.accepted + [s.producers[p].record])
    case PopLoadTail => s.(consumer := CHasTail(s.tails[|s.tails| - 1]))
    case PopLoadHead(i) => s.(consumer := CHasBoth(s.consumer.tail, s.heads[i]), seenHead := i)
    case PopEmpty => s.(consumer := CIdle)
    case TakeSlot(junk) =>
      var j := BitAnd(s.consumer.tail, Pow2(s.log) - 1);
      s.(slots := s.slots[j := junk], consumer := CTook(s.consumer.tail, s.slots[j]))
    case StoreTail =>
      s.(tails := s.tails + [Inc(s.consumer.tail)], consumer := CIdle,
         popped := s.popped + [s.consumer.record])
  }

  /** s --acts--> t, every action enabled when it is taken. */
  ghost predicate Run(s: Ring, acts: seq<Action>, t: Ring)
    decreases |acts|
  {
    if acts == [] then s == t
    else Enabled(s, acts[0]) && Run(Apply(s, acts[0]), acts[1..], t)
  }

  // ----- the invariant, for one producer -----

  function H(s: Ring): int { |s.heads| - 1 }
  function T(s: Ring): int { |s.tails| - 1 }

  /** First position whose record is still in its slot. */
  function Lo(s: Ring): int { if s.consumer.CTook? then T(s) + 1 else T(s) }

  ghost predicate Counters(s: Ring) {
    && s.log <= 63 && |s.slots| == Pow2(s.log) && |s.producers| == |s.seenTail| == 1
    && 0 <= s.seenTail[0] <= T(s) <= s.seenHead <= H(s) <= s.seenTail[0] + Pow2(s.log)
    && (forall i | 0 <= i < |s.heads| :: s.heads[i] == i % WORD)
    && (forall i | 0 <= i < |s.tails| :: s.tails[i] == i % WORD)
  }

  ghost predicate Memory(s: Ring)
    requires Counters(s)
  {
    && |s.accepted| == H(s) && s.popped == s.accepted[..T(s)]
    && forall n: nat | Lo(s) <= n < H(s) :: s.slots[SlotOf(n, Pow2(s.log))] == s.accepted[n]
  }

  ghost predicate ProducerInv(s: Ring)
    requires Counters(s)
  {
    match s.producers[0]
    case PIdle => true
    case PCalled(_) => true
    case PHasHead(_, h) => h == H(s) % WORD
    case PHasBoth(_, h, t) => h == H(s) % WORD && t == s.seenTail[0] % WORD
    case PWrote(r, h) =>
      && h == H(s) % WORD && H(s) < s.seenTail[0] + Pow2(s.log)
      && s.slots[SlotOf(H(s), Pow2(s.log))] == r
  }

  ghost predicate ConsumerInv(s: Ring)
    requires Counters(s) && Memory(s)
  {
    match s.consumer
    case CIdle => true
    case CHasTail(t) => t == T(s) % WORD
    case CHasBoth(t, h) => t == T(s) % WORD && h == s.seenHead % WORD
    case CTook(t, r) => t == T(s) % WORD && T(s) < s.seenHead && r == s.accepted[T(s)]
  }

  ghost predicate Inv(s: Ring) {
    Counters(s) && Memory(s) && ProducerInv(s) && ConsumerInv(s)
  }

  lemma InitInv(log: nat)
    requires log <= 63
    ensures Inv(Init(log, 1))
  {
  }

  /** The tests and slot indices the code computes from wrapped counters are those of unbounded ones. */
  lemma WrappedAgrees(s: Ring)
    requires Counters(s) && ProducerInv(s) && Memory(s) && ConsumerInv(s)
    ensures s.producers[0].PHasBoth? ==>
              && Full(s, 0) == (H(s) == s.seenTail[0] + Pow2(s.log))
              && BitAnd(s.producers[0].head, Pow2(s.log) - 1) == SlotOf(H(s), Pow2(s.log))
    ensures s.consumer.CHasBoth? ==>
              && (s.consumer.tail == s.consumer.head <==> T(s) == s.seenHead)
              && BitAnd(s.consumer.tail, Pow2(s.log) - 1) == SlotOf(T(s), Pow2(s.log))
  {
    hide ProducerInv, Memory, ConsumerInv, Full;
    if s.producers[0].PHasBoth? { ProducerAgrees(s); }
    if s.consumer.CHasBoth? { ConsumerAgrees(s); }
  }

  lemma ProducerAgrees(s: Ring)
    requires Counters(s) && ProducerInv(s) && s.producers[0].PHasBoth?
    ensures Full(s, 0) == (H(s) == s.seenTail[0] + Pow2(s.log))
    ensures BitAnd(s.producers[0].head, Pow2(s.log) - 1) == SlotOf(H(s), Pow2(s.log))
  {
    hide Pow2, BitAnd;
    WordFactor(s.log);
    SubAgrees(H(s), s.seenTail[0]);
    MaskAgrees(H(s), s.log);
    hide Sub;
  }

  lemma ConsumerAgrees(s: Ring)
    requires Counters(s) && Memory(s) && ConsumerInv(s) && s.consumer.CHasBoth?
    ensures s.consumer.tail == s.consumer.head <==> T(s) == s.seenHead
    ensures BitAnd(s.consumer.tail, Pow2(s.log) - 1) == SlotOf(T(s), Pow2(s.log))
  {
    hide Pow2, BitAnd, Memory;
    WordFactor(s.log);
    SubAgrees(s.seenHead, T(s));
    MaskAgrees(T(s), s.log);
  }

  predicate Pushes(a: Action) {
    a.CallPush? || a.LoadHead? || a.LoadTail? || a.Reject? || a.WriteSlot? || a.StoreHead?
  }

  lemma StepKeepsInv(s: Ring, a: Action)
    requires Inv(s) && Enabled(s, a)
    ensures Inv(Apply(s, a))
  {
    hide Inv, Enabled, Apply;
    if Pushes(a) { PushKeepsInv(s, a); } else { PopKeepsInv(s, a); }
  }

  lemma PushKeepsInv(s: Ring, a: Action)
    requires Inv(s) && Enabled(s, a) && Pushes(a)
    ensures Inv(Apply(s, a))
  {
    hide SlotOf, BitAnd, Pow2;
    if a.WriteSlot? {
      WriteKeepsInv(s);
    } else if a.StoreHead? {
      StoreKeepsInv(s);
    }
  }

  lemma WriteKeepsInv(s: Ring)
    requires Inv(s) && Enabled(s, WriteSlot(0))
    ensures Inv(Apply(s, WriteSlot(0)))
  {
    hide SlotOf, BitAnd, Pow2;
    ProducerAgrees(s);
    forall n: nat | Lo(s) <= n < H(s) ensures SlotOf(n, Pow2(s.log)) != SlotOf(H(s), Pow2(s.log)) {
      SlotsDistinct(n, H(s), Pow2(s.log));
    }
  }

  lemma StoreKeepsInv(s: Ring)
    requires Inv(s) && Enabled(s, StoreHead(0))
    ensures Inv(Apply(s, StoreHead(0)))
  {
    hide SlotOf, BitAnd, Pow2, Inc;
    IncAgrees(H(s));
  }

  lemma PopKeepsInv(s: Ring, a: Action)
    requires Inv(s) && Enabled(s, a) && !Pushes(a)
    ensures Inv(Apply(s, a))
  {
    hide SlotOf, BitAnd, Pow2;
    WrappedAgrees(s);
    if a.TakeSlot? {
      forall n: nat | T(s) < n < H(s) ensures SlotOf(n, Pow2(s.log)) != SlotOf(T(s), Pow2(s.log)) {
        SlotsDistinct(T(s), n, Pow2(s.log));
      }
      if s.producers[0].PWrote? { SlotsDistinct(T(s), H(s), Pow2(s.log)); }
    } else if a.StoreTail? {
      IncAgrees(T(s));
    }
  }

  /** TryPop reports an empty ring only when it has popped everything up to the head it loaded. */
  lemma EmptyMeansCaughtUp(s: Ring)
    requires Inv(s) && Enabled(s, PopEmpty)
    ensures T(s) == s.seenHead && s.popped == s.accepted[..s.seenHead]
  {
    WrappedAgrees(s);
  }

  /** Learning of newer pushes by other means than a load, between two pops. */
  lemma RaiseView(s: Ring, v: nat)
    requires Inv(s) && s.consumer.CIdle? && s.seenHead <= v <= |s.accepted|
    ensures Inv(s.(seenHead := v))
  {
  }

  // ----- refinement of a bounded FIFO -----

  datatype Fifo = Fifo(queue: seq<string>, popped: seq<string>, drops: nat)

  datatype FifoOp = Enqueue(record: string) | Dequeue | DropNew | Stutter

  predicate FifoEnabled(capacity: nat, f: Fifo, op: FifoOp) {
    match op
    case Enqueue(_) => |f.queue| < capacity
    case Dequeue => f.queue != []
    case DropNew => true
    case Stutter => true
  }

  function FifoApply(capacity: nat, f: Fifo, op: FifoOp): Fifo
    requires FifoEnabled(capacity, f, op)
  {
    match op
    case Enqueue(r) => f.(queue := f.queue + [r])
    case Dequeue => f.(queue := f.queue[1..], popped := f.popped + [f.queue[0]])
    case DropNew => f.(drops := f.drops + 1)
    case Stutter => f
  }

  ghost predicate FifoRun(capacity: nat, f: Fifo, ops: seq<FifoOp>, g: Fifo)
    decreases |ops|
  {
    if ops == [] then f == g
    else FifoEnabled(capacity, f, ops[0]) && FifoRun(capacity, FifoApply(capacity, f, ops[0]), ops[1..], g)
  }

  /** The queue is read out of the slots between the two counters; a record the consumer has already
      moved out but not yet released still counts as queued. */
  ghost function Abs(s: Ring): Fifo
    requires Inv(s)
  {
    var n := H(s) - T(s);
    Fifo(if s.consumer.CTook? then [s.consumer.record] + Live(s.slots, T(s) + 1, n - 1)
         else Live(s.slots, T(s), n),
         s.popped, s.dropped)
  }

  /** A push takes effect when it publishes the head, a pop when it publishes the tail. */
  function OpOf(s: Ring, a: Action): FifoOp
    requires Enabled(s, a)
  {
    match a
    case StoreHead(p) => Enqueue(s.producers[p].record)
    case StoreTail => Dequeue
    case Reject(_) => DropNew
    case _ => Stutter
  }

  function OpsOf(s: Ring, acts: seq<Action>): seq<FifoOp>
    decreases |acts|
  {
    if acts == [] || !Enabled(s, acts[0]) then []
    else [OpOf(s, acts[0])] + OpsOf(Apply(s, acts[0]), acts[1..])
  }

  /** Nothing accepted is lost, duplicated or reordered: what the slots hold is what was accepted and not yet popped. */
  lemma QueueIsAcceptedNotPopped(s: Ring)
    requires Inv(s)
    ensures Abs(s).queue == s.accepted[T(s)..]
    ensures s.accepted == s.popped + Abs(s).queue
    ensures |Abs(s).queue| <= Pow2(s.log)
  {
    hide SlotOf, Pow2;
    var q := Abs(s).queue;
    assert |q| == H(s) - T(s);
    forall i | 0 <= i < |q| ensures q[i] == s.accepted[T(s) + i] {
      if s.consumer.CTook? && i > 0 {
        assert q[i] == Live(s.slots, T(s) + 1, H(s) - T(s) - 1)[i - 1];
        assert (T(s) + 1) + (i - 1) == T(s) + i;
      }
    }
  }

  lemma StepRefinesFifo(s: Ring, a: Action)
    requires Inv(s) && Enabled(s, a)
    ensures Inv(Apply(s, a))
    ensures FifoEnabled(Pow2(s.log), Abs(s), OpOf(s, a))
    ensures Abs(Apply(s, a)) == FifoApply(Pow2(s.log), Abs(s), OpOf(s, a))
  {
    hide *;
    var t := Apply(s, a);
    StepKeepsInv(s, a);
    Effect(s, a);
    AbsIs(s);
    AbsIs(t);
    OpIs(s, a);
    QueueFollows(Pow2(s.log), s.accepted, T(s), s.popped, s.dropped, t.accepted, T(t), t.popped, t.dropped, OpOf(s, a));
  }

  lemma OpIs(s: Ring, a: Action)
    requires Inv(s) && Enabled(s, a)
    ensures var op := OpOf(s, a);
            && |s.producers| == 1 && (op.Enqueue? <==> a.StoreHead?) && (op.Dequeue? <==> a.StoreTail?) && (op.DropNew? <==> a.Reject?)
            && (a.StoreHead? ==> a.p == 0 && !s.producers[0].PIdle? && op.record == s.producers[0].record)
  {
    hide SlotOf, BitAnd, Pow2, Memory, ConsumerInv;
  }

  /** The FIFO's side of a step, on the histories. */
  lemma QueueFollows(capacity: nat, accepted: seq<string>, n: nat, popped: seq<string>, drops: nat,
                     accepted': seq<string>, n': nat, popped': seq<string>, drops': nat, op: FifoOp)
    requires n <= |accepted| && n' == n + (if op.Dequeue? then 1 else 0)
    requires op.Dequeue? ==> n < |accepted|
    requires op.Enqueue? ==> |accepted| - n < capacity
    requires accepted' == if op.Enqueue? then accepted + [op.record] else accepted
    requires popped' == if op.Dequeue? then popped + [accepted[n]] else popped
    requires drops' == drops + (if op.DropNew? then 1 else 0)
    ensures var f := Fifo(accepted[n..], popped, drops);
            FifoEnabled(capacity, f, op) && FifoApply(capacity, f, op) == Fifo(accepted'[n'..], popped', drops')
  {
    if op.Dequeue? {
      assert accepted[n..][1..] == accepted[n'..];
    } else if op.Enqueue? {
      assert accepted'[n..] == accepted[n..] + [op.record];
    }
  }

  lemma AbsIs(s: Ring)
    requires Inv(s)
    ensures 0 <= T(s) <= |s.accepted|
    ensures Abs(s) == Fifo(s.accepted[T(s)..], s.popped, s.dropped)
  {
    QueueIsAcceptedNotPopped(s);
  }

  /** Which steps move a record or a counter. */
  lemma Effect(s: Ring, a: Action)
    requires Inv(s) && Enabled(s, a)
    ensures var t := Apply(s, a);
            && |s.producers| == 1 && t.log == s.log
            && t.accepted == (if a.StoreHead? then s.accepted + [s.producers[a.p].record] else s.accepted)
            && t.popped == (if a.StoreTail? then s.popped + [s.accepted[T(s)]] else s.popped)
            && T(t) == T(s) + (if a.StoreTail? then 1 else 0)
            && t.dropped == s.dropped + (if a.Reject? then 1 else 0)
            && (a.StoreHead? ==> |s.accepted| - T(s) < Pow2(s.log))
            && 0 <= T(s) <= |s.accepted| && (a.StoreTail? ==> T(s) < |s.accepted|)
  {
    hide SlotOf, BitAnd, Pow2;
  }

  /** In every interleaving of one producer and one consumer the ring behaves as a bounded FIFO. */
  lemma {:induction false} RunRefinesFifo(s: Ring, acts: seq<Action>, t: Ring)
    requires Inv(s) && Run(s, acts, t)
    ensures Inv(t) && t.log == s.log
    ensures FifoRun(Pow2(s.log), Abs(s), OpsOf(s, acts), Abs(t))
    decreases |acts|
  {
    if acts != [] {
      StepRefinesFifo(s, acts[0]);
      RunRefinesFifo(Apply(s, acts[0]), acts[1..], t);
    }
  }

  /** FIFO order and boundedness over whole runs from the empty ring. */
  lemma AcceptedIsPoppedThenLive(log: nat, acts: seq<Action>, t: Ring)
    requires log <= 63 && Run(Init(log, 1), acts, t)
    ensures Inv(t)
    ensures t.accepted == t.popped + Abs(t).queue
    ensures |Abs(t).queue| <= Pow2(log)
  {
    InitInv(log);
    RunRefinesFifo(Init(log, 1), acts, t);
    QueueIsAcceptedNotPopped(t);
  }

  /** The two sides never stand before the same slot, and each conflicting earlier access of a slot was
      published before: the writer has acquired the tail behind every previous occupant of its slot,
      the reader has acquired the head behind the record it takes. */
  lemma SlotAccessesAreOrdered(s: Ring)
    requires Inv(s)
    ensures Enabled(s, WriteSlot(0)) ==>
              && BitAnd(s.producers[0].head, Pow2(s.log) - 1) == SlotOf(H(s), Pow2(s.log))
              && forall n: nat | n < H(s) && SlotOf(n, Pow2(s.log)) == SlotOf(H(s), Pow2(s.log)) :: n < s.seenTail[0]
    ensures Enabled(s, TakeSlot("")) ==>
              && BitAnd(s.consumer.tail, Pow2(s.log) - 1) == SlotOf(T(s), Pow2(s.log))
              && T(s) < s.seenHead
    ensures Enabled(s, WriteSlot(0)) && Enabled(s, TakeSlot("")) ==>
              BitAnd(s.producers[0].head, Pow2(s.log) - 1) != BitAnd(s.consumer.tail, Pow2(s.log) - 1)
  {
    hide SlotOf, BitAnd, Pow2;
    WrappedAgrees(s);
    if Enabled(s, WriteSlot(0)) {
      forall n: nat | s.seenTail[0] <= n < H(s) ensures SlotOf(n, Pow2(s.log)) != SlotOf(H(s), Pow2(s.log)) {
        SlotsDistinct(n, H(s), Pow2(s.log));
      }
      if T(s) < H(s) { SlotsDistinct(T(s), H(s), Pow2(s.log)); }
    }
  }

  /** A push that loads the i-th tail is dropped exactly when the ring is full relative to that tail; if the load
      was fresh, the ring really was full at that moment. */
  lemma DropIffFullAtLoadedTail(s: Ring, i: nat)
    requires Inv(s) && Enabled(s, LoadTail(0, i))
    ensures Inv(Apply(s, LoadTail(0, i)))
    ensures Enabled(Apply(s, LoadTail(0, i)), Reject(0)) <==> H(s) - i == Pow2(s.log)
    ensures Enabled(Apply(s, LoadTail(0, i)), WriteSlot(0)) <==> H(s) - i < Pow2(s.log)
    ensures i == T(s) ==>
              (Enabled(Apply(s, LoadTail(0, i)), Reject(0)) <==> |Abs(s).queue| == Pow2(s.log))
  {
    hide SlotOf, BitAnd, Pow2;
    var t := Apply(s, LoadTail(0, i));
    StepKeepsInv(s, LoadTail(0, i));
    WrappedAgrees(t);
    AbsIs(s);
    assert t.producers[0].PHasBoth? && H(t) == H(s) == |s.accepted| && t.seenTail[0] == i && t.log == s.log;
    assert H(t) <= i + Pow2(t.log);
    assert Enabled(t, Reject(0)) <==> Full(t, 0);
    assert Enabled(t, WriteSlot(0)) <==> !Full(t, 0);
    hide Inv, Counters, Memory, ProducerInv, ConsumerInv, Apply, Abs, Enabled, Full;
  }

  // ----- one side running alone -----

  ghost predicate Step(s: Ring, a: Action, t: Ring) {
    Enabled(s, a) && t == Apply(s, a)
  }

  /** A whole push into a ring with room, nothing else happening. */
  lemma PushAlone(r: Ring, x: string) returns (r1: Ring, r2: Ring, r3: Ring, r4: Ring, r5: Ring)
    requires Inv(r) && r.producers[0].PIdle? && H(r) - T(r) < Pow2(r.log)
    ensures Step(r, CallPush(0, x), r1) && Step(r1, LoadHead(0), r2) && T(r) >= 0 && Step(r2, LoadTail(0, T(r)), r3)
    ensures Step(r3, WriteSlot(0), r4) && Step(r4, StoreHead(0), r5)
    ensures Inv(r5) && r5.producers == [PIdle] && r5.accepted == r.accepted + [x]
    ensures r5 == r.(slots := r5.slots, heads := r5.heads, producers := r5.producers, seenTail := r5.seenTail,
                     accepted := r5.accepted)
  {
    hide SlotOf, BitAnd, Pow2, Inc, Sub;
    r1 := Apply(r, CallPush(0, x));
    r2 := Apply(r1, LoadHead(0));
    r3 := Apply(r2, LoadTail(0, T(r)));
    StepKeepsInv(r, CallPush(0, x));
    StepKeepsInv(r1, LoadHead(0));
    StepKeepsInv(r2, LoadTail(0, T(r)));
    StoreAlone(r3);
    r4 := Apply(r3, WriteSlot(0));
    r5 := Apply(r4, StoreHead(0));
  }

  lemma StoreAlone(r: Ring)
    requires Inv(r) && r.producers[0].PHasBoth? && H(r) < r.seenTail[0] + Pow2(r.log)
    ensures Enabled(r, WriteSlot(0))
    ensures var r1 := Apply(r, WriteSlot(0));
            && Enabled(r1, StoreHead(0))
            && var r2 := Apply(r1, StoreHead(0));
               && Inv(r2) && r2.producers == [PIdle] && r2.accepted == r.accepted + [r.producers[0].record]
               && r2 == r.(slots := r2.slots, heads := r2.heads, producers := r2.producers, accepted := r2.accepted)
  {
    hide SlotOf, BitAnd, Pow2, Inc, Sub;
    ProducerAgrees(r);
    StepKeepsInv(r, WriteSlot(0));
    StepKeepsInv(Apply(r, WriteSlot(0)), StoreHead(0));
  }

  /** A whole pop from a ring with something in it. */
  lemma PopAlone(r: Ring) returns (r1: Ring, r2: Ring, r3: Ring, r4: Ring)
    requires Inv(r) && r.consumer.CIdle? && T(r) < H(r)
    ensures Step(r, PopLoadTail, r1) && Step(r1, PopLoadHead(H(r)), r2) && Step(r2, TakeSlot(""), r3) && Step(r3, StoreTail, r4)
    ensures r1.consumer.CHasTail? && r2.consumer.CHasBoth? && r3.consumer.CTook?
    ensures Inv(r4) && r4.consumer.CIdle? && T(r4) == T(r) + 1
    ensures r4 == r.(slots := r4.slots, tails := r4.tails, consumer := r4.consumer, seenHead := r4.seenHead, popped := r4.popped)
  {
    hide SlotOf, BitAnd, Pow2, Inc, Sub;
    r1 := Apply(r, PopLoadTail);
    r2 := Apply(r1, PopLoadHead(H(r)));
    StepKeepsInv(r, PopLoadTail);
    StepKeepsInv(r1, PopLoadHead(H(r)));
    TakeAlone(r2);
    r3 := Apply(r2, TakeSlot(""));
    r4 := Apply(r3, StoreTail);
  }

  lemma TakeAlone(r: Ring)
    requires Inv(r) && r.consumer.CHasBoth? && T(r) < r.seenHead
    ensures Enabled(r, TakeSlot(""))
    ensures var r1 := Apply(r, TakeSlot(""));
            && r1.consumer.CTook? && Enabled(r1, StoreTail)
            && var r2 := Apply(r1, StoreTail);
               && Inv(r2) && r2.consumer.CIdle? && T(r2) == T(r) + 1
               && r2 == r.(slots := r2.slots, tails := r2.tails, consumer := r2.consumer, popped := r2.popped)
  {
    hide SlotOf, BitAnd, Pow2, Inc, Sub;
    ConsumerAgrees(r);
    StepKeepsInv(r, TakeSlot(""));
    StepKeepsInv(Apply(r, TakeSlot("")), StoreTail);
  }

  /** A look at an empty ring leaves it as it was. */
  lemma LookAlone(r: Ring) returns (r1: Ring, r2: Ring)
    requires Inv(r) && r.consumer.CIdle? && T(r) == H(r)
    ensures Step(r, PopLoadTail, r1) && H(r) >= 0 && Step(r1, PopLoadHead(H(r)), r2) && Step(r2, PopEmpty, r)
    ensures r1.consumer.CHasTail? && r2.consumer.CHasBoth?
  {
    hide SlotOf, BitAnd, Pow2, Inc, Sub;
    r1 := Apply(r, PopLoadTail);
    r2 := Apply(r1, PopLoadHead(H(r)));
    StepKeepsInv(r, PopLoadTail);
    StepKeepsInv(r1, PopLoadHead(H(r)));
    ConsumerAgrees(r2);
  }

  // ----- why one producer -----

  lemma {:induction false} RunSnoc(s: Ring, acts: seq<Action>, t: Ring, a: Action)
    requires Run(s, acts, t) && Enabled(t, a)
    ensures Run(s, acts + [a], Apply(t, a))
    decreases |acts|
  {
    if acts == [] {
      assert Run(Apply(t, a), [], Apply(t, a));
      assert [a][1..] == [];
    } else {
      RunSnoc(Apply(s, acts[0]), acts[1..], t, a);
      assert (acts + [a])[1..] == acts[1..] + [a];
    }
  }

  /** Two or more producers, whatever the capacity: two that load the same head both report success for one slot, so the ring
      accepts two records, hands out only the second, and is empty. */
  lemma TwoProducersLoseARecord(log: nat, n: nat) returns (acts: seq<Action>, t: Ring)
    requires log <= 63 && n >= 2
    ensures Run(Init(log, n), acts, t)
    ensures t.accepted == ["a", "b"] && t.popped == ["b"] && t.dropped == 0
    ensures |t.producers| == n && (forall p: nat | p < n :: t.producers[p].PIdle?) && Enabled(t, PopEmpty) && t.seenHead == H(t)
  {
    var s := Init(log, n);
    var u;
    acts, u := PopOne(log, n);
    hide Run, Init;
    MaskZero(log);
    acts, t := Extend(s, acts, u, PopLoadTail, u.(consumer := CHasTail(1)));
    acts, t := Extend(s, acts, t, PopLoadHead(2), t.(consumer := CHasBoth(1, 1)));
  }

  lemma PopOne(log: nat, n: nat) returns (acts: seq<Action>, t: Ring)
    requires log <= 63 && n >= 2
    ensures Run(Init(log, n), acts, t)
    ensures |t.slots| == Pow2(t.log) && t.heads == [0, 1, 1] && t.tails == [0, 1]
    ensures |t.producers| == |t.seenTail| == n && (forall p: nat | p < n :: t.producers[p] == PIdle)
    ensures t.consumer == CIdle && t.seenHead == 2 && t.dropped == 0 && t.accepted == ["a", "b"] && t.popped == ["b"]
  {
    var s := Init(log, n);
    var u;
    acts, u := BothWriteOneSlot(log, n);
    hide Run, Init, Pow2;
    MaskZero(log);
    acts, t := Extend(s, acts, u, PopLoadTail, u.(consumer := CHasTail(0)));
    acts, t := Extend(s, acts, t, PopLoadHead(2), t.(consumer := CHasBoth(0, 1), seenHead := 2));
    acts, t := Extend(s, acts, t, TakeSlot(""), t.(slots := t.slots[0 := ""], consumer := CTook(0, "b")));
    acts, t := Extend(s, acts, t, StoreTail, t.(tails := [0, 1], consumer := CIdle, popped := ["b"]));
  }

  lemma MaskZero(log: nat)
    ensures BitAnd(0, Pow2(log) - 1) == 0 && Pow2(log) >= 1
  {
  }

  /** As after the two pushes of that run. */
  ghost predicate Overwritten(log: nat, n: nat, t: Ring) {
    && t.log == log && |t.slots| == Pow2(log) && t.slots[0] == "b" && t.heads == [0, 1, 1] && t.tails == [0]
    && |t.producers| == |t.seenTail| == n && (forall p: nat | p < n :: t.producers[p] == PIdle)
    && t.consumer == CIdle && t.seenHead == 0 && t.dropped == 0 && t.accepted == ["a", "b"] && t.popped == []
  }

  lemma BothWriteOneSlot(log: nat, n: nat) returns (acts: seq<Action>, t: Ring)
    requires log <= 63 && n >= 2
    ensures Run(Init(log, n), acts, t) && Overwritten(log, n, t)
  {
    var s := Init(log, n);
    var u;
    acts, u := BothLoad(log, n);
    hide Run, Init;
    MaskZero(log);
    var ps := u.producers;
    acts, t := Extend(s, acts, u, WriteSlot(0), u.(slots := u.slots[0 := "a"], producers := ps[0 := PWrote("a", 0)]));
    acts, t := Extend(s, acts, t, StoreHead(0),
                      t.(heads := [0, 1], accepted := ["a"], producers := t.producers[0 := PIdle]));
    acts, t := Extend(s, acts, t, WriteSlot(1),
                      t.(slots := t.slots[0 := "b"], producers := t.producers[1 := PWrote("b", 0)]));
    acts, t := Extend(s, acts, t, StoreHead(1),
                      t.(heads := [0, 1, 1], accepted := ["a", "b"], producers := t.producers[1 := PIdle]));
  }

  lemma BothLoad(log: nat, n: nat) returns (acts: seq<Action>, t: Ring)
    requires log <= 63 && n >= 2
    ensures Run(Init(log, n), acts, t)
    ensures t == Init(log, n).(producers := Init(log, n).producers[0 := PHasBoth("a", 0, 0)][1 := PHasBoth("b", 0, 0)])
  {
    var s := Init(log, n);
    var ps := s.producers;
    acts, t := [], s;
    assert Run(s, [], s);
    hide Run;
    acts, t := Extend(s, acts, t, CallPush(0, "a"), s.(producers := ps[0 := PCalled("a")]));
    acts, t := Extend(s, acts, t, CallPush(1, "b"), s.(producers := ps[0 := PCalled("a")][1 := PCalled("b")]));
    acts, t := Extend(s, acts, t, LoadHead(0), s.(producers := t.producers[0 := PHasHead("a", 0)]));
    acts, t := Extend(s, acts, t, LoadHead(1), s.(producers := t.producers[1 := PHasHead("b", 0)]));
    acts, t := Extend(s, acts, t, LoadTail(0, 0), s.(producers := t.producers[0 := PHasBoth("a", 0, 0)], seenTail := s.seenTail[0 := 0]));
    acts, t := Extend(s, acts, t, LoadTail(1, 0), t.(producers := t.producers[1 := PHasBoth("b", 0, 0)], seenTail := t.seenTail[1 := 0]));
    assert t.seenTail == s.seenTail;
    assert t.producers == ps[0 := PHasBoth("a", 0, 0)][1 := PHasBoth("b", 0, 0)];
  }

  lemma Extend(s: Ring, acts: seq<Action>, t: Ring, a: Action, u: Ring) returns (acts': seq<Action>, u': Ring)
    requires Run(s, acts, t) && Enabled(t, a) && u == Apply(t, a)
    ensures acts' == acts + [a] && u' == u && Run(s, acts', u')
  {
    RunSnoc(s, acts, t, a);
    acts', u' := acts + [a], u;
  }

  // ----- several producers, one push at a time -----

  /** What a lock around TryPush gives: nobody else is inside, and what earlier holders have read is visible. */
  ghost predicate OneAtATime(s: Ring, a: Action) {
    && (a.CallPush? ==> forall p: nat | p < |s.producers| :: s.producers[p].PIdle?)
    && (a.LoadTail? ==> forall p: nat | p < |s.seenTail| :: s.seenTail[p] <= a.i)
  }

  ghost predicate SerialRun(s: Ring, acts: seq<Action>, t: Ring)
    decreases |acts|
  {
    if acts == [] then s == t
    else Enabled(s, acts[0]) && OneAtATime(s, acts[0]) && SerialRun(Apply(s, acts[0]), acts[1..], t)
  }

  /** The producer inside TryPush, if there is one. */
  function Inside(ps: seq<Producer>): Producer {
    if ps == [] then PIdle else if !ps[|ps| - 1].PIdle? then ps[|ps| - 1] else Inside(ps[..|ps| - 1])
  }

  function Newest(seen: seq<nat>): nat {
    if seen == [] then 0
    else
      var m := Newest(seen[..|seen| - 1]);
      if seen[|seen| - 1] > m then seen[|seen| - 1] else m
  }

  /** The producers of a serialized run seen as one. */
  function Merged(s: Ring): Ring {
    s.(producers := [Inside(s.producers)], seenTail := [Newest(s.seenTail)])
  }

  function AsFirst(a: Action): Action {
    match a
    case CallPush(_, r) => CallPush(0, r)
    case LoadHead(_) => LoadHead(0)
    case LoadTail(_, i) => LoadTail(0, i)
    case Reject(_) => Reject(0)
    case WriteSlot(_) => WriteSlot(0)
    case StoreHead(_) => StoreHead(0)
    case _ => a
  }

  function AllAsFirst(acts: seq<Action>): seq<Action> {
    if acts == [] then [] else [AsFirst(acts[0])] + AllAsFirst(acts[1..])
  }

  /** At most producer p is inside. */
  ghost predicate Alone(ps: seq<Producer>, p: nat) {
    forall q: nat | q < |ps| && q != p :: ps[q].PIdle?
  }

  ghost predicate Serial(s: Ring) {
    |s.seenTail| == |s.producers| && exists p: nat :: Alone(s.producers, p)
  }

  lemma {:induction false} InsideIs(ps: seq<Producer>, p: nat)
    requires Alone(ps, p)
    ensures Inside(ps) == if p < |ps| then (if ps[p].PIdle? then PIdle else ps[p]) else PIdle
  {
    if ps != [] {
      var n := |ps| - 1;
      if ps[n].PIdle? { InsideIs(ps[..n], p); }
    }
  }

  lemma {:induction false} NewestIs(seen: seq<nat>, m: nat)
    requires (forall p: nat | p < |seen| :: seen[p] <= m) && (m in seen || m == 0)
    ensures Newest(seen) == m
  {
    if seen != [] {
      var n := |seen| - 1;
      NewestBound(seen[..n], m);
      if seen[n] != m { NewestIs(seen[..n], m); }
    }
  }

  lemma {:induction false} NewestBound(seen: seq<nat>, m: nat)
    requires forall p: nat | p < |seen| :: seen[p] <= m
    ensures Newest(seen) <= m
  {
    if seen != [] { NewestBound(seen[..|seen| - 1], m); }
  }

  lemma MergedStep(s: Ring, a: Action)
    requires Serial(s) && Enabled(s, a) && OneAtATime(s, a)
    ensures Serial(Apply(s, a))
    ensures Enabled(Merged(s), AsFirst(a)) && Merged(Apply(s, a)) == Apply(Merged(s), AsFirst(a))
  {
    hide BitAnd, Pow2, Inc, Sub, Inside, Newest;
    if Pushes(a) {
      OneInside(s, a);
      MergedPush(s, a);
      hide Apply, Enabled, Merged, Alone;
    }
  }

  /** Whoever is about to step inside TryPush is the only one there. */
  lemma OneInside(s: Ring, a: Action)
    requires Serial(s) && Enabled(s, a) && OneAtATime(s, a) && Pushes(a)
    ensures a.p < |s.producers| && Alone(s.producers, a.p) && Alone(Apply(s, a).producers, a.p)
    ensures |Apply(s, a).seenTail| == |Apply(s, a).producers| == |s.producers|
  {
    hide BitAnd, Pow2, Inc, Sub;
    var p: nat :| Alone(s.producers, p);
    assert a.CallPush? || a.p == p;
  }

  lemma MergedPush(s: Ring, a: Action)
    requires Enabled(s, a) && OneAtATime(s, a) && Pushes(a) && a.p < |s.producers|
    requires Alone(s.producers, a.p) && Alone(Apply(s, a).producers, a.p)
    ensures Enabled(Merged(s), AsFirst(a)) && Merged(Apply(s, a)) == Apply(Merged(s), AsFirst(a))
  {
    hide BitAnd, Pow2, Inc, Sub, Inside, Newest;
    var t := Apply(s, a);
    InsideIs(s.producers, a.p);
    InsideIs(t.producers, a.p);
    if a.LoadTail? {
      NewestBound(s.seenTail, a.i);
      assert t.seenTail[a.p] == a.i;
      NewestIs(t.seenTail, a.i);
    }
    hide Alone, OneAtATime;
  }

  lemma {:induction false} MergedRun(s: Ring, acts: seq<Action>, t: Ring)
    requires Serial(s) && SerialRun(s, acts, t)
    ensures Run(Merged(s), AllAsFirst(acts), Merged(t))
    decreases |acts|
  {
    hide Enabled, Apply, Merged, AsFirst, OneAtATime, Serial;
    if acts != [] {
      MergedStep(s, acts[0]);
      MergedRun(Apply(s, acts[0]), acts[1..], t);
      assert AllAsFirst(acts)[1..] == AllAsFirst(acts[1..]);
    }
  }

  lemma {:induction false} MergedInit(log: nat, n: nat)
    ensures Serial(Init(log, n)) && Merged(Init(log, n)) == Init(log, 1)
  {
    var s := Init(log, n);
    assert Alone(s.producers, 0);
    InsideIs(s.producers, 0);
    NewestIs(s.seenTail, 0);
    assert seq(1, _ => PIdle) == [PIdle];
    assert Init(log, 1).seenTail == [0];
  }

  /** Several producers whose pushes are serialized by a lock are as good as one: the ring is a bounded FIFO for them too. */
  lemma SerializedPushesAreFifo(log: nat, n: nat, acts: seq<Action>, t: Ring)
    requires log <= 63 && SerialRun(Init(log, n), acts, t)
    ensures Inv(Merged(t)) && t.accepted == t.popped + Abs(Merged(t)).queue
    ensures FifoRun(Pow2(log), Abs(Init(log, 1)), OpsOf(Init(log, 1), AllAsFirst(acts)), Abs(Merged(t)))
  {
    MergedInit(log, n);
    MergedRun(Init(log, n), acts, t);
    InitInv(log);
    RunRefinesFifo(Init(log, 1), AllAsFirst(acts), Merged(t));
    AcceptedIsPoppedThenLive(log, AllAsFirst(acts), Merged(t));
    hide Abs;
  }

  /** A lone producer needs no lock. */
  lemma {:induction false} OneIsSerial(s: Ring, acts: seq<Action>, t: Ring)
    requires |s.producers| <= 1 && Run(s, acts, t)
    ensures SerialRun(s, acts, t)
    decreases |acts|
  {
    if acts != [] {
      OneStepIsSerial(s, acts[0]);
      hide Enabled, Apply, OneAtATime;
      OneIsSerial(Apply(s, acts[0]), acts[1..], t);
    }
  }

  lemma OneStepIsSerial(s: Ring, a: Action)
    requires |s.producers| <= 1 && Enabled(s, a)
    ensures OneAtATime(s, a) && |Apply(s, a).producers| <= 1
  {
    hide BitAnd, Pow2, Inc, Sub;
  }

  /** For every capacity: in all runs what is popped is what was accepted, in order, if and only if there is at most one producer. */
  lemma FifoIffOneProducer(log: nat, n: nat)
    requires log <= 63
    ensures (forall acts, t | Run(Init(log, n), acts, t) :: t.popped <= t.accepted) <==> n <= 1
  {
    if n <= 1 {
      forall acts, t | Run(Init(log, n), acts, t) ensures t.popped <= t.accepted {
        OneIsSerial(Init(log, n), acts, t);
        SerializedPushesAreFifo(log, n, acts, t);
      }
    } else {
      var acts, t := TwoProducersLoseARecord(log, n);
      assert t.popped[0] == "b" && t.accepted[0] == "a";
    }
  }
}
