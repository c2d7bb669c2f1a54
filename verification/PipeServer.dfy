/** `plugin/src/transport/pipe_server.cpp`: every broadcast record is offered to each connected client's bounded queue,
    a writer thread empties the queues into the pipes, and a reader thread per client splits incoming bytes into
    command lines. This file has the methods; `PipeProtocol` interleaves the threads. */
module PipeServer {
  import opened Framing

  /** `ClientSession::kHighWatermark`, 16 MiB. */
  const HIGH_WATERMARK: nat := 16 * 1024 * 1024

  datatype Session = Session(alive: bool, outbound: seq<string>, pending: nat)

  predicate Fits(s: Session, rec: string) {
    s.pending + |rec| <= HIGH_WATERMARK
  }

  function Enqueue(s: Session, rec: string): Session {
    s.(outbound := s.outbound + [rec], pending := s.pending + |rec|)
  }

  function Bytes(records: seq<string>): nat {
    if records == [] then 0 else |records[0]| + Bytes(records[1..])
  }

  lemma {:induction false} BytesSnoc(records: seq<string>, rec: string)
    ensures Bytes(records + [rec]) == Bytes(records) + |rec|
  {
    if records == [] {
      assert [rec][1..] == [] && [] + [rec] == [rec];
    } else {
      BytesSnoc(records[1..], rec);
      assert (records + [rec])[1..] == records[1..] + [rec];
    }
  }

  /** A session as one broadcast leaves it. */
  function Offered(s: Session, rec: string): Session {
    if s.alive && Fits(s, rec) then Enqueue(s, rec) else s
  }

  predicate Refuses(s: Session, rec: string) {
    s.alive && !Fits(s, rec)
  }

  function Refusals(sessions: seq<Session>, rec: string): nat {
    if sessions == [] then 0
    else Refusals(sessions[..|sessions| - 1], rec) + if Refuses(sessions[|sessions| - 1], rec) then 1 else 0
  }

  class ClientSession {
    var alive: bool
    var outbound: seq<string>
    var outboundPending: nat

    constructor ()
      ensures Model() == Session(true, [], 0)
    {
      alive, outbound, outboundPending := true, [], 0;
    }

    function Model(): Session
      reads this
    {
      Session(alive, outbound, outboundPending)
    }
  }

  /** The clients of a list that are not dead, in order. */
  ghost function Living(cs: seq<ClientSession>): (l: seq<ClientSession>)
    reads cs
    ensures (forall c | c in l :: c in cs && c.alive) && (forall c | c in cs && c.alive :: c in l)
  {
    if cs == [] then []
    else Living(cs[..|cs| - 1]) + if cs[|cs| - 1].alive then [cs[|cs| - 1]] else []
  }

  class PipeServer {
    var clients: seq<ClientSession>
    var droppedBroadcasts: nat

    ghost predicate Valid()
      reads this
    {
      forall i, j | 0 <= i < j < |clients| :: clients[i] != clients[j]
    }

    ghost function Models(): (m: seq<Session>)
      reads this, clients
      ensures |m| == |clients|
    {
      seq(|clients|, i requires 0 <= i < |clients| reads this, clients => clients[i].Model())
    }

    constructor ()
      ensures Valid() && clients == [] && droppedBroadcasts == 0
    {
      clients, droppedBroadcasts := [], 0;
    }

    /** Each client is judged by its own state alone, and the drop counter counts the refusals. */
    method Broadcast(rec: string)
      requires Valid()
      modifies this`droppedBroadcasts, clients
      ensures clients == old(clients)
      ensures forall i | 0 <= i < |clients| :: Models()[i] == Offered(old(Models())[i], rec)
      ensures droppedBroadcasts == old(droppedBroadcasts) + Refusals(old(Models()), rec)
    {
      ghost var was := Models();
      for i := 0 to |clients|
        invariant clients == old(clients)
        invariant forall j | 0 <= j < i :: clients[j].Model() == Offered(was[j], rec)
        invariant forall j | i <= j < |clients| :: clients[j].Model() == was[j]
        invariant droppedBroadcasts == old(droppedBroadcasts) + Refusals(was[..i], rec)
      {
        var c := clients[i];
        assert was[..i + 1][..i] == was[..i];
        if !c.alive { continue; }
        if c.outboundPending + |rec| > HIGH_WATERMARK {
          droppedBroadcasts := droppedBroadcasts + 1;
          continue;
        }
        c.outbound := c.outbound + [rec];
        c.outboundPending := c.outboundPending + |rec|;
      }
      assert was[..|clients|] == was;
    }

    /** The writer's snapshot of the list; dead clients are taken off the list afterwards. */
    method SnapshotAndReap() returns (snap: seq<ClientSession>)
      requires Valid()
      modifies this`clients
      ensures Valid() && snap == old(clients)
      ensures clients == Living(snap)
    {
      snap := clients;
      var kept: seq<ClientSession> := [];
      for i := 0 to |snap|
        invariant clients == snap == old(clients)
        invariant kept == Living(snap[..i])
        invariant forall c :: c in kept ==> c in snap[..i]
        invariant forall j, k | 0 <= j < k < |kept| :: kept[j] != kept[k]
      {
        assert snap[..i + 1][..i] == snap[..i];
        assert snap[i] !in snap[..i];
        if snap[i].alive { kept := kept + [snap[i]]; }
      }
      assert snap[..|snap|] == snap;
      clients := kept;
    }

    /** One client's turn in the writer's pass. The pipe takes `room` bytes and then fails, maybe in the middle of a record. */
    method WriteOut(c: ClientSession, room: nat) returns (sent: seq<string>, bytes: string)
      modifies c
      ensures !old(c.alive) ==> sent == [] && bytes == "" && c.Model() == old(c.Model())
      ensures old(c.alive) ==>
                && TakenFrom(old(c.outbound), room, sent, bytes)
                && c.Model() == Session(|Flatten(old(c.outbound))| <= room, [], 0)
    {
      sent, bytes := [], "";
      if !c.alive { return; }
      var local := c.outbound;
      c.outbound, c.outboundPending := [], 0;
      assert local[..0] == [];
      for i := 0 to |local|
        invariant c.Model() == Session(true, [], 0)
        invariant sent == local[..i] && bytes == Flatten(sent) && |bytes| <= room
      {
        var rec := local[i];
        NextRecord(local, i);
        if |rec| > room - |bytes| {
          bytes := bytes + rec[..room - |bytes|];
          c.alive := false;
          return;
        }
        sent, bytes := sent + [rec], bytes + rec;
      }
      assert local[..|local|] == local;
    }
  }

  /** Of the records queued, those in `sent` were taken whole, and `bytes` in all: everything, or the first `room` bytes. */
  ghost predicate TakenFrom(queued: seq<string>, room: nat, sent: seq<string>, bytes: string) {
    var all := Flatten(queued);
    && sent <= queued
    && bytes == (if |all| <= room then all else all[..room])
    && (|all| <= room ==> sent == queued)
    && (|all| > room ==> |sent| < |queued| && exists n: nat :: n < |queued[|sent|]| && bytes == Flatten(sent) + queued[|sent|][..n])
  }

  lemma NextRecord(queued: seq<string>, i: nat)
    requires i < |queued|
    ensures queued[..i + 1] == queued[..i] + [queued[i]]
    ensures Flatten(queued[..i + 1]) == Flatten(queued[..i]) + queued[i]
    ensures |Flatten(queued[..i]) + queued[i]| <= |Flatten(queued)|
    ensures Flatten(queued)[..|Flatten(queued[..i]) + queued[i]|] == Flatten(queued[..i]) + queued[i]
  {
    assert queued[..i + 1] == queued[..i] + [queued[i]];
    FlattenConcat(queued[..i], [queued[i]]);
    assert [queued[i]][1..] == [] && Flatten([queued[i]]) == queued[i] + "";
    assert queued == queued[..i + 1] + queued[i + 1..];
    FlattenConcat(queued[..i + 1], queued[i + 1..]);
  }

  // ----- incoming commands -----

  /** The reader thread's local state and the lines handed to the command callback. */
  class CommandReader {
    var accumulator: string
    ghost var input: string           // every byte read so far
    var dispatched: seq<string>

    ghost predicate Valid()
      reads this
    {
      NonEmpty(Scan("", input).lines) == dispatched + NonEmpty(Scan("", accumulator).lines)
      && Scan("", input).rest == Scan("", accumulator).rest
    }

    constructor ()
      ensures Valid() && input == "" && dispatched == []
    {
      accumulator, input, dispatched := "", "", [];
    }

    /** One successful ReadFile, or one that failed with ERROR_MORE_DATA: the tail of the message is still to come, and
        nothing is split yet. However the input is cut into reads, the commands dispatched up to a complete read are the
        non-empty lines of the whole input. */
    method OnRead(data: string, moreData: bool)
      requires Valid()
      modifies this
      ensures Valid() && input == old(input) + data
      ensures moreData ==> dispatched == old(dispatched)
      ensures !moreData ==> dispatched == NonEmpty(Scan("", input).lines) && accumulator == Scan("", input).rest
    {
      Absorb(input, accumulator, dispatched, data);
      accumulator := accumulator + data;
      input := input + data;
      if !moreData {
        ghost var text := accumulator;
        SplitLines();
        RestHasNoLines(text, dispatched);
      }
    }

    /** The splitting loop: every complete line goes to the callback, unless it is empty. */
    method SplitLines()
      modifies this`accumulator, this`dispatched
      ensures accumulator == Scan("", old(accumulator)).rest
      ensures dispatched == old(dispatched) + NonEmpty(Scan("", old(accumulator)).lines)
    {
      ghost var text, before, done: seq<string> := accumulator, dispatched, [];
      CutNothing(text);
      assert NonEmpty([]) == [] && before + [] == before;
      hide *;
      var start := 0;
      while true
        invariant start <= |text| && accumulator == text
        invariant Cutting(text, done, start)
        invariant dispatched == before + NonEmpty(done)
        decreases |text| - start
      {
        var nl := FindNewline(accumulator, start);
        if nl == |accumulator| { break; }
        var line := accumulator[start..nl];
        CutLine(text, done, start, nl);
        OneMore(before, done, line);
        if line != "" { dispatched := dispatched + [line]; }
        done := done + [line];
        start := nl + 1;
      }
      CutAll(text, done, start);
      if start > 0 { accumulator := accumulator[start..]; } else { assert text[start..] == text; }
    }
  }

  lemma OneMore(before: seq<string>, done: seq<string>, line: string)
    ensures before + NonEmpty(done + [line])
         == before + NonEmpty(done) + if line == "" then [] else [line]
    ensures line == "" ==> before + NonEmpty(done + [line]) == before + NonEmpty(done)
  {
    NonEmptyConcat(done, [line]);
    assert [line][1..] == [];
  }

  lemma RestHasNoLines(text: string, dispatched: seq<string>)
    ensures var rest := Scan("", text).rest;
            Scan("", rest) == Split([], rest) && dispatched + NonEmpty(Scan("", rest).lines) == dispatched
  {
    var rest := Scan("", text).rest;
    ScanNewlineFree("", rest);
    assert "" + rest == rest;
  }

  lemma Absorb(input: string, accumulator: string, dispatched: seq<string>, data: string)
    requires NonEmpty(Scan("", input).lines) == dispatched + NonEmpty(Scan("", accumulator).lines)
    requires Scan("", input).rest == Scan("", accumulator).rest
    ensures NonEmpty(Scan("", input + data).lines) == dispatched + NonEmpty(Scan("", accumulator + data).lines)
    ensures Scan("", input + data).rest == Scan("", accumulator + data).rest
  {
    ScanConcat("", input, data);
    ScanConcat("", accumulator, data);
    var more := Scan(Scan("", input).rest, data).lines;
    NonEmptyConcat(Scan("", input).lines, more);
    NonEmptyConcat(Scan("", accumulator).lines, more);
    hide *;
    assert dispatched + (NonEmpty(Scan("", accumulator).lines) + NonEmpty(more))
        == (dispatched + NonEmpty(Scan("", accumulator).lines)) + NonEmpty(more);
  }
}
