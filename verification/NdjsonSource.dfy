/** The viewer's record source, `viewer/src/transport/ndjson_source.cpp`: bytes in, parsed records out. */
module NdjsonSource {
  import opened Framing
  import opened Options

  /** The records of those lines that parse; a line that does not is dropped with a warning. */
  function ParseAll<R>(parse: string -> Option<R>, lines: seq<string>): seq<R> {
    if lines == [] then []
    else
      match parse(lines[0])
      case Some(r) => [r] + ParseAll(parse, lines[1..])
      case None => ParseAll(parse, lines[1..])
  }

  lemma {:induction false} ParseAllConcat<R>(parse: string -> Option<R>, a: seq<string>, b: seq<string>)
    ensures ParseAll(parse, a + b) == ParseAll(parse, a) + ParseAll(parse, b)
  {
    if a == [] {
      assert a + b == b;
    } else {
      assert (a + b)[1..] == a[1..] + b;
      ParseAllConcat(parse, a[1..], b);
      if parse(a[0]).Some? {
        var r := parse(a[0]).value;
        assert [r] + (ParseAll(parse, a[1..]) + ParseAll(parse, b)) == ([r] + ParseAll(parse, a[1..])) + ParseAll(parse, b);
      }
    }
  }

  /** JSON parsing is an arbitrary partial function on lines. */
  class NdjsonSource<R> {
    const parse: string -> Option<R>
    var scratch: string
    var queue: seq<R>
    var bytesIn: nat
    var recordsIn: nat
    ghost var drained: seq<R>

    ghost predicate Valid()
      reads this
    {
      NewlineFree(scratch) && |scratch| <= CAP
    }

    ghost function Model(): Source<R>
      reads this
    {
      Source(scratch, queue, drained)
    }

    constructor (parse: string -> Option<R>)
      ensures Valid() && this.parse == parse
      ensures scratch == "" && queue == [] && bytesIn == recordsIn == 0 && Model() == DoAll(parse, [])
    {
      this.parse := parse;
      scratch, queue, drained, bytesIn, recordsIn := "", [], [], 0, 0;
    }

    method Feed(data: string)
      requires Valid()
      modifies this
      ensures Valid()
      ensures scratch == Capped(old(scratch), data).rest
      ensures var arrived := ParseAll(parse, NonEmpty(Capped(old(scratch), data).lines));
              queue == old(queue) + arrived && recordsIn == old(recordsIn) + |arrived|
      ensures bytesIn == old(bytesIn) + |data|
      ensures Model() == Do(parse, old(Model()), Op.Feed(data))
    {
      assert ParseAll(parse, NonEmpty([])) == [] && queue + [] == queue;
      if |data| == 0 { return; }
      bytesIn := bytesIn + |data|;
      ghost var was := Model();
      scratch := scratch + data;
      FedIs(parse, was, data);
      SplitLines();
      if |scratch| > CAP { scratch := ""; }
    }

    /** The splitting loop: the record of every non-empty complete line that parses is queued. */
    method SplitLines()
      modifies this`scratch, this`queue, this`recordsIn
      ensures scratch == Scan("", old(scratch)).rest
      ensures var arrived := ParseAll(parse, NonEmpty(Scan("", old(scratch)).lines));
              queue == old(queue) + arrived && recordsIn == old(recordsIn) + |arrived|
    {
      ghost var q, n := queue, recordsIn;
      ghost var text, done := scratch, [];
      CutNothing(text);
      assert ParseAll(parse, NonEmpty([])) == [] && queue + [] == queue;
      hide *;
      var start := 0;
      while true
        invariant start <= |text| && scratch == text
        invariant Cutting(text, done, start)
        invariant queue == q + ParseAll(parse, NonEmpty(done)) && recordsIn == n + |ParseAll(parse, NonEmpty(done))|
        decreases |text| - start
      {
        var nl := FindNewline(scratch, start);
        if nl == |scratch| { break; }
        var line := scratch[start..nl];
        CutLine(text, done, start, nl);
        KeepLine(parse, q, done, line);
        if line != "" {
          match parse(line)
          case Some(rec) =>
            queue := queue + [rec];
            recordsIn := recordsIn + 1;
          case None =>
        }
        done := done + [line];
        start := nl + 1;
      }
      CutAll(text, done, start);
      if start > 0 { scratch := scratch[start..]; } else { assert text[start..] == text; }
    }

    /** Hands out at most `max` of the oldest records. */
    method Drain(max: nat) returns (out: seq<R>)
      modifies this
      ensures old(queue) == out + queue
      ensures |out| == if max < |old(queue)| then max else |old(queue)|
      ensures scratch == old(scratch) && bytesIn == old(bytesIn) && recordsIn == old(recordsIn)
      ensures drained == old(drained) + out && Model() == Do(parse, old(Model()), Op.Drain(max))
    {
      out := [];
      var n := 0;
      ghost var q := queue;
      while n < max && queue != []
        invariant n <= max && n <= |q| && out == q[..n] && queue == q[n..]
        invariant scratch == old(scratch) && bytesIn == old(bytesIn) && recordsIn == old(recordsIn)
        invariant drained == old(drained)
      {
        out, queue, n := out + [queue[0]], queue[1..], n + 1;
      }
      assert q == q[..n] + q[n..];
      drained := drained + out;
    }
  }

  lemma FedIs<R>(parse: string -> Option<R>, s: Source<R>, data: string)
    requires NewlineFree(s.scratch)
    ensures var r := Scan("", s.scratch + data);
            && NewlineFree(r.rest)
            && Capped(s.scratch, data) == Split(r.lines, if |r.rest| > CAP then "" else r.rest)
            && Do(parse, s, Op.Feed(data))
               == Source(if |r.rest| > CAP then "" else r.rest, s.queue + ParseAll(parse, NonEmpty(r.lines)), s.drained)
  {
    ScanPending(s.scratch, data);
  }

  /** One more line: what its record adds to the queue. */
  lemma KeepLine<R>(parse: string -> Option<R>, q: seq<R>, done: seq<string>, line: string)
    ensures var before, now := ParseAll(parse, NonEmpty(done)), ParseAll(parse, NonEmpty(done + [line]));
            if line != "" && parse(line).Some? then now == before + [parse(line).value] && q + now == q + before + [parse(line).value]
            else now == before
  {
    NonEmptyConcat(done, [line]);
    ParseAllConcat(parse, NonEmpty(done), NonEmpty([line]));
    assert [line][1..] == [];
  }

  /** One chunk after another through Feed: the queue grows by exactly what `CappedEach` says. */
  lemma {:induction false} FeedsCompose<R>(parse: string -> Option<R>, scratch: string, chunks: seq<string>, last: string)
    ensures var r := CappedEach(scratch, chunks);
            CappedEach(scratch, chunks + [last])
            == Split(r.lines + Capped(r.rest, last).lines, Capped(r.rest, last).rest)
    ensures ParseAll(parse, NonEmpty(CappedEach(scratch, chunks + [last]).lines))
         == ParseAll(parse, NonEmpty(CappedEach(scratch, chunks).lines))
          + ParseAll(parse, NonEmpty(Capped(CappedEach(scratch, chunks).rest, last).lines))
    decreases |chunks|
  {
    hide Capped;
    var r := CappedEach(scratch, chunks);
    if chunks == [] {
      assert chunks + [last] == [last] && [last][1..] == [];
      var l := Capped(scratch, last).lines;
      assert CappedEach(scratch, [last]) == Split(l + [], Capped(scratch, last).rest);
      assert l + [] == l == [] + l;
    } else {
      assert (chunks + [last])[1..] == chunks[1..] + [last];
      var r0 := Capped(scratch, chunks[0]);
      FeedsCompose(parse, r0.rest, chunks[1..], last);
      var r1 := CappedEach(r0.rest, chunks[1..]);
      assert r0.lines + (r1.lines + Capped(r1.rest, last).lines) == (r0.lines + r1.lines) + Capped(r1.rest, last).lines;
    }
    NonEmptyConcat(r.lines, Capped(r.rest, last).lines);
    ParseAllConcat(parse, NonEmpty(r.lines), NonEmpty(Capped(r.rest, last).lines));
  }

  lemma {:induction false} ParseAllInverse<R>(parse: string -> Option<R>, dump: R -> string, values: seq<R>)
    requires forall v | v in values :: parse(dump(v)) == Some(v)
    ensures ParseAll(parse, seq(|values|, i requires 0 <= i < |values| => dump(values[i]))) == values
  {
    var texts := seq(|values|, i requires 0 <= i < |values| => dump(values[i]));
    if values != [] {
      assert texts[1..] == seq(|values[1..]|, i requires 0 <= i < |values[1..]| => dump(values[1..][i]));
      assert values[0] in values && texts[0] == dump(values[0]);
      ParseAllInverse(parse, dump, values[1..]);
    }
  }

  /** Whatever a parser undoes of a `dump` that writes non-empty lines within the cap arrives complete and in order. */
  lemma ValuesRoundTrip<R>(parse: string -> Option<R>, dump: R -> string, values: seq<R>, chunks: seq<string>)
    requires forall v | v in values :: parse(dump(v)) == Some(v)
    requires forall v | v in values :: dump(v) != "" && NewlineFree(dump(v)) && |dump(v)| <= CAP
    requires Flatten(chunks) == Stream(seq(|values|, i requires 0 <= i < |values| => dump(values[i])))
    ensures ParseAll(parse, NonEmpty(CappedEach("", chunks).lines)) == values
  {
    var texts := seq(|values|, i requires 0 <= i < |values| => dump(values[i]));
    assert forall t | t in texts :: exists v :: v in values && t == dump(v);
    RoundTrip(texts, chunks);
    ParseAllInverse(parse, dump, values);
  }

  // ----- runs of Feed and Drain -----

  /** One call: a chunk from the reader thread, or the UI thread asking for records. The buffer's mutex makes each one a step. */
  datatype Op = Feed(data: string) | Drain(max: nat)

  datatype Source<R> = Source(scratch: string, queue: seq<R>, drained: seq<R>)   // drained: history

  function Do<R>(parse: string -> Option<R>, s: Source<R>, op: Op): Source<R> {
    match op
    case Feed(data) =>
      var r := Capped(s.scratch, data);
      s.(scratch := r.rest, queue := s.queue + ParseAll(parse, NonEmpty(r.lines)))
    case Drain(max) =>
      var n := if max < |s.queue| then max else |s.queue|;
      s.(queue := s.queue[n..], drained := s.drained + s.queue[..n])
  }

  function DoAll<R>(parse: string -> Option<R>, ops: seq<Op>): Source<R> {
    if ops == [] then Source("", [], []) else Do(parse, DoAll(parse, ops[..|ops| - 1]), ops[|ops| - 1])
  }

  /** The chunks fed, in order. */
  function Fed(ops: seq<Op>): seq<string> {
    if ops == [] then []
    else Fed(ops[..|ops| - 1]) + match ops[|ops| - 1] case Feed(data) => [data] case Drain(_) => []
  }

  /** However Feed and Drain calls interleave and however much each Drain asks for: what has been drained and what is still queued
      are, in order, the records of the lines fed. */
  lemma {:induction false} DrainedThenQueued<R>(parse: string -> Option<R>, ops: seq<Op>)
    ensures var s, r := DoAll(parse, ops), CappedEach("", Fed(ops));
            s.scratch == r.rest && s.drained + s.queue == ParseAll(parse, NonEmpty(r.lines))
  {
    if ops != [] {
      var before, op := ops[..|ops| - 1], ops[|ops| - 1];
      var s := DoAll(parse, before);
      DrainedThenQueued(parse, before);
      hide Capped, ParseAll, NonEmpty, CappedEach;
      match op
      case Feed(data) =>
        FeedsCompose(parse, "", Fed(before), data);
        Assoc(s.drained, s.queue, ParseAll(parse, NonEmpty(Capped(s.scratch, data).lines)));
      case Drain(max) =>
        var n := if max < |s.queue| then max else |s.queue|;
        assert Fed(ops) == Fed(before);
        assert s.queue == s.queue[..n] + s.queue[n..];
        Assoc(s.drained, s.queue[..n], s.queue[n..]);
    }
  }

  /** The whole way of a list of values: printed one per line, framed, cut into any chunks, fed, and drained in any portions. What
      has come out is always a prefix of the values, and all of them once everything is fed and the queue is empty. */
  lemma DrainedRoundTrip<R>(parse: string -> Option<R>, dump: R -> string, values: seq<R>, ops: seq<Op>)
    requires forall v | v in values :: parse(dump(v)) == Some(v)
    requires forall v | v in values :: dump(v) != "" && NewlineFree(dump(v)) && |dump(v)| <= CAP
    requires Flatten(Fed(ops)) == Stream(seq(|values|, i requires 0 <= i < |values| => dump(values[i])))
    ensures var s := DoAll(parse, ops);
            s.drained + s.queue == values && (s.queue == [] <==> s.drained == values)
  {
    DrainedThenQueued(parse, ops);
    ValuesRoundTrip(parse, dump, values, Fed(ops));
  }
}
