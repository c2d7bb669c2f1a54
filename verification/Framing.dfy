/** Newline framing: the writer terminates records, the readers rebuild lines from arbitrary chunks.
    Text is a sequence of bytes, written as characters. */
module Framing {

  // ----- writing -----

  /** What `WriterThread::Submit` hands to the ring; nothing at all for an empty record. */
  function Frame(record: string): (framed: string)
    ensures framed == "" <==> record == ""
    ensures record != "" ==> framed[|framed| - 1] == '\n'
    ensures framed == record || (framed == record + "\n" && record[|record| - 1] != '\n')
  {
    if record == "" then ""
    else if record[|record| - 1] != '\n' then record + "\n"
    else record
  }

  /** The bytes of a list of framed records, one after another. */
  function Stream(records: seq<string>): string {
    if records == [] then "" else Frame(records[0]) + Stream(records[1..])
  }

  function Flatten(chunks: seq<string>): string {
    if chunks == [] then "" else chunks[0] + Flatten(chunks[1..])
  }

  // ----- splitting -----

  /** The lines completed by a text, and the unfinished rest. */
  datatype Split = Split(lines: seq<string>, rest: string)

  ghost predicate NewlineFree(s: string) {
    '\n' !in s
  }

  /** Splitting `text` when `partial` is already pending. */
  function Scan(partial: string, text: string): (r: Split)
    ensures NewlineFree(partial) ==> NewlineFree(r.rest) && forall l | l in r.lines :: NewlineFree(l)
    decreases |text|
  {
    if text == "" then Split([], partial)
    else if text[0] == '\n' then
      var r := Scan("", text[1..]);
      Split([partial] + r.lines, r.rest)
    else Scan(partial + [text[0]], text[1..])
  }

  function NonEmpty(lines: seq<string>): seq<string> {
    if lines == [] then []
    else (if lines[0] == "" then [] else [lines[0]]) + NonEmpty(lines[1..])
  }

  lemma {:induction false} NonEmptyConcat(a: seq<string>, b: seq<string>)
    ensures NonEmpty(a + b) == NonEmpty(a) + NonEmpty(b)
  {
    if a == [] {
      assert a + b == b;
    } else {
      var first := if a[0] == "" then [] else [a[0]];
      assert (a + b)[1..] == a[1..] + b;
      NonEmptyConcat(a[1..], b);
      assert NonEmpty(a) == first + NonEmpty(a[1..]);
      assert NonEmpty(a + b) == first + NonEmpty(a[1..] + b);
    }
  }

  /** Splitting can stop and resume anywhere. */
  lemma {:induction false} ScanConcat(partial: string, a: string, b: string)
    ensures var r := Scan(partial, a);
            Scan(partial, a + b) == Split(r.lines + Scan(r.rest, b).lines, Scan(r.rest, b).rest)
    decreases |a|
  {
    if a == "" {
      assert a + b == b;
    } else {
      assert (a + b)[1..] == a[1..] + b;
      if a[0] == '\n' { ScanConcat("", a[1..], b); } else { ScanConcat(partial + [a[0]], a[1..], b); }
    }
  }

  lemma {:induction false} ScanNewlineFree(partial: string, text: string)
    requires NewlineFree(text)
    ensures Scan(partial, text) == Split([], partial + text)
    decreases |text|
  {
    if text == "" {
      assert partial + text == partial;
    } else {
      ScanNewlineFree(partial + [text[0]], text[1..]);
      assert partial + [text[0]] + text[1..] == partial + text;
    }
  }

  /** One more line: what the splitting loops of both readers do per turn. */
  lemma ScanLine(partial: string, line: string, after: string)
    requires NewlineFree(line)
    ensures Scan(partial, line + "\n" + after)
         == Split([partial + line] + Scan("", after).lines, Scan("", after).rest)
  {
    ScanNewlineFree(partial, line);
    ScanConcat(partial, line, "\n" + after);
    assert line + "\n" + after == line + ("\n" + after);
    assert ("\n" + after)[1..] == after;
  }

  lemma ScanPending(partial: string, text: string)
    requires NewlineFree(partial)
    ensures Scan("", partial + text) == Scan(partial, text)
  {
    ScanConcat("", partial, text);
    ScanNewlineFree("", partial);
    assert "" + partial == partial;
    assert [] + Scan(partial, text).lines == Scan(partial, text).lines;
  }

  /** A splitting loop over `text` has cut off the lines `done` and stands at `start`. */
  ghost predicate Cutting(text: string, done: seq<string>, start: nat)
    requires start <= |text|
  {
    var r := Scan("", text[start..]);
    Scan("", text) == Split(done + r.lines, r.rest)
  }

  lemma CutNothing(text: string)
    ensures Cutting(text, [], 0)
  {
    assert text[0..] == text;
    assert [] + Scan("", text).lines == Scan("", text).lines;
  }

  /** One turn of the loop: the text from `start` holds its first newline at `nl`. */
  lemma CutLine(text: string, done: seq<string>, start: nat, nl: nat)
    requires start <= nl < |text| && text[nl] == '\n' && NewlineFree(text[start..nl])
    requires Cutting(text, done, start)
    ensures Cutting(text, done + [text[start..nl]], nl + 1)
  {
    var line, r := text[start..nl], Scan("", text[nl + 1..]);
    ScanLine("", line, text[nl + 1..]);
    assert text[start..] == line + "\n" + text[nl + 1..];
    assert "" + line == line;
    assert done + ([line] + r.lines) == (done + [line]) + r.lines;
  }

  lemma CutAll(text: string, done: seq<string>, start: nat)
    requires start <= |text| && NewlineFree(text[start..])
    requires Cutting(text, done, start)
    ensures Scan("", text) == Split(done, text[start..])
  {
    ScanNewlineFree("", text[start..]);
    assert "" + text[start..] == text[start..] && done + [] == done;
  }

  /** `std::string::find('\n', start)`; |text| stands for npos. */
  method FindNewline(text: string, start: nat) returns (nl: nat)
    requires start <= |text|
    ensures start <= nl <= |text| && NewlineFree(text[start..nl])
    ensures nl < |text| ==> text[nl] == '\n'
  {
    nl := start;
    while nl < |text| && text[nl] != '\n'
      invariant start <= nl <= |text| && NewlineFree(text[start..nl])
    {
      assert text[start..nl + 1] == text[start..nl] + [text[nl]];
      nl := nl + 1;
    }
  }

  // ----- feeding chunk by chunk -----

  /** The lines seen, and the scratch left, when each chunk is split as it arrives. */
  function FeedEach(scratch: string, chunks: seq<string>): Split
    decreases |chunks|
  {
    if chunks == [] then Split([], scratch)
    else
      var r := Scan(scratch, chunks[0]);
      var r' := FeedEach(r.rest, chunks[1..]);
      Split(r.lines + r'.lines, r'.rest)
  }

  /** Chunk boundaries do not matter to the splitter without a cap. */
  lemma {:induction false} ChunkingIndependence(scratch: string, chunks: seq<string>)
    ensures FeedEach(scratch, chunks) == Scan(scratch, Flatten(chunks))
    decreases |chunks|
  {
    if chunks != [] {
      ChunkingIndependence(Scan(scratch, chunks[0]).rest, chunks[1..]);
      ScanConcat(scratch, chunks[0], Flatten(chunks[1..]));
    }
  }

  // ----- the capped splitter -----

  /** `1u << 20` in `NdjsonSource::Feed`. */
  const CAP: nat := 0x10_0000

  /** One Feed: split, then throw the rest away when it is over the cap. */
  function Capped(scratch: string, chunk: string): Split {
    var r := Scan(scratch, chunk);
    if |r.rest| > CAP then Split(r.lines, "") else r
  }

  function CappedEach(scratch: string, chunks: seq<string>): Split
    decreases |chunks|
  {
    if chunks == [] then Split([], scratch)
    else
      var r := Capped(scratch, chunks[0]);
      var r' := CappedEach(r.rest, chunks[1..]);
      Split(r.lines + r'.lines, r'.rest)
  }

  ghost predicate IsSuffix(s: string, of: string) {
    |s| <= |of| && s == of[|of| - |s|..]
  }

  /** What the capped splitter holds against what is truly there: a tail of it, and all of it unless it is over the cap. */
  ghost predicate Tracks(capped: string, actual: string) {
    IsSuffix(capped, actual) && (|actual| <= CAP ==> capped == actual)
  }

  ghost predicate TracksAll(capped: seq<string>, actual: seq<string>) {
    |capped| == |actual| && forall k | 0 <= k < |capped| :: Tracks(capped[k], actual[k])
  }

  lemma TracksAllConcat(c: seq<string>, c': seq<string>, a: seq<string>, a': seq<string>)
    requires TracksAll(c, a) && TracksAll(c', a')
    ensures TracksAll(c + c', a + a')
  {
  }

  lemma {:induction false} ScanTracks(c: string, a: string, text: string)
    requires Tracks(c, a)
    ensures TracksAll(Scan(c, text).lines, Scan(a, text).lines)
    ensures Tracks(Scan(c, text).rest, Scan(a, text).rest)
    decreases |text|
  {
    if text == "" {
    } else if text[0] == '\n' {
      ScanTracks("", "", text[1..]);
      TracksAllConcat([c], Scan("", text[1..]).lines, [a], Scan("", text[1..]).lines);
    } else {
      assert IsSuffix(c + [text[0]], a + [text[0]]);
      ScanTracks(c + [text[0]], a + [text[0]], text[1..]);
    }
  }

  /** The capped splitter simulates the uncapped one, whatever the chunks: it sees the same number of lines, each a
      tail of the true line and equal to it unless that is over the cap, so it is back in step at the next newline
      after any discard; and its scratch stays within the cap. */
  lemma {:induction false} CappedSimulates(c: string, a: string, chunks: seq<string>)
    requires Tracks(c, a) && |c| <= CAP && NewlineFree(c)
    ensures TracksAll(CappedEach(c, chunks).lines, FeedEach(a, chunks).lines)
    ensures Tracks(CappedEach(c, chunks).rest, FeedEach(a, chunks).rest)
    ensures |CappedEach(c, chunks).rest| <= CAP && NewlineFree(CappedEach(c, chunks).rest)
    decreases |chunks|
  {
    if chunks != [] {
      ScanTracks(c, a, chunks[0]);
      var r, t := Capped(c, chunks[0]), Scan(a, chunks[0]);
      CappedSimulates(r.rest, t.rest, chunks[1..]);
      TracksAllConcat(r.lines, CappedEach(r.rest, chunks[1..]).lines, t.lines, FeedEach(t.rest, chunks[1..]).lines);
    }
  }

  /** For every stream and every way to cut it: line k as seen by Feed against line k of the stream. */
  lemma CappedLines(chunks: seq<string>)
    ensures TracksAll(CappedEach("", chunks).lines, Scan("", Flatten(chunks)).lines)
    ensures Tracks(CappedEach("", chunks).rest, Scan("", Flatten(chunks)).rest)
  {
    CappedSimulates("", "", chunks);
    ChunkingIndependence("", chunks);
  }

  // ----- round trip -----

  ghost predicate Sendable(records: seq<string>) {
    forall r | r in records :: r != "" && NewlineFree(r)
  }

  ghost predicate WithinCap(records: seq<string>) {
    forall r | r in records :: |r| <= CAP
  }

  lemma {:induction false} NonEmptySendable(records: seq<string>)
    requires Sendable(records)
    ensures NonEmpty(records) == records
  {
    if records != [] {
      assert records == [records[0]] + records[1..];
      assert records[0] in records && forall r | r in records[1..] :: r in records;
      NonEmptySendable(records[1..]);
    }
  }

  lemma {:induction false} ScanStream(records: seq<string>, after: string)
    requires Sendable(records)
    ensures Scan("", Stream(records) + after) == Split(records + Scan("", after).lines, Scan("", after).rest)
    decreases |records|
  {
    var end := Scan("", after);
    if records == [] {
      assert Stream(records) + after == after;
      assert records + end.lines == end.lines;
    } else {
      var r, more := records[0], records[1..];
      StreamHead(records);
      ScanStream(more, after);
      ScanLine("", r, Stream(more) + after);
      hide *;
      Assoc(r + "\n", Stream(more), after);
      assert "" + r == r;
      Assoc([r], more, end.lines);
      assert records == [r] + more;
    }
  }

  lemma Assoc<T>(a: seq<T>, b: seq<T>, c: seq<T>)
    ensures (a + b) + c == a + (b + c)
  {
  }

  lemma StreamHead(records: seq<string>)
    requires Sendable(records) && records != []
    ensures Stream(records) == records[0] + "\n" + Stream(records[1..])
    ensures records[0] != "" && NewlineFree(records[0]) && Sendable(records[1..])
  {
    assert records[0] in records;
    assert forall r | r in records[1..] :: r in records;
  }

  /** The reader takes the records of a stream back out of any chunks it arrives in. */
  ghost predicate ReadsBack(records: seq<string>, chunks: seq<string>) {
    NonEmpty(CappedEach("", chunks).lines) == records && CappedEach("", chunks).rest == ""
  }

  lemma RoundTrip(records: seq<string>, chunks: seq<string>)
    requires Sendable(records) && WithinCap(records)
    requires Flatten(chunks) == Stream(records)
    ensures ReadsBack(records, chunks)
  {
    assert Stream(records) + "" == Stream(records);
    RoundTripThen(records, "", chunks);
  }

  /** A stream that breaks off in the middle of a line: the whole records come back, the rest stays pending. */
  lemma RoundTripThen(records: seq<string>, tail: string, chunks: seq<string>)
    requires Sendable(records) && WithinCap(records) && NewlineFree(tail) && |tail| <= CAP
    requires Flatten(chunks) == Stream(records) + tail
    ensures NonEmpty(CappedEach("", chunks).lines) == records && CappedEach("", chunks).rest == tail
  {
    CappedLines(chunks);
    ScanStream(records, tail);
    ScanNewlineFree("", tail);
    assert "" + tail == tail && records + [] == records;
    var lines := CappedEach("", chunks).lines;
    assert forall k | 0 <= k < |records| :: Tracks(lines[k], records[k]) && records[k] in records;
    assert lines == records;
    NonEmptySendable(records);
  }

  lemma {:induction false} NonEmptyMembers(lines: seq<string>)
    ensures |NonEmpty(lines)| <= |lines|
    ensures forall l | l in NonEmpty(lines) :: l != "" && l in lines
  {
    if lines != [] { NonEmptyMembers(lines[1..]); }
  }

  lemma {:induction false} StreamConcat(a: seq<string>, b: seq<string>)
    ensures Stream(a + b) == Stream(a) + Stream(b)
  {
    hide Frame;
    if a == [] {
      assert a + b == b;
    } else {
      assert (a + b)[1..] == a[1..] + b;
      StreamConcat(a[1..], b);
      assert Stream(a + b) == Frame(a[0]) + (Stream(a[1..]) + Stream(b));
    }
  }

  /** Both callers of Feed read into a buffer of 64 KiB; a read may bring less. */
  const READ_BUFFER: nat := 0x1_0000

  ghost predicate Readable(chunks: seq<string>) {
    forall c | c in chunks :: |c| <= READ_BUFFER
  }

  /** A text read in full buffers. */
  function Reads(text: string): (chunks: seq<string>)
    ensures Readable(chunks) && Flatten(chunks) == text
    decreases |text|
  {
    if text == "" then []
    else if |text| <= READ_BUFFER then assert [text][1..] == [] && Flatten([text]) == text + ""; [text]
    else
      var more := Reads(text[READ_BUFFER..]);
      assert ([text[..READ_BUFFER]] + more)[1..] == more;
      [text[..READ_BUFFER]] + more
  }

  lemma {:induction false} FlattenConcat(a: seq<string>, b: seq<string>)
    ensures Flatten(a + b) == Flatten(a) + Flatten(b)
  {
    if a == [] {
      assert a + b == b;
    } else {
      assert (a + b)[1..] == a[1..] + b;
      FlattenConcat(a[1..], b);
      Assoc(a[0], Flatten(a[1..]), Flatten(b));
    }
  }

  lemma {:induction false} CappedConcat(scratch: string, a: seq<string>, b: seq<string>)
    ensures var r := CappedEach(scratch, a);
            CappedEach(scratch, a + b) == Split(r.lines + CappedEach(r.rest, b).lines, CappedEach(r.rest, b).rest)
    decreases |a|
  {
    hide Capped;
    if a == [] {
      assert a + b == b && [] + CappedEach(scratch, b).lines == CappedEach(scratch, b).lines;
    } else {
      assert (a + b)[1..] == a[1..] + b;
      var r := Capped(scratch, a[0]);
      CappedConcat(r.rest, a[1..], b);
      var m := CappedEach(r.rest, a[1..]);
      Assoc(r.lines, m.lines, CappedEach(m.rest, b).lines);
    }
  }

  lemma {:induction false} NonEmptyAll(lines: seq<string>)
    requires |NonEmpty(lines)| == |lines|
    ensures NonEmpty(lines) == lines
  {
    if lines != [] {
      NonEmptyMembers(lines[1..]);
      NonEmptyAll(lines[1..]);
      assert lines == [lines[0]] + lines[1..];
    }
  }

  lemma NewlineStarts(scratch: string, chunks: seq<string>, after: string)
    requires Flatten(chunks) == "\n" + after && chunks != [] && chunks[0] != ""
    ensures CappedEach(scratch, chunks).lines != [] && CappedEach(scratch, chunks).lines[0] == scratch
  {
    assert chunks[0][0] == Flatten(chunks)[0] == '\n';
  }

  /** An over-long record whose last read ends just before its newline is not read back: at most a tail of it is. */
  lemma CutBeforeNewline(before: seq<string>, r: string, after: seq<string>)
    requires Sendable(before) && Sendable(after) && NewlineFree(r) && |r| > CAP
    ensures var lines := CappedEach("", Reads(Stream(before) + r) + Reads("\n" + Stream(after))).lines;
            |lines| > |before| && |lines[|before|]| <= CAP
  {
    var c0, c1 := Reads(Stream(before) + r), Reads("\n" + Stream(after));
    CappedConcat("", c0, c1);
    CappedLines(c0);
    CappedSimulates("", "", c0);
    ScanStream(before, r);
    ScanNewlineFree("", r);
    assert before + [] == before;
    assert |CappedEach("", c0).lines| == |before|;
    NewlineStarts(CappedEach("", c0).rest, c1, Stream(after));
  }

  /** Some cutting of the stream into such pieces loses an over-long record. */
  lemma OverlongIsLost(records: seq<string>, j: nat)
    requires Sendable(records) && j < |records| && |records[j]| > CAP
    ensures exists chunks :: Flatten(chunks) == Stream(records) && Readable(chunks) && !ReadsBack(records, chunks)
  {
    var before, r, after := records[..j], records[j], records[j + 1..];
    assert r in records;
    assert Sendable(before) && Sendable(after);
    var c0, c1 := Reads(Stream(before) + r), Reads("\n" + Stream(after));
    StreamAround(records, j);
    FlattenConcat(c0, c1);
    CutBeforeNewline(before, r, after);
    CappedLines(c0 + c1);
    ScanStreamAlone(records);
    ShortLine(records, j, c0 + c1);
    hide Reads, Flatten, Stream, ReadsBack;
    assert Readable(c0 + c1);
  }

  lemma ShortLine(records: seq<string>, j: nat, chunks: seq<string>)
    requires j < |records| && |CappedEach("", chunks).lines| == |records|
    requires |CappedEach("", chunks).lines[j]| < |records[j]|
    ensures !ReadsBack(records, chunks)
  {
    var lines := CappedEach("", chunks).lines;
    if NonEmpty(lines) == records { NonEmptyAll(lines); }
  }

  lemma StreamAround(records: seq<string>, j: nat)
    requires Sendable(records) && j < |records|
    ensures Stream(records) == (Stream(records[..j]) + records[j]) + ("\n" + Stream(records[j + 1..]))
  {
    hide *;
    var r, before, after, tail := records[j], records[..j], records[j + 1..], records[j..];
    SendableTail(records, j);
    StreamHead(tail);
    StreamConcat(before, tail);
    assert before + tail == records;
    assert tail[0] == r;
    assert tail[1..] == after;
    Assoc(r, "\n", Stream(after));
    Assoc(Stream(before), r, "\n" + Stream(after));
  }

  lemma SendableTail(records: seq<string>, j: nat)
    requires Sendable(records) && j <= |records|
    ensures Sendable(records[j..])
  {
    assert forall r | r in records[j..] :: r in records;
  }

  lemma {:induction false} CappedNewlineFree(scratch: string, chunks: seq<string>)
    requires NewlineFree(scratch)
    ensures forall l | l in CappedEach(scratch, chunks).lines :: NewlineFree(l)
    decreases |chunks|
  {
    if chunks != [] { CappedNewlineFree(Capped(scratch, chunks[0]).rest, chunks[1..]); }
  }

  /** Every cutting of the stream into pieces of at most 64 KiB gives the submitted records back, if and only if each record is
      non-empty, has no newline in it and fits the cap. */
  lemma RoundTripIff(records: seq<string>)
    ensures (forall chunks | Flatten(chunks) == Stream(records) && Readable(chunks) :: ReadsBack(records, chunks))
        <==> Sendable(records) && forall r | r in records :: |r| <= 1_048_576
  {
    assert WithinCap(records) <==> forall r | r in records :: |r| <= 1_048_576;
    if Sendable(records) && WithinCap(records) {
      forall chunks | Flatten(chunks) == Stream(records) && Readable(chunks) ensures ReadsBack(records, chunks) {
        RoundTrip(records, chunks);
      }
    } else if Sendable(records) {
      var r :| r in records && |r| > CAP;
      var j :| 0 <= j < |records| && records[j] == r;
      OverlongIsLost(records, j);
    } else {
      var chunks := Reads(Stream(records));
      CappedNewlineFree("", chunks);
      NonEmptyMembers(CappedEach("", chunks).lines);
      assert !ReadsBack(records, chunks);
    }
  }

  // ----- the live pipe's reads -----

  /** The pipe hands over one message per record. The client reads each into its buffer, full ones first; the last read of a message
      ends with the newline. */
  function LiveReads(records: seq<string>): (chunks: seq<string>)
    ensures Readable(chunks) && Flatten(chunks) == Stream(records)
  {
    if records == [] then []
    else
      FlattenConcat(Reads(Frame(records[0])), LiveReads(records[1..]));
      Reads(Frame(records[0])) + LiveReads(records[1..])
  }

  /** The first length that is lost on the way: 17 full reads without a newline are over the cap. */
  const LIVE_LIMIT: nat := 17 * READ_BUFFER

  ghost predicate WithinLiveLimit(records: seq<string>) {
    forall r | r in records :: |r| < LIVE_LIMIT
  }

  /** The rest of a message, k full reads of it being pending. */
  lemma {:induction false} MessageEnd(scratch: string, k: nat, r: string) returns (l: string)
    requires |scratch| == k * READ_BUFFER && k <= 16 && NewlineFree(r)
    ensures CappedEach(scratch, Reads(r + "\n")) == Split([l], "")
    ensures if |r| < (17 - k) * READ_BUFFER then l == scratch + r else |l| < |r|
    decreases |r|
  {
    hide CappedEach, Capped, Scan, Flatten, Readable;
    var text := r + "\n";
    if |text| <= READ_BUFFER {
      l := scratch + r;
      OneRead(scratch, r);
    } else {
      var head, tail := r[..READ_BUFFER], r[READ_BUFFER..];
      assert text[..READ_BUFFER] == head && text[READ_BUFFER..] == tail + "\n";
      assert NewlineFree(head) && NewlineFree(tail);
      FullRead(scratch, head, Reads(tail + "\n"));
      assert Reads(text) == [head] + Reads(tail + "\n");
      hide Reads, CappedEach;
      if k < 16 {
        l := MessageEnd(scratch + head, k + 1, tail);
        assert scratch + head + tail == scratch + r;
      } else {
        l := MessageEnd("", 0, tail);
      }
    }
  }

  lemma OneRead(scratch: string, r: string)
    requires NewlineFree(r) && |r + "\n"| <= READ_BUFFER
    ensures CappedEach(scratch, Reads(r + "\n")) == Split([scratch + r], "")
  {
    assert r + "\n" + "" == r + "\n";
    ScanLine(scratch, r, "");
    assert [r + "\n"][1..] == [] && [scratch + r] + [] == [scratch + r];
    assert CappedEach(scratch, [r + "\n"]) == Capped(scratch, r + "\n");
  }

  lemma FullRead(scratch: string, head: string, more: seq<string>)
    requires NewlineFree(head)
    ensures CappedEach(scratch, [head] + more) == CappedEach(if |scratch + head| > CAP then "" else scratch + head, more)
  {
    ScanNewlineFree(scratch, head);
    assert ([head] + more)[1..] == more;
    var rest := CappedEach(if |scratch + head| > CAP then "" else scratch + head, more);
    assert [] + rest.lines == rest.lines;
  }

  lemma FrameOf(r: string)
    requires r != "" && NewlineFree(r)
    ensures Frame(r) == r + "\n"
  {
  }

  /** What the viewer makes of each message: the record, or less than it. */
  lemma {:induction false} LiveLines(records: seq<string>)
    requires Sendable(records)
    ensures var r := CappedEach("", LiveReads(records));
            && r.rest == "" && |r.lines| == |records|
            && forall i | 0 <= i < |records| ::
                 if |records[i]| < LIVE_LIMIT then r.lines[i] == records[i] else |r.lines[i]| < |records[i]|
  {
    if records != [] {
      var x, more := records[0], records[1..];
      assert LiveReads(records) == Reads(Frame(x)) + LiveReads(more);
      StreamHead(records);
      FrameOf(x);
      hide *;
      var l := MessageEnd("", 0, x);
      assert "" + x == x;
      LiveLines(more);
      CappedConcat("", Reads(x + "\n"), LiveReads(more));
      assert CappedEach("", LiveReads(records)).lines == [l] + CappedEach("", LiveReads(more)).lines;
    }
  }

  /** Over the live pipe a list of records reads back if and only if each is non-empty, newline-free and shorter than 17 full
      reads. */
  lemma LiveRoundTripIff(records: seq<string>)
    ensures ReadsBack(records, LiveReads(records)) <==> Sendable(records) && WithinLiveLimit(records)
  {
    var lines := CappedEach("", LiveReads(records)).lines;
    if Sendable(records) {
      LiveLines(records);
      if WithinLiveLimit(records) {
        assert forall i | 0 <= i < |records| :: records[i] in records;
        assert lines == records;
        NonEmptySendable(records);
      } else {
        var r :| r in records && |r| >= LIVE_LIMIT;
        var j :| 0 <= j < |records| && records[j] == r;
        ShortLine(records, j, LiveReads(records));
      }
    } else {
      CappedNewlineFree("", LiveReads(records));
      NonEmptyMembers(lines);
    }
  }

  /** A live stream and a replay file with the same bytes give the same records, however they are read. */
  lemma LiveEqualsReplay(records: seq<string>, live: seq<string>, replay: seq<string>)
    requires Sendable(records) && WithinCap(records)
    requires Flatten(live) == Stream(records) == Flatten(replay)
    ensures NonEmpty(CappedEach("", live).lines) == NonEmpty(CappedEach("", replay).lines) == records
  {
    RoundTrip(records, live);
    RoundTrip(records, replay);
  }

  /** A reader that starts on a fresh stream with an old partial line pending, as after a reconnect: however the stream is read,
      its records read back if and only if nothing was pending. */
  lemma StaleScratch(scratch: string, records: seq<string>, chunks: seq<string>)
    requires NewlineFree(scratch) && |scratch| <= CAP && Sendable(records) && records != []
    requires Flatten(chunks) == Stream(records)
    ensures scratch != "" ==> NonEmpty(CappedEach(scratch, chunks).lines) != records
    ensures WithinCap(records) ==> (NonEmpty(CappedEach(scratch, chunks).lines) == records <==> scratch == "")
  {
    if scratch == "" {
      if WithinCap(records) { RoundTrip(records, chunks); }
    } else {
      var r, more := records[0], records[1..];
      var lines := CappedEach(scratch, chunks).lines;
      StreamHead(records);
      FirstLine(scratch, r, Stream(more), chunks);
      AsManyLines(scratch, records, chunks);
      if NonEmpty(lines) == records { NonEmptyAll(lines); }
    }
  }

  lemma AsManyLines(scratch: string, records: seq<string>, chunks: seq<string>)
    requires NewlineFree(scratch) && |scratch| <= CAP && Sendable(records) && records != []
    requires Flatten(chunks) == Stream(records)
    ensures |CappedEach(scratch, chunks).lines| == |records|
  {
    CappedSimulates(scratch, scratch, chunks);
    ChunkingIndependence(scratch, chunks);
    StreamHead(records);
    ScanStreamAlone(records[1..]);
    ScanLine(scratch, records[0], Stream(records[1..]));
  }

  /** Where a cut falls in a line and what follows it. */
  lemma CutLineText(k: string, m: string, r: string, after: string)
    requires k + m == r + "\n" + after
    ensures |k| > |r| ==> k == r + "\n" + k[|r| + 1..]
    ensures |k| <= |r| ==> r == k + r[|k|..] && m == r[|k|..] + "\n" + after
  {
    var t := r + "\n" + after;
    assert t[..|k|] == k && t[|k|..] == m;
    assert t[..|r|] == r && t[|r|] == '\n';
    if |k| > |r| {
      assert k[..|r|] == t[..|r|] && k[|r|] == t[|r|];
    } else {
      assert r[..|k|] == t[..|k|];
      assert t[|k|..] == r[|k|..] + "\n" + after;
    }
  }

  /** The first line read is the pending text and the first record whole, or, once something has been discarded, less than
      that record. */
  lemma {:induction false} FirstLine(scratch: string, r: string, after: string, chunks: seq<string>)
    requires |scratch| <= CAP && NewlineFree(r) && Flatten(chunks) == r + "\n" + after
    ensures CappedEach(scratch, chunks).lines != []
    ensures var l := CappedEach(scratch, chunks).lines[0]; l == scratch + r || |l| < |r|
    decreases |chunks|
  {
    var k, more := chunks[0], chunks[1..];
    CutLineText(k, Flatten(more), r, after);
    if |k| > |r| {
      ScanLine(scratch, r, k[|r| + 1..]);
    } else {
      var r' := r[|k|..];
      ScanNewlineFree(scratch, k);
      var c := Capped(scratch, k).rest;
      assert c == if |scratch + k| > CAP then "" else scratch + k;
      FirstLine(c, r', after, more);
      assert c == scratch + k ==> c + r' == scratch + r;
      assert [] + CappedEach(c, more).lines == CappedEach(c, more).lines;
    }
  }

  lemma ScanStreamAlone(records: seq<string>)
    requires Sendable(records)
    ensures Scan("", Stream(records)) == Split(records, "")
  {
    ScanStream(records, "");
    assert Stream(records) + "" == Stream(records) && records + [] == records;
  }
}
