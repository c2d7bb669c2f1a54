/** From a sampler's Submit to the viewer's record list, across the ring, the writer thread, the pipe server and the splitter. */
module EndToEnd {
  import opened Framing
  import opened Subsequences
  import W = WriterThread
  import P = PipeProtocol
  import R = RollingRecorder
  import RingProtocol

  /** The non-empty records submitted in a schedule of the writer side. */
  function Raw(events: seq<W.Event>): seq<string> {
    if events == [] then [] else RawOf(events[0]) + Raw(events[1..])
  }

  function RawOf(e: W.Event): seq<string> {
    if e.Submit? && e.rec != "" then [e.rec] else []
  }

  function Strip(line: string): string {
    if line == "" then "" else line[..|line| - 1]
  }

  function StripAll(lines: seq<string>): (s: seq<string>)
    ensures |s| == |lines|
  {
    if lines == [] then [] else StripAll(lines[..|lines| - 1]) + [Strip(lines[|lines| - 1])]
  }

  lemma {:induction false} StripAllSnoc(a: seq<string>, b: seq<string>)
    ensures StripAll(a + b) == StripAll(a) + StripAll(b)
  {
    if b == [] {
      assert a + b == a;
    } else {
      StripAllSnoc(a, b[..|b| - 1]);
      assert (a + b)[..|a + b| - 1] == a + b[..|b| - 1];
    }
  }

  lemma {:induction false} StripKeepsSubseq(a: seq<string>, b: seq<string>)
    requires IsSubseq(a, b)
    ensures IsSubseq(StripAll(a), StripAll(b))
    decreases |b|
  {
    if a != [] {
      if a[|a| - 1] == b[|b| - 1] && IsSubseq(a[..|a| - 1], b[..|b| - 1]) {
        StripKeepsSubseq(a[..|a| - 1], b[..|b| - 1]);
        Take(StripAll(a[..|a| - 1]), StripAll(b[..|b| - 1]), Strip(a[|a| - 1]));
      } else {
        StripKeepsSubseq(a, b[..|b| - 1]);
        Skip(StripAll(a), StripAll(b[..|b| - 1]), Strip(b[|b| - 1]));
      }
    }
  }

  lemma StripOne(e: W.Event)
    requires Sendable(RawOf(e))
    ensures StripAll(W.SubmittedBy(e)) == RawOf(e)
    ensures forall f | f in W.SubmittedBy(e) :: f == Strip(f) + "\n" && Strip(f) in RawOf(e)
  {
    if e.Submit? && e.rec != "" {
      var r := e.rec;
      assert r in RawOf(e) && Frame(r) == r + "\n" && Strip(r + "\n") == r;
      assert [r + "\n"][..0] == [] && StripAll([r + "\n"]) == [r];
    }
  }

  /** Taking the terminators off what Submit framed gives back what was submitted. */
  lemma {:induction false} StripSubmitted(events: seq<W.Event>)
    requires Sendable(Raw(events))
    ensures StripAll(W.Submitted(events)) == Raw(events)
    ensures forall f | f in W.Submitted(events) :: f == Strip(f) + "\n" && Strip(f) in Raw(events)
  {
    hide StripAll, Strip, RawOf, W.SubmittedBy, NewlineFree;
    if events == [] {
      assert StripAll([]) == [];
    } else {
      var head, more := RawOf(events[0]), Raw(events[1..]);
      assert forall r | r in head :: r in head + more;
      assert forall r | r in more :: r in head + more;
      StripOne(events[0]);
      StripSubmitted(events[1..]);
      StripAllSnoc(W.SubmittedBy(events[0]), W.Submitted(events[1..]));
    }
  }

  /** A list of terminated records is the stream of the records without their terminators. */
  lemma {:induction false} WrittenIsStream(written: seq<string>)
    requires forall f | f in written :: f == Strip(f) + "\n" && Strip(f) != "" && NewlineFree(Strip(f))
    ensures Flatten(written) == Stream(StripAll(written))
    ensures forall r | r in StripAll(written) :: exists f :: f in written && r == Strip(f)
  {
    if written != [] {
      var n := |written| - 1;
      var f := written[n];
      assert written == written[..n] + [f];
      WrittenIsStream(written[..n]);
      FlattenConcat(written[..n], [f]);
      StreamConcat(StripAll(written[..n]), [Strip(f)]);
      assert [f][1..] == [] && [Strip(f)][1..] == [];
      assert Flatten([f]) == f + "" == f;
      assert f in written;
      assert Frame(Strip(f)) == f;
      assert Stream([Strip(f)]) == f + "" == f;
    }
  }

  /** What Submit framed reads back as what was submitted: any selection of it, in any reads, and what a cut-off record leaves. */
  lemma SelectionReadsBack(events: seq<W.Event>, lines: seq<string>, tail: string, chunks: seq<string>)
    requires Sendable(Raw(events)) && WithinCap(Raw(events)) && IsSubseq(lines, W.Submitted(events))
    requires NewlineFree(tail) && |tail| <= CAP && Flatten(chunks) == Flatten(lines) + tail
    ensures NonEmpty(CappedEach("", chunks).lines) == StripAll(lines) && CappedEach("", chunks).rest == tail
    ensures IsSubseq(StripAll(lines), Raw(events))
  {
    hide IsSubseq;
    StripSubmitted(events);
    StripKeepsSubseq(lines, W.Submitted(events));
    Members(lines, W.Submitted(events));
    WrittenIsStream(lines);
    assert Sendable(StripAll(lines)) && WithinCap(StripAll(lines));
    RoundTripThen(StripAll(lines), tail, chunks);
  }

  // ----- live -----

  /** What a client's pipe took is a selection of the submitted records, and maybe the first bytes of one more. */
  lemma WrittenWasSubmitted(log: nat, events: seq<W.Event>, w: W.Pipeline, acts: seq<P.Action>, s: P.Server, c: nat)
    requires log <= 63 && W.Happens(W.Start(log), events, w) && P.Run(P.EMPTY, acts, s) && c < |s.sessions|
    requires s.broadcasts <= w.broadcast
    ensures IsSubseq(s.sessions[c].enqueued, W.Submitted(events))
    ensures IsSubseq(s.sessions[c].written, W.Submitted(events))
  {
    hide IsSubseq;
    W.PipelineIsSafe(log, events, w);
    P.ServerIsSafe(acts, s);
    var k := s.sessions[c];
    EnqueuedAmong(s, c);
    Reflexive(w.ring.accepted);
    Prefix(w.ring.accepted, w.ring.accepted, |s.broadcasts|);
    assert s.broadcasts == w.ring.accepted[..|s.broadcasts|];
    Transitive(k.enqueued, s.broadcasts, w.ring.accepted);
    Transitive(k.enqueued, w.ring.accepted, W.Submitted(events));
    Prefix(k.enqueued, W.Submitted(events), |k.written|);
    assert k.enqueued[..|k.written|] == k.written;
  }

  lemma EnqueuedAmong(s: P.Server, c: nat)
    requires c < |s.sessions| && P.Accounted(s, c)
    ensures IsSubseq(s.sessions[c].enqueued, s.broadcasts)
  {
    hide IsSubseq;
    var k := s.sessions[c];
    var n := |s.broadcasts| - (if P.Owed(s, c) then 1 else 0);
    assert s.broadcasts[k.joinedAt..n] == s.broadcasts[..n][k.joinedAt..];
    SuffixOf(s.broadcasts[..n], k.joinedAt);
    Transitive(k.enqueued, s.broadcasts[k.joinedAt..n], s.broadcasts[..n]);
    Reflexive(s.broadcasts);
    Prefix(s.broadcasts, s.broadcasts, n);
    Transitive(k.enqueued, s.broadcasts[..n], s.broadcasts);
  }

  /** The bytes a failed write leaves in the pipe are the beginning of a record, short of its terminator. */
  lemma PartialIsATail(events: seq<W.Event>, s: P.Server, c: nat)
    requires c < |s.sessions| && P.Conserved(s, c) && IsSubseq(s.sessions[c].enqueued, W.Submitted(events))
    requires Sendable(Raw(events)) && WithinCap(Raw(events))
    ensures NewlineFree(s.sessions[c].partial) && |s.sessions[c].partial| <= CAP
  {
    var k := s.sessions[c];
    if k.discarded != [] {
      var f := k.discarded[0];
      assert f in k.discarded && f in k.enqueued;
      Members(k.enqueued, W.Submitted(events));
      StripSubmitted(events);
      assert f == Strip(f) + "\n" && Strip(f) in Raw(events);
      assert k.partial == Strip(f)[..|k.partial|];
    }
  }

  /** The whole way: take any schedule of the writer side, any interleaving of the pipe server whose broadcasts are the writer's,
      and any cutting of a client's byte stream into reads. If the submitted records hold no newline and fit the viewer's cap,
      the viewer's lines are a selection of the submitted records, each one whole, in order and at most once; the beginning of a
      record whose write failed is never taken for one. */
  lemma ViewerSeesSubmittedRecords(log: nat, events: seq<W.Event>, w: W.Pipeline, acts: seq<P.Action>, s: P.Server, c: nat,
                                   chunks: seq<string>)
    requires log <= 63 && W.Happens(W.Start(log), events, w) && P.Run(P.EMPTY, acts, s) && c < |s.sessions|
    requires s.broadcasts <= w.broadcast
    requires Sendable(Raw(events)) && WithinCap(Raw(events))
    requires Flatten(chunks) == Flatten(s.sessions[c].written) + s.sessions[c].partial
    ensures var seen := NonEmpty(CappedEach("", chunks).lines);
            && IsSubseq(seen, Raw(events)) && seen == StripAll(s.sessions[c].written)
            && CappedEach("", chunks).rest == s.sessions[c].partial
  {
    hide IsSubseq;
    WrittenWasSubmitted(log, events, w, acts, s, c);
    P.ServerIsSafe(acts, s);
    PartialIsATail(events, s, c);
    SelectionReadsBack(events, s.sessions[c].written, s.sessions[c].partial, chunks);
  }

  /** Once everything has come to rest, for a client still listed, whenever it joined: the submitted records are those broadcast
      before it joined, those its viewer has seen, and exactly those counted as dropped at the ring, refused at the watermark,
      skipped while dead or discarded with a failed write. The viewer has seen every broadcast since it joined if and only if the
      last three counts are zero, and every submitted record if and only if it joined first and nothing was lost. */
  lemma EveryRecordIsAccountedFor(log: nat, events: seq<W.Event>, w: W.Pipeline, acts: seq<P.Action>, s: P.Server, c: nat,
                                  chunks: seq<string>)
    requires log <= 63 && W.Happens(W.Start(log), events, w) && P.Run(P.EMPTY, acts, s) && c < |s.sessions|
    requires w.ring.producers == [RingProtocol.PIdle] && s.broadcasts == w.broadcast == w.ring.accepted
    requires c in s.clients && !P.Owed(s, c) && P.Batch(s, c) == [] && s.sessions[c].q.outbound == []
    requires Sendable(Raw(events)) && WithinCap(Raw(events))
    requires Flatten(chunks) == Flatten(s.sessions[c].written) + s.sessions[c].partial
    ensures var k, seen := s.sessions[c], NonEmpty(CappedEach("", chunks).lines);
            var lost := k.drops + k.skips + |k.discarded|;
            && k.joinedAt <= |s.broadcasts|
            && |Raw(events)| == w.ring.dropped + k.joinedAt + |seen| + lost
            && (seen == StripAll(s.broadcasts[k.joinedAt..]) <==> lost == 0)
            && (seen == Raw(events) <==> w.ring.dropped + k.joinedAt + lost == 0)
  {
    hide IsSubseq;
    var k, seen := s.sessions[c], NonEmpty(CappedEach("", chunks).lines);
    ViewerSeesSubmittedRecords(log, events, w, acts, s, c, chunks);
    StripSubmitted(events);
    W.PipelineIsSafe(log, events, w);
    P.ServerIsSafe(acts, s);
    Settled(s, c);
    var since := s.broadcasts[k.joinedAt..];
    hide *;
    assert |since| == |s.broadcasts| - k.joinedAt;
    if |seen| == |Raw(events)| { SameLength(seen, Raw(events)); }
    if |seen| == |since| { SameLength(k.written, since); }
  }

  lemma Settled(s: P.Server, c: nat)
    requires c < |s.sessions| && P.Conserved(s, c) && P.Accounted(s, c) && c in s.clients
    requires !P.Owed(s, c) && P.Batch(s, c) == [] && s.sessions[c].q.outbound == []
    ensures var k := s.sessions[c];
            && k.joinedAt <= |s.broadcasts|
            && |s.broadcasts| == k.joinedAt + |k.written| + |k.discarded| + k.drops + k.skips
  {
  }

  // ----- replayed -----

  function Texts(entries: seq<R.Entry>): (texts: seq<string>)
    ensures |texts| == |entries|
  {
    if entries == [] then [] else Texts(entries[..|entries| - 1]) + [entries[|entries| - 1].text]
  }

  /** What the recorder's Append was called with. */
  function Appended(acts: seq<R.Action>): seq<string> {
    if acts == [] then [] else (if acts[0].Append? then [acts[0].text] else []) + Appended(acts[1..])
  }

  lemma {:induction false} TextsConcat(a: seq<R.Entry>, b: seq<R.Entry>)
    ensures Texts(a + b) == Texts(a) + Texts(b)
  {
    if b == [] {
      assert a + b == a;
    } else {
      TextsConcat(a, b[..|b| - 1]);
      assert (a + b)[..|a + b| - 1] == a + b[..|b| - 1];
    }
  }

  lemma {:induction false} TextsKeepSubseq(a: seq<R.Entry>, b: seq<R.Entry>)
    requires IsSubseq(a, b)
    ensures IsSubseq(Texts(a), Texts(b))
    decreases |b|
  {
    if a != [] {
      if a[|a| - 1] == b[|b| - 1] && IsSubseq(a[..|a| - 1], b[..|b| - 1]) {
        TextsKeepSubseq(a[..|a| - 1], b[..|b| - 1]);
        Take(Texts(a[..|a| - 1]), Texts(b[..|b| - 1]), a[|a| - 1].text);
      } else {
        TextsKeepSubseq(a, b[..|b| - 1]);
        Skip(Texts(a), Texts(b[..|b| - 1]), b[|b| - 1].text);
      }
    }
  }

  /** Every record written was appended. */
  lemma {:induction false} WrittenWasAppended(r: R.Recorder, acts: seq<R.Action>)
    ensures IsSubseq(Texts(R.WrittenIn(r, acts)), Appended(acts))
    decreases |acts|
  {
    hide IsSubseq, R.Apply;
    if acts == [] {
      Reflexive<string>([]);
    } else {
      var one := R.WrittenBy(r, acts[0]);
      WrittenWasAppended(R.Apply(r, acts[0]), acts[1..]);
      TextsConcat(one, R.WrittenIn(R.Apply(r, acts[0]), acts[1..]));
      OneWasAppended(r, acts[0]);
      Concat(Texts(one), if acts[0].Append? then [acts[0].text] else [],
             Texts(R.WrittenIn(R.Apply(r, acts[0]), acts[1..])), Appended(acts[1..]));
    }
  }

  lemma OneWasAppended(r: R.Recorder, a: R.Action)
    ensures IsSubseq(Texts(R.WrittenBy(r, a)), if a.Append? then [a.text] else [])
  {
    var one := R.WrittenBy(r, a);
    if one != [] {
      assert one[..0] == [] && Texts(one) == [a.text];
      Reflexive([a.text]);
    }
  }

  lemma {:induction false} FileInLog(gens: seq<R.Gen>, i: nat)
    requires i < |gens|
    ensures IsSubseq(gens[i].file.entries, R.LogOf(gens))
  {
    hide IsSubseq;
    var n := |gens| - 1;
    var front, last := R.LogOf(gens[..n]), gens[n].file.entries;
    var log := front + last;
    if i == n {
      SuffixOf(log, |front|);
      assert log[|front|..] == last;
    } else {
      FileInLog(gens[..n], i);
      Reflexive(log);
      Prefix(log, log, |front|);
      assert log[..|front|] == front;
      Transitive(gens[i].file.entries, front, log);
    }
  }

  /** The recorder's input is a selection of what was submitted. */
  lemma RecordedWasSubmitted(log: nat, events: seq<W.Event>, w: W.Pipeline)
    requires log <= 63 && W.Happens(W.Start(log), events, w)
    ensures IsSubseq(w.recorded, W.Submitted(events))
  {
    hide IsSubseq;
    W.PipelineIsSafe(log, events, w);
    var done, accepted := W.Processed(w), w.ring.accepted;
    assert done == accepted[..|done|];
    Reflexive(accepted);
    Prefix(accepted, accepted, |done|);
    if w.sawRecorder {
      SuffixOf(done, w.teeFrom);
    } else {
      SuffixOf(done, |done|);
      assert done[|done|..] == [];
    }
    Transitive(w.recorded, done, accepted);
    Transitive(w.recorded, accepted, W.Submitted(events));
  }

  /** A session file of this recorder holds a selection of what was appended, in order. */
  lemma FileWasAppended(window: int, before: map<R.Path, R.File>, acts: seq<R.Action>, t: R.Recorder, p: R.Path)
    requires window > 0 && R.Run(R.Fresh(window, before), acts, t)
    requires p in t.disk && p.Session? && p !in before
    ensures IsSubseq(Texts(t.disk[p].entries), Appended(acts))
  {
    hide IsSubseq, R.Run, R.Inv, R.Fresh, R.LogOf, R.WrittenIn;
    var r, entries := R.Fresh(window, before), t.disk[p].entries;
    R.FreshInv(window, before);
    R.RunKeeps(before, r, acts, t);
    assert r.gens == [] && R.LogOf(r.gens) + R.WrittenIn(r, acts) == R.WrittenIn(r, acts);
    var i := R.FileOf(before, t, p);
    FileInLog(t.gens, i);
    TextsKeepSubseq(entries, R.WrittenIn(r, acts));
    WrittenWasAppended(r, acts);
    Transitive(Texts(entries), Texts(R.WrittenIn(r, acts)), Appended(acts));
  }

  /** From Submit to a replay: any schedule of the writer side, any fair run of a recorder that is given what the writer tees, any
      session file it leaves, read in any pieces. The viewer's lines are the file's records, whole, and a selection in order of the
      submitted ones. */
  lemma ReplayShowsSubmittedRecords(log: nat, events: seq<W.Event>, w: W.Pipeline,
                                    window: int, before: map<R.Path, R.File>, acts: seq<R.Action>, t: R.Recorder,
                                    p: R.Path, chunks: seq<string>)
    requires log <= 63 && W.Happens(W.Start(log), events, w)
    requires window > 0 && R.Run(R.Fresh(window, before), acts, t) && Appended(acts) == w.recorded
    requires p in t.disk && p.Session? && p !in before
    requires Sendable(Raw(events)) && WithinCap(Raw(events))
    requires Flatten(chunks) == Flatten(Texts(t.disk[p].entries))
    ensures var seen := NonEmpty(CappedEach("", chunks).lines);
            && seen == StripAll(Texts(t.disk[p].entries)) && IsSubseq(seen, Raw(events))
            && CappedEach("", chunks).rest == ""
  {
    hide IsSubseq;
    var texts := Texts(t.disk[p].entries);
    RecordedWasSubmitted(log, events, w);
    FileWasAppended(window, before, acts, t, p);
    Transitive(texts, w.recorded, W.Submitted(events));
    assert Flatten(texts) + "" == Flatten(texts);
    SelectionReadsBack(events, texts, "", chunks);
  }

  /** If every write has succeeded, replaying all files on disk one after the other, oldest first, shows everything the recorder was
      given except what was in the files already pruned. */
  lemma ReplayShowsNewestRecorded(log: nat, events: seq<W.Event>, w: W.Pipeline,
                                  window: int, before: map<R.Path, R.File>, acts: seq<R.Action>, t: R.Recorder,
                                  chunks: seq<string>)
    requires log <= 63 && W.Happens(W.Start(log), events, w)
    requires window > 0 && R.Run(R.Fresh(window, before), acts, t)
    requires Texts(R.WrittenIn(R.Fresh(window, before), acts)) == w.recorded
    requires Sendable(Raw(events)) && WithinCap(Raw(events))
    requires Flatten(chunks) == Flatten(Texts(R.ReadBack(t)))
    ensures R.Held(t) <= |t.gens|
    ensures var lost := |R.LogOf(t.gens[..|t.gens| - R.Held(t)])|;
            && lost <= |w.recorded| && NonEmpty(CappedEach("", chunks).lines) == StripAll(w.recorded[lost..])
            && CappedEach("", chunks).rest == ""
  {
    hide IsSubseq, R.LogOf, R.ReadBack, R.WrittenIn;
    RecordedWasSubmitted(log, events, w);
    R.DiskHoldsTheNewest(window, before, acts, t);
    var gone, back := R.LogOf(t.gens[..|t.gens| - R.Held(t)]), R.ReadBack(t);
    TextsConcat(gone, back);
    assert w.recorded[|gone|..] == Texts(back);
    SuffixOf(w.recorded, |gone|);
    Transitive(Texts(back), w.recorded, W.Submitted(events));
    assert Flatten(Texts(back)) + "" == Flatten(Texts(back));
    SelectionReadsBack(events, Texts(back), "", chunks);
  }

  /** While at most two files have been closed nothing has been pruned, so it shows everything. */
  lemma ReplayShowsEverythingRecorded(log: nat, events: seq<W.Event>, w: W.Pipeline,
                                      window: int, before: map<R.Path, R.File>, acts: seq<R.Action>, t: R.Recorder,
                                      chunks: seq<string>)
    requires log <= 63 && W.Happens(W.Start(log), events, w)
    requires window > 0 && R.Run(R.Fresh(window, before), acts, t)
    requires |t.rotated| < R.KEEP_ROTATIONS && Texts(R.WrittenIn(R.Fresh(window, before), acts)) == w.recorded
    requires Sendable(Raw(events)) && WithinCap(Raw(events))
    requires Flatten(chunks) == Flatten(Texts(R.ReadBack(t)))
    ensures NonEmpty(CappedEach("", chunks).lines) == StripAll(w.recorded)
  {
    ReplayShowsNewestRecorded(log, events, w, window, before, acts, t, chunks);
    R.NothingPruned(window, before, acts, t);
    assert w.recorded[0..] == w.recorded;
  }
}
