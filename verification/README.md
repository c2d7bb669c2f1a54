# The telemetry spine of Skygraph, verified

Skygraph samples a running game inside an SKSE plugin and shows the samples in a separate viewer. This project models the path
a record takes between the two, and the numeric engines that produce what is recorded, and proves what the code promises about
them for all inputs, all runs and all thread interleavings.

| files | what they model |
|---|---|
| `Bits`, `RingBuffer`, `RingProtocol` | the lock-free ring: as a class with wrapping 64-bit counters, and as its threads' loads, stores and slot accesses |
| `WriterThread` | Submit, the writer loop, the tee to the recorder and the shutdown drain, on top of the ring's steps |
| `PipeServer`, `PipeProtocol`, `PipePasses` | broadcast, bounded client queues, the writer's passes, dying clients; once as classes, once interleaved, and the two tied together pass by pass |
| `Framing`, `NdjsonSource`, `Options` | newline framing, splitting of arbitrary chunks, the 1 MiB discard |
| `RollingRecorder` | rotation, pruning and pinning of session files, against the log of everything written |
| `EndToEnd`, `Subsequences` | the pieces put together, from Submit to the viewer's list of lines, live and replayed |
| `Decay`, `PapyrusAttribution`, `PapyrusSession` | script attribution: the table, its top-N snapshots, its rounded decay, the viewer's running sums |
| `OrderStatistics`, `FrameSampler`, `StutterFlagger` | the circular window of frame times, its median, the stutter decision |
| `MemorySampler`, `CpuBreakdown`, `TelemetryStore` | periodic deadlines, the tick clock and the accumulators, the viewer's capped rings |

How the model is built:

- Code that changes things in place is a class whose methods are proved equal to a function on values; concurrent code is also a
  state machine (`Enabled`, `Apply`, `Run`) with one step per atomic access, lock region or write. What the design promises is
  then proved about those functions and over all runs.
- The ring's counters are modelled by their modification orders. A load of the other thread's counter may return any value that
  is not older than one already seen, which is what an acquire load gives; a load of `_running`, `_recorder` or a client's
  `alive` may be stale too.
- Records are byte strings written as characters; a framed record ends in a newline. JSON text holds no raw newline inside a
  string (section 7 of RFC 8259), which is why interior newlines are excluded where a theorem needs it; parsing is an arbitrary
  partial function.
- `size_t` is 64 bits. Floating-point values are exact reals; the decay factor is an exact rational, 0.55 being 11/20.
- What is not under the code's control is a parameter of a step: clock readings, file names' time stamps, whether a file
  operation or a pipe write succeeds, how bytes are cut into reads.

Where the code and its own words differ, the model follows the code:

- On overflow the design document in the repository's `docs` directory (line 94) wants the oldest record dropped;
  `ring_buffer.h:83-86` drops the new one.
- `ring_buffer.h:12-18` promises one producer, but `Submit` is called from several threads (`plugin.cpp:173`,
  `papyrus_sampler.cpp:112`, `memory_sampler.cpp:135`). FIFO order in all runs holds for at most one producer and for no more
  (`RingProtocol.FifoIffOneProducer`); a lock around the pushes would restore it for any number
  (`RingProtocol.SerializedPushesAreFifo`). The pipeline theorems are for one producer.
- The comment at `papyrus_attribution.cpp:56-57` says idle entries are reaped to keep the table bounded. With the shipped
  factor 0.55 none ever is until the sampler stops (`PapyrusAttribution.IdleStaysForever`,
  `PapyrusAttribution.TableNeverShrinks`); reaping happens exactly for factors below one half (`PapyrusAttribution.ReapsIff`).
- The round trip through the splitter needs records of bounded length. For arbitrary pieces of at most 64 KiB the bound is
  1 MiB (`Framing.RoundTripIff`); for the pipe client's own reads, which fill a 64 KiB buffer until the end of each message, it
  is one byte less than 17 * 64 KiB (`Framing.LiveRoundTripIff`).
- A record submitted while the writer is shutting down can be accepted and never broadcast
  (`WriterThread.LateSubmitIsStranded`). Everything accepted is broadcast in all schedules if and only if no push is accepted
  that does not happen before Stop (`WriterThread.StopDrainsIff`). From any state after Stop the writer can finish by itself, and
  can still broadcast all there is exactly if it has not already taken the ring for empty (`WriterThread.FinishIff`).
- Session file names have a resolution of one second (`rolling_recorder.cpp:24`), and a second open within it truncates
  (`RollingRecorder.SameSecondLoses`). Even truncating an empty file is enough to lose a later record
  (`RollingRecorder.ReusedEmptyNameLoses`): what the recorder needs of an open is exactly that its name is on no list of kept
  files (`RollingRecorder.OpenKeepsRecordsIff`).
- A snapshot's list stays the top N of the decayed table for the shipped factor (`PapyrusAttribution.TopStaysTop`), but not for
  every factor below one half (`PapyrusAttribution.SmallFactorLosesTheTop`); `PapyrusAttribution.TopStaysTopIff` is the condition.

## Model

| member | source | states |
|---|---|---|
| RingBuffer.RoundUpPow2 | plugin/src/transport/ring_buffer.h:56-60 | for every argument up to 2^63 the loop ends with the least power of two not below it |
| RingBuffer.RoundUpPow2TerminatesIff | plugin/src/transport/ring_buffer.h:56-60 | the loop ends exactly for arguments up to 2^63; above, the shifted value wraps to 0 |
| Bits.MaskIsMod | plugin/src/transport/ring_buffer.h:23 | masking with 2^k - 1 is reduction modulo 2^k |
| Bits.MaskAgrees | plugin/src/transport/ring_buffer.h:88 | the mask of a wrapped counter is the slot of the unbounded one |
| Bits.SubAgrees | plugin/src/transport/ring_buffer.h:83 | the wrapped difference of two counters is their true difference |
| RingBuffer.LivePush | plugin/src/transport/ring_buffer.h:88-89 | writing the slot at the head appends one live record and disturbs no other |
| RingBuffer.LivePop | plugin/src/transport/ring_buffer.h:97-98 | taking the slot at the tail removes the oldest live record, whatever the move leaves behind |
| RingBuffer.StringSpscRing.constructor | plugin/src/transport/ring_buffer.h:74-77 | an empty ring whose capacity is the least power of two not below the hint, 1 for hint 0 |
| RingBuffer.StringSpscRing.TryPush | plugin/src/transport/ring_buffer.h:79-91 | appends exactly when there is room; else the new record is dropped and counted and the contents are unchanged |
| RingBuffer.StringSpscRing.TryPop | plugin/src/transport/ring_buffer.h:93-100 | fails exactly on an empty ring, else returns the oldest record and leaves the rest |
| RingProtocol.WrappedAgrees | plugin/src/transport/ring_buffer.h:83-97 | in every reachable state the overflow test, the empty test and the slot indices computed from wrapped counters are those of unbounded ones |
| RingProtocol.StepKeepsInv | plugin/src/transport/ring_buffer.h:79-100 | every atomic step of one producer and one consumer, with stale loads, keeps the ring's invariant |
| RingProtocol.QueueIsAcceptedNotPopped | plugin/src/transport/ring_buffer.h:79-100 | accepted records are the popped ones followed by what the slots hold, in order, never more than the capacity |
| RingProtocol.StepRefinesFifo | plugin/src/transport/ring_buffer.h:79-100 | each step is one operation of a bounded FIFO or none: a push takes effect at its head store, a pop at its tail store |
| RingProtocol.RunRefinesFifo | plugin/src/transport/ring_buffer.h:12-18 | in every interleaving the ring behaves as a bounded FIFO that drops new records |
| RingProtocol.AcceptedIsPoppedThenLive | plugin/src/transport/ring_buffer.h:12-18 | from the empty ring, whatever the interleaving: no accepted record is lost, duplicated or reordered |
| RingProtocol.SlotAccessesAreOrdered | plugin/src/transport/ring_buffer.h:81-98 | producer and consumer never stand before the same slot, and each slot access is preceded by an acquired publication of the previous conflicting one |
| RingProtocol.DropIffFullAtLoadedTail | plugin/src/transport/ring_buffer.h:83-86 | a push is dropped if and only if the ring is full relative to the tail it loaded; with a fresh load, if and only if it is full |
| RingProtocol.EmptyMeansCaughtUp | plugin/src/transport/ring_buffer.h:94-96 | TryPop reports an empty ring only when everything up to the head it loaded has been popped |
| RingProtocol.TwoProducersLoseARecord | plugin/src/transport/ring_buffer.h:15-17 | for every capacity and any number of producers from two up, a run in which two pushes succeed, the first record is never popped and the ring is empty |
| RingProtocol.SerializedPushesAreFifo | plugin/src/transport/writer_thread.h:31-33 | any number of producers whose pushes are serialized as by a lock: the ring is a bounded FIFO for them, nothing accepted is lost, duplicated or reordered |
| RingProtocol.FifoIffOneProducer | plugin/src/transport/ring_buffer.h:12-18 | for every capacity: in all runs the popped records are the first accepted ones, in order, if and only if there is at most one producer |
| WriterThread.WriterThread.Submit | plugin/src/transport/writer_thread.cpp:27-31 | ignores an empty record, else queues it with exactly one terminator appended if missing, or counts a drop when the ring is full |
| WriterThread.EventKeepsInv | plugin/src/transport/writer_thread.cpp:33-67 | every step of the submitter, the writer loop, the drain, AttachRecorder and Stop keeps the pipeline's invariant |
| WriterThread.PipelineIsSafe | plugin/src/transport/writer_thread.cpp:39-48 | in every schedule each accepted record is broadcast once and in order, before the recorder gets it; the recorder has the broadcasts since it was first seen; non-empty submissions = accepted + dropped + in flight |
| WriterThread.StopDrains | plugin/src/transport/writer_thread.cpp:60-66 | when the writer has finished, all records pushed before Stop are broadcast; broadcast = accepted exactly when the ring is empty; the recorder holds a suffix of the broadcasts |
| WriterThread.SubmittedIsHistory | plugin/src/transport/writer_thread.cpp:27-31 | what enters the ring's pushes is exactly the framed non-empty submissions of the schedule |
| WriterThread.StopDrainsIff | plugin/src/transport/writer_thread.cpp:22-66 | for every capacity, n accepted records and b of them pushed before Stop: in all schedules everything accepted is broadcast if and only if b = n |
| WriterThread.Finish | plugin/src/transport/writer_thread.cpp:39-66 | from every reachable state after Stop, the writer's own steps lead to its end: it looks at _running again, drains, and gives an attached recorder every broadcast it was not yet asked about |
| WriterThread.FinishIff | plugin/src/transport/writer_thread.cpp:39-66 | from such a state its own steps can broadcast everything accepted if and only if it is not in the drain with a loaded head that hides a later push |
| WriterThread.AttachThenFinish | plugin/src/transport/writer_thread.h:25-29 | a recorder attached as late as after Stop is given every broadcast the writer has not yet asked about |
| WriterThread.LateSubmitIsStranded | plugin/src/transport/writer_thread.cpp:22-25 | for every capacity and all b < n, a schedule with n accepted records, b of them pushed before Stop, whose last one is never broadcast |
| PipeServer.PipeServer.Broadcast | plugin/src/transport/pipe_server.cpp:106-121 | each client gets the record or not by its own state alone; the drop counter grows by the number of refusals |
| PipePasses.BroadcastPass | plugin/src/transport/pipe_server.cpp:106-121 | a whole broadcast in the protocol leaves each listed client's queue as the method's specification says, the others untouched, and the drop counter grown by the refusals |
| PipePasses.BroadcastFollowsProtocol | plugin/src/transport/pipe_server.cpp:106-121 | calling the method on a server that stands as the protocol does leaves it as that run leaves the protocol: same queues in the same order, same drops, same invariant |
| PipeServer.PipeServer.SnapshotAndReap | plugin/src/transport/pipe_server.cpp:248-261 | the pass works on the whole list; afterwards exactly the living clients remain, in order |
| PipePasses.SnapshotFollowsProtocol | plugin/src/transport/pipe_server.cpp:248-261 | the method hands out the list the protocol's pass works on and leaves the list the protocol leaves, all of them living |
| PipeServer.PipeServer.WriteOut | plugin/src/transport/pipe_server.cpp:264-288 | a living client's queue is taken whole and written in order, all of it or up to the byte at which the pipe fails, which kills the client; a dead one is not touched |
| PipePasses.WriteOutFollowsProtocol | plugin/src/transport/pipe_server.cpp:264-288 | the method's turn for a client is a turn of the protocol: same queue afterwards, same records taken whole, same bytes of a broken-off one |
| PipePasses.PassWritesEverything | plugin/src/transport/pipe_server.cpp:247-288 | after a complete pass, whatever other threads did meanwhile, every listed client neither found dead nor failed to write to has been written everything it had been given when the pass began |
| PipePasses.PassExists | plugin/src/transport/pipe_server.cpp:247-288 | between passes such a pass can always be made, and writes every living listed client's queue out |
| PipePasses.JoinIsListed | plugin/src/transport/pipe_server.cpp:178-183 | a new client is listed last, alive, with nothing queued; nobody else notices |
| PipePasses.ReaderExitEndsClient | plugin/src/transport/pipe_server.cpp:232-232 | a client whose reader has ended is dead and is taken off the list by the next snapshot that finds it so |
| PipeServer.CommandReader.OnRead | plugin/src/transport/pipe_server.cpp:198-230 | however the input is cut into reads, the commands dispatched at a complete read are the non-empty lines of the whole input; nothing is split while more of a message is to come |
| PipeServer.CommandReader.SplitLines | plugin/src/transport/pipe_server.cpp:214-229 | the loop dispatches every non-empty complete line in order and keeps the unfinished rest |
| PipeProtocol.StepKeepsInv | plugin/src/transport/pipe_server.cpp:106-121 | every step of broadcaster, writer, acceptor and readers keeps queues conserved, byte counts right and drops accounted for |
| PipeProtocol.ConservedKept | plugin/src/transport/pipe_server.cpp:264-288 | per client: enqueued = written ++ discarded ++ batch in hand ++ queue, pending = bytes queued <= 16 MiB, nothing discarded unless the writer lost the client, and of the first discarded record at most its beginning is in the pipe; only dead clients are skipped |
| PipeProtocol.AccountedKept | plugin/src/transport/pipe_server.cpp:108-120 | per client: what was enqueued is a selection, in order, of the broadcasts since it joined, and enqueued + refused + skipped adds up to them while it is listed |
| PipeProtocol.ServerIsSafe | plugin/src/transport/pipe_server.cpp:106-290 | both hold in every run; what a pipe took is a selection of the broadcasts since the client joined; the drop counter is the sum of the clients' refusals |
| PipeProtocol.RefusedIffOverWatermark | plugin/src/transport/pipe_server.cpp:112-119 | a record is refused and counted exactly when it would take the bytes really queued over the watermark, and queued otherwise |
| PipeProtocol.DeadStaysDead | plugin/src/transport/pipe_server.cpp:265-285 | a dead client never revives, and once the writer has lost it nothing more is written to it |
| PipeProtocol.ClientsAreIsolated | plugin/src/transport/pipe_server.cpp:108-288 | two runs that treat a client alike leave it alike, whatever else they do: other clients may join, back up, be refused, fail or die in one run and not in the other |
| Framing.ScanConcat | viewer/src/transport/ndjson_source.cpp:36-53 | splitting can stop and resume at any byte |
| Framing.ChunkingIndependence | viewer/src/transport/ndjson_source.cpp:31-53 | the lines found do not depend on how the stream is cut into chunks |
| Framing.CappedSimulates | viewer/src/transport/ndjson_source.cpp:55-59 | the capped splitter sees as many lines as the uncapped one, each a tail of the true line and equal to it unless it is over 1 MiB; its scratch is newline-free, within 1 MiB and a tail of the true rest |
| Framing.CappedLines | viewer/src/transport/ndjson_source.cpp:31-60 | the same for whole streams and every chunking: back in step at the next newline after any discard |
| Framing.RoundTrip | plugin/src/transport/writer_thread.cpp:27-31 | non-empty newline-free records within 1 MiB come back exactly, in order, from any cutting of their framed stream |
| Framing.RoundTripIff | viewer/src/transport/ndjson_source.cpp:43-59 | every cutting of the framed stream into arbitrary pieces of at most 64 KiB gives the records back if and only if each is non-empty, newline-free and within 1 MiB |
| Framing.OverlongIsLost | viewer/src/transport/ndjson_source.cpp:55-59 | for any record over 1 MiB there is a cutting into pieces of at most 64 KiB, one of them ending just before its newline, that loses it |
| Framing.LiveRoundTripIff | viewer/src/transport/pipe_client.cpp:93-112 | read as the pipe client reads, each record's message in full 64 KiB buffers, a list of records comes back if and only if each is non-empty, newline-free and shorter than 17 * 64 KiB |
| Framing.LiveLines | viewer/src/transport/pipe_client.cpp:93-112 | one line per message: the record itself below that length, less than it from there on; nothing stays pending |
| Framing.RoundTripThen | viewer/src/transport/ndjson_source.cpp:36-53 | when a stream breaks off inside a line, the whole records come back and the rest stays pending |
| Framing.LiveEqualsReplay | viewer/src/transport/file_source.cpp:41-64 | for non-empty newline-free records within 1 MiB, a live stream and a replay file with the same bytes give the same records, however each is read |
| Framing.StaleScratch | viewer/src/transport/pipe_client.cpp:59-121 | a partial line left pending by a lost connection spoils the next stream however it is read and cut by the cap: its records read back if and only if nothing was pending |
| NdjsonSource.NdjsonSource.Feed | viewer/src/transport/ndjson_source.cpp:31-60 | queues what the non-empty lines of the capped splitter parse to, in order, skips what does not parse, counts bytes and records |
| NdjsonSource.NdjsonSource.Drain | viewer/src/transport/ndjson_source.cpp:7-16 | hands out the oldest min(max, queued) records and keeps the others in order |
| NdjsonSource.NdjsonSource.SplitLines | viewer/src/transport/ndjson_source.cpp:38-53 | the loop queues the record of every non-empty complete line that parses, in order, counts it, and keeps the unfinished rest |
| NdjsonSource.DrainedThenQueued | viewer/src/transport/ndjson_source.cpp:7-60 | however Feed and Drain calls interleave and whatever each Drain asks for: drained ++ queued = the records of the lines fed, in order |
| NdjsonSource.DrainedRoundTrip | viewer/src/transport/ndjson_source.cpp:7-60 | values printed, framed, cut into chunks, fed and drained in any portions: what has come out is a prefix of them, and all of them exactly when the queue is empty |
| NdjsonSource.ValuesRoundTrip | viewer/src/transport/ndjson_source.cpp:42-50 | values printed one per line arrive complete and in order, for any parser that undoes the printing |
| EndToEnd.ViewerSeesSubmittedRecords | plugin/src/transport/writer_thread.cpp:27-48 | across ring, writer, pipe server and splitter, in every interleaving: the viewer's lines are whole submitted records, in order, each at most once |
| EndToEnd.EveryRecordIsAccountedFor | plugin/src/transport/ring_buffer.h:15-21 | at rest, for a listed client whenever it joined: submitted = dropped at the ring + broadcast before it joined + seen + refused + skipped + discarded; it saw every broadcast since it joined if and only if the last three are zero, and everything submitted if and only if all are |
| EndToEnd.ReplayShowsSubmittedRecords | plugin/src/transport/writer_thread.h:25-26 | from Submit through writer, recorder, disk and replay: any session file, read in any pieces, shows its records whole, and they are a selection in order of the submitted ones |
| EndToEnd.ReplayShowsNewestRecorded | plugin/src/transport/rolling_recorder.cpp:159-165 | if all writes succeed, replaying the files on disk in order shows what the recorder was given, short of exactly the records of the pruned files |
| EndToEnd.ReplayShowsEverythingRecorded | plugin/src/transport/rolling_recorder.cpp:159-165 | its special case while at most two files have been closed: everything is shown |
| RollingRecorder.FileNamesDiffer | plugin/src/transport/rolling_recorder.cpp:116-117 | different sessions and pins have different file names |
| RollingRecorder.CleanIs | plugin/src/transport/rolling_recorder.cpp:108-114 | a pin's name is never empty, holds only letters, digits, dash and underscore, is the requested name exactly if that is so already, and otherwise a selection of it or "pinned" |
| RollingRecorder.AllowedIff | plugin/src/transport/rolling_recorder.cpp:111-112 | the characters kept are exactly letters, digits, dash and underscore |
| RollingRecorder.RollingRecorder.Append | plugin/src/transport/rolling_recorder.cpp:75-92 | the new state of one Append, with rotation, failed opens and failed writes; what that state means is in the laws about runs |
| RollingRecorder.StaysOpenForItsWindow | plugin/src/transport/rolling_recorder.cpp:80-91 | Appends within the open file's window go into it one after the other and change nothing else on disk or in the list |
| RollingRecorder.AppendRotatesIff | plugin/src/transport/rolling_recorder.cpp:80-85 | an Append opens another file exactly when the open one was opened a whole window or more ago |
| RollingRecorder.FailedWriteCloses | plugin/src/transport/rolling_recorder.cpp:88-91 | a failed write closes the file |
| RollingRecorder.SilentUntilStopped | plugin/src/transport/rolling_recorder.cpp:75-100 | after a failed write or open no call but Stop has any effect, in any run |
| RollingRecorder.RollingRecorder.PinCurrent | plugin/src/transport/rolling_recorder.cpp:102-136 | the new state of one pin and its result, with the cleaned name; a failed copy still reopens |
| RollingRecorder.RollingRecorder.PruneOldFiles | plugin/src/transport/rolling_recorder.cpp:159-165 | the loop keeps the three newest closed files and removes all others listed |
| RollingRecorder.RollingRecorder.Start | plugin/src/transport/rolling_recorder.cpp:47-67 | succeeds exactly when not yet running and directory and file can be made, and is off again otherwise |
| RollingRecorder.StartTurnsOn | plugin/src/transport/rolling_recorder.cpp:47-67 | from off: on exactly if directory and file could be made, and then with an empty file open |
| RollingRecorder.StopTurnsOff | plugin/src/transport/rolling_recorder.cpp:69-73 | off, nothing open, nothing written lost |
| RollingRecorder.RollingRecorder.Stop | plugin/src/transport/rolling_recorder.cpp:69-73 | closes the open file once and switches the recorder off |
| RollingRecorder.ActionKeeps | plugin/src/transport/rolling_recorder.cpp:69-165 | every call keeps the invariant: the session files on disk are the kept ones with exactly what was written to them, plus those found at the start |
| RollingRecorder.DiskIsSuffixOfLog | plugin/src/transport/rolling_recorder.cpp:150-165 | everything written = whole oldest files gone, then what is read back from disk |
| RollingRecorder.DiskHoldsTheNewest | plugin/src/transport/rolling_recorder.cpp:75-165 | after any run at most three closed files are kept; read oldest first, with the open one last, they are a suffix of all records written, all of them while fewer than three are closed |
| RollingRecorder.FilesSpanOneWindow | plugin/src/transport/rolling_recorder.cpp:80-85 | in any run each record was appended less than one rolling window after its file was opened |
| RollingRecorder.PinHoldsCurrentFile | plugin/src/transport/rolling_recorder.cpp:119-135 | after any run from the start, a successful pin holds exactly the records the run has written since its last successful open |
| RollingRecorder.PinHoldsWrittenSince | plugin/src/transport/rolling_recorder.cpp:119-135 | from any moment at which a file is open: a pin taken before another is opened holds that file's records followed by all written since |
| RollingRecorder.PinRotates | plugin/src/transport/rolling_recorder.cpp:121-135 | replace every pin of a run by a rotation, whether its copy succeeded or failed: the run stays fair, writes the same records and ends with the same rotated files and the same records on disk |
| RollingRecorder.PinsArePermanent | plugin/src/transport/rolling_recorder.h:44-46 | no later append, rotation, prune, stop or differently named pin alters a pin |
| RollingRecorder.OpenKeepsRecordsIff | plugin/src/transport/rolling_recorder.cpp:138-165 | after an open under some name, every fair continuation keeps a suffix of the log on disk, short of whole oldest files, if and only if the name is on no list of kept files |
| RollingRecorder.ReusedEmptyNameLoses | plugin/src/transport/rolling_recorder.cpp:159-165 | a run in which a name is reused while its file is empty; pruning its older entry later removes the only record written |
| RollingRecorder.SameSecondLoses | plugin/src/transport/rolling_recorder.cpp:20-27 | two opens within one second lose the first file's records |
| Decay.DecayedIsNearest | plugin/src/samplers/papyrus_attribution.cpp:52-55 | the decayed counter is the integer nearest to the product, halves going up |
| Decay.DecayedStep | plugin/src/samplers/papyrus_attribution.cpp:52-55 | a decay never increases a counter and fixes exactly those up to floor(q / (2(q - p))) |
| Decay.IdleReachesFloor | plugin/src/samplers/papyrus_attribution.cpp:48-63 | an idle counter x comes to exactly min(x, floor(q / (2(q - p)))) and stays there |
| Decay.FloorIsZeroIff | plugin/src/samplers/papyrus_attribution.cpp:56-59 | idle counters die out exactly for factors below one half |
| Decay.DiesWithin | plugin/src/samplers/papyrus_attribution.cpp:52-59 | below one half a counter under 2^n is 0 after n snapshots |
| Decay.ShippedNeverDies | plugin/src/samplers/papyrus_sampler.cpp:116-119 | with 0.55 every idle counter ends at 1 |
| Decay.SumIntegratesActivity | viewer/src/state/telemetry_store.cpp:140-143 | (1 - d) times the sum of the emitted values plus d times the last is the total activity, up to half a unit per decay |
| Decay.EmittedBounded | plugin/src/samplers/papyrus_attribution.cpp:48-55 | with at most A per window no emitted value exceeds (A + 1/2) / (1 - d) |
| PapyrusAttribution.PapyrusAttribution.Add | plugin/src/samplers/papyrus_attribution.cpp:13-25 | adds time and one call to the script's entry, creating it if need be; an empty name or zero time changes nothing |
| PapyrusAttribution.PapyrusAttribution.SnapshotTopAndDecay | plugin/src/samplers/papyrus_attribution.cpp:27-66 | returns min(N, size) distinct entries as they were before the decay, descending, none left out being larger; the table is then decayed and reaped |
| PapyrusAttribution.PapyrusAttribution.DecayAll | plugin/src/samplers/papyrus_attribution.cpp:51-63 | the erase-as-you-go loop decays every entry once and removes exactly those whose counters are both 0 |
| PapyrusAttribution.TopStaysTop | plugin/src/samplers/papyrus_attribution.cpp:39-55 | with nothing added and a factor of at least one half, as shipped, the list just emitted is a valid top N of the decayed table |
| PapyrusAttribution.TopStaysTopIff | plugin/src/samplers/papyrus_attribution.cpp:39-63 | for any factor p / q below 1: it is one if and only if every listed script, or no unlisted one, has a counter x with q <= 2 p x before the decay |
| PapyrusAttribution.SmallFactorLosesTheTop | plugin/src/samplers/papyrus_attribution.cpp:56-59 | with factor 1/4, a listed script is reaped while an unlisted one survives |
| PapyrusAttribution.FactorOneReads | plugin/src/diagnostics/stutter_flagger.cpp:60-61 | the flagger's factor 1, like any larger one, leaves the table as it is |
| PapyrusAttribution.ZeroFactorForgets | plugin/src/samplers/papyrus_attribution.cpp:48-49 | a factor of 0 or less empties the table, which is what rounding by 0 would do to every entry |
| PapyrusAttribution.IdleEntry | plugin/src/samplers/papyrus_attribution.cpp:48-63 | an idle entry's counters decay independently, and it is gone exactly once both are 0 |
| PapyrusAttribution.IdleIsReaped | plugin/src/samplers/papyrus_attribution.cpp:56-59 | below one half an idle entry is reaped within n snapshots if its counters are below 2^n |
| PapyrusAttribution.IdleStaysForever | plugin/src/samplers/papyrus_sampler.cpp:117-119 | with 0.55 an idle entry ends as one microsecond and one call and is never reaped |
| PapyrusAttribution.ReapsIff | plugin/src/samplers/papyrus_attribution.cpp:56-59 | for factors below 1, an idle entry is eventually reaped if and only if the factor is below one half |
| PapyrusAttribution.TableNeverShrinks | plugin/src/samplers/papyrus_attribution.cpp:48-74 | in any run of the calls the plugin makes, every script added is still in the table unless a reset came in between; without one the table never shrinks |
| PapyrusSession.PapyrusSampler.EmitTopScripts | plugin/src/samplers/papyrus_sampler.cpp:115-145 | sends the leading scripts with their values before the decay, then decays by 0.55 |
| PapyrusSession.PapyrusSampler.SnapshotLoop | plugin/src/samplers/papyrus_sampler.cpp:216-238 | with the hook's calls coming in between polls: it fires as a periodic timer, and what it sends are the leading scripts of the tables built up by the windows between its firings, each decayed once |
| PapyrusSession.AddAllTotals | plugin/src/samplers/papyrus_attribution.cpp:13-25 | per script the table adds up the time and the number of the hook's calls; calls without name or time leave no trace |
| PapyrusSession.TotalsAreEmitted | plugin/src/samplers/papyrus_attribution.cpp:13-55 | per script, the table at the snapshots runs through exactly the values of the decay recurrence |
| PapyrusSession.WindowsCoverCalls | plugin/src/samplers/papyrus_sampler.cpp:225-237 | every call of the hook falls into exactly one window, in order, and there is one window per firing |
| PapyrusSession.WireSays | plugin/src/samplers/papyrus_sampler.cpp:123-136 | the fields sent of a script, with the divisions multiplied out |
| PapyrusSession.ViewerSumMeasuresActivity | viewer/src/state/telemetry_store.cpp:127-149 | from the hook's calls to the sum S in the viewer's store after any stream with these lists in it: for a script listed in n snapshots, (1 - d) S + d w differs from its true time by at most (n - 1) / 2 |
| PapyrusSession.ListedValuesBounded | plugin/src/samplers/papyrus_attribution.cpp:48-55 | a script with at most A per window is never listed above (A + 1/2) / (1 - d) |
| OrderStatistics.Nth | plugin/src/samplers/frame_sampler.cpp:68 | selection by partition returns the value of the asked rank |
| OrderStatistics.NthIsSorted | plugin/src/samplers/frame_sampler.cpp:68-69 | that value is the one at the same index of the sorted list |
| OrderStatistics.RankIsUnique | plugin/src/samplers/frame_sampler.cpp:68-69 | a rank has one value, so the median is well defined |
| OrderStatistics.ReplacementMovesOneRank | plugin/src/samplers/frame_sampler.cpp:59-60 | replacing one sample moves a rank at most to a neighbouring rank of the old window |
| FrameSampler.FrameState.UpdateRollingP50 | plugin/src/samplers/frame_sampler.cpp:54-70 | the slots hold exactly the last min(n, 240) frame times, the oldest at the index once full, and the published value is their rank floor(n / 2) statistic |
| FrameSampler.FrameState.OnUpdate | plugin/src/samplers/frame_sampler.cpp:76-141 | frame and CPU time are the counter differences in milliseconds, multiplied out; the history grows by the frame time; known + other = max(cpu, known); nothing happens without a counter or a writer |
| FrameSampler.MedianOfSlots | plugin/src/samplers/frame_sampler.cpp:65-69 | the rotation of the slots does not change the median |
| FrameSampler.MedianMovesSmoothly | plugin/src/samplers/frame_sampler.cpp:59-69 | in a full window one frame moves the median at most one rank |
| FrameSampler.FrameTimesAddUp | plugin/src/samplers/frame_sampler.cpp:91-95 | the hook's frame times sum to the time from the first update's begin to the last one's end, short of the gaps after a reading of 0; without such a reading nothing is missing |
| StutterFlagger.StutterFlagger.OnFrame | plugin/src/diagnostics/stutter_flagger.cpp:44-64 | flags by the four guards and lists the eight leading scripts without changing the table |
| StutterFlagger.FlagsIff | plugin/src/diagnostics/stutter_flagger.cpp:47-52 | flagged are exactly the frames at or above the floor and at or above ratio times a positive median, with the flagger on |
| StutterFlagger.FlaggedIsSlow | plugin/src/diagnostics/stutter_flagger.cpp:48-52 | with a ratio above 1 a flagged frame is strictly slower than at least floor(n / 2) + 1 of the n frames in the window, so never one of the first two |
| StutterFlagger.StepIsFlaggedExactly119Times | plugin/src/diagnostics/stutter_flagger.cpp:51-52 | after a full window of F, a lasting step to G >= ratio F is flagged on exactly its first 119 frames |
| MemorySampler.Advance | plugin/src/samplers/memory_sampler.cpp:88-99 | one look at a deadline is one step of a timer |
| MemorySampler.MemorySampler.Loop | plugin/src/samplers/memory_sampler.cpp:72-102 | the two deadlines in one loop behave as two independent timers |
| MemorySampler.NeverEarlyNeverBursts | plugin/src/samplers/memory_sampler.cpp:88-99 | for any non-decreasing polls firing k is not before start + k periods, the next deadline is never in the past, and no three firings fall within one period |
| MemorySampler.AfterStall | plugin/src/samplers/memory_sampler.cpp:88-93 | a firing at most a period late keeps the grid, a later one starts it anew exactly a period from then; in between nothing fires, at the deadline it does |
| MemorySampler.NeverDrifts | plugin/src/samplers/memory_sampler.cpp:90-97 | with polls at most g <= period apart the reset never happens and firing k lies within g after start + k periods |
| CpuBreakdown.QpcIsExact | plugin/src/samplers/cpu_breakdown.cpp:44-53 | the split division is exactly floor(c * 10^6 / freq), and 0 without a counter |
| CpuBreakdown.QpcIsMonotone | plugin/src/samplers/cpu_breakdown.cpp:44-53 | the clock is monotone, so no bracket has a negative delta |
| CpuBreakdown.OverflowSafeIff | plugin/src/samplers/cpu_breakdown.cpp:47-52 | no intermediate value overflows an int64 whenever the result fits, exactly for frequencies up to 9223372036855 |
| CpuBreakdown.Accumulators.ConsumeFrame | plugin/src/samplers/cpu_breakdown.cpp:85-96 | undisturbed, the five exchanges empty all five buckets and hand each one out in milliseconds |
| CpuBreakdown.NothingIsLost | plugin/src/samplers/cpu_breakdown.cpp:69-96 | in every interleaving of additions and exchanges: drained + residual = the sum of the positive deltas, per bucket |
| TelemetryStore.PushCapped | viewer/src/state/telemetry_store.h:164-168 | the loop leaves the last cap elements |
| TelemetryStore.TelemetryStore.Ingest | viewer/src/state/telemetry_store.cpp:31-221 | a record of a kind with a ring or a sum goes to its own ring, latest value or sums, and nowhere else |
| TelemetryStore.TelemetryStore.Clear | viewer/src/state/telemetry_store.cpp:223-247 | a cleared store cannot be told from a new one, in the fields modelled |
| TelemetryStore.RingsHoldTheTail | viewer/src/state/telemetry_store.cpp:53-96 | for any stream each ring is the end of its kind's full history, 3600 or 600 long at most, and each latest value that history's last |
| TelemetryStore.EventsHoldTheTail | viewer/src/state/telemetry_store.cpp:170-199 | the same for the event log; every record is counted |
| TelemetryStore.UnrelatedCommute | viewer/src/state/telemetry_store.cpp:31-221 | adjacent records of unrelated kinds commute |
| TelemetryStore.RingsAlign | plugin/src/samplers/frame_sampler.cpp:107-134 | at every pair boundary of a lossless stream the frame and breakdown rings have equal length and equal time stamps, entry by entry |
| TelemetryStore.SummedOnce | viewer/src/state/telemetry_store.cpp:140-147 | a list of distinct scripts adds each value to its own running sum, once |
| TelemetryStore.ScriptsAreSummed | viewer/src/state/telemetry_store.cpp:127-149 | after any stream the script table is the newest list and the running sums are those of all lists |
| TelemetryStore.NamelessHasNoSum | viewer/src/state/telemetry_store.cpp:144-147 | a script without a name gets no sum |

## Left out

- RingProtocol.RunRefinesFifo: one producer, as the class promises; for more, see the two theorems beside it.
- WriterThread.PipelineIsSafe: one producer, and one recorder attached once, as the plugin does; detaching by a null pointer and re-attaching are not modelled, nor is a second Start.
- RollingRecorder.DiskHoldsTheNewest: for new file names not on disk and removes that succeed; what a name may be, for one open, is settled by the theorem beside it.
- RollingRecorder.FilesSpanOneWindow: the clock reading of a rotating Append is not later than that of the open it makes.
- RollingRecorder.PinsArePermanent: pins of the same name within one second overwrite each other, as the copy options ask.
- PipeProtocol.ConservedKept: a write that fails has taken less than its whole record.
- EndToEnd.EveryRecordIsAccountedFor: for clients not yet reaped from the list; the counts of a reaped one stop there.
- TelemetryStore.TelemetryStore.Clear: the fields of the latest-only kinds are not in the model.
- TelemetryStore.TelemetryStore.Ingest: the latest-only kinds (hello, heartbeat, state, papyrus.snapshot, plugins, streaming, ack) and reading fields out of JSON, where a wrong type falls back to a default.
- MemorySampler.MemorySampler.Loop: takes the two periods as given; their computation from configured rates is not modelled.
- Threads' starting, joining and detaching, overlapped I/O and handles, failures to create or connect a pipe, the connected-client count, the pipe server's Stop.
- The recorder's calls racing on `_running` outside its mutex: each call is one step.
- gzip: a session file is the list of its records; a copy succeeds or fails whole.
- JSON parsing and printing: an arbitrary partial function and its inverse.
- Floating-point rounding: frame times, ratios and the decay are exact; the viewer's sums are natural numbers.
- Overflow of byte counts, record counts and microsecond totals; only the ring's counters and the tick clock are modelled at their width.
- The writer's rate-limited drop report, log messages and sleeps.
- LatestCache, cell timing, the other fields of a stutter event, the enabled-mask bits, configuration parsing (its `p50_window_frames` is not used by the code), game hooks, graphics and memory queries, the viewer's panels.
