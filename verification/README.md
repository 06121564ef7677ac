# Verified models of the RogiChat core protocols

This Dafny project models the parts of the repository whose correctness depends on interleavings, crashes, partial
input or arithmetic that accumulates, and proves what they promise. `dafny verify dfyconfig.toml` checks everything.

Where the source changes state step by step, the model does too: each component has a class whose methods are the
synchronous segments of the source, tied by their contracts to a pure step function or to a specification, and the
lemmas about that function speak of every run. For the transactions, the spool, the decoder server and the push worker
a `Serve` method drives the objects themselves through any schedule and concludes the safety property for them.

* **Database transactions** (`TransactionAttempt`, `TransactionSystem`, `Transactions`, `Database`). One event is one synchronous
  stretch of JavaScript between two awaits; timers, late acquisitions, rejections and rollbacks may come at any moment.
  Of the engine and the driver only this is assumed: `commit` follows only a callback that returned, `commit` and
  `rollback` settle after the driver has released the connection, and the transaction promise resolves only after an
  acknowledged commit. That retries follow confirmed rollbacks needs thrown error objects to be fresh; that a write
  commits at most once does not.
* **Audio** (`SampleFifo`, `Resampling`, `RateTransposer`, `Stretching`, `Stretch`). Samples, rates and skips are real
  numbers. The queue refines a sequence of frames, the block resampler refines one infinite stream, and the stretcher
  does not drift.
* **Decoder protocol** (`DecoderProtocol`, `DecoderResponse`, `DecoderServer`). The JSON codec is any pair of functions
  that reads back what it wrote; sockets deliver bytes in any pieces.
* **Upload spool** (`MediaSpool`, `MediaSpoolLedger`, `MediaSpooler`). Any number of spoolers and uploads, interleaved
  at every await, with cleanups that fail, are shared and are retried.
* **Release finalization** (`ReleaseJournal`, `ReleaseFinalize`). Every access to disk or network may be the process's
  last, and a power loss may bring back any journal version since the last directory sync.
* **Image containers** (`StaticContainer`), **archive members** (`ArchiveMembers`) and the **image scanner**
  (`ImageScan`): loops over bytes and names against declarative conditions.
* **Rate limiter** (`RateLimit`), **web activation** (`WebRelease`), **push worker** (`ServiceWorker`) and
  **single-flight** (`SingleFlight`).

## Where the code is not what one would expect

* A value whose encoding is a single byte is framed and then refused by the reader (`DecoderProtocol.DigitIsRefused`);
  the requests and responses in use are longer objects.
* Garbage collection of rate buckets can change an admission when the clock moves between the statements of one call;
  `RateLimit.CollectionChangesAdmission` is such a run and `RateLimit.InvisibleIffRecreating` the exact condition.
* The resampler's output length depends on the cutting by at most one frame, in the case that
  `Resampling.CuttingDoesNotMatter` names.
* `putBuffer` with no frames left over copies what lies behind the unread frames (`SampleFifo.FifoSampleBuffer.PutBuffer`).
* A failed upload whose cleanup also fails keeps its reservation for the life of the process (`MediaSpool.LosingRun`);
  no other upload does (`MediaSpool.ReleasableIffNotLost`).
* A first web release that fails before its compose file exists is reported as an incomplete rollback although nothing
  has changed: `compose rm` needs that file (`WebRelease.FirstReleaseFails`; the exact condition is in the contract of
  `WebRelease.Host.RollBack`).
* A notify that fails with a wake pending loses that wake (`ServiceWorker.FailureLosesPendingWake`).
* Cancelling one waiter of a shared extraction cancels the others (`SingleFlight.CancellationSpreads`).
* The scanner's windows guarantee one byte more than the overlap and no more (`ImageScan.LongerTextMayBeSplit`).

## Model

| member | source | states |
|---|---|---|
| `TransactionAttempt.StepInv` | apps/api/src/infrastructure/database/transactions.ts:72-113 | no segment of the runner, a timer, the checkout hooks or the guarded commit and rollback breaks the agreement between what was submitted, who owns the connection and what the caller was told |
| `TransactionAttempt.AnswerIsTrue` | apps/api/src/infrastructure/database/transactions.ts:94-113 | for every schedule before and after the answer: a failure other than the attempt's own `commit_outcome_unknown` means no commit is ever submitted, a success means exactly one, acknowledged |
| `TransactionAttempt.ToldIsFinal` | apps/api/src/infrastructure/database/transactions.ts:105-112 | after the answer nothing new is submitted, no checkout reaches the engine and the answer never changes |
| `TransactionAttempt.ToldStays` | apps/api/src/infrastructure/database/transactions.ts:105-112 | the same over any later schedule |
| `TransactionAttempt.RunInv` | apps/api/src/infrastructure/database/transactions.ts:72-113 | the agreement holds in every state that a schedule can reach |
| `TransactionAttempt.HandedOnlyWhileOpen` | apps/api/src/infrastructure/database/prisma-provider.ts:55-86 | a checkout is handed out only while its transaction is open; one acquired for a closed transaction is destroyed on the spot |
| `TransactionAttempt.GivenBackIsDisarmed` | apps/api/src/infrastructure/database/prisma-provider.ts:62-71 | after release no event of the transaction destroys a connection, and the checkout is not owned again |
| `TransactionAttempt.GivenBackStays` | apps/api/src/infrastructure/database/prisma-provider.ts:62-71 | the same over any later schedule |
| `TransactionAttempt.ClosedStays` | apps/api/src/infrastructure/database/prisma-provider.ts:147-158 | once a timer or the answer has closed a transaction, no later schedule submits a statement or a commit or hands out its checkout |
| `TransactionAttempt.CommitNeedsReturn` | apps/api/src/infrastructure/database/transactions.ts:83-91 | over any schedule a commit is submitted only for a callback that was entered and whose operation returned |
| `TransactionSystem.SystemStep` | apps/api/src/infrastructure/database/transactions.ts:50-114 | every step of any number of reads and writes over one pool keeps all attempts' invariants, the admission count, the holders of connections and the history of every write |
| `TransactionSystem.RunInv` | apps/api/src/infrastructure/database/transactions.ts:50-114 | the system invariants hold after any interleaving |
| `TransactionSystem.WriteCommitsAtMostOnce` | apps/api/src/infrastructure/database/transactions.ts:59-68 | over all its retries a write submits at most one commit; success means exactly one, acknowledged; a failure other than `commit_outcome_unknown` means none, then and ever after |
| `TransactionSystem.RetryOnlyAfterRollback` | apps/api/src/infrastructure/database/transactions.ts:96-104 | at most three attempts; with fresh error objects, another attempt only after the previous one was confirmed rolled back for a lock failure, and a reported rollback is that of an attempt that never commits |
| `TransactionSystem.RolledBackIsOwn` | apps/api/src/infrastructure/database/transactions.ts:70-71 | with fresh errors, membership in the rolled-back set is a fact about the attempt that was told the error |
| `TransactionSystem.IdentityStep` | apps/api/src/infrastructure/database/transactions.ts:96-104 | every step keeps that an error object leads back to one attempt |
| `TransactionSystem.OnlyTheHolderDestroys` | apps/api/src/infrastructure/database/prisma-provider.ts:62-71 | a connection is destroyed only by the attempt that holds it or that has just acquired it for a closed transaction |
| `TransactionSystem.AdmissionIsExact` | apps/api/src/infrastructure/database/transactions.ts:73-94 | the admission counter equals the number of admitted works not yet settled, timed-out callers included, and never exceeds its bound |
| `TransactionSystem.DoneStays` | apps/api/src/infrastructure/database/transactions.ts:59-68 | a finished write stays finished with the same outcome |
| `Transactions.Transactions.Admit` | apps/api/src/infrastructure/database/transactions.ts:75-76 | admission is refused exactly at the bound |
| `Transactions.Transactions.Write` | apps/api/src/infrastructure/database/transactions.ts:59-68 | the retry loop over tries that are refused admission or end as arbitrary attempts: at most three, none of the earlier ones with a commit, at most one commit in all, none after a clean failure |
| `Database.Database.Local` | apps/api/src/infrastructure/database/prisma-provider.ts:58-163 | one handler of one run, with the counter, the error sets and the connections that it touches, moves the objects as the system steps, and no other run |
| `Database.Database.Step` | apps/api/src/infrastructure/database/transactions.ts:50-114 | every step taken by the objects, `run` and `write` included, is the system's step and keeps its invariants |
| `Database.Database.WritesAreTruthful` | apps/api/src/infrastructure/database/transactions.ts:59-68 | of the objects of every write: at most one commit submitted; told a success exactly one, acknowledged; told a clean failure none; and the counter is the number of works not settled |
| `Database.Serve` | apps/api/src/infrastructure/database/transactions.ts:50-114 | objects driven through any interleaving, from an empty process, end in the state of the system with every caller told the truth |
| `SampleFifo.FifoSampleBuffer.Put` | apps/web/public/audio-worklets/soundtouch-processor.js:95-97 | frames already written behind the readable ones become readable, nothing else changes |
| `SampleFifo.FifoSampleBuffer.PutSamples` | apps/web/public/audio-worklets/soundtouch-processor.js:104-112 | the unread samples are kept and followed by what the source has of the requested frames, which may be nothing; all the requested frames are counted, there or not |
| `SampleFifo.FifoSampleBuffer.PutBuffer` | apps/web/public/audio-worklets/soundtouch-processor.js:119-122 | appends exactly that part of the other buffer's unread frames; when more is asked for, or from further on, it goes on with what the store holds behind them; with no count and none left over it appends all that the store holds from there |
| `SampleFifo.FifoSampleBuffer.Receive` | apps/web/public/audio-worklets/soundtouch-processor.js:127-131 | drops that many frames from the front, all of them when the count is absent, negative or too large |
| `SampleFifo.FifoSampleBuffer.ReceiveSamples` | apps/web/public/audio-worklets/soundtouch-processor.js:137-142 | what is taken and what stays are together what was unread; a request for more takes everything and copies the store behind it |
| `SampleFifo.FifoSampleBuffer.Extract` | apps/web/public/audio-worklets/soundtouch-processor.js:149-153 | copies a stretch of the unread samples and consumes nothing; a stretch beyond them copies what the store holds there |
| `SampleFifo.FifoSampleBuffer.EnsureCapacity` | apps/web/public/audio-worklets/soundtouch-processor.js:158-176 | growth in place and reallocation keep the unread samples and make room |
| `SampleFifo.FifoSampleBuffer.EnsureAdditionalCapacity` | apps/web/public/audio-worklets/soundtouch-processor.js:181-183 | room beyond the readable frames |
| `SampleFifo.FifoSampleBuffer.Rewind` | apps/web/public/audio-worklets/soundtouch-processor.js:187-192 | moving to the front keeps the unread samples |
| `SampleFifo.FifoSampleBuffer.Clear` | apps/web/public/audio-worklets/soundtouch-processor.js:86-90 | an empty, zeroed buffer |
| `Resampling.CuttingDoesNotMatter` | apps/web/public/audio-worklets/soundtouch-processor.js:326-368 | two cuttings of one input give prefixes of one stream; they differ exactly when only one ends in a single frame and a position falls on the last frame, and then by one trailing frame |
| `Resampling.StreamPrefix` | apps/web/public/audio-worklets/soundtouch-processor.js:344-364 | more input leaves the frames already out in place |
| `Resampling.StreamBetween` | apps/web/public/audio-worklets/soundtouch-processor.js:359-361 | the next frame of the stream is the mix of the two input frames around its position |
| `Resampling.CountIsCount` | apps/web/public/audio-worklets/soundtouch-processor.js:346-364 | the closed form of the number of frames out is exactly the number of positions before the end of the input |
| `Resampling.SingleLags` | apps/web/public/audio-worklets/soundtouch-processor.js:353-353 | a last block of one frame holds back at most one frame, exactly when a position falls on it |
| `RateTransposer.RoomReserved` | apps/web/public/audio-worklets/soundtouch-processor.js:328-328 | the capacity asked for is room for every frame that a block can cause |
| `RateTransposer.Transposer.Across` | apps/web/public/audio-worklets/soundtouch-processor.js:346-352 | the loop across the boundary between two blocks writes the frames of the stream that lie there |
| `RateTransposer.Transposer.Inside` | apps/web/public/audio-worklets/soundtouch-processor.js:353-364 | the loop inside a block writes the frames of the stream that lie there |
| `RateTransposer.Transposer.Transpose` | apps/web/public/audio-worklets/soundtouch-processor.js:338-368 | writes, behind the readable output, exactly the frames of the stream that the unread input completes, within the reserved room |
| `RateTransposer.Transposer.Process` | apps/web/public/audio-worklets/soundtouch-processor.js:326-332 | consumes the input and appends exactly the next part of the one stream; no unwritten frame becomes readable |
| `RateTransposer.Transposer.SetRate` | apps/web/public/audio-worklets/soundtouch-processor.js:296-298 | any new rate starts a stream behind the last frame at the offset already reached |
| `RateTransposer.Transposer.Reset` | apps/web/public/audio-worklets/soundtouch-processor.js:302-306 | back to silence at offset zero |
| `RateTransposer.Resample` | apps/web/public/audio-worklets/soundtouch-processor.js:326-368 | a fresh resampler fed any blocks puts out the output that the input alone determines |
| `Stretching.SteadyStep` | apps/web/public/audio-worklets/soundtouch-processor.js:706-708 | taking the whole part of the skip and keeping the fraction, the frames taken stay the exact multiple of the skip rounded down |
| `Stretching.SkipFits` | apps/web/public/audio-worklets/soundtouch-processor.js:553-560 | a pass never skips past the frames that it required |
| `Stretching.SequenceFits` | apps/web/public/audio-worklets/soundtouch-processor.js:553-560 | a sequence at any offset up to the seek length lies within the frames required |
| `Stretching.LeftFalls` | apps/web/public/audio-worklets/soundtouch-processor.js:697-709 | the loop's measure: frames less fraction fall by one skip a pass |
| `Stretching.ShippedConfiguration` | apps/web/public/audio-worklets/soundtouch-processor.js:570-596 | for every positive tempo the shipped settings give an overlap of 352 frames and room for two overlaps in a sequence |
| `Stretching.OneMorePass` | apps/web/public/audio-worklets/soundtouch-processor.js:697-709 | what several passes put out and hold is built up pass by pass |
| `Stretching.OffsetsDecide` | apps/web/public/audio-worklets/soundtouch-processor.js:697-709 | with no negative offset the offsets alone decide what any number of passes put out and hold |
| `Stretching.WindowShows` | apps/web/public/audio-worklets/soundtouch-processor.js:670-687 | a window at any offset, negative ones included, shows the unread samples wherever it lies over them |
| `Stretching.PassesJoin` | apps/web/public/audio-worklets/soundtouch-processor.js:700-705 | with more than two overlaps in a sequence the next pass, wherever it splices, goes on with the very input frame behind the last one put out |
| `Stretching.CrossfadeStartsOnTail` | apps/web/public/audio-worklets/soundtouch-processor.js:677-685 | a crossfade starts exactly on the first frame of the kept tail |
| `Stretching.CrossfadeOfSame` | apps/web/public/audio-worklets/soundtouch-processor.js:677-685 | fading between equal signals changes nothing |
| `Stretch.SeekExhaustive` | apps/web/public/audio-worklets/soundtouch-processor.js:609-624 | the first of the best offsets in range, or zero when none exceeds the floor |
| `Stretch.SeekQuick` | apps/web/public/audio-worklets/soundtouch-processor.js:625-650 | an offset below the seek length that beats the floor, or zero; it may be negative, down to -124 |
| `Stretch.Stretcher.SetTempo` | apps/web/public/audio-worklets/soundtouch-processor.js:553-560 | the parameters of any new tempo, counted afresh; a positive one with a sequence longer than the overlap can be processed |
| `Stretch.Stretcher.Overlap` | apps/web/public/audio-worklets/soundtouch-processor.js:670-687 | the crossfade is written behind the readable output |
| `Stretch.Stretcher.PutFade` | apps/web/public/audio-worklets/soundtouch-processor.js:699-701 | room is made and the crossfade appended |
| `Stretch.Stretcher.PutPass` | apps/web/public/audio-worklets/soundtouch-processor.js:699-703 | a pass puts out a fixed number of frames at any offset: the crossfade into the window there and the middle of the sequence |
| `Stretch.Stretcher.KeepTail` | apps/web/public/audio-worklets/soundtouch-processor.js:704-705 | the tail of the sequence at any offset is kept for the next crossfade |
| `Stretch.Stretcher.MoveOn` | apps/web/public/audio-worklets/soundtouch-processor.js:706-709 | the input moves on by exactly the whole skip and nothing drifts |
| `Stretch.Stretcher.Prime` | apps/web/public/audio-worklets/soundtouch-processor.js:690-696 | the first frames fill the tail, once |
| `Stretch.Stretcher.Pass` | apps/web/public/audio-worklets/soundtouch-processor.js:698-709 | one pass at any offset: output, tail, input and fraction together |
| `Stretch.Stretcher.Turn` | apps/web/public/audio-worklets/soundtouch-processor.js:697-710 | one pass at the offset found brings the loop's end nearer and keeps the output the one that the input and the cuts determine |
| `Stretch.Stretcher.Drain` | apps/web/public/audio-worklets/soundtouch-processor.js:697-710 | the loop ends with every complete sequence used up; its output is the one that the input and its cuts determine |
| `Stretch.Stretcher.Process` | apps/web/public/audio-worklets/soundtouch-processor.js:689-711 | every complete sequence is used up; after k passes exactly floor(k * skip) frames have been taken and k times the hop put out, whatever the search finds; the output is the one that the input and the cuts determine |
| `DecoderProtocol.VerdictStands` | apps/api/src/common/media/media-decoder-protocol.ts:20-47 | a verdict on the bytes so far never depends on what follows |
| `DecoderProtocol.ResolvedIffFramed` | apps/api/src/common/media/media-decoder-protocol.ts:9-53 | a stream resolves to a value with a rest exactly if it is the frame of that value, encoded in 2 to 1024 bytes, followed by the rest |
| `DecoderProtocol.RoundTrip` | apps/api/src/common/media/media-decoder-protocol.ts:9-47 | the reader undoes the writer exactly for encodings of two bytes or more; shorter ones are refused |
| `DecoderProtocol.DigitIsRefused` | apps/api/src/common/media/media-decoder-protocol.ts:9-29 | a value written as one digit is framed without complaint and then refused |
| `DecoderProtocol.NumberOfSize` | apps/api/src/common/media/media-decoder-protocol.ts:12-12 | reading a written length gives it back |
| `DecoderProtocol.SizeOfNumber` | apps/api/src/common/media/media-decoder-protocol.ts:28-28 | writing a read length gives its bytes back |
| `DecoderProtocol.FrameReader.OnData` | apps/api/src/common/media/media-decoder-protocol.ts:20-47 | after a chunk the promise is the verdict on all bytes heard, and the held header never exceeds 1028 bytes |
| `DecoderProtocol.FrameReader.OnFailure` | apps/api/src/common/media/media-decoder-protocol.ts:19-19 | an end, close, error or abort rejects |
| `DecoderProtocol.ReadFrame` | apps/api/src/common/media/media-decoder-protocol.ts:15-53 | whatever pieces the socket reports, the verdict is that of the bytes, and what is not part of the frame is still there in order |
| `DecoderResponse.AcceptedIffExact` | apps/api/src/common/media/media-decoder-protocol.ts:97-132 | a response is accepted exactly if it ends where it should and is the frame of its manifest followed by payloads of the declared lengths |
| `DecoderResponse.PrefixFree` | apps/api/src/common/media/media-decoder-protocol.ts:113-132 | no accepted response is the beginning of another: short and longer streams are rejected |
| `DecoderResponse.CutIffConcat` | apps/api/src/common/media/media-decoder-protocol.ts:113-132 | payloads are cut off exactly as they were put together |
| `DecoderResponse.Stream.NextBytes` | apps/api/src/common/media/media-decoder-protocol.ts:97-112 | some of the next bytes, at most as many as asked for, in order; nothing only at the end of the stream; a signal is reported as an abort between reads and as a closed socket while the reader waits |
| `DecoderResponse.Stream.Payload` | apps/api/src/common/media/media-decoder-protocol.ts:113-129 | a payload of exactly its length, or truncated, closed or aborted |
| `DecoderResponse.Stream.AssertEnd` | apps/api/src/common/media/media-decoder-protocol.ts:130-132 | passes only at the end of the stream |
| `DecoderResponse.Payloads` | apps/api/src/modules/media/adapters/media-decoder-client.ts:60-65 | one payload after another and then the end |
| `DecoderResponse.Receive` | apps/api/src/modules/media/adapters/media-decoder-client.ts:50-66 | for every way of splitting a response the client's result is that of the bytes; a signal that fires while the header is read makes it a protocol error, later an abort or a closed socket, and never another success |
| `DecoderResponse.AfterHeader` | apps/api/src/modules/media/adapters/media-decoder-client.ts:50-60 | what had come when the header was complete and what comes later are together the bytes behind the header |
| `DecoderResponse.SendFile` | apps/api/src/isolated/media-decoder/media-decoder-server.ts:54-64 | a file is sent whole exactly if it has its declared length; never more than that |
| `DecoderResponse.Respond` | apps/api/src/isolated/media-decoder/media-decoder-server.ts:52-66 | the generator finishes exactly if every file has its declared length; what it has sent is a beginning of the complete response |
| `DecoderResponse.ResponseDecodes` | apps/api/src/isolated/media-decoder/media-decoder-server.ts:52-67 | a finished response decodes to the manifest and the files; an unfinished one, whose socket is destroyed, is never accepted |
| `MediaSpool.UploadStep` | apps/api/src/common/media/media-spool.ts:80-141 | every step of an upload, writes still in flight after a failed pipeline included, keeps its bytes on scratch within the bytes counted and those within the reservation, and its cleanup single-file |
| `MediaSpool.OneRemovalAtATime` | apps/api/src/common/media/media-spool.ts:85-96 | of the cleanup attempts of any upload that can come about at most one has not failed, whoever asked |
| `MediaSpool.HeldCanBeReleased` | apps/api/src/common/media/media-spool.ts:93-95 | however many disposals have failed, a holder can still get the reservation back |
| `MediaSpool.RunInv` | apps/api/src/common/media/media-spool.ts:80-141 | the same after any schedule |
| `MediaSpool.ReleasableIffNotLost` | apps/api/src/common/media/media-spool.ts:85-135 | of every upload that can come about: some later schedule gives its reservation back exactly unless it has failed and its own cleanup has failed too |
| `MediaSpool.LostForever` | apps/api/src/common/media/media-spool.ts:131-135 | such an upload is never released: nobody holds its handle |
| `MediaSpool.LosingRun` | apps/api/src/common/media/media-spool.ts:111-135 | it does come about: the mode cannot be set and the directory cannot be removed |
| `MediaSpoolLedger.ReleaseEvent` | apps/api/src/common/media/media-spool.ts:86-92 | a reservation is released only by a removal that succeeded, after which nothing is on scratch |
| `MediaSpoolLedger.SystemStep` | apps/api/src/common/media/media-spool.ts:70-142 | every step of any number of receives over any number of spoolers keeps the ledger |
| `MediaSpoolLedger.RunInv` | apps/api/src/common/media/media-spool.ts:70-142 | the ledger holds after any interleaving |
| `MediaSpoolLedger.ScratchIsCovered` | apps/api/src/common/media/media-spool.ts:70-142 | in every reachable state the bytes on scratch are at most the outstanding reservations, which the counters equal, of each spooler and of the process, all within their ceilings |
| `MediaSpoolLedger.ReleasedOnlyByRemoval` | apps/api/src/common/media/media-spool.ts:86-92 | each reservation leaves the ledger at most once, at a successful removal and at no other step |
| `MediaSpoolLedger.ReservedMovesWithReleases` | apps/api/src/common/media/media-spool.ts:90-90 | both counters fall by exactly the reservation at a release and by nothing otherwise |
| `MediaSpoolLedger.StillCovered` | apps/api/src/common/media/media-spool.ts:80-80 | the counters always still hold the share of every upload not released |
| `MediaSpooler.Host.Receive` | apps/api/src/common/media/media-spool.ts:70-80 | one call of `receive`, with the reservation at both levels that it makes before its first await, is the ledger's step |
| `MediaSpooler.Host.Advance` | apps/api/src/common/media/media-spool.ts:80-142 | an event of one reception moves only that one, its spooler and the process; that the counters still hold its share is derived from the ledger |
| `MediaSpooler.Host.Take` | apps/api/src/common/media/media-spool.ts:70-142 | every step taken by the objects is the ledger's step and keeps its invariant |
| `MediaSpooler.Serve` | apps/api/src/common/media/media-spool.ts:70-142 | objects driven through any interleaving end in the state of the ledger, with counters that cover the bytes on scratch within their ceilings |
| `DecoderServer.StepInv` | apps/api/src/isolated/media-decoder/media-decoder-server.ts:19-90 | every handler keeps at most one job, the busy flag its sign, and every waiting close a snapshot of what runs |
| `DecoderServer.OneJobAtATime` | apps/api/src/isolated/media-decoder/media-decoder-server.ts:21-24 | at most one job runs, and the server is busy exactly while one does |
| `DecoderServer.EveryWayOutFrees` | apps/api/src/isolated/media-decoder/media-decoder-server.ts:65-77 | however the work of a job ends and whichever of its cleanups throw, what is left of it reaches the innermost finally block and frees the server |
| `DecoderServer.AnsweredMeansQuiet` | apps/api/src/isolated/media-decoder/media-decoder-server.ts:83-89 | once a close callback has been called no job runs and none ever will |
| `DecoderServer.NoJobAfterClose` | apps/api/src/isolated/media-decoder/media-decoder-server.ts:84-86 | after close only jobs from before it still run |
| `DecoderServer.Server.Handle` | apps/api/src/isolated/media-decoder/media-decoder-server.ts:19-90 | after every event at most one job runs, the server is busy exactly while one does, and none runs once a close has been answered |
| `DecoderServer.Serve` | apps/api/src/isolated/media-decoder/media-decoder-server.ts:19-90 | the same for a server driven through any events from its start |
| `StaticContainer.WalkIffStatic` | apps/api/src/isolated/media-decoder/media-image-decoder.ts:26-47 | the walk accepts exactly the files of the chunk grammar: PNG (RFC 2083, section 3.2) as at most 100,000 chunks without animation ending in one empty IEND at the end of file; WebP (RFC 9649, section 2.7) as chunks that tile the file with odd padding, no ANIM or ANMF and no animation flag |
| `StaticContainer.AssertStaticContainer` | apps/api/src/isolated/media-decoder/media-image-decoder.ts:26-47 | the loop accepts exactly those files; every read is inside the file and the offset grows |
| `StaticContainer.Turn` | apps/api/src/isolated/media-decoder/media-image-decoder.ts:30-44 | one turn of the loop reads the next chunk as the grammar does |
| `StaticContainer.Sound` | apps/api/src/isolated/media-decoder/media-image-decoder.ts:28-46 | what is accepted has a derivation |
| `StaticContainer.Complete` | apps/api/src/isolated/media-decoder/media-image-decoder.ts:28-46 | what has a derivation is accepted |
| `StaticContainer.PeekSound` | apps/api/src/isolated/media-decoder/media-image-decoder.ts:31-43 | a chunk that is not refused is a chunk of the grammar |
| `StaticContainer.PeekComplete` | apps/api/src/isolated/media-decoder/media-image-decoder.ts:31-43 | a chunk of the grammar is not refused |
| `ReleaseJournal.StepInv` | tools/mobile/release_journal.py:24-77 | every operation keeps that whatever version of the journal survives shows what was sent, for which intent and to which target |
| `ReleaseJournal.SentAtMostOnce` | tools/mobile/release_finalize.py:60-67 | over any invocations, process deaths and power losses each mutation goes out at most once, all of them for one intent and one target |
| `ReleaseJournal.DurableStays` | tools/mobile/release_journal.py:44-77 | an intent, a bound target and a step's record, once durable, stay in every version that can survive |
| `ReleaseJournal.RunInv` | tools/mobile/release_journal.py:24-77 | the invariant holds after any operations and losses |
| `ReleaseFinalize.Journal.AtomicJson` | tools/mobile/release_journal.py:24-41 | either the process lives and the complete new journal is durable, or it is dead |
| `ReleaseFinalize.Journal.Bind` | tools/mobile/release_journal.py:63-70 | a target is bound once; another one is refused |
| `ReleaseFinalize.Journal.Record` | tools/mobile/release_journal.py:75-77 | a record is durable before anything else happens |
| `ReleaseFinalize.Journal.Mutate` | tools/mobile/release_finalize.py:63-63 | a mutation goes out only after its attempt is durably recorded by the same process |
| `ReleaseFinalize.Journal.AttemptOnce` | tools/mobile/release_finalize.py:89-92 | attempt, mutation, acknowledgement |
| `ReleaseFinalize.Journal.Once` | tools/mobile/release_finalize.py:85-96 | a step is done only after its readback said so; with any record of it nothing is sent |
| `ReleaseFinalize.Open` | tools/mobile/release_journal.py:44-61 | the journal that is there is taken over only for its own intent |
| `ReleaseFinalize.Distribute` | tools/mobile/release_finalize.py:44-75 | a distribution with an unknown outcome fails and is not repeated |
| `ReleaseFinalize.Android` | tools/mobile/release_finalize.py:38-76 | a finished run leaves the acknowledgement and the verification durable |
| `ReleaseFinalize.IosVerify` | tools/mobile/release_finalize.py:127-167 | a finished verification leaves notes, group and verification durable |
| `ReleaseFinalize.Retry` | tools/mobile/release_finalize.py:199-208 | only a pending state is retried, until the deadline |
| `ReleaseFinalize.Ios` | tools/mobile/release_finalize.py:170-209 | a finished run leaves everything verified and durable; a wait over 600 seconds is refused |
| `ReleaseFinalize.InvokeAll` | tools/mobile/release_finalize.py:38-209 | any invocations, each cut off anywhere, send each mutation at most once |
| `ImageScan.ShortTextInOneWindow` | tools/security/image_scan.py:197-199 | every text up to one byte longer than the overlap lies whole in one window |
| `ImageScan.LongerTextMayBeSplit` | tools/security/image_scan.py:197-199 | a text two bytes longer than the overlap may lie in none |
| `ImageScan.GrownKeeps` | tools/security/image_scan.py:185-200 | writing one content leaves every other in place |
| `ImageScan.InLogScanned` | tools/security/image_scan.py:185-199 | of content that was whole in the corpus of a completed run, every stretch up to one byte longer than the overlap lay in a file of it |
| `ImageScan.Scanner.WriteVariant` | tools/security/image_scan.py:198-199 | the loop writes exactly the windows of the text |
| `ImageScan.Scanner.Write` | tools/security/image_scan.py:185-199 | all windows of the bytes and of every text derived from them are written, and no other content is touched |
| `ImageScan.Scanner.Content` | tools/security/image_scan.py:180-200 | what is submitted is written or already scanned, within the limits |
| `ImageScan.Scanner.Judge` | tools/security/image_scan.py:300-310 | every finding of the run is reviewed or on the list of failures, and stays so |
| `ImageScan.Scanner.Flush` | tools/security/image_scan.py:284-315 | the log grows only by the run on this corpus, and only if its report is usable and every finding is reviewed or a failure; afterwards everything seen was whole in the corpus of a completed run |
| `ImageScan.Scanner.Image` | tools/security/image_scan.py:317-380 | an image passes only if every stretch of everything submitted, up to one byte longer than the overlap, lay in a file of a completed run, now or earlier, and no completed run has found anything that is not reviewed |
| `ArchiveMembers.SafeArchiveMembers` | tools/automation/guard.py:80-101 | the loop accepts exactly the acceptable lists: plain members with distinct places, nothing below a file, within the limits |
| `ArchiveMembers.OrderIndependent` | tools/automation/guard.py:80-101 | acceptance is the same for every order of the members |
| `ArchiveMembers.BelowIffPrefix` | tools/automation/guard.py:95-97 | the textual test for lying below a path is the structural one |
| `ArchiveMembers.JoinInjective` | tools/automation/guard.py:93-94 | equal normalised names are equal paths |
| `ArchiveMembers.NoClashIsCompatible` | tools/automation/guard.py:93-98 | a member that passes the tests against what was seen is compatible with every earlier member |
| `ArchiveMembers.ClashIsIncompatible` | tools/automation/guard.py:93-98 | a member that fails one of them is incompatible with one |
| `RateLimit.TwiceTheLimit` | apps/api/src/infrastructure/rate-limit/rate-limit.repository.ts:3-15 | under a clock that does not go back at most twice the limit is admitted within any interval of the bucket's length, collections or not |
| `RateLimit.AtMostTwoWindows` | apps/api/src/infrastructure/rate-limit/rate-limit.repository.ts:3-15 | the same from any reachable bucket |
| `RateLimit.SameAdmissions` | apps/api/src/infrastructure/rate-limit/rate-limit.repository.ts:3-20 | runs with and without collection admit the same calls when every call on a bucket collected since its last use selects no more than the grace period before that collection and recreates it as it would have reset it |
| `RateLimit.CollectionIsInvisible` | apps/api/src/infrastructure/rate-limit/rate-limit.repository.ts:8-20 | the same from any two tables that differ only in collected buckets |
| `RateLimit.ConsumeKeeps` | apps/api/src/infrastructure/rate-limit/rate-limit.repository.ts:3-15 | one such call gives the same verdict on both tables and leaves them the same but for collected buckets |
| `RateLimit.GraceIsExact` | apps/api/src/infrastructure/rate-limit/rate-limit.repository.ts:17-20 | a collected bucket's contents do not matter to a verdict exactly if the call's select comes no earlier than the last expiry that could have been collected |
| `RateLimit.CollectedCall` | apps/api/src/infrastructure/rate-limit/rate-limit.repository.ts:8-14 | for a collected bucket the verdict is the same, and the new bucket is the same exactly if the call recreates it |
| `RateLimit.SameAdmissionsInOrder` | apps/api/src/infrastructure/rate-limit/rate-limit.repository.ts:3-20 | under a clock that does not go back the recreating of collected buckets is the only condition |
| `RateLimit.InvisibleIffRecreating` | apps/api/src/infrastructure/rate-limit/rate-limit.repository.ts:3-20 | and it is exact: of a run in order from an empty table, no beginning, whatever further calls at one time each follow it, has other verdicts for its collections exactly if every call on a collected bucket recreates it |
| `RateLimit.CollectionAdmitsOneMore` | apps/api/src/infrastructure/rate-limit/rate-limit.repository.ts:8-20 | from an empty table a call, a collection of its bucket, a call that does not recreate it and one more: the last is admitted, and refused without the collection |
| `RateLimit.CollectionChangesAdmission` | apps/api/src/infrastructure/rate-limit/rate-limit.repository.ts:8-20 | a concrete run in order, under a valid policy, whose verdicts differ for its collection |
| `RateLimit.DistinguishableIffNotRecreated` | apps/api/src/infrastructure/rate-limit/rate-limit.repository.ts:8-14 | after a call on a collected bucket, in any table, whatever follows in order has the verdicts it would have without the collection exactly if the call recreates |
| `RateLimit.RateBuckets.ConsumeRate` | apps/api/src/infrastructure/rate-limit/rate-limit.repository.ts:3-15 | the statements give exactly the verdict and the bucket; an invalid policy is an error |
| `RateLimit.RateBuckets.CollectExpiredRates` | apps/api/src/infrastructure/rate-limit/rate-limit.repository.ts:17-20 | the longest expired buckets go, at most a hundred, locked ones are passed over and no other is touched |
| `WebRelease.Host.Apply` | tools/operations/web_release.py:643-721 | with a fault or a kill at any step: the host changes only for a request with a durable receipt of its own, which is activated; returning means the new files, container and loaded site are up; "restored" means all as before; a refusal has changed nothing |
| `WebRelease.Host.Activate` | tools/operations/web_release.py:683-699 | the steps of the try block, if all pass, establish the wanted release |
| `WebRelease.Host.RollBack` | tools/operations/web_release.py:701-718 | the compensation, if all its steps pass, establishes the previous release; when nothing befalls it, it succeeds exactly if there is a previous release or a compose file to work with |
| `WebRelease.Host.Claim` | tools/operations/web_release.py:675-681 | a receipt is created once and durable before activation |
| `WebRelease.FirstReleaseFails` | tools/operations/web_release.py:683-718 | a first release whose first write fails is reported as an incomplete rollback although nothing has changed |
| `WebRelease.ApplyAll` | tools/operations/web_release.py:643-721 | over any requests, kills and power losses: of all the times that one request id is applied at most one changes anything, and nothing else changes the host but a power loss, which leaves the files alone |
| `ServiceWorker.NoWakeIsLost` | apps/web/public/sw.js:104-121 | if no notify fails, every shown wake is followed by a notify that began after it, or the running loop still owes it one |
| `ServiceWorker.StepKeepsIff` | apps/web/public/sw.js:104-121 | a step keeps that promise exactly if it is not the failure of a notify with a wake pending |
| `ServiceWorker.FailureLosesPendingWake` | apps/web/public/sw.js:112-120 | such a failure does lose the wake |
| `ServiceWorker.OneLoop` | apps/web/public/sw.js:104-121 | at most one loop runs, failures or not |
| `ServiceWorker.PostedIffBound` | apps/web/public/sw.js:129-137 | exactly the live bound pages are told to sync, each under its current binding |
| `ServiceWorker.LateUnbindKeepsNewer` | apps/web/public/sw.js:53-66 | an unbind that names a replaced binding removes nothing |
| `ServiceWorker.OwnMessagesOnly` | apps/web/public/sw.js:48-67 | whatever messages arrive, in any order, a page's binding is the one that its own messages make |
| `ServiceWorker.Worker.OnMessages` | apps/web/public/sw.js:48-67 | the handler, run over any messages, leaves every page bound as its own messages alone would |
| `ServiceWorker.Worker.Handle` | apps/web/public/sw.js:104-121 | after every segment of a wake the promise is kept, exactly unless a notify failed with a wake pending |
| `ServiceWorker.Serve` | apps/web/public/sw.js:104-121 | the object, driven through any wakes and notifies from its start, runs at most one loop and, unless a notify fails, owes nothing but what that loop is about to do |
| `ServiceWorker.Worker.Notify` | apps/web/public/sw.js:129-141 | posts to the live bound pages and drops the records of pages that have gone |
| `SingleFlight.OneRunPerKey` | apps/media-gateway/src/meloming_media_gateway/extractor.py:50-72 | at most one run per key at any time |
| `SingleFlight.JoinerGetsTheRun` | apps/media-gateway/src/meloming_media_gateway/extractor.py:55-70 | a joiner that is not itself cancelled gets the outcome of the run exactly unless another waiter was cancelled first; then it gets a cancellation |
| `SingleFlight.CancellationSpreads` | apps/media-gateway/src/meloming_media_gateway/extractor.py:55-57 | one waiter's cancellation reaches another and even one that joins later |
| `SingleFlight.StepInv` | apps/media-gateway/src/meloming_media_gateway/extractor.py:50-72 | a flight is in the map exactly while it runs, and its future holds its outcome unless a waiter was cancelled |
| `SingleFlight.Group.Do` | apps/media-gateway/src/meloming_media_gateway/extractor.py:50-60 | join the flight or start it |
| `SingleFlight.Group.RunEnds` | apps/media-gateway/src/meloming_media_gateway/extractor.py:61-72 | the future is settled unless it is done, and the key leaves the map |

## Left out

* The discovery connection of the database adapter, pool configuration and the lengths of timers; timers may fire at any moment instead.
- Transactions.Transactions.Write: the random delay before a retry is not part of the loop; in `TransactionSystem` a retry may come at any later step.
* The array buffer under the audio queue is a sequence that is replaced, so resizing in place and aliasing of views are not modelled; single-precision rounding is not modelled either.
- SampleFifo.FifoSampleBuffer.PutSamples: a source of odd length with no count would make the source's frame count a fraction; frame counts are whole here. With no count, a first frame behind the end of the source would make the count fall, possibly below zero.
- SampleFifo.FifoSampleBuffer.PutBuffer: the same with no count, no frames left over and a first frame behind the end of the store, or a store of odd length.
- RateTransposer.Transposer.Process: processing is promised for positive rates; any other makes the loops of the source endless on every input.
- Stretch.Stretcher.Process: processing is promised for a positive tempo and a sequence longer than the overlap; without them a pass of the source takes either nothing, so that its loop does not end, or everything that is unread. The quick search is taken with an overlap of at least 124 frames and 124 more in a sequence, which every shipped configuration has, because the source puts no lower bound of its own on the offset.
- Stretch.Stretcher.Overlap: samples read outside the store count as zero, where the source reads an undefined value; this happens only at the negative offsets of the quick search.
- Stretch.SeekExhaustive: correlations are an arbitrary function; how they are computed, and the quality of the splice, is not modelled.
* The parameter plumbing of the SoundTouch facade, `clone`, and the other filters of the worklet.
* The field checks of decoder requests and responses: a manifest is any function from values to declared lengths.
* The pause and resume calls on sockets, and generator teardown after a destroyed payload stream.
* Hashing of uploads, path checks and temporary names of the spool.
- DecoderServer.EveryWayOutFrees: what a job does in its try block, its timer and its child process are one stage that completes or throws; that it and every cleanup settle is assumed.
* APK, IPA and archive inspection, remote lookups and tester readback in release finalization: each is a question with any answer.
* The serialisation of the journal and its malformed contents: only this program writes it.
- ImageScan.Scanner.Content: the inspection of nested archives is an arbitrary sequence of further submissions and refusals, and the digest is taken to be injective.
* The byte limit of the scanner's stream reader and the archive parsing around it.
- ArchiveMembers.SafeArchiveMembers: the type test of a member's size is left to Dafny's types.
* Row locks and the transaction around the rate limiter: calls are serialised.
* The main proxy configuration and the checks of edge, promotion and artifacts in web activation: steps that may fail and change nothing.
- WebRelease.Host.Apply: the text of a receipt is not modelled, because a failed directory sync may leave either text.
* The click handler and payload check of the push worker.
* The threads behind a timed-out extraction.
* Request validators, configuration readers, user interfaces and the other release tools: single checks, or the shapes modelled here again.
