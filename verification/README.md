# Verification of the capture engine

A Dafny model of the parts of the LaserDisc RF sampler application on which a
capture's integrity rests: the threads and the ring that move samples from the
device to a file, the check that proves none was lost, and the transformations
and parsers around them. `dafny verify dfyconfig.toml` checks all of it.

The protocols between threads are step relations, one step per atomic operation,
and their theorems hold in every interleaving. Objects that update their fields,
and loops that work in place, are classes and methods proved against specification
functions; what the application promises is then proved about those functions.

| area | files |
|---|---|
| ring, source, processing and control threads | `DiskBufferRing`, `CapturePipeline`, `PipelineSafety`, `PipelineTheorems`, `PipelineEnding`, `PipelineFailure` |
| monitoring: sequence lock and triple buffer | `StatsPublisher`, `SnapshotPublisher` |
| changing sinks during a run, recording figures | `SinkSwap`, `SampleMetrics` |
| USB transfers rolling through the ring | `TransferLayout`, `UsbTransfers`, `UsbTransfersSafety` |
| counter check and test generator | `SampleFormat`, `SequenceValidator`, `ValidatorTheorems`, `ValidatorDetection`, `SyntheticSource` |
| Fourier transform, spectrogram | `Complex`, `FourierTransform`, `FourierStages`, `FourierInPlace`, `SpectrogramHistory` |
| JSON | `JsonValue`, `JsonParser`, `JsonRoundTrip`, `JsonGrammar`, `JsonLayout` |
| update archive, boot image, base64 | `UstarFormat`, `UstarArchive`, `UstarRoundTrip`, `UstarLayout`, `UstarAccepted`, `BootImage`, `RamLoader`, `Base64` |
| JTAG player | `TapController`, `TapDistance`, `JtagBits`, `SvfPlayer` |
| quotients and remainders | `Division` |

Places where the code does not do what its own comments say, or what one
would expect, each with the exact condition under which it does:

* The shortfall in a counter mismatch report is said to be exactly how many samples
  are missing (`sequence_validator.h:95-102`). `ReportedShortfall` gives what it is for
  every detectable loss, and `FigureIsLoss` exactly when it is the loss. Past the first
  block after the lock: when less than a block was lost and the loss ends no later than
  the block it began in. Otherwise it is what was left of that block (nothing, if the
  loss began with it) when the counters show a step too many, and when they show none
  it is how much further on in its block the stream is than it should be, or nothing if
  it is less far on (`WholeBlockReportsNothing`). In the first block the length is not
  known yet and 65536 stands in for it (`sequence_validator.cpp:118-120`). With blocks
  of 65535 the figure is then the loss if and only if that ends one sample into the next
  block (`OneTooMany`, `RightByOne`); with blocks of 65536, if and only if it is of two
  samples or more and ends no later than the block. A loss that leaves a run of the other length makes the
  validator learn that one, and it stops at the next whole block (`WrongLengthLearned`).
* The counter the report names as the one expected is the one due at that sample,
  except for a jump at the very beginning of a block: there it is the counter of the
  block before (`NamesTheOneDue`).
* A sink request arriving during a swap is said to be picked up at the next buffer
  and counted then (`capture_pipeline.cpp:436-438`). There is a gap: for an attach,
  between the reading of the request counter and the taking of the pending sink; for a
  detach, between that reading and the taking of the flag. With requests that are one
  step, the last of them is answered if and only if it was not made in the gap
  (`CountedExactlyOutsideTheGap`), and any earlier one if and only if the last was not,
  or the counter has been read between the two (`AnsweredExactly`): an attach outside
  the gap goes unanswered when a detach in it comes after (`BothUncounted`). In the gap
  a request is applied and not counted (`AppliedButNotCounted`,
  `DetachedButNotCounted`), and a detach that finds a sink just taken is not even
  applied: the recording it was to stop goes on (`LostDetach`), the very case that the
  comment at lines 503 to 509 describes as settled. It stays so until another request
  is made (`StaysUncounted`).
  A request taken apart into its stores can also be applied before it is in the
  counter (`AppliedBeforeRequested`).
* A completion does not look at an earlier failure before it marks a slot full, so a
  buffer with a failed transfer in it can be handed over on the way out of a failed
  run (`HandedOverWithAHole`); `WholeUnlessFailed` says exactly which are whole.
* `RUNTEST` accepts any state, but the clock is run with TMS low. Over such a
  statement the player keeps track of the TAP if and only if no clock runs, or the
  run state loops on TMS low, or the walk to the end state happens to bring the TAP
  there from where the clocks have left it, which is so for the pairs in the table
  `Rejoins` (`DoRunTest`, `RejoinsExactly`, `LoopingStates`). `LosesTrack` is a file
  of one statement after which it has lost track, on any cable that answers.

Assumptions that hold throughout: atomics are sequentially consistent; time, the
network, the file system and foreign libraries appear as arbitrary choices of the
environment, scripts or parameters; machine integers are unbounded except where
wrap-around or truncation matters, where it is written out. Transform arithmetic is
exact: the sines and cosines enter as one root of unity per stage, of which only two
facts are used, that the root for length 2 is -1 and that each root squares to the
one for half its length (`ExactRoots` meets them where the roots are rational).

## Model

| member | source | states |
|---|---|---|
| `EngineSafety.NextKeepsInv` | ddd-gui/src/capture/capture_pipeline.cpp:733-946 | every atomic step of the source, processing and control threads and of an outside abort keeps the engine invariant: who is where in the stream, what each slot holds, which flags may be set, and whose wake is on its way |
| `EngineSafety.InitialInv` | ddd-gui/src/capture/capture_pipeline.cpp:78-181 | a freshly started pipeline satisfies that invariant |
| `EngineSafety.ProducerKeepsInv` | ddd-gui/src/capture/synthetic_source.cpp:149-267 | the producer loop keeps it, at each atomic operation of WaitForSlotFree and MarkSlotFull |
| `EngineSafety.ConsumerKeepsInv` | ddd-gui/src/capture/capture_pipeline.cpp:747-848 | the processing loop keeps it, at each atomic operation of WaitForSlotFull and MarkSlotFree |
| `EngineSafety.ControlKeepsInv` | ddd-gui/src/capture/capture_pipeline.cpp:860-946 | the control loop keeps it: watchdog, repeated dumping, aborting and joining |
| `EngineSafety.DumpingKeepsInv` | ddd-gui/src/capture/disk_buffer_ring.cpp:175-184 | MarkEmptySlotsDumped, slot by slot and notify by notify, keeps it while the others run |
| `EngineSafety.AbortingKeepsInv` | ddd-gui/src/capture/disk_buffer_ring.cpp:186-197 | Abort, store by store and notify by notify, keeps it while the others run |
| `EngineSafety.WindowHandOver` | ddd-gui/src/capture/disk_buffer_ring.cpp:102-125 | marking the next slot full extends the window of slots that hold the stream by one |
| `EngineSafety.WindowGiveBack` | ddd-gui/src/capture/disk_buffer_ring.cpp:141-163 | giving the oldest slot back shortens the window by one, also when the slot has been aborted meanwhile |
| `EngineTheorems.ReachableInv` | ddd-gui/src/capture/capture_pipeline.cpp:733-946 | the invariant holds in every state of every run, whatever the interleaving |
| `EngineTheorems.DeliveredInOrder` | ddd-gui/src/capture/disk_buffer_ring.cpp:82-163 | what the consumer has read at any moment is a prefix of what is ever handed over: the ring is a bounded first-in first-out queue, nothing altered, skipped or repeated |
| `EngineTheorems.HandsOverWhatWasFilled` | ddd-gui/src/capture/synthetic_source.cpp:205-267 | and what is handed over is what the source last wrote into the slot, whatever the others do meanwhile |
| `EngineTheorems.CleanRunDeliversAll` | ddd-gui/src/capture/capture_pipeline.cpp:747-848 | a processing thread that ends without failure or abort has read every buffer handed over, and only after the source has finished |
| `EngineTheorems.NeverShareASlot` | ddd-gui/src/capture/disk_buffer_ring.cpp:82-163 | while the producer may write its slot and the consumer owns one, the slots differ |
| `EngineTheorems.OverflowUnreachable` | ddd-gui/src/capture/disk_buffer_ring.cpp:102-110 | MarkSlotFull never finds its slot full or dumped: the overflow answer cannot occur after the wait |
| `EngineTheorems.AbortedForever` | ddd-gui/src/capture/disk_buffer_ring.cpp:161-163 | no step of any thread takes a slot out of the aborted state |
| `EngineTheorems.CountersAgree` | ddd-gui/src/capture/disk_buffer_ring.cpp:113-121 | slots filled less slots freed is within one of the number of full slots, the in-use figure a hand-over computes never wraps, and the high-water mark passes the ring size by at most one |
| `EngineTheorems.FreedCanOvertakeFilled` | ddd-gui/src/capture/disk_buffer_ring.cpp:165-173 | there is a reachable state in which more slots have been counted freed than filled, so the minimum in SlotsInUse is needed |
| `EngineTheorems.NeverBothBlocked` | ddd-gui/src/capture/disk_buffer_ring.cpp:82-139 | producer and consumer are never blocked on each other |
| `EngineTheorems.WakeInFlight` | ddd-gui/src/capture/disk_buffer_ring.cpp:86-97 | a parked thread whose slot has changed always has a notification still to come: no wake is lost |
| `EngineTheorems.NothingStuck` | ddd-gui/src/capture/capture_pipeline.cpp:905-941 | in every reachable state short of the end some thread can step, without spurious wakes and without anything new from outside |
| `EngineTheorems.ConsumerEnds` | ddd-gui/src/capture/capture_pipeline.cpp:905-941 | once the source has finished the processing thread takes at most as many further steps as its rank allows, plus spurious wakes, however long the run goes on |
| `EngineTheorems.BlockedConsumerIsReleased` | ddd-gui/src/capture/capture_pipeline.cpp:905-935 | because dumping is repeated on every iteration, a consumer blocked on a slot that will never be filled is released within 4n + 6 control steps |
| `EngineTheorems.ProducerIsJoined` | ddd-gui/src/capture/capture_pipeline.cpp:938-946 | while the control thread waits for the source, each producer step lowers its rank and no other step raises it |
| `EngineEnding.MoveLowers` | ddd-gui/src/capture/capture_pipeline.cpp:747-946 | at every moment one worker is the one everything waits for: its next step lowers a rank that no step of the others raises, only a spurious wake does; so in a run told to end, to its end, and in any other, to its next hand-over |
| `EngineEnding.HelperIsAble` | ddd-gui/src/capture/capture_pipeline.cpp:905-946 | and until everything is over that worker can take its step |
| `EngineEnding.FairRunsEnd` | ddd-gui/src/capture/capture_pipeline.cpp:905-946 | every run that has been told to end, by a stop, an abort or the end of its source, is over, both workers and the control thread having finished and been joined, after a bounded number of moves, a source waiting for a slot included, under any schedule that keeps no thread able to go on waiting for longer than a given number of moves; the bound is in the buffers waiting, the slots, that number and the spurious wakes |
| `EngineEnding.HandsOverAtMostOne` | ddd-gui/src/capture/synthetic_source.cpp:154-161 | from the moment a run has been told to end at most one more buffer is handed over: after a stop only one the producer was already about, after the end of the source none |
| `EngineEnding.CaptureGoesOn` | ddd-gui/src/capture/synthetic_source.cpp:154-267 | a run nobody has told to end and in which nothing goes wrong hands its next buffer over within the same bound |
| `EngineEnding.SoundRunDeliversAll` | ddd-gui/src/capture/capture_pipeline.cpp:747-848 | nothing fails of itself: without a fault, the watchdog or an abort a run stays sound to its end, and then every buffer handed over has been read |
| `EngineEnding.InitialIsCapturing` | ddd-gui/src/capture/capture_pipeline.cpp:78-181 | a fresh run is one that goes on |
| `EngineFailure.FailureEnds` | ddd-gui/src/capture/capture_pipeline.cpp:905-935 | a failure, wherever it comes from, has the run told to end within a bounded number of moves under a fair schedule |
| `EngineFailure.LeftToldStays` | ddd-gui/src/capture/capture_pipeline.cpp:915-946 | the control thread leaves its loop only with the run told to end |
| `StatsPublisher.RunKeepsInv` | ddd-gui/src/capture/monitor_tap.cpp:19-51 | the sequence lock invariant holds along every run of one writer and any number of readers copying field by field |
| `StatsPublisher.ReadsAreConsistent` | ddd-gui/src/capture/monitor_tap.cpp:31-51 | every value a read returns is one complete published value or the first one, and one reader never goes back to an older one |
| `StatsPublisher.PublishesWhatIsGiven` | ddd-gui/src/capture/monitor_tap.cpp:19-29 | what is published is what Publish was given, in order |
| `StatsPublisher.ReadReturns` | ddd-gui/src/capture/monitor_tap.cpp:31-51 | a call returns, with the newest value, exactly when no publish has touched the counter since it first looked, and otherwise begins again |
| `StatsPublisher.ReadsAlone` | ddd-gui/src/capture/monitor_tap.cpp:31-51 | a reader left alone with an idle writer finishes after one copy of each field, with the newest value |
| `StatsPublisher.WriterNeverWaits` | ddd-gui/src/capture/monitor_tap.cpp:19-29 | the writer can always take its next step, whatever the readers do |
| `SnapshotPublisher.RunKeepsInv` | ddd-gui/src/capture/monitor_tap.cpp:90-122 | the triple buffer invariant holds along every run, the copies being made byte by byte |
| `SnapshotPublisher.IndicesArePermutation` | ddd-gui/src/capture/monitor_tap.cpp:98-115 | the write, read and ready indices are 0, 1 and 2 in some order whenever neither side is between its exchange and its assignment |
| `SnapshotPublisher.ReadBufferUntouched` | ddd-gui/src/capture/monitor_tap.cpp:98-103 | no step of the writer changes the buffer the reader has taken |
| `SnapshotPublisher.ExchangeTakesNewest` | ddd-gui/src/capture/monitor_tap.cpp:112-121 | the exchange in TryRead takes the newest snapshot handed over |
| `SnapshotPublisher.DeliveriesAreGenuine` | ddd-gui/src/capture/monitor_tap.cpp:106-122 | each snapshot TryRead returns is one that was published, clipped to the buffer, under its own generation |
| `SnapshotPublisher.GenerationsIncrease` | ddd-gui/src/capture/monitor_tap.cpp:106-122 | none is returned twice, nor an older one after a newer one |
| `SnapshotPublisher.PublishesWhatIsGiven` | ddd-gui/src/capture/monitor_tap.cpp:90-110 | what is handed over is what Publish was given, in order, each clipped to the buffer |
| `SnapshotPublisher.TryReadDelivers` | ddd-gui/src/capture/monitor_tap.cpp:106-122 | TryRead returns nothing when the word is not fresh, and otherwise delivers the newest snapshot whole, wherever the writer is |
| `SnapshotPublisher.NobodyWaits` | ddd-gui/src/capture/monitor_tap.cpp:90-122 | neither side ever waits for the other |
| `SinkSwap.NextKeepsInv` | ddd-gui/src/capture/capture_pipeline.cpp:435-512 | every atomic step of a request or of a swap keeps the sink invariant |
| `SinkSwap.SharesPartitionTheStream` | ddd-gui/src/capture/capture_pipeline.cpp:435-488 | what was written, each buffer recorded with the sink it was written to, falls into consecutive stretches, one for each sink that was in use and in that order, every write of a stretch to its sink; together they are all of the processed stream, whenever the requests come |
| `SinkSwap.FinishedOnce` | ddd-gui/src/capture/capture_pipeline.cpp:461-488 | when the run is over every sink that was ever in use has been finished exactly once, in order |
| `SinkSwap.InUseAsAsked` | ddd-gui/src/capture/capture_pipeline.cpp:448-488 | every sink that comes into use is the one the request it is owed to asked for, Null for a detach, and each such request is newer than the one before |
| `SinkSwap.TakesTheNewest` | ddd-gui/src/capture/capture_pipeline.cpp:230-249 | a sink that a swap takes is that of the newest request there is, and so is a detach where requests are one step |
| `SinkSwap.SwapTakesEffect` | ddd-gui/src/capture/capture_pipeline.cpp:435-512 | a swap nobody interrupts puts what was outstanding in use, finishes the sink before it and counts every request made |
| `SinkSwap.RecordingIsMeasured` | ddd-gui/src/capture/capture_pipeline.cpp:495-499 | while nothing has failed, the figures of a recording are those of exactly the buffers written to its sink, during it and after it, and those of the session are of the whole stream |
| `SinkSwap.CountIsMonotone` | ddd-gui/src/capture/capture_pipeline.cpp:501-512 | the change count never falls and never passes the requests made |
| `SinkSwap.CountReaches` | ddd-gui/src/capture/capture_pipeline.cpp:230-249 | if requests are single steps and none falls in the gap, then between swaps the count has reached every request applied so far, also while newer ones are outstanding |
| `SinkSwap.CountedExactlyOutsideTheGap` | ddd-gui/src/capture/capture_pipeline.cpp:435-512 | over all runs of single-step requests: between swaps with nothing outstanding, the count has reached the last request made if and only if that request was not made in the gap, that is not at the taking of the sink, nor, being a detach, at the taking of the flag |
| `SinkSwap.AnsweredExactly` | ddd-gui/src/capture/capture_pipeline.cpp:435-512 | and it has reached any given request if and only if the last request of all was not made in the gap, or a swap has read the counter between the two |
| `SinkSwap.AppliedButNotCounted` | ddd-gui/src/capture/capture_pipeline.cpp:436-442 | a run in which an attach made between the reading of the counter and the taking of the sink is applied without being counted, contrary to the comment at line 436 |
| `SinkSwap.DetachedButNotCounted` | ddd-gui/src/capture/capture_pipeline.cpp:442 | a run in which a detach made between the taking of the sink and the taking of the flag is applied without being counted |
| `SinkSwap.BothUncounted` | ddd-gui/src/capture/capture_pipeline.cpp:436-442 | a run in which an attach outside the gap is superseded by a detach inside it, and neither is answered |
| `SinkSwap.LostDetach` | ddd-gui/src/capture/capture_pipeline.cpp:442-463 | a run in which a detach made there, while a sink has just been taken, is neither applied nor counted: the flag is gone, the recording goes on and the request is never answered, contrary to the comment at lines 503 to 509 |
| `SinkSwap.AppliedBeforeRequested` | ddd-gui/src/capture/capture_pipeline.cpp:230-249 | a run in which a request, in its separate stores, is applied before it has been added to the counter |
| `SinkSwap.StaysUncounted` | ddd-gui/src/capture/capture_pipeline.cpp:444-446 | with nothing outstanding no step of the processing thread changes the count, so what was not counted is not until another request is made |
| `Metrics.SpanGrows` | ddd-gui/src/capture/sample_metrics.cpp:44-56 | accumulating buffer tallies while a span is open gives the tally of the buffers joined end to end |
| `Metrics.TotalGrows` | ddd-gui/src/capture/sample_metrics.cpp:30-42 | and so do the session figures |
| `Metrics.SampleMetrics.Accumulate` | ddd-gui/src/capture/sample_metrics.cpp:30-57 | the fields after one buffer, an empty one changing nothing |
| `Metrics.SampleMetrics.BeginCaptureSpan` | ddd-gui/src/capture/sample_metrics.cpp:59-62 | a span opens on nothing measured |
| `Metrics.SampleMetrics.EndCaptureSpan` | ddd-gui/src/capture/sample_metrics.cpp:64 | closing a span keeps its figures |
| `Metrics.SampleMetrics.Extremes` | ddd-gui/src/capture/sample_metrics.cpp:66-97 | the extremes shown are the least and greatest of the values measured, and zero for none |
| `SampleFormat.WireWordFields` | ddd-gui/src/capture/sample_format.h:66-122 | a wire word split into bytes gives its value and its counter back |
| `SampleFormat.SignedRoundTrip` | ddd-gui/src/capture/sample_format.h:124-140 | the 16-bit form of every 10-bit value fits and converts back |
| `SampleFormat.TallyConcat` | ddd-gui/src/capture/sample_metrics.cpp:30-42 | the tally of two stretches of samples is the merge of their tallies |
| `SampleFormat.TallyMeasures` | ddd-gui/src/capture/sequence_validator.cpp:178-204 | for any ten-bit values a tally gives how many there are, how many are 0 and how many 1023, the least and the greatest, and the sum over the values from 0 to 1023 of how often each occurs times its squared distance from 512 |
| `Validator.SequenceValidator.Process` | ddd-gui/src/capture/sequence_validator.cpp:51-206 | one call, looping in place over the buffer, leaves exactly the fields, the outcome and the stripped bytes that the specification gives, for every buffer and every state |
| `Validator.SequenceValidator.Walk` | ddd-gui/src/capture/sequence_validator.cpp:130-206 | the single pass checks, strips and measures every sample up to the first refused one |
| `Validator.SequenceValidator.Check` | ddd-gui/src/capture/sequence_validator.cpp:138-176 | the counter check of one sample |
| `Validator.SequenceValidator.Acquire` | ddd-gui/src/capture/sequence_validator.cpp:73-111 | the search for the first change of counter within the longest block and one sample |
| `Validator.SequenceValidator.Reset` | ddd-gui/src/capture/sequence_validator.cpp:44-49 | the fields after a reset |
| `ValidatorTheorems.BoundariesDoNotMatter` | ddd-gui/src/capture/sequence_validator.cpp:51-206 | past synchronisation, one buffer and then the next is the same as the two joined: state, stripped bytes, tally, verdict and report |
| `ValidatorTheorems.ProcessedMeasures` | ddd-gui/src/capture/sequence_validator.cpp:178-204 | a call measures the ten low bits of each word before the refused one, and its figures are those of exactly these values |
| `ValidatorTheorems.ProcessedStrips` | ddd-gui/src/capture/sequence_validator.cpp:178-181 | it clears the markers of exactly those samples and touches no other byte |
| `ValidatorTheorems.UnmarkedIsAccepted` | ddd-gui/src/capture/sequence_validator.cpp:73-111 | the check is given up exactly when the counters of the first call do not change within the longest block and one sample; then nothing is refused, for good |
| `ValidatorTheorems.LocksExactly` | ddd-gui/src/capture/sequence_validator.cpp:73-111 | otherwise it locks, and the report says where the first change was and what the buffer opened with |
| `ValidatorDetection.AcceptsExactly` | ddd-gui/src/capture/sequence_validator.cpp:134-176 | from the lock on, a stream is accepted if and only if its counters are runs of one common length, 65535 or 65536, in cyclic order |
| `ValidatorDetection.OneContinuation` | ddd-gui/src/capture/sequence_validator.cpp:134-176 | a validator that has learned the block length accepts exactly one continuation |
| `ValidatorDetection.DetectableLosses` | ddd-gui/src/capture/sequence_validator.cpp:134-176 | losing k consecutive samples goes unseen on every continuation if k is a multiple of 63 blocks, and otherwise fails within one block and one sample of the seam |
| `ValidatorDetection.UnseenPacketLoss` | ddd-gui/src/capture/sample_format.h:24-36 | with blocks of 65535 an unseen loss of whole 512-sample packets is at least 512 periods |
| `ValidatorDetection.LegacyUnseenLoss` | ddd-gui/src/capture/sample_format.h:24-36 | with blocks of 65536 a single period already is a whole number of packets |
| `ValidatorDetection.ReportedShortfall` | ddd-gui/src/capture/sequence_validator.cpp:118-176 | for every detectable loss, from any place after the lock, the first block included, and of whatever length: the sample the check stops at and the whole of the report, its index, the counter found, the counter named as expected and the shortfall; and the exact condition under which the figure is the loss, which the header says it always is (lines 95 to 102). Past the first block: less than a block was lost and the loss ends no later than the block it began in. In the first block, where the figure is measured against 65536: with blocks of 65535, only a loss that ends one sample into the next block; with blocks of 65536, any of two samples or more that ends no later than the block |
| `ValidatorDetection.NamesTheOneDue` | ddd-gui/src/capture/sequence_validator.cpp:143-176 | past the first block the counter named as expected is the one due at that sample, except for a jump at the beginning of a block: there it is the one before, unless the jump is back to that one |
| `ValidatorDetection.UnseenExactly` | ddd-gui/src/capture/sequence_validator.cpp:134-176 | from any place after the lock, a loss goes unseen on every continuation if and only if it is a whole number of periods |
| `ValidatorDetection.WholeBlockReportsNothing` | ddd-gui/src/capture/sequence_validator.cpp:165-174 | a whole block lost at its beginning is reported as nothing missing |
| `ValidatorDetection.OneTooMany` | ddd-gui/src/capture/sequence_validator.cpp:118-120 | ten samples lost in the first block are reported as eleven |
| `ValidatorDetection.RightByOne` | ddd-gui/src/capture/sequence_validator.cpp:118-120 | 65436 samples lost after the first hundred, one more than were left of the block, are reported as 65436 |
| `ValidatorDetection.WrongLengthLearned` | ddd-gui/src/capture/sequence_validator.cpp:153-165 | one sample lost in the first block of a legacy stream: 65535 is learned for the block length, and the next block, which is whole, is refused as overlong with a shortfall of zero |
| `Synthetic.SyntheticSource.Prepare` | ddd-gui/src/capture/synthetic_source.cpp:57-70 | the generator begins at sample zero |
| `Synthetic.SyntheticSource.NextWord` | ddd-gui/src/capture/synthetic_source.cpp:75-107 | each sample is the ramp value and the counter its position in the stream determines |
| `Synthetic.SyntheticSource.GenerateInto` | ddd-gui/src/capture/synthetic_source.cpp:72-108 | a slot is filled in place with the next words of the stream, an odd last byte left alone |
| `Synthetic.WireCarries` | ddd-gui/src/capture/synthetic_source.cpp:72-108 | the validator reads the genuine counters and the ramp off the generated bytes |
| `Synthetic.GeneratorNeverFails` | ddd-gui/src/capture/sequence_validator.cpp:51-206 | the faultless generator is never stopped, from any position and however its stream is cut into buffers, and the check is running once a first buffer holds a block |
| `FourierTransform.ExactRoots` | ddd-gui/src/analysis/fourier_transform.cpp:50-53 | what is assumed of the roots can be met: the values of cosine and sine for lengths 2 and 4 meet it |
| `FourierTransform.PowersOfTwo` | ddd-gui/src/analysis/fourier_transform.cpp:20-22 | the bit trick accepts exactly the powers of two |
| `FourierTransform.NextReversed` | ddd-gui/src/analysis/fourier_transform.cpp:38-42 | the carry loop takes the reversal of i to the reversal of i + 1 |
| `FourierTransform.ReversedTwice` | ddd-gui/src/analysis/fourier_transform.cpp:34-48 | bit reversal undoes itself |
| `FourierInPlace.Permute` | ddd-gui/src/analysis/fourier_transform.cpp:37-48 | swapping only when i < j puts every sample at its bit-reversed index, in place |
| `FourierInPlace.Join` | ddd-gui/src/analysis/fourier_transform.cpp:65-76 | one butterfly on the two arrays is one complex butterfly |
| `FourierStages.EvenAndOdd` | ddd-gui/src/analysis/fourier_transform.cpp:50-85 | a partial transform is that of its even terms plus the twiddle times that of its odd terms |
| `FourierStages.HalfTurn` | ddd-gui/src/analysis/fourier_transform.cpp:50-53 | a root of the stage, raised to half its length, is -1 |
| `FourierStages.Butterfly` | ddd-gui/src/analysis/fourier_transform.cpp:64-76 | from the transforms of two halves the butterfly makes both outputs of the transform of the whole |
| `FourierInPlace.JoinBlock` | ddd-gui/src/analysis/fourier_transform.cpp:61-83 | the inner loop, advancing the twiddle by multiplication, does all butterflies of a block |
| `FourierInPlace.Stage` | ddd-gui/src/analysis/fourier_transform.cpp:55-84 | one stage takes every block to the transform of twice the length |
| `FourierInPlace.Stages` | ddd-gui/src/analysis/fourier_transform.cpp:50-85 | all stages together leave the spectrum |
| `FourierInPlace.ForwardTransform` | ddd-gui/src/analysis/fourier_transform.cpp:24-88 | for every input it answers whether both arrays have the same power-of-two length; if not, nothing changes; if so, X[k] is the sum of x[n] times w to the n k |
| `JsonParser.ParseJson` | ddd-gui/src/capture/json_value.cpp:664-670 | the parser object returns exactly what the grammar function gives: the value, or the message and offset of the first failure |
| `JsonParser.SerialiseJson` | ddd-gui/src/capture/json_value.cpp:672-677 | the writer object produces exactly the printed document |
| `JsonParser.Parser.ParseDocument` | ddd-gui/src/capture/json_value.cpp:48-60 | one value with only whitespace around it |
| `JsonParser.Parser.ParseValue` | ddd-gui/src/capture/json_value.cpp:90-128 | the value at a position and depth, or where and why not |
| `JsonParser.Parser.ParseObject` | ddd-gui/src/capture/json_value.cpp:130-189 | members up to the closing brace |
| `JsonParser.Parser.ParseMember` | ddd-gui/src/capture/json_value.cpp:140-188 | one turn of the object loop, refusing a repeated name at the name |
| `JsonParser.Parser.ParseArray` | ddd-gui/src/capture/json_value.cpp:191-223 | elements up to the closing bracket |
| `JsonParser.Parser.ParseString` | ddd-gui/src/capture/json_value.cpp:230-301 | a string with its escapes resolved |
| `JsonParser.Parser.ParseUnicodeEscape` | ddd-gui/src/capture/json_value.cpp:304-335 | a code point, joining a surrogate pair |
| `JsonParser.Parser.ParseHexQuad` | ddd-gui/src/capture/json_value.cpp:337-361 | four hex digits |
| `JsonParser.Parser.ParseNumber` | ddd-gui/src/capture/json_value.cpp:383-428 | a number, kept as written |
| `JsonParser.Writer.AppendEscaped` | ddd-gui/src/capture/json_value.cpp:438-478 | a string quoted and escaped |
| `JsonParser.Writer.AppendValue` | ddd-gui/src/capture/json_value.cpp:528-554 | a value at its indentation |
| `JsonRoundTrip.NumberRead` | ddd-gui/src/capture/json_value.cpp:383-428 | every number of the grammar in section 6 of RFC 8259, followed by something that ends it, is read whole |
| `JsonRoundTrip.NumberIs` | ddd-gui/src/capture/json_value.cpp:383-428 | what is read as a number is one by that grammar |
| `JsonRoundTrip.EscapedRead` | ddd-gui/src/capture/json_value.cpp:230-301 | escaping any string and reading it gives the string |
| `JsonRoundTrip.ScalarEscapeRead` | ddd-gui/src/capture/json_value.cpp:304-335 | every Unicode scalar value written as an escape (section 7 of RFC 8259) is read back |
| `JsonRoundTrip.CodePointIsScalar` | ddd-gui/src/capture/json_value.cpp:310-331 | an escape is never read as half a surrogate pair |
| `JsonRoundTrip.Utf8Decodes` | ddd-gui/src/capture/json_value.cpp:363-379 | the bytes appended for a code point spell it in UTF-8, continuation bytes and length included |
| `JsonRoundTrip.ValueIsValid` | ddd-gui/src/capture/json_value.cpp:90-223 | every value returned has distinct names, grammatical numbers and no node deeper than 32 |
| `JsonRoundTrip.RoundTrip` | ddd-gui/src/capture/json_value.cpp:664-677 | parsing what was serialised gives the value back if and only if it is such a value |
| `JsonRoundTrip.ParsePrintParse` | ddd-gui/src/capture/json_value.cpp:664-677 | parse, print, parse is stable |
| `JsonGrammar.AcceptsExactly` | ddd-gui/src/capture/json_value.cpp:48-428 | a text is accepted as a value if and only if the grammar of RFC 8259 derives the value from the text, no object in it repeats a name and nothing is nested deeper than 32 |
| `JsonGrammar.SucceedsExactly` | ddd-gui/src/capture/json_value.cpp:48-60 | so parsing succeeds exactly on the texts from which such a value can be derived |
| `JsonGrammar.OneMeaning` | ddd-gui/src/capture/json_value.cpp:48-60 | and no text has two |
| `JsonLayout.DocumentIs` | ddd-gui/src/capture/json_value.cpp:528-677 | a written document is its lines, each ended: those of what is nested are the lines it has by itself, two spaces in, between brackets on lines of their own, with commas after all but the last |
| `JsonLayout.LinesAreUnbroken` | ddd-gui/src/capture/json_value.cpp:438-478 | and there is no line break in any of them |
| `TransferLayout.PlanTransferLayout` | ddd-gui/src/capture/usb_device.cpp:38-110 | refused exactly on the four bad geometries; otherwise transfers tile a slot in whole packets, small ones as few as keep to the target, one or two slots are never aimed at, and the discard ends where slot 0 begins |
| `TransferLayout.SplitSlot` | ddd-gui/src/capture/usb_device.cpp:75-89 | the nudging loop finds the smallest divisor not below the target count |
| `UsbTransfers.Prepare` | ddd-gui/src/capture/libusb_source.cpp:95-122 | the e-th transfer is aimed at the slot, offset and last-in-slot mark of the e-th piece |
| `UsbTransfersSafety.NextKeepsInv` | ddd-gui/src/capture/libusb_source.cpp:356-450 | every callback, resubmission, event-loop abort and buffer given back keeps the transfer invariant |
| `UsbTransfersSafety.RunKeepsInv` | ddd-gui/src/capture/libusb_source.cpp:185-265 | it holds in every state of every run |
| `UsbTransfersSafety.AimedByNumber` | ddd-gui/src/capture/libusb_source.cpp:437-449 | the k-th transfer submitted is aimed at slot (first + k / per slot) modulo the ring, at index k modulo per slot |
| `UsbTransfersSafety.NoOverlap` | ddd-gui/src/capture/libusb_source.cpp:147-183 | no two transfers in flight write to the same place |
| `UsbTransfersSafety.NeverIntoAFullSlot` | ddd-gui/src/capture/libusb_source.cpp:441-449 | no transfer in flight is aimed at a slot the consumer has not given back |
| `UsbTransfersSafety.OverflowUnreachable` | ddd-gui/src/capture/libusb_source.cpp:402-413 | a hand-over never finds its slot still full |
| `UsbTransfersSafety.ArrivalGoesOn` | ddd-gui/src/capture/libusb_source.cpp:393-435 | in a run in which nothing has gone wrong an arrival completes the run if and only if a stop has been asked for and the transfer is the last of its slot; otherwise the same transfer is submitted again |
| `UsbTransfersSafety.ResubmissionGoesOn` | ddd-gui/src/capture/libusb_source.cpp:437-450 | and that keeps every transfer in flight |
| `UsbTransfersSafety.DeliversTheStream` | ddd-gui/src/capture/libusb_source.cpp:393-422 | while nothing has failed the consumer gets the pieces after the discard, in order, every buffer whole |
| `UsbTransfersSafety.WholeUnlessFailed` | ddd-gui/src/capture/libusb_source.cpp:360-422 | however a run goes, a buffer the consumer got is whole if and only if every transfer of its turn arrived |
| `UsbTransfersSafety.HandedOverWithAHole` | ddd-gui/src/capture/libusb_source.cpp:360-404 | a concrete run in which a slot is marked full after one of its transfers failed, because the callback does not look at the failure first |
| `UsbTransfersSafety.NothingResubmitted` | ddd-gui/src/capture/libusb_source.cpp:424-435 | once the run has failed or is complete nothing more is submitted and each completion shortens the queue, so the reap ends |
| `UsbTransfersSafety.RunDrains` | ddd-gui/src/capture/libusb_source.cpp:185-265 | from there on nothing is submitted, there are as many completions left as transfers in flight, and each can come |
| `TapController.FiveOnes` | ddd-gui/src/capture/svf_player.cpp:429-438 | five clocks with TMS high reach Test-Logic-Reset from every state |
| `TapController.PathBetween` | ddd-gui/src/capture/svf_player.cpp:75-127 | the search returns a shortest walk among those that do not pass through Test-Logic-Reset, between any two states |
| `TapController.MatchedOrLonger` | ddd-gui/src/capture/svf_player.cpp:89-121 | a walk the search has not matched is longer than the level it is at |
| `TapController.AllReached` | ddd-gui/src/capture/svf_player.cpp:123-126 | the search never comes to its end without the target |
| `TapController.IdleClocks` | ddd-gui/src/capture/svf_player.cpp:844-854 | clocks with TMS low stay exactly in the states that loop |
| `JtagBits.SetThenGet` | ddd-gui/src/capture/svf_player.cpp:171-182 | setting a packed bit sets it and no other |
| `JtagBits.HexToBits` | ddd-gui/src/capture/svf_player.cpp:207-239 | refused exactly when a digit is not one or a set bit lies beyond the width; otherwise exactly the low bits of the number |
| `JtagBits.BitOfNumber` | ddd-gui/src/capture/svf_player.cpp:212-237 | the bits taken are the binary digits of the number |
| `JtagBits.FitsMeansBelow` | ddd-gui/src/capture/svf_player.cpp:226-234 | having no bit beyond the width is being below two to the width |
| `JtagBits.BitsToHexAround` | ddd-gui/src/capture/svf_player.cpp:259-301 | the window and its named range, which holds the bit it was placed around |
| `JtagBits.WindowHoldsTheBit` | ddd-gui/src/capture/svf_player.cpp:268-282 | for any sizes the range holds the bit, is no wider than asked for and is everything when that fits; it depends on the sizes alone |
| `JtagBits.PrintThenRead` | ddd-gui/src/capture/svf_player.cpp:207-301 | printing a run whole and reading it back is exact |
| `SvfPlayer.Player.MoveTo` | ddd-gui/src/capture/svf_player.cpp:989-1007 | a shortest walk is sent and the believed state stays the real one; it succeeds exactly if the cable answers, or there is nowhere to go and it is not asked |
| `SvfPlayer.Player.ReadScan` | ddd-gui/src/capture/svf_player.cpp:698-733 | a scan is refused exactly when its length changes without a TDI or a value is unusable; what is remembered is what was given, else kept, else the defaults |
| `SvfPlayer.ScanStaysInShift` | ddd-gui/src/capture/svf_player.cpp:1009-1022 | every clock of a scan is spent in the SHIFT state and the last one leaves to EXIT1 |
| `SvfPlayer.Player.DoScan` | ddd-gui/src/capture/svf_player.cpp:683-783 | a scan succeeds exactly when it can be read and, if there is anything to shift, the cable answers every call and no bit that the mask asks about differs; it then has sent a shortest walk to SHIFT, exactly its bits, the given ones among them, and a shortest walk to the end state; a mismatch is the first masked bit that differs |
| `SvfPlayer.Player.DoRunTest` | ddd-gui/src/capture/svf_player.cpp:785-895 | for every run state, number of clocks and end state: it succeeds exactly if the cable answers the walk, the clocks and the walk on, and the belief then is right if and only if no clock runs, the run state loops on TMS low, or the walk on happens to rejoin, by a table of run and end states |
| `SvfPlayer.LosesTrack` | ddd-gui/src/capture/svf_player.cpp:785-895 | the opening reset and then RUNTEST RESET 1 TCK, on any cable that answers twice, leave the player believing in RESET while the TAP is elsewhere |
| `TapDistance.NoShorter` | ddd-gui/src/capture/svf_player.cpp:75-127 | no walk that avoids Test-Logic-Reset is shorter than the distance of its ends, for any two of the sixteen states |
| `TapDistance.ShortestFollows` | ddd-gui/src/capture/svf_player.cpp:75-127 | where any shortest walk takes a TAP that did not begin where the walk does |
| `TapDistance.RejoinsExactly` | ddd-gui/src/capture/svf_player.cpp:881-893 | the walk from a run state to an end state brings a TAP that has drifted out of the run state to the end state exactly for the pairs of the table |
| `SvfPlayer.LoopingStates` | ddd-gui/src/capture/jtag_cable.h:75-83 | five of the sixteen states loop, Test-Logic-Reset not among them |
| `SvfPlayer.Player.DoState` | ddd-gui/src/capture/svf_player.cpp:897-914 | the log grows by one shortest walk for each named state in order; it is accepted exactly when there is a state, all are known and the cable answers each walk, and an unknown one stops it there |
| `SvfPlayer.Player.Play` | ddd-gui/src/capture/svf_player.cpp:419-481 | a file is accepted exactly when each statement can be carried out in turn, the cable answers the reset and every call they make, and no answer differs; nothing is compared, so nothing differs, without a device or a TDO. From any TAP state the log is the reset followed by linked shortest walks avoiding Test-Logic-Reset, scans spent in SHIFT, and waits; an accepted file has sent the scans it asks for, in order, with the bits it gives; the belief is right at the end if every wait loops or runs no clock, and, in an accepted file, also if its walk on rejoins |
| `SvfPlayer.Player.Execute` | ddd-gui/src/capture/svf_player.cpp:611-649 | one statement: accepted exactly when it can be carried out, the cable answers its calls and nothing differs; the end states, remembered lengths and calls used are those of the statement |
| `SvfPlayer.TrueThroughout` | ddd-gui/src/capture/svf_player.cpp:419-481 | if no wait of the log loses track, the TAP is in the state each walk, scan and wait begins in, all the way |
| `UstarArchive.WriteOctal` | ddd-gui/src/capture/update_bundle.cpp:133-139 | the digits written in place from the right, then a NUL |
| `UstarArchive.ReadOctalField` | ddd-gui/src/capture/update_bundle.cpp:61-98 | the reading loop gives what the field function gives, refusals included |
| `UstarRoundTrip.OctalRead` | ddd-gui/src/capture/update_bundle.cpp:61-98 | a number that fits its digits is read back, whatever padding follows |
| `UstarRoundTrip.ChecksumRead` | ddd-gui/src/capture/update_bundle.cpp:305-310 | a header checksum always fits its six digits and is read back |
| `UstarRoundTrip.ChecksumStays` | ddd-gui/src/capture/update_bundle.cpp:100-111 | writing the checksum does not change the checksum |
| `UstarRoundTrip.HeaderRead` | ddd-gui/src/capture/update_bundle.cpp:198-252 | a header is read back as the name and size it was written for |
| `UstarLayout.HeaderIs` | ddd-gui/src/capture/update_bundle.cpp:275-311 | a header byte for byte: name, mode 0644, owner and group 0, size, time 0, checksum as six octal digits, a NUL and a space, type 0, ustar, version 00, and zeros |
| `UstarLayout.ChecksumIs` | ddd-gui/src/capture/update_bundle.cpp:100-111 | the checksum is the sum of the bytes outside its field and of eight spaces |
| `UstarAccepted.ReadOctalExactly` | ddd-gui/src/capture/update_bundle.cpp:61-98 | a field is read as a number if and only if it is blanks, octal digits that make the number, and blanks |
| `UstarAccepted.HeaderExactly` | ddd-gui/src/capture/update_bundle.cpp:198-252 | a header is taken, as this name and size, exactly when it is a ustar header for a regular file with that bare name, its checksum right |
| `UstarAccepted.AcceptsExactly` | ddd-gui/src/capture/update_bundle.cpp:186-273 | an archive is accepted, as these entries, if and only if it is whole blocks that hold them one after another, at least one, no name twice |
| `UstarArchive.UstarWriter.AddFile` | ddd-gui/src/capture/update_bundle.cpp:275-317 | the archive grows by the header, the bytes and the padding of the file |
| `UstarArchive.UstarWriter.Finish` | ddd-gui/src/capture/update_bundle.cpp:319-323 | two zero blocks end it |
| `UstarArchive.ReadArchive` | ddd-gui/src/capture/update_bundle.cpp:186-273 | the reading loop gives what the archive function gives, the first error included |
| `UstarRoundTrip.AcceptedIsWellFormed` | ddd-gui/src/capture/update_bundle.cpp:186-273 | any accepted archive has distinct bare names and bounded slices, in order, apart and inside it |
| `UstarRoundTrip.RoundTrip` | ddd-gui/src/capture/update_bundle.cpp:186-323 | reading what was written gives names and bytes in order if and only if the list is non-empty, names are distinct, bare and 1 to 100 NUL-free bytes, and no file passes 64 MiB |
| `BootImage.ParseBootImage` | ddd-gui/src/capture/boot_image.cpp:60-169 | the parsing loop gives what the image function gives, the first problem included |
| `BootImage.SummedIs` | ddd-gui/src/capture/boot_image.cpp:132-134 | the running checksum is the sum of the words modulo 2 to the 32 |
| `BootImage.ParseEncoded` | ddd-gui/src/capture/boot_image.cpp:60-169 | parsing what the encoder wrote gives the segments, the entry point and the payload size back |
| `BootImage.ParseAccepts` | ddd-gui/src/capture/boot_image.cpp:60-169 | an accepted image is the encoding of the segments it was parsed into: they tile the file |
| `BootImage.AcceptsExactlyEncodings` | ddd-gui/src/capture/boot_image.cpp:60-169 | the parser accepts exactly the outputs of the encoder |
| `RamLoader.UsbDeviceProgrammer.WriteRam` | ddd-gui/src/capture/device_programmer.cpp:72-107 | it succeeds exactly if the device is open and takes every transfer, of at most 2 KiB, whole; all of the data then is at its address, wrapping at 32 bits; otherwise what came before the first transfer not taken whole, and as much of that as was |
| `RamLoader.UsbDeviceProgrammer.Start` | ddd-gui/src/capture/device_programmer.cpp:109-125 | the jump, once, and nothing in memory changes |
| `RamLoader.OverlayConcat` | ddd-gui/src/capture/device_programmer.cpp:77-104 | writing in consecutive pieces is writing the whole |
| `RamLoader.OverlayAt` | ddd-gui/src/capture/device_programmer.cpp:80-92 | which byte an address holds after a write |
| `RamLoader.Wake` | ddd-gui/src/capture/device_recovery.cpp:69-134 | the device is started exactly if the file is an image, nobody cancels and every transfer of every section is taken whole, and then with the in-order overlay of all sections in its memory; nothing is sent unless the file is an image; which of the other outcomes there is |
| `RamLoader.LoadsWhatWasEncoded` | ddd-gui/src/capture/device_recovery.cpp:105-127 | loading an encoded image loads the segments that were encoded |
| `Base64.DecodeBase64` | ddd-gui/src/capture/minisign_verify.cpp:45-85 | the decoding loop gives what the bit-by-bit function gives, although its accumulator wraps |
| `Base64.AccumulatorStep` | ddd-gui/src/capture/minisign_verify.cpp:70-75 | the wrapped accumulator yields the same byte and the same left-over bits |
| `Base64.EncodeDecodes` | ddd-gui/src/capture/minisign_verify.cpp:45-85 | decoding undoes the standard encoding of non-empty bytes (section 4 of RFC 4648) |
| `Base64.DecodesExactlyEncodings` | ddd-gui/src/capture/minisign_verify.cpp:78-84 | a text is accepted, and gives these bytes, exactly when it is their encoding (section 3.5 of RFC 4648) |
| `Base64.OneSpelling` | ddd-gui/src/capture/minisign_verify.cpp:78-84 | no two accepted texts give the same bytes |
| `Spectrogram.RangeIsNotEmpty` | ddd-gui/src/analysis/spectrogram_history.cpp:36-40 | every column has at least one bin |
| `Spectrogram.RangeIs` | ddd-gui/src/analysis/spectrogram_history.cpp:36-40 | a column takes exactly the bins whose stretch of the axis meets its own, the point where it ends included |
| `Spectrogram.EveryBinIsCovered` | ddd-gui/src/analysis/spectrogram_history.cpp:36-40 | every bin falls in some column, for any number of either |
| `Spectrogram.NoPeakIsLost` | ddd-gui/src/analysis/spectrogram_history.cpp:36-47 | the highest column is the highest bin, both held up to the floor |
| `Spectrogram.Joins` | ddd-gui/src/analysis/spectrogram_history.cpp:32-54 | in ring order the new row follows the others, and the oldest goes when the ring is full |
| `Spectrogram.SpectrogramHistory.Append` | ddd-gui/src/analysis/spectrogram_history.cpp:26-55 | the history is the last rows of everything appended, an empty spectrum changing nothing |
| `Spectrogram.SpectrogramHistory.At` | ddd-gui/src/analysis/spectrogram_history.cpp:89-94 | a level of the k-th oldest row, or the floor out of range |
| `Spectrogram.SpectrogramHistory.SecondsAt` | ddd-gui/src/analysis/spectrogram_history.cpp:64-69 | the time of the k-th oldest row, or zero out of range |

## Left out

- Weak memory ordering: atomics are taken as sequentially consistent, so the acquire, release and fence arguments themselves are not modelled.
- Real time: sleeps, pacing, poll intervals and the stall watchdog's clock; the watchdog may fire on any control iteration, and an injected stall is a source that ends at an arbitrary moment.
- EngineSafety.ProducerKeepsInv: the source is the synthetic one at two writes per buffer; the USB source is modelled by itself in `UsbTransfersSafety`, with ring operations as single steps.
- Processing's snapshots, statistics, ring-fill history and throughput figures: they read or copy, and no theorem depends on them.
- SinkSwap: one caller at a time; the buffer count noted at a swap, taking the retired sink, and a sink still pending when the run ends, are not modelled.
- SinkSwap.AnsweredExactly: the exact conditions are for requests made as one step; of requests taken apart into their stores there is only a run that is applied early (`AppliedBeforeRequested`).
- Metrics.SampleMetrics.Extremes: the root mean square figures need a square root and are not modelled.
- SyntheticSource.GenerateInto: only the ramp pattern; the sine pattern is floating point, and the injected faults are left to the environment.
- UsbTransfersSafety.NextKeepsInv: the telemetry control transfer and the texts of failures are not modelled; a transfer's bytes are one piece, so that a failed transfer leaves what was there before rather than some part of the new bytes; the callback is one step up to the point where it may wait and one after it.
- FourierInPlace.ForwardTransform: rounding, and the drift of the repeatedly multiplied twiddle, are not modelled.
- The spectrum analyser's window and decibel scaling, the frequency axis and the interval figures of the spectrogram: floating point, or single expressions.
- JsonParser.Parser.ParseValue: which message and offset a refused text gets is fixed by the grammar functions alone; characters stand for the bytes of the text; `AsInteger`, `Find` and the other accessors are single lookups and are left out.
- SvfPlayer.Player.Play: statements are taken as read, so the tokenizer, the reading of numbers, and the texts of messages are not modelled; a cable that refuses is taken to have sent nothing of that call; holding a wait open is time.
- SvfPlayer.Player.ReadScan: after a refused scan the remembered values are left as they were, where the program may have replaced some of them; playing stops there.
- UstarArchive.ReadArchive: the manifest, the digests and the signature that follow it are not modelled, nor is the 64-bit wrap of sizes no archive in memory can have.
- RamLoader.Wake: waiting for the application to come back, and telling its failures apart, is time and enumeration; the transport's own errors are short writes.
- Base64.DecodeBase64: splitting a signature file into lines and checking its signatures are not modelled; the cryptographic primitives are foreign.
- Memory locking, thread priorities, logging, naming, metadata and version strings: plumbing with only easy members.
- `DiskBufferRing::PlanGeometry`, `LatchResult` and `MeasureThroughput`: single computations and a first-one-wins latch, which the step relations carry as a failure flag.
- `TelemetryPublisher`: the same protocol as the statistics publisher, line for line.
