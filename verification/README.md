# EmbedBench, modelled and proved

EmbedBench is a host-side bench for embedded code: a virtual clock runs device
models, every event is recorded in a bounded log, and tools turn recordings into
tapes that can be played back. This project models the parts of it that decide
whether a recording can be trusted, and proves what they promise.

- **The event log** (`Shapes`, `FoldSearch`, `Recorder`, `Ledger`, `RecorderRuns`,
  `RecorderLimits`, `FoldContents`, `TruncationNotice`, `EventLog`). A buffer of any
  capacity folds exact repeats, then repeats by shape, then leaves a notice. A ledger
  beside it says, for every sequence number, which slot stands for it or how it was lost.
- **Re-entrancy** (`Reentrancy`, `Deferral`). A step relation over the call stack of
  application, interrupt, receiver, director and device frames, and the four-slot
  queue that refines it.
- **The clocks** (`WakeTable`, `HostClock`, `ClockService`, `NestedWaits`,
  `LateTicks`, `NativeClock`, `ClockMachine`). The host's wait, with waits nested in
  callbacks as a script of actions, the native environment's advance, and their agreement.
- **Record, compile, replay** (`Pairing`, `TapeBuild`, `SpiTraffic`, `Tape`,
  `TapeReader`, `TapeModel`, `SerialOutput`, `BusyFold`, `FreePolling`, `SessionFold`,
  `BusDecode`). A log of any session becomes a step table and is played back; a logic
  analyzer's rows become the same log.
- **Codecs, storage and self-timed devices** (`Checksum`, `Modbus`, `Chunk`,
  `ChunkNode`, `FatReader`, `SdImages`, `SdCard`, `SdCardModel`, `Flash`,
  `FlashModel`, `Imu`, `RegTable`, `Qmp6988`).

Each part is stated twice where the code changes state: as a function on values, about
which the laws are proved, and as a class or a method with the code's own loops and
fields, proved to compute that function.

## Where the code differs from what it says

- A summary line keeps the count of its shape only for shapes of 1 to 49 or exactly 55
  characters; for the others the total moves to another shape
  (`RecorderLimits.TwoOfAShape`, `RecorderLimits.FramesLoseTheirShape`).
- Three kinds of deferred effects are lost without the diagnostic that
  `src/embedbench_device.h:23-34` promises: a frame whose receiver has been unbound
  meanwhile (`Reentrancy.AFrameCanVanish`), an interrupt whose handler has been detached
  meanwhile (`Reentrancy.AnInterruptCanVanish`), and whatever waits when a new window
  begins (`Reentrancy.AWindowCanForget`). Nothing else is (`Reentrancy.StartedExactly`).
- A wait of exactly one loop slice, 1000 us, may return early even when it is a one-shot
  wait. Without nested waits it does exactly when a wake off the tick boundaries comes up
  in it (`ClockService.SliceForeseenExactly`), also when none was held as it began
  (`ClockService.AskedOnTheWay`); with one, a held wake can be jumped over
  (`NestedWaits.HeldWakeSkipped`).
- A one-shot wait is meant to last as long as it asked for. It does exactly when no
  callback on the way waits past its end (`NestedWaits.WaitEndsExactly`,
  `NestedWaits.NestedWaitsOverrun`).
- A run of refused reads at the very start of a trace is folded into a busy step that
  ends late by the time at which the tape first ran (`BusyFold.FirstRunEndsLate`).
- A recorded read of zero bytes accepts a read of any length
  (`Tape.ZeroReadHidesDepartures`).
- A message too long for the chunk format is refused only after the piece size has been
  changed under a message on its way (`Chunk.TooLongDisturbsAnother`).
- The FAT12 reader reads one sector of each cluster and rounds the root directory down,
  so it agrees with the format exactly for clusters of one sector and root directories
  of whole sectors (`FatReader.OneSectorClustersOnly`, `FatReader.DataSectorAgrees`). A
  sound file in larger clusters reads Short (`FatReader.SoundFileReadsShort`).
- The FAT12 reader searches a root directory of any size in one block
  (`FatReader.PastExactly`).

## Model

| member | source | states |
|---|---|---|
| RecorderRuns.EveryEventIsAccountedFor | src/embedbench_host.cpp:393-444 | after any run of windows and events, at any capacity, every sequence number is in exactly one slot, counted as dropped, or outside the window; a slot is numbered by the least it stands for, numbers rise along the buffer, repeats are the numbers a slot stands for, and the counters add up |
| RecorderRuns.RepeatsAddUp | src/embedbench_host.cpp:208-444 | the repeats of all lines, the notice included, are the lines held plus the lines folded away |
| RecorderRuns.ShapesAddUp | src/embedbench_host.cpp:263-376 | through any mix of the two fold tiers, the repeats of a normalised shape are the kept events of that shape, for runs whose current window holds only shapes a summary line can carry |
| RecorderLimits.ShapeTotalsAreExact | src/embedbench_host.cpp:263-376 | while nothing was dropped and every shape recorded in the current window has 1 to 49 or 55 characters, the repeats of a shape are the events of that shape recorded in the window while it was open |
| RecorderLimits.TwoOfAShape | src/embedbench_host.cpp:332-371 | the condition is exact: in a log of two lines, two folded events of a shape stay counted under it if and only if its length is 1 to 49 or 55 |
| RecorderLimits.FramesLoseTheirShape | src/embedbench_host.cpp:1396-1404 | two real lines for which it fails: frames of one byte in a format with a name of 19 characters end up counted under another shape |
| Shapes.SummaryKeepsNorm | src/embedbench_host.cpp:263-280 | a summary line normalises to the shape it stands for exactly when that shape has 1 to 49 or 55 characters |
| Shapes.ShapeText | src/embedbench_host.cpp:263-280 | the scanning loop writes the shape: runs of hex digits collapsed, cut at the text length |
| RecorderLimits.ExactFoldKeepsTexts | src/embedbench_host.cpp:208-256 | an exact fold keeps the repeat total of every text, word for word |
| RecorderLimits.FoldKeepsTotals | src/embedbench_host.cpp:208-256 | a fold keeps the totals of any key its cycle agrees on |
| RecorderLimits.KeptExactlyWhen | src/embedbench_host.cpp:393-444 | an event of an open window is lost exactly when the buffer is full and either the search has failed before or nothing in it repeats by text or by shape; otherwise it is the last line |
| RecorderLimits.ExhaustedIsForGood | src/embedbench_host.cpp:401-419 | once both tiers have failed, no run without a new window changes anything but the last slot |
| RecorderLimits.RecordedTimes | src/embedbench_host.cpp:393-444 | one event recorded with a clock that has not gone back keeps first and last times in order and within the clock |
| RecorderLimits.RunTimes | src/embedbench_host.cpp:393-444 | over any run of windows in none of which the clock goes back, lines stand in the order of their first times, each line has its first and last time in order, and none passes the clock |
| Ledger.RecordedAudited | src/embedbench_host.cpp:380-444 | one recorded event keeps the ledger: whichever slot it stores, folds, evicts or overwrites |
| Ledger.FoldAudited | src/embedbench_host.cpp:241-255 | a fold moves every number of the copies to the line of the first copy it belongs to, and no other |
| Ledger.HeldMoved | src/embedbench_host.cpp:241-255 | the numbers a slot stands for after a fold: its own, and those of its copies |
| FoldSearch.FirstIsNarrowestLeftmost | src/embedbench_host.cpp:208-240 | the exact search fails exactly when no block of one to eight lines repeats at once, and else finds the narrowest, leftmost one with all its copies |
| FoldSearch.LargestFreesTheMost | src/embedbench_host.cpp:292-331 | the shape search fails exactly when nothing repeats, and else finds a cycle that frees the most lines of all |
| FoldSearch.FindFirst | src/embedbench_host.cpp:208-240 | the nested loops of the exact tier return that cycle |
| FoldSearch.FindLargest | src/embedbench_host.cpp:292-331 | the nested loops of the shape tier return that cycle |
| FoldSearch.CountCopies | src/embedbench_host.cpp:218-234 | the copy-counting loop finds where the copies of a block end |
| EventLog.EventLog.VRecord | src/embedbench_host.cpp:393-444 | recording on the buffer in place is the log step that was audited |
| EventLog.EventLog.FoldCycle | src/embedbench_host.cpp:208-256 | the exact tier in place: the buffer folded at the first cycle, or nothing changed |
| EventLog.EventLog.FoldShapeCycle | src/embedbench_host.cpp:292-376 | the shape tier in place: the buffer folded at the largest cycle, its texts replaced by summaries, or nothing changed |
| FoldContents.FoldedLine | src/embedbench_host.cpp:332-371 | by index, the line that stands for the copies of one line: number, first time, context, origin and link of the first copy, the sum of their repeats, the first time of the last line folded; an exact fold keeps the text, a shape fold writes the shape and, as two hex digits where they fit, the checksum over the texts of all the copies in order |
| FoldContents.UnfoldedLine | src/embedbench_host.cpp:369-373 | the lines before and after the folded ones are as they were |
| FoldContents.ChangedCopyIsSeen | src/embedbench_host.cpp:332-371 | two buffers that differ in one character of one copy leave different summary lines, wherever both digits fit |
| FoldContents.ShapeFoldsAreWhole | src/embedbench_host.cpp:292-331 | every cycle the search hands to a fold consists of whole copies, two or more |
| EventLog.EventLog.MarkTruncated | src/embedbench_host.cpp:380-391 | the last slot becomes the notice |
| TruncationNotice.NoticeSaysWhatIsLost | src/embedbench_host.cpp:380-419 | after any run, a log that could not keep everything ends in the notice, and the digits of its text read as the number of events dropped |
| EventLog.EventLog.RunBegin | src/embedbench_host.cpp:1166-1218 | a window starts with an empty log, its numbering and its counters |
| EventLog.EventLog.RunEnd | src/embedbench_host.cpp:1220-1240 | closing a window keeps the log as it is |
| Reentrancy.EveryInterleavingIsSound | src/embedbench_host.cpp:551-609 | in every interleaving of application, interrupt, receiver, director and device steps, over any number of windows: at most one device runs, on top of the stack; deferred effects leave the queue first in, first out, once each; raised = left the queue + queued + dropped, each drop with a diagnostic; whatever waits has someone to deliver it. Leaving the queue need not start anyone: see StartedExactly |
| Reentrancy.QuietMeansEmpty | src/embedbench_host.cpp:595-609 | whenever the application is alone outside an SPI transaction, the queue is empty and every effect has left it or was dropped with a diagnostic |
| Reentrancy.HandlersStartOutsideDevices | src/embedbench_device.h:23-34 | code is only ever started with no device on the stack; that it is started then is StartsAreMeant |
| Reentrancy.StartsAreMeant | src/embedbench_host.cpp:595-609 | over any run, the code started is, in order, exactly one entry for each effect raised outside devices that finds someone, each turn that finds someone, and each director: the handler of that very pin, or the receiver of that very frame |
| Reentrancy.StepStarts | src/embedbench_host.cpp:1255-1281 | one step starts exactly who it ought to, on top of the stack |
| Reentrancy.StartedExactly | src/embedbench_host.cpp:595-609 | over any run, every effect that left the queue started someone if and only if that held before, no turn of the run came for a pin without a handler or a frame without a receiver, and no window began while something waited |
| Reentrancy.MissedExactly | src/embedbench_host.cpp:595-609 | a turn finds nobody exactly when it comes for a pin without a handler or a frame without a receiver |
| Reentrancy.TurnFindsNobodyExactly | src/embedbench_host.cpp:595-609 | over the moves alone: the effect whose turn is next was raised by one of the moves, and finds nobody exactly when the last attach, detach or receiver change of its pin or of the receiver since that move was a removal |
| Reentrancy.RaisedOnce | src/embedbench_host.cpp:577-583 | only one move raised it |
| Reentrancy.ForgottenExactly | src/embedbench_host.cpp:1166-1193 | an effect is let go by a new window exactly when the window begins while something waits |
| Reentrancy.QuietWindowsForgetNothing | src/embedbench_host.cpp:1166-1193 | so nothing is where every window begins with the application alone outside an SPI transaction |
| Reentrancy.StartedIfNobodyLeaves | src/embedbench_host.cpp:595-609 | as long as no handler is detached and the receiver is not unbound, every turn finds someone to run |
| Reentrancy.AFrameCanVanish | src/embedbench_host.cpp:604-608 | a run in which the receiver is unbound: a deferred frame is gone with no diagnostic, against the promise that nothing is lost in silence |
| Reentrancy.AnInterruptCanVanish | src/embedbench_host.cpp:602-603 | a run in which a handler detaches itself: the second of two deferred edges of its pin is gone with no diagnostic |
| Reentrancy.AWindowCanForget | src/embedbench_host.cpp:1166-1193 | a run in which a window begins in an open SPI transaction: the edge raised by its byte is gone with no diagnostic |
| Deferral.DeferralQueue.QueueDeferred | src/embedbench_host.cpp:577-593 | the queue in place does what the step relation says: kept while there is room, dropped with a diagnostic after |
| Deferral.DeferralQueue.TakeFirst | src/embedbench_host.cpp:595-603 | taking the first effect and closing up the rest, in place |
| Deferral.DeferralQueue.StartWindow | src/embedbench_host.cpp:1187-1193 | a new window empties the queue and starts its counters again |
| Deferral.DeferralQueue.DeliverDeferred | src/embedbench_host.cpp:595-609 | the delivery loop over handlers that do anything the step relation allows - enter devices, raise effects, have them delivered, attach and detach - leaves the fields as AfterDelivery says and starts exactly what finds someone to run; it ends inside a device or with nothing waiting |
| Deferral.DeliveryIsARun | src/embedbench_host.cpp:595-609 | what the loop does is a run of the step relation that ends where the operation may return, so what holds of every interleaving holds of it |
| Deferral.PlainDelivery | src/embedbench_host.cpp:595-609 | where the handlers raise nothing more, what is started is what waited and has someone to run for it, in order |
| Deferral.DeferralQueue.Play | src/embedbench_host.cpp:551-609 | any run of the step relation, done on the queue in place, starting the code its effects ought to start, in order |
| Deferral.DeferralQueue.InjectIsr | src/embedbench_host.cpp:1255-1281 | an edge on a pin: its handler is started at once outside devices, and the edge deferred inside one |
| Deferral.DeferralQueue.InjectFrame | src/embedbench_host.cpp:1405-1421 | a frame for the application: its receiver is started at once outside devices, with that frame, and the frame deferred inside one |
| Deferral.DeferralQueue.FrameRx | src/embedbench_host.cpp:1395-1421 | a frame for the application is refused with a diagnostic, or injected with the bytes that were sent, now or deferred |
| Deferral.DeferralQueue.EnterDevice | src/embedbench_host.cpp:551-556 | entering a device raises the depth and its high-water mark |
| Deferral.DeferralQueue.LeaveDevice | src/embedbench_host.cpp:558-560 | leaving a device lowers the depth |
| Deferral.DeferralQueue.RefuseReentrantCall | src/embedbench_host.cpp:570-575 | a call that would re-enter a device is refused with a diagnostic exactly while one runs |
| Deferral.AcceptedExactly | src/embedbench_host.cpp:1340-1374 | the frames let in are exactly those of a registered format, at most 64 bits, with data wherever they have bits and every unused bit zero |
| Deferral.SameBitsSameBytes | src/embedbench_device.h:141-157 | clean padding is canonical: two accepted frames with the same bits are the same bytes |
| Deferral.ArrivesBitForBit | src/embedbench_host.cpp:1406-1414 | the eight-byte copy arrives bit for bit exactly when the frame has at most 64 bits |
| HostClock.TicksMatchTime | src/embedbench_host.cpp:615-743 | after any run, with waits nested in any callbacks, ticks fired plus ticks deferred are the boundaries passed: now / tickUs; that each tick fired is a call is EveryCallIsMeant |
| LateTicks.EveryCallIsMeant | src/embedbench_host.cpp:615-743 | over any run with nested waits: the devices are advanced exactly once for each tick counted and each wake served, deferred ticks at the moment the callback that deferred them ended, each wait of length zero calls its handler, and each call takes the next list of the script |
| LateTicks.StepCalls | src/embedbench_host.cpp:649-743 | one operation makes such calls, and a wait of length zero from the sketch makes just one |
| HostClock.WaitLoop | src/embedbench_host.cpp:676-723 | with waits nested in any callbacks the waiting loop ends and conserves ticks; unless it ends early, its next stop lies past its target |
| ClockService.EverythingIsServed | src/embedbench_host.cpp:628-743 | without nested waits, devices are advanced at exactly the tick multiples and the accepted moments, each once, in strictly increasing order, and the table holds exactly what lies ahead |
| ClockService.WaitServed | src/embedbench_host.cpp:649-743 | without nested waits, a one-shot wait ends exactly at start + us; a loop slice may end early, at a moment that was asked for |
| ClockService.WaitLoopServed | src/embedbench_host.cpp:676-723 | without nested waits the loop never passes its target, and serves everything on its way |
| ClockService.SliceReturnsEarly | src/embedbench_host.cpp:690-732 | without nested waits, whatever the callbacks ask for, a 1000 us wait returns early exactly when the same stretch, run to its end, takes or holds a request for a moment in it off the tick boundaries |
| ClockService.SliceForeseen | src/embedbench_host.cpp:690-732 | without nested waits, it is early if such a wake is held beforehand, and not if none is held and no callback is going to ask for one |
| ClockService.SliceForeseenExactly | src/embedbench_host.cpp:690-732 | without nested waits, it is early exactly when the table, taken through the ticks of the slice with what their callbacks ask for and nothing else, holds at one of them a moment in the slice off the tick boundaries |
| ClockService.AskedOnTheWay | src/embedbench_host.cpp:690-732 | no wake held beforehand, and early all the same: the first tick asks for one |
| NestedWaits.WaitEndsExactly | src/embedbench_host.cpp:649-743 | with waits nested in any callbacks, a wait that is not zero and does not come back early - which only a 1000 us wait can - ends at start + us if and only if no callback made on the way waits past that moment, and later otherwise |
| NestedWaits.FirstNestedFits | src/embedbench_host.cpp:649-743 | where only the next callback may wait, whatever is held or asked for: a one-shot wait ends on time exactly when its first stop lies past its end or that callback is over by then |
| NestedWaits.NoNestingEndsOnTime | src/embedbench_host.cpp:649-743 | without nested waits every one-shot wait ends on time |
| NestedWaits.NestedWaitsOverrun | src/embedbench_host.cpp:665-675 | one callback that waits 5000 us: a 1500 us wait ends late, a 6000 us wait on time |
| NestedWaits.NestedSkipsWakes | src/embedbench_host.cpp:665-675 | a first tick whose callback waits out the slice leaves it nothing to come back early for, whatever is held |
| NestedWaits.HeldWakeSkipped | src/embedbench_host.cpp:665-675 | so a wake held as a slice begins can be jumped over: the slice is not early |
| WakeTable.NextAfterIsLeast | src/embedbench_host.cpp:628-639 | the scan finds the least held moment after a time |
| WakeTable.RequestHolds | src/embedbench_host.cpp:1475-1496 | a request is held unless it is past, already held, or the table is full |
| WakeTable.RetiredHolds | src/embedbench_host.cpp:641-647 | retiring frees exactly the moments up to a time |
| ClockMachine.WakeSlots.NextWakeAfter | tests/common_env/nenv.cpp:429-437 | the scanning loop over the slots |
| ClockMachine.WakeSlots.RetireWakesUpTo | tests/common_env/nenv.cpp:439-443 | the freeing loop over the slots |
| ClockMachine.WakeSlots.RequestWake | tests/common_env/nenv.cpp:445-461 | the request loop: duplicate, free slot, or refusal |
| ClockMachine.HostMachine.OnWait | src/embedbench_host.cpp:649-743 | the wait on the host state in place is the wait of the specification |
| ClockMachine.HostMachine.FireTick | src/embedbench_host.cpp:615-626 | one tick on the host state: counted, devices advanced, the handler run |
| NativeClock.ClocksAgree | tests/common_env/nenv.cpp:175-197 | any wait but 0 and 1000 us takes the two clocks through the same stops to the same time, ticks and wake table |
| NativeClock.EarlySliceResumes | tests/common_env/nenv.cpp:175-197 | an early 1000 us slice followed by a one-shot wait for the rest reaches the state of the native advance |
| ClockMachine.NativeMachine.Advance | tests/common_env/nenv.cpp:175-197 | the native advance in place is the advance of the specification |
| Pairing.EveryRequestGetsItsAnswer | devices/tools/trace2regtable.py:195-215 | in the log of any session, linked or not, with any other lines between, every request is paired with its own response |
| Pairing.LinksPairAnyOverlap | devices/tools/trace2regtable.py:195-215 | however exchanges overlap: where numbers are not shared and every response names an earlier request of its kind that no other names, each request is paired with the response that names it and with no other |
| Pairing.PairTransfers | devices/tools/trace2regtable.py:195-215 | the matching loop, with its list, its pending dictionary and its two open queues, finds exactly the answered transfers in order |
| Pairing.FirstUnanswered | devices/tools/trace2regtable.py:211-212 | the search of an open queue finds the first unanswered request of its kind |
| Pairing.PairLine | devices/tools/trace2regtable.py:200-214 | one turn of the matching loop |
| TapeBuild.TapeMeansSession | devices/tools/trace2tape.py:97-179 | compilation preserves meaning: the tape of a session means the exchanges kept by its filter, in order, however the SPI bytes were merged |
| TapeBuild.RecordReplayFidelity | devices/tools/trace2tape.py:97-179 | record, compile, replay: asked the session at any times, the tape gives every recorded answer, counts 0 mismatches and finishes |
| TapeBuild.DeparturesAreDetected | devices/src/tape_model.cpp:90-203 | where every recorded read asked for something, 0 mismatches are counted exactly while the requests are a prefix of the recorded ones, SPI bytes included |
| TapeBuild.TableHolds | devices/src/tape_model.h:29-38 | payloads, read lengths and SPI runs of at most 255 fit the table's one-byte fields |
| SpiTraffic.TapeMeansTraffic | devices/tools/trace2tape.py:97-179 | with whole-call SPI lines in the session, the tape means its exchanges and, for each whole-call transfer of equal nonzero lengths, each sent byte with the byte that answered it, all in their places; the lines listed as left out are exactly the other SPI lines, in order |
| SpiTraffic.TrafficReplays | devices/tools/trace2tape.py:97-179 | record, compile, replay of such a session: asked byte for byte, at any times, the tape gives every recorded answer, counts 0 mismatches and finishes |
| SpiTraffic.TrafficDepartures | devices/src/tape_model.cpp:90-203 | where every recorded read asked for something, 0 mismatches are counted exactly while the requests are a prefix of the recorded ones |
| SpiTraffic.TrafficTableHolds | devices/src/tape_model.h:29-38 | such a tape fits the one-byte fields of the table too |
| TapeBuild.BuildTape | devices/tools/trace2tape.py:97-179 | the compiling loop over logs without serial lines, in its order of branches, builds that tape and lists what it left out, in order |
| TapeBuild.SpiLine | devices/tools/trace2tape.py:117-144 | one SPI line: joined to the run, flushed, or left out |
| Tape.DetectsExactly | devices/src/tape_model.cpp:90-203 | from any position with nothing counted, nothing is counted exactly as long as each request is accepted at its place |
| Tape.ZeroReadHidesDepartures | devices/src/tape_model.cpp:136-139 | where a recorded read asked for nothing, a read of any length passes: detection ends there |
| Tape.ReplaysFaithfully | devices/src/tape_model.cpp:90-203 | asked the recorded requests at any times, a tape gives the recorded replies, counts nothing and finishes |
| TapeReader.AnyApplicationIsRead | devices/src/tape_model.cpp:90-203 | however an application departs from the recording and whenever it asks, the tape answers and counts as a reader of its exchanges one by one would: a request of another kind is turned away where the tape stands, one of the same kind is given the recorded answer and each part that differs is counted, SPI once for a step, the end once |
| TapeReader.GroupingDoesNotShow | devices/src/tape_model.cpp:90-203 | two tapes that mean the same give any application the same answers, however their exchanges are grouped into steps |
| TapeReader.WaitingStepsTurnAway | devices/src/tape_model.cpp:90-203 | a serial step turns any bus request away, and a busy step an SPI byte, where it stands |
| TapeModel.TapeModel.I2cWrite | devices/src/tape_model.cpp:90-121 | a write on the player in place is the write of the specification |
| TapeModel.TapeModel.I2cRead | devices/src/tape_model.cpp:123-151 | a read on the player in place |
| TapeModel.TapeModel.SpiTransfer | devices/src/tape_model.cpp:179-203 | an SPI byte on the player in place |
| TapeModel.TapeModel.SerialReceived | devices/src/tape_model.cpp:153-177 | serial input on the player in place |
| TapeModel.SerialDepartures | devices/src/tape_model.cpp:153-177 | on a tape of serial input nothing is counted exactly as long as a call says the bytes expected next, and what is expected after it is the rest |
| TapeModel.SerialGrouping | devices/src/tape_model.cpp:153-177 | over any number of calls at any times, nothing is counted exactly as long as all their bytes together are a prefix of the expected ones |
| TapeModel.AdvancePlaysTheDueSteps | devices/src/tape_model.cpp:205-215 | an advance plays a stretch of the device's own steps, whole and in order, up to the first that is not its own or not due |
| SerialOutput.SentAfterFinish | devices/src/tape_model.cpp:56-72 | the output steps that a finished step leads to go out whole and in order, each by the first advance at or after its due time and none before: the first its delay after that moment, each other its delay after the one before it went out |
| SerialOutput.SentFromTheStart | devices/src/tape_model.cpp:205-215 | the same for a tape that starts with output steps, from its first advance |
| SerialOutput.OnTime | devices/src/tape_model.cpp:205-215 | advanced at the sums of the delays and at any other moments, each goes out at the sum of the delays up to its own |
| TapeModel.TapeModel.AdvanceTo | devices/src/tape_model.cpp:205-215 | the advancing loop in place |
| TapeModel.TapeModel.FinishStep | devices/src/tape_model.cpp:56-62 | finishing a step arms the next from the present |
| TapeModel.TapeModel.BusyNow | devices/src/tape_model.cpp:77-88 | a busy step refuses before its time and is passed after |
| BusyFold.FoldBusy | devices/tools/trace2tape.py:213-237 | the folding loops |
| BusyFold.FoldingPreservesAnswers | devices/tools/trace2tape.py:213-237 | on an I2C recording with strictly increasing times that does not start with a refused run, folded and unfolded tapes give the same answers at the recorded times and count nothing |
| BusyFold.FirstRunEndsLate | devices/tools/trace2tape.py:225-236 | a refused run at the very start is timed from when the tape first ran: if the next request came at least that much later, every recorded answer is given; if not, it is refused like a poll and the tape has not moved |
| BusyFold.FirstRunExactly | devices/tools/trace2tape.py:225-236 | so, unless that next request was itself refused in the recording, the answers are the recorded ones exactly when it came at least that much later |
| BusyFold.BusyUnderAnyPolling | devices/src/tape_model.cpp:64-88 | under any polling before the due time a busy step refuses every request and does not move |
| BusyFold.PassedWhenDue | devices/src/tape_model.cpp:77-88 | the first request at or after the due time is answered as the next step would |
| FreePolling.FoldedUnderAnyTiming | devices/tools/trace2tape.py:213-237 | the folded tape under any timing: unless the recording starts with a refused run, an application that asks for the answered transfers in order, at its own moments once the part is ready, gets every recorded answer however often and with whatever I2C requests it polls in between, each poll refused; the part is ready just past the last recorded poll, counted from the step before |
| SessionFold.FoldedSessionReplays | devices/tools/trace2tape.py:213-237 | record, compile, fold, replay: of a timed I2C session whose first kept exchange was not a refused poll, the folded tape gives at the recorded times every answer the part gave, refusals included, and counts nothing |
| SessionFold.TapeOfSession | devices/tools/trace2tape.py:146-160 | without SPI the tape has exactly one step for each exchange kept |
| BusDecode.DecodeInvertsEncode | devices/tools/la2trace.py:128-194 | decoding a bus on which the last transfer was stopped gives exactly the transfers put on it, with status, STOP and repeated START |
| BusDecode.DecodesBySegments | devices/tools/la2trace.py:128-194 | the lines of any rows whatever: one pair for each address row, of the byte and acknowledge rows up to the next START, address or STOP; a START after it says repeated START, anything else or the end says stopped |
| BusDecode.DecodesAnyCapture | devices/tools/la2trace.py:151-193 | a capture with or without its START rows, however it ends, decodes to the transfers it is taken to show |
| BusDecode.EveryTransferIsRecovered | devices/tools/la2trace.py:133-160 | from the decoded lines alone every transfer that keeps the bus rules comes back whole |
| BusDecode.ToLines | devices/tools/la2trace.py:128-194 | the decoding loop, with its open and its last transfer |
| BusDecode.CaptureReplays | devices/tools/la2trace.py:128-194 | a tape compiled from any capture for one address means the transfers seen to go to that address, and replays them |
| Chunk.MessageCrossesLink | devices/src/unit_chunk_model.cpp:34-129 | over any link with room for more than the header, the pieces of a message of 1 to 32 bytes fit, are as few as the link allows, and assemble to it |
| Chunk.MessageGoesOut | devices/src/unit_chunk_model.cpp:34-102 | an accepted message goes out as exactly its pieces, none refused, the first now and the rest one gap apart |
| Chunk.MessageGoesOutAnyTime | devices/src/unit_chunk_model.cpp:34-102 | advanced at any moments whatever, it sends its pieces in order, the first now, each other at the first advance at or after its moment, at least a gap apart, none refused |
| Chunk.JumpsMatter | devices/src/unit_chunk_model.cpp:98-102 | how time is cut into advances matters: with two pieces to go, stopping at m on the way to t sends one more than going to t at once exactly when a piece is due by m and the next a gap later by t |
| Chunk.NeverHalfAMessage | devices/src/unit_chunk_model.cpp:104-129 | from any frames of one message, lost, repeated or reordered, the count of messages rises only when the whole message stands assembled |
| Chunk.WhatCompletes | devices/src/unit_chunk_model.cpp:104-129 | from any frames of any senders: a frame completes a message exactly when it has the number after the run in hand and promises no more, and what completes is the bodies of that run and its own, cut at 32 bytes |
| Chunk.InHandIsUnbroken | devices/src/unit_chunk_model.cpp:104-129 | the run in hand is an unbroken stretch of the frames that arrived, numbered from 0 |
| Chunk.MixingGoesUnseen | devices/src/unit_chunk_model.cpp:104-129 | pieces of two messages are not told apart: a message nobody sent can complete |
| Chunk.TooLongDisturbsAnother | devices/src/unit_chunk_model.cpp:52-53 | a message refused as too long has already changed the piece size: the message on its way loses its next piece exactly when the new size is too big for its link |
| ChunkNode.ChunkNode.Write | devices/src/unit_chunk_model.cpp:34-66 | a message from the world, on the buffers in place |
| ChunkNode.ChunkNode.EmitOne | devices/src/unit_chunk_model.cpp:68-97 | one frame built and offered |
| ChunkNode.ChunkNode.Advance | devices/src/unit_chunk_model.cpp:98-102 | the catching-up loop |
| ChunkNode.ChunkNode.Frame | devices/src/unit_chunk_model.cpp:104-129 | a frame arriving, on the buffers in place |
| FatReader.ReadChain | tests/units_sdcard/fat12_reader.h:87-124 | on every volume the reader ends; it is complete, with the wanted bytes, exactly when every cluster needed is in range, new and readable, and else names what stopped it first, with the bytes before that |
| FatReader.ReadsAreBounded | tests/units_sdcard/fat12_reader.h:89-99 | however corrupt the volume, no more than 62 blocks are ever delivered |
| FatReader.GoodChainsAreShort | tests/units_sdcard/fat12_reader.h:89-95 | a chain without a repetition has at most 62 clusters this reader can name |
| FatReader.OneSectorClustersOnly | tests/units_sdcard/fat12_reader.h:98-99 | for a file of two blocks or more whose clusters are sound, as many as its blocks need, the reader takes the sectors the FAT names exactly when a cluster is one sector |
| FatReader.SoundFileReadsShort | tests/units_sdcard/fat12_reader.h:97-121 | every sound file of two blocks or more in clusters of several sectors reads Short, with one block of each of its clusters |
| FatReader.DataSectorAgrees | tests/units_sdcard/fat12_reader.h:53-54 | the data area is found where the FAT puts it exactly when the root entries fill whole sectors |
| FatReader.FindsFirst | tests/units_sdcard/fat12_reader.h:59-73 | the file found is the first entry of that name with no never-used entry before it |
| FatReader.PastExactly | tests/units_sdcard/fat12_reader.h:59-73 | the search reads past its one block exactly when the directory has more than 16 entries and none of the first 16 is never-used or the one looked for |
| FatReader.Find | tests/units_sdcard/fat12_reader.h:59-73 | the searching loop, wherever it stays in its block |
| SdImages.EntryReadsBack | devices/tools/make_sd_images.py:54-60 | a twelve-bit entry reads back and disturbs no other |
| SdImages.FatSectorReadsBack | devices/tools/make_sd_images.py:48-61 | every chain reads back from its sector, entry for entry |
| SdImages.FillFatSector | devices/tools/make_sd_images.py:48-61 | the loop over the entries on a sector changed in place |
| SdImages.VolumeMounts | devices/tools/make_sd_images.py:25-45 | every volume built is mounted with its geometry |
| SdImages.VolumeFinds | devices/tools/make_sd_images.py:64-73 | its file is found, with its size, exactly when its padded name does not start like a free or a deleted entry |
| SdImages.FileComesBack | devices/tools/make_sd_images.py:76-86 | a file of at most one block is mounted, found and read back whole |
| SdImages.SizeMismatchReadsShort | devices/tools/make_sd_images.py:110-112 | the volume whose size is overstated reads Short after one block |
| SdImages.OutOfRangeIsSaid | devices/tools/make_sd_images.py:106-109 | the volume whose chain leads away reads OutOfRange |
| SdImages.CircularIsSeen | devices/tools/make_sd_images.py:102-105 | the volume whose chain loops reads Looped after each cluster was read once |
| SdImages.TwoSectorClusters | tests/units_sdcard/fat12_reader.h:97-121 | such a volume: a two-block file in one cluster of two sectors reads Short with its first block |
| SdImages.BadBootsDoNotMount | tests/units_sdcard/fat12_reader.h:40-51 | an image is refused exactly for its signature, a sector size other than a block, or a count of zero sectors a cluster or FATs |
| SdImages.Runs | devices/tools/make_sd_images.py:158-176 | the nested loops find stretches of the image in order, at least eight zeros apart, with no eight zeros inside, that leave only zeros out |
| SdImages.RunsLoadBack | devices/tools/make_sd_images.py:158-176 | laying the runs of any image on a blank card gives the image back |
| SdCard.BlocksAreTheLandedWrites | devices/src/unit_sdcard_model.cpp:53-198 | over any run of selects, bytes, time and power cycles, the blocks are the first ones with the landed writes applied in order; each was the legal sequence under one selection and had its 4000 us |
| SdCard.WrittenBlockReadsBack | devices/src/unit_sdcard_model.cpp:124-198 | what a write command wrote, a read command of that block returns, however the bytes of both are spread in time |
| SdCard.WriteLands | devices/src/unit_sdcard_model.cpp:162-198 | a write command, any bytes up to the token, the block and two more, each at its own moment: the answers are 00 in the place of the command's, 05 to the last byte and FF elsewhere; nothing changes until 4000 us after the last, then that block does |
| SdCard.ReadAnswers | devices/src/unit_sdcard_model.cpp:141-161 | a read command answers with token, block and two bytes, whatever is clocked in and whenever |
| SdCard.AnsweredExactly | devices/src/unit_sdcard_model.cpp:69-122 | what each complete command answers, byte for byte: 01 to the initialisation, 00 where it can be served, 04 and a count where not; and which move on to a transfer |
| SdCard.Initialises | devices/src/unit_sdcard_model.cpp:69-122 | a card just powered refuses until it is initialised, says it is idle then, and is ready for commands |
| SdCard.PollsUntilItLands | devices/src/unit_sdcard_model.cpp:188-198 | while a write is on its way every byte is answered 00 while the card is selected, through any polls, releases and selections, until the write lands; then FF |
| SdCardModel.SdCardModel.SpiTransfer | devices/src/unit_sdcard_model.cpp:124-190 | one byte each way on the card in place |
| SdCardModel.SdCardModel.BeginCommand | devices/src/unit_sdcard_model.cpp:69-122 | a complete command on the card in place |
| SdCardModel.SdCardModel.Select | devices/src/unit_sdcard_model.cpp:53-67 | the select line on the card in place |
| SdCardModel.SdCardModel.AdvanceTo | devices/src/unit_sdcard_model.cpp:192-198 | a write landing in place |
| SdCardModel.SdCardModel.LoadImage | devices/src/unit_sdcard_model.cpp:36-51 | an image laid down from its runs; one with too many blocks changes nothing, one with a run that does not fit leaves the runs before it laid |
| SdCardModel.SdCardModel.LoadBlocks | devices/src/unit_sdcard_model.cpp:26-34 | raw blocks laid down as given, or nothing |
| SdCardModel.LoadedVolumeReads | devices/src/unit_sdcard_model.cpp:36-51 | a built volume, stored as runs and loaded, is mounted and gives its file back |
| Flash.ArrayIsTheLandedOperations | devices/src/unit_flash_model.cpp:32-147 | over any run the array is the first one with the landed operations done in order; each was the content of one selection, had its time, and spent a write enable of its own |
| Flash.BusyIsUndisturbed | devices/src/unit_flash_model.cpp:59-68 | while the part is busy no selection, byte or status poll disturbs what is in flight |
| Flash.ProgramReadsBack | devices/src/unit_flash_model.cpp:32-147 | a page written with an enable and given its time reads back from its address, cut at the end of the array |
| Flash.StatusAnswers | devices/src/unit_flash_model.cpp:112-115 | a status poll answers with the busy and the enable bit and changes neither |
| Flash.BeginsExactly | devices/src/unit_flash_model.cpp:32-110 | what a whole selection does: an operation it asks for begins, as asked, exactly when a write is enabled and nothing is in flight, spending the enable, and is refused and counted otherwise; a write is enabled exactly by a selection that begins with 06 |
| Flash.EnableOperateReadBack | devices/src/unit_flash_model.cpp:32-147 | enable, program or erase, wait, read back, each under its own selection: nothing before 3000 or 8000 us, then the array as it was to be, at every address |
| FlashModel.FlashModel.SpiTransfer | devices/src/unit_flash_model.cpp:91-132 | one byte each way on the part in place |
| FlashModel.FlashModel.FinishCommand | devices/src/unit_flash_model.cpp:32-74 | a command committed in place |
| FlashModel.FlashModel.Select | devices/src/unit_flash_model.cpp:76-89 | the select line in place |
| FlashModel.FlashModel.AdvanceTo | devices/src/unit_flash_model.cpp:134-147 | an operation landing in place |
| Imu.JumpIndependence | devices/src/unit_imu_model.cpp:77-95 | it does not matter in how many jumps time passes |
| Imu.JumpSamples | devices/src/unit_imu_model.cpp:77-95 | a jump makes one sample a period: as many as fit are kept, the rest lost and flagged |
| Imu.EverySampleIsAccountedFor | devices/src/unit_imu_model.cpp:19-95 | over any run: first in, first out, the bytes of all burst reads are those of the samples handed out, in order; produced = taken + lost + waiting, the overflow flag set exactly when something was lost since the last status read, the line up exactly at eight or more |
| Imu.SamplesSince | devices/src/unit_imu_model.cpp:28-49 | the first sample comes a period after switching on; switching on again changes nothing |
| Imu.BytesCarrySamples | devices/src/unit_imu_model.cpp:64-70 | a burst read is the samples, high byte first |
| Imu.ReadsAnswer | devices/src/unit_imu_model.cpp:51-75 | at any moment of a run: a status read answers with how many samples wait and whether one was lost since the last status read; a burst read with the oldest that wait, as many as fit; any other read with nothing |
| Imu.ValueGoesThrough | devices/src/unit_imu_model.cpp:97-102 | a value set from the world goes out as the same two bytes |
| Imu.WriteAnswers | devices/src/unit_imu_model.cpp:28-49 | which writes are acknowledged, and what they change |
| Imu.ImuModel.Advance | devices/src/unit_imu_model.cpp:77-95 | the sampling loop on the FIFO in place |
| Imu.ImuModel.I2cRead | devices/src/unit_imu_model.cpp:51-75 | a read in place: the status cleared, or the FIFO moved down over what went out |
| Imu.ImuModel.I2cWrite | devices/src/unit_imu_model.cpp:28-49 | a register write in place |
| Qmp6988.JumpIndependence | devices/src/qmp6988_model.cpp:107-109 | it does not matter in how many jumps time passes |
| Qmp6988.NormalModeFrom | devices/src/qmp6988_model.cpp:78-138 | normal mode written at s, unless a forced conversion runs: nothing until the conversion time, then one conversion a period, the data register presenting the sample of the last one, the list repeating |
| Qmp6988.NormalConversions | devices/src/qmp6988_model.cpp:89-109 | the same from any point of the schedule |
| Qmp6988.ForcedOnce | devices/src/qmp6988_model.cpp:89-138 | a forced conversion written over the bus lands once, when the conversion time of the written byte has passed, and the part sleeps |
| Qmp6988.ForcedRunsOn | devices/src/qmp6988_model.cpp:126-132 | any normal-mode byte written during a forced conversion runs on from it: the first conversion comes when that one was due, then one for each period the byte sets |
| Qmp6988.SleepStops | devices/src/qmp6988_model.cpp:120-124 | sleep mode written over the bus abandons what was running |
| Qmp6988.ConversionTime | devices/src/qmp6988_model.cpp:78-83 | from the bits of the written control byte: 2970 us and 855 us for each sample averaged, none for a field of zero and else two to the field less one |
| Qmp6988.StandbyTime | devices/src/qmp6988_model.cpp:84-87 | the standby chosen by the three high bits of the setup byte, which changes nothing else |
| Qmp6988.ResetLeaves | devices/src/qmp6988_model.cpp:62-72 | a soft reset over the bus leaves the part asleep with nothing to come, its counters and its pointer at zero, and every register at its power-on contents, the calibration at the one set from the world |
| Qmp6988.OtherValuesOnlyStore | devices/src/qmp6988_model.cpp:111-118 | any other value written to the reset register is stored and that is all |
| Qmp6988.CalibrationPresents | devices/src/qmp6988_model.cpp:183-189 | a calibration of 25 bytes is taken and presented, any other refused |
| Qmp6988.Qmp6988Model.CompleteOne | devices/src/qmp6988_model.cpp:89-105 | one conversion in place |
| Qmp6988.Qmp6988Model.Advance | devices/src/qmp6988_model.cpp:107-109 | the catching-up loop in place |
| Qmp6988.Qmp6988Model.Written | devices/src/qmp6988_model.cpp:111-138 | what a register write does beyond the table, in place |
| RegTable.PlacesAreDistinct | devices/src/regtable_model.cpp:6-15 | every byte of every register has a place of its own in the packed array |
| RegTable.SetThenGet | devices/src/regtable_model.cpp:47-57 | a byte set reads back and disturbs no other |
| RegTable.SetBytesThenGet | devices/src/regtable_model.cpp:59-62 | a register written whole reads back, and every other is as it was |
| RegTable.PowerOnContents | devices/src/regtable_model.cpp:17-33 | after power-on every register presents its power-on contents |
| RegTable.BusWriteReadsBack | devices/src/regtable_model.cpp:64-94 | what a bus write leaves, read back, and when it is refused |
| RegTable.Table.Lay | devices/src/regtable_model.cpp:6-15 | the constructor's loop takes registers while they fit |
| RegTable.Table.I2cWrite | devices/src/regtable_model.cpp:64-94 | a bus write in place: a probe, a pointer, a refusal, or data stored |
| Checksum.Crc8 | src/embedbench_host.cpp:475-485 | the loop over bytes folds the single step |
| Checksum.ByteLoop8 | src/embedbench_host.cpp:466-473 | the bit loop shifts eight times |
| Checksum.OneByteIsSeen8 | src/embedbench_host.cpp:466-485 | two payloads of one length that differ in one byte never share the 8-bit checksum |
| Checksum.SwapIsSeen8 | src/embedbench_host.cpp:466-485 | swapping neighbours a and b goes unseen exactly when a xor b is 0 or 0xFD |
| Checksum.ComputeCrc16 | devices/src/unit_modbus_model.cpp:6-16 | the nested loops compute the 16-bit checksum |
| Checksum.OneByteIsSeen16 | devices/src/unit_modbus_model.cpp:6-16 | two payloads of one length that differ in one byte never share the 16-bit checksum |
| Checksum.OwnCrcGivesZero | devices/src/unit_modbus_model.cpp:6-16 | any data followed by its checksum, low byte first, has checksum 0 |
| Checksum.CheckValue8 | src/embedbench_host.cpp:466-485 | the digits 1 to 9 have the 8-bit checksum F4, the check value of its polynomial |
| Checksum.CheckValue16 | devices/src/unit_modbus_model.cpp:6-16 | the digits 1 to 9 have the 16-bit checksum 4B37, the check value of its polynomial |
| Modbus.RepliesClose | devices/src/unit_modbus_model.cpp:86-89 | every reply passes the check applied to requests |
| Modbus.RequestIsAnswered | devices/src/unit_modbus_model.cpp:51-91 | a well-formed read request in range is answered with the registers asked for |
| Modbus.OthersAreNotAnswered | devices/src/unit_modbus_model.cpp:51-76 | a closed request for another slave is foreign, for another function unsupported, for no register or one not there out of range, and only then |
| Modbus.OtherLengthsAreNotAnswered | devices/src/unit_modbus_model.cpp:64-71 | closed frames of any other length are unsupported, or foreign |
| Modbus.OneBadByteIsRefused | devices/src/unit_modbus_model.cpp:51-62 | a frame with one byte changed is refused |
| Modbus.BigEndianReads | devices/src/unit_modbus_model.cpp:81-85 | the reply carries the registers high byte first |
| Modbus.ModbusModel.HandleFrame | devices/src/unit_modbus_model.cpp:51-91 | a complete frame handled in place |
| Modbus.ModbusModel.SerialIn | devices/src/unit_modbus_model.cpp:30-42 | bytes gathered into a frame in place |
## Left out

- Counters and times are unbounded integers: the wrap of 32-bit counters and 64-bit
  microseconds is not modelled.
- Event texts are character sequences cut at the field's length; `snprintf` formats,
  `formatTrace`, listeners, lifecycle hooks and the Arduino core's own code are not
  part of this model.
- A tick length of zero is excluded (`tickUs > 0`): `onWait` would not end.
- Links of folded lines may name a line that is gone.
- Order between deferred effects and effects raised outside any device is not claimed:
  a handler that runs from the queue may see a later effect first.
- While no window is open, the hooks on pins, I2C and UART are off and their calls reach no
  device; the step relation switches off only the SPI bus then and still allows the
  others, so it has more runs than the program there.
- The text of log and capture lines is taken as already split into fields; a bad
  address value, which ends the decoder, is not a row of the model.
- Serial steps are played but not compiled: the text labels of serial traffic are
  ambiguous. Tapes are for logs without serial lines, or for one address, or for SPI.
- TapeBuild.BuildTape: does not model the serial branches of the compiling loop.
- A player's requests to be woken when an output step is due are not modelled; the laws
  of serial output hold for whatever moments it is advanced at.
- Which edges of a pin its trigger takes: an edge of the model is one that is taken.
- TapeModel.TapeModel.SerialReceived: requires serial steps that hold at least one
  byte, because the player reads the first byte of a step before it looks at its length.
- A device is always attached to a port: the branches for a missing port are left out.
- Pairing.PairTransfers: the transfer objects, which the list, the dictionary and the
  queues share, are named by the lines of their requests instead of by reference.
- The source text kept beside a step for comments, and the comments of the generated
  header, are not modelled.
- FatReader.Find: requires that the search stays in the one block it reads; what it
  finds past that block is whatever lies there.
- FatReader.ReadChain: a block reads the same each time it is read, or fails each time.
- Volumes are built as sequences; only the FAT sector and the runs are also built in
  place.
- The SD card's world channel, which may fill a block at any moment, and commands that
  contain the byte 0xFF, which the card skips, are left out of the round trips.
- The pressure sensor's status bit, its reads across register boundaries and its
  sample channel, the GPS unit, the SHT30's soft-reset window and the units that only
  answer with a stored value: nothing that is modelled depends on what they hold.
- The conformance probe, the name registry and the earlier variant of the folding in
  `tests/capacity_policy/native/main.cpp`.
