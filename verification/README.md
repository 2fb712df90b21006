# Wangle: a verified model of its protocols

Wangle is a client/server framework over an event loop. This project models the
parts of it that hold protocol, cursor, framing and scheduling logic, and proves
what they keep over every run. Each part comes as a module of values
(datatypes, functions, lemmas) that says what the code computes, and, where the
code changes things in place, a class whose methods are proved against that
module.

| part | modules |
|---|---|
| a handshake run on another event loop | `EvbHandshake`, `EvbHandshakeObject` |
| the connection list, its drain and its timed drop | `ConnectionList`, `BusyIdle`, `Drain`, `DrainRuns`, `DropSchedule`, `ConnectionManagerObject` |
| stream framing | `Octets`, `Arithmetic`, `LengthField`, `LineFraming`, `FrameReader`, `ByteToMessageDecoderObject` |
| a cache kept in step with a store | `PersistentCache`, `LRUPersistentCacheObject` |
| pipelined dispatchers | `Pipelining`, `DispatchersObject` |
| the acceptor's accounting and shutdown | `AcceptorAccounting`, `AcceptorObject` |
| pipeline links | `PipelineLinks` |
| the index of server names | `SniIndex`, `SslContextsObject` |

`dafny verify dfyconfig.toml` checks the whole project.

What comes from outside the code is a parameter of the events and methods: the
order in which two loops or two threads take their steps, what a connection's
callbacks do to it, which entries an eviction takes, whether a write to the
store succeeds, how chunks are cut, when futures complete.

## Where the code does not keep a promise

Each of these is a lemma with the exact condition; the code is modelled as it is.

- The inner handshake helper can be dropped after it has called back, which its
  interface forbids: exactly when an ignored callback came first
  (`InnerDroppedAfterSignal`, `CaseOneDropsSignaledHelper`).
- A drop made before the posted start task has left the acceptor loop drops a
  helper that was never started (`EarlyDropFaults`).
- Activating a connection behind the drain cursor moves it in front of the
  cursor, and the drain then completes without it: one that was not told yet is
  never told anything (`ActivationIsCoveredIff`, `ActivationIsForgottenIff`, and
  a run in `DrainForgetsActivated`).
- `dropAllConnections` leaves the idle counter behind, and a connection added
  again or moved to another manager while idle breaks the busy/idle layout
  (`DropAllKeepsPartitionIff`, `ReAddKeepsPartitionIff`,
  `TransferKeepsPartitionIff`).
- The number of rounds left is cut to an `int`; exactly for multiples of 2^32 it
  is zero and is then divided by (`RoundsRemainingIsCeilIff`, `RoundsVanishIff`,
  `RoundCrashesIff`).
- A timed drop of a percentage with no interval drops nothing, where a retained
  fraction drops at once (`PlansAim`).
- The three-byte length fields of the decoder's documentation are not read, a
  four-byte field truncates silently, and a negative adjustment beyond the end
  of the field wraps in 32 bits (`FieldIsReadIff`, `UnreadFieldFixesFrames`,
  `FourByteFieldTruncates`, `FrameLengthIff`).
- A complete frame with a body over INT_MAX makes `decode` throw out of `read`
  instead of reporting an error, and the default limit allows such frames
  (`DecodeThrowsIff`, `SettingsCanThrowIff`).
- A line of exactly `maxLength_` bytes is discarded although the later
  comparison would allow it (`HeadLineEmittedIff`).
- Turning a transport active does not decode what was buffered meanwhile
  (`ResumeWaitsForTheNextRead`).
- After the syncer gives up, and after a load that failed, met a pair that does
  not convert or did not fit the capacity, the versions agree and the contents
  need not (`GivingUpHidesAnUpdate`, `LoadAgreesIff`, `FailedLoadAgreesIff`,
  with `ConversionErrorLosesAPair` and `CapacityLosesAPair`). With no retry
  configured a failing syncer never stops (`FailingLoopStopsIff`).
- With 2^32 responses outstanding, reading one more request lets its answer go
  out in place of the oldest one's (`ReadIsSafeIff`).
- `Acceptor::dropConnections` sets `forceShutdownInProgress_` for good, so a
  later drain never finishes by itself (`DrainCompletesIff`, `ForceIsForGood`).

## Model

| member | source | states |
|---|---|---|
| `EvbHandshake.StepKeepsInv` | wangle/acceptor/EvbHandshakeHelper.cpp:22-169 | every step of either loop keeps an inductive invariant that locates the transport, the inner helper, the guard and all queued tasks |
| `EvbHandshake.EveryRunIsSafe` | wangle/acceptor/EvbHandshakeHelper.cpp:22-169 | in every interleaving the outer callback is delivered at most once and never after the drop returned, nothing freed is touched, D' never follows a callback that won, the transport is detached and reattached at most once; when both loops are drained it was delivered exactly once and a guard was released exactly once |
| `EvbHandshake.GuardReleasedLast` | wangle/acceptor/EvbHandshakeHelper.cpp:55-84 | the guard is held from the drop's notification to its release, which is the last task of the run; the helper is freed only when nothing is left to run |
| `EvbHandshake.WinnerIsFinal` | wangle/acceptor/EvbHandshakeHelper.h:79-205 | whichever side wins the compare-and-swap, no later step changes the winner |
| `EvbHandshake.ObserverHearsTheOutcome` | wangle/acceptor/EvbHandshakeHelper.cpp:55-168 | in every interleaving, when both loops are drained, the one callback reported the error of the drop if there was one, else the outcome of the inner callback that won; the transport is back on the acceptor loop exactly if ready won, else closed |
| `EvbHandshake.IgnoredReadyClosesTransport` | wangle/acceptor/EvbHandshakeHelper.cpp:94-102 | a ready callback that lost to a drop destroys its transport, and no later step brings it back |
| `EvbHandshake.StepLowersRank` | wangle/acceptor/EvbHandshakeHelper.cpp:22-169 | every step lowers a measure of the work left |
| `EvbHandshake.RunIsBounded` | wangle/acceptor/EvbHandshakeHelper.cpp:22-169 | no run is longer than that measure allows |
| `EvbHandshake.EveryRunCompletes` | wangle/acceptor/EvbHandshakeHelper.cpp:22-169 | from every reachable state the loops alone reach quiescence, with the callback delivered once |
| `EvbHandshake.InnerDroppedAfterSignal` | wangle/acceptor/AcceptorHandshakeManager.h:124-125 | D' reaches an inner helper that has signaled if and only if a callback that lost the race ran before it |
| `EvbHandshake.CaseOneDropsSignaledHelper` | wangle/acceptor/EvbHandshakeHelper.h:79-205 | case 1 of the header, from the first call on, is a run on which the interface's rule is broken |
| `EvbHandshake.EarlyDropFaults` | wangle/acceptor/EvbHandshakeHelper.cpp:36-45 | a drop before the posted start has left the acceptor loop leads to dropping a helper that was never started |
| `EvbHandshakeObject.EvbHandshakeHelper.constructor` | wangle/acceptor/EvbHandshakeHelper.h:79-205 | a new helper is in the initial state of the protocol |
| `EvbHandshakeObject.EvbHandshakeHelper.TryTransition` | wangle/acceptor/EvbHandshakeHelper.cpp:171-177 | the compare-and-swap: it moves the state exactly if it found the expected one, and returns whether it did and what it found |
| `EvbHandshakeObject.EvbHandshakeHelper.Start` | wangle/acceptor/EvbHandshakeHelper.cpp:22-46 | refines the protocol's start step: the state, the detached transport and the posted hop |
| `EvbHandshakeObject.EvbHandshakeHelper.RunPostStart` | wangle/acceptor/EvbHandshakeHelper.cpp:37-39 | refines the hop of the start from the acceptor loop to the handshake loop |
| `EvbHandshakeObject.EvbHandshakeHelper.StartInnerHelper` | wangle/acceptor/EvbHandshakeHelper.cpp:40-43 | refines the start task: the transport is attached to the handshake loop and the inner helper begins |
| `EvbHandshakeObject.EvbHandshakeHelper.DropConnection` | wangle/acceptor/EvbHandshakeHelper.cpp:48-53 | refines D up to its race |
| `EvbHandshakeObject.EvbHandshakeHelper.DropConnectionNotify` | wangle/acceptor/EvbHandshakeHelper.cpp:55-63 | refines setting the guard and calling the observer once |
| `EvbHandshakeObject.EvbHandshakeHelper.DropConnectionPost` | wangle/acceptor/EvbHandshakeHelper.cpp:65-85 | refines the post of D', made only by a drop that won |
| `EvbHandshakeObject.EvbHandshakeHelper.InnerCallback` | wangle/acceptor/EvbHandshakeHelper.cpp:87-102 | refines C up to its race, for both outcomes; an ignored ready callback destroys its transport |
| `EvbHandshakeObject.EvbHandshakeHelper.InnerCallbackPost` | wangle/acceptor/EvbHandshakeHelper.cpp:104-168 | refines a callback that won: detach and hop for ready, reset and post for error; what the observer then hears is `ObserverHearsTheOutcome` |
| `EvbHandshakeObject.EvbHandshakeHelper.RunForwardReady` | wangle/acceptor/EvbHandshakeHelper.cpp:106-112 | refines the hop of a ready callback through the handshake loop |
| `EvbHandshakeObject.EvbHandshakeHelper.DropInnerHelper` | wangle/acceptor/EvbHandshakeHelper.cpp:70-74 | refines the first part of D', the inner drop |
| `EvbHandshakeObject.EvbHandshakeHelper.ResetInnerHelper` | wangle/acceptor/EvbHandshakeHelper.cpp:76-79 | refines the reset of D', which destroys the transport on the handshake loop |
| `EvbHandshakeObject.EvbHandshakeHelper.PostGuardRelease` | wangle/acceptor/EvbHandshakeHelper.cpp:81-82 | refines the post of the release of the guard |
| `EvbHandshakeObject.EvbHandshakeHelper.RunAcceptorTask` | wangle/acceptor/EvbHandshakeHelper.cpp:81-134 | refines C' and the release of the guard: the transport is attached back, a set guard is cleared and silences the callback |
| `BusyIdle.AddKeepsPartition` | wangle/acceptor/ConnectionManager.cpp:58-81 | adding an unmanaged connection keeps the busy/idle layout |
| `BusyIdle.RemoveKeepsPartition` | wangle/acceptor/ConnectionManager.cpp:141-176 | so does removing any connection, with either cursor on it |
| `BusyIdle.ActivateKeepsPartition` | wangle/acceptor/ConnectionManager.cpp:519-533 | so does activating one |
| `BusyIdle.DeactivateKeepsPartition` | wangle/acceptor/ConnectionManager.cpp:535-555 | so does deactivating one |
| `BusyIdle.DropFrontTakesPrefix` | wangle/acceptor/ConnectionManager.cpp:355-367 | a count drop removes exactly the first min(n, size) connections |
| `BusyIdle.ShedTakesIdlePrefix` | wangle/acceptor/ConnectionManager.cpp:560-585 | idle shedding removes a prefix of the idle part and no busy connection |
| `BusyIdle.ShedIsOptimal` | wangle/acceptor/ConnectionManager.cpp:557-585 | it drops exactly min(num, k) of the k idle connections over the threshold, the longest idle ones, and restores the layout |
| `BusyIdle.StepRefines` | wangle/acceptor/ConnectionManager.h:400-425 | each operation on the list with two cursors is one operation on two plain queues |
| `BusyIdle.EveryRunKeepsPartition` | wangle/acceptor/ConnectionManager.h:400-425 | over every run: ACTIVE before the idle cursor, IDLE from it on, the counter is the length of the idle part, the busy part is newest first, the idle part oldest first, and both parts are what the two queues hold |
| `BusyIdle.CountersNeverUnderflow` | wangle/acceptor/ConnectionManager.cpp:146-150 | the counter is positive whenever it is about to be lowered, and never exceeds the size |
| `BusyIdle.DropAllKeepsPartitionIff` | wangle/acceptor/ConnectionManager.cpp:321-353 | dropping all keeps the layout, and the active count's CHECK, if and only if nothing was idle |
| `BusyIdle.ReAddKeepsPartitionIff` | wangle/acceptor/ConnectionManager.cpp:63-65 | adding a listed connection again keeps it if and only if that was active |
| `BusyIdle.TransferKeepsPartitionIff` | wangle/acceptor/ConnectionManager.cpp:63-70 | the same for a connection another manager takes over |
| `BusyIdle.ShedNeedsRemoval` | wangle/acceptor/ConnectionManager.cpp:578-581 | stepping the cursor past an idle connection breaks the layout, and the removal that follows repairs it |
| `Drain.WalkSweeps` | wangle/acceptor/ConnectionManager.cpp:254-275 | the batch loop: whatever connections do from their callbacks, all those in front of the local cursor have got the message of the phase |
| `Drain.BatchKeepsInv` | wangle/acceptor/ConnectionManager.cpp:249-300 | one batch keeps coverage and the schedule |
| `Drain.BatchKeepsLive` | wangle/acceptor/ConnectionManager.cpp:249-300 | whatever its connections do, a batch keeps the list in order, leaves the right callback or timer scheduled and never lowers the state |
| `Drain.ActivationIsCoveredIff` | wangle/acceptor/ConnectionManager.cpp:519-533 | an activation keeps coverage if and only if the connection has its message already or is not strictly behind the cursor |
| `Drain.AddKeepsInv` | wangle/acceptor/ConnectionManager.cpp:89-110 | a connection added in any phase is covered |
| `Drain.DeferredCloseKeepsInv` | wangle/acceptor/ConnectionManager.cpp:95-110 | the deferred close keeps coverage |
| `DrainRuns.CheckNeverFires` | wangle/acceptor/ConnectionManager.cpp:256-259 | a pending loop callback means a draining state |
| `DrainRuns.StepKeepsLive` | wangle/acceptor/ConnectionManager.cpp:193-319 | every event, any activation included, keeps the layout and the schedule, and the state never decreases |
| `DrainRuns.EveryRunIsScheduled` | wangle/acceptor/ConnectionManager.cpp:222-319 | on every run: a loop callback is pending exactly in NOTIFY and CLOSE, the timer is armed in NOTIFY_COMPLETE, and the state never decreases |
| `DrainRuns.StepKeepsInv` | wangle/acceptor/ConnectionManager.cpp:193-319 | every event without an activation past the cursor keeps coverage |
| `DrainRuns.EveryRunIsCovered` | wangle/acceptor/ConnectionManager.cpp:222-319 | on every run without an activation past the cursor all listed connections are notified when the notify phase is over, and all are sent closeWhenIdle or have it queued when the close phase completes by draining |
| `DrainRuns.BatchServes` | wangle/acceptor/ConnectionManager.cpp:254-275 | a batch that starts at the front serves the first 64 connections of the list, whatever they do meanwhile, and takes no message back |
| `DrainRuns.StartWithoutGraceCloses` | wangle/acceptor/ConnectionManager.cpp:233-247 | a drain started without a grace period is in its close phase at once, forced and without a timer: the first 64 connections have been sent closeWhenIdle, and in no later state of any run is a notify phase entered or anybody notified |
| `DrainRuns.StartWithGraceNotifies` | wangle/acceptor/ConnectionManager.cpp:233-247 | with a grace period the notify phase begins and its timer is armed; the first 64 connections are notified and nobody is sent closeWhenIdle |
| `DrainRuns.EveryRunSpares` | wangle/acceptor/ConnectionManager.cpp:193-319 | on every run nobody is sent closeWhenIdle before the close phase, and nobody is notified before a drain or by one without grace |
| `DrainRuns.InternalEventsProgress` | wangle/acceptor/ConnectionManager.cpp:233-313 | every loop callback, timer and deferred close lowers a well-founded measure |
| `DrainRuns.DrainNeverStalls` | wangle/acceptor/ConnectionManager.cpp:233-313 | while a drain is not complete an internal event is pending, whatever the connections did |
| `DrainRuns.RunToCompletion` | wangle/acceptor/ConnectionManager.cpp:233-313 | any schedule of the pending internal events reaches CLOSE_WHEN_IDLE_COMPLETE, whatever the connections did |
| `DrainRuns.DrainReachesEveryConnection` | wangle/acceptor/ConnectionManager.cpp:296-298 | from a covered state every connection still listed has then been told to close |
| `DrainRuns.ForgottenForGood` | wangle/acceptor/ConnectionManager.cpp:260-275 | a connection in front of the cursor of its phase, or never told when the close phase comes, is not reached by any schedule |
| `DrainRuns.ActivationIsForgottenIff` | wangle/acceptor/ConnectionManager.cpp:519-533 | an activation during the drain lets it still reach every connection if it is of the cursor's own or a served one, and otherwise makes it complete without that connection |
| `DrainRuns.DrainForgetsActivated` | wangle/acceptor/ConnectionManager.cpp:519-533 | a run from a new manager with more than 65 connections on which this happens |
| `DropSchedule.RoundsRemainingIsCeilIff` | wangle/acceptor/ConnectionManager.cpp:431-434 | the stored number of rounds is the rounded-up quotient if and only if that fits an int |
| `DropSchedule.RoundsVanishIff` | wangle/acceptor/ConnectionManager.cpp:431-434 | it is zero if and only if the quotient is a multiple of 2^32 |
| `DropSchedule.ShareOfIs` | wangle/acceptor/ConnectionManager.cpp:436-438 | the unsigned 64-bit share is the rounded-up quotient for a positive number of rounds, and zero or one for a truncated negative one |
| `DropSchedule.QuotaBounds` | wangle/acceptor/ConnectionManager.cpp:417-438 | a round never goes below the target, drops at least one connection if the rounds fit an int, and the last round drops the whole excess |
| `DropSchedule.RoundCrashesIff` | wangle/acceptor/ConnectionManager.cpp:411-438 | a round divides by zero if and only if there is something to drop and the rounds left are a positive multiple of 2^32 |
| `DropSchedule.ScheduleIsSound` | wangle/acceptor/ConnectionManager.cpp:411-472 | for any closes, adds and overruns between rounds: no forced drop goes below the target, at most ceil(duration/interval) rounds run, and the last leaves at most the target unless a round divided by zero, which no round does if the rounds fit an int |
| `DropSchedule.UndisturbedIsEven` | wangle/acceptor/ConnectionManager.cpp:411-472 | undisturbed, D drops over R rounds are floor(D/R)+1 in the first D mod R rounds and floor(D/R) after |
| `DropSchedule.TargetsFollowFirstCount` | wangle/acceptor/ConnectionManager.cpp:390-409 | every retain call aims at its fraction of the count the first call found, so falling fractions give falling targets |
| `DropSchedule.PlansAim` | wangle/acceptor/ConnectionManager.cpp:369-409 | what a timed percentage and a retained fraction aim at, with the early returns and immediate drops, and when the percentage is not honoured |
| `ConnectionManagerObject.ConnectionManager.constructor` | wangle/acceptor/ConnectionManager.cpp:42-56 | a new manager is empty and in the invariant, with half the idle timeout as early-drop threshold |
| `ConnectionManagerObject.ConnectionManager.RemoveConnection` | wangle/acceptor/ConnectionManager.cpp:141-176 | refines the removal of `BusyIdle` |
| `ConnectionManagerObject.ConnectionManager.OnActivated` | wangle/acceptor/ConnectionManager.cpp:519-533 | refines the activation |
| `ConnectionManagerObject.ConnectionManager.OnDeactivated` | wangle/acceptor/ConnectionManager.cpp:535-555 | refines the deactivation |
| `ConnectionManagerObject.ConnectionManager.DropConnections` | wangle/acceptor/ConnectionManager.cpp:355-367 | the drain is called off and exactly the first connections go |
| `ConnectionManagerObject.ConnectionManager.StopDrainingForShutdown` | wangle/acceptor/ConnectionManager.cpp:315-319 | the state is complete and nothing is scheduled |
| `ConnectionManagerObject.ConnectionManager.DropIdleConnections` | wangle/acceptor/ConnectionManager.cpp:560-585 | the loop refines the shedding of `BusyIdle`, and counts what it dropped |
| `ConnectionManagerObject.ConnectionManager.DropConnectionsRound` | wangle/acceptor/ConnectionManager.cpp:411-472 | one round drops its quota from the front and schedules the next with the time left, or divides by zero |
| `ConnectionManagerObject.DropRoundFollowsSchedule` | wangle/acceptor/ConnectionManager.cpp:411-472 | the manager's round leaves the count, and continues or crashes, as the schedule says |
| `ConnectionManagerObject.ConnectionManager.DropConnectionsTimed` | wangle/acceptor/ConnectionManager.cpp:369-388 | carries out the plan for a percentage |
| `ConnectionManagerObject.ConnectionManager.DropToRetainFraction` | wangle/acceptor/ConnectionManager.cpp:390-409 | captures the first count and carries out the plan for a fraction of it |
| `ConnectionManagerObject.ConnectionManager.FireNotifyPendingShutdown` | wangle/acceptor/ManagedConnection.h:101-106 | a connection is notified once |
| `ConnectionManagerObject.ConnectionManager.FireCloseWhenIdle` | wangle/acceptor/ManagedConnection.h:114-119 | a close reaches a notified connection, or any when forced |
| `ConnectionManagerObject.ConnectionManager.AddConnection` | wangle/acceptor/ConnectionManager.cpp:58-111 | refines the addition, with the notice and the deferred close of the current phase |
| `ConnectionManagerObject.ConnectionManager.DrainConnections` | wangle/acceptor/ConnectionManager.cpp:249-300 | the loop of one batch of 64 refines `Drain` |
| `ConnectionManagerObject.ConnectionManager.InitiateGracefulShutdown` | wangle/acceptor/ConnectionManager.cpp:193-247 | refines the start of a full drain; `StartWithGraceNotifies` and `StartWithoutGraceCloses` say what each of the two starts sends |
| `ConnectionManagerObject.ConnectionManager.RunLoopCallback` | wangle/acceptor/ConnectionManager.cpp:249-300 | refines the next batch |
| `ConnectionManagerObject.ConnectionManager.IdleGracefulTimeoutExpired` | wangle/acceptor/ConnectionManager.cpp:302-313 | refines the grace timer: it starts the close phase or is ignored |
| `ConnectionManagerObject.ConnectionManager.RunDeferredClose` | wangle/acceptor/ConnectionManager.cpp:100-109 | refines the deferred close, of a connection still linked |
| `LengthField.FieldRoundTripIff` | wangle/codec/LengthFieldPrepender.cpp:53-95 | a length comes back from its field, in either byte order, if and only if it fits |
| `LengthField.FieldBytes` | wangle/codec/LengthFieldPrepender.cpp:57-95 | in network order the most significant byte of the length comes first, otherwise the least significant one |
| `LengthField.Write` | wangle/codec/LengthFieldPrepender.cpp:40-102 | the encoder, with both wraps to size_t and the two checked widths, computes the specified bytes or throws |
| `LengthField.EncodeThrowsIff` | wangle/codec/LengthFieldPrepender.cpp:57-79 | a message is refused if and only if its field has one or two bytes and its length, as a size_t, does not fit; otherwise it goes out whole behind the field |
| `LengthField.FrameLengthIff` | wangle/codec/LengthFieldBasedFrameDecoder.cpp:53-56 | the decoder computes the size of an encoded message if and only if adjustment plus end offset does not wrap |
| `LengthField.DecodeUndoesEncode` | wangle/codec/LengthFieldBasedFrameDecoder.cpp:43-89 | an encoded message at the head of the buffer comes out whole whatever follows, and an incomplete one is waited for without a change |
| `LengthField.FrameIsASlice` | wangle/codec/LengthFieldBasedFrameDecoder.cpp:65-88 | an emitted frame is within the limit, and the stripped bytes, the frame and the rest are the buffer |
| `LengthField.FailureSkipsTheFrame` | wangle/codec/LengthFieldBasedFrameDecoder.cpp:58-82 | each reported failure under its exact condition; it skips the header of a frame that claims less than that, and of any other frame all that has arrived of it, and nothing else |
| `LengthField.DecodeWaitsIff` | wangle/codec/LengthFieldBasedFrameDecoder.cpp:48-76 | the decoder waits if and only if the header, or a frame within the limit, is incomplete |
| `LengthField.DecodeThrowsIff` | wangle/codec/LengthFieldBasedFrameDecoder.cpp:84-88 | decode throws if and only if a complete frame within the limit has a body over INT_MAX |
| `LengthField.SettingsCanThrowIff` | wangle/codec/LengthFieldBasedFrameDecoder.cpp:84-88 | with a four- or eight-byte field some buffer makes it throw if and only if the limit exceeds the bytes to strip by more than INT_MAX |
| `LengthField.FieldIsReadIff` | wangle/codec/LengthFieldBasedFrameDecoder.cpp:91-137 | the length field is what is read, for all buffers, if and only if its width has a case or is zero |
| `LengthField.UnreadFieldFixesFrames` | wangle/codec/LengthFieldBasedFrameDecoder.cpp:91-137 | for any other width every frame has the size of header plus adjustment, whatever the buffer says |
| `LengthField.FourByteFieldTruncates` | wangle/codec/LengthFieldPrepender.cpp:79-86 | a longer length is sent modulo 2^32 |
| `LineFraming.FindEndOfLine` | wangle/codec/LineBasedFrameDecoder.cpp:96-110 | the scan finds the first line end below the limit, or none |
| `LineFraming.FirstEolIsStable` | wangle/codec/LineBasedFrameDecoder.cpp:96-110 | a line end once found is not moved by bytes that arrive later, also when the cut is between CR and LF |
| `LineFraming.SplitInTwoSteps` | wangle/codec/LineBasedFrameDecoder.cpp:33-87 | splitting a stream in two steps gives the lines of the whole |
| `LineFraming.DecodeOnShort` | wangle/codec/LineBasedFrameDecoder.cpp:33-87 | on short lines the decoder is one step of the splitter |
| `LineFraming.HeadLineEmittedIff` | wangle/codec/LineBasedFrameDecoder.cpp:38-70 | a complete line is emitted if and only if it is shorter than maxLength_ |
| `LineFraming.ResumesAfterLongLine` | wangle/codec/LineBasedFrameDecoder.cpp:64-86 | an overlong line is reported once, what follows is dropped up to the next line end, with the bytes dropped last kept as count, and decoding resumes behind it |
| `LineFraming.SurvivesIff` | wangle/codec/LineBasedFrameDecoder.cpp:96-110 | a written line ends where it should if and only if it contains no line end of the mode, nor forms one with its own ending |
| `LineFraming.SplitUndoesJoin` | wangle/codec/LineBasedFrameDecoder.cpp:33-87 | splitting undoes joining |
| `LineFraming.SplitPartOfJoin` | wangle/codec/LineBasedFrameDecoder.cpp:33-87 | what has arrived of joined lines splits into the first of them and a part of the next |
| `FrameReader.ResumeWaitsForTheNextRead` | wangle/codec/ByteToMessageDecoder.h:57-65 | chunks that arrive while inactive stay buffered when the transport becomes active |
| `FrameReader.LengthFramingRoundTrip` | wangle/codec/ByteToMessageDecoder.h:67-77 | under any chunking and pauses the emitted frames are the first messages sent, their encodings plus the buffer are the bytes received, no error is raised, and whenever a read ends active every complete message is out |
| `FrameReader.LineFramingEqualsSplitter` | wangle/codec/ByteToMessageDecoder.h:67-77 | on lines shorter than the limit, under any chunking and pauses, the decoder never discards, emits a prefix of the splitter's lines, and whenever a read ends active all of them, with no line end left in the buffer |
| `FrameReader.JoinedLinesComeBack` | wangle/codec/LineBasedFrameDecoder.cpp:33-110 | lines shorter than the limit, joined and read in any chunks, come back as they were as far as they have arrived, with only a part of the next one buffered |
| `FrameReader.LongLineIsReportedOnce` | wangle/codec/LineBasedFrameDecoder.cpp:64-86 | through the read loop: an overlong line raises one error, the rest of it none, nothing of it is emitted, and what follows its end stays to be read |
| `FrameReader.ThrowEndsTheRead` | wangle/codec/ByteToMessageDecoder.h:67-77 | a decode that throws ends the read with nothing reported and nothing emitted |
| `ByteToMessageDecoderObject.ByteToMessageDecoder.DecodeLengthField` | wangle/codec/LengthFieldBasedFrameDecoder.cpp:43-89 | trimming and splitting the queue in place refines the length-field decoder, reported errors and the escaping exception included |
| `ByteToMessageDecoderObject.ByteToMessageDecoder.DecodeLine` | wangle/codec/LineBasedFrameDecoder.cpp:33-87 | the same for the line decoder and its discarding state |
| `ByteToMessageDecoderObject.ByteToMessageDecoder.Read` | wangle/codec/ByteToMessageDecoder.h:67-77 | the loop refines the reader of `FrameReader` |
| `ByteToMessageDecoderObject.ByteToMessageDecoder.OnTransportActive` | wangle/codec/ByteToMessageDecoder.h:57-60 | only the flag changes |
| `ByteToMessageDecoderObject.ByteToMessageDecoder.OnTransportInactive` | wangle/codec/ByteToMessageDecoder.h:62-65 | only the flag changes |
| `PersistentCache.LoadAgreesIff` | wangle/client/persistence/LRUInMemoryCache-inl.h:78-100 | a load puts cache and store in agreement if every pair converts and the distinct keys fit the capacity, and for the distinct keys of a snapshot only then |
| `PersistentCache.ConversionErrorLosesAPair` | wangle/client/persistence/LRUInMemoryCache-inl.h:83-95 | a load that ends at a bad pair leaves less in memory than in the store, with nothing pending |
| `PersistentCache.CapacityLosesAPair` | wangle/client/persistence/LRUInMemoryCache-inl.h:83-87 | so does one over capacity, whichever entry is evicted |
| `PersistentCache.LoadUndoesSnapshot` | wangle/client/persistence/LRUInMemoryCache-inl.h:78-118 | loading the pairs of a snapshot, in any order, gives the map back |
| `PersistentCache.FailedLoadAgreesIff` | wangle/client/persistence/LRUPersistentCache-inl.h:250-257 | after a load that returned nothing no update is pending, although the store agrees only if it is readably empty |
| `PersistentCache.StepKeepsInv` | wangle/client/persistence/LRUPersistentCache-inl.h:158-216 | every step of writers and syncer keeps the agreement and the count of failures |
| `PersistentCache.EveryRunAgrees` | wangle/client/persistence/LRUPersistentCache-inl.h:193-257 | in every interleaving the persisted version never exceeds the memory version; unless the syncer gave up an undamaged store is the map at the persisted version, and equal versions mean that a reload restores the same map; giving up means the last nSyncRetries attempts failed |
| `PersistentCache.GivingUpHidesAnUpdate` | wangle/client/persistence/LRUPersistentCache-inl.h:175-181 | a run on which the versions agree and the store never saw the update |
| `PersistentCache.UntouchedKeyStays` | wangle/client/persistence/LRUInMemoryCache-inl.h:38-70 | over every run, a key that no put, removal, eviction or clear is about holds what it held |
| `PersistentCache.LatestTouchDecides` | wangle/client/persistence/LRUInMemoryCache-inl.h:38-70 | over every run the latest event about a key decides: the value of a put, or nothing after a removal, an eviction or a clear |
| `PersistentCache.VersionMovesIff` | wangle/client/persistence/LRUInMemoryCache-inl.h:38-70 | the version moves by one with every put, and otherwise if and only if the map changes |
| `PersistentCache.TurnIsARun` | wangle/client/persistence/LRUPersistentCache-inl.h:166-189 | a turn of the sync loop is a run of the fine-grained steps |
| `PersistentCache.SuccessRestoresAgreement` | wangle/client/persistence/LRUPersistentCache.h:47-55 | one successful attempt establishes the agreement from any state |
| `PersistentCache.TurnProgresses` | wangle/client/persistence/LRUPersistentCache-inl.h:166-189 | a turn on pending data ends the loop or uses up one retry; it ends it without giving up if and only if the attempt succeeded, and the store holds what the attempt left there |
| `PersistentCache.ShutdownTerminates` | wangle/client/persistence/LRUPersistentCache-inl.h:158-190 | whatever was loaded, with a retry configured and no writers the stopped loop exits within the remaining retries; if something was pending, with the map in the store or the last nSyncRetries attempts failed |
| `PersistentCache.EveryRunShutsDown` | wangle/client/persistence/LRUPersistentCache-inl.h:158-190 | this holds after every run that follows any load, failed and partial ones included |
| `PersistentCache.FailingLoopStopsIff` | wangle/client/persistence/LRUPersistentCache-inl.h:175-181 | a loop whose attempts all fail has stopped if and only if a retry is configured and the remaining ones were used |
| `LRUPersistentCacheObject.LRUPersistentCache.constructor` | wangle/client/persistence/LRUPersistentCache-inl.h:226-257 | the loop over the loaded pairs gives the state after the load, with the version moved exactly if a pair was set |
| `LRUPersistentCacheObject.LRUPersistentCache.SaveAndLoad` | wangle/client/persistence/LRUInMemoryCache-inl.h:78-118 | the two loops: the pairs list the map, and setting them one by one restores it |
| `LRUPersistentCacheObject.LRUPersistentCache.Put` | wangle/client/persistence/LRUInMemoryCache-inl.h:38-43 | refines a put, which always makes a new version; what each key then holds is `LatestTouchDecides` |
| `LRUPersistentCacheObject.LRUPersistentCache.Remove` | wangle/client/persistence/LRUInMemoryCache-inl.h:45-54 | refines a removal, a new version exactly if the key was there |
| `LRUPersistentCacheObject.LRUPersistentCache.Clear` | wangle/client/persistence/LRUInMemoryCache-inl.h:62-70 | refines a clear, a new version exactly if there was an entry |
| `LRUPersistentCacheObject.LRUPersistentCache.SyncNow` | wangle/client/persistence/LRUPersistentCache-inl.h:192-216 | an attempt succeeds exactly if nothing was pending or the write did, with the new store and version |
| `LRUPersistentCacheObject.LRUPersistentCache.SyncTurn` | wangle/client/persistence/LRUPersistentCache-inl.h:137-155 | refines a turn, failure count and giving up included |
| `LRUPersistentCacheObject.LRUPersistentCache.SyncUntilDone` | wangle/client/persistence/LRUPersistentCache-inl.h:157-190 | the loop after stop exits with nothing pending whatever was loaded; the map is stored or the last attempts failed where something was pending |
| `Pipelining.ScanKeepsInv` | wangle/service/ServerDispatcher.h:65-74 | a scan inside fireWrite finds nothing, one outside writes the next answer exactly if it has come |
| `Pipelining.StepKeepsInv` | wangle/service/ServerDispatcher.h:57-80 | every step keeps the order of the written answers and the contents of the reorder buffer, across wraparound |
| `Pipelining.PipelineIsInOrder` | wangle/service/ClientDispatcher.h:106-124 | for every order of completions, re-entrant ones included, the i-th promise settled is the i-th request's, with that request's answer, once; the client's deque is never empty at a response; when all is quiet every promise is settled |
| `Pipelining.EventsTakeEffect` | wangle/service/ServerDispatcher.h:57-80 | every event takes effect: the requests are those of the calls in order, as many are read, written and settled as there were reads, returns and deliveries, and a future's answer is the response it completed with |
| `Pipelining.ReadIsSafeIff` | wangle/service/ServerDispatcher.h:57-63 | a read keeps the order safe if and only if fewer than 2^32 responses are outstanding |
| `Pipelining.OverrunMisdelivers` | wangle/service/ServerDispatcher.h:65-74 | otherwise the new request's answer is written as the oldest one's |
| `Pipelining.OverrunIsReachable` | wangle/service/ServerDispatcher.h:57-63 | reading 2^32 requests before any answer reaches the bound |
| `DispatchersObject.PipelinedServerDispatcher.Read` | wangle/service/ServerDispatcher.h:57-63 | refines the server's read: the continuation captures the current id, which then advances modulo 2^32 |
| `DispatchersObject.PipelinedServerDispatcher.OnResponse` | wangle/service/ServerDispatcher.h:59-62 | a completion, with everything that completes inside its writes, is a run of the protocol, so it keeps the order; inside another write it writes nothing |
| `DispatchersObject.PipelinedServerDispatcher.SendResponses` | wangle/service/ServerDispatcher.h:65-74 | the loop is a run of the protocol: it writes every consecutive answer, those that come during its own writes included, and stops at the first gap |
| `DispatchersObject.PipelinedServerDispatcher.WriteNext` | wangle/service/ServerDispatcher.h:67-72 | one turn: erase, write, whatever completes inside, advance |
| `DispatchersObject.PipelinedClientDispatcher.Call` | wangle/service/ClientDispatcher.h:113-121 | a new promise joins the end of the deque |
| `DispatchersObject.PipelinedClientDispatcher.Read` | wangle/service/ClientDispatcher.h:106-111 | the oldest unsettled promise is settled |
| `AcceptorAccounting.RemovalWaitsForTheCount` | wangle/acceptor/AcceptorHandshakeManager.cpp:88-93 | a handshake that leaves the list still holds its count, so its removal tears nothing down |
| `AcceptorAccounting.StepKeepsInv` | wangle/acceptor/Acceptor.cpp:382-681 | every event keeps the accounting |
| `AcceptorAccounting.EveryRunAccounts` | wangle/acceptor/Acceptor.cpp:382-681 | on every run no CHECK fires and the reset manager is never used, numPendingSSLConns_ is the number of live handshakes, all listed and never more than the limit, kDone means no connection and no handshake, and nothing was handed over once draining |
| `AcceptorAccounting.StepFollows` | wangle/acceptor/Acceptor.cpp:382-681 | every event leaves the list, the handshakes and the hand-overs that it should: plaintext connections and successful handshakes are handed over while running, and what the user's handler adds for them is listed |
| `AcceptorAccounting.EveryRunHandsOver` | wangle/acceptor/Acceptor.cpp:528-591 | on every run exactly these connections are handed over, in this order |
| `AcceptorAccounting.RefusalChangesNothing` | wangle/acceptor/Acceptor.cpp:399-411 | a secure connection over the limit is refused without a trace in the accounting |
| `AcceptorAccounting.StopIsFinal` | wangle/acceptor/Acceptor.cpp:602-616 | a stop finishes at once if and only if nothing is listed and no forced drop began, else it drains; no later event of any run hands anything over |
| `AcceptorAccounting.AcceptIsSafeIff` | wangle/acceptor/AcceptorHandshakeManager.cpp:41-49 | a secure connection can be taken if and only if the acceptor is not done |
| `AcceptorAccounting.DrainCompletesIff` | wangle/acceptor/Acceptor.cpp:625-640 | the end of the last connection, established or a handshake, finishes a drain if and only if no forced drop began |
| `AcceptorAccounting.ForceIsForGood` | wangle/acceptor/Acceptor.cpp:683-696 | once one began, no run without a forced stop finishes |
| `AcceptorAccounting.DroppingNeverFinishes` | wangle/acceptor/Acceptor.cpp:683-696 | so an acceptor that begins to drop connections before it is done finishes on no run without a forced stop |
| `AcceptorObject.Acceptor.constructor` | wangle/acceptor/Acceptor.h:617-634 | a new acceptor is running, with nothing pending |
| `AcceptorObject.Acceptor.ProcessEstablishedConnection` | wangle/acceptor/Acceptor.cpp:382-431 | refines the acceptance, over-limit and plaintext branches included |
| `AcceptorObject.Acceptor.StartHandshakeManager` | wangle/acceptor/AcceptorHandshakeManager.cpp:41-49 | refines the start of a handshake, also one that ends inside it |
| `AcceptorObject.Acceptor.EndHandshake` | wangle/acceptor/AcceptorHandshakeManager.cpp:51-94 | refines both terminal callbacks |
| `AcceptorObject.Acceptor.ConnectionReady` | wangle/acceptor/Acceptor.cpp:528-560 | refines the hand-over, made while running and suppressed otherwise; `EveryRunHandsOver` says who is handed over |
| `AcceptorObject.Acceptor.SslConnectionReady` | wangle/acceptor/Acceptor.cpp:570-583 | refines the success of a handshake |
| `AcceptorObject.Acceptor.SslConnectionError` | wangle/acceptor/Acceptor.cpp:585-591 | refines its failure |
| `AcceptorObject.Acceptor.AcceptStopped` | wangle/acceptor/Acceptor.cpp:602-616 | refines the start of a drain |
| `AcceptorObject.Acceptor.OnEmpty` | wangle/acceptor/Acceptor.cpp:618-623 | refines the reaction to an empty list |
| `AcceptorObject.Acceptor.CheckIfDrained` | wangle/acceptor/Acceptor.cpp:625-640 | refines the test for the end of a drain |
| `AcceptorObject.Acceptor.RemoveConnection` | wangle/acceptor/ConnectionManager.cpp:141-176 | refines the removal, with the callback of an emptied list |
| `AcceptorObject.Acceptor.DropAllConnections` | wangle/acceptor/Acceptor.cpp:668-681 | the loop over all connections refines the forced stop |
| `PipelineLinks.Pipeline.AddHelper` | wangle/channel/Pipeline-inl.h:151-166 | a context is added at either end, and the two sub-vectors stay the inbound and the outbound part of the list |
| `PipelineLinks.Pipeline.RemoveAt` | wangle/channel/Pipeline.cpp:50-68 | exactly that context goes from all three vectors, where the CHECKed searches find it |
| `PipelineLinks.Pipeline.RemoveFront` | wangle/channel/Pipeline.cpp:70-76 | the first context goes, or nothing if there is none |
| `PipelineLinks.Pipeline.RemoveBack` | wangle/channel/Pipeline.cpp:78-84 | the same for the last |
| `PipelineLinks.Pipeline.RemoveHelper` | wangle/channel/Pipeline-inl.h:72-93 | exactly the contexts of the handler class, and of the handler if one is given, go; it throws exactly if there was none |
| `PipelineLinks.LinkedIsChainIn` | wangle/channel/Pipeline-inl.h:288-294 | links between neighbours make a chain that visits the whole list and ends in null |
| `PipelineLinks.LinkedIsChainOut` | wangle/channel/Pipeline-inl.h:297-303 | the same for the outbound links, in reverse |
| `PipelineLinks.Pipeline.Finalize` | wangle/channel/Pipeline-inl.h:285-319 | it succeeds if and only if the handlers' types fit; then inbound links visit exactly the inbound handlers in order, outbound links exactly the outbound ones in reverse, both ending in null |
| `PipelineLinks.Pipeline.Rebuild` | wangle/channel/Pipeline-inl.h:72-319 | the same after any sequence of additions and removals |
| `PipelineLinks.Pipeline.AddStatically` | wangle/channel/StaticPipeline.h:99-113 | adding the contexts of a static pipeline at the front, last one first, gives the handlers in order |
| `PipelineLinks.Pipeline.AddInOrder` | wangle/channel/Pipeline-inl.h:37-42 | the same list that addBack gives, hence the same chains |
| `SniIndex.AcceptedIff` | wangle/ssl/SSLContextManager.cpp:1176-1218 | which names are taken: a leading "*." before something, or no star, and not a lone dot |
| `SniIndex.KeysEqualIff` | wangle/acceptor/SSLContextSelectionMisc.h:24-65 | two names have the same key if and only if they are equal position by position up to ASCII case |
| `SniIndex.RemovalFindsInsertion` | wangle/ssl/SSLContextManager.cpp:604-614 | removal by a name, in any case, forms the key its insertion formed |
| `SniIndex.SuffixIff` | wangle/ssl/SSLContextManager.cpp:1332-1351 | a wildcard key is one label up from a name if and only if the name is one dot-free label in front of it |
| `SniIndex.IndexIsLatest` | wangle/ssl/SSLContextManager.cpp:1223-1290 | after any operations the two containers are disjoint and free of duplicates up to case, and every key has the entry of the latest operation on it |
| `SniIndex.LookupIsLatest` | wangle/ssl/SSLContextManager.cpp:1323-1365 | a lookup returns the latest non-default exact entry, else the latest wildcard entry one label up, else nothing |
| `SniIndex.LookupIgnoresCase` | wangle/ssl/SSLContextManager.cpp:1323-1365 | after any operations, names equal up to case find the same |
| `SniIndex.InsertedIsFound` | wangle/ssl/SSLContextManager.cpp:1323-1365 | what was inserted under a name is found under it in any case, whatever was there before |
| `SniIndex.WildcardIsFound` | wangle/ssl/SSLContextManager.cpp:1332-1351 | what was inserted under a wildcard is found by every host directly below it, in any case, that has no entry of its own |
| `SniIndex.NeverTwoLabelsUp` | wangle/ssl/SSLContextManager.cpp:1332-1351 | a wildcard two labels up never changes what a name finds |
| `SslContextsObject.SslContexts.constructor` | wangle/ssl/SSLContextManager.cpp:505-505 | a new index is empty |
| `SslContextsObject.SslContexts.InsertIntoDnMap` | wangle/ssl/SSLContextManager.cpp:1232-1264 | refines the insertion of a context, with and without overwriting |
| `SslContextsObject.SslContexts.InsertIntoDefaultKeys` | wangle/ssl/SSLContextManager.cpp:1266-1290 | refines the insertion of a default key |
| `SslContextsObject.SslContexts.InsertSSLCtxByDomainName` | wangle/ssl/SSLContextManager.cpp:1161-1215 | refines an insertion by name; a name it does not take changes nothing |
| `SslContextsObject.SslContexts.RemoveSSLContextConfigByDomainName` | wangle/ssl/SSLContextManager.cpp:604-633 | refines a removal, refused for a default key |
| `SslContextsObject.SslContexts.GetSSLCtx` | wangle/ssl/SSLContextManager.cpp:1323-1365 | refines the lookup, which ignores case (`LookupIgnoresCase`) |
| `SslContextsObject.SslContexts.IsDefaultCtx` | wangle/ssl/SSLContextManager.cpp:1296-1321 | the name or its wildcard one label up is a default key |

## Left out

- Sockets, event-base internals, wall-clock time, OpenSSL and Fizz, certificates and tickets: foreign code; only what they promise is modelled.
- Partial drains, and a second drain over a first: the drain proofs are about one full drain.
- `dropEstablishedConnections` and `dropIdleConnectionsBasedOnTimeout`: further loops over the same list that would add nothing harder.
- A connection callback that changes other connections: a callback removes, activates or deactivates its own connection only.
- `ConnectionManager::dropAllConnections`, re-adding and transferring connections are kept out of the runs of `BusyIdle` and `DrainRuns`; when they keep the layout is stated by the lemmas named above.
- DrainRuns.ActivationIsForgottenIff: in the close phase it requires that no deferred close is queued, because one whose connection holds the cursor and becomes busy takes the cursor back to the front, and the activated connection may then be reached after all.
- DropSchedule.UndisturbedIsEven: it requires the number of rounds to fit an int; past that the code's value is not the quotient, as DropSchedule.RoundsRemainingIsCeilIff says.
- Lists of 2^63 connections or more.
- DropSchedule.TargetsFollowFirstCount: fractions are reals, so the rounding of a double product is not modelled.
- FrameReader.LengthFramingRoundTrip: streams with oversized or undersized frames are not covered, because what is skipped there depends on the chunking.
- FrameReader.LineFramingEqualsSplitter: streams with a line of maxLength_ bytes or more are not covered, for the same reason.
- A decoder with length field width and offset both zero, which returns empty frames forever, is excluded from the read loop.
- IOBufQueue::split is not part of this model; it is taken to empty the queue before it throws.
- The comparison of a found line end with maxLength_ in the line decoder cannot succeed (LineFraming.HeadLineEmittedIff) and has no branch in the object.
- The eviction map is not part of this model: which entry it lets go over capacity is open, except that it is not the one just set, and a capacity of zero is taken as unbounded.
- A cache without a persistence layer, `clear(true)`, and when the executor mode schedules its next sync.
- 64-bit wraparound of the cache's version.
- Futures that fail: the server's continuation does not run for them, and its later responses wait for good.
- The acceptor takes no connection after it is done (AcceptorAccounting.AcceptIsSafeIff says what happens otherwise), and user code in onNewConnection registers at most one connection.
- Attach and detach callbacks of pipeline handlers, the owner of a pipeline, and message dispatch.
- The `SSLContextManager` facade that mixes in the default context, and server names that are not ASCII.
- Broadcast pool, observing handlers, service filters, file region, session cache sharding, file pollers, load-shed configuration, bootstraps, examples.
