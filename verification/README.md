# Distributed hardware: audio transport, authorization and pending requests

This project models six parts of the distributed hardware framework whose correctness depends on state that several threads or several calls share, and proves properties of every run of them.

1. **Timestamps of the audio path** (`AudioEncoder`, `AudioMetaWire`, `CodecQueues`, `AudioDecoder`, `TimestampPath`). The encoder filter stores timestamps in 16 slots and sends packets in groups of 15; the sixteenth timestamp travels as a special value on the fifteenth packet. The output filter prints both as decimal strings, the bus input filter parses them, the decoder filter puts them back with 15 slots and a sixteenth that stays. The end result is that the application gets exactly the timestamps that were pushed, in order.
2. **Codec and buffer queues** (`CodecQueues`). Index and buffer queue stay in step, and each input buffer is given back at most once.
3. **Authorization** (`AccessConfig`, `AuthorizationTables`, `Authorization`, `AuthorizationSafety`, `AuthorizationEffects`). A requester, a detached timer and the listener's result calls race over three tables; the outcome gates the codecs.
4. **The shared-memory clock** (`ByteCodec`, `ClockRing`, `ClockHistory`, `ClockPublication`). A ring of 50 units, written byte by byte, refines "the newest timestamp among the last 50 writes".
5. **Pending requests** (`PendingRequests`, `CleanupThreads`, `CleanupAnswers`). Requests wait for initialisation and are answered by cleanup threads, which may overlap.
6. **Sessions and synchronisation** (`SessionTable`, `SessionIsolation`, `InFlight`, `StreamSync`). The string-keyed session table, the bound on delivery threads, and the list of streams that decides group synchronisation.

`Common`, `Laps` and `Subsequences` hold what several of them share.

## How it is modelled

Where the source updates fields under a lock, there is a class with those fields and one method for each locked region. The method's contract equates the new state with a step function of the old one. A run is a sequence of events, each one such region, in any interleaving; `After(es)` is the state it leads to, or `None` if some event was not possible when it came. Properties of all runs are lemmas about `After`.

What the platform does is a parameter or an event: whether shared memory can be created, when a timer fires, when a thread goes on, what a socket answers, whether JSON objects can be allocated.

Assumptions, all of them visible in the contracts or the event definitions:

- The codec delivers one output callback at a time. `WithinLag` in `AudioEncoder` and `AudioDecoder` states how far codec outputs may lag; it is a hypothesis on runs, and `TakeBoundIsExact` and `FinishBoundIsExact` show that no weaker one would do. `RequestBuffer` and `PushInputBuffer` succeed.
- The softbus stream loses nothing and keeps order, and the decoder's input queue does not overflow (`WithinBounds` in `TimestampPath`; `OverflowBoundIsExact` shows that this is needed). `AcquireBuffer` gives a buffer when it succeeds.
- Authorization request ids are fresh.
- Byte stores to shared memory become visible in program order (`ClockPublication`).
- Session and stream-list operations do not overlap. (Deliveries, authorization, codecs and cleanup threads do.)

## What the proofs show about the code

- Readers of the clock demand 604 bytes, the writer's guard is 12 bytes although it needs 600 for the indices that it accepts (`AllIndicesFitExactly`), and `AVSyncManager` allocates 600 on the receiving side and 12 on the sending side (`MemoryHoldsOneUnit`). The ring works for every region that holds 50 units, but with fewer than 604 bytes a read reports an invalid parameter, whatever was written (`MasterClock.Read`).
- While the very first clock unit is being written, a reader that finds the ring ready sees a complete timestamp. Its frame number is whole for every reader exactly if at most one byte of it is not zero (`FrameNumberIsWholeExactlyWhen`); 257 is the least that may be torn (`SmallFramesAreWhole`, `FrameNumberMayBeTorn`).
- Without `DHARDWARE_SINK_LOCAL_INIT` the pass counter survives a timeout. The next request is timed out by the first pass that finds it not ready exactly if the last batch handed out was a timeout (`FirstPassTimesOutExactly`, with a run in `NextRequestIsTimedOutAtOnce`); with it this never happens.
- An error from `ProcessData` loses the buffer that the worker held, one buffer for each error (`ReleasedAtMostOnce`).
- An incoming channel takes over the entry of every key with a listener whose text contains the session name, also that of another peer (`IncomingChangesExactly`, `IncomingTakesOverOtherPeers`). Opening, closing and shutting down are local. A pair shares its key with a pair of another, plain peer exactly if its own peer has an underscore (`KeyIsOwnExactly`, `UnderscoresCollide`).
- The limit of 32 delivery threads needs the table's lock around check and increment: with n callbacks inside at once the counter reaches 31 + n (`LimitNeedsTheLock`).
- The count of scene types never decides whether a group is merged (`TwoScenes`). The source's shared memory may stay open when the listed streams no longer make a group: exactly when the other audio scene joins, or the only stream of a needed scene leaves two others (`GoesStaleExactly`, `StaleRun`; `OpenExactlyWhen` says when the memory is open at all). A removal tells only the peer of the one stream left to stop, so a peer whose last stream is removed is not told (`StopIsSentExactly`, `RemovedPeerIsNotTold`).

## Model

| member | source | states |
|---|---|---|
| AudioEncoder.EncoderFilter.ProcessDataTimestamp | av_transport/av_trans_engine/filters/av_trans_coder/av_trans_audio_encoder_filter.cpp:567-576 | recording a timestamp refines the table step that the run proofs are about |
| AudioEncoder.EncoderFilter.OutputTakeTimestamp | av_transport/av_trans_engine/filters/av_trans_coder/av_trans_audio_encoder_filter.cpp:635-644 | the first locked region of the output callback refines its table step, with 0 for an empty slot |
| AudioEncoder.EncoderFilter.OutputFinish | av_transport/av_trans_engine/filters/av_trans_coder/av_trans_audio_encoder_filter.cpp:645-660 | the rest of the callback refines its table step and pushes the packet with its special value |
| AudioEncoder.IndicesStayInRange | av_transport/av_trans_engine/filters/av_trans_coder/av_trans_audio_encoder_filter.cpp:568-576 | in every run, without any lag bound, the input index is in 0..15 and between calls the output index is in 0..14 |
| AudioEncoder.IndicesAlwaysCount | av_transport/av_trans_engine/filters/av_trans_coder/av_trans_audio_encoder_filter.cpp:635-660 | in every run the indices are the number of frames modulo 16 and of packets modulo 15 |
| AudioEncoder.RunsAreAligned | av_transport/av_trans_engine/filters/av_trans_coder/av_trans_audio_encoder_filter.cpp:568-660 | invariant of runs within the lag bound: a slot is filled exactly when the input due to be taken from it was pushed, it holds the latest input of that slot, and all packets sent carry their inputs |
| AudioEncoder.EncoderAlignment | av_transport/av_trans_engine/filters/av_trans_coder/av_trans_audio_encoder_filter.cpp:635-660 | output 15c+j carries the timestamp of input 16c+j, and output 15c+14 that of input 16c+15 as its special value |
| AudioEncoder.TakeBoundIsExact | av_transport/av_trans_engine/filters/av_trans_coder/av_trans_audio_encoder_filter.cpp:635-644 | after a run within the bound, the first region takes the right timestamp if and only if the step keeps the bound |
| AudioEncoder.FinishBoundIsExact | av_transport/av_trans_engine/filters/av_trans_coder/av_trans_audio_encoder_filter.cpp:648-660 | likewise the packet pushed is right if and only if the second step keeps the bound |
| AudioEncoder.EncoderSpellsItsInput | av_transport/av_trans_engine/filters/av_trans_coder/av_trans_audio_encoder_filter.cpp:568-660 | the packets, each fifteenth followed by its special value, spell a prefix of the inputs of exactly the right length |
| AudioMetaWire.AtollReadsBack | av_transport/av_trans_engine/filters/av_trans_input/av_trans_bus_input_filter.cpp:423-460 | parsing the decimal string of any int64, the least one included, gives it back without leaving 64 bits on the way |
| AudioMetaWire.AtollReadsLayout | av_transport/av_trans_engine/filters/av_trans_input/av_trans_bus_input_filter.cpp:452-459 | white space before a number, a plus sign, and anything after it that is no digit do not matter |
| AudioMetaWire.WireRoundTrip | av_transport/av_trans_engine/filters/av_trans_output/dsoftbus_output_filter.cpp:265-288 | the pair read is the pair printed, whatever the numeric field holds |
| AudioMetaWire.MarshalIsInjective | av_transport/av_trans_engine/filters/av_trans_output/dsoftbus_output_filter.cpp:265-288 | different pairs have different wire forms, even apart from the numeric field |
| AudioMetaWire.UnmarshalSucceedsExactly | av_transport/av_trans_engine/filters/av_trans_input/av_trans_bus_input_filter.cpp:423-460 | the reader is content if and only if there is a number and there are two strings that are not empty |
| AudioMetaWire.NumericFieldIsNearest | av_transport/av_trans_engine/filters/av_trans_output/dsoftbus_output_filter.cpp:265-288 | the numeric field is the 32-bit number nearest to the timestamp |
| AudioDecoder.DecoderFilter.ProcessDataTimestamp | av_transport/av_trans_engine/filters/av_trans_coder/av_trans_audio_decoder_filter.cpp:567-580 | recording a packet's timestamps refines the table step, with slot 15 set at each wrap |
| AudioDecoder.DecoderFilter.OutputTakeTimestamp | av_transport/av_trans_engine/filters/av_trans_coder/av_trans_audio_decoder_filter.cpp:641-650 | the first locked region refines its table step |
| AudioDecoder.DecoderFilter.OutputFinish | av_transport/av_trans_engine/filters/av_trans_coder/av_trans_audio_decoder_filter.cpp:651-661 | the second locked region refines its table step; the index wraps only if slot 15 is there |
| AudioDecoder.OutputIndexAlwaysWraps | av_transport/av_trans_engine/filters/av_trans_coder/av_trans_audio_decoder_filter.cpp:654-661 | in every causal run slot 15 is present whenever the output index reaches 15, so the index always wraps |
| AudioDecoder.DecoderAlignment | av_transport/av_trans_engine/filters/av_trans_coder/av_trans_audio_decoder_filter.cpp:642-661 | within the lag bound output m carries input m's timestamp and each fifteenth output its own input's special value |
| AudioDecoder.RunsAreAligned | av_transport/av_trans_engine/filters/av_trans_coder/av_trans_audio_decoder_filter.cpp:569-661 | the invariant of the 15 slots and the sticky one that the alignment rests on |
| AudioDecoder.TakeBoundIsExact | av_transport/av_trans_engine/filters/av_trans_coder/av_trans_audio_decoder_filter.cpp:641-650 | the first region takes the right timestamp if and only if the step keeps the bound |
| AudioDecoder.FinishBoundIsExact | av_transport/av_trans_engine/filters/av_trans_coder/av_trans_audio_decoder_filter.cpp:654-661 | the delivered packet is right if and only if the second step keeps the bound |
| TimestampPath.ReceiverEngine.HandleOutputBuffer | av_transport/av_trans_engine/av_receiver/src/av_audio_receiver_engine.cpp:626-644 | a buffer reaches the callback exactly in the two running states, and then the engine is playing |
| TimestampPath.HandledExactly | av_transport/av_trans_engine/av_receiver/src/av_audio_receiver_engine.cpp:626-644 | a buffer is delivered and makes the engine playing in the two running states, and changes nothing in the other four |
| TimestampPath.PlayingExactly | av_transport/av_trans_engine/av_receiver/src/av_audio_receiver_engine.cpp:640-643 | in every bounded run the engine is playing if and only if something was delivered |
| TimestampPath.FailedParseIsEnqueued | av_transport/av_trans_engine/filters/av_trans_input/av_trans_bus_input_filter.cpp:462-494 | a message without strings is enqueued all the same, with the 32-bit number as its timestamp |
| TimestampPath.ReadPrinted | av_transport/av_trans_engine/filters/av_trans_output/dsoftbus_output_filter.cpp:290-331 | what is printed at the end of the stream will be read as the same packet after those before it |
| TimestampPath.RunsKeepInvariant | av_transport/av_trans_engine/filters/av_trans_input/av_trans_bus_input_filter.cpp:462-494 | in every bounded run of all stages the packets sent are, in order, decoded, queued, on the wire or about to be sent |
| TimestampPath.OverflowBoundIsExact | av_transport/av_trans_engine/filters/av_trans_coder/av_trans_audio_decoder_filter.cpp:240-248 | after a bounded run an arriving packet keeps its place in the order if and only if the decoder's queue is not over its limit |
| TimestampPath.DeliveredSpellsAPrefix | av_transport/av_trans_engine/av_receiver/src/av_audio_receiver_engine.cpp:637-643 | end to end: the timestamps handed to the application, specials put back, are exactly a prefix of those pushed into the encoder; none lost, repeated or reordered |
| CodecQueues.FilterQueues.OnInputBufferAvailable | av_transport/av_trans_engine/filters/av_trans_coder/av_trans_audio_encoder_filter.cpp:598-613 | both queues drop the same number from the front until at most 100 are left, and append their half of the callback; this is the step that the runs take |
| CodecQueues.FilterQueues.QueueInput | av_transport/av_trans_engine/filters/av_trans_coder/av_trans_audio_decoder_filter.cpp:231-252 | the input queue keeps its latest 100, appends the buffer, and gives back exactly the dropped ones, oldest first; this is the step that the runs take |
| CodecQueues.FilterQueues.WorkerPop | av_transport/av_trans_engine/filters/av_trans_coder/av_trans_audio_encoder_filter.cpp:514-548 | the worker takes the three fronts if two of the queues are not empty; this is the step that the runs take |
| CodecQueues.FilterQueues.Clear | av_transport/av_trans_engine/filters/av_trans_coder/av_trans_audio_decoder_filter.cpp:497-513 | a stop empties all queues and gives back every queued buffer, in order; this is the step that the runs take |
| CodecQueues.PushKeepsLatest | av_transport/av_trans_engine/filters/av_trans_coder/av_trans_audio_encoder_filter.cpp:603-611 | a push keeps the latest 100 entries and appends, and what overflows is the rest |
| CodecQueues.IndicesStayWithTheirBuffers | av_transport/av_trans_engine/filters/av_trans_coder/av_trans_audio_encoder_filter.cpp:496-548 | in every run the two codec queues have one length of at most 101, equal positions come from one callback, and the worker gets callbacks whole, each at most once and in order |
| CodecQueues.IndexPopIsSafe | av_transport/av_trans_engine/filters/av_trans_coder/av_trans_audio_encoder_filter.cpp:514-548 | the unguarded pop finds the index of the oldest waiting callback |
| CodecQueues.ReleasedAtMostOnce | av_transport/av_trans_engine/filters/av_trans_coder/av_trans_audio_decoder_filter.cpp:515-549 | no acquisition is released twice; as many are lost as `ProcessData` failed; acquired = arriving + queued + held + released if and only if it never failed; at most 101 are queued |
| CodecQueues.StopGivesEverythingBack | av_transport/av_trans_engine/filters/av_trans_coder/av_trans_audio_decoder_filter.cpp:497-513 | after a stop of a run without errors and with no buffer arriving, every acquisition has been released once |
| CodecQueues.StopIsNoticed | av_transport/av_trans_engine/filters/av_trans_coder/av_trans_audio_decoder_filter.cpp:497-503 | in every run the flag is down while a stop is under way, so the worker can leave its loop |
| CodecQueues.FlagChangesExactly | av_transport/av_trans_engine/filters/av_trans_coder/av_trans_audio_encoder_filter.cpp:586-590 | the flag is raised by a start alone, and lowered by a codec error or a stop |
| CodecQueues.WorkerEndsExactly | av_transport/av_trans_engine/filters/av_trans_coder/av_trans_audio_encoder_filter.cpp:537-547 | an invalid operation ends the worker and no other outcome does; only success gives the buffer back |
| AccessConfig.AccessConfigManager.SetAccessConfig | av_transport/common/src/av_sync_utils.cpp:349-369 | a missing listener or package is refused and changes nothing |
| AccessConfig.AccessConfigManager.ClearAccessConfig | av_transport/common/src/av_sync_utils.cpp:389-397 | forgets the configuration and all decisions but not the current network id |
| AccessConfig.AccessConfigManager.SetAuthorizationGranted | av_transport/common/src/av_sync_utils.cpp:399-410 | stores the decision for that peer only |
| AccessConfig.AccessConfigManager.IsAuthorizationGranted | av_transport/common/src/av_sync_utils.cpp:412-421 | true exactly for a peer with a stored `true` |
| AccessConfig.AccessConfigManager.HasAuthorizationDecision | av_transport/common/src/av_sync_utils.cpp:423-427 | true exactly for a peer with a stored decision |
| AccessConfig.AccessConfigManager.ClearAuthorizationResult | av_transport/common/src/av_sync_utils.cpp:429-438 | forgets that peer's decision only |
| AccessConfig.AccessConfigManager.ClearAccessConfigByPkgName | av_transport/common/src/av_sync_utils.cpp:477-500 | forgets all decisions, and the configuration if the package is its own |
| AccessConfig.DecisionsAreIndependent | av_transport/common/src/av_sync_utils.cpp:399-438 | storing or forgetting a peer's decision changes no other peer's and nothing of the configuration |
| AccessConfig.ForgettingUndoesStoring | av_transport/common/src/av_sync_utils.cpp:399-438 | forgetting undoes a first decision, and a later decision replaces an earlier one |
| AccessConfig.ClearingNeverGrants | av_transport/common/src/av_sync_utils.cpp:389-500 | no clearing grants anything; after one with a package name nobody has a decision |
| AccessConfig.ConfiguringExactly | av_transport/common/src/av_sync_utils.cpp:349-369 | a configuration is accepted if and only if it has a listener and a package, then holds both, and never touches decisions or the network id |
| AccessConfig.ClearingExactly | av_transport/common/src/av_sync_utils.cpp:389-500 | when the listener, the package and the network id go, and when they stay |
| AccessConfig.AccessConfigManager.PassesGate | av_transport/av_trans_engine/filters/av_trans_coder/av_trans_audio_decoder_filter.cpp:443-468 | the early returns of the gate, over what its five reads find, decide the gate function |
| AccessConfig.GatePassesExactly | av_transport/av_trans_engine/filters/av_trans_coder/av_trans_audio_encoder_filter.cpp:441-467 | with a network id the gate passes if and only if that peer is granted at the last read and a decision was seen at one of the three before it |
| AccessConfig.GateIsOpenWithoutPeer | av_transport/av_trans_engine/filters/av_trans_coder/av_trans_audio_encoder_filter.cpp:445-461 | without a network id the gate is open |
| AuthorizationTables.AuthorizationRequests.Register | av_transport/common/src/softbus_channel_adapter.cpp:805-809 | the request becomes pending for its peer, nothing else changes |
| AuthorizationTables.AuthorizationRequests.CancelAuthorizationTimer | av_transport/common/src/softbus_channel_adapter.cpp:717-726 | an existing flag is raised, none is created |
| AuthorizationTables.AuthorizationRequests.ArmTimer | av_transport/common/src/softbus_channel_adapter.cpp:685-715 | the flag is down and the timer is listed |
| AuthorizationTables.AuthorizationRequests.TimerExpires | av_transport/common/src/softbus_channel_adapter.cpp:692-700 | times out exactly if the flag was there and not raised; the flag goes in any case |
| AuthorizationTables.AuthorizationRequests.TakePending | av_transport/common/src/softbus_channel_adapter.cpp:732-740 | takes the peer out of the table, or an empty one |
| AuthorizationTables.AuthorizationRequests.TimerEnds | av_transport/common/src/softbus_channel_adapter.cpp:707-710 | the timer is no longer listed |
| AuthorizationTables.RequestsAreIndependent | av_transport/common/src/softbus_channel_adapter.cpp:685-740 | no operation on one request changes what the tables say of another |
| AuthorizationTables.TakenOnce | av_transport/common/src/softbus_channel_adapter.cpp:732-771 | whoever takes a request second finds no peer and changes nothing |
| AuthorizationTables.CancellingStopsTheTimer | av_transport/common/src/softbus_channel_adapter.cpp:692-726 | an armed timer times out if and only if it was not cancelled, and never twice |
| Authorization.RequestKeepsOneOwner | av_transport/common/src/softbus_channel_adapter.cpp:787-815 | a requester's step keeps exactly one owner of the right to decide each request |
| Authorization.TimerKeepsOneOwner | av_transport/common/src/softbus_channel_adapter.cpp:689-754 | so does a timer's step |
| Authorization.CallKeepsOneOwner | av_transport/common/src/softbus_channel_adapter.cpp:756-785 | so does a result call's step |
| AuthorizationSafety.RunsKeepInvariant | av_transport/common/src/softbus_channel_adapter.cpp:680-815 | one owner for each request, a log that is right, tidy tables, and stored decisions that are the replay of the log, in every interleaving |
| AuthorizationSafety.ResolvedAtMostOnce | av_transport/common/src/softbus_channel_adapter.cpp:728-785 | of all timeouts and results at most one stores a decision for a request id |
| AuthorizationSafety.DecisionsAreForTheRequestsPeer | av_transport/common/src/softbus_channel_adapter.cpp:732-784 | a decision is stored for the peer for which its request was created |
| AuthorizationSafety.CancelledIsBeingTaken | av_transport/common/src/softbus_channel_adapter.cpp:717-771 | a request with its cancel flag up is no longer pending, or a result call for it is under way |
| AuthorizationSafety.NothingIsLeftBehind | av_transport/common/src/softbus_channel_adapter.cpp:685-771 | when no requester, timer or call is under way the three tables are empty and every registered request has been decided |
| AuthorizationSafety.GrantIsLastWord | av_transport/common/src/av_sync_utils.cpp:399-410 | a stored `true` is the last entry of the log that touches the peer, and it is a grant |
| AuthorizationSafety.DefaultsWereUnconfigured | av_transport/common/src/softbus_channel_adapter.cpp:791-803 | whoever was let in by default had found no listener or no package when it looked |
| AuthorizationSafety.GrantProvenance | av_transport/common/src/softbus_channel_adapter.cpp:756-803 | a stored `true` comes from such a default for that peer or from a granting call for a request of that peer, untouched since |
| AuthorizationSafety.GateNeedsAGrant | av_transport/av_trans_engine/filters/av_trans_coder/av_trans_audio_decoder_filter.cpp:443-468 | if the gate sees a network id and passes, that peer is granted at its last read, with a provenance, whatever was stored or cleared between its five reads |
| AuthorizationEffects.CurrentIsLatest | av_transport/common/src/softbus_channel_adapter.cpp:495-496 | in every run the network id is the peer of the last channel that arrived, or empty if its configuration was cleared by its own package since |
| AuthorizationEffects.ArrivingPeerIsCurrent | av_transport/common/src/softbus_channel_adapter.cpp:484-496 | from the arrival of a channel on the network id is its peer, until another arrives or a package clears |
| AuthorizationEffects.GateAsksForArrivingPeer | av_transport/av_trans_engine/filters/av_trans_coder/av_trans_audio_decoder_filter.cpp:443-468 | so a gate whose first read falls there passes only if that peer is granted at its last read, with a provenance |
| AuthorizationEffects.LastEntryIsStored | av_transport/common/src/av_sync_utils.cpp:399-438 | in every run the decision for a peer is what the last entry that touches the peer says: granted by default, refused by timeout, the answer of the call, or none |
| AuthorizationEffects.GrantedExactly | av_transport/common/src/av_sync_utils.cpp:399-421 | a peer is granted if and only if a grant of it is in the log and nothing later touches it |
| AuthorizationEffects.ResultsWereGiven | av_transport/common/src/softbus_channel_adapter.cpp:756-785 | a stored result is the answer of a call that was made for that request id |
| AuthorizationEffects.StoringIsSeen | av_transport/common/src/softbus_channel_adapter.cpp:753-803 | what each storing, forgetting and clearing step leaves for a gate to see |
| AuthorizationEffects.DefaultExactly | av_transport/common/src/softbus_channel_adapter.cpp:791-803 | a requester is let in by default if and only if it found no listener or no package when it looked |
| AuthorizationEffects.ConfiguredMeansAsking | av_transport/common/src/av_sync_utils.cpp:349-397 | from a configuration with a package until a clearing nobody is let in by default |
| AuthorizationEffects.EveryoneIsAnswered | av_transport/common/src/softbus_channel_adapter.cpp:787-815 | when everyone has come to rest, each channel that arrived was let in by default or decided |
| AuthorizationEffects.AnswerInTimeStopsTimer | av_transport/common/src/softbus_channel_adapter.cpp:692-726 | once a result call has raised the flag of a sleeping timer, that timer never times the request out, whatever follows |
| ByteCodec.RoundTrip | av_transport/common/src/av_sync_utils.cpp:299-341 | a value that fits n bytes is read back from its little-endian bytes |
| ByteCodec.FromBytesNext | av_transport/common/src/av_sync_utils.cpp:319-341 | the bitwise or of the value read so far and the next byte, shifted above it, is the value of the longer prefix, and their sum, since no bit is in both |
| ByteCodec.StoreBytes | av_transport/common/src/av_sync_utils.cpp:299-317 | stores exactly the low n bytes at the offset and leaves every other byte |
| ByteCodec.LoadBytes | av_transport/common/src/av_sync_utils.cpp:319-341 | or-ing the shifted bytes one by one reads the little-endian value; all ones if the array is too short |
| ClockRing.WriteClockUnit | av_transport/common/src/av_sync_utils.cpp:87-121 | status of every path; on success the index moves on round 50 and the unit's twelve bytes are replaced, unless the region does not hold them, exactly which is reported as an overrun; otherwise nothing changes |
| ClockRing.AcceptedExactly | av_transport/common/src/av_sync_utils.cpp:91-106 | which regions and units the writer accepts |
| ClockRing.ReadClockUnit | av_transport/common/src/av_sync_utils.cpp:123-163 | status of every path; on success the largest positive timestamp of the ring with its own unit's frame number, the lowest unit on ties |
| ClockRing.ReadableExactly | av_transport/common/src/av_sync_utils.cpp:127-145 | which status a reader gets, each if and only if; 604 bytes are demanded |
| ClockRing.ResetSharedMemory | av_transport/common/src/av_sync_utils.cpp:218-237 | all bytes are zero, or an error and nothing changes |
| ClockHistory.WrittenUnitReadsBack | av_transport/common/src/av_sync_utils.cpp:108-149 | a written unit reads as what was written, for every frame number and every int64 |
| ClockHistory.WriteIsLocal | av_transport/common/src/av_sync_utils.cpp:108-112 | a write changes no byte outside its unit, so all other units read as before |
| ClockHistory.UnitsHoldLastWrites | av_transport/common/src/av_sync_utils.cpp:87-121 | after any number of writes each unit holds the last write that went to it, or zeros |
| ClockHistory.ReadyIffWritten | av_transport/common/src/av_sync_utils.cpp:143-147 | the readiness test fails exactly when nothing was written since the reset |
| ClockHistory.NewestUnitIsNewestWrite | av_transport/common/src/av_sync_utils.cpp:123-163 | the unit that the scan picks holds the newest of the last 50 writes, timestamp and frame number |
| ClockHistory.NewestExists | av_transport/common/src/av_sync_utils.cpp:123-163 | after any write some unit is the one picked |
| ClockHistory.IncreasingMeansLast | av_transport/common/src/av_sync_utils.cpp:123-163 | with strictly increasing timestamps it is the last write |
| ClockHistory.MasterClock.WriteMasterClock | av_transport/av_trans_engine/plugin/plugins/av_trans_output/daudio_output/daudio_output_plugin.cpp:290-319 | the region and the running index are at all times those of the history of successful writes |
| ClockHistory.MasterClock.Read | av_transport/common/src/av_sync_utils.cpp:123-163 | refinement: not ready exactly without writes, otherwise the newest of the last 50; in fewer than 604 bytes always an invalid parameter |
| ClockPublication.AllStoresAreTheWrite | av_transport/common/src/av_sync_utils.cpp:108-112 | the twelve byte stores one after the other are the write |
| ClockPublication.ReadyMeansTimestampFinal | av_transport/common/src/av_sync_utils.cpp:143-147 | however the reader's four loads fall between the stores of the first write, once its test passes all eight timestamp bytes are final |
| ClockPublication.ReadyExactlyWhen | av_transport/common/src/av_sync_utils.cpp:108-112 | after t stores the test passes exactly if a non-zero byte of the frame number is among them |
| ClockPublication.FrameNumberIsWholeExactlyWhen | av_transport/common/src/av_sync_utils.cpp:143-147 | no reader of the first write that loads the four bytes in order ever passes its test with a wrong frame number, if and only if at most one byte of the frame number is not zero |
| ClockPublication.OneByteIsNeverTorn | av_transport/common/src/av_sync_utils.cpp:319-329 | such a frame number is never torn, in whatever order its bytes are loaded |
| ClockPublication.FrameAtIsWholeExactlyWhen | av_transport/common/src/av_sync_utils.cpp:299-317 | the same if and only if for a reader whose loads all come after t stores, for every t |
| ClockPublication.FrameNumberMayBeTorn | av_transport/common/src/av_sync_utils.cpp:299-317 | the witness: frame 257, the least one with two non-zero bytes, may be read as 1 |
| ClockPublication.StoresFitExactly | av_transport/common/src/av_sync_utils.cpp:93-112 | a write to unit i stays inside the region if and only if the region has 12 (i + 1) bytes |
| ClockPublication.AllIndicesFitExactly | av_transport/common/src/av_sync_utils.cpp:93-112 | writes to all the indices that are accepted stay inside if and only if the region has 600 bytes |
| PendingRequests.PendingQueue.QueuePendingRequest | services/distributedhardwarefwkservice/src/distributed_hardware_service.cpp:516-530 | appends; a cleanup thread is started exactly if the queue was empty |
| PendingRequests.PendingQueue.CleanupExpiredRequests | services/distributedhardwarefwkservice/src/distributed_hardware_service.cpp:548-598 | one locked pass of either build refines the pass function: the two batches, what stays, counter and flag |
| PendingRequests.PassLosesNothing | services/distributedhardwarefwkservice/src/distributed_hardware_service.cpp:553-596 | a request is as often in the queue before a pass as in what stays and the two batches together |
| PendingRequests.PassKeepsOrder | services/distributedhardwarefwkservice/src/distributed_hardware_service.cpp:561-595 | both batches and what stays are in queue order |
| PendingRequests.PassJudgesRightly | services/distributedhardwarefwkservice/src/distributed_hardware_service.cpp:562-595 | only ready requests are started, and only requests that are not ready are timed out, after more than 25 passes |
| PendingRequests.PassCounts | services/distributedhardwarefwkservice/src/distributed_hardware_service.cpp:566-593 | a request that stays costs the counter a step, and none stays once time is up |
| PendingRequests.PassAnswersExactly | services/distributedhardwarefwkservice/src/distributed_hardware_service.cpp:561-594 | a queued request is started if and only if it is ready, whatever the counter; timed out if and only if it is not and the counter is over 25; kept otherwise |
| PendingRequests.PassLowersFlagExactly | services/distributedhardwarefwkservice/src/distributed_hardware_service.cpp:554-590 | a pass lowers the flag if and only if it leaves nothing waiting |
| PendingRequests.NewRequestIsLast | services/distributedhardwarefwkservice/src/distributed_hardware_service.cpp:519-529 | a new request waits behind all others and raises the flag if there are none |
| CleanupThreads.RequestsAreConserved | services/distributedhardwarefwkservice/src/distributed_hardware_service.cpp:532-611 | in every run with any number of threads nothing queued is lost or doubled |
| CleanupThreads.InExactlyOnePlace | services/distributedhardwarefwkservice/src/distributed_hardware_service.cpp:532-611 | a queued request is at every moment in exactly one of pending, a batch in a thread's hands, started, timed out |
| CleanupThreads.RunsAreWatched | services/distributedhardwarefwkservice/src/distributed_hardware_service.cpp:532-579 | while a request waits the flag is up and a thread is in its loop; the counter never exceeds 26 |
| CleanupThreads.AllThreadsGoneMeansAllAnswered | services/distributedhardwarefwkservice/src/distributed_hardware_service.cpp:532-611 | once all threads have ended every request has been answered exactly once |
| CleanupAnswers.AnswersWereEarned | services/distributedhardwarefwkservice/src/distributed_hardware_service.cpp:600-611 | in every run a request that was started was found ready by a pass while it waited, and one that was told that time is up was found not ready by a pass with a counter over 25 |
| CleanupAnswers.EveryoneIsAnsweredRightly | services/distributedhardwarefwkservice/src/distributed_hardware_service.cpp:532-611 | once all threads have ended, each request has had exactly one of the two answers, once, and earned it |
| CleanupAnswers.InitialisedNeverTimesOut | services/distributedhardwarefwkservice/src/distributed_hardware_service.cpp:562-585 | if every pass finds everything initialised nobody is told that time is up |
| CleanupAnswers.UninitialisedNeverStarts | services/distributedhardwarefwkservice/src/distributed_hardware_service.cpp:562-594 | if no pass finds anything initialised nobody is started |
| CleanupAnswers.BatchIsHandedOutInOrder | services/distributedhardwarefwkservice/src/distributed_hardware_service.cpp:600-611 | a batch handed out undisturbed reaches its two receivers whole and in order |
| CleanupAnswers.ArrivalWaitsLast | services/distributedhardwarefwkservice/src/distributed_hardware_service.cpp:519-529 | an arrival waits last, with its own id and kind, and a thread is started for it if it is alone |
| CleanupAnswers.ThreadEndsExactly | services/distributedhardwarefwkservice/src/distributed_hardware_service.cpp:537-541 | a thread leaves its loop at a test if and only if the flag is down |
| CleanupThreads.CounterCountsPasses | services/distributedhardwarefwkservice/src/distributed_hardware_service.cpp:572-593 | as long as one request stays, the counter counts the passes of all threads |
| CleanupThreads.LeavesWithin27Passes | services/distributedhardwarefwkservice/src/distributed_hardware_service.cpp:548-598 | a request leaves the queue within 27 passes less the counter |
| CleanupThreads.TimeoutSticks | services/distributedhardwarefwkservice/src/distributed_hardware_service.cpp:586-593 | in the plain build, after a timeout, every later request is timed out by its first pass until initialisation is seen |
| CleanupThreads.NextRequestIsTimedOutAtOnce | services/distributedhardwarefwkservice/src/distributed_hardware_service.cpp:579-594 | a run of the plain build, for any two requests, in which the second is timed out by the first pass after it arrived, its own thread's |
| CleanupThreads.CounterAtRest | services/distributedhardwarefwkservice/src/distributed_hardware_service.cpp:572-593 | with nothing waiting the counter is 0 in the other build always, in the plain build if and only if the last batch was not a timeout; otherwise time is up |
| CleanupThreads.FirstPassTimesOutExactly | services/distributedhardwarefwkservice/src/distributed_hardware_service.cpp:553-596 | after any run that leaves nothing waiting, the next request is timed out by the first pass that finds it not ready if and only if the build is the plain one and its last batch was a timeout |
| SessionTable.PeerReadsBack | av_transport/common/src/softbus_channel_adapter.cpp:616-633 | the part after the last underscore is the peer if and only if the peer has no underscore |
| SessionTable.KeysAreInjective | av_transport/common/src/softbus_channel_adapter.cpp:459-469 | for such peers a key determines session name and peer |
| SessionTable.PairReadsBack | av_transport/common/src/softbus_channel_adapter.cpp:616-633 | the pair is parsed back from its key |
| SessionTable.ContainsExactly | av_transport/common/src/softbus_channel_adapter.cpp:504-504 | the match on names succeeds if and only if the key is the name with something before and after it |
| SessionTable.BeforeIsAscending | av_transport/common/src/softbus_channel_adapter.cpp:619-630 | the order of the keys is the ascending order of strings |
| SessionTable.OpenStatusExactly | av_transport/common/src/softbus_channel_adapter.cpp:280-320 | which status an attempt to open gets, each if and only if |
| SessionTable.TracedExactly | av_transport/common/src/softbus_channel_adapter.cpp:616-633 | a session id is traced to a pair if and only if the pair holds it and its peer is not the reserved one |
| SessionTable.ChannelTables.GetSessIdBySessName | av_transport/common/src/softbus_channel_adapter.cpp:459-469 | the id of the pair's key, or -1 |
| SessionTable.ChannelTables.OpenSoftbusChannel | av_transport/common/src/softbus_channel_adapter.cpp:277-327 | status of every path; only success inserts, and it leaves an existing entry |
| SessionTable.ChannelTables.CloseSoftbusChannel | av_transport/common/src/softbus_channel_adapter.cpp:329-345 | refuses empty names; otherwise shuts down the session of the pair and removes its key |
| SessionTable.ChannelTables.RegisterChannelListener | av_transport/common/src/softbus_channel_adapter.cpp:393-406 | refuses empty names; otherwise the key has a listener from then on |
| SessionTable.ChannelTables.UnRegisterChannelListener | av_transport/common/src/softbus_channel_adapter.cpp:408-419 | refuses empty names; otherwise the key has none |
| SessionTable.ChannelTables.OnSoftbusChannelOpened | av_transport/common/src/softbus_channel_adapter.cpp:497-517 | every listening key that contains the session name gets the id, and the channel's own key if it has none |
| SessionTable.ChannelTables.OnSoftbusChannelClosed | av_transport/common/src/softbus_channel_adapter.cpp:520-538 | exactly the entries holding the id go, and exactly their keys are told |
| SessionTable.ChannelTables.GetPeerDevIdBySessId | av_transport/common/src/softbus_channel_adapter.cpp:616-633 | the peer of the least key, in string order, that holds the id and names a real peer, or empty if there is none |
| SessionIsolation.OpenIsLocal | av_transport/common/src/softbus_channel_adapter.cpp:287-327 | opening sets its own pair's lookup to the new id, if it succeeds and the key is free, and changes no other |
| SessionIsolation.CloseIsLocal | av_transport/common/src/softbus_channel_adapter.cpp:329-345 | closing a pair removes that lookup and no other |
| SessionIsolation.ListeningIsLocal | av_transport/common/src/softbus_channel_adapter.cpp:393-419 | listeners come and go for their own pair alone |
| SessionIsolation.UnderscoresCollide | av_transport/common/src/softbus_channel_adapter.cpp:462-463 | with an underscore in the peer, closing one pair closes a different one |
| SessionIsolation.KeyIsOwnExactly | av_transport/common/src/softbus_channel_adapter.cpp:462-463 | no other pair with a peer free of underscores has the same key, if and only if the peer itself is free of them |
| SessionIsolation.ShutDownIsExact | av_transport/common/src/softbus_channel_adapter.cpp:527-537 | a closed event removes exactly the lookups that hold the session id |
| SessionIsolation.IncomingChangesExactly | av_transport/common/src/softbus_channel_adapter.cpp:497-517 | exactly when an incoming channel changes a pair's lookup; it is the new id then |
| SessionIsolation.IncomingTakesOverOtherPeers | av_transport/common/src/softbus_channel_adapter.cpp:502-508 | a peer that listens on the session loses its entry to another peer's channel |
| SessionIsolation.TableRefinesPairs | av_transport/common/src/softbus_channel_adapter.cpp:287-538 | in every run with peers free of underscores the string-keyed table is the table of pairs after the same operations |
| SessionIsolation.RunsAreIsolated | av_transport/common/src/softbus_channel_adapter.cpp:277-538 | a pair's entry after a run is that after the run without the other pairs' open, close, register and unregister calls |
| SessionIsolation.PeerOfASessionHoldsIt | av_transport/common/src/softbus_channel_adapter.cpp:616-633 | the peer that a session id is traced back to belongs to a pair that holds the id |
| InFlight.RunsKeepInvariant | av_transport/common/src/softbus_channel_adapter.cpp:540-569 | in every interleaving, with or without the lock, the counter is the live threads plus the launches under way |
| InFlight.CounterIsThreadsAndBounded | av_transport/common/src/softbus_channel_adapter.cpp:553-566 | with the lock the counter is the threads not yet ended, plus one during a launch, within 0..32 |
| InFlight.DroppedOnlyWhenFull | av_transport/common/src/softbus_channel_adapter.cpp:556-560 | an event is dropped only while 32 threads are at work |
| InFlight.EntriesAreAnswered | av_transport/common/src/softbus_channel_adapter.cpp:554-568 | in every run each entry of a callback was answered by a launch or a drop, or is still to be |
| InFlight.ReleasedMeansAnswered | av_transport/common/src/softbus_channel_adapter.cpp:553-569 | a callback that releases the lock has answered each of its entries once |
| InFlight.BoundWithoutLock | av_transport/common/src/softbus_channel_adapter.cpp:556-561 | with n callbacks inside at once the counter is at most 31 + n |
| InFlight.LimitNeedsTheLock | av_transport/common/src/softbus_channel_adapter.cpp:553-561 | the limit holds in all runs if and only if at most one callback is inside at a time; 31 + n is reached |
| StreamSync.TwoScenes | av_transport/av_trans_control_center/services/src/av_sync_manager.cpp:153-156 | a list that meets the other conditions has two scenes |
| StreamSync.AVSyncManager.MergeGroupInfo | av_transport/av_trans_control_center/services/src/av_sync_manager.cpp:144-183 | merges exactly speaker with screen and without microphone, or microphone with camera stream and without speaker, provided everything can be printed |
| StreamSync.AVSyncManager.MergeGroupInfoInner | av_transport/av_trans_control_center/services/src/av_sync_manager.cpp:185-228 | the entries of all audio and video streams, none of others, or failure exactly if one of them cannot be printed |
| StreamSync.AVSyncManager.AddStreamInfo | av_transport/av_trans_control_center/services/src/av_sync_manager.cpp:43-57 | list, messages and memory after an addition |
| StreamSync.AVSyncManager.RemoveStreamInfo | av_transport/av_trans_control_center/services/src/av_sync_manager.cpp:59-74 | the erasing loop removes every equal stream and keeps the order of the others |
| StreamSync.AVSyncManager.EnableSenderAVSync | av_transport/av_trans_control_center/services/src/av_sync_manager.cpp:76-95 | a merged group goes to every listed peer in order, and the memory is created anew |
| StreamSync.AVSyncManager.DisableSenderAVSync | av_transport/av_trans_control_center/services/src/av_sync_manager.cpp:97-112 | with fewer than two streams the remaining peers are told to stop and the memory is closed |
| StreamSync.MergedGroupIsSound | av_transport/av_trans_control_center/services/src/av_sync_manager.cpp:157-228 | a merged group has an audio master and a video slave, and all its masters are of one scene, so never both microphone and speaker |
| StreamSync.MergesExactly | av_transport/av_trans_control_center/services/src/av_sync_manager.cpp:144-228 | which lists merge, in terms of their streams and of what can be printed |
| StreamSync.GroupExactly | av_transport/av_trans_control_center/services/src/av_sync_manager.cpp:185-228 | a group has an entry for each listed audio stream as master and video stream as slave, each with its own peer, and no other |
| StreamSync.MergeDependsOnPairsOnly | av_transport/av_trans_control_center/services/src/av_sync_manager.cpp:144-228 | the merge depends only on the set of (scene, peer) pairs |
| StreamSync.MergeDependsOnStreamsStillAdded | av_transport/av_trans_control_center/services/src/av_sync_manager.cpp:43-74 | two runs with the same streams still added merge alike, in whatever order and number |
| StreamSync.ListedIsAddedSince | av_transport/av_trans_control_center/services/src/av_sync_manager.cpp:43-74 | a stream is listed as often as it was added since it was last removed |
| StreamSync.RunsKeepInvariant | av_transport/av_trans_control_center/services/src/av_sync_manager.cpp:43-112 | in every run an open memory means at least two listed streams, and every group ever started is sound |
| StreamSync.OpenExactlyWhen | av_transport/av_trans_control_center/services/src/av_sync_manager.cpp:43-112 | after every run the memory is open if and only if the last addition that merged got a memory and at least two streams have been listed ever since |
| StreamSync.AddGoesStaleExactly | av_transport/av_trans_control_center/services/src/av_sync_manager.cpp:43-57 | with an open memory over a group, adding a stream leaves the memory open over no group if and only if the stream is of the other audio scene |
| StreamSync.RemoveGoesStaleExactly | av_transport/av_trans_control_center/services/src/av_sync_manager.cpp:59-112 | removing a stream does so if and only if it is the only one of a scene that the group needs and two others are left |
| StreamSync.GoesStaleExactly | av_transport/av_trans_control_center/services/src/av_sync_manager.cpp:43-112 | both together, for any step |
| StreamSync.StaleRun | av_transport/av_trans_control_center/services/src/av_sync_manager.cpp:43-112 | a run that ends so |
| StreamSync.StartsFollowTheList | av_transport/av_trans_control_center/services/src/av_sync_manager.cpp:76-95 | an addition appends its stream, and if that merges the k-th new message tells the peer of the k-th stream to start with the group |
| StreamSync.StartIsSentExactly | av_transport/av_trans_control_center/services/src/av_sync_manager.cpp:76-95 | a peer is told to start if and only if the list merges and a stream of the peer is listed |
| StreamSync.MemoryHoldsOneUnit | av_transport/av_trans_control_center/services/src/av_sync_manager.cpp:93-93 | in every run an open memory has 12 bytes |
| StreamSync.WithoutKeepsOrder | av_transport/av_trans_control_center/services/src/av_sync_manager.cpp:65-71 | a removal keeps the other streams in their order |
| StreamSync.StopIsSentExactly | av_transport/av_trans_control_center/services/src/av_sync_manager.cpp:97-112 | a removal sends a stop to a peer if and only if one stream is left and it is that peer's |
| StreamSync.RemovedPeerIsNotTold | av_transport/av_trans_control_center/services/src/av_sync_manager.cpp:59-109 | so none to a peer whose last stream it removes |

## Left out

- Softbus sockets, ashmem and mmap, the audio codec, buffer queues and cJSON: their answers are parameters or events; a JSON object is the record of the fields that are looked up, and a printed group the set of its entries.
- AudioMetaWire.AtollReadsBack: for strings that are not the decimal form of an int64 and overflow on the way, C leaves `atoll` undefined, and so does the model.
- TimestampPath.DeliveredSpellsAPrefix: only the timestamps are followed, not the audio data or the frame numbers; a stop and restart in the middle of a run is not part of it.
- ClockPublication.ReadyMeansTimestampFinal: torn reads of later writes, and of slots other than 0, are not excluded by the code and nothing is claimed about them.
- ClockRing.WriteClockUnit: after an overrun, which the code does not check for, nothing is said about any memory.
- Authorization.RequestKeepsOneOwner: the text of request ids is not modelled, freshness is assumed; the call of the listener itself is an event without effect.
- AuthorizationSafety.GateNeedsAGrant: with an empty network id the gate is open, as in the code; nothing is claimed for that case.
- SessionTable.ChannelTables.OnSoftbusChannelOpened: finding the local session name and asking for authorization come before the locked region and are not repeated here.
- SessionIsolation.RunsAreIsolated: for operations that overlap in time nothing is claimed; the gap between lookup and insertion in `OpenSoftbusChannel` is not modelled.
- InFlight.DroppedOnlyWhenFull: the delivered bytes and the listeners that get them are not modelled, only how many threads there are; the callback's loop is a sequence of steps, because threads end in between.
- CleanupThreads.LeavesWithin27Passes: counts passes, not time; that a sleeping thread goes on is not part of it.
- StreamSync.RunsKeepInvariant: descriptors that are lost when the memory is created twice are not tracked, and `SetParam2Engines` for a memory does nothing in the code.
- The receiving side of `AVSyncManager`, channel servers, sending of bytes and streams, and device time synchronisation: thin wrappers without shared state of their own.
- `GetDistributedHardware`'s admission checks, permission checks, IPC stubs, logging and event reporting.
- `ComponentManager`, `TaskExecutor`, `DHContext`, the HDF manager and the manager factory's life cycle.
- `AVTransControlCenter`'s bookkeeping of engines, engine parameter setters, the ability parser and the fixed session-name tables.
