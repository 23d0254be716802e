# The device agent, modelled and proved

The agent reads serial devices and publishes what they send over MQTT; in the other direction it writes each
`tx` it receives to a device and reports what became of it. This project models its stateful cores and proves
what they promise, over every input, every run and every interleaving.

How the parts are modelled:

- **Goroutines that share state** are transition systems whose steps are cut where a lock is taken or released:
  the tx protocol (`TxProtocol.dfy`, proofs in `TxSafety.dfy` and `TxTheorems.dfy`), the shutdown with its
  publishers (`Shutdown.dfy`), a port between reader, closer and writer (`PortRace.dfy`), and the waiting queue's
  wake-up (`Wakeup.dfy`). A step that cannot happen leaves the
  state alone, so every sequence of steps is a run, and every theorem about `Reachable` states is about all interleavings
  (`Runs.dfy` says what that is, once for all of them).
- **Objects updated in place** are classes: `Framing.Framer`, `WrittenIds.WrittenIDs`, `Queues.WaitingQueue`,
  `Queues.StatusQueue`, `WritePath.SharedPort`, `WritePath.Device`, `Pipeline.Pipeline`, `Reader.Reader`,
  `LogFile.File`. Each method is tied to a function on values, and the theorems are about that function.
- **The outside world** (the port's reads and writes, file operations, the broker, the clock, other goroutines
  while a lock is free) chooses freely: `*` in methods, an action's argument in the transition systems.

What is proved, file by file:

- `Separators.dfy`, `Framing.dfy`, `FramingRefinement.dfy`, `FramingTrace.dfy`, `FramingPlaces.dfy`,
  `FramingTimeouts.dfy`: the streaming framer refines a one-shot split of the whole stream for any separator, also one
  that overlaps itself, however the reads are cut; with timeouts, it gives exactly the frames of the stretches between
  them; every frame is genuine, every byte is accounted for once, every discard is true, and the buffer is bounded.
- `TxProtocol.dfy`, `TxSafety.dfy`, `TxTheorems.dfy`, `WrittenIds.dfy`: exactly one immediate result per message and
  one later result per accepted one, in order; what the ports accepted is what the results say; what stopping ends.
- `TxAnswers.dfy`, `TxProgress.dfy`: which answer a message gets, and that every answer and result is true of the run;
  from wherever a run has come to, the shutdown can be completed with every result given.
- `TxPrints.dfy`: no id is printed twice within the remembered ids, if and only if the port never fails a write that
  it took whole.
- `WritePath.dfy`, `PortRace.dfy`: chunked writing that goes on up to the first write that breaks and never reaches a
  closed port, and the attempts on top of it; in every interleaving of a session's end with a write that holds its port,
  nothing is accepted once the end is reported.
- `Queues.dfy`, `Wakeup.dfy`: the bounded status queue as two cursors over the history of pushes, which gives up nothing
  while there is room; no lost wake-up.
- `Pipeline.dfy`, `Reader.dfy`: the reader's events are those of sessions, discards and frames being the framer's, each
  reported with the device's port as it says, and the keepalive's fields are their fold.
- `Shutdown.dfy`, `ShutdownProgress.dfy`: what every run records before the offline message, that the records are true,
  what comes after it, and that a run can always be brought to its end.
- `LogFile.dfy`: from any files found at start, the rotating log stays the end of everything written under every
  pattern of failing operations, and a rotation loses no more than the oldest place held.
- `Topics.dfy`, `Routing.dfy`: the topic namespace is injective; subscriptions and routing table agree.
- `Backoff.dfy`: the wait is the doubled interval up to its ceiling, in 64-bit arithmetic.

Where the code does less than its comments or the obvious reading say, the model follows the code:

- A tx whose write fails after the port took every byte is not remembered as written, so a resend prints it
  again. `TxPrints.NoDoublePrintExactlyWhen` has the exact condition, a property of the port;
  `TxPrints.TooSoonOnlyIfTakenYetFailed` says what every print that comes too soon follows on, and
  `TxPrints.PrintsAgain` and `TxPrints.PrintsTooSoon` are runs.
- A status publisher that gives up waiting for the connection leaves whatever is pushed later without a record
  (`internal/core/status.go:49-59`). `Shutdown.ItemsHaveOneRecordUnlessStranded` has the exact condition,
  `Shutdown.ItemsHaveOneRecordIfOnlyTheDrainRefuses` the case the comment expects, and `Shutdown.StrandedItem` a run.
- With an event limit below one the status queue still holds one event (`internal/core/queue.go:137-140`): its events
  stay within the limit in every run if and only if the limit is at least one (`Queues.HeldWithinLimitExactlyWhen`). The
  core refuses a lower one.
- The device id `agent` is reserved (`internal/wire/topics.go:136`), but neither the injectivity of topics nor the
  filters need it: the agents' topics are one level deeper. The station id `group` is needed:
  `Topics.GroupStationWouldCollide`.
- A policy whose interval doubles past 64 bits before it reaches its max waits a negative time at that retry:
  `Backoff.WaitsIdeallyExactlyWhen`, and `Backoff.LongMaxWraps` for one that validates.
- A run with a smaller `keep` than an earlier one leaves the earlier run's files past `.keep` for good: no file past
  `.keep` is there if and only if none was at the start, and then at most `keep` rotated files are
  (`LogFile.WithinExactlyWhen`, `LogFile.WithinIsAtMost`, `LogFile.LoweredCountLeavesFiles`).
- The framer's comment speaks of a resynchronisation after any discard (`internal/device/serial/framer.go:32-35`). An
  oversize frame whose separator arrives with it, and an empty frame, are discarded without one: the framer drops
  exactly after a frame that broke off before its separator (`FramingPlaces.DropsExactlyAfter`).

## Model

| member | source | states |
|---|---|---|
| Separators.IndexIsLeftmost | internal/device/serial/framer.go:68-71 | the search finds a separator whenever there is one, and the leftmost |
| Separators.IndexAfterTrim | internal/device/serial/framer.go:148-150 | a buffer without a separator, trimmed to its last len(sep)-1 bytes or more, shows every separator that later bytes complete |
| Separators.SplitIsUnique | internal/device/serial/framer.go:67-91 | a text has at most one leftmost non-overlapping split |
| Separators.SplitExists | internal/device/serial/framer.go:67-91 | a text has such a split |
| Framing.NewFramer | internal/device/serial/framer.go:49-57 | a framer in its initial state exactly for a non-empty separator and a limit of at least one byte |
| Framing.Framer.Append | internal/device/serial/framer.go:61-109 | the new state, the frames and the discards, in order, are those of the read on values; the buffer's bounds hold again |
| Framing.Framer.Close | internal/device/serial/framer.go:72-90 | what the separator at a position closes, and the state after it |
| Framing.Framer.Bound | internal/device/serial/framer.go:93-106 | the carry kept while dropping, and when an unfinished payload starts dropping |
| Framing.Framer.Timeout | internal/device/serial/framer.go:117-134 | the new state and the discard reported, if any, are those of the silence on values |
| Framing.Framer.Reset | internal/device/serial/framer.go:143-146 | back to the initial state |
| Framing.Framer.TrimTo | internal/device/serial/framer.go:153-160 | drops all but the last bytes and says how many |
| Framing.InvKept | internal/device/serial/framer.go:61-164 | every read and every timeout keeps the buffer free of separators and bounded, more tightly while dropping |
| FramingRefinement.OversizeOpenedEarly | internal/device/serial/framer.go:79-106 | calling a frame oversize before or with its separator drops the same bytes and leads to the same state |
| FramingRefinement.ReadsCompose | internal/device/serial/framer.go:61-109 | from every reachable state two reads emit the frames, and reach the buffer, flag and count, of one read of both |
| FramingRefinement.CutsDoNotMatter | internal/device/serial/framer.go:27-30 | any list of reads is one read of their concatenation |
| FramingRefinement.FramesAreTheSplit | internal/device/serial/framer.go:61-109 | without timeouts the frames are exactly the segments, 1 to maxFrame bytes long, of the stream's leftmost non-overlapping split |
| FramingTrace.Ledger | internal/device/serial/framer.go:61-134 | over any reads and timeouts, the bytes of frames, discards and resyncs with their separators, those dropped so far and those buffered add up to what arrived; an open oversize discard counts none |
| FramingPlaces.EveryByteHasItsPlace | internal/device/serial/framer.go:61-134 | every event is about the bytes that follow those of the ones before it, and holds exactly these: the data of frames, oversize discards and timeouts, and where each separator or timeout is; the buffer is the stream's end |
| FramingPlaces.DropsExactlyAfter | internal/device/serial/framer.go:72-133 | after any run the framer is dropping if and only if the last event is a frame that broke off, by its size or by a timeout, before its separator |
| FramingPlaces.DiscardsAreTrue | internal/device/serial/framer.go:72-134 | every discard's reason, bytes and data are true of the stream: a lone separator, data past the limit, data that a timeout ended, a resync up to a separator or a timeout |
| FramingPlaces.EverythingIsTold | internal/device/serial/framer.go:72-134 | every event gives exactly one frame or one discard, but for a timeout that ends a resync with nothing dropped |
| FramingTimeouts.FramesAreThoseOfStretches | internal/device/serial/framer.go:61-134 | over any reads and timeouts the frames are exactly those of the stretches between timeouts, each split by itself, without the first piece after a timeout that broke a frame off |
| FramingTimeouts.TimeoutEndsResync | internal/device/serial/framer.go:117-124 | a timeout while dropping leaves a new framer, whatever was dropped: the next reads give the frames of their own split |
| FramingTrace.FramesAreGenuine | internal/device/serial/framer.go:32-35 | each frame is a contiguous stretch up to its first separator, starts at the stream's start, after a consumed separator or at a timeout that ended a resync, and holds no timeout strictly inside |
| FramingTrace.BufferIsBounded | internal/device/serial/framer.go:93-106 | between calls the buffer holds no separator, at most maxFrame+len(sep)-1 bytes, at most len(sep)-1 while dropping |
| WrittenIds.WrittenIDs.Add | internal/core/tx.go:97-108 | the remembered ids after one more, at most the limit, oldest forgotten, order and map agreeing, and order the last ids of the history |
| WrittenIds.WrittenIDs.Lookup | internal/core/tx.go:110-113 | finds exactly the last limit ids written, with the time each was |
| WrittenIds.RememberCoherent | internal/core/tx.go:85-108 | remembering keeps order free of duplicates, within the limit and equal to the map's keys, and the other times as they were |
| WrittenIds.RememberTracksRecent | internal/core/tx.go:97-108 | as long as no remembered id is written, order is the last limit ids written |
| TxSafety.OrderKept | internal/core/tx.go:192-266 | every step keeps: immediate results are the messages in order; accepted jobs are the finished ones followed by the one in hand, the queued and the one being pushed |
| TxSafety.ActiveKept | internal/core/tx.go:208-265 | every step keeps: the active ids are exactly those of the job taken, the queued ones and the one being pushed, all different |
| TxSafety.MemoryKept | internal/core/tx.go:258-264 | every step keeps: the remembered ids are the last ones reported written and moved, and none of them is active |
| TxSafety.BytesKept | internal/core/tx.go:296-330 | every step keeps: what the ports accepted is what the results and the write in hand say |
| TxSafety.StopKept | internal/core/core.go:299-327 | every step keeps: stopping stays still while a job is pushed, and who has ended when |
| TxSafety.CallsKept | internal/core/tx.go:273-332 | every step keeps: the calls made for the job in hand, and which outcome belongs to what the last check found and how the last write ended |
| TxSafety.BehindKept | internal/core/tx.go:242-246 | every step keeps: each later result stands behind its accepted |
| TxSafety.FreshKept | internal/core/tx.go:208-246 | every step keeps: each accepted id was none of the last limit ones reported written before it, and its earlier jobs had their results |
| TxSafety.ReachableKeepsInv | internal/core/tx.go:192-332 | all of these hold in every state a run comes to |
| TxTheorems.ResultsSoFar | internal/core/tx.go:188-266 | at any moment one immediate result per message taken but the one in hand, at most one later result each, in order of acceptance and behind the accepted |
| TxTheorems.NoneOutstandingAtClose | internal/core/core.go:299-327 | when the status queue closes every message has exactly one immediate result, every accepted one exactly one later, and no job is left |
| TxTheorems.ClosedQueuesTakeNothing | internal/core/core.go:130-136 | no job enters a closed tx queue, and no result a closed status queue |
| TxTheorems.NoDoubleWrite | internal/core/tx.go:81-113 | an id reported written twice in one run has at least TxRememberedIDs different other ids reported written in between |
| TxTheorems.RemembersTheLast | internal/core/pipeline.go:28-33 | remembered and active ids are disjoint, and each is exactly what its role says |
| TxTheorems.SentIsTheResults | internal/core/tx.go:268-332 | over all sessions the bytes accepted are one prefix per job, in order of acceptance: all for written, the reported bytes for failed and stopped, none for expired and unavailable |
| TxTheorems.StoppingEndsWriting | internal/core/tx.go:223-316 | after stopping is set nothing is accepted, at most one more write starts, jobs taken later end as agent_stopping with no write; at most TxOpenAttempts+1 writes per job |
| TxAnswers.AnswerIsRight | internal/core/tx.go:192-235 | in every state a message can come in: invalid exactly if unreadable, in_progress exactly if its id is in hand or waiting, already_written exactly if it is none of those and among the last ids written, otherwise looked at further |
| TxAnswers.LookedIsAcceptedUnlessStopping | internal/core/tx.go:223-247 | it is then refused if the agent stops, and otherwise accepted and queued |
| TxAnswers.AnswersAreTrue | internal/core/tx.go:208-230 | each in_progress stands behind an accepted of its id, each already_written behind a written of its id with its time, each refusal behind the stop |
| TxAnswers.OutcomesAreTrue | internal/core/tx.go:273-332 | each later result says what led to it: how its write ended, whether its deadline had passed at the last check, how many attempts found the port closed, whether the agent was stopping or the writes were cut |
| TxProgress.ShutdownCanComplete | internal/core/core.go:299-327 | from every state of every run the status queue can be closed, with one immediate result per message and one later result per accepted one |
| TxPrints.WholeDataOut | internal/core/tx.go:317-330 | the whole data went out if and only if the job is reported written or failed with every byte taken |
| TxPrints.NoResultAfterWritten | internal/core/tx.go:208-235 | after a tx is reported written, its id gets no other result, whatever it says, before TxRememberedIDs different other ids were reported written |
| TxPrints.TooSoonOnlyIfTakenYetFailed | internal/core/tx.go:258-264 | a tx printed whole is followed too soon by a result of its id only if its own write failed with every byte taken |
| TxPrints.NoDoublePrint | internal/core/tx.go:81-113 | in a run without such a failure, any two whole prints of one id have TxRememberedIDs different others written in between |
| TxPrints.NoDoublePrintExactlyWhen | internal/core/tx.go:258-264 | every run of a writable device is like that if and only if its port never fails a write it took whole |
| TxPrints.PrintsTooSoon | internal/core/tx.go:258-264 | with such a port, a run with two whole prints of one id and nothing in between |
| TxPrints.PrintsAgain | internal/core/tx.go:258-264 | a tx the port takes whole and then fails can be printed any number of times with no other id in between |
| WritePath.SharedPort.WriteChunk | internal/device/serial/serial.go:422-441 | the port accepted exactly the bytes counted, going on after partial writes up to the first one that breaks, and failing exactly then; a closed port is never written to |
| WritePath.SharedPort.Write | internal/device/serial/serial.go:401-418 | the ports accepted exactly data[:written]; ended by the close or the context, it stops after whole chunks, at most one of which began after the context ended; it fails exactly at the first write that breaks; progress goes up by a chunk at most and ends at the total |
| WritePath.SharedPort.Close | internal/device/serial/serial.go:443-448 | the port takes no more writes |
| WritePath.Device.ReaderRuns | internal/device/serial/serial.go:260-277 | what a session's end and a new session do to the port that writes go through; the port of an ended session is closed |
| WritePath.Device.Write | internal/device/serial/serial.go:353-363 | without a session, or with its port closed, nothing is accepted; otherwise what the session's port accepted, which error goes with how much, and whole chunks at a close or context end |
| WritePath.Device.WriteTx | internal/core/tx.go:273-332 | the outcome says what went out, over all attempts and sessions, and belongs to what the last check found and how the last write ended; no write of the port but the last breaks; the attempts bound the loop; with a lossless port none is reported failed with everything taken |
| WritePath.Device.Turn | internal/core/tx.go:278-316 | one turn of the loop: a result, or one more attempt that found the port closed with nothing out |
| PortRace.NothingAfterTheEnd | internal/device/serial/serial.go:264-291 | once lost or closed is reported, the session's port accepts nothing more, also from a write that found it earlier, and no write finds it |
| PortRace.NoWriteAfterClose | internal/device/serial/serial.go:388-448 | the library's Write is never called on a port after its Close |
| PortRace.OpenedPortIsFound | internal/device/serial/serial.go:255-277 | a write finds a port exactly between its sharing and the closer's first step; while the session reads and the agent does not stop, it finds the one reported open |
| PortRace.NoneIsFoundOnlyAfterWithdrawal | internal/device/serial/serial.go:353-363 | a write that finds no port after an open report began after the closer's first step, and one that is refused comes after the close |
| PortRace.OneSessionAtATime | internal/device/serial/serial.go:242-291 | every earlier port is closed, and its end reported, before another is opened |
| PortRace.SessionCanEnd | internal/device/serial/serial.go:264-291 | from every state of every run the session can be brought to its end, with its port closed and its end reported |
| Queues.WaitingQueue.PushEvicting | internal/core/queue.go:29-43 | the items after an eviction and a push, what was evicted, and the token |
| Queues.WaitingQueue.Push | internal/core/queue.go:22-24 | adds the item at the end and leaves a token |
| Queues.WaitingQueue.Close | internal/core/queue.go:46-51 | closed, items kept, a token there |
| Queues.WaitingQueue.Pop | internal/core/queue.go:71-81 | the first of the items leaves, nothing of an empty queue |
| Queues.StatusQueue.Push | internal/core/queue.go:122-142 | drops the oldest event once eventLimit are held, never for a result, and returns what it dropped |
| Queues.StatusQueue.Oldest | internal/core/queue.go:127-141 | the scan finds the first event, once there are eventLimit |
| Queues.EvictingTakesFirstEvent | internal/core/queue.go:127-140 | an eviction takes the first of the held events and no result |
| Queues.RunIsTwoCursors | internal/core/queue.go:103-142 | over any pushes and pops: held events are the last of those pushed, within the limit; held results the last of those pushed, none evicted; pushed = popped + evicted + held |
| Queues.RoomKeepsAll | internal/core/queue.go:111-142 | in every run, while fewer than eventLimit events are held, and always for a result, a push only adds its item and evicts nothing |
| Queues.FullEvictsTheOldest | internal/core/queue.go:122-142 | without room an event takes the place of the oldest one, everything else staying |
| Queues.NothingEvictedWithRoom | internal/core/queue.go:103-142 | a run that pushes events only while there is room evicts nothing |
| Queues.HeldWithinLimitExactlyWhen | internal/core/queue.go:122-142 | the held events stay within the limit in every run if and only if the limit is at least one |
| Queues.PoppedInPushOrder | internal/core/queue.go:5-7 | what was popped and then what is held is in push order |
| Wakeup.NoLostWakeup | internal/core/queue.go:45-68 | a consumer waiting while there is an item or the queue is closed finds a token |
| Wakeup.NothingLeftBehind | internal/core/queue.go:83-93 | items come out in push order; next gives up only when closed and everything pushed before the close was taken or evicted |
| Wakeup.OldestCanBeTaken | internal/core/queue.go:55-93 | wherever the consumer is, it can take the oldest item by its own steps alone |
| Wakeup.CanGiveUp | internal/core/queue.go:55-93 | and give up once the queue is closed and empty |
| Pipeline.Pipeline.Count | internal/core/pipeline.go:45-69 | the fields stay the fold of every event counted |
| Pipeline.CountingFolds | internal/core/pipeline.go:45-69 | counting event by event gives open, last failure, bytes, discards and failed opens of the whole trace |
| Reader.Reader.Report | internal/device/serial/serial.go:255-262 | an event is counted, and whether the device's port takes writes then is recorded: it does at opened, and does not at an end |
| Reader.Reader.RunSession | internal/device/serial/serial.go:242-346 | one session's events, those of its reads and timeouts; the frames handed on being the framer's; lost only for a read that failed; at its end its port is closed and withdrawn, however far the closer had got |
| Reader.Reader.Send | internal/device/serial/serial.go:334-344 | frames go on in order, all of them unless the agent stops |
| Reader.WhatIsTold | internal/device/serial/serial.go:305-330 | between opened and the end there are only reads and discards, the reads adding up to the stream, the discards the framer's, in order |
| Reader.Reader.WaitToReopen | internal/device/serial/serial.go:214-233 | the wait is the policy's for the next retry, which is the first only after a session that stayed up |
| Reader.Reader.Run | internal/device/serial/serial.go:192-237 | the events are sessions, each ended by open_failed or lost but the last; they go on until the agent stops, with retries that count on; each was reported with the port taking writes or not as it says; the frames handed on are all sessions'; the device counts as open exactly while one goes on, and RxBytes is what was read |
| Shutdown.OfflineIsLastButClose | internal/core/core.go:312-340 | no keepalive starts and nothing is recorded after the offline attempt, and the close comes only after it |
| Shutdown.ReadingsHaveOneOutcome | internal/core/frames.go:29-80 | readings are numbered from 1 without a gap, each has one outcome, RxFrames = published + PublishFailures, all before offline |
| Shutdown.ItemsHaveOneRecordUnlessStranded | internal/core/status.go:47-124 | every status item has exactly one record if and only if none was pushed after the publisher gave up |
| Shutdown.ItemsHaveOneRecordIfOnlyTheDrainRefuses | internal/core/status.go:47-60 | if the connection is refused only once the intake is gone, every status item has exactly one record |
| Shutdown.StrandedItem | internal/core/status.go:49-59 | a run that leaves an item without a record |
| Shutdown.RecordsAreTrue | internal/core/status.go:68-124 | in every run an item is recorded published exactly if the broker took it and evicted exactly if a push took it from the queue; a reading published exactly if the broker took it and dropped exactly if it was never asked |
| ShutdownProgress.StopCanComplete | internal/core/core.go:308-343 | from every state of every run the agent can still stop, with every reading recorded, the offline message attempted and the connection closed |
| LogFile.File.Shift | internal/logging/file.go:125-145 | wherever it fails, what is read from the oldest file to the live one stays the end of what was written, only the oldest place is lost, and files past the count stay; without a failure every file is one place further; it succeeds exactly when the live file is gone |
| LogFile.File.Rotate | internal/logging/file.go:110-121 | reopens whatever failed, and reports a failure exactly if there was one; the live file is empty unless it outlived the rotation; only the oldest place is lost |
| LogFile.File.Open | internal/logging/file.go:62-74 | the live file keeps its contents and its size is taken |
| LogFile.File.Write | internal/logging/file.go:81-100 | one record, whole or in part, at the end of one file; while it fits no other file changes, otherwise a rotation loses at most the oldest place; the log stays the end of the history, files past the count stay, a live file past its limit is explained, and a failure is reported exactly if there was one |
| LogFile.WriteAll | internal/logging/file.go:36-147 | from any files found, over any records and failures: what is read is the end of what was there and of what was written, all of it while the records fit the live file; without a failure every record is written whole; no file is rotated past keep if and only if none was at the start, and then at most keep rotated files exist |
| LogFile.WithinExactlyWhen | internal/logging/file.go:125-145 | no file is rotated past keep exactly if none was at the start |
| LogFile.WithinIsAtMost | internal/logging/file.go:30-35 | without such files at most keep rotated ones exist |
| LogFile.LoweredCountLeavesFiles | internal/logging/file.go:125-145 | a whole run with keep 1 over a file left at .3 leaves it there, whatever is written |
| LogFile.OpenFile | internal/logging/file.go:36-57 | refuses a size below 1 MB and a negative count, and otherwise only what cannot be opened; opens with what was there as history |
| LogFile.MovingKeepsReading | internal/logging/file.go:135-140 | moving a generation up into a free place changes nothing that is read, holes included |
| LogFile.RemovingOldest | internal/logging/file.go:132-134 | removing the oldest leaves a suffix |
| Topics.StationsWithTopics | internal/wire/topics.go:82-101 | a station has topics exactly if its levels follow the segment rule and it is not called group |
| Topics.BuiltTopics | internal/wire/topics.go:103-141 | what the constructors build for devices, groups and agents, and which names they refuse |
| Topics.SplitJoined | internal/wire/topics.go:33-34 | levels without a slash come back from the topic they were joined to |
| Topics.TopicsAreInjective | internal/wire/topics.go:13-40 | two routes of the fleet share a topic only if they are the same kind with the same levels |
| Topics.GroupStationWouldCollide | internal/wire/topics.go:36-40 | without the reserved station id, a device's tx topic is a site group's exactly when its station is called group |
| Topics.FiltersAreExact | internal/wire/topics.go:143-159 | by section 4.7.1 of MQTT Version 5.0 each filter matches exactly its own station's topics of its kind |
| Routing.BuildDevices | cmd/skuhus-device-agent/run.go:240-278 | each device's topics, and the subscriptions: every route's topic, each once |
| Routing.BuildGroups | cmd/skuhus-device-agent/devices.go:41-53 | the group topics of one scope, in order |
| Routing.RoutesByName | cmd/skuhus-device-agent/devices.go:38-53 | a device's routes are its own tx and each group it lists, in the scope it lists it for, and no others |
| Routing.BuildTable | internal/core/core.go:210-232 | the table's keys are the routes' topics and each leads to the devices with that route, in order |
| Routing.TopicsOfDeviceAreDistinct | internal/config/validate.go:315-332 | no two routes of a validated device share a topic |
| Routing.SharedTopicIsSharedRoute | internal/core/core.go:60-69 | two devices share a topic only through the same group in the same scope |
| Routing.SubscribeAndRoute | internal/core/tx.go:169-186 | for every validated configuration the subscriptions are the table's keys, and each topic reaches exactly the devices with that route, each once |
| Backoff.Unjittered | internal/backoff/backoff.go:50-58 | the 64-bit loop, tied to its value as a function, gives min(interval doubled, max) whenever no doubling wraps |
| Backoff.ModerateMaxFits | internal/backoff/backoff.go:54-58 | a max up to 2^62 rules out any wrap |
| Backoff.WaitsIdeallyExactlyWhen | internal/backoff/backoff.go:50-58 | the loop's wait is the ideal one at every retry if and only if the first doubling to reach max stays within 64 bits; otherwise the retry after it waits a negative time |
| Backoff.ReachesMax | internal/backoff/backoff.go:55-57 | there is always such a first doubling |
| Backoff.FitsExactlyWhen | internal/backoff/backoff.go:55-57 | no doubling below max leaves 64 bits exactly if the first to reach max does not |
| Backoff.LongMaxWraps | internal/backoff/backoff.go:55-57 | a policy that validates and whose second wait is negative |
| Backoff.IdealGrows | internal/backoff/backoff.go:15-18 | waits never shrink with retries and stay between interval and max |
| Backoff.JitterEnvelope | internal/backoff/backoff.go:59-63 | a jittered wait lies within the fraction either way |
| Backoff.JitterSpreads | internal/backoff/backoff.go:59-63 | the draw spreads it evenly from the lower edge to the upper one |
| Backoff.Wait | internal/backoff/backoff.go:50-64 | the wait before a retry is the loop's, jittered, and lies in the envelope of the ideal one |
| Backoff.ReconnectDelay | internal/transport/mqtt/client.go:397-407 | at once for the very first attempt, otherwise the policy's wait, shifted by one once a connection has been up; the interval itself when the wait does not grow |

## Left out

- Other devices in the tx protocol: the model follows one device; while another's tx holds intakeMu, this device's steps merely wait.
- Parsing of payloads, message texts, details and log contents: a payload is its id and data, or unreadable; a log record is the fact that it exists.
- What an in-progress answer says (stage, since, bytes so far): only that it is given, and to whom.
- Durations and fairness: the clock runs on freely between steps; nothing is proved about how long anything takes, and progress means that the end can still be reached.
- The bounded frame channel between reader and publisher: the shutdown model counts the frames in it and never blocks on it.
- Intake overflow (`newTxIntake`) and tx that arrive after the intake stopped: recorded by the agent, never admitted to a device.
- Unique-path, baud and other validation, credentials, TLS, modem lines, the probe and validate commands.
- Counters as unsigned 64-bit integers: they are unbounded here.
- The file's mutex, Sync and Close, and files an operator touches: the log's theorems are about the agent alone.
- TxTheorems.NoDoubleWrite: is about writes reported written; whole prints of any result are in TxPrints.NoDoublePrint.
- TxPrints.NoDoublePrint: does not cover a restart, which forgets every id.
- PortRace.NothingAfterTheEnd: has one writer, as the device has in the agent; how its bytes fall into chunks is in WritePath.
- Backoff.JitterEnvelope: is over the reals; the program truncates to whole nanoseconds of a 64-bit float.
- Backoff.Wait: promises nothing about the jittered wait of a policy that wraps, whose unjittered one WaitsIdeallyExactlyWhen covers.
- Reader.Reader.Run: is cut after any number of sessions and reads, since the agent's run has no end of its own.
- Routing.BuildDevices: takes a validated configuration; the error paths for levels that break the segment rule are in Topics.BuiltTopics.
