# RADIUS message pairing, modelled and verified

A capturing process listens to RADIUS traffic, pairs each message with the next one of the same identifier and reports
the pair to a logging server. One thread receives: it looks the message's key up in a cache, and either takes the
waiting message out and reports the pair, or stores the message and arms a timer for it. A second thread sweeps expired
timers; for each it evicts whatever message is cached under the timer's key. A proxying variant of the receiver also
forwards every datagram between clients and the RADIUS server. The project models these parts and proves what holds in
every run.

## How the model is laid out

- `PairingMachine` is the engine as two interleaved threads. Every cache call, queue call and clock reading is a step of
  its own; a schedule (a sequence of clock ticks, arrivals, receiver steps and pool-thread steps) is quantified over in
  every theorem. `PairingInvariants` shows that each step keeps each invariant, `PairingRefinement` that the engine seen
  through one key is a two-state toggle, and `PairingTheorems` states the consequences. `PairingSweeps` follows one sweep
  through an interleaving, `PairingEvictions` compares evictions with the evicted message's own timeout, and
  `PairingTimeliness` shows that overdue messages do leave the cache. The state also holds history (`log`, `armed`,
  `swept`, `arrived`, `handled`, `evicted`, `stale`, and `since` in the receiver's program counter): apart from the serial
  numbers that identify messages, no step's effect on anything else depends on it.
- `CoarsePairing` treats a whole `handleMessage`, and a whole "retrieve a timer and run its handler", as one step. Its runs
  are defined as particular schedules of the fine engine, so every fine result applies to them.
- `BlockingDequeues`, `TimerPools`, `SimpleMapCaches`, `AppStatistics` and `ReceivedMessageHandlers` hold the classes with
  their fields and loops. `HandleMessageIsARun` and `SweepExpiredIsARun` tie the handler class to the engine, and
  `RegistersAreTotals` ties its statistics to the engine's totals. `StatisticsMachine` is the statistics object as two
  threads see it; `DrainAlone` and `RoundIsSweepExpired` tie the class to it.
- `ThriftProtocol`, `ThriftStreams`, `RadiusRecords` and `RadiusRecordIO` are the record reader and writer over a token stream, one token for
  each protocol call. `RadiusRecords` has the grammar (`Value`, `Encode`), the reader as a function and what it denotes;
  `RadiusRecordIO` has the loops that run, with their 32-bit byte totals.
- `RadiusMessages` and `ThriftResultLoggers` turn packets into attribute maps and attribute maps into records.
- `RadiusProxies` is the one-slot delayed forwarder, and `ProxyPairing` joins it with the engine, one identifier at a time.

## Where the code does less than one would expect

Each of these is stated as an exact condition, and where it depends on a race there is a run that shows it.

- The lookup and the pop in `handleMessage` are two calls. If the pool thread evicts the key in between, the pop returns
  null and is dereferenced. The engine treats this as a terminal state of the receiver. `PopFailsExactly`, `PopCanFail`.
- A pair that completes while its own timer is already in the pool thread's hands is also counted as expired, so
  received = 2 * paired + expired + cached holds exactly when no timer ever fired for an absent key. `BalanceExactly`,
  `BalanceCanFail`. Without interleaving it always holds: `CacheAndTimersAgree`.
- `addNewTimer` reads the clock before it takes the queue's lock. A sweep can finish between the two, and then a message
  stays cached past a snapshot that lies beyond its deadline. `PairsAreFreshExactly`, `WaitingIsFreshExactly`,
  `LatePushHappens`.
- For the same reason a sweep can fire a timer that was not overdue in its queue when it began: it fires more timers than
  it found exactly when such a timer is pushed during the sweep and the receiver deletes no overdue one during it.
  `SweepFiresExactly`, `LateTimerIsFired`. It ends all the same, in every interleaving: `EverySweepEnds`.
- A message can be evicted before its own timeout, even before its timer is armed, by a timer that was armed for an
  earlier message of the key. For every time from the sweep's snapshot on, the snapshot and the moment of the eviction among
  them, the message has timed out by then exactly when no timer of the key that reaches to that time or beyond is queued or
  being armed at the firing. `EvictionIsDueExactly`, `EarlyEvictionHappens`. The message's own timer never evicts it early;
  another one may evict it early or not (`ForeignTimerCanBeDue`). Without interleaving every message is evicted by its own
  timer: `CoarseEvictionsAreDue`. And no message outstays its timeout: `OverdueMessageIsGoneInTime`.
- The proxy computes the packet length from plain `char`. `LengthIsDeclaredExactly` says when this is the Length field of
  section 3 of RFC 2865, and `AcceptedIsDeclaredExactly` that what is forwarded is what that field delimits under the same
  condition. A datagram that is one whole packet is otherwise cut short or silently dropped, `WholePacketIsTakenExactly`, as in
  `SignedLengthCuts` and `SignedLengthDrops`. All other proxy results hold for either signedness. A dropped datagram still
  reaches the handler: the receiver loop goes on to the RADIUS library when the proxy's peek gave nothing. So the proxy and
  the handler can come to see different packets, and a reply can go to another client than the one whose request is
  reported: `EqualCountsDoNotSuffice`.
- A packet of computed length 1 makes the proxy read the identifier behind the end of its buffer. The model ends the run
  there; `FaultsExactly` says when that happens, `OneOctetPacketFaults` shows it.
- A list is announced with its size cast to 32 bits. `RoundTripExactly` says that the round trip works exactly for lists
  that fit; `OversizedListIsLost` is a list that does not.
- Attribute types are narrowed to a signed byte. `RecoverExactly` says that this is harmless exactly for types 0..255;
  `NegativeTypeIsLost` shows one that comes back as another.

## Model

| member | source | states |
|---|---|---|
| `PairingInvariants.StepKeeps` | projects/Pairer/SimpleSyncReceivedMessageHandler.cpp:10-45 | each step of either thread keeps all thirteen invariants of the engine: arrival order, what the receiver knows about its key, no stranded message, one arming per message, sweep bounds for waiting messages and for pairs, sorted queue, sleep bounds, only armed deadlines slept for, only overdue timers fired, newest timer per key, one hand-out per message, balance |
| `PairingInvariants.KeyKnownKept` | projects/Pairer/SimpleSyncReceivedMessageHandler.cpp:18-34 | `deleteTimer(k)` and `add(k)` only run while k is absent from the cache, and after a positive lookup k is present unless the pool thread evicted it since |
| `PairingInvariants.NoneStrandedKept` | projects/Pairer/SimpleSyncReceivedMessageHandler.cpp:27-34 | each step leaves every cached message its own timer, queued, in flight or about to be armed, although timers are deleted by id and stale ones of the same id may be queued |
| `PairingTheorems.NoMessageStranded` | projects/Pairer/SimpleSyncReceivedMessageHandler.cpp:18-45 | in every interleaving a cached message's own timer is queued, in flight, or about to be armed |
| `PairingTheorems.HandedOutAtMostOnce` | projects/Pairer/SimpleMapCache.cpp:20-41 | in every interleaving `add` never throws, and no message object is handed out twice or handed out and still cached |
| `PairingTheorems.PopFailsExactly` | projects/Pairer/SimpleSyncReceivedMessageHandler.cpp:18-27 | the pop after a positive lookup returns null if and only if the key was evicted in between |
| `PairingTheorems.PopCanFail` | projects/Pairer/SimpleSyncReceivedMessageHandler.cpp:18-27 | for every key and timeout there is a schedule that reaches the null pop |
| `PairingTheorems.BalanceExactly` | projects/Pairer/SimpleSyncReceivedMessageHandler.cpp:15-44 | between messages: received = 2 * paired + evictions + cached, expired = evictions + stale firings, and the counters alone balance if and only if there was no stale firing |
| `PairingTheorems.BalanceCanFail` | projects/Pairer/SimpleSyncReceivedMessageHandler.cpp:27-44 | a schedule in which a completed pair is counted as expired as well |
| `PairingTheorems.PairsAreFreshExactly` | projects/Pairer/TimerPool.h:125-135 | the deadline of a popped first half is at or past the snapshot of the last finished sweep if and only if its timer was pushed before a sweep past that deadline had finished; it is then armed no earlier than that snapshot minus the duration, and it is so whenever clock reading and push lie no more than the duration apart |
| `PairingTheorems.WaitingIsFreshExactly` | projects/Pairer/TimerPool.h:125-135 | the same for every message that is still cached: with an armed timer, with a clock reading but no queued timer yet, and without a clock reading, where it cannot fail |
| `PairingTheorems.PushedInTimeIsPrompt` | projects/Pairer/TimerPool.h:65-67 | a timer pushed within the duration after its clock reading is pushed before any sweep past its deadline has finished |
| `PairingTheorems.LatePushHappens` | projects/Pairer/TimerPool.h:65-67 | a schedule in which a whole sweep passes between the clock reading and the push |
| `PairingTheorems.NeverOversleeps` | projects/Pairer/TimerPool.h:138-146 | the queue is sorted in every state, and a sleep never passes a queued deadline that was still ahead when it began, including timers queued during the sleep and what is left after deletions |
| `PairingTheorems.SleepIsTight` | projects/Pairer/TimerPool.h:142-146 | the sleep ends less than one millisecond before the front deadline it was computed from, which some message was armed with and no queued timer precedes |
| `PairingTheorems.SleepsForFront` | projects/Pairer/TimerPool.h:138-146 | undisturbed, the pool thread sleeps for the front of the queue: until within a millisecond before its deadline, and not at all when that is past |
| `PairingTheorems.SleepsForAnArmedTimer` | projects/Pairer/TimerPool.h:142-146 | in every run a sleep that takes time ends within a millisecond before a deadline that was armed, and every sleep is over exactly when the clock has reached its end |
| `PairingTheorems.WaitsWhileEmpty` | projects/Pairer/BlockingDequeue.h:48-52 | after a sweep the pool thread waits exactly as long as the queue is empty |
| `PairingSweeps.EverySweepEnds` | projects/Pairer/TimerPool.h:125-135 | in every interleaving, from any state inside a sweep, the sweep is over after at most two turns of the pool thread for each timer that is overdue in the queue or about to be pushed overdue, one for a timer in its hands, and one more |
| `PairingSweeps.OthersNeverAddWork` | projects/Pairer/TimerPool.h:131-135 | the termination measure: no step of the receiver, no arrival and no tick raises the number of overdue timers in the queue plus the one the receiver may be about to push |
| `PairingSweeps.SweepFiresExactly` | projects/Pairer/TimerPool.h:125-135 | in every interleaving, as multisets: the timers a sweep fires and the overdue ones deleted during it are the ones overdue in the queue and the ones pushed late; it fires in the order of deadlines; there is at most one late push; it fires more than it found if and only if there was one and no overdue timer was deleted; nothing overdue is left |
| `PairingSweeps.LateTimerIsFired` | projects/Pairer/TimerPool.h:65-67 | for every key and duration a schedule in which a sweep finds an empty queue and fires a timer |
| `PairingEvictions.EvictionIsDueExactly` | projects/Pairer/SimpleSyncReceivedMessageHandler.cpp:38-45 | in every interleaving and for every time from the sweep's snapshot on, a message evicted by a fired timer has timed out by that time if and only if no timer of its key that reaches to that time or beyond is queued or being armed; its own timer never evicts it early |
| `PairingEvictions.EarlyEvictionHappens` | projects/Pairer/SimpleSyncReceivedMessageHandler.cpp:27-45 | for every key and duration a schedule in which a message is evicted before its timer is armed |
| `PairingEvictions.ForeignTimerCanBeDue` | projects/Pairer/SimpleSyncReceivedMessageHandler.cpp:27-45 | for every key and duration a schedule in which a timer that is not the message's own evicts it after its own deadline |
| `PairingEvictions.CoarseEvictionsAreDue` | projects/Pairer/SimpleSyncReceivedMessageHandler.cpp:38-45 | in every coarse run each evicted message was evicted by its own timer, whose deadline lies before the sweep's snapshot |
| `PairingTimeliness.OverdueMessageIsGoneInTime` | projects/Pairer/TimerPool.h:118-147 | in every interleaving, once the clock has passed the deadline of a cached message's timer, the message is out of the cache for good after a fixed number of the pool thread's own turns: one with the timer in hand, otherwise two for it and two for each timer ahead of it in the queue, after at most four to the next sweep, or after the rest of an earlier sweep and four |
| `PairingTimeliness.NextSweepIsPastDeadline` | projects/Pairer/TimerPool.h:118-147 | in every interleaving, once the clock has passed the deadline of a cached message's timer, the pool thread outside a sweep begins a sweep with a snapshot past that deadline within four of its own turns, or the message is gone before: neither an empty queue nor a sleep holds it up |
| `PairingTimeliness.OverdueMessageLeaves` | projects/Pairer/TimerPool.h:125-135 | in every interleaving, from inside a sweep whose snapshot lies past the deadline of a cached message's timer, the message is out of the cache for good once the pool thread has had the turns to finish the sweep |
| `PairingTimeliness.SweepRemoves` | projects/Pairer/TimerPool.h:125-135 | the message is out of the cache at the very end of such a sweep |
| `PairingRefinement.ReportsAreToggled` | projects/Pairer/SimpleSyncReceivedMessageHandler.cpp:10-45 | in every interleaving the reports and the waiting message of a key are those of a two-state toggle fed only that key's messages and expiries |
| `PairingRefinement.UnexpiredKeyPairsInOrder` | projects/Pairer/SimpleSyncReceivedMessageHandler.cpp:18-34 | while no waiting message of a key is evicted, its (2j-1)-th and 2j-th messages are reported together in that order, and nothing else is reported for it |
| `PairingRefinement.RunTallied` | projects/Pairer/SimpleSyncReceivedMessageHandler.cpp:15-44 | messages take effect on the cache in arrival order, none lost or doubled, and the eviction totals are those of the history |
| `CoarsePairing.CacheAndTimersAgree` | projects/Pairer/SimpleSyncReceivedMessageHandler.cpp:15-44 | in every coarse run the ids in the queue are, as a multiset, the cached keys, and received = 2 * paired + expired + cached |
| `PairingTheorems.HandleDoes` | projects/Pairer/SimpleSyncReceivedMessageHandler.cpp:15-35 | a coarse message step counts one message and stores it or pairs it, leaving nothing to do |
| `PairingTheorems.PoolTurnFires` | projects/Pairer/TimerPool.h:131-135 | a coarse turn that finds an expired timer takes it, evicts its message and counts one expiry |
| `CoarsePairing.PairAlone` | projects/Pairer/SimpleSyncReceivedMessageHandler.cpp:18-27 | the whole state after an undisturbed second message of a key |
| `CoarsePairing.StoreAlone` | projects/Pairer/SimpleSyncReceivedMessageHandler.cpp:28-35 | the whole state after an undisturbed first message of a key |
| `ReceivedMessageHandlers.SimpleSyncReceivedMessageHandler.HandleMessage` | projects/Pairer/SimpleSyncReceivedMessageHandler.cpp:10-36 | the new cache, queue, reports and counters, for a waiting key and for a new one; no exception |
| `ReceivedMessageHandlers.SimpleSyncReceivedMessageHandler.OnTimerExpiry` | projects/Pairer/SimpleSyncReceivedMessageHandler.cpp:38-45 | the key leaves the cache, present or not, and the expiry counter moves |
| `ReceivedMessageHandlers.SimpleSyncReceivedMessageHandler.SweepExpired` | projects/Pairer/TimerPool.h:125-135 | the loop evicts the keys of exactly the timers past the snapshot, keeps the others in order and counts each firing |
| `ReceivedMessageHandlers.RegistersCount` | projects/Pairer/SimpleSyncReceivedMessageHandler.cpp:15-44 | over any sequence of `HandleMessage` and `SweepExpired` calls from a fresh handler, register 0 holds the number of messages handled, register 1 that of the reports made, register 2 that of the timers fired, each modulo 2^32 |
| `ReceivedMessageHandlers.RegistersAreTotals` | projects/Pairer/SimpleSyncReceivedMessageHandler.h:62-64 | in every undisturbed run these calls leave the object with the engine's cache, queue and reports, and registers 0, 1 and 2 with the engine's totals of received, paired and expired |
| `ReceivedMessageHandlers.HandleMessageIsARun` | projects/Pairer/SimpleSyncReceivedMessageHandler.cpp:10-36 | the receiver's steps in the engine add up to `HandleMessage` when undisturbed |
| `ReceivedMessageHandlers.SweepExpiredIsARun` | projects/Pairer/TimerPool.h:125-135 | the pool thread's steps in the engine add up to `SweepExpired` when undisturbed |
| `BlockingDequeues.BlockingDequeue.PushBack` | projects/Pairer/BlockingDequeue.h:27-33 | appends at the end |
| `BlockingDequeues.BlockingDequeue.Front` | projects/Pairer/BlockingDequeue.h:48-52 | the first element of a non-empty queue |
| `BlockingDequeues.BlockingDequeue.RetrieveOneIf` | projects/Pairer/BlockingDequeue.h:60-69 | hands out and removes exactly the first match, or nothing; the order of the rest is kept |
| `BlockingDequeues.RemovalSplitsSelection` | projects/Pairer/BlockingDequeue.h:60-69 | a removal takes the head of the matching elements and leaves the other matches and all non-matches in order |
| `BlockingDequeues.WithoutFirstElements` | projects/Pairer/BlockingDequeue.h:60-69 | a removal loses no element that differs from the one handed out |
| `TimerPools.SweepFiresExpired` | projects/Pairer/TimerPool.h:125-135 | with pushes and deletions of any kind in between, the loop ends as soon as no more late pushes come; it fires only expired timers, no more than it found plus the late pushes made meanwhile, and leaves none |
| `TimerPools.SweepIsExact` | projects/Pairer/TimerPool.h:125-135 | when the handler only re-arms, the sweep fires exactly the expired timers in queue order and leaves the others in order, followed by the re-armed ones in order |
| `TimerPools.OnlyLatePushesAddWork` | projects/Pairer/TimerPool.h:131-135 | whatever pushes and deletions happen between two looks, the number of overdue timers grows by no more than the pushes that are themselves overdue |
| `TimerPools.TruncatesTowardsZero` | projects/Pairer/TimerPool.h:144 | the conversion to milliseconds cuts off less than one millisecond and never lengthens the span |
| `TimerPools.WakeBounds` | projects/Pairer/TimerPool.h:142-146 | the truncated sleep ends at or before a future deadline and by less than one millisecond before it; a past deadline gives no sleep |
| `TimerPools.TimerPool.AddNewTimer` | projects/Pairer/TimerPool.h:65-67 | the timer is appended with the clock reading plus the duration |
| `TimerPools.TimerPool.DeleteTimer` | projects/Pairer/TimerPool.h:74-77 | true if and only if a timer of the id was queued; the first such timer is gone and nothing else changed |
| `TimerPools.TimerPool.SleepUntilFront` | projects/Pairer/TimerPool.h:142-146 | on a sorted queue the wake-up passes no deadline that was still ahead |
| `SimpleMapCaches.SimpleMapCache.Add` | projects/Pairer/SimpleMapCache.cpp:20-30 | stores the object, or refuses a taken key and changes nothing |
| `SimpleMapCaches.SimpleMapCache.PopObject` | projects/Pairer/SimpleMapCache.cpp:32-41 | hands out and removes the object of the key, or null and no change |
| `StatisticsMachine.CountsAreConserved` | projects/Pairer/AppStats.cpp:27-56 | under any interleaving, the increments of a counter equal the sum of all values moved to holding plus what is active, modulo 2^32, and exactly if and only if it never wrapped around; the holding register shows the value moved last |
| `StatisticsMachine.DrainsArePaced` | projects/Pairer/AppStats.cpp:10-25 | in every run there is exactly one timer between sweeps, due exactly one period after the latest clock reading; the i-th firing comes more than a period after the reading that armed its timer and not after the next reading; so consecutive drains lie more than a period apart |
| `StatisticsMachine.OverdueTimerDrains` | projects/Pairer/AppStats.cpp:19-56 | in every run, once the clock has passed the timer's deadline, a stated number of the pool thread's own turns fires the timer and moves every counter once more |
| `StatisticsMachine.RearmsAfterPeriod` | projects/Pairer/AppStats.cpp:19-21 | whatever happens between the clock reading and the push, the new timer is due one period after that reading |
| `StatisticsMachine.SleepIsTight` | projects/Pairer/TimerPool.h:138-146 | in every run the statistics pool sleeps for its one timer, until within a millisecond before its deadline, and wakes exactly when the clock has reached that time |
| `StatisticsMachine.RoundIsSweepExpired` | projects/Pairer/TimerPool.h:118-135 | an undisturbed round of the pool thread has the effect of the class's `SweepExpired` on queue and registers |
| `StatisticsMachine.FirstDrain` | projects/Pairer/AppStats.cpp:10-56 | for every period and number of counters, an event counted in the first period shows in the holding register after the next round, and the timer is armed again for a period after the clock |
| `StatisticsMachine.DrainAlone` | projects/Pairer/AppStats.cpp:48-56 | the per-counter drain steps, undisturbed, have the effect of `MoveActiveToHold` on both registers |
| `AppStatistics.AppStats.constructor` | projects/Pairer/AppStats.cpp:10-17 | all registers zero and one timer armed |
| `AppStatistics.AppStats.IncrementCounter` | projects/Pairer/AppStats.cpp:27-32 | one counter moves up by one in 32 bits, an id past the end changes nothing |
| `AppStatistics.AppStats.MoveActiveToHold` | projects/Pairer/AppStats.cpp:48-56 | holding becomes the old active registers, active becomes all zero |
| `AppStatistics.AppStats.OnTimerExpiry` | projects/Pairer/AppStats.cpp:19-25 | one new timer at the end of the queue, then the move |
| `AppStatistics.AppStats.SweepExpired` | projects/Pairer/TimerPool.h:125-135 | the loop ends although its handler re-arms while it runs: it fires the timers that had expired and no re-armed one |
| `ThriftProtocol.SkipEncoded` | projects/ThriftServer/RadiusPairLogger_types.cpp:57-69 | skipping a well-formed value of any type and depth consumes its tokens and nothing else |
| `ThriftStreams.SkipsExactly` | projects/ThriftServer/RadiusPairLogger_types.cpp:57-69 | a stream can be skipped, leaving this rest, if and only if it begins with what a writer emits for some well-formed value of the type |
| `RadiusRecords.RoundTrip` | projects/ThriftServer/RadiusPairLogger_types.cpp:148-279 | reading what was written, with anything behind it, into a fresh record gives an equal record and stops behind the written tokens; writing it again emits the same stream |
| `RadiusRecords.RoundTripExactly` | projects/ThriftServer/RadiusPairLogger_types.cpp:250-275 | the round trip works if and only if each written list has fewer than 2^32 elements |
| `RadiusRecords.OversizedListIsLost` | projects/ThriftServer/RadiusPairLogger_types.cpp:250-260 | a record with a list of 2^32 elements, announced as empty, does not survive the round trip |
| `RadiusRecords.EqualExactly` | projects/ThriftServer/RadiusPairLogger_types.h:104-119 | the comparison holds if and only if both scalars agree and, for each list, the flags agree and the lists agree where set; it is reflexive and symmetric |
| `RadiusRecords.CanonicalIsFaithful` | projects/ThriftServer/RadiusPairLogger_types.h:104-119 | what reading back produces is equal under the record's own comparison for all combinations of the list flags, and is written the same |
| `RadiusRecords.RequestDenotes` | projects/ThriftServer/RadiusPairLogger_types.cpp:161-234 | reading a well-formed struct succeeds if and only if its avp lists hold complete avps, and gives its fields applied in order of occurrence |
| `RadiusRecords.AvpReadsLastOfEach` | projects/ThriftServer/RadiusPairLogger_types.cpp:44-81 | on well-formed structs the avp reader succeeds if and only if a byte field 1 and a string field 2 occur, and returns the last of each; otherwise it fails with INVALID_DATA |
| `RadiusRecords.FieldOrderIrrelevant` | projects/ThriftServer/RadiusPairLogger_types.cpp:161-230 | permuting the fields of a record that sets no part twice never changes the outcome of the read |
| `RadiusRecords.UnknownFieldIgnored` | projects/ThriftServer/RadiusPairLogger_types.cpp:161-230 | a well-formed field with an unknown id or an unexpected type never changes the outcome, wherever it stands |
| `RadiusRecordIO.WriteAvp` | projects/ThriftServer/RadiusPairLogger_types.cpp:84-100 | emits the encoding of the avp and counts its bytes |
| `RadiusRecordIO.ReadAvp` | projects/ThriftServer/RadiusPairLogger_types.cpp:29-82 | the loop agrees with the reader function on success, failure, tokens consumed and bytes counted |
| `RadiusRecordIO.RadiusRequest.Write` | projects/ThriftServer/RadiusPairLogger_types.cpp:237-279 | emits the encoding of the record, unset lists left out, and counts its bytes |
| `RadiusRecordIO.RadiusRequest.Read` | projects/ThriftServer/RadiusPairLogger_types.cpp:148-235 | the loop agrees with the reader function on success, failure, fields, tokens consumed and bytes counted |
| `RadiusRecordIO.WriteThenRead` | projects/ThriftServer/RadiusPairLogger_types.cpp:148-279 | the running writer and reader, one after the other: an equal record, the same re-written stream, the trailing tokens left, and the same byte total for any token sizes |
| `RadiusMessages.KeyIsInjective` | projects/Pairer/RadiusMessage.cpp:52 | different identifiers have different keys |
| `RadiusMessages.BuildAttrsFromRadiusPacket` | projects/Pairer/RadiusMessage.cpp:50-73 | the key reads as the identifier; in attribute numbers: a key is present exactly when some attribute's number differs from it by a multiple of 2^16, so a number below 2^15 is its own key, and then it holds what the last such attribute shows, encrypted strings in octets |
| `RadiusMessages.RenderingShows` | projects/Pairer/RadiusMessage.cpp:87-177 | what each type's rendering says, by octets and by reading back: strings up to the first zero, numbers as sums of octets, the sign bit, the boolean, the hexadecimal octets, the address or its error text, the time without its line end |
| `RadiusMessages.RenderingIsOnly` | projects/Pairer/RadiusMessage.cpp:87-177 | no other text says the same |
| `Integers.NarrowsTo16` | projects/Pairer/RadiusMessage.cpp:66-69 | a key is the one number of 16 bits that differs from the attribute number by a multiple of 2^16, and the number itself when it fits |
| `RadiusMessages.OctetsToString` | projects/Pairer/RadiusMessage.cpp:109-121 | the loop yields the hexadecimal rendering |
| `RadiusMessages.HexRoundTrip` | projects/Pairer/RadiusMessage.cpp:109-121 | two digits per octet, undone by a decoder for every octet string |
| `RadiusMessages.DecimalIsOnly` | projects/Pairer/RadiusMessage.cpp:129-137 | a decimal text that reads as a number is the rendering of that number |
| `RadiusMessages.DottedQuadRoundTrip` | projects/Pairer/RadiusMessage.cpp:139-148 | the dotted form is undone by a parser for every four-octet address |
| `ThriftResultLoggers.MapToAvpList` | projects/Pairer/ThriftResultLogger.cpp:31-40 | one avp per map entry, in ascending key order, appended to the list |
| `ThriftResultLoggers.InOrderAscends` | projects/Pairer/ThriftResultLogger.cpp:34-39 | the iteration order is strictly ascending and visits exactly the keys |
| `ThriftResultLoggers.NarrowingIsInjectiveOnOctets` | projects/ThriftServer/RadiusPairLogger_types.cpp:21-23 | narrowing a type to a signed byte loses nothing on 0..255 |
| `ThriftResultLoggers.RecoverExactly` | projects/Pairer/ThriftResultLogger.cpp:31-40 | the avp list gives the attribute map back if and only if all types are octets |
| `ThriftResultLoggers.NegativeTypeIsLost` | projects/Pairer/ThriftResultLogger.cpp:34-37 | the attribute type -1 is not recovered: it comes back as 255 |
| `ThriftResultLoggers.BuildRecord` | projects/Pairer/ThriftResultLogger.cpp:47-57 | the record of a pair: both lists and set, application id and time equal to the inputs when they fit 32 signed bits and congruent modulo 2^32 otherwise |
| `ThriftResultLoggers.ReportSurvivesTheWire` | projects/Pairer/ThriftResultLogger.cpp:42-60 | what the server reads gives both attribute maps back if and only if their types are octets, whatever follows on the wire |
| `ThriftResultLoggers.ReportAndRead` | projects/Pairer/ThriftResultLogger.cpp:42-60 | from two packets of an identifier to the server through the running code: under each type the server finds what the last attribute of the greatest key of that type shows, for the request and for the response, and no other type; an attribute number that is an octet, and not shadowed by a greater one, is its own type; time and application id arrive when they fit |
| `ThriftResultLoggers.AttributesTell` | projects/Pairer/RadiusMessage.cpp:55-72 | the avp list of a packet's attribute map says exactly that of the packet |
| `RadiusProxies.LengthIsDeclaredExactly` | projects/Pairer/RadiusProxyMsgReceiver.cpp:61-70 | the computed length is the declared one if and only if plain char is unsigned or both octets are below 128 |
| `RadiusProxies.AcceptedIsDeclaredExactly` | projects/Pairer/RadiusProxyMsgReceiver.cpp:63-81 | an accepted packet is a non-empty beginning of the datagram, and it is what the datagram's Length field delimits if and only if plain char is unsigned or both octets are below 128 |
| `RadiusProxies.WholePacketIsTakenExactly` | projects/Pairer/RadiusProxyMsgReceiver.cpp:63-81 | a datagram that is one whole packet is taken over unchanged if and only if plain char is unsigned or both Length octets are below 128; it is dropped if and only if the signed Length comes out negative, and in the remaining case loses its last 256 octets |
| `RadiusProxies.SignedLengthCuts` | projects/Pairer/RadiusProxyMsgReceiver.cpp:70-75 | Length octets 1 and 200 on a 456-octet packet: 200 octets are taken over |
| `RadiusProxies.SignedLengthDrops` | projects/Pairer/RadiusProxyMsgReceiver.cpp:70-81 | Length octets 0 and 200 on a 200-octet packet: nothing is taken over |
| `RadiusProxies.RadiusProxyMsgReceiver.constructor` | projects/Pairer/RadiusProxyMsgReceiver.cpp:15-41 | empty buffer and empty client table |
| `RadiusProxies.RadiusProxyMsgReceiver.CopyReceivedRadiusPacket` | projects/Pairer/RadiusProxyMsgReceiver.cpp:55-83 | length 0 if and only if a peek failed, the datagram is shorter than a header or than its computed length, or that length is 0; otherwise exactly that many octets of the one datagram |
| `RadiusProxies.RadiusProxyMsgReceiver.WaitForRadiusPacket` | projects/Pairer/RadiusProxyMsgReceiver.cpp:85-139 | for every arrival: the new buffer, destination, client table and sends, also when the inner wait throws, nothing usable arrives or the identifier lies outside the buffer |
| `RadiusProxies.FaultsExactly` | projects/Pairer/RadiusProxyMsgReceiver.cpp:88-131 | a run reads past a buffer if and only if a packet of one octet was accepted from a client, or from the server with a further call after it |
| `RadiusProxies.OneOctetPacketFaults` | projects/Pairer/RadiusProxyMsgReceiver.cpp:128-131 | a client's datagram with Length 1 makes any run read past the buffer |
| `RadiusProxies.ClientTableIsLatest` | projects/Pairer/RadiusProxyMsgReceiver.cpp:128-135 | after any run without such a read each entry is the source of the latest client packet with that identifier |
| `RadiusProxies.ForwardsEverythingOnce` | projects/Pairer/RadiusProxyMsgReceiver.cpp:85-139 | over any run the sends, with the one still buffered, are exactly the accepted packets in arrival order, unchanged, to the server or to the latest client; up to a read past a buffer they are a beginning of that; the buffer is null exactly when its destination is DEST_NONE and exactly when its length is 0 |
| `ProxyPairing.RepliesReachTheirRequester` | projects/Pairer/RadiusMessageReceiver.cpp:82-112 | in the receiver loop and in any interleaving, while one identifier's requests and replies alternate, proxy and library agree about its packets, and no waiting message of it is evicted: the j-th report pairs the messages of the identifier's turns 2j and 2j+1, which met a client's request and the server's reply, and the proxy's sends number 2j and 2j+1 of the identifier carry the packets of the same two turns, the request to the server and the reply to the sender of the reported request |
| `ProxyPairing.EveryReplyIsReported` | projects/Pairer/SimpleSyncReceivedMessageHandler.cpp:18-27 | under the same conditions, for every turn in which a server's packet of the identifier was handed over, the message of that turn is the second half of some report |
| `ProxyPairing.AgreedAligned` | projects/Pairer/RadiusMessageReceiver.cpp:82-112 | where proxy and library agree about an identifier, its i-th packet at the proxy and its i-th message at the handler come from the same turn of the loop |
| `ProxyPairing.PositionsFallIntoStep` | projects/Pairer/RadiusProxyMsgReceiver.cpp:88-138 | by position alone, when both sides got equally many packets of an alternating identifier: reports pair consecutive messages, and each reply's send goes to the sender of the request packet before it; which packet a message was made from is not said |
| `ProxyPairing.EqualCountsDoNotSuffice` | projects/Pairer/RadiusProxyMsgReceiver.cpp:120-123 | for all addresses and identifiers, three turns with equal counts in which one client's request is reported and the reply goes to another client: the proxy missed the first client's packet, the library the second's |

## Left out

- The mutex that `retrieve_one_if` does not take and the reference that `front` returns after unlocking: each queue call is
  one atomic step, as the class announces itself to be (projects/Pairer/BlockingDequeue.h:15).
- More than one thread that calls `addNewTimer` on one pool, changes of the duration, and the sentinel timer that `stop`
  pushes (projects/Pairer/TimerPool.h:107-109); `start` and `stop` themselves.
- Counter increments of the handler are merged with the neighbouring cache or reporter step, and the engine's totals are
  unbounded; the wrap-around of the counters is in `AppStatistics` and `RegistersCount`.
- After a null pop the process is gone; the engine lets the pool thread go on, which only adds runs.
- Exceptions of the reporter: reporting always succeeds. Ownership and freeing of messages and packets.
- Counter identifiers below zero, which the source does not check.
- `SimpleMapCache::first`, which the pairing does not use.
- RadiusRecordIO.TProtocol.SkipValue: the library's skip is taken by its effect, the function `ThriftProtocol.Skip`; its own
  loops, the recursion limit, transports and the binary layout belong to the library.
- ThriftStreams.SkipsExactly: streams that announce a field or element of type T_STOP are left aside.
- RadiusRecordIO.RadiusRequest.Read: says nothing about the record's fields after a failed read, or the input left then;
  the exception leaves a half-filled record that no caller looks at.
- RadiusRecords.RequestDenotes: streams that are not the encoding of any well-formed struct are covered only by the agreement
  of the loops with the reader function.
- RadiusMessages.BuildAttrsFromRadiusPacket: `ctime` is a parameter, memory behind attribute pointers is a value long enough
  for the converter, and numbers are little-endian as on the platforms the project builds for.
- Boost serialisation of messages, attribute dictionary, `rad_recv` and `rad_decode`, configuration, logging and `main`.
- Sockets and `select`: what a wait and the two peeks yield is a parameter of each proxy call, and the result of a send is
  not observed.
- What the proxy does after it has read past a buffer: the run ends there. Failure of `malloc`.
- Socket addresses are compared as values of one length.
- ProxyPairing.RepliesReachTheirRequester: proxy and RADIUS library are taken to agree about the packets of the identifier
  itself. When only one of them gets such a packet, a reply can go to another client than the one whose request is
  reported, as `EqualCountsDoNotSuffice` shows; no weaker condition than agreement is stated.
