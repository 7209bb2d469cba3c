# Verification of the sensor-to-MES data path

The system collects sensor registers into the word memory of a PLC, reads that memory on an Edge, keeps
samples in a durable queue, delivers them to the ledger of an MES, and derives alarms, batches and run
intervals from them for a live dashboard. This project models each of these stages in Dafny and proves
what the system as a whole promises about them. `dafny verify dfyconfig.toml` checks everything.

## How it is organised

| stage | files |
|---|---|
| shared | `Outcomes`, `Sequences` (filters, as `SELECT` and `DELETE ... WHERE` use them, and subsequences) |
| Modbus codec and links | `Crc`, `Modbus`, `StreamLink`, `ValueCodec` |
| acquisition | `MemoryMap`, `ReadRanges`, `Polling`, `Acquisition`, `PlcReader`, `DeviceHealth` |
| store-and-forward delivery | `NoiseFilter`, `EdgeBuffer`, `MesLedger`, `EdgeCollector` (the objects), `Delivery` (the protocol and its invariant), `DeliveryInvariant`, `DeliverySteps`, `DeliveryIngest`, `DeliveryQueue`, `DeliverySample` (each step keeps it), `DeliveryTheorems`, `DeliveryResends`, `DeliveryProgress`, `DeliveryLimits`, `DeliveryTrace` and `DeliveryCounts` (what a run leaves in the state of the Edge), `RequestOrder`, `DeliveryOrder`, `SamplePath`, `SampleRouting`, `Transparency` |
| derived state of the MES | `Alarms`, `AlarmRows`, `AlarmRuns`, `AlarmHistory`, `TankBatches`, `RunLog`, `Retention` |
| from sample to alarm and run log, and from register to alarm | `EndToEnd`, `SensorToRoute` |
| dashboard | `LiveView`, `LiveMeaning`, `LiveJoin` |

Objects the source updates in place are classes; the contract of each method ties the new state to a
function of the old one, and the theorems are about those functions and the runs they make. Where tasks
interleave, the model is a state machine: an `await` is the only point where steps of different tasks
alternate, so every action is what runs between two of them.

**Delivery.** A run is any sequence of samples, sends, injected line faults, ingests, answers, failures,
purges on both sides and restarts of the Edge. Every request ever sent stays on the wire: it may be
ingested never, late (after later requests, after a restart) or more than once. The invariant says, among
other things, that a request, and the ledger, hold with each message every earlier one of its priority
unless that one was purged or comes from unknown equipment. From it follow no loss, no duplicate, order
for each priority, whole samples, the accounts and the flags. Two statements about what the MES routes
build on it. `SampleRouting.SamplesRoutedOnce` asks only that nothing returns after a purge of the MES (see
below) and that no two samples of an equipment share a collect time: whatever the Edge purges, and for
urgent equipment too, each `route` call is one sample with exactly its values, and no sample is routed
twice. `Transparency` adds order: if the Edge purges nothing, then for equipment that is never urgent the
calls are, one for one, what the Edge sampled. `EndToEnd` puts the alarm engine and the run log behind it,
driven by the calls and purges of the same run; the samples in time order that both need are thereby
provided. `SensorToRoute` puts the acquisition and the noise filter in front: each call for a polled device
shows exactly one of its successful polls, and its alarms follow from what its reader emitted.

**A requirement the code does not meet.** Requirement EDG-08 wants every retransmission to carry
`Y`. A send cut off by a restart is not marked as failed, so it is repeated with `N`
(`DeliveryLimits.RestartedSendIsUnflagged`). `DeliveryResends.ResendIsExact` says for every run and every two
requests with a message in common when the later one flags it: if and only if the earlier one did or a
send has failed in between. `UnflaggedRepeatWasCut` draws the consequence: an unflagged repeat means that
every earlier request with the message was cut off by a restart. `RepeatsAreFlagged` is the requirement
itself, for the runs in which no restart cuts off a send.

**Storing once.** The daily purge of the MES deletes the numbers by which it knows duplicates. So a
message is stored twice if a purge deletes it while it is on its way again
(`DeliveryLimits.ForgottenIsStoredAgain`: the answer is lost, the message is sent again, the purge runs, the second
request arrives). `DeliveryTheorems.StoredOnceExactly` gives the condition: no message is ever stored twice
if and only if nothing returns, that is, at no ingest does the request carry a message of known equipment
that was stored before and is no longer in the ledger. `SampleRouting.RoutedOnceExactly` says the same of
`route`. The theorems above ask for this and not for the absence of purges.

**Order.** A message purged at the Edge while in flight can arrive after its successors
(`DeliveryLimits.PurgedInFlightArrivesLate`). `DeliveryOrder.OrderExactly` gives the condition: the messages of each
priority are stored in the order of their numbers if and only if no ingest gets a message that was purged, by
the Edge or by the MES after it had been stored, while a later one of its priority is stored already.

**A browser that joins.** A snapshot is taken before the hub knows of the browser, and the hub may flush in
between. `LiveJoin.JoinExact` says for any course of events when the values and open alarms come out
right all the same: if and only if what the snapshot showed, with what still waits in the hub, shows everything
published. Without a flush in between that is always so (`JoinerCatchesUp`). Device states come from
the snapshot alone, and `JoinedStatus` says when one stays wrong.

**A comment the code does not follow.** The noise filter is said to let a jump through after three in the same
direction. The code does not look at the direction (`NoiseFilter.DirectionIsIgnored`); `KeptExactly` says
what it lets through.

**Assumptions.** Transactions are atomic and COMMIT succeeds; AUTOINCREMENT numbers are not reused and
UNIQUE is enforced. Time stamps are whole milliseconds. Values are exact (`real`). The peer of a Modbus
link answers one request with at most one frame, of any content, in time or late.

## Model

| member | source | states |
|---|---|---|
| `NoiseFilter.Filter.Accept` | src/twin/edge/core.py:88-101 | judges one value by the value last let through and the jumps since, and touches no other item |
| `NoiseFilter.Filter.Apply` | src/twin/edge/core.py:71-86 | keeps the accepted values of a sample in the order of the items |
| `NoiseFilter.KeptExactly` | src/twin/edge/core.py:88-101 | over any values of an item, one is let through exactly when it is in range and is the first such, or no jump from the value let through last, or the third in range since that one |
| `NoiseFilter.OneOfThree` | src/twin/edge/core.py:88-101 | of any three values in range at least one is let through |
| `NoiseFilter.DirectionIsIgnored` | src/twin/edge/core.py:63 | three jumps pass even if they alternate in direction |
| `NoiseFilter.SampleIsItemByItem` | src/twin/edge/core.py:71-86 | the verdict on an item depends on its own values alone |
| `EdgeBuffer.Buffer.Enqueue` | src/twin/edge/core.py:128-154 | stores a non-empty sample as one row under the next persistent numbers; leaves everything else alone; an empty one changes nothing |
| `EdgeBuffer.Buffer.NextBatch` | src/twin/edge/core.py:156-169 | returns the greedy prefix of what the SELECT gives in (priority, id) order: as many whole rows as fit the limit, and at least one if there is any |
| `EdgeBuffer.OrderedIsSorted` | src/twin/edge/core.py:158-161 | the SELECT order holds every row once, by priority and then arrival |
| `EdgeBuffer.GreedyPrefixUnique` | src/twin/edge/core.py:162-169 | there is only one greedy prefix, so the batch is determined by the queue |
| `EdgeBuffer.LimitNeverCutsTheBatch` | src/twin/edge/core.py:156-169 | for a positive limit the LIMIT of the SELECT never makes the batch shorter than the greedy prefix of the whole queue |
| `EdgeBuffer.Buffer.Ack` | src/twin/edge/core.py:171-175 | removes exactly the rows named and adds to the sent and resent counters |
| `EdgeBuffer.Buffer.MarkFailedAll` | src/twin/edge/core.py:177-179 | counts a failed attempt on every row and marks it buffered |
| `EdgeBuffer.Buffer.Purge` | src/twin/edge/core.py:181-190 | returns the number of items in rows older than the cut and deletes those rows |
| `EdgeBuffer.PurgeDeletesTheOld` | src/twin/edge/core.py:181-190 | since no row is empty, exactly the old rows go, also when the count is zero |
| `EdgeBuffer.Buffer.Stats` | src/twin/edge/core.py:192-204 | the pending samples and items, the time of the oldest and the persistent counters |
| `EdgeBuffer.PrepareRequest` | src/twin/edge/collector.py:84-90 | the request lists the items of the batch in order, all items of a row flagged alike, and counts the flagged ones |
| `EdgeCollector.Collector.OnSample` | src/twin/edge/collector.py:53-72 | what the noise filter keeps of a sample does to buffer and NG memory what the protocol model does when a sample is taken, priority included; an urgent one wakes the sender |
| `EdgeCollector.Collector.BeginSend` | src/twin/edge/collector.py:77-93 | puts on the wire the request the protocol model sends, or nothing when there is no batch |
| `EdgeCollector.Collector.Complete` | src/twin/edge/collector.py:94-114 | acknowledges exactly when the answer accepts every item, and otherwise does what a failed send does |
| `EdgeCollector.Collector.Fail` | src/twin/edge/collector.py:97-105 | marks the line down and every row as failed |
| `EdgeCollector.Collector.Purge` | src/twin/edge/collector.py:116-122 | purges the buffer as the protocol model does |
| `DeliveryTrace.UrgentExactly` | src/twin/edge/collector.py:53-72 | in every run a message is urgent if and only if its sample carries an NG count, an earlier one of the same equipment since the last restart of the Edge did, and the latest of these counts is smaller; otherwise it is normal; it is marked as buffered from the start if and only if the line was then known down |
| `DeliveryTrace.LinkIsTheLastFinding` | src/twin/edge/collector.py:94-114 | in every run the line is up after an answered send, down after a failed one, unknown from the start and from each restart on; the failures counted are the failed sends |
| `DeliveryTrace.PurgeIsByAge` | src/twin/edge/core.py:181-190 | in every run a purge of the Edge deletes exactly the queued samples that were taken in before its cut |
| `DeliveryTrace.LedgerLosesByAge` | src/twin/mes/store.py:500 | in every run the ledger loses a value only to a purge of the MES, and then exactly if its sample was collected before the cutoff |
| `MesLedger.MesStore.Ingest` | src/twin/mes/store.py:149-201 | accepts every id; stores the known items with ids not stored before, and routes their groups; counts rows and duplicates |
| `MesLedger.MesStore.Store` | src/twin/mes/store.py:154-183 | INSERT OR IGNORE: the ledger grows by the items that are known and new, the rest is counted as duplicate or skipped |
| `MesLedger.MesStore.Distribute` | src/twin/mes/store.py:184-195 | routes the groups of the new rows |
| `MesLedger.FreshStoresTheMissing` | src/twin/mes/store.py:156-183 | a new row is an item of the request, known, with an unused id; every known item of the request is stored afterwards |
| `MesLedger.KnownCountIsExact` | src/twin/mes/store.py:156-183 | rows and duplicates of an ingest together are the items of known equipment; the others are neither |
| `MesLedger.RoutesAreTheSamples` | src/twin/mes/store.py:184-195 | `route` is called in time order, once for each (equipment, time) among the new rows, with exactly their values |
| `MesLedger.RoutesKeepTheArrivals` | src/twin/mes/store.py:184-191 | calls for the same time come in the order in which the new rows first mention their equipment |
| `DeliveryTheorems.RunKeeps` | src/twin/edge/collector.py:74-142 | the inductive invariant over both endpoints and the wire holds after every sequence of samples, sends, line faults, ingests (late, repeated or never), acknowledgements, failures, restarts and purges |
| `DeliveryTheorems.NothingIsLost` | src/twin/edge/collector.py:74-122 | in every run each numbered message is queued, or in the ledger, or was deleted by a purge, or is from unknown equipment |
| `DeliveryTheorems.ExactlyOnce` | src/twin/edge/collector.py:74-114 | with known equipment, if the Edge does not purge and nothing returns: every message is queued or was stored, once and as sampled; an empty queue means exactly 1..seq were stored; if the MES does not purge either, they are the ledger |
| `DeliveryTheorems.StoredTwiceWasForgotten` | src/twin/mes/store.py:149-183 | in every run a message is inserted a second time only after a purge of the MES has deleted it |
| `DeliveryTheorems.StoredOnceExactly` | src/twin/mes/store.py:149-183 | in every run, no message is ever stored twice if and only if no ingest gets a known message that was stored before and has been purged since |
| `DeliveryTheorems.AtMostOnce` | src/twin/mes/store.py:149-183 | if nothing returns, whatever the two sides purge: no message is stored twice, and each is queued, stored, purged at the Edge or from unknown equipment |
| `DeliveryTheorems.OutOfOrderWasPurged` | src/twin/edge/core.py:156-169 | in every run a message inserted after a later one of its priority had been purged at the Edge or forgotten by the MES |
| `DeliveryOrder.OrderExactly` | src/twin/edge/core.py:156-169 | in every run, the messages of each priority are stored in increasing number order if and only if no ingest gets one that was purged on its way, at the Edge or at the MES after it was stored, and that a later one has overtaken |
| `DeliveryTheorems.OrderPerPriority` | src/twin/edge/core.py:156-169 | if the Edge does not purge and nothing returns, messages of one priority are stored in increasing number order, even with delayed requests and purges of the MES |
| `DeliveryTheorems.LedgerIsWhatIsLeft` | src/twin/mes/store.py:500 | in every run the ledger is a subsequence of all that was stored, in that order |
| `DeliveryTheorems.LedgerOrder` | src/twin/edge/core.py:156-169 | so the ledger too is in increasing number order for each priority |
| `DeliveryTheorems.SamplesStayWhole` | src/twin/mes/store.py:156-191 | in every run the messages of a sample are together in the ledger, the queue, the purged set and every request, or not at all |
| `DeliveryTheorems.AnswersAccept` | src/twin/edge/collector.py:94-96 | an answer always names every message of the request, so the check of the sender never refuses it |
| `DeliveryTheorems.Accounts` | src/twin/edge/core.py:171-204 | pending + sent + purged = numbered + those purged in flight and acknowledged later (none unless the Edge purges); resent never exceeds sent |
| `DeliveryCounts.CountersAreExact` | src/twin/edge/core.py:171-175 | in every run the sent counter is the number of items in the requests whose answer reached the sender, and the resent counter that of the flagged ones among them |
| `DeliveryTheorems.FlagsAreExact` | src/twin/edge/collector.py:53-114 | a queued sample is flagged as resent if and only if the line was known down when it came in or a send has failed since; all are while the line is known down |
| `DeliveryResends.ResendIsExact` | src/twin/edge/collector.py:74-142 | in every run, of two requests carrying a message the later one flags it if and only if the earlier one did or a send failed between the two; the earlier one had failed or been cut off by a restart |
| `DeliveryResends.UnflaggedRepeatWasCut` | src/twin/edge/collector.py:97-142 | a repeat without the flag occurs only if every earlier request with the message was cut off by a restart and no send failed since |
| `DeliveryResends.RepeatsAreFlagged` | src/twin/edge/collector.py:74-114 | as long as no restart cuts off a send, every message sent again is flagged |
| `DeliveryProgress.QueueCanDrain` | src/twin/edge/collector.py:74-114 | from every reachable state some continuation without faults, purges or restarts empties the queue |
| `DeliveryLimits.RestartedSendIsUnflagged` | src/twin/edge/collector.py:130-142 | a send cancelled by a restart is repeated unflagged: retransmissions do not all carry Y |
| `DeliveryLimits.ForgottenIsStoredAgain` | src/twin/mes/store.py:468-509 | a sample is stored, its answer lost, it is sent again, the daily purge deletes it, and the second request stores it a second time |
| `DeliveryLimits.PurgedInFlightArrivesLate` | src/twin/edge/collector.py:116-122 | a sample purged in flight can reach the ledger after its successors |
| `Transparency.RoutedAsSampled` | src/twin/mes/store.py:184-191 | if the Edge does not purge and nothing returns after a purge of the MES, for known never-urgent equipment sampled in time order: the `route` calls are a prefix of its samples with exactly their values, and all of them once the queue is empty |
| `SampleRouting.SamplesRoutedOnce` | src/twin/mes/store.py:149-195 | if nothing returns after a purge of the MES, for samples with distinct equipment and collect time, urgent or not and whatever the Edge purges: each `route` call is one sample taken, whole and with exactly its values, no sample is routed twice, and every stored message has its sample routed |
| `SampleRouting.RoutedOnceExactly` | src/twin/mes/store.py:149-195 | for samples with distinct equipment and collect time, no sample is routed twice if and only if nothing returns |
| `SampleRouting.RoutedIsSampled` | src/twin/mes/store.py:184-195 | every routed call carries exactly the values of one sample |
| `SampleRouting.RowNotSplit` | src/twin/mes/store.py:149-195 | a sample is stored in a single ingest |
| `RequestOrder.RunInOrder` | src/twin/edge/collector.py:84-90 | in every run each request and each ingest lists the messages of a sample, and of a priority, in ascending order |
| `SamplePath.RunBornFrom` | src/twin/edge/collector.py:53-72 | the numbered messages are those of the samples taken, row by row, later values winning |
| `SamplePath.RunIngestsWhole` | src/twin/mes/store.py:149-183 | each ingest stores whole samples |
| `EndToEnd.HandlersSeeTheSamples` | src/twin/mes/store.py:200-221 | whatever a handler of `route` takes from the calls of an equipment, it sees it of the samples in time order, of those so far and, once the queue is empty, of all |
| `EndToEnd.AlarmsFollowTheSamples` | src/twin/mes/store.py:224-315 | end to end, across purges of the MES after which nothing returns, with events, acknowledgements, communication alarms and restarts at any time: the alarms of a condition, with or without a target and for each tank, follow from the Edge samples alone; without restarts and purges they are one for each maximal deviating run that lasts the hold time; purges take those that ended before their cutoff |
| `EndToEnd.RunLogFollowsTheSamples` | src/twin/mes/store.py:358-394 | end to end, across the same purges and restarts: the run log shows the intervals between the state changes of the Edge samples |
| `SensorToRoute.CallsAreThePolls` | src/twin/edge/collectors.py:94-109 | from registers to `route`: each call for a polled device shows values of exactly one successful poll, later calls of later polls; with an empty queue every emission of which the filter left anything has its call |
| `SensorToRoute.UnlimitedCallsAreWhole` | src/twin/edge/collectors.py:94-109 | without limits in the filter and with an empty queue, the calls are the emissions, one for one, each with all values decoded from its poll |
| `SensorToRoute.AlarmsFollowThePolls` | src/twin/mes/alarms.py:64-90 | the alarms of a condition on a polled device follow from what its reader emitted |
| `Alarms.DeviatesOutsideTheBands` | src/twin/mes/alarms.py:38-48 | a value deviates exactly when it is outside a limit, the band around its target, or the percentage band around the standard (of whatever sign) |
| `Alarms.AlarmEngine.constructor` | src/twin/mes/alarms.py:20-33 | a start rebuilds the index from the open rows and has no timers |
| `Alarms.AlarmEngine.Check` | src/twin/mes/alarms.py:64-90 | one step of the hold timer: raises with the start of the deviation, clears at the first conforming value |
| `AlarmRows.CheckExact` | src/twin/mes/alarms.py:64-90 | row by row: a conforming value drops the timer and closes the open alarm of the key; a deviating one starts the timer if there is none and adds an alarm, raised when the timer was started, exactly if none is open and the hold time has passed; no other row changes |
| `Alarms.AlarmEngine.Event` | src/twin/mes/alarms.py:93-103 | re-raises the open alarm of the key or raises a new one |
| `AlarmRows.EventExact` | src/twin/mes/alarms.py:93-103 | row by row: the open alarm of the key is raised anew at the time of the event, or one is added; no other row changes |
| `AlarmRows.EventAlarmsAreAsLast` | src/twin/mes/alarms.py:93-103 | over any run with restarts, acknowledgements and purges: the open alarm of an event rule is raised, at the time of its last event |
| `Alarms.AlarmEngine.Comm` | src/twin/mes/alarms.py:106-116 | the same hold timer for communication alarms, with three clock readings |
| `AlarmRows.CommExact` | src/twin/mes/alarms.py:106-116 | row by row the same as for a check, with the timer started at the second clock reading, compared at the third, and the alarm closed at the first |
| `Alarms.AlarmEngine.Ack` | src/twin/mes/alarms.py:151-172 | closes a raised event alarm and drops it from the index, acknowledges any other raised alarm, else changes nothing |
| `AlarmRows.AckExact` | src/twin/mes/alarms.py:151-172 | row by row: a raised alarm becomes cleared for an event rule and acknowledged for any other, with the time of the call; everything else stays, and so does an alarm that is absent, acknowledged or cleared |
| `Alarms.AlarmEngine.Raise` | src/twin/mes/alarms.py:119-139 | adds a row under the next number and indexes it |
| `Alarms.AlarmEngine.Clear` | src/twin/mes/alarms.py:141-144 | closes the indexed row and drops the key |
| `Alarms.IndexAlwaysTheTable` | src/twin/mes/alarms.py:29-33 | after any interleaving of all operations, purges and restarts the index equals the one rebuilt from the table, is injective, and no key has two open alarms |
| `Alarms.ClearedIsFinal` | src/twin/mes/store.py:498 | a cleared row stays as it is until a purge with a later cutoff removes it |
| `AlarmRuns.ExpectedAreTheRuns` | src/twin/mes/alarms.py:77-90 | the reference: a span is expected exactly for each maximal deviating run lasting the hold time, from its first sample to the first conforming one |
| `AlarmRuns.WatchingFindsTheRuns` | src/twin/mes/alarms.py:77-90 | timing step by step finds exactly the maximal runs |
| `AlarmHistory.ResumedIsWatched` | src/twin/mes/alarms.py:20-33 | after a restart: an alarm that is on ends at the first conforming reading, a deviation not yet raised is timed anew |
| `AlarmHistory.AlarmsAcrossRestarts` | src/twin/mes/alarms.py:20-172 | with other keys, events, acknowledgements, restarts and purges interleaved, the rows of a condition key, or of a communication key, are the expected spans of its readings between the restarts, from some span on; the missing ones ended before the cutoff of a purge |
| `AlarmHistory.AlarmsAreTheRuns` | src/twin/mes/alarms.py:64-172 | without restarts and purges they are exactly the maximal deviating runs that last the hold time |
| `TankBatches.TankStore.TankOpr` | src/twin/mes/store.py:248-275 | the loop ends with the tank up to date, other tanks untouched; fails only for a tank without an open batch that is not configured |
| `TankBatches.UpToDateAbuts` | src/twin/mes/store.py:248-275 | a call closes exactly max(0, floor((ts - start) / length)) batches; batches abut, closed ones last exactly their length, one is open |
| `TankBatches.FirstBatch` | src/twin/mes/store.py:257-264 | a configured tank seen for the first time starts one batch at the time of the value |
| `TankBatches.OnlyTheLatestCounts` | src/twin/mes/store.py:248-275 | two calls come to the same as one with the later time, in either order |
| `TankBatches.AnyCallsAbut` | src/twin/mes/store.py:248-275 | over any sequence of calls the batches abut and depend only on the latest time |
| `TankBatches.TargetStays` | src/twin/mes/store.py:248-275 | whatever calls there are, the current batch of a tank has the target of its first |
| `RunLog.RunStore.Record` | src/twin/mes/store.py:358-390 | closes the open interval and opens the next when the state changes; the state comes from the cache or else from the open row |
| `RunLog.RunStore.PurgeRows` | src/twin/mes/store.py:497 | deletes the closed rows that ended before the cutoff |
| `RunLog.ExpectedSnoc` | src/twin/mes/store.py:358-390 | the reference of one interval between two state changes, read one sample further |
| `RunLog.RowsStayOk` | src/twin/mes/store.py:358-390 | in every run at most one row of an equipment is open, it is the last, and the cached state is its state |
| `RunLog.RunLogIsTheIntervals` | src/twin/mes/store.py:358-390 | for time-ordered samples, across restarts and purges, the rows are the intervals between state changes from some interval on: they alternate and abut |
| `Retention.Store.Purge` | src/twin/mes/store.py:468-509 | the twelve deletes in order leave what each table should keep, and return the counts of each and in all |
| `Retention.StepsMakeThePurge` | src/twin/mes/store.py:477-500 | the deletes one after another keep exactly what the purge is meant to keep |
| `Retention.RefsHoldThroughout` | src/twin/mes/store.py:477-500 | no child row lacks its parent after any of the deletes |
| `Retention.LiveRowsStay` | src/twin/mes/store.py:468-476 | current batches, open run intervals, uncleared alarms and everything not older than the cutoff stay, in all twelve tables |
| `Retention.OldRowsGo` | src/twin/mes/store.py:477-500 | what is left is not old: every row of every table that a purge should delete is gone |
| `Retention.PurgesCompose` | src/twin/mes/store.py:468-509 | a purge followed by a later one equals the later one alone |
| `Retention.CountIsTableLoss` | src/twin/mes/store.py:477-509 | each count of a purge is the number of rows its table loses |
| `Retention.CountsAdd` | src/twin/mes/store.py:477-509 | table by table, the counts of a purge and of a later one add up to those of the later one alone; a purge repeated counts nothing |
| `Crc.ComputeCrc16` | src/twin/common/modbus.py:39-46 | the shift loop computes the reference register |
| `Crc.CrcOkIffZeroResidue` | src/twin/common/modbus.py:49-54 | a frame of at least 4 bytes passes exactly when the CRC of the whole frame is 0 |
| `Crc.OnlyTheTrailerIsAccepted` | src/twin/common/modbus.py:49-54 | no trailer but the one a sender appends is accepted |
| `Crc.AbsorbPermutesStates` | src/twin/common/modbus.py:39-46 | absorbing a byte is a bijection on the 16-bit states |
| `Crc.BurstRejected` | src/twin/common/modbus.py:39-54 | every error burst of at most 16 bits in a good frame is rejected |
| `Crc.TwoBytesCorruptedRejected` | src/twin/common/modbus.py:39-54 | any corruption within two neighbouring bytes is rejected, across the trailer too |
| `Crc.OddErrorsRejected` | src/twin/common/modbus.py:39-54 | any odd number of flipped bits is rejected |
| `Modbus.ParseAcceptsExactlyTheEncoding` | src/twin/common/modbus.py:73-81 | parsing yields words for exactly one PDU, their encoding |
| `Modbus.HighByteFirst` | src/twin/common/modbus.py:57-70 | byte by byte what requests, answers and exceptions look like: every word high byte first |
| `Modbus.ReadReturnsMemory` | src/twin/plc/runtime.py:288-307 | the client parses from the answer of the PLC the requested memory, or the right exception |
| `Modbus.ReadRtuFrame` | src/twin/common/modbus.py:84-101 | reads exactly one frame off the stream, or finds it unfinished |
| `Modbus.RtuIsSelfDelimiting` | src/twin/common/modbus.py:84-101 | a frame is cut off whole whatever follows, none of its prefixes is, and nothing else is |
| `Modbus.RtuStreamSplits` | src/twin/common/modbus.py:84-101 | any run of frames and an unfinished one comes apart into exactly those |
| `Modbus.AnswersAreWellFormed` | src/twin/common/modbus.py:65-70 | what devices answer is framed well |
| `Modbus.MbapRoundTrip` | src/twin/common/modbus.py:104-115 | a message is read back whole, whatever follows |
| `Modbus.MbapHeader` | src/twin/common/modbus.py:104-105 | byte by byte the header: id, protocol 0, length and unit |
| `Modbus.MbapPrefixFree` | src/twin/common/modbus.py:108-115 | no proper prefix of a message is taken for one |
| `Modbus.MbapStreamSplits` | src/twin/common/modbus.py:104-115 | any run of messages comes apart into exactly those |
| `StreamLink.TcpRtuLink.Read` | src/twin/plc/link.py:77-98 | one request on the connection, which closes on timeout, CRC error or foreign unit |
| `StreamLink.ModbusTcpLink.Read` | src/twin/plc/link.py:106-133 | the same with a transaction id |
| `StreamLink.RtuReadAnswersThisRequest` | src/twin/plc/link.py:77-98 | a read returns words exactly when the timely answer to this request encodes them, and leaves nothing outstanding |
| `StreamLink.RtuErrorsExactly` | src/twin/plc/link.py:77-98 | for each error when exactly a read reports it, and when the connection survives: exactly for a whole, timely answer with a good checksum from the unit asked |
| `StreamLink.TcpReadAnswersThisRequest` | src/twin/plc/link.py:106-133 | the same for Modbus TCP: transaction id, function and count must match |
| `StreamLink.TcpErrorsExactly` | src/twin/plc/link.py:106-133 | the same for Modbus TCP: the connection survives exactly words and exceptions |
| `StreamLink.StaleAnswerIsTaken` | src/twin/plc/link.py:44-45 | why the connection is closed: an answer left over on it would be taken for that to the next request of the same kind, and leave that one over in turn |
| `StreamLink.CorruptedAnswerIsRejected` | src/twin/plc/link.py:87-92 | an answer hit by a 16-bit burst that leaves its length alone yields a CRC error and a closed connection |
| `StreamLink.RtuRunPairs` | src/twin/plc/link.py:44-98 | over any run of timeouts, errors and reconnects, returned words answer the current request |
| `StreamLink.TcpRunPairs` | src/twin/plc/link.py:44-133 | the same for Modbus TCP |
| `ValueCodec.DecodeIsExact` | src/twin/common/modbus.py:132-142 | decoding with a scale 10^-k, k up to 6, rounds nothing away |
| `ValueCodec.RawIsTheWords` | src/twin/common/modbus.py:132-142 | an int16 is its word modulo 2^16 within -32768..32767, a uint32 has its high word first |
| `ValueCodec.RoundIsExact` | src/twin/common/modbus.py:120 | rounding takes the nearest integer, and the even one of two equally near |
| `ValueCodec.EncodeUndoesDecode` | src/twin/common/modbus.py:118-142 | every word pattern of every register type survives decoding and encoding |
| `ValueCodec.DecodeAfterEncode` | src/twin/common/modbus.py:118-142 | a value comes back within half a scale step, or as the end of the range it lies beyond |
| `ValueCodec.UnscaledIsCut` | src/twin/common/modbus.py:118-129 | without a scale a value is cut off toward zero and brought into the range |
| `ValueCodec.FmtParses` | src/twin/edge/core.py:28-35 | the text of a decimal parses back to it exactly |
| `ValueCodec.LosslessPath` | src/twin/mes/store.py:185-188 | registers to ledger number: nothing is lost for any pattern, type and scale |
| `MemoryMap.NeighboursSuffice` | src/twin/common/config.py:409-418 | after sorting, comparing neighbours finds every overlap |
| `MemoryMap.Validate` | src/twin/common/config.py:392-421 | accepts exactly the maps whose devices are mapped to their PLC, on disjoint spans, none missing |
| `MemoryMap.OneBlockEach` | src/twin/common/config.py:392-421 | in an accepted map every polled device has exactly one block, on the PLC that polls it |
| `ReadRanges.AcceptedMapIsSeparate` | src/twin/edge/collectors.py:48-52 | the sorted blocks and diagnostics of an accepted map do not overlap |
| `ReadRanges.Merge` | src/twin/edge/collectors.py:53-58 | merged ranges cover exactly the words of the sorted spans, overlapping or not, hold each span whole, and exceed 125 words only for a span that does; for spans that do not overlap they are disjoint and greedy |
| `ReadRanges.MergedIsMinimal` | src/twin/edge/collectors.py:48-58 | no grouping into gap-free requests within the limit needs fewer |
| `Polling.ReadGroups` | src/twin/plc/runtime.py:73-83 | one group of registers for each function code in use |
| `Polling.GroupsAreTight` | src/twin/plc/runtime.py:73-83 | a group holds every register of its items, and both its ends belong to one |
| `Polling.PackValues` | src/twin/plc/runtime.py:86-93 | collects the words of the items in configuration order |
| `Polling.PackedAreTheRegisters` | src/twin/plc/runtime.py:73-93 | reading in groups and cutting up again yields the own registers of each item |
| `Polling.FirstSuccessCounts` | src/twin/plc/runtime.py:121-141 | a group is read if and only if one of its first `retries + 1` attempts succeeds, and its words are those of the first that does |
| `Polling.CounterCycles` | src/twin/common/util.py:95-103 | the update counter runs through 1..65535 and never returns to 0 |
| `Polling.SameCounter` | src/twin/common/util.py:95-103 | two polls leave the same counter exactly when a multiple of 65535 polls lies between them |
| `Polling.DiagCountsTheFailures` | src/twin/common/util.py:95-103 | over any sequence of polls the failure count is the number of failed ones since the last success, and the counter that of as many successes |
| `Polling.PlcMemory.Write` | src/twin/plc/runtime.py:47-53 | stores the values modulo 2^16 and nothing else |
| `Polling.Point.Poll` | src/twin/plc/runtime.py:121-148 | retries each group; values and counter are written only if every group was read; a success resets the failure count and advances the counter, a failure adds one and keeps the counter |
| `Polling.PollStaysInBlock` | src/twin/plc/runtime.py:121-148 | a poll touches only the first 9 words of its block; a failed one only status and failure count |
| `PlcReader.Reader.UpdateDevice` | src/twin/edge/collectors.py:94-109 | emits the decoded block exactly when the counter is neither 0 nor the last one; always takes over status and failure count; other devices untouched |
| `PlcReader.Reader.Poll` | src/twin/edge/collectors.py:69-92 | assembles the answers of all ranges and updates diagnostics, heartbeat, mirror and every device; any failed range changes none of them |
| `PlcReader.SnapshotIsAssembled` | src/twin/edge/collectors.py:69-76 | in every interleaving the snapshot of the acquisition model is what the reader assembles from the answers it got |
| `PlcReader.PollIsFinish` | src/twin/edge/collectors.py:69-109 | what the reader does with those answers, to samples, counters and the health of the devices, is what the acquisition model does, so its theorems are about the reader |
| `PlcReader.PulseIsTheLastChange` | src/twin/edge/collectors.py:82-92 | over any polls a watched word is the one found last, and its time that of the last change |
| `Acquisition.AcceptedMapIsValid` | src/twin/edge/collectors.py:48-58 | an accepted map with blocks of at least 9 words, read by the merged ranges, meets what the next two rows need |
| `Acquisition.DecodedAreTheItems` | src/twin/edge/collectors.py:101-107 | each emitted value decodes the own registers of its item |
| `Acquisition.SamplesAreWholePolls` | src/twin/edge/collectors.py:69-109 | in every interleaving of polls and range reads, every emitted sample decodes exactly one successful poll, each later than the one before |
| `Acquisition.EmitsExactlyWhatIsNew` | src/twin/edge/collectors.py:94-109 | a completed read emits a sample exactly when a poll has succeeded since the last emission and their number is no multiple of 65535 |
| `DeviceHealth.BlockShowsTheLastPoll` | src/twin/plc/runtime.py:121-148 | in every interleaving the first two words of a block are the status of the last poll of the device, failed or not, and the number of failed polls since the last success, or 65535 if there are more |
| `DeviceHealth.DiagShowsTheBeats` | src/twin/plc/runtime.py:241-274 | in every interleaving a word of the diagnostics area is what was last written to it, which no poll disturbs |
| `DeviceHealth.ReaderKeepsTheHealth` | src/twin/edge/collectors.py:82-97 | in every interleaving, after a completed read the status and failure count kept for a device are those the last poll before the read of its block wrote, whether it succeeded or failed |
| `LiveView.WsHub.Publish` | src/twin/mes/hub.py:30-39 | values of one equipment are merged in place, everything else is queued |
| `LiveView.WsHub.Flush` | src/twin/mes/hub.py:66-91 | hands over the queue, the merged values and the slower messages, and empties the hub |
| `LiveView.PublishedIsApplied` | src/twin/mes/hub.py:30-39 | what waits in the hub after a publish brings a browser to the same view as before plus the message |
| `LiveView.NothingIsLost` | dashboard/src/lib/store.ts:31-72 | at every moment the browser lacks exactly what still waits in the hub |
| `LiveView.ConflationIsInvisible` | dashboard/src/lib/store.ts:31-72 | after each flush values, alarms, status, summaries and last alarm are as if every message had been sent by itself |
| `LiveMeaning.SummaryIsTheLast` | dashboard/src/lib/store.ts:31-72 | after any messages the summary is that of the last summary or snapshot, or else what it was |
| `LiveMeaning.TopologyIsTheLast` | dashboard/src/lib/store.ts:31-72 | the same for the topology |
| `LiveMeaning.BufferIsTheLast` | dashboard/src/lib/store.ts:31-72 | the buffer is that of the last buffer message; a snapshot does not touch it |
| `LiveMeaning.StatusIsTheLast` | dashboard/src/lib/store.ts:31-72 | the state of a device is that of the last message about it since the last snapshot, or what that snapshot says |
| `LiveMeaning.AlarmIsTheLast` | dashboard/src/lib/store.ts:31-72 | an alarm is as the last message about it since the last snapshot says, or that snapshot |
| `LiveMeaning.LastAlarmIsTheLastNew` | dashboard/src/lib/store.ts:31-72 | `lastAlarmId` is the number of the last alarm that came raised and that the view did not have before, or else unchanged |
| `LiveMeaning.ValueIsTheLast` | dashboard/src/lib/store.ts:31-72 | a value is that of the last message about its equipment that carries it, or of the last snapshot |
| `LiveMeaning.RestIsTheLast` | dashboard/src/lib/store.ts:31-72 | what is shown beside the values comes from the last message about the equipment |
| `LiveJoin.JoinExact` | src/twin/mes/hub.py:41-44 | a browser that joins, whatever has been published and flushed since its snapshot, is in step if and only if the snapshot with what waits in the hub shows everything published |
| `LiveJoin.JoinerCatchesUp` | src/twin/mes/app.py:324-337 | with no flush between snapshot and join it shows from then on the values and open alarms of one that is sent every message, but for what still waits |
| `LiveJoin.FlushedWhileJoining` | src/twin/mes/hub.py:41-44 | if the hub flushes right before the join, the browser is in step if and only if nothing it shows changed since its snapshot |
| `LiveJoin.ValueMissed` | src/twin/mes/hub.py:41-44 | so a value sent while a browser joins is missed there |
| `LiveJoin.StatusExact` | src/twin/mes/hub.py:82-87 | after the states are sent a browser has one right if and only if it differed from what the hub sent last, or the browser had it right before |
| `LiveJoin.JoinedStatus` | src/twin/mes/hub.py:82-87 | so for a browser that joins: if and only if it differed, or the snapshot had it right |

## Left out

- RtuRunPairs: a peer that sends more than one frame for a request is outside the claim; so is a read that is cancelled while the link stays in use.
- TcpRunPairs: the wrap of the transaction id is not used; pairing already follows from the connection being quiet.
- Validate: takes maps and equipment lists without repeated keys, as dictionaries and the earlier duplicate check guarantee; the other checks of the configuration are not modelled.
- RoutedAsSampled: for equipment without an NG count; urgent samples overtake older ones, so no order in time holds across priorities. What remains then is SamplesRoutedOnce.
- CallsAreThePolls: one lifetime of PLC and Edge, as the next line.
- EmitsExactlyWhatIsNew: one lifetime of PLC and Edge; a restart of either resets its counter.
- Write: does not keep the times of changes, which nothing in the code reads.
- Sockets, asyncio scheduling, httpx, FastAPI routes, OPC-UA, the ASCII scale and serial ports (`SerialPortLink` does not close on timeout): outside code; delivery and connections are modelled as delivered, lost, late, open or closed.
- SQLite: transactions, WAL, VACUUM, file sizes and the purge log entry.
- Binary floating point: engineering values, percentages and `elapsed_hours` are exact, and scales are 10^-k with k up to 6; other scales and the `float` type are not modelled.
- The text form of message ids (`<edge id>-<number>`), tag addresses, units and other fields carried along unexamined; several Edges at one MES.
- Negative or too large memory addresses in a configuration, on which the code fails with an index error.
- The field simulators, fault injection, random numbers, and the counts of filtered values.
- Metal detector counts, weights, salinity and environment rows: the handlers of `route` other than their alarm checks, tank batches and run intervals; the time stamps and the buffer history the browser adds by itself.
- Alarm texts and values, which no decision depends on, and the row counts of the purge log.
- The device status code (a judgement over time windows), which a poll takes as given, and the topology and summary views.
- Backoff growth, intervals between polls, purges and flushes, logging, and configuration file reading.
