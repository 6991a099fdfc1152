# A Dafny model of the ChirpStack Network Server's session, queue and scheduling core

ChirpStack Network Server is a LoRaWAN network server: it accepts uplinks that several gateways
heard, keeps one session per device, and schedules downlinks back through the gateways. This
project models the part of it where a mistake loses or duplicates a frame, and proves what that
part keeps over every input and every run.

| module | models |
|---|---|
| `Deduplication` | server instances that share one Redis set and one lock per received frame |
| `DevAddrIndex` | device sessions in Redis and the index by which a device address finds them |
| `UplinkSession` | 32-bit frame counters from 16 received bits, choice of the session, uplink history, packet loss |
| `Adr` | the default adaptive data-rate algorithm that reads this history |
| `DeviceQueue`, `NextQueueItem` | the downlink queue of a device and the loop that finds a usable item in it |
| `MacCommand`, `DownlinkFrame` | bytes of MAC commands, and packing them with a payload into a frame |
| `DownlinkAck` | gateway acknowledgements, the counters and queue rows they move, and the device's own acknowledgement |
| `DownlinkNotifications` | interleavings of processes that notify the application server about queue rows |
| `MacFilter`, `ChannelReconfiguration` | which MAC commands are sent, refusals, and channel changes in batches of three |
| `Gps`, `ClassB`, `MulticastQueue` | leap seconds, ping slots, and spacing of multicast frames over them |
| `GatewaySet` | the gateway cover computed with Kruskal's algorithm |
| `Options`, `Common` | option and result types; units, widths and facts that several modules share |

Code that updates an object, a table or a slice is modelled by methods with loops and by classes
whose fields are the updated state; each such method is proved against a specification, and the
lemmas then say what that specification means. Protocols between processes are state machines
whose steps are the single Redis commands or SQL statements, with runs as sequences of steps.
Redis expiry is a virtual clock in the state. AES, MIC, payload-size tables and the
re-encryption done by the application server are arbitrary functions; the last one only has to
return the same items in order, with payloads of the same length, numbered from the requested
counter. Time is fixed within one call. SNR values, weights and percentages are real numbers.

## Where the code does not do what is expected of it

Each of these is proved, by a lemma or in the contract of a method; most state the exact condition under
which the expected behaviour holds.

- A leader's batch need not hold its own frame. It always does exactly when the longest time from
  put to lock plus the longest collect time stays below the lock's time to live
  (`OwnFrameAlwaysReadIff`).
- Not every copy is delivered. A frame reaches a batch exactly when some copy of it is read before
  the next DEL and before a time to live has passed without any put (`DeliveredIff`), which holds for every copy put between a
  leader's lock and its read (`LeaderReadsEveryCopy`). Copies put between SMEMBERS and DEL, or after
  the DEL while the lock lives, are lost (`LateCopyIsLost`, `CopyBehindDelIsLost`).
- Two leaders collect at the same time exactly when a collect may last as long as the lock
  (`NeverTwoCollectIff`).
- A 32-bit counter is recovered over gaps of up to 65534 lost frames, and in two exceptional
  cases beyond (`AcceptedIff`).
- `GetMinimumGatewaySet` is documented to return the minimum set. It returns a cover that can be
  larger (`NotMinimum`). Where one gateway could serve all devices, the result is sure to be minimal
  exactly when there is one device or such a gateway exceeds every other candidate in devices covered
  plus star edges (`SmallestWhereOneSufficesIff`, `ChosenAloneIff`); in general it is minimal when as
  many devices as chosen gateways share no candidates (`SmallestWhenIndependent`). Its weight is
  documented as one over the number of devices covered, but the degree also counts the edges between
  gateways, which favours the hub (`HubIsFavoured`).
- GPS to UTC is not monotone; `GpsToUtcStepsBackIff` says for which pairs of instants.
- Before the GPS epoch the ping-slot search can skip slots (`SearchFindsNextSlotIff`), and shortly
  after a beacon start it does so for every receiver (`SearchSkipsSlots`).
- An acknowledgement that finds its queue item deleted leaves the counter where it is. A downlink
  counter is used twice exactly when this happens to a frame and another frame of its kind is sent
  later (`CountersReusedIff`, `CounterReused`).
- A negative acknowledgement from a legacy gateway should make the server send the second window.
  With the usual two windows nothing is sent, because the first of two tasks shortens the list
  that the second one counts (`RetryLegacy`).
- A device's acknowledgement of a confirmed downlink is compared with the network counter only. It
  completes the item of a LoRaWAN 1.0 device exactly when nothing was sent in between, and that of
  a 1.1 device only when the two counters coincide (`UplinkAckCompletesIff`).
- A queue row causes at most one notice, but a message can cause two. That takes a deletion of the
  message between the reading and the replacing of the queue by one rebuild
  (`MessageNotifiedTwiceOnlyIf`), and whenever this happens, to any message of any device, the run can
  go on to a second notice (`ResurrectedIsNotifiedAgain`). `MessageNotifiedTwice` is such a run:
  reported as delivered, then as timed out.
- Removing a stale index entry while the device is being saved makes the new session unfindable
  (`RemoveFromIndex` with its exact condition, `SaveBetweenGetAndRemoval` for the run).
- The queue loop loses items in one case: a Class-B device without ping slots, inside the
  scheduler's transaction, which commits after an error, with a first item that is left after the
  droppable ones and has a wrong counter or a past emission time (the contract of
  `NextQueueItem.Downlink.GetNextDeviceQueueItem`).

## Model

| member | source | states |
|---|---|---|
| NextQueueItem.Downlink.GetNextDeviceQueueItem | internal/downlink/data/data.go:753-1005 | the loop ends on every queue; exactly the timed-out or too large items in front are dropped, each with one notice that names its own counter and the reason; every other item is still queued in its old order, untouched unless the next one needs new counters or times; renumbered items hold what the application server has encrypted for the new counters; it says exactly when no item is returned and when items are lost |
| NextQueueItem.ReturnedMeans | internal/downlink/data/data.go:801-827 | the returned item has the expected counter, fits the window, has not timed out and emits later or at once; it carries the first remaining item's payload, or the server's reply for it |
| NextQueueItem.DroppedMeans | internal/downlink/data/data.go:842-893 | an item is dropped exactly when its timeout has passed or it exceeds the window, unless the device may still acknowledge it, and the notice names the timeout first |
| NextQueueItem.Downlink.RebuildQueue | internal/downlink/data/data.go:895-1003 | a wrong counter renumbers the queue and otherwise a past emission time reschedules it; on an error of the application server nothing changes |
| NextQueueItem.Downlink.ReEncryptQueue | internal/downlink/data/data.go:895-961 | every row holds the payload the application server returned for its item, numbered consecutively from the expected counter; an error leaves the queue as it was, except for a failed insert inside the scheduler's transaction |
| NextQueueItem.Downlink.Reschedule | internal/downlink/data/data.go:963-1003 | the same frames with the same counters, none pending, timed out or with an emission time in the past; fails exactly for a Class-B device without slots |
| NextQueueItem.Downlink.Rebuild | internal/downlink/scheduler.go:67-108 | a failed rebuild is undone in the caller's own transaction, and leaves an empty queue in the scheduler's, which commits after an item's error |
| NextQueueItem.Downlink.DropHeadAndNotify | internal/downlink/data/data.go:842-897 | exactly the first item leaves the queue, and exactly one notice is added |
| NextQueueItem.ProgressDrop | internal/downlink/data/data.go:842-897 | a drop takes exactly the first of the items that are left, adds its notice, and never follows a rebuild |
| NextQueueItem.ProgressRebuild | internal/downlink/data/data.go:895-1003 | rebuilding loses, adds and reorders nothing and makes the first item usable, so the next round returns it |
| NextQueueItem.EndsWithoutSlots | internal/downlink/data/data.go:946-957 | a rebuild that is reached and fails for lack of slots loses the remaining items in the scheduler's transaction and keeps them otherwise |
| NextQueueItem.ExpectedStaysFirstIff | internal/storage/device_queue.go:234-236 | after a re-encryption the item with the expected counter is read first if and only if the new counters do not roll over |
| DeviceQueue.Queue.CreateDeviceQueueItem | internal/storage/device_queue.go:49-128 | a row is stored in counter order with port other than 0; a Class-B item without times gets the very next ping slot after the last queued one and a timeout counted from it |
| DeviceQueue.Queue.Store | internal/storage/device_queue.go:84-119 | the row gets an unused id and the table stays ordered by counter |
| DeviceQueue.Queue.GetNextDeviceQueueItem | internal/storage/device_queue.go:236-268 | an item whose counter no queued item undercuts, not awaiting an acknowledgement, and whether more are queued; none exactly when the queue is empty or an item of smallest counter awaits one |
| DeviceQueue.Queue.DeleteDeviceQueueItem | internal/storage/device_queue.go:197-216 | removes exactly the row with the id, and reports a missing one |
| DeviceQueue.Queue.GetDeviceQueueItem | internal/storage/device_queue.go:131-138 | the row with the id, or an error exactly when there is none |
| DeviceQueue.Queue.UpdatePending | internal/storage/device_queue.go:141-194 | changes the pending state and timeout of exactly the row with the id |
| DeviceQueue.Queue.Requeue | internal/downlink/data/data.go:931-951 | after a flush the queue holds the same frames in the same order with new ids and no time in the past; it fails exactly when a Class-B device has no slots, and is then empty |
| Common.MaxEmitAt | internal/storage/device_queue.go:402-418 | the greatest emission time of a queue, 0 when there is none |
| DeviceQueue.InsertLast | internal/storage/device_queue.go:236-252 | read in counter order, a new row of greatest counter comes last, after those with an equal one |
| DeviceQueue.StoredIsFresh | internal/storage/device_queue.go:54-82 | a row created without times carries the item unchanged, is not pending, emits at once or in the future, and has not timed out |
| DeviceQueue.StoredMeans | internal/storage/device_queue.go:54-82 | an item is scheduled exactly when it has no times and the device is in Class-B with beacon lock: in a slot more than five seconds after every queued emission, or after now, with the Class-B timeout counted from it |
| DeviceQueue.ScheduleAfterMeans | internal/storage/device_queue.go:57-70 | the search starts five seconds after the latest queued emission, or after now when there is none |
| DeviceQueue.InsertMeans | internal/storage/device_queue.go:245-247 | a new row comes in front of the first one of greater counter, all others keep their order |
| DeviceQueue.LaterInUtc | internal/storage/device_queue.go:69-81 | the scheduling margin outweighs what the conversion from GPS time loses, so a timeout counted from the slot lies in the future |
| DeviceQueue.Removed | internal/storage/device_queue.go:197-216 | deleting a row keeps the order and takes away the rows of that id only |
| GatewaySet.GetMinimumGatewaySet | internal/downlink/multicast/min_gw_set.go:19-76 | whatever the iteration order and the order of equal weights: every heard device is served by one of its candidates of greatest degree, no other gateway is chosen, and there are at most as many gateways as devices |
| GatewaySet.Kruskal | internal/downlink/multicast/min_gw_set.go:43-44 | the forest holds all star edges and exactly the first edge of each device |
| GatewaySet.KruskalStep | internal/downlink/multicast/min_gw_set.go:43-44 | in order of weight every edge starts in the hub's component, and it joins a new node exactly when it is a star edge or its device's first |
| GatewaySet.UnionRepresents | internal/downlink/multicast/min_gw_set.go:43-44 | merging two classes of which one is the hub's keeps equal representatives equivalent to being joined to the hub |
| GatewaySet.GetGatewaySet | internal/downlink/multicast/min_gw_set.go:78-92 | every gateway of any reception, once |
| GatewaySet.AddDeviceEdges | internal/downlink/multicast/min_gw_set.go:115-151 | a device is joined to exactly the gateways that heard it with the required SNR, or to all that heard it when none did |
| GatewaySet.HeardWellMeans | internal/downlink/multicast/min_gw_set.go:115-151 | a gateway heard a device well when the SNR less the installation margin reaches -5 dB for spreading factor 6 and 2.5 dB less for each further one |
| GatewaySet.CandidatesMean | internal/downlink/multicast/min_gw_set.go:129-149 | a gateway is a candidate exactly when it heard the device well, or heard it and no gateway heard it well |
| GatewaySet.CandidatesShift | internal/downlink/multicast/min_gw_set.go:124-127 | raising the margin and all SNRs alike changes no candidate |
| GatewaySet.ForestAssigns | internal/downlink/multicast/min_gw_set.go:43-68 | each heard device has exactly one forest edge, to a candidate of greatest degree |
| GatewaySet.AssignOne | internal/downlink/multicast/min_gw_set.go:43-68 | the first edge of a heard device leads to a candidate, and to no candidate of smaller degree than another |
| GatewaySet.LighterHasGreaterDegree | internal/downlink/multicast/min_gw_set.go:172-182 | an edge that is not heavier leads to a gateway of no smaller degree |
| GatewaySet.ChosenCover | internal/downlink/multicast/min_gw_set.go:17-19 | for every device that was heard, a gateway that heard it is chosen |
| GatewaySet.ServedWell | internal/downlink/multicast/min_gw_set.go:117-149 | a device that some gateway heard with the required SNR is served by a gateway that did |
| GatewaySet.DegreeIs | internal/downlink/multicast/min_gw_set.go:170-182 | the degree is the number of devices covered plus the gateway's star edges |
| GatewaySet.HubIsFavoured | internal/downlink/multicast/min_gw_set.go:170-182 | the exact number of devices by which another gateway must lead to be preferred over the hub |
| GatewaySet.NotMinimum | internal/downlink/multicast/min_gw_set.go:17-19 | an input for which two gateways are chosen although one covers all devices |
| GatewaySet.ChosenAloneIff | internal/downlink/multicast/min_gw_set.go:17-19 | a gateway that covers all heard devices is chosen alone, for every order of equal weights, if and only if it exceeds each other candidate in devices covered plus star edges |
| GatewaySet.SmallestWhereOneSufficesIff | internal/downlink/multicast/min_gw_set.go:17-19 | where one gateway could do, the result is always a single gateway if and only if there is one device or such a gateway dominates |
| GatewaySet.SmallestWhenIndependent | internal/downlink/multicast/min_gw_set.go:17-19 | no cover is smaller than the result when as many devices as chosen gateways, or all devices, share no candidates |
| GatewaySet.CoverNotSmaller | internal/downlink/multicast/min_gw_set.go:17-19 | devices without a common candidate need a gateway each |
| GatewaySet.EveryChoiceHappens | internal/downlink/multicast/min_gw_set.go:43-68 | each assignment of devices to best candidates is the outcome of some order of the edges by weight, so no more can be promised |
| Deduplication.LocksAlwaysApart | internal/uplink/collect.go:134-150 | in every run, two processes that acquired the lock did so at least its time to live apart |
| Deduplication.ReadTakesEveryPut | internal/uplink/collect.go:116-169 | a batch holds every frame put since the last DEL and less than the time to live ago |
| Deduplication.CollectsOnce | internal/uplink/collect.go:35-72 | when each collect ends within the lock's time to live, no two overlap and a frame reaches at most as many callbacks as it was put |
| Deduplication.NeverTwoCollectIff | internal/uplink/collect.go:35-72 | in all runs at most one process collects if and only if the limit on collecting is below the time to live |
| Deduplication.LimitsStep | internal/uplink/collect.go:134-150 | a lock is acquired only when every earlier leader has finished |
| Deduplication.AccountedStep | internal/uplink/collect.go:116-169 | every step keeps the account of puts, unread copies and batches of a frame |
| Deduplication.OwnFrameRun | internal/uplink/collect.go:35-72 | within the limits, every batch of every run holds its leader's own frame |
| Deduplication.OwnFrameAlwaysReadIff | internal/uplink/collect.go:35-72 | this holds of all runs if and only if the two latency limits together stay below the time to live |
| Deduplication.OwnFrameLost | internal/uplink/collect.go:152-169 | otherwise a run in which a leader reads a set without its own frame |
| Deduplication.MembersIff | internal/uplink/collect.go:116-132 | the set holds exactly the frames of the puts that no DEL and no time to live without a put has followed |
| Deduplication.ExpiryIs | internal/uplink/collect.go:116-132 | the set lives exactly while the latest put of any frame is less than the time to live ago |
| Deduplication.DeliveredIff | internal/uplink/collect.go:116-169 | in every run a frame reaches a batch if and only if a Read follows one of its puts before the next DEL and before a time to live without a put, all in terms of events |
| Deduplication.LeaderReadsEveryCopy | internal/uplink/collect.go:35-72 | in every run with collects shorter than the time to live, a batch holds every copy put after its leader's lock and before its read |
| Deduplication.ReadWaits | internal/uplink/collect.go:62-64 | in every run at least the de-duplication delay passes between a lock acquisition and the read of that process |
| Deduplication.CopiesWithinDelayAreCollected | internal/uplink/collect.go:35-72 | with collects shorter than the time to live, every copy put less than the delay after a leader's lock is in its batch once it has read |
| Deduplication.TtlIs | internal/uplink/collect.go:46-51 | keys live at least 200 ms and twice the delay, and no longer |
| Deduplication.LateCopyIsLost | internal/uplink/collect.go:152-169 | a run within any limits in which a copy put between SMEMBERS and DEL reaches no callback |
| Deduplication.CopyBehindDelIsLost | internal/uplink/collect.go:134-169 | a run within any limits in which a copy put after the DEL, while the lock lives, stays unread |
| UplinkSession.FullFCntUnique | internal/storage/device_session.go:310-319 | the result is the one counter with the received low bits among the 65536 that start one before the expected counter |
| UplinkSession.FullFCntCases | internal/storage/device_session.go:310-319 | high and low part of the result spelled out, with roll-over of the low bits and repetition across it |
| UplinkSession.FullFCntInWindow | internal/storage/device_session.go:310-319 | the result is a 32-bit counter with the received low bits inside the window |
| UplinkSession.GetDeviceSessionForPHYPayload | internal/storage/device_session.go:486-551 | the first session that verifies under the reconstructed or the received counter decides alone; none verifying names the first session |
| UplinkSession.TryCounters | internal/storage/device_session.go:513-525 | verifies exactly if one of the two counters does, the reconstructed one being preferred |
| UplinkSession.AcceptedIff | internal/storage/device_session.go:486-551 | exactly which signed counters a session accepts; any other frame leaves the session unchanged |
| UplinkSession.ReceiveMeans | internal/storage/device_session.go:501-551 | for every session, counter checks skipped or not: exactly which counters verify, are found, are a retransmission, or mean a counter reset, and when the found session is reset |
| UplinkSession.ClassifyMeans | internal/storage/device_session.go:527-543 | a verified frame below the expected counter resets the session if checks are skipped, and else is a retransmission of the last frame or an older one |
| UplinkSession.FoundSession | internal/storage/device_session.go:527-543 | a found session is reset exactly when the counter is below the expected one and checks are skipped |
| UplinkSession.AfterFCntUp | internal/uplink/data/data.go:647-651 | the session expects the counter after the signed one if the frame is accepted, and the same as before if not |
| UplinkSession.AcceptedAscend | internal/uplink/data/data.go:647-651 | over every run of frames in any order, accepted counters strictly increase and the session expects the one after the last |
| UplinkSession.AcceptsEveryRecord | internal/storage/device_session.go:299-319 | with at most 65534 consecutive losses, exactly the frames of a new highest counter are accepted, under the device's own 32-bit counter |
| UplinkSession.DataContext.SetUplinkDataRate | internal/uplink/data/data.go:299-311 | a changed data-rate resets power index and history, an unchanged one nothing |
| UplinkSession.DataContext.AppendUplinkHistory | internal/storage/device_session.go:188-201 | unless it repeats the last counter the entry becomes the last one, behind the latest of the old ones, 20 in all at most |
| UplinkSession.DataContext.AppendMetaDataToUplinkHistory | internal/uplink/data/data.go:319-337 | the appended entry holds the greatest SNR over all gateways, their number and the current power index |
| UplinkSession.DataContext.SyncUplinkFCnt | internal/uplink/data/data.go:647-651 | afterwards the same frame received again is recognised as a retransmission, and each of the next 65535 counters is reconstructed and accepted as the new one it is |
| UplinkSession.DataContext.HandleAccepted | internal/uplink/data/data.go:299-337 | the three updates together give the session that the run lemmas reason about |
| UplinkSession.TracksStep | internal/uplink/data/data.go:299-337 | one frame, accepted or not, keeps the history equal to the latest entries of the log |
| UplinkSession.HistoryTracks | internal/storage/device_session.go:188-201 | over every run the history is a suffix of the frames accepted since the last reset, of 20 if there are so many, in strictly increasing counter order |
| UplinkSession.AcceptedIsLast | internal/uplink/data/data.go:299-337 | after an accepted frame the history ends with it, its greatest SNR and gateway count, and the session has its data-rate and expects the next counter |
| UplinkSession.GetPacketLossPercentage | internal/storage/device_session.go:208-226 | the wrapping loss sum as a percentage of a full history, 0 before it is full |
| UplinkSession.LostPacketsTelescopes | internal/storage/device_session.go:213-225 | the wrapping sum equals last minus first counter minus the steps |
| UplinkSession.LostPacketsExact | internal/storage/device_session.go:213-225 | the wrapping sum is the exact number of missing counters |
| UplinkSession.LossOfRun | internal/storage/device_session.go:208-226 | after every run the loss counts exactly the counters missing from the history |
| DevAddrIndex.SessionStore.SaveDeviceSession | internal/storage/device_session.go:323-368 | replaces exactly that device's session, and the index stays complete even when its address changed |
| DevAddrIndex.SessionStore.GetDeviceSession | internal/storage/device_session.go:371-389 | a session that can be read is that of the device and is found by each of its addresses; one that cannot be read is found by none |
| DevAddrIndex.SessionStore.DeleteDeviceSession | internal/storage/device_session.go:392-408 | removes exactly that session, reports a missing one, and keeps the index complete |
| DevAddrIndex.SessionStore.Advance | internal/storage/device_session.go:339-366 | expiry of keys never makes a live session unfindable |
| DevAddrIndex.SessionStore.RemoveFromIndex | internal/storage/device_session.go:427-437 | the index stays complete if and only if the device has no live session with the address |
| DevAddrIndex.SessionStore.SaveBetweenGetAndRemoval | internal/storage/device_session.go:422-432 | a save between the failed read and the removal leaves a live session that its address no longer finds |
| DevAddrIndex.SessionStore.TakeMember | internal/storage/device_session.go:423-456 | one member gives its own session, its pending one, both or none, as their addresses match |
| DevAddrIndex.SessionStore.GetDeviceSessionsForDevAddr | internal/storage/device_session.go:413-459 | the same sessions as a scan of all live ones, each exactly once, stale entries removed on the way |
| MacCommand.ParseOfMarshal | internal/storage/mac_command.go:46-81 | unmarshalling undoes marshalling for commands of the tabled sizes |
| MacCommand.MarshalOfParse | internal/storage/mac_command.go:46-81 | marshalling what was unmarshalled gives the same bytes, all of them |
| MacCommand.ParsesIff | internal/storage/mac_command.go:59-81 | bytes are accepted if and only if they encode some sequence of the tabled sizes, and that sequence is unique |
| MacCommand.FirstCommand | internal/storage/mac_command.go:59-81 | a command is its identifier and as many bytes as the size table says, none for an unknown one, and is cut short exactly when these are missing |
| MacCommand.MarshalBinary | internal/storage/mac_command.go:46-56 | the bytes that ParseOfMarshal and MarshalOfParse are about |
| MacCommand.UnmarshalBinary | internal/storage/mac_command.go:59-81 | appends the parsed commands after those already there, and fails exactly on a command that is cut short |
| MacCommand.Size | internal/storage/mac_command.go:30-40 | the length of the block's encoding |
| DownlinkFrame.SetPHYPayloads | internal/downlink/data/data.go:1289-1377 | every window is packed by itself, with the longest prefix of blocks that fits it |
| DownlinkFrame.PackWindow | internal/downlink/data/data.go:1293-1377 | blocks are the longest fitting prefix; the item is carried exactly when FRMPayload is free and it fits what is left |
| DownlinkFrame.LongestFitUnique | internal/downlink/data/data.go:1297-1317 | no other number of blocks is a longest fit, and every longer prefix is too large |
| DownlinkFrame.PackedWithinLimits | internal/downlink/data/data.go:1322-1377 | FOpts and FRMPayload together stay within the window and FOpts within 15 bytes; MAC commands use port 0 exactly when they exceed 15 bytes, and then exclude the payload |
| DownlinkFrame.FrameMeans | internal/downlink/data/data.go:1322-1377 | in bytes: the item is carried exactly when the commands take at most 15 and leave it room, and then with its own port, counter and confirmation; commands are all in FOpts or all in FRMPayload |
| DownlinkFrame.PrefixCommandsAre | internal/downlink/data/data.go:1295-1314 | the carried commands are those of the first blocks, block after block and in order |
| DownlinkFrame.PendingIff | internal/downlink/data/data.go:1322-1377 | pending data is announced if and only if an item known to be queued is not in the frame |
| DownlinkFrame.CarriesCurrentCounter | internal/downlink/data/data.go:1322-1377 | a frame carries the current value of the counter of its kind |
| DownlinkFrame.PrefixCommandsSize | internal/storage/mac_command.go:30-40 | the block sizes add up to the encoded length of the commands in the frame |
| DownlinkAck.Device.HandleDownlinkTXAck | internal/downlink/ack/ack.go:32-151 | nothing moves unless a data frame of the device was sent; then exactly that frame's counter advances and its queue item is completed, and in each named error nothing does |
| DownlinkAck.Device.AckStatus | internal/downlink/ack/ack.go:111-136 | the status is that of the first sent window, of the last one when none was sent, and that of the error name for a legacy gateway |
| DownlinkAck.Device.SelectFrame | internal/downlink/ack/ack.go:275-317 | the frame of the window that decides the status; no windows, or more statuses than windows, is an error |
| DownlinkAck.Device.AckApplication | internal/downlink/ack/ack.go:67-84 | advances one counter and removes an unconfirmed item or leaves a confirmed one pending with its timeout; an unreachable application server rolls the queue back but not the saved session |
| DownlinkAck.Device.AckMacOnly | internal/downlink/ack/ack.go:459-462 | advances the network counter and nothing else |
| DownlinkAck.Device.RetryLegacy | internal/downlink/ack/ack.go:335-370 | with two stored windows the first is dropped and none is sent; a window is sent only when three are stored, and then the third |
| DownlinkAck.StatusMatchesSelection | internal/downlink/ack/ack.go:111-317 | the whole counts as sent if and only if some window was, and the selected window is the first such |
| DownlinkAck.SelectedWindowMeans | internal/downlink/ack/ack.go:297-314 | the first sent window, else the last reported one, and the first of the downlink for a legacy gateway |
| DownlinkAck.ReportsSentMeans | internal/downlink/ack/ack.go:111-317 | exactly when an acknowledgement says that a data frame of the device was sent |
| DownlinkAck.ApplicationErrorMeans | internal/downlink/ack/ack.go:67-84 | exactly which missing part stops the completion of a sent application frame |
| DownlinkAck.AwaitingMeans | internal/downlink/ack/ack.go:425-443 | a sent confirmed item is held back for the Class-C timeout, has timed out a moment later in Class-A, and keeps a Class-B timeout |
| DownlinkAck.AdvancedMeans | internal/downlink/ack/ack.go:450-462 | an application frame of a 1.1 device advances the application counter, every other frame the network counter, by one |
| DownlinkAck.AdvancedIs | internal/downlink/ack/ack.go:450-462 | exactly the counter whose value the frame carried advances, by one |
| DownlinkAck.CountersReusedIff | internal/downlink/ack/ack.go:416-462 | over every run with one downlink under way at a time, two sent frames share a counter kind and value if and only if a frame whose item was gone is followed by another of its kind |
| DownlinkAck.CountersNeverReused | internal/downlink/ack/ack.go:450-462 | so none do while every acknowledgement finds its item |
| DownlinkAck.CountGrows | internal/downlink/ack/ack.go:450-462 | the counter of a kind never falls and stands still only behind frames whose item was gone |
| DownlinkAck.DownlinkIsStep | internal/downlink/ack/ack.go:32-151 | packing the selected item into a frame and handling its acknowledgement is a step of these runs, with the session's own counters |
| DownlinkAck.CounterReused | internal/downlink/ack/ack.go:416-423 | the exception: a run in which the item is gone before its acknowledgement and the next frame repeats the counter |
| DownlinkAck.Device.HandleUplinkAck | internal/uplink/data/data.go:658-695 | removes the head and reports it exactly when it is pending under the counter before the network counter; otherwise nothing changes and nobody is told |
| DownlinkAck.UplinkAckCompletesIff | internal/uplink/data/data.go:658-695 | for a LoRaWAN 1.0 device the confirmed downlink is completed if and only if nothing else was sent in between, for 1.1 if and only if the two counters coincide |
| DownlinkNotifications.RowNotifiedOnce | internal/storage/device_queue.go:197-216 | under every interleaving a queue row causes at most one notice, so never both acknowledged and timed out |
| DownlinkNotifications.NoticesAreTrue | internal/uplink/data/data.go:658-695 | under every interleaving an acknowledgement notice is about a confirmed item that waited for the device, and a timeout notice about one whose timeout has passed |
| DownlinkNotifications.MessageNotifiedTwiceOnlyIf | internal/downlink/data/data.go:901-1003 | a message is notified twice only if it was deleted between a rebuild's reading, which found it, and the replacing by the same rebuild |
| DownlinkNotifications.ResurrectedIsNotifiedAgain | internal/downlink/data/data.go:901-1003 | conversely, from every run in which a rebuild puts back a message deleted since it read the queue, of any device and kind, the run can go on to a second notice, for its timeout if it is confirmed or of a Class-B device and for its size otherwise |
| DownlinkNotifications.ShapedStep | internal/downlink/data/data.go:842-893 | every step keeps that only rows which can be noticed are held or deleted for a notice |
| DownlinkNotifications.ResurrectedMeans | internal/downlink/data/data.go:901-1003 | a put-back message was deleted between a ReadQueue that found it and the next ReplaceQueue of that process |
| DownlinkNotifications.MessageNotifiedTwice | internal/uplink/data/data.go:658-695 | for every confirmed message a run, guarded by pending state, counters and timeouts as in the code, that reports it as delivered and then as timed out |
| DownlinkNotifications.ClearUntil | internal/downlink/data/data.go:753-1005 | from any queue of rows as they are queued, timing out, dropping or sending one after the other removes a given one with its notice |
| DownlinkNotifications.SoundStep | internal/storage/device_queue.go:197-216 | every step of every process keeps each row, and each message not put back, in at most one of queue, pending notices and sent notices |
| DownlinkNotifications.DeleteOnce | internal/storage/device_queue.go:197-216 | a successful delete moves a row from the queue to the pending notices without a copy left behind |
| MacFilter.FilterIncompatibleMACCommands | internal/downlink/data/data.go:1007-1028 | keeps, in order, exactly the blocks that no surviving table entry excludes |
| MacFilter.FilterResolvesConflicts | internal/downlink/data/data.go:1007-1028 | for any table, the result holds no conflicting pair |
| MacFilter.ExcludedOnlyFor | internal/downlink/data/data.go:1007-1028 | a command is dropped only for a table entry whose command is present |
| MacFilter.ShippedTable | internal/downlink/data/data.go:46-54 | link-ADR requests are dropped exactly when a new-channel request is present; nothing else ever is |
| MacFilter.DeleteCID | internal/downlink/data/data.go:1007-1028 | deleting from the back removes every block of the command and keeps the order of the rest |
| MacFilter.SetMACCommands | internal/downlink/data/data.go:1030-1079 | a block is sent exactly when it is external or own commands are enabled, it was not refused too often, and, for link-ADR, no new-channel request is sent |
| MacFilter.KeepExternal | internal/downlink/data/data.go:1042-1051 | keeps, in order, exactly the external blocks |
| MacFilter.ExternalAppend | internal/downlink/data/data.go:1042-1051 | the external filter decides block by block and keeps the order |
| MacFilter.KeepAllowed | internal/downlink/data/data.go:1053-1060 | keeps, in order, exactly the blocks without too many refusals |
| MacFilter.AllowedAppend | internal/downlink/data/data.go:1053-1060 | the error filter decides block by block and keeps the order |
| MacFilter.AllowedOne | internal/downlink/data/data.go:1053-1060 | a block passes up to and including the maximum of refusals |
| MacFilter.LinkADRHandler.HandleLinkADRAns | internal/maccommand/link_adr.go:16-150 | the folded answers decide between accepting, accepting only the mask with ADR disabled, and refusing, with the session of each case |
| MacFilter.AfterLinkADRMeans | internal/maccommand/link_adr.go:55-147 | field by field, the session after full acceptance, after acceptance of the mask only, and after a refusal |
| MacFilter.Combined | internal/maccommand/link_adr.go:25-44 | a folded bit is set exactly when every answer sets it |
| MacFilter.SuppressedAfterMax | internal/downlink/data/data.go:1053-1060 | a device that refuses every link-ADR block gets exactly the maximum plus one of them, or all if fewer are due |
| ChannelReconfiguration.RequestNewChannels | internal/maccommand/new_channel.go:22-60 | the lowest differing channels in ascending order, as many as allowed; nil exactly when none differ |
| ChannelReconfiguration.DifferingRequests | internal/maccommand/new_channel.go:25-46 | one request for each channel that is missing or differs in any field, in ascending order |
| ChannelReconfiguration.Session.HandleNewChannelAns | internal/maccommand/new_channel.go:62-132 | answers are matched to requests by position; any error leaves the session unchanged |
| ChannelReconfiguration.Session.RequestCustomChannelReconfiguration | internal/downlink/data/data.go:1081-1105 | forgets unwanted channels, then proposes a batch of at most three |
| ChannelReconfiguration.AnswersProgress | internal/maccommand/new_channel.go:76-129 | whatever the mix of answers: exactly the acknowledged channels stop differing and join the enabled list, without duplicates |
| ChannelReconfiguration.RefusedBatchCounts | internal/maccommand/new_channel.go:114-116 | refusing a whole batch adds one error per request and changes nothing else |
| ChannelReconfiguration.ErrorsSinceAck | internal/maccommand/new_channel.go:86-116 | the count of refusals is that since the latest acknowledgement |
| ChannelReconfiguration.RoundProgress | internal/downlink/data/data.go:1081-1105 | the number of differing channels falls by the number of acknowledgements; nothing is proposed exactly when none differ |
| ChannelReconfiguration.DifferingAfterRounds | internal/downlink/data/data.go:1081-1105 | how many channels differ after any number of acknowledged rounds |
| ChannelReconfiguration.DifferingAfterAnyRounds | internal/downlink/data/data.go:1081-1105 | after any rounds with any mix of answers, the channels that differ are those of the start less all acknowledgements |
| ChannelReconfiguration.AnyRoundsConvergeIff | internal/downlink/data/data.go:1081-1105 | then the device has exactly the wanted channels if and only if as many were acknowledged as differed at the start |
| ChannelReconfiguration.RoundsConverge | internal/downlink/data/data.go:1081-1105 | the device has exactly the wanted channels if and only if at least a third as many rounds as differing channels were acknowledged |
| ChannelReconfiguration.RefusedRoundsBounded | internal/downlink/data/data.go:1053-1060 | a device that refuses everything gets at most the maximum plus one batches, fewer when a batch counts several refusals |
| Adr.StepsClosedForm | internal/adr/default.go:118-141 | the recursion fills the data-rate up to its cap, then the power index up to its cap; negative steps lower only the power index, down to zero |
| Adr.StepsMonotone | internal/adr/default.go:118-141 | more steps never mean a lower data-rate or power index |
| Adr.NbTransMonotone | internal/adr/default.go:84-161 | more loss never means fewer transmissions, and below 30 percent the number changes by at most one |
| Adr.NbTransIs | internal/adr/default.go:84-161 | loss below 5 percent takes back a repetition, below 10 keeps the number, below 30 adds one, beyond uses the most |
| Adr.AnswerIs | internal/adr/default.go:23-82 | the whole answer: which of the steps go to the data-rate, which to the power, and when none are taken back |
| Adr.StepCountIs | internal/adr/default.go:67-70 | one step per full 3 dB of margin, in either direction |
| Adr.MaxLoRaDRIs | internal/adr/default.go:37-54 | the last enabled 125 kHz LoRa data-rate, 0 without one |
| Adr.LossIs | internal/adr/default.go:163-182 | of a full history the missing counters per entry, in percent |
| Adr.GetMaxSNR | internal/adr/default.go:93-101 | the greatest SNR of the history, or the start value |
| Adr.GetHistoryCount | internal/adr/default.go:104-112 | the number of entries sent with the current power index |
| Adr.GetPacketLossPercentage | internal/adr/default.go:163-182 | the same figure as the session's own loss percentage |
| Adr.Handle | internal/adr/default.go:23-82 | power is raised exactly when the margin is -3 dB or worse, 20 entries used the current power and power is left; it is lowered only with the data-rate at its cap; the data-rate falls only to its cap; one to three transmissions; nothing changes without ADR |
| Adr.AnswerGrowsWithSNR | internal/adr/default.go:23-82 | a better best SNR never means a lower data-rate, nor a higher power unless only its history is complete |
| Adr.StepCountMonotone | internal/adr/default.go:67-70 | steps grow with the margin and start at 3 dB in either direction |
| Adr.ResponseDR | internal/adr/default.go:23-82 | the data-rate falls only from above the cap, and then exactly to it |
| Adr.ChangesFinitely | internal/adr/default.go:23-82 | over every run of adopted responses the data-rate changes at most once from above the cap, otherwise only upwards and at most up to it |
| Gps.NewFromTimeSinceGPSEpoch | internal/gps/gps.go:39-48 | the conversion that the round-trip lemmas are about |
| Gps.TimeSinceGPSEpoch | internal/gps/gps.go:52-61 | the conversion that the round-trip lemmas are about |
| Gps.UtcRoundTrip | internal/gps/gps.go:39-61 | UTC to GPS to UTC is the identity at every instant |
| Gps.GpsRoundTrip | internal/gps/gps.go:39-61 | GPS to UTC to GPS is the identity outside the inserted intervals and short by exactly the entry's length inside one |
| Gps.UtcToGpsIncreasing | internal/gps/gps.go:52-61 | UTC to GPS is strictly increasing |
| Gps.ReachableFromUtc | internal/gps/gps.go:52-61 | a GPS instant has a UTC reading if and only if it lies in no inserted interval |
| Gps.GpsToUtcStepsBackIff | internal/gps/gps.go:39-48 | for every two instants, GPS to UTC fails to increase if and only if the later one lies in an inserted interval, the earlier one in front of it, no further than the interval's length |
| Gps.LeapSecondsWellFormed | internal/gps/gps.go:12-31 | the shipped table is ordered with gaps beyond a second, and every entry is one second |
| Gps.AheadSince2017 | internal/gps/gps.go:12-61 | with the shipped table GPS is 18 seconds ahead of UTC since 2017 |
| ClassB.PingOffsetRange | internal/helpers/classb/classb.go:34-69 | an offset exists exactly for a beacon start and at least one slot, and lies in the first ping period |
| ClassB.PingOffsetIs | internal/helpers/classb/classb.go:34-69 | the offset is congruent to byte 0 plus 256 times byte 1 of the cipher over beacon seconds and address |
| ClassB.PingPeriodFills | internal/helpers/classb/classb.go:42-68 | the slots fill the 4096 positions as far as they can evenly |
| ClassB.SlotPositions | internal/helpers/classb/classb.go:72-103 | the first slot lies 2.12 s and the offset behind the beacon, each other one a ping period further |
| ClassB.SlotInWindow | internal/helpers/classb/classb.go:72-103 | every slot, with its length, lies between the reserved time of its beacon and the guard of the next |
| ClassB.SlotsApart | internal/helpers/classb/classb.go:72-103 | slots of one receiver never overlap, across periods as well |
| ClassB.FirstPeriodIs | internal/helpers/classb/classb.go:72-77 | the period the search starts in, for times before the epoch too |
| ClassB.GetNextPingSlotAfter | internal/helpers/classb/classb.go:72-103 | ends within two beacon periods with the earliest later slot of the periods it looks at; an error exactly for no slots |
| ClassB.FirstFound | internal/helpers/classb/classb.go:80-102 | the first later slot in loop order is earlier than every other later slot |
| ClassB.SearchFindsNextSlotIff | internal/helpers/classb/classb.go:72-103 | the result is the very next slot if and only if the last slot of the period before the search is not later than the given time |
| ClassB.SearchFindsNextSlot | internal/helpers/classb/classb.go:72-103 | which holds for every time since the GPS epoch |
| ClassB.SearchSkipsSlots | internal/helpers/classb/classb.go:76-77 | before the epoch, for every receiver, a search from shortly after a beacon start skips all slots of that period |
| MulticastQueue.Group.EnqueueQueueItem | internal/downlink/multicast/enqueue.go:19-111 | rejects exactly an old counter; an error changes nothing; Class-B emission times stay distinct, Class-C items a delay apart, and enqueued counters strictly increasing until the last counter is used |
| MulticastQueue.Group.EnqueueClassC | internal/downlink/multicast/enqueue.go:52-77 | gateway i is scheduled i delays after everything queued before |
| MulticastQueue.Group.EnqueueClassB | internal/downlink/multicast/enqueue.go:80-108 | each gateway gets the very next ping slot after the one before it, and its row is due two scheduler intervals before that slot |
| MulticastQueue.BatchEmitsLater | internal/downlink/multicast/enqueue.go:80-108 | every row of a batch emits in a slot after all that is queued, or more than five seconds from now |
| MulticastQueue.ClassCStartMeans | internal/downlink/multicast/enqueue.go:53-63 | a Class-C batch starts a delay after the latest row, and now when none is queued |
| MulticastQueue.Group.PingNbIs | internal/downlink/multicast/enqueue.go:80-83 | one slot per period of the 4096 positions, none for period 0 |
| MulticastQueue.Group.ScheduleInNextSlot | internal/downlink/multicast/enqueue.go:86-107 | one row in the very next slot, or an error that leaves the queue unchanged |
| MulticastQueue.Group.CreateQueueItem | internal/storage/multicast_group.go:223-272 | appends the row unless its port is 0 |
| MulticastQueue.Group.DeleteQueueItem | internal/storage/multicast_group.go:337-361 | removes one row with the id, and keeps the spacing of the others |
| MulticastQueue.Group.Flush | internal/storage/multicast_group.go:365-382 | empties the queue; counters stay accounted for |
| MulticastQueue.MaxScheduleAt | internal/storage/multicast_group.go:452-471 | the greatest schedule time, none exactly for an empty queue |
| MulticastQueue.SpacedAppend | internal/downlink/multicast/enqueue.go:52-77 | a batch that starts a delay after the queue keeps all schedule times a delay apart |
| MulticastQueue.ConsecutiveSnoc | internal/downlink/multicast/enqueue.go:86-107 | a row in the slot after the last one keeps the batch on consecutive slots |
| MulticastQueue.AscendingDistinct | internal/downlink/multicast/enqueue.go:80-108 | a batch of slots after everything queued keeps all emission times distinct |

## Left out

- Gateway backends, gRPC and HTTP APIs, configuration, logging and metrics: plumbing without a property of its own.
- Encryption, MIC computation, key wrapping and the byte layout of frame headers: arbitrary functions or absent.
- Join, rejoin and passive-roaming flows, receive-window parameters, link budgets, transmission parameters and Class-B timing of a downlink's own windows.
- MAC-command handlers with a single answer, and the grouping of received MAC commands into blocks.
- Building the combined packet from a de-duplicated batch, and the callback itself.
- The network controller, and error notices to the application server after the last window of a downlink failed.
- Redis or SQL failing in the middle of an operation, and lost updates between concurrent saves of one session.
- Multicast acknowledgements. The pending MAC-command store. Row timestamps, and the retry time of a queue row beyond being cleared on a rebuild.
- LR-FHSS data-rates in adaptive data-rate, and rounding of floating-point numbers.
- The library's sorting and Kruskal's union-find internals: written out as a greedy loop over any order by weight.
- NextQueueItem.Downlink.GetNextDeviceQueueItem: counters must not roll over within the queue, because the queue is read by smallest counter; ExpectedStaysFirstIff shows this is exactly what the source relies on.
- DownlinkNotifications.ResurrectedIsNotifiedAgain: rows put back for a Class-B device may have any future times, not only those of ping slots, and the counters of a renumbered queue are not wrapped at 32 bits.
- DownlinkNotifications.MessageNotifiedTwiceOnlyIf: the scheduler's transaction keeps gateway acknowledgements of the same device out while it runs; the model lets them interleave with every rebuild, as they do with one that answers an uplink.
- NextQueueItem.Downlink.ReEncryptQueue: the application server is assumed to return the same items in the same order with payloads of equal length; otherwise the loop need not end.
- DeviceQueue.Queue.Store: rows of equal counter are read in the order of insertion, which SQL does not promise.
- DeviceQueue.Queue.UpdatePending: only the two fields that the acknowledgement flow changes are written.
- ClassB.GetNextPingSlotAfter: at most 4096 slots per beacon are assumed, as the source divides by zero for more.
- GatewaySet.GetMinimumGatewaySet: device and gateway identifiers must differ, because the source's graph has one node per identifier.
- GatewaySet.SmallestWhenIndependent: where no single gateway covers all devices only this sufficient condition is proved; when the result is minimal is then a question of minimum set cover.
- GatewaySet.ServedWell: assumes one set of receptions per device, as the source stores it.
- DevAddrIndex.SessionStore.GetDeviceSessionsForDevAddr: one atomic operation; only the removal of a stale entry is also given as a step that others may interleave with.
- UplinkSession.DataContext.HandleAccepted: handling of MAC commands between the three updates, which may change other session fields, is not modelled.
- UplinkSession.AcceptedAscend: stops before the last 32-bit counter.
- DownlinkAck.CountersNeverReused: stops before a counter wraps, and assumes the token of an acknowledgement belongs to the downlink under way.
- ChannelReconfiguration.AnswersProgress: channel indices and data-rates must fit into one byte, as the request's fields do.
- MulticastQueue.Group.EnqueueQueueItem: the gateways come from the gateway cover as an argument, time is not before the GPS epoch, and durations do not overflow.
