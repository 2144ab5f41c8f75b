# Tracker edge firmware: a verified model

This project models the stateful algorithms of the tracker's firmware libraries in Dafny and proves
what they guarantee over whole runs, whole trees and all inputs.

- `QuickSort`, `QueueRecord`, `DiskQueues`, `QueueRuns`: a persistent first-in first-out queue, one numbered file a
  record, with an index in memory, byte accounting and two eviction policies.
- `Words`, `Murmur3`, `Murmur3Stream`: the incremental 128-bit hash that detects configuration changes.
- `ConfigTree`, `ConfigWriting`, `ConfigRoundTrip`, `ConfigShadow`, `ConfigFile`, `ConfigHashing`,
  `ConfigModules`, `ConfigLimits`, `ConfigService`: configuration trees that are written to JSON, processed from JSON
  through shadow structures, hashed, saved and loaded.
- `Polygon`, `PolygonReference`, `Geofencing`: the point-in-polygon test, and the verification and events of zones.
- `PublishPipeline`, `PublishConservation`, `PublishSchedule`, `PublishAcks`, `PublishOutcomes`,
  `CloudServices`: the publisher thread and
  the service in front of it, as atomic steps that may interleave in any order.
- `LocationSchedule`: when a location is published. `ChargeControl`: battery temperature and charger.
  `DebounceSwitch`: the press state machine of a button.

Objects that the code updates in place are classes here, whose methods are proved against pure
functions on the object's value; the lemmas are about those functions. 32-bit clocks, counters and
word arithmetic wrap explicitly (`WRAP`, `Words`). The file system is a map from file number to bytes,
device memory a map from cells to values. Clocks, temperatures, positions, results of writes and of the
cloud, and the answers of the operating system are parameters.

## Where the code differs from what one would expect

The model follows the code. Each of these has a lemma or a clause of a contract with an input that
shows it, and one that says when the expectation is met.

- `DiskQueue::stop` leaves the byte count as it is, so every restart counts the files once more, until
  a push evicts everything and indexes an empty list (`RestartsStrandTheQueue`; exactly when:
  `Evict`, `PushAfterRestarts`, and for whole runs `RunAll`).
- Sorting a list of one file, and no other, writes two integers to a stack of one (`QuickSortFiles`).
- Point 0 of a zone takes part in the dateline offset even when disabled (`DisabledPointDecides`;
  when it does no harm: `OffsetFollowsVertices`, `AnswerFollowsVertices`, `GreenwichTells`).
- A zone that reports a poor location does not advance the zone index (`SecondZoneIsMisnamed`,
  `PoorIndexIsOwn`).
- The radius of the location module is written through, not shadowed (`RadiusSlipsThrough`,
  `AllOrNothingAsAWhole`).
- Writing an object reports the status of its last child only, so that an enumeration setting before it
  without a listed value is silently missing, from saved files too (`SilentlyMissing`,
  `WholeIffAllReadable`, `StatusIsTheLastOnes`, `SaveThenLoadWritten`).
- The configuration hash has no boundaries between values (`BoundaryBlindSpot`,
  `EnumsCanBeConfused`; when that does no harm: `SettingsToldApart`, `ReadableIsTold`; it does none to the
  geofence and motion modules).
- A send whose timeout reaches past the end of the 32-bit millisecond clock never times out
  (`DeadlineSaturates`, `SaturatedNeverTimesOut`).
- A rejected publish without a callback calls the empty callback (`EmptyCallbackIffRejected`).
- The publisher's rate limit starts afresh with each thread (`RestartsBreakTheRate`;
  when the joint rate holds: `RestIsNeeded`, `RestedRestartsKeepTheRate`).
- A request for an immediate location that is evaluated offline waits among the triggers from then on
  (`ImmediateIffOnline`, `OfflineRequestIsPublishedLater`, `WaitingRequestIsMet`).
- While the receiver is off the location waits for a lock like without a position, unlike the table in the
  comment at `lib/edge/src/edge_location.cpp:999-1006` (`PublishesExactly`).
- Between 38 and 40 degrees on the way down the charger stays off, unlike the diagram in the comment at
  `lib/edge/src/edge_temperature.cpp:288-300` (`CoolingBandStaysOff`).
- After a boot with charging forced off, the charger's own flag may still be on (`BootConsistent`,
  `ForcedBootRecovers`).

## Model

| member | source | states |
|---|---|---|
| QuickSort.SortPartition | lib/disk-queue/src/DiskQueue.cpp:350-362 | In place: the range is rearranged within itself, its old last element ends at the returned place, everything before it is at most as large and everything after it strictly larger; nothing outside the range moves |
| QuickSort.QuickSortFiles | lib/disk-queue/src/DiskQueue.cpp:364-394 | For every list the result is sorted by file number and a permutation; every index into the explicit stack of `end - begin + 1` slots is in bounds, except that a list of exactly one element writes one slot past it (`overrun` if and only if the length is 1) |
| QuickSort.SortTop | lib/disk-queue/src/DiskQueue.cpp:376-393 | One turn of the loop: the pending segments stay disjoint, each of two or more elements, and inside the list; every out-of-order pair stays inside one pending segment; the total pending length falls |
| QuickSort.PartitionKeepsOrder | lib/disk-queue/src/DiskQueue.cpp:379-392 | After a partition every pair of positions outside the new pending segments is in order |
| QuickSort.SidesAreShorter | lib/disk-queue/src/DiskQueue.cpp:384-392 | The two sides pushed are together shorter than the segment popped, so the loop ends |
| QuickSort.SidesAreDisjoint | lib/disk-queue/src/DiskQueue.cpp:384-392 | The sides of the pivot are disjoint from each other and from all that was pending |
| QuickSort.SlotsSuffice | lib/disk-queue/src/DiskQueue.cpp:371-392 | Disjoint segments of two or more elements never need more slots than the list has elements |
| QueueRecord.RoundTrip | lib/disk-queue/src/DiskQueue.h:224-240 | A written record is 0x50, 0x01, 0x00, 0xf0, 0x01, the length in two bytes and the data; it is well formed; reading it gives the pushed bytes back if and only if there are fewer than 65536 of them, and otherwise as many of them as fit the 16-bit length |
| QueueRecord.TornRecordIsMalformed | lib/disk-queue/src/DiskQueue.cpp:270-294 | A file cut after any number of bytes is well formed if and only if the promised bytes are all there; every strict prefix of a record below 65536 bytes is malformed |
| QueueRecord.PeekedIsPayload | lib/disk-queue/src/DiskQueue.cpp:170-213 | With room for the stored length a peek gets exactly the payload of a well-formed file and deletes every other |
| QueueRecord.WellFormedIffLaidOut | lib/disk-queue/src/DiskQueue.cpp:182-214 | Byte for byte: a file is a complete record with data p if and only if it is 0x50, 0x01, any file flags, 0xf0, item flags with bit 0 set, a length of two bytes, low byte first, that many bytes p, and anything after |
| QueueRecord.PeekedIffLaidOut | lib/disk-queue/src/DiskQueue.cpp:182-214 | A peek with any room gets p from a file if and only if the file has that layout, with p cut at the room |
| QueueRecord.PeekPopYieldsPayloads | lib/disk-queue/src/DiskQueue.cpp:156-246 | Peeking and popping takes the payload sequence apart from the front, whatever malformed or missing files lie in between |
| QueueRecord.TornTailIsInvisible | lib/disk-queue/src/DiskQueue.cpp:248-294 | A write torn at any byte adds no payload, and a completed one adds exactly its data at the end |
| DiskQueues.DiskQueue.PeekFront | lib/disk-queue/src/DiskQueue.cpp:156-226 | On any disk contents: every file in front that is missing or has another layout is deleted and never returned; the first one laid out as a record stays, and its bytes, cut at the room, are the result; readers see the same records as before |
| DiskQueues.ReadRecord | lib/disk-queue/src/DiskQueue.cpp:175-214 | The reads of one file, short reads included: data exactly from files of the record layout, none from any other |
| DiskQueues.DiskQueue.PopFront | lib/disk-queue/src/DiskQueue.cpp:228-246 | Deletes the front file and its entry, and nothing else; nothing at all on a stopped or empty queue. The records lose their oldest, unless the front file held none |
| DiskQueues.DiskQueue.PushBack | lib/disk-queue/src/DiskQueue.cpp:248-313 | Exactly when a push is rejected, is stored, or reaches into an empty list; a stored record gets a fresh larger number; the records afterwards are the newest or, by policy, the oldest part of those before followed by the new one, byte for byte below 65536 bytes; list and directory stay in step |
| QueueRuns.RunAll | lib/disk-queue/src/DiskQueue.cpp:25-313 | Every run of pushes, peeks, pops, restarts and changes of the limit, whatever writes fail, up to the first push that reaches into an empty list: on any disk contents in step with the list, what is left are records that were there or were pushed, in order; on a queue of whole records, contents, stale bytes and peeks are exactly those of a bounded first-in first-out sequence, and the run ends early exactly at the first push that is written while the stale bytes exceed the limit |
| QueueRuns.PushAfterRestarts | lib/disk-queue/src/DiskQueue.cpp:55-65 | After n restarts of a queue that holds T bytes of records, the next push that is written reaches into an empty list if and only if the stale bytes before plus n * T exceed the limit |
| QueueRuns.WithoutRestart | lib/disk-queue/src/DiskQueue.cpp:300-307 | Between restarts and under one limit, a push reaches into an empty list if and only if it is written and the stale bytes exceeded the limit from the beginning |
| QueueRuns.StaleForGood | lib/disk-queue/src/DiskQueue.cpp:300-307 | Once the stale bytes exceed the limit, every later push that is written reaches into an empty list, whatever else is done in between, as long as the limit stays |
| QueueRuns.KeptAlike | lib/disk-queue/src/DiskQueue.cpp:300-307 | Evicting entries by size keeps as many as evicting records of the bounded sequence does, at the same end |
| QueueRuns.NewQueue | lib/disk-queue/src/DiskQueue.cpp:25-53 | A queue started in an empty directory meets what such runs ask |
| DiskQueues.DiskQueue.Store | lib/disk-queue/src/DiskQueue.cpp:262-298 | The new file: its number follows the last one, its content is the encoded record, and a failed write leaves no file behind |
| DiskQueues.DiskQueue.Evict | lib/disk-queue/src/DiskQueue.cpp:300-307 | The eviction loop ends, within the limit unless stale bytes alone exceed it, in which case (and only then) it reaches for an entry of an empty list; it leaves what the policy keeps and deletes exactly the other files |
| DiskQueues.KeptSuffixIsLongest | lib/disk-queue/src/DiskQueue.cpp:78-92 | FifoDeleteOld keeps a suffix that fits whenever anything can, and no longer suffix fits |
| DiskQueues.KeptPrefixIsLongest | lib/disk-queue/src/DiskQueue.cpp:78-92 | FifoDeleteNew keeps a prefix that fits whenever anything can, and no longer prefix fits |
| DiskQueues.FilesOfKept | lib/disk-queue/src/DiskQueue.cpp:300-307 | Keeping entries keeps the same part of the file contents |
| DiskQueues.DiskQueue.AddFileNode | lib/disk-queue/src/DiskQueue.cpp:429-443 | The byte count grows by the size of the listed entry; bytes counted for no listed file stay as they are |
| DiskQueues.DiskQueue.RemoveFileNode | lib/disk-queue/src/DiskQueue.cpp:445-461 | The byte count falls by the size of the removed entry, its saturating subtraction never saturating |
| DiskQueues.NextNumberIsFresh | lib/disk-queue/src/DiskQueue.cpp:258-264 | One more than the last number is the number of no listed file |
| DiskQueues.DiskQueue.GetFilenames | lib/disk-queue/src/DiskQueue.cpp:463-491 | The list holds each file of the directory once with its real size, in increasing order of number; the sort overruns its stack if and only if there is exactly one file |
| DiskQueues.ListIsDetermined | lib/disk-queue/src/DiskQueue.cpp:463-491 | A directory determines its list, so a restart sees what a running queue saw |
| DiskQueues.SortedListing | lib/disk-queue/src/DiskQueue.cpp:463-491 | Sorting a listing of the directory gives a strictly increasing list of all its files |
| DiskQueues.DiskQueue.Start | lib/disk-queue/src/DiskQueue.cpp:25-53 | A start succeeds exactly when the queue was stopped and the directory is there, and then lists the directory |
| DiskQueues.DiskQueue.Stop | lib/disk-queue/src/DiskQueue.cpp:55-65 | Stopping empties the list but leaves the byte count, all of which becomes stale |
| DiskQueues.DiskQueue.UnlinkFiles | lib/disk-queue/src/DiskQueue.cpp:406-424 | Deletes every listed file and no other, after which no record can be read |
| DiskQueues.Restart | lib/disk-queue/src/DiskQueue.cpp:25-65 | Stop and start keep directory and records, give the same list unless listed files were missing, and count every byte once more |
| DiskQueues.RelistedAlike | lib/disk-queue/src/DiskQueue.cpp:463-491 | Listing a directory afresh, under any loss of files, gives the records that the old list gave, in order |
| DiskQueues.RestartsStrandTheQueue | lib/disk-queue/src/DiskQueue.cpp:396-404 | Counterexample to the accounting across restarts: one ten-byte record, a limit of 30, two restarts, and the next push reaches into an empty list |
| Murmur3.UnstepStep | lib/fw-config-service/src/murmur3.cpp:49-94 | For a fixed block the step is a bijection of the state: an explicit inverse undoes it |
| Murmur3.StepSeparatesBlocks | lib/fw-config-service/src/murmur3.cpp:49-94 | For a fixed state different blocks lead to different states |
| Murmur3.Fmix32Injective | lib/fw-config-service/src/murmur3.cpp:38-47 | The final mixer of a word is injective |
| Murmur3.UnmixMixWords | lib/fw-config-service/src/murmur3.cpp:61-90 | The mixing of the four words of a block, each with its constants and rotation, undone by an explicit inverse |
| Murmur3.UnscrambleScramble | lib/fw-config-service/src/murmur3.cpp:187-198 | The final mixing undone by an explicit inverse, down to the lanes with the length xored into each of the four |
| Murmur3.ScrambleTellsLength | lib/fw-config-service/src/murmur3.cpp:187-198 | The same lanes finished with different lengths stay different |
| Murmur3.FinishedInjective | lib/fw-config-service/src/murmur3.cpp:140-201 | Finalizing is injective in the state for a fixed tail, and in the tail for a fixed state and tail length |
| Murmur3.OneBlockNeverCollides | lib/fw-config-service/src/murmur3.cpp:49-201 | Two messages that differ inside one aligned 16-byte block only never have the same hash |
| Murmur3.TailNeverCollides | lib/fw-config-service/src/murmur3.cpp:140-201 | Two messages of equal length that differ in the tail only never have the same hash |
| Murmur3.ZerosNeverCollide | lib/fw-config-service/src/murmur3.cpp:140-201 | Messages that differ in nothing but the number of zero bytes that end an unfinished block have different hashes: the length counts |
| Murmur3.SeedsNeverCollide | lib/fw-config-service/src/murmur3.cpp:96-104 | The same message under two seeds never has the same hash |
| Murmur3.OneByteNeverCollides | lib/fw-config-service/src/murmur3.cpp:49-201 | Two messages that differ in one byte, wherever it is, never have the same hash |
| Murmur3.UpdatedConcat | lib/fw-config-service/src/murmur3.cpp:106-138 | Two updates are one update with the concatenation |
| Murmur3.ChunksDoNotMatter | lib/fw-config-service/src/murmur3.cpp:96-138 | For any split of a message into updates, start, updates and finalize give the hash of the whole message, and fewer than 16 bytes are ever held back |
| Murmur3Stream.Murmur3Hash.Start | lib/fw-config-service/src/murmur3.cpp:96-104 | The four lanes are seeded and nothing is held back |
| Murmur3Stream.Murmur3Hash.HashBlock | lib/fw-config-service/src/murmur3.cpp:49-94 | The step in place, lane after lane with rotated and mixed words, is the mathematical step on the block |
| Murmur3Stream.Murmur3Hash.Update | lib/fw-config-service/src/murmur3.cpp:106-138 | The loop over accumulator and data leaves the fold of the step over all full blocks, and exactly the remainder in the accumulator |
| Murmur3Stream.Murmur3Hash.MixTail | lib/fw-config-service/src/murmur3.cpp:140-182 | The tail switch with its fall-through, skipped words and all, is the mixing of the words of the zero-padded tail |
| Murmur3Stream.Murmur3Hash.MixLanes | lib/fw-config-service/src/murmur3.cpp:184-201 | The length, the cross additions and the final mixers, lane after lane in place, are the mathematical scramble |
| Murmur3Stream.Murmur3Hash.Finalize | lib/fw-config-service/src/murmur3.cpp:140-201 | The whole finalization of what was fed in, after which nothing is held back |
| Murmur3Stream.PaddedWords | lib/fw-config-service/src/murmur3.cpp:146-182 | The bytes that the switch gathers are the words of the zero-padded tail |
| Words.RotateBack | lib/fw-config-service/src/murmur3.cpp:33-36 | Rotating by r and then by 32 - r is the identity |
| Polygon.IsPointInPolygon | lib/geofence/src/Geofence.cpp:220-263 | The loop over edges answers the even-odd test of the enabled, shifted vertices |
| Polygon.CalculateLonDatelineOffset | lib/geofence/src/Geofence.cpp:172-190 | 360 if and only if two of the longitudes looked at, point 0 always among them, are more than 180 degrees apart |
| Polygon.ChainIsAllThatMatters | lib/geofence/src/Geofence.cpp:231-262 | Rotating or reversing the enabled vertices changes no answer, for zones whose offset is the one that their enabled vertices call for, or does not matter to them |
| Polygon.InsideCut | lib/geofence/src/Geofence.cpp:238-259 | Cutting a polygon along a chord between any two vertices: inside the whole is inside one part xor inside the other |
| Polygon.CutZone | lib/geofence/src/Geofence.cpp:220-263 | The same for whole zones with their dateline offsets and whatever disabled points |
| Polygon.CrossesSymmetric | lib/geofence/src/Geofence.cpp:245-256 | An edge counts the same in both directions |
| Polygon.CrossingIsBetween | lib/geofence/src/Geofence.cpp:250-256 | The crossing longitude lies between those of the edge ends |
| Polygon.OutsideBoxIsReportedOutside | lib/geofence/src/Geofence.cpp:220-263 | Every point strictly outside the bounding box of the shifted enabled vertices is reported outside, on all four sides, for every polygon |
| PolygonReference.InPolygonIsEvenOdd | lib/geofence/src/Geofence.cpp:220-263 | The answer is whether the point is east of an odd number of edges: edges counted as a set, each judged by the sign of a cross product, a lower end not counting as on the edge |
| PolygonReference.CrossesIsEastOfEdge | lib/geofence/src/Geofence.cpp:249-258 | The test of one edge with its quotient is that sign, for every edge |
| PolygonReference.RectangleIsExact | lib/geofence/src/Geofence.cpp:220-263 | Every rectangle no wider than 180 degrees holds exactly the points between its sides, north and east sides included |
| PolygonReference.DatelineRectangleIsExact | lib/geofence/src/Geofence.cpp:220-263 | Every wider one holds exactly the points east of its east side and west of its west side: it crosses the dateline |
| PolygonReference.DisabledIsIgnored | lib/geofence/src/Geofence.cpp:220-263 | A disabled point anywhere but in front changes no answer |
| Polygon.RightOfEverything | lib/geofence/src/Geofence.cpp:238-259 | To the right of a chain every straddling edge counts, an odd number of them if and only if the ends are on different sides |
| Polygon.OffsetFollowsVertices | lib/geofence/src/Geofence.cpp:172-190 | The offset is the one that the enabled vertices call for if and only if point 0 is enabled, or they span more than 180 degrees themselves, or none is more than 180 degrees from point 0 |
| Polygon.OneSidedIgnoresOffset | lib/geofence/src/Geofence.cpp:228-259 | A polygon on one side of Greenwich gives the same answer with either offset, to every query |
| Polygon.AnswerFollowsVertices | lib/geofence/src/Geofence.cpp:220-263 | So the answer is that of the enabled vertices whenever the offset is, or they lie on one side of Greenwich |
| Polygon.GreenwichTells | lib/geofence/src/Geofence.cpp:220-263 | For a zone that by its own vertices contains a point of the Greenwich meridian, all answers are those of the enabled vertices if and only if the offset is; otherwise that very point is thrown out |
| Polygon.PinchedZoneIsHarmed | lib/geofence/src/Geofence.cpp:220-263 | A zone that contains no point of the meridian to which a wrong offset matters all the same |
| Polygon.OutAndBack | lib/geofence/src/Geofence.cpp:220-263 | A zone without width that crosses the meridian, to which no offset matters |
| Polygon.DisabledPointDecides | lib/geofence/src/Geofence.cpp:173-174 | Counterexample: a disabled point 0 turns the center of a square from inside to outside |
| Geofencing.Geofence.IsEventTriggered | lib/geofence/src/Geofence.cpp:142-160 | In place: what the zone remembers afterwards, and whether it triggers |
| Geofencing.Geofence.Loop | lib/geofence/src/Geofence.cpp:30-102 | One pass: with a good location every enabled zone takes its step and reports its events in order, other zones stay as they are; with a poor one no zone changes and each enabled zone reports under the number of disabled zones before it |
| Geofencing.PoorIndexIsOwn | lib/geofence/src/Geofence.cpp:36-44 | With a poor location the event of an enabled zone carries its own index if and only if no enabled zone precedes it |
| Geofencing.PoorIndex | lib/geofence/src/Geofence.cpp:36-44 | The index is short by the number of enabled zones before it |
| Geofencing.SecondZoneIsMisnamed | lib/geofence/src/Geofence.cpp:36-44 | Counterexample: with two enabled zones both events name the first |
| Geofencing.StateRemembersStretch | lib/geofence/src/Geofence.cpp:142-160 | Over every run the state holds the current side and the oldest non-zero time of its unbroken stretch |
| Geofencing.FiresIffSteady | lib/geofence/src/Geofence.cpp:142-160 | A sample triggers if and only if all evaluated samples since some moment at least the verification time ago were on its side |
| Geofencing.NoVerificationFiresAtOnce | lib/geofence/src/Geofence.cpp:142-160 | Without verification every sample triggers |
| Geofencing.ReportsExactly | lib/geofence/src/Geofence.cpp:50-95 | Over every run, from any state and under any settings: what a sample reports, by whether it triggers, its side, the side that triggered last and the four flags of the zone |
| Geofencing.PassIsInOrder | lib/geofence/src/Geofence.cpp:30-102 | The events of a pass are those of enabled zones, zone by zone |
| Geofencing.EntersAndExitsAlternate | lib/geofence/src/Geofence.cpp:52-97 | With both flags on, ENTER and EXIT strictly alternate over every run from every state |
| ConfigRoundTrip.WriteThenProcess | lib/fw-config-service/src/config_service.cpp:709-876 | Writing any tree from one memory and processing the result into any other memory succeeds, restores every setting and changes no cell outside the tree |
| ConfigRoundTrip.NodeRestores | lib/fw-config-service/src/config_service.cpp:709-876 | The same at every node, under the shadows of the objects around it |
| ConfigRoundTrip.EnumRoundTrip | lib/fw-config-service/src/config_service.cpp:120-157 | The value of the name of an enumeration value is that value |
| ConfigRoundTrip.ChildByName | lib/fw-config-service/src/config_service.cpp:65-81 | Among distinct names the lookup finds each child |
| ConfigRoundTrip.ProcessedTouches | lib/fw-config-service/src/config_service.cpp:709-774 | Whatever the JSON, processing changes no cell but those of the node, its children and their shadows |
| ConfigRoundTrip.LeavingLands | lib/fw-config-service/src/config_service.cpp:92-99 | Leaving an object brings every shadowed setting to its primary place |
| ConfigService.ConfigModule.ProcessJson | lib/fw-config-service/src/config_service.cpp:709-774 | The recursive walk with its set callbacks, error order and shadow hooks leaves the memory and status of the pure specification |
| ConfigLimits.LeafOutcome | lib/fw-config-service/src/config_service_nodes.h:285-301 | For every leaf and every JSON value: the value meant (integers cut toward zero and saturated at 32 bits, the first listed name of an enumeration) is stored if it is within the limits, in numbers; a value outside ends in EDOM and a wrong type or unlisted name in EINVAL, nothing changed |
| ConfigLimits.FieldsInTurn | lib/fw-config-service/src/config_service.cpp:750-769 | Fields take effect in turn, and none after the first that fails |
| ConfigLimits.FieldByName | lib/fw-config-service/src/config_service.cpp:755-768 | A field goes to the first node of its name and is passed over without one |
| ConfigLimits.CommandKeepsLimits | lib/fw-config-service/src/config_service.cpp:709-774 | For every tree whose shared and shadowed cells have limits to match, and every JSON, whether it succeeds or fails: all settings stay within the limits of their leaves, through shadow and commit, whatever the shadows held before |
| ConfigLimits.LimitsAlwaysKept | lib/fw-config-service/src/config_service.cpp:629-656 | The same over every sequence of commands |
| ConfigLimits.LocationIsOrderly | lib/edge/src/edge_location.cpp:95-142 | The cells and the shadow of the location object meet what that asks |
| ConfigLimits.LocationStaysWithinLimits | lib/edge/src/edge_location.cpp:95-142 | Over every sequence of set_cfg commands the radius stays within 0 and 1000000 and both intervals within a day |
| ConfigService.ConfigModule.SetEnum | lib/fw-config-service/src/config_service.cpp:120-136 | Enumeration set: the first entry of that name, or the error for an unknown one |
| ConfigService.ConfigModule.FindChild | lib/fw-config-service/src/config_service.cpp:65-81 | The first child of that name, if any |
| ConfigService.ConfigModule.WriteJson | lib/fw-config-service/src/config_service.cpp:786-876 | The walk over the tree writes the fields and status of the pure specification: a child that cannot be read is passed over, and the status of an object is that of its last child |
| ConfigWriting.WholeIffAllReadable | lib/fw-config-service/src/config_service.cpp:786-876 | Every child is written, at every level, if and only if every enumeration setting holds a listed value |
| ConfigWriting.StatusIsTheLastOnes | lib/fw-config-service/src/config_service.cpp:786-876 | The status is OK if and only if the last leaf can be read |
| ConfigWriting.SilentlyMissing | lib/fw-config-service/src/config_service.cpp:831-866 | Counterexample: an unlisted value before a readable last leaf is missing from the output, and the status is OK |
| ConfigWriting.PrintedIsNear | lib/fw-config-service/src/config_service.cpp:812-820 | A floating point setting is written with ten decimals, off by half a unit of the last one at most |
| ConfigRoundTrip.WhatIsWrittenIsRestored | lib/fw-config-service/src/config_service.cpp:709-876 | Whatever enumeration settings cannot be written: processing restores exactly the written settings, and the others keep the value that the processing side had |
| ConfigRoundTrip.RestoredIffAllReadable | lib/fw-config-service/src/config_service.cpp:709-876 | Every setting is restored into every memory if and only if every enumeration setting held a listed value |
| ConfigService.ConfigModule.HashNode | lib/fw-config-service/src/config_service.cpp:879-963 | The walk feeds names and values into the streaming hash as one byte sequence, and changes no setting |
| ConfigService.ConfigModule.ConfigHash | lib/fw-config-service/src/config_service.cpp:965-970 | The hash of a module is the one-shot hash of those bytes |
| ConfigService.ConfigModule.Save | lib/fw-config-service/src/config_service.cpp:339-407 | Exactly when a save has nothing to do, when it fails leaving everything as it was, and what a successful one writes and remembers |
| ConfigService.ConfigModule.ProcessLoad | lib/fw-config-service/src/config_service.cpp:412-470 | Fields in the order found: what a version, a hash and the configuration change, and which error is reported |
| ConfigFile.LoadsExactly | lib/fw-config-service/src/config_service.cpp:412-470 | A file is loaded without error if and only if it is not an object or holds no more than version 1, the sync hash and the module, in this order; an error in one of the three leaves the hashes as they were, and before the third the settings too |
| ConfigShadow.AllOrNothing | lib/fw-config-service/src/config_service.cpp:750-769 | Whatever the JSON and wherever it fails, a failure leaves every shadow-backed setting unchanged; a success has passed the guard and brings the whole shadow across |
| ConfigShadow.SetCfgKeepsIntervals | lib/edge/src/edge_location.cpp:63-85 | One set_cfg, good or bad, keeps 0 <= interval_min <= interval_max <= 86400 |
| ConfigShadow.IntervalsAlwaysOk | lib/edge/src/edge_location.cpp:95-142 | Every sequence of set_cfg commands keeps it |
| ConfigShadow.RadiusSlipsThrough | lib/edge/src/edge_location.cpp:99-105 | Counterexample for the one leaf that is not shadowed: a command that fails has changed the radius |
| ConfigShadow.AllOrNothingAsAWhole | lib/fw-config-service/src/config_service.cpp:750-769 | An object, shadowed or not, is all or nothing as a whole if and only if every cell that a leaf below it sets lies in its shadow |
| ConfigShadow.OnlyTheRadiusSlipsThrough | lib/edge/src/edge_location.cpp:95-142 | A failing command on the location object leaves the radius and no other cell outside the shadow changed, and some failing command does change it |
| ConfigShadow.LocationShadowIsApart | lib/edge/src/edge_location.cpp:95-142 | The location object meets what AllOrNothing asks |
| ConfigShadow.LocationIsSelfContained | lib/edge/src/edge_location.cpp:95-142 | The location object meets everything that the round trip and save and load ask of a tree |
| ConfigFile.HashStrRoundTrip | lib/fw-config-service/src/config_service.cpp:36-63 | The 32 hexadecimal digits of a hash parse back to that hash |
| ConfigFile.FormatIsUpperHex | lib/fw-config-service/src/config_service.cpp:36-43 | The printed hash is the 32 upper-case hexadecimal digits of the four words, high digit first |
| ConfigFile.WordIsRead | lib/fw-config-service/src/config_service.cpp:51-59 | A word of the hash is read from one to eight hexadecimal digits in either case, as many as there are, and is the number they stand for |
| ConfigFile.SameSettingsSameBytes | lib/fw-config-service/src/config_service.cpp:879-963 | The hashed bytes depend on the names and settings only |
| ConfigFile.BoundaryBlindSpot | lib/fw-config-service/src/config_service.cpp:879-963 | Counterexample to telling all settings apart: a character moved from one string to the next leaves the hash as it is |
| ConfigHashing.ReadableIsTold | lib/fw-config-service/src/config_service.cpp:879-963 | With any number of leaves of varying width: if the names of enumerations before one leaf are prefix-free and those after it suffix-free, equal hashed bytes mean equal settings |
| ConfigHashing.OneVariableLeafIsTold | lib/fw-config-service/src/config_service.cpp:879-963 | In particular with at most one leaf whose width varies, of whatever type |
| ConfigModules.PrefixFreeTreesAreToldApart | lib/fw-config-service/src/config_service.cpp:879-963 | A module without strings in whose enumerations no name is the beginning of another is told apart, however many enumerations it has |
| ConfigModules.GeofenceIsToldApart | lib/edge/src/edge_location.cpp:146-209 | The hashed bytes of the geofence module, with its four enumerations, tell all its settings apart |
| ConfigModules.ImuTrigIsToldApart | lib/edge/src/edge_motion_configuration.cpp:80-107 | The same for the motion module, with its two enumerations |
| ConfigModules.EnumsCanBeConfused | lib/fw-config-service/src/config_service.cpp:879-963 | Counterexample: enumerations {a, ab} and {c, bc} side by side hash alike for a, bc and ab, c |
| ConfigHashing.SettingsToldApart | lib/fw-config-service/src/config_service.cpp:879-963 | Among modules whose varying leaves are unlimited strings and enumerations, those before the string prefix-free and those after it suffix-free (with two or more strings: any), the hashed bytes tell all settings apart if and only if there is at most one such string |
| ConfigHashing.TwoTextsAreConfused | lib/fw-config-service/src/config_service.cpp:879-963 | With two or more unlimited strings, whatever the other settings and their types: what is hashed between the first two can move from the one to the other unnoticed |
| ConfigHashing.SwitchChangesHash | lib/fw-config-service/src/config_service.cpp:879-970 | Switching one boolean setting always changes the hash of the module |
| ConfigHashing.IntBytesAreLittleEndian | lib/fw-config-service/src/config_service.cpp:879-894 | An integer is hashed as four bytes in two's complement, low byte first |
| ConfigFile.SaveThenLoad | lib/fw-config-service/src/config_service.cpp:339-470 | Loading what was saved restores settings, hash and sync hash; the next save is skipped; in sync before if and only if in sync after |
| ConfigFile.SaveThenLoadWritten | lib/fw-config-service/src/config_service.cpp:339-470 | Whatever the settings: the save does not notice an unlisted enumeration value, the load restores the other settings and leaves that one as the loading module had it, and everything ends up consistent with that |
| ConfigService.SaveAndRegisterAgain | lib/fw-config-service/src/config_service.cpp:538-555 | The same through the methods: save, then register a new module on whatever memory |
| PublishConservation.Conserved | lib/fw-config-service/src/cloud_service.cpp:292-373 | Over every interleaving of sends, thread steps, completions, acks, ticks, starts and stops, each callback handed out is in exactly one place: queued, being published, awaiting its ack, deferred, finished or cancelled |
| PublishConservation.AtMostOnce | lib/fw-config-service/src/cloud_service.cpp:65-96 | Over every such run a callback runs at most once, and has run once if and only if it is neither pending nor cancelled |
| PublishConservation.NextKeeps | lib/fw-config-service/src/cloud_service.cpp:292-373 | Each atomic step keeps the conservation |
| PublishConservation.TickPastTimeoutFinishes | lib/fw-config-service/src/cloud_service.cpp:83-96 | Once the publisher is done with a send, a tick of a new second past its timeout leaves its callback run exactly once, unless cancelled |
| PublishConservation.DeadlineSaturates | lib/fw-config-service/src/cloud_service.cpp:332-335 | The deadline is the exact sum, or the last tick exactly when the sum reaches past it |
| PublishConservation.SaturatedNeverTimesOut | lib/fw-config-service/src/cloud_service.cpp:83-96 | A handler outlives every possible tick if and only if its deadline is saturated: the clock never exceeds the last tick |
| PublishConservation.RejectionIsOneFailure | lib/fw-config-service/src/cloud_service.cpp:351-365 | A send that the publisher turns down returns busy and changes nothing else, and the last callback of the next tick is its FAILURE |
| PublishConservation.RejectionFailsOnce | lib/fw-config-service/src/cloud_service.cpp:351-365 | Over every run such a callback has run once after that tick, with FAILURE, and never runs again |
| PublishOutcomes.EventsAreSent | lib/fw-config-service/src/cloud_service.cpp:318-362 | Over every run what is queued and published has the name and data of its request, and its callback the request id, ack flag and deadline |
| PublishOutcomes.ToldOnce | lib/fw-config-service/src/cloud_service.cpp:341-362 | In every run, once the publish of a send is over: the first step that tells its callback anything, by the request alone, decides its one outcome, with the data sent; without such a step it has none |
| PublishOutcomes.PlainSendsAreTold | lib/fw-config-service/src/cloud_service.cpp:344-360 | Without a full ack a published send is told SUCCESS, and any failed one FAILURE, if and only if a tick follows; nothing else ever; a cancelled one is told nothing |
| PublishOutcomes.FullAckNeedsItsAck | lib/fw-config-service/src/cloud_service.cpp:344-350 | A send with a full ack has no SUCCESS in any run without an ack of its request id after its publish |
| PublishOutcomes.AckOrTimeout | lib/fw-config-service/src/cloud_service.cpp:83-96 | With that ack it has SUCCESS, and at the first tick of a second past its deadline TIMEOUT, whichever comes first, for good |
| PublishConservation.EmptyCallbackIffRejected | lib/background-publish/src/BackgroundPublish.h:333-351 | The publisher calls an empty callback exactly when it rejects a send without one |
| PublishConservation.ReqIdsAreDistinct | lib/fw-config-service/src/cloud_service.cpp:98-106 | Request ids are never zero, and two calls share one if and only if they are a multiple of 2^32 - 1 calls apart |
| PublishAcks.ContextsAreKnown | lib/fw-config-service/src/cloud_service.cpp:292-408 | Over every run each callback on its way carries the request id that its send was given |
| PublishAcks.AckSettlesOneCommand | lib/fw-config-service/src/cloud_service.cpp:230-241 | Over every run in which fewer than 2^32 ids were handed out, no two waiting handlers of commands share an id, so that an ack settles at most one of them |
| PublishSchedule.RateAlwaysKept | lib/background-publish/src/BackgroundPublish.h:296-323 | Over every run the ring holds the times of the last starts of its thread, and starts of one thread two apart are at least 1000 ms apart, across the 32-bit wrap |
| PublishSchedule.AtMostBurstRate | lib/background-publish/src/BackgroundPublish.h:296-323 | Any window shorter than 1000 ms has at most burst_rate starts of each publisher thread, from its start to its stop |
| PublishSchedule.NewThreadIsFree | lib/background-publish/src/BackgroundPublish.h:300-305 | A new thread may publish at its first poll if and only if the wrapped clock shows 1000 ms or more, whatever was published before |
| PublishSchedule.PollStartsExactly | lib/background-publish/src/BackgroundPublish.h:300-305 | Over every run, exactly when a poll may publish: an interval after the last publish but one of its thread, on the wrapped clock |
| PublishSchedule.NothingTakenAtRest | lib/background-publish/src/BackgroundPublish.h:250-266 | A publisher at rest publishes nothing until it is started again, whatever happens |
| PublishSchedule.RestartsBreakTheRate | lib/background-publish/src/BackgroundPublish.h:250-266 | Counterexample across restarts: three threads publish three events within ten milliseconds |
| PublishSchedule.RestIsNeeded | lib/background-publish/src/BackgroundPublish.h:250-323 | A stopped publisher is restarted twice for one publish each, at any times from a given one on and at least a given gap apart: the joint rate holds for all such times if and only if the last publish but one is 1000 ms before the first time and the last one 1000 ms before the first time plus the gap |
| PublishSchedule.RestAfterOneLife | lib/background-publish/src/BackgroundPublish.h:250-323 | For instance after one publish at 1000 ms: exactly when first time and gap together reach 2000 ms |
| PublishSchedule.RestedIsNeeded | lib/background-publish/src/BackgroundPublish.h:250-323 | The same without a gap: if and only if the last publish is 1000 ms before the first time |
| PublishSchedule.SpacedTogether | lib/background-publish/src/BackgroundPublish.h:296-323 | Exactly when the starts of two threads, one after the other, keep the rate together; what the two conditions above are derived from |
| PublishSchedule.RestedRestartsKeepTheRate | lib/background-publish/src/BackgroundPublish.h:296-323 | If no thread polls within 1000 ms of the last publish before it was started, the rate holds over the whole run, restarts included |
| PublishSchedule.WrappedGap | lib/background-publish/src/BackgroundPublish.h:304-305 | The wrapped difference of 32-bit ticks never overstates the real one |
| PublishSchedule.QueuesAlwaysKept | lib/background-publish/src/BackgroundPublish.h:306-317 | Over every run each queue stays within its capacity, and what was put in is what has been taken out (published or cancelled) followed by what is still queued, in order |
| PublishSchedule.EnteredAreSent | lib/background-publish/src/BackgroundPublish.h:325-362 | Over every run what has been put into a queue are the names and data of the requests of its priority that came while the publisher ran and the queue had room, in order |
| PublishSchedule.PriorityAlwaysKept | lib/background-publish/src/BackgroundPublish.h:306-319 | Over every run an event is taken only after each queue of higher priority was looked at and found empty in the same scan |
| CloudServices.BackgroundPublish.Publish | lib/background-publish/src/BackgroundPublish.h:327-366 | Takes the event at the end of its queue, or says why not and changes nothing |
| CloudServices.BackgroundPublish.Scan | lib/background-publish/src/BackgroundPublish.h:306-319 | Undisturbed, the scan takes the front of the first non-empty queue |
| CloudServices.BackgroundPublish.Cleanup | lib/background-publish/src/BackgroundPublish.h:369-384 | Empties every queue and cancels every queued callback once, in order |
| CloudServices.CloudService.Complete | lib/fw-config-service/src/cloud_service.cpp:341-358 | Where a completed publish sends its callback: to the ack handlers, to the deferred calls, or nowhere when cancelled |
| CloudServices.CloudService.SendData | lib/fw-config-service/src/cloud_service.cpp:292-373 | The state and result of a send, each error path included |
| CloudServices.CloudService.SendCommand | lib/fw-config-service/src/cloud_service.cpp:375-408 | The same with a fresh request id when a full ack is asked for, and with the id spent when the buffer overflows |
| CloudServices.CloudService.TickSec | lib/fw-config-service/src/cloud_service.cpp:83-96 | The erasing loop calls back exactly the handlers whose time is up, in order, and keeps the others in order |
| CloudServices.CloudService.Tick | lib/fw-config-service/src/cloud_service.cpp:65-81 | At most one timeout scan a second, then every deferred call once |
| CloudServices.CloudService.DispatchAck | lib/fw-config-service/src/cloud_service.cpp:234-241 | An ack calls back and erases every handler with its id, and no other |
| CloudServices.CloudService.GetNextReqId | lib/fw-config-service/src/cloud_service.cpp:98-106 | The id before, and the counter one on, skipping zero |
| LocationSchedule.EdgeLocation.EvaluatePublish | lib/edge/src/edge_location.cpp:442-508 | The reason, network need and lock wait, and no field changed |
| LocationSchedule.EdgeLocation.Loop | lib/edge/src/edge_location.cpp:1008-1121 | The decision and the bookkeeping of one evaluation |
| LocationSchedule.EdgeLocation.TriggerLocPub | lib/edge/src/edge_location.cpp:340-365 | A trigger is listed once |
| LocationSchedule.EdgeLocation.LocationPublishCb | lib/edge/src/edge_location.cpp:376-404 | Success ends the first-publish phase, nothing else does |
| LocationSchedule.FirstPublishSettles | lib/edge/src/edge_location.cpp:454-457 | The first publish starts the grid and settles the schedule |
| LocationSchedule.PublishesExactly | lib/edge/src/edge_location.cpp:442-508 | Exactly when a sample publishes, in seconds: offline never; past the maximum interval, or for triggers past the minimum interval, at once with a stable position or none to be had, and otherwise ten seconds later |
| LocationSchedule.FirstPublishesExactly | lib/edge/src/edge_location.cpp:454-457 | The first publish waits for a stable position or none to be had, no longer than the connecting time |
| LocationSchedule.NetworkIsNeeded | lib/edge/src/edge_location.cpp:459-499 | Exactly when the network is asked for: as much before the end of either interval as the early wake, if the interval is longer than that |
| LocationSchedule.ReportedExactly | lib/edge/src/edge_location.cpp:905-921 | A publish reports the triggers listed, each once, and the time besides if that is the reason |
| LocationSchedule.ListedIffRaised | lib/edge/src/edge_location.cpp:335-366 | Between publishes a trigger is listed if and only if it was listed before or has been raised since |
| LocationSchedule.FirstPublishIsPending | lib/edge/src/edge_location.cpp:1108-1119 | From a boot on, exactly when the first publish counts as unconfirmed and as pending |
| LocationSchedule.LoopKeepsOrder | lib/edge/src/edge_location.cpp:1085-1106 | grid point <= last publish <= now is kept by every evaluation |
| LocationSchedule.TriggersKeepDistance | lib/edge/src/edge_location.cpp:490-505 | A publish for triggers comes at least the minimum interval after the one before |
| LocationSchedule.OverduePublishes | lib/edge/src/edge_location.cpp:469-482 | Connected and ten seconds past the maximum interval, every evaluation publishes, whatever the position receiver says |
| LocationSchedule.AlwaysOnGrid | lib/edge/src/edge_location.cpp:1097-1106 | Over every run the grid point is the base plus a whole number of maximum intervals, one for each publish by time since then |
| LocationSchedule.TimePublishesAreBounded | lib/edge/src/edge_location.cpp:1097-1106 | Over every run there are at most floor((now - base) / interval_max) publishes by time since the base |
| LocationSchedule.ImmediateIffOnline | lib/edge/src/edge_location.cpp:1076-1091 | A request for an immediate publish is met at the next evaluation if and only if there is a connection; otherwise its immediacy is gone and the next publish will restart the grid |
| LocationSchedule.OfflineRequestIsPublishedLater | lib/edge/src/edge_location.cpp:340-365 | Whatever happens until then, the request stays listed for the next publish, which takes all triggers with it and restarts the grid |
| LocationSchedule.WaitingRequestIsMet | lib/edge/src/edge_location.cpp:469-505 | With no wait for a lock, a listed request is met exactly when the minimum interval since the last publish or the maximum interval since the grid point is over |
| ChargeControl.ChargeController.ForceDisableCharging | lib/edge/src/edge.cpp:859-870 | Forcing disables; releasing enables if the battery was last judged safe |
| ChargeControl.ChargeController.ChargeCallback | lib/edge/src/edge.cpp:882-924 | Current, judgement and charger flag after a temperature event |
| ChargeControl.ChargeController.EvaluateChargeTemperature | lib/edge/src/edge_temperature.cpp:271-394 | Nothing before the interval has passed (on wrapping seconds), then one step of the temperature machine |
| ChargeControl.AlwaysConsistent | lib/edge/src/edge.cpp:859-924 | Over every run of temperatures and force toggles, charging is disabled if and only if it is forced or the temperature was last judged unsafe |
| ChargeControl.NextKeepsConsistent | lib/edge/src/edge.cpp:859-924 | Every step keeps that from every such state |
| ChargeControl.BootConsistent | lib/edge/src/edge.cpp:380-422 | It holds after boot if and only if a forced boot found the charger disabled |
| ChargeControl.ForcedBootRecovers | lib/edge/src/edge.cpp:416-419 | After a forced boot with the charger enabled it holds again if and only if there has been a force toggle or a sample at or beyond a limit |
| ChargeControl.ForcedBootStaysSafe | lib/edge/src/edge.cpp:416-419 | Until then the battery is last judged safe |
| ChargeControl.SampleDecides | lib/edge/src/edge_temperature.cpp:281-393 | After any run from any boot, a sample >= 54 or <= 0 leaves charging disabled, and one in [2, 38] reaches NORMAL in one evaluation; after a consistent boot charging is then off exactly when forced off |
| ChargeControl.RangesDecide | lib/edge/src/edge_temperature.cpp:301-386 | By temperature: five ranges decide the next state whatever it was, and in the three bands between them it lingers |
| ChargeControl.CurrentFollowsState | lib/edge/src/edge.cpp:882-924 | Over every run the charge current is the high one exactly when the state is normal, from the first evaluation on |
| ChargeControl.CoolingBandStaysOff | lib/edge/src/edge_temperature.cpp:363-372 | From over-temperature a sample changes nothing if and only if it is above 52 or strictly between 38 and 40 |
| DebounceSwitch.DebounceSwitchState.Run | lib/DebounceSwitchRK/src/DebounceSwitchRK.cpp:172-275 | The new state and the callbacks made, in order, from every state, with wrapping millisecond differences |
| DebounceSwitch.CallbacksAreRegular | lib/DebounceSwitchRK/src/DebounceSwitchRK.cpp:172-259 | Over every run, settings changing at will, each callback may follow the one before, the machine waits for what the last callback left open, and every TAP reports the SHORTs since the TAP before, of which there is at least one |
| DebounceSwitch.CallsAreTimely | lib/DebounceSwitchRK/src/DebounceSwitchRK.cpp:172-259 | After any run exactly which callbacks the next sample makes, from the callbacks and times before it alone: press, short, on the way, long, very long, release and tap |
| DebounceSwitch.CallbacksArePrefixes | lib/DebounceSwitchRK/src/DebounceSwitchRK.cpp:172-259 | Over every run the callbacks are a prefix of a word of ((PRESS_START (SHORT, LONG, or PROGRESS then LONG or VERY_LONG) RELEASED)+ TAP?)* |
| DebounceSwitch.GoodStatesAreWords | lib/DebounceSwitchRK/src/DebounceSwitchRK.cpp:172-259 | At the end of a press the pairwise rule describes exactly the words of the language |
| DebounceSwitch.GoodStatesArePrefixes | lib/DebounceSwitchRK/src/DebounceSwitchRK.cpp:172-259 | Anywhere else it describes exactly their prefixes |
| DebounceSwitch.TogglesAlternate | lib/DebounceSwitchRK/src/DebounceSwitchRK.cpp:260-270 | A toggle switch reports its position at first and then every change of it, never the same position twice |

## Left out

- Polygon.CutZone: asks that each part has the dateline offset of the whole, or lies on one side of Greenwich, because a part that straddles Greenwich with another offset is another shape. `InsideCut` has no such condition.
- Polygon.ChainIsAllThatMatters: asks that the offsets do no harm; `DisabledPointDecides` shows why.
- Polygon.GreenwichTells: speaks of zones that contain a point of the meridian. A zone that straddles Greenwich without containing any may or may not be harmed by a wrong offset (`OutAndBack`, `PinchedZoneIsHarmed`): that depends on whether its crossing edges cancel one another as segments, for which no condition simpler than comparing the two answers was found.
- Geofencing.FiresIffSteady: asks that time does not run backwards and that the verification time is not zero; a sample at time zero does not count as a moment, as in the code.
- ConfigShadow.AllOrNothingAsAWhole: for objects whose inner objects have no enter and exit callbacks, as everywhere in the repository, and whose leaves accept some value.
- ConfigLimits.CommandKeepsLimits: asks that a leaf that sets a cell of another leaf has the same or narrower limits, and that shadows are copies of their settings, apart from one another (`Orderly`); without that one leaf can put another out of its limits.
- ConfigHashing.SettingsToldApart: strings are byte sequences, which may contain the byte zero; the strings that `TwoTextsAreConfused` exchanges consist of bytes hashed between them. Two or more strings with a limit, which no module of the firmware has, and enumerations that are neither prefix-free nor suffix-free where that is asked (`EnumsCanBeConfused`): the answer depends on the limits, the names and the bytes in between, and is not stated.
- QueueRuns.RunAll: a restart succeeds in reading its directory, and goes on where the sort of a one-file list has written past its stack (`QuickSortFiles`).
- ConfigService.ConfigModule.FindChild: every child has a name; in the code a child without one matches any.
- PublishConservation.TickPastTimeoutFinishes: asks that the publisher is done with the send, because nothing bounds the time that the cloud takes or that an event is queued.
- LocationSchedule.WaitingRequestIsMet: for evaluations that do not wait for a lock; waiting for one takes ten seconds at most.
- LocationSchedule.AlwaysOnGrid: for runs with constant intervals, within one turn of the 32-bit seconds counter; the early wake time is a constant.
- LocationSchedule.TimePublishesAreBounded: the same.
- ConfigFile.SaveThenLoad: floating-point settings are reals that ten printed decimals represent exactly; how a double is laid out in memory for hashing is a parameter.
- ChargeControl.AlwaysConsistent: calls into the power configuration always succeed.
- `peekFrontSize`: the loop of `peekFront` without the payload.
- File numbers are unbounded: the wrap of the 32-bit number is not modelled, nor are file names other than distinct plain numbers, nor a failed allocation of a list entry.
- Configuration nodes without a name, leaves without callbacks, and callbacks other than the supplied ones; `set_cfg` over several modules, `get_cfg`, acknowledgements and synchronization with the cloud.
- The text of JSON: values are a datatype, and whether a text fits its buffer is a flag. The forms other than plain hexadecimal digits that `sscanf` accepts (white space, signs, a 0x prefix).
- Distances for circular zones: whether a point is far from the center is an input. Floating-point rounding in the polygon test. Zones whose point vector is empty, for which `at(0)` is out of range.
- Callbacks that call back into the service, and the unlocked check of `running` in `publish` against a concurrent `stop`. A send without an event name or request id takes it from its payload: the name is a parameter here.
- PublishSchedule.EnteredAreSent: for names and data that fit the buffers of an event; the code cuts longer ones.
- PublishOutcomes.EventsAreSent: the same.
- LocationSchedule.ReportedExactly: the mark that a publish adds to its triggers after an error of the position receiver.
- Store and forward of locations, sleep preparation and early wake, and control of the position receiver.
- The debounce filter in front of the press state machine.
- User temperature thresholds and alerts.
- Drivers, over-the-air update, modem, watchdog, logging: no logic to prove without the hardware.
