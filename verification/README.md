# Coordination kernel: a verified model

The parts of the system that coordinate several processes over a store, modelled in Dafny and proved over whole runs.

| module | what it models |
|---|---|
| `SyncTypes`, `SyncConvergence`, `SyncClash` | observations, unique indexes, journal mutations, and at-least-once delivery |
| `SyncRecorder` | what the observation repository writes into the journal, and what a replica can make of it |
| `SyncJournal`, `SyncProtocol`, `SyncOverwrite` | export under a watermark, chunk files, import, as one state machine over a source with any number of service objects and a replica |
| `ChunkNames`, `SyncNames`, `SyncFetch` | chunk file names, what pulling files in name order does, and what pulling only new files loses |
| `SyncReplication` | recorder and machine together: from a history of changes to the replica's rows |
| `SyncServiceModel` | `SyncService` and the repository as classes, proved against that machine |
| `SyncCompaction`, `SyncSnapshot`, `SyncCompactedImport` | rebuilding from the journal, full dump and import, the manifest, importing a compacted export |
| `LaunchRegistry`, `LaunchProtocol` | the launch registry and any number of clients, each split at its registry calls |
| `LaunchService`, `LaunchAlone` | `AgentLaunchLifecycleService` as a class, whole calls; a client of the protocol that nothing interrupts does what these do |
| `TaskGraph` | `OrchestrationTask.detect_cycle` |
| `Fpel`, `FpelProtocol` | the freeze, seal, fail gate: as a class with whole calls, and any number of clients split at their repository calls |
| `TaskBoard` | the task board composed with that gate |
| `PollingScheduler`, `PollingLaunches` | `AgentPollingService`, alone and with the launch registry wired in |
| `OutputCaps`, `CircuitBreaker`, `RateLimiter`, `Windows` | budgeted truncation, the tmux circuit breaker, the sliding window |

Where the source changes state step by step, a class or a loop here does the same and is proved equal to a function of
the old state; the results over runs are lemmas about those functions. Clocks, new ids, hash and digest functions, the
JSON escaping length, spawn outcomes and failures of foreign calls are parameters, so every result holds for all of
them. Sequence numbers, timestamps and counters are unbounded, as Python's are.

`dafny verify dfyconfig.toml` checks everything.

## Where the code falls short of what it is meant to do

The model follows the code; the lemmas named here are in the table below.

- The port says that a claim is refused while any blocking launch exists, QUARANTINED included
  (`src/domain/ports/agent_launch_repository.py:32-38`, `src/domain/entities/agent_launch.py:34-42`). The unique index
  omits QUARANTINED (`src/infrastructure/persistence/migrations/030_harden_launch_registry_canonical_key.sql:44-46`).
  The registry is modelled with the index as a parameter: `MutualExclusionIff`, `RequestLaunch`.
- An incremental chunk is documented to carry the full observation (`sync_service.py:583-584`); the recorder stores five
  of the ten fields: `RecordedAlwaysReplicatesIff`.
- The project is one of the five that are dropped, and topic keys are unique per project. Rows of two projects with one
  topic key therefore clash on a replica, which skips the second: `RecordedFirstDeliveryIff`, `TwoProjectsDiverge`.
- Delivering a window again is harmless while a topic key or idempotency key that another row ever wants is given up
  only by deleting its row, as when a deleted topic is saved again. When an update gives one up the replica can end
  elsewhere: `OverlapConverges`, `RecordedKeptIff`, `RedeliveryDiverges`.
- Chunk files are pulled in name order, which is the order of writing only up to 1000 chunks an export and with
  timestamps that sort: `NamesOverRunsIff`, `ThousandDiverges`, `TimestampsDecide`. For the same reason the manifest
  check refuses a good dump of more than 1000 chunks: `SortedIsWrittenOrderIff`, `ManifestRefuses`.
- A pull imports only the files that git has just brought. Those of a pull whose process dies before they are recorded
  are never imported: `NothingLostIff`, `DyingLoses`.
- Two pushes that overlap can move the watermark back, so that entries are exported again: `GoesBackIff`,
  `OverlappingPushesGoBack`.
- Two exports in one millisecond share file names: `ExportKeepsFilesIff`. The runs of `SyncProtocol` are those in which
  this does not happen.
- The topic-key upsert stores the topic as entity key, so that compaction can bring a deleted row back:
  `TopicKeyResurrects`, `SurvivorsLiveIff`. Compaction and replay give the same rows only for payloads with a timestamp,
  which the recorder does not write: `OverlayIsCurrentIff`, `RecordedOverlay`. A deletion is recorded without a project,
  which a compaction for one project overlooks: `FilterResurrects`. And the import of a compacted export only creates
  rows: `CompactedImportIff`.
- The gate's check reads the repository several times, so that it can allow what was never open:
  `AllowedThoughNeverOpen`. What an answer does mean is `AllowedMeans`, and when it was open is `AllowedWasOpenIff`.
- A retry is documented for tasks in progress; the table also lets it approve a plan under review, without an approver:
  `RetryApproves`. Likewise an approval of a task in progress puts it back among the approved: `OperationMeans`.
- A start that the board refuses should fail the poll run; the SQLite repository rejects QUEUED to FAILED, so the poll
  raises and the run goes on blocking: `RefusedStartBlocks`. Likewise a spawning run whose final status is written never
  reaches it: `EndedReachesIff`.
- Cancelling a run resets its task to be picked up again, but leaves the launch of the run alone, which blocks the
  task: it is free again exactly when the registry has no blocking launch of it, and with the registry wired in that is
  never so: `CancelFreesIff`, `CancelNeverFrees`.
- The response budget is meant for whole serialised observations; an added content key is not counted, and an item
  whose empty form fits exactly is dropped: `BudgetKeptIff`, `DroppedIff`.
- A comment says that reserved and spawning launches can begin termination; the table does not let them:
  `BeginTermination`.

## Model

| member | source | states |
|---|---|---|
| `SyncConvergence.RedeliveryStaysClose` | src/application/services/sync/sync_service.py:752-807 | while any stretch of a well-formed journal is delivered again to a replica ahead of it, each row is where the source once had it, or where the replica had it all along, or it is deleted before the stretch ends and holds no key that another row wants and the source's row has not; for journals in which a unique key that another row wants is given up only by deleting its row |
| `SyncConvergence.HeldIsDoomed` | src/infrastructure/persistence/migrations/021_fix_topic_key_unique_index.sql:7-9 | the reason: in such a journal, if the final state gives a unique key of a row to another one, the row is deleted in between |
| `SyncConvergence.OverlapConverges` | src/application/services/sync/sync_service.py:575-653 | for the same journals and all w <= m1 <= m2, delivering (w, m2] to a replica that is at m1 gives exactly the source's state at m2, though entries are skipped for a unique key on the way |
| `SyncConvergence.ScheduleConverges` | src/application/services/sync/sync_service.py:638-653 | for the same journals, any sequence of overlapping windows takes an empty replica to the source's state at the end of the last one |
| `SyncTypes.RefusedIff` | src/domain/entities/observation.py:67-115 | what makes the entity refuse its fields, check by check |
| `SyncTypes.UnclashedMeans` | src/infrastructure/persistence/migrations/021_fix_topic_key_unique_index.sql:7-9 | what the unique indexes keep apart: idempotency keys, and topic keys within a project, no project counting as the empty one |
| `SyncTypes.OwnedIsKept` | src/infrastructure/persistence/migrations/021_fix_topic_key_unique_index.sql:7-9 | a journal in which each unique key belongs to one id is such a journal |
| `SyncConvergence.StaleWindowResurrects` | src/application/services/sync/sync_service.py:708-712 | the counterexample that makes chunk ids necessary: a window that ends before what was delivered can bring a deleted row back |
| `SyncClash.HandoverIsWellFormed` | src/application/services/sync/sync_service.py:752-807 | a journal of eight entries in which topic keys change hands, every one legal when it was recorded and none skipped on first delivery |
| `SyncClash.RedeliveryDiverges` | src/infrastructure/persistence/migrations/021_fix_topic_key_unique_index.sql:7-9 | the same journal delivered again onto its own final state leaves a row with a topic key it had given up: an update gives up a topic key that another row wants, and redelivery does not converge |
| `SyncRecorder.EntryImage` | src/infrastructure/persistence/repositories/observation_repository.py:58-108 | one accepted change: its entry is legal on the replica exactly when it fits the replica's unique indexes, then leads to the image of the next source rows, and is skipped otherwise |
| `SyncRecorder.FirstDeliveryIff` | src/infrastructure/persistence/migrations/021_fix_topic_key_unique_index.sql:7-9 | for any recorder that keeps ids and every accepted history: after every prefix the replica is the recorder's image of the source rows if and only if that image never breaks a unique index |
| `SyncRecorder.WellFormedIff` | src/infrastructure/persistence/repositories/observation_repository.py:97-108 | the recorded journal is well formed under the same condition, and only then |
| `SyncRecorder.JournalImage` | src/infrastructure/persistence/repositories/observation_repository.py:97-108 | under that condition the whole journal is well formed and its replay is the image of the source rows |
| `SyncRecorder.FullPayloadReplicates` | src/application/services/sync/sync_service.py:770-781 | with all ten fields in the payload the condition always holds, and replaying the journal gives exactly the source rows |
| `SyncRecorder.RecordedFirstDeliveryIff` | src/infrastructure/persistence/repositories/observation_repository.py:97-108 | with the five fields that are recorded: the replica is the image of the source after every prefix if and only if at no time two live rows, of whatever projects, shared a topic key |
| `SyncRecorder.RecordedPayloadReplicatesIff` | src/infrastructure/persistence/repositories/observation_repository.py:356-367 | then the ids agree, and the rows agree if and only if every live row has the default in each of the other five fields: the recording time as timestamp, revision 1, and no idempotency key, project or session |
| `SyncRecorder.RecordedAlwaysReplicatesIff` | src/infrastructure/persistence/repositories/observation_repository.py:97-108 | for every accepted history, with no further condition: the replica equals the source after every prefix if and only if every row, as long as it lived, had those defaults |
| `SyncRecorder.RecordedKeptIff` | src/infrastructure/persistence/repositories/observation_repository.py:97-108 | redelivery of the recorded journal meets that condition if and only if no update gives up a topic key that another id ever uses |
| `SyncRecorder.OnlyUpdatesGiveUp` | src/infrastructure/persistence/repositories/observation_repository.py:369-391 | creating rows, deleting them and using their topic keys again always meets it |
| `SyncRecorder.TwoProjectsDiverge` | src/application/services/memory_service.py:46-62 | any two rows of different projects with one topic key: the source keeps both, the replica only the first |
| `SyncRecorder.ProjectIsLost` | src/infrastructure/persistence/repositories/observation_repository.py:97-108 | any row with a project is a concrete case in which the replica differs |
| `SyncReplication.EveryHistoryRuns` | src/domain/ports/sync_repository.py:43-65 | every accepted history whose image never clashes is recorded by a possible run, which leaves exactly its journal |
| `SyncReplication.HistoryReplicates` | src/application/services/sync/sync_service.py:575-750 | end to end: whatever any number of services exported, committed and pulled while a history was recorded, an export and a pull leave the replica with the recorder's image of exactly the source rows, if no row gives up, otherwise than by its deletion, a unique key that another wants, and chunk names are in written order |
| `SyncReplication.HistoryReplicatesIff` | src/infrastructure/persistence/repositories/observation_repository.py:356-367 | with the recorder as it is, while no update gives up a topic key that another id uses, that replica equals the source if and only if every live row has default values in the five fields that are not recorded |
| `SyncReplication.HistoryReplicatesOnce` | src/application/services/sync/sync_service.py:619-653 | when every export commits at once and the watermark never goes back, the image arrives although unique keys change hands |
| `SyncJournal.SinceIsSuffix` | src/domain/ports/sync_repository.py:67-77 | the entries after a watermark are exactly the part of the journal past the cut |
| `SyncJournal.ChunksPartition` | src/application/services/sync/sync_service.py:610-614 | the chunks of an export read one after another are the mutations, none is empty, all but the last have exactly the chunk size, and they are numbered in order |
| `SyncProtocol.RunKeepsSourceInv` | src/application/services/sync/sync_service.py:597-653 | over every run of recording, and of exporting (either flag), committing and restarting by any number of service objects, and of pulling: every exported entry is in a chunk, chunk ids differ, and, if wanted unique keys are given up only by deletion, what the chunks hold, replayed, is the source's state at the highest exported entry |
| `SyncProtocol.DeferredCommit` | src/application/services/sync/sync_service.py:638-653 | what a push does in two steps, an export without commit and then its commit, is exactly an export that commits at once, and moves the watermark to the end of the journal, so that nothing is pending |
| `SyncProtocol.RestartForgets` | src/application/services/sync/sync_service.py:645-648 | a service restarted between export and commit commits nothing and loses nothing |
| `SyncProtocol.WatermarkIsCovered` | src/application/services/sync/sync_service.py:619-653 | over every such run, every entry at or below the watermark is in some chunk |
| `SyncProtocol.GoesBackIff` | src/application/services/sync/sync_service.py:638-653 | a step moves the watermark back if and only if it commits a pending export that another service has already gone past |
| `SyncProtocol.WatermarkIsSafe` | src/application/services/sync/sync_service.py:638-653 | over every run without such a commit the watermark never goes back |
| `SyncProtocol.OneServiceNeverBack` | src/application/services/sync/sync_service.py:638-653 | a service that is alone never makes one |
| `SyncProtocol.OverlappingPushesGoBack` | src/interfaces/cli/commands/sync.py:115-132 | two pushes that overlap, the second committing before the first, do move it back |
| `SyncProtocol.CommittedRunsExportOnce` | src/application/services/sync/sync_service.py:623-627 | when every export commits at once and the watermark never goes back, the chunks read in order are exactly the journal up to the watermark: each entry once |
| `SyncProtocol.ImportCatchesUp` | src/application/services/sync/sync_service.py:708-745 | importing any prefix of the chunks in written order skips the recorded ones, applies the others, and never raises |
| `SyncProtocol.RaisingImport` | src/application/services/sync/sync_service.py:721-745 | an import that raises in a chunk has applied the lines before that one, has not recorded the chunk, and leaves the later chunks alone |
| `SyncProtocol.PullReplicates` | src/infrastructure/sync/git_sync.py:89-115 | after any run that ends with a pull, which takes the files by name, the replica is exactly the source as of the highest exported entry, if name order is written order and wanted unique keys are given up only by deletion |
| `SyncProtocol.PullReplicatesOnce` | src/infrastructure/sync/git_sync.py:89-115 | with exports that commit at once the same for the entries up to the watermark, for all journals |
| `SyncProtocol.ExportThenPullReplicates` | src/application/services/sync/sync_service.py:575-750 | under the conditions of PullReplicates, an export with a positive chunk size and then a pull make the replica equal to the source, after any run |
| `SyncProtocol.SecondImportIsIdle` | src/application/services/sync/sync_service.py:709-712 | importing any of the same chunks again, in any order, changes nothing and does not raise |
| `SyncNames.NamesOverRunsIff` | src/infrastructure/sync/git_sync.py:112 | over every run, name order is written order if and only if every export that wrote chunks wrote at most 1000 and had a timestamp that sorts after those of all exports before it |
| `SyncNames.OneExportInNameOrderIff` | src/application/services/sync/sync_service.py:655-660 | the chunks of one export are in name order if and only if there are at most 1000 |
| `SyncNames.ThousandDiverges` | src/interfaces/cli/commands/sync.py:149-156 | for every larger number a journal without unique keys whose one export, pulled once, leaves on the replica a row that the source has deleted |
| `SyncNames.TimestampsDecide` | src/infrastructure/sync/git_sync.py:112 | two exports, an insertion and the deletion of its row, pulled together: the replica ends like the source if and only if the first timestamp sorts before the second |
| `SyncFetch.NothingLostIff` | src/infrastructure/sync/git_sync.py:111-112 | over every run of pulls that import only the files new in the directory: everything fetched is recorded in the end if and only if each pull recorded every file it presented before its process ended |
| `SyncFetch.LostStaysLost` | src/infrastructure/sync/git_sync.py:111-112 | a file that was fetched and not recorded is recorded by no later pull |
| `SyncFetch.DyingInChunk` | src/application/services/sync/sync_service.py:721-745 | a process that dies in a chunk leaves the chunks before it recorded, some lines of that one applied, and it not recorded |
| `SyncFetch.DyingLoses` | src/interfaces/cli/commands/sync.py:149-156 | a process that dies between fetch and import loses every new file in this way |
| `SyncFetch.RegularIsPull` | src/infrastructure/sync/git_sync.py:111-112 | while nothing is lost, importing the new files is importing them all, as the machine does |
| `SyncOverwrite.ReuseLoses` | src/application/services/sync/sync_service.py:662-665 | a chunk file name used twice loses the mutations that only the first file had |
| `SyncOverwrite.ExportKeepsFilesIff` | src/application/services/sync/sync_service.py:606-613 | after any run of committing exports, an export keeps every written mutation on disk if and only if no chunk file of its millisecond exists |
| `SyncServiceModel.ObservationRepository.Create` | src/infrastructure/persistence/repositories/observation_repository.py:58-95 | fails and changes nothing on a present id or a broken unique index, else adds the row; rows that keep the indexes go on keeping them |
| `SyncServiceModel.ObservationRepository.Update` | src/infrastructure/persistence/repositories/observation_repository.py:322-354 | fails and changes nothing on an absent id or a broken unique index, else replaces the row; rows that keep the indexes go on keeping them |
| `SyncServiceModel.ObservationRepository.Delete` | src/infrastructure/persistence/repositories/observation_repository.py:369-391 | fails on an absent id; either way the id is absent afterwards |
| `SyncServiceModel.SyncService.ApplyMutation` | src/application/services/sync/sync_service.py:752-807 | the rows become the specification's, unique-index clashes included; inserted means one row more, deleted one row fewer, updated the same ids, skipped or raised no change |
| `SyncServiceModel.SyncService.ImportLines` | src/application/services/sync/sync_service.py:721-734 | the lines up to the first that raises are applied in order, and the four counts account for each of them and for the change in size |
| `SyncServiceModel.SyncService.ImportChunkFile` | src/application/services/sync/sync_service.py:708-745 | a chunk is recorded only when all its lines were applied; one recorded before changes nothing |
| `SyncServiceModel.SyncService.ImportMutations` | src/application/services/sync/sync_service.py:684-750 | rows, recorded chunk ids and raising are those of the replication machine on the chunks whose file can be opened, and inserted less deleted is the change in size |
| `SyncServiceModel.SyncService.WriteChunks` | src/application/services/sync/sync_service.py:609-614 | the loop over offsets writes the specified chunks, returns their ids, and ends with the highest sequence number although it keeps only the last batch's |
| `SyncServiceModel.SyncService.ExportIncremental` | src/application/services/sync/sync_service.py:575-636 | the source becomes the replication machine's, for zero and negative chunk sizes too, and the returned ids are those of the new files |
| `SyncServiceModel.SyncService.CommitExportWatermark` | src/application/services/sync/sync_service.py:638-653 | the pending export's highest sequence number becomes the watermark, or nothing changes when there is none |
| `SyncCompaction.CollectPayloads` | src/application/services/sync/sync_service.py:194-219 | exactly the keys whose last relevant mutation is not a delete, with that mutation's payload, and the true maximum sequence number, for every project filter |
| `SyncCompaction.ReconstructFromMutations` | src/application/services/sync/sync_service.py:175-251 | the same for the built observations; it refuses exactly when some last payload is one the entity refuses |
| `SyncCompaction.LastEntriesAreLast` | src/application/services/sync/sync_service.py:200-213 | the per-key overwriting walk and the definition of a key's last entry agree |
| `SyncCompaction.LastEntriesSettle` | src/application/services/sync/sync_service.py:200-213 | replaying a window leaves each row as the last entry for its id says, and every other row alone, whatever the entity keys |
| `SyncCompaction.FilterIsProject` | src/application/services/sync/sync_service.py:204-206 | with a project filter, compaction is that of the entries recorded for the project |
| `SyncCompaction.FilterResurrects` | src/infrastructure/persistence/repositories/observation_repository.py:391-393 | a deletion is recorded without the project: any row of a project that was created and deleted survives a compaction filtered by that project |
| `SyncCompaction.NeverRefused` | src/application/services/sync/sync_service.py:235-246 | no payload of a well-formed journal is one that the entity refuses, so that its compaction never raises |
| `SyncCompaction.OverlayIsCurrentIff` | src/application/services/sync/sync_service.py:175-251 | for every well-formed journal keyed by row id and every watermark: overlaying the compacted window on the state at the watermark, less the rows last deleted, gives the current ids, and the current state if and only if the last entry of every other changed row is rebuilt alike by both importers |
| `SyncCompaction.RecordedOverlay` | src/infrastructure/persistence/repositories/observation_repository.py:97-108 | for what the recorder writes without upserts: the right ids, and the right rows but for the timestamp, which is 0 in every changed row |
| `SyncCompaction.SameRebuildIff` | src/application/services/sync/sync_service.py:235-246 | snapshot and incremental import build the same observation from an entry if and only if the payload has a timestamp (or the entry was made at time 0) and an allowed type |
| `SyncCompaction.TopicKeyResurrects` | src/infrastructure/persistence/repositories/observation_repository.py:594-605 | the topic-key upsert records the topic as entity key: create, upsert and delete any row, and compaction brings the deleted row back as an observation the entity accepts |
| `SyncCompaction.SurvivorsLiveIff` | src/application/services/sync/sync_service.py:194-219 | compaction rebuilds live rows only if and only if no surviving entry is for a row whose own last entry is a delete, which is always so when the keys are row ids |
| `SyncCompactedImport.CompactedImportIff` | src/application/services/sync/sync_service.py:347-485 | importing a compacted window, listed in any order, into a replica at the watermark gives the current state if and only if every row deleted since was not there, every changed row that was there has not really changed, and every new one is rebuilt alike; unique keys play no part |
| `SyncSnapshot.NormalMeans` | src/application/services/sync/sync_service.py:446-455 | a line is never refused for its type, which is dropped when it is not allowed, and nothing else of it changes |
| `SyncSnapshot.AddAllInto` | src/application/services/sync/sync_service.py:460-481 | no line is refused for a unique key while the rows are, and come to be, part of a store that keeps the unique indexes |
| `ChunkNames.NamesAscendIff` | src/application/services/sync/sync_service.py:255-256 | chunk names of one export, full or incremental, sort in the order they are written if and only if there are at most 1000 |
| `ChunkNames.EarlierIff` | src/application/services/sync/sync_service.py:655-660 | timestamps of equally many digits sort as numbers, so by age |
| `ChunkNames.NamesDiffer` | src/application/services/sync/sync_service.py:255-256 | two chunks never share a name unless timestamp and index agree |
| `ChunkNames.SortedIsWrittenOrderIff` | src/application/services/sync/sync_service.py:337 | the manifest check reads the files in written order if and only if there are at most 1000 |
| `SyncSnapshot.ByTimeKeepsAll` | src/application/services/sync/sync_service.py:139 | sorting by timestamp keeps every observation |
| `SyncSnapshot.ByTimeSorts` | src/application/services/sync/sync_service.py:139 | the dump is sorted by timestamp, and observations of one timestamp keep their order |
| `SyncSnapshot.Dump` | src/application/services/sync/sync_service.py:135-152 | a positive chunk size partitions the sorted list into chunks of exactly that size but for a smaller last one, a negative one writes nothing, 0 divides by zero |
| `SyncSnapshot.CutParts` | src/application/services/sync/sync_service.py:146-152 | the slice arithmetic loses and repeats nothing |
| `SyncSnapshot.SnapshotImporter.ImportObservations` | src/application/services/sync/sync_service.py:347-406 | the rows gain, in order, exactly the parsed lines of present chunks not imported before whose id is new and which break no unique index, the count is the change in size, and every present chunk is recorded; it raises exactly when such a line is one the entity refuses, and then the lines before it are stored |
| `SyncSnapshot.SnapshotImporter.ImportSingleChunk` | src/application/services/sync/sync_service.py:408-485 | the same for one chunk |
| `SyncSnapshot.SnapshotRoundTrips` | src/application/services/sync/sync_service.py:100-173 | the chunk files of a dump of a store that keeps its unique indexes restore exactly that store in an empty one with the full count; a second import adds nothing, with or without the recorded names |
| `SyncSnapshot.ManifestValidates` | src/application/services/sync/sync_service.py:306-345 | a dump of at most 1000 chunks passes its own manifest check, for every digest |
| `SyncSnapshot.ManifestRefuses` | src/application/services/sync/sync_service.py:336-344 | for every larger number of chunks, contents and a digest for which the check refuses the files it was written for |
| `LaunchProtocol.MutualExclusion` | src/application/services/agent_launch_lifecycle_service.py:88-181 | in every interleaving of any number of clients, split at their registry calls and failing anywhere, at most one launch per key is blocking, given the claim that the port promises |
| `LaunchProtocol.InFlightExclusion` | src/infrastructure/persistence/migrations/030_harden_launch_registry_canonical_key.sql:44-46 | with the index as SQLite has it, at most one launch per key is in flight |
| `LaunchProtocol.QuarantineDoesNotBlock` | src/infrastructure/persistence/migrations/030_harden_launch_registry_canonical_key.sql:44-46 | with that index a run in which a key has two blocking launches, one of them quarantined |
| `LaunchProtocol.MutualExclusionIff` | src/domain/ports/agent_launch_repository.py:30-39 | all runs keep at most one blocking launch per key if and only if the claim's index covers QUARANTINED |
| `LaunchProtocol.ClaimedIsAlone` | src/application/services/agent_launch_lifecycle_service.py:144-181 | a successful claim makes its new, reserved launch the only one of the key in an indexed status |
| `LaunchProtocol.LineageAndHandles` | src/application/services/agent_launch_lifecycle_service.py:418-448 | in every interleaving launches form an acyclic forest with chains of at most 16, active ones have a handle and no lease |
| `LaunchProtocol.AtMostFourChanges` | src/domain/entities/agent_launch.py:53-80 | in every interleaving one launch changes its status at most four times |
| `LaunchProtocol.StatusMoves` | src/domain/entities/agent_launch.py:53-80 | every status change is an edge of the table and lowers the rank |
| `LaunchProtocol.TerminalIsFinal` | src/domain/entities/agent_launch.py:45-51 | in every interleaving a terminal status never changes |
| `LaunchRegistry.CasKeepsExclusive` | src/domain/ports/agent_launch_repository.py:68-76 | a compare-and-set along an edge never enters the blocking statuses from outside |
| `LaunchRegistry.EntersFrom` | src/domain/entities/agent_launch.py:53-80 | the transition table read by the status entered: forward only, any launch that is not terminal can fail, quarantine is left only for a terminal status |
| `LaunchRegistry.ReconciledMeans` | src/application/services/agent_launch_lifecycle_service.py:364-392 | reconciling quarantines exactly the launches that never became active and whose lease time has come, leaves none behind, changes nothing else, frees no key, and does nothing when repeated |
| `LaunchRegistry.ClaimKeepsForest` | src/application/services/agent_launch_lifecycle_service.py:125-154 | a new launch under an admitted parent keeps the forest and its depth bound |
| `LaunchRegistry.ForestIsAcyclic` | src/application/services/agent_launch_lifecycle_service.py:418-448 | in a forest no launch is its own ancestor at any distance |
| `LaunchRegistry.RevisitNeverEnds` | src/application/services/agent_launch_lifecycle_service.py:440-441 | a chain of parents that meets an id twice never ends, so the visited set only refuses what the depth bound refuses too |
| `LaunchService.ValidateParent` | src/application/services/agent_launch_lifecycle_service.py:418-448 | the walk with its visited set and counter accepts exactly the parents that exist, are not the new launch or below it, and whose chain ends within 14 links, on any registry, cyclic or not |
| `LaunchService.AcceptedIsAbove` | src/application/services/agent_launch_lifecycle_service.py:418-448 | on any registry, cyclic or not, the chain above an accepted parent ends and never meets the new launch, so that a claim closes no cycle |
| `LaunchService.AcceptsParentInForest` | src/application/services/agent_launch_lifecycle_service.py:431-448 | in every reachable registry that is: a registered parent with at most 14 proper ancestors |
| `LaunchService.LifecycleService.RequestLaunch` | src/application/services/agent_launch_lifecycle_service.py:70-194 | granted exactly when the id is new, the parent acceptable, and the way clear, for every index: no blocking launch was found, or the found one has no valid lease and, once quarantined if stale, no launch of the key is indexed; with the promised index that is when no blocking launch exists. A granted launch is reserved with lease and parent and alone among the indexed; only stale launches of the key are quarantined |
| `LaunchService.LifecycleService.MakeWay` | src/application/services/agent_launch_lifecycle_service.py:88-111 | suppressed only by a found launch with a valid lease; quarantines at most a stale launch of the key, which stays blocking; otherwise the key is free of indexed launches exactly under the stated condition on the registry before |
| `LaunchService.LifecycleService.TryClaim` | src/application/services/agent_launch_lifecycle_service.py:140-154 | claims exactly when the id is new and no launch of the key has an indexed status |
| `LaunchService.LifecycleService.ConfirmSpawning` | src/application/services/agent_launch_lifecycle_service.py:196-202 | moves exactly a reserved launch |
| `LaunchService.LifecycleService.ConfirmActive` | src/application/services/agent_launch_lifecycle_service.py:204-243 | moves exactly a spawning launch, stores the handle and clears the lease |
| `LaunchService.LifecycleService.MarkFailed` | src/application/services/agent_launch_lifecycle_service.py:245-265 | fails exactly the launches that are not terminal |
| `LaunchService.LifecycleService.BeginTermination` | src/application/services/agent_launch_lifecycle_service.py:267-282 | moves exactly an active launch (the comment there that reserved and spawning ones work too is wrong) |
| `LaunchService.LifecycleService.ConfirmTerminated` | src/application/services/agent_launch_lifecycle_service.py:284-296 | moves exactly a terminating launch |
| `LaunchService.LifecycleService.Quarantine` | src/application/services/agent_launch_lifecycle_service.py:298-310 | moves exactly reserved, spawning and active launches |
| `LaunchService.LifecycleService.ReconcileExpiredLeases` | src/application/services/agent_launch_lifecycle_service.py:364-392 | quarantines exactly the reserved and spawning launches whose lease has expired, though it is handed any blocking one |
| `LaunchAlone.RequestAlone` | src/application/services/agent_launch_lifecycle_service.py:70-194 | the split calls refine the whole ones: a request that nothing interrupts is granted exactly under the condition of RequestLaunch, leaves exactly that registry, and ends within 24 registry calls |
| `LaunchAlone.WalkAlone` | src/application/services/agent_launch_lifecycle_service.py:431-448 | an uninterrupted walk reaches the claim exactly when the parent is acceptable |
| `LaunchAlone.ConfirmsAlone` | src/application/services/agent_launch_lifecycle_service.py:196-243 | the confirming calls move exactly a launch in the status they start from |
| `LaunchAlone.MovesAlone` | src/application/services/agent_launch_lifecycle_service.py:245-310 | failing takes every launch that is not terminal, terminating an active one, quarantining a reserved, spawning or active one |
| `LaunchAlone.ReconcileAlone` | src/application/services/agent_launch_lifecycle_service.py:364-392 | an uninterrupted reconciliation of the listed launches is Reconciled |
| `TaskGraph.DetectCycle` | src/domain/entities/orchestration_task.py:132-158 | true if and only if the graph over the listed tasks has a cycle; ids outside the list are leaves |
| `TaskGraph.CycleSearch.Dfs` | src/domain/entities/orchestration_task.py:143-156 | found only if there is a cycle; otherwise the stack is restored and everything newly visited is closed under dependency and on no cycle; the unvisited ids decrease |
| `TaskGraph.FinishOne` | src/domain/entities/orchestration_task.py:152-156 | an id all of whose dependencies are finished lies on no cycle |
| `TaskGraph.StackCloses` | src/domain/entities/orchestration_task.py:144-145 | meeting an id on the stack closes a cycle |
| `Fpel.AuthorizationService.Freeze` | src/application/services/fpel_authorization_service.py:137-157 | the new proposal becomes the target's only active one, with the hash of its content |
| `Fpel.AuthorizationService.Seal` | src/application/services/fpel_authorization_service.py:280-326 | seals or refuses as SealGrantedIff and RefusalMeans say |
| `Fpel.AuthorizationService.AllCheckersPassed` | src/application/services/fpel_authorization_service.py:305-316 | true exactly when there are checkers and each has reported PASS |
| `Fpel.AuthorizationService.CheckSealed` | src/application/services/fpel_authorization_service.py:40-113 | the decision whose meaning DenialMeans and AllowedIffOpen state |
| `Fpel.AuthorizationService.MarkFail` | src/application/services/fpel_authorization_service.py:119-131 | fails the active proposal; the first reason stays |
| `Fpel.AuthorizationService.SnapshotLegacy` | src/application/services/fpel_authorization_service.py:461-502 | returns a live sealed proposal or refuses; exactly a target without active proposal is frozen and sealed at once |
| `Fpel.SealGrantedIff` | src/application/services/fpel_authorization_service.py:280-326 | a seal is granted if and only if the proposal is active, not failed, not sealed, its target not failed for good, the reported hash, if any, that of its content, and all of a non-empty checker list passed it; then exactly a verdict with that hash is stored, else nothing changes |
| `Fpel.RefusalMeans` | src/application/services/fpel_authorization_service.py:282-316 | for an active proposal, which state of affairs each refusal stands for |
| `Fpel.NothingFrozen` | src/application/services/fpel_authorization_service.py:282-285 | a seal finds nothing to seal exactly when the target has no active proposal |
| `Fpel.DenialMeans` | src/application/services/fpel_authorization_service.py:52-105 | which state of affairs each denial of the gate stands for, for the hash brought or else reported |
| `Fpel.ReportCounts` | src/application/services/fpel_authorization_service.py:305-316 | the last report of a checker decides |
| `Fpel.SnapshotOpensIff` | src/application/services/fpel_authorization_service.py:461-502 | a legacy snapshot opens the gate for its content's hash if and only if the target had no active proposal and the id is new; else it changes nothing |
| `Fpel.FirstReasonStays` | src/infrastructure/persistence/repositories/fpel_repository.py:229-239 | the reason of the first fail of a proposal stays through any operations, further fails included |
| `Fpel.RunKeepsInv` | src/application/services/fpel_authorization_service.py:137-157 | over every run of whole calls each target has at most one active proposal, and every verdict carries the hash of its proposal's content |
| `Fpel.VerdictWasEarned` | src/application/services/fpel_authorization_service.py:280-326 | with whole calls, every verdict that is not legacy was made by a seal at a moment when it was earned: active, not failed, target not failed for good, no other hash reported than that of its content, and PASS from all of a non-empty checker list |
| `Fpel.FailIsFinal` | src/application/services/fpel_authorization_service.py:61-71 | after a fail no sequence of whole calls without a new freeze of the target opens its gate, for any hash |
| `Fpel.AllowedIffOpen` | src/application/services/fpel_authorization_service.py:88-113 | a caller that brings a hash is allowed if and only if a live seal of exactly that hash exists, and the sealed content has that hash |
| `Fpel.OpenStays` | src/application/services/fpel_authorization_service.py:40-113 | an open gate closes only by a freeze or a fail of its own target |
| `FpelProtocol.AloneIsWhole` | src/application/services/fpel_authorization_service.py:40-326 | the split calls refine the whole ones: any call that nothing interrupts ends within eight repository calls, has done what the whole call does, and a check allows exactly when the gate decides so |
| `FpelProtocol.RunKeepsInv` | src/infrastructure/persistence/migrations/034_add_fpel_active_proposal_unique_index.sql:6-8 | in every interleaving of any number of clients, split at their repository calls and failing anywhere: at most one active proposal per target, verdicts carry their proposal's hash, and no proposal, verdict or failure is ever taken back |
| `FpelProtocol.VerdictWasEarned` | src/application/services/fpel_authorization_service.py:280-326 | in every interleaving a verdict that is not legacy was earned: its proposal was active, later not failed, later its target not failed for good, later no other hash reported than that of its content, later it had checkers, and later each of these had reported PASS |
| `FpelProtocol.AllowedMeans` | src/application/services/fpel_authorization_service.py:40-113 | a check that allows read a proposal as active, later as not failed, and later as sealed with the hash it was given, which is its content's; the gate was open at the first read if and only if the seal was there by then |
| `FpelProtocol.AllowedWasOpenIff` | src/application/services/fpel_authorization_service.py:40-113 | the proposal that an allowing check found was at some moment open for the hash if and only if it was still active and not failed at the first moment at which it was sealed |
| `FpelProtocol.AllowedThoughNeverOpen` | src/application/services/fpel_authorization_service.py:52-96 | a run in which a check allows a hash for which the gate was open at no moment: superseded and sealed between its reads |
| `FpelProtocol.FailIsFinal` | src/infrastructure/persistence/repositories/fpel_repository.py:229-248 | after a fail was stored, a check that starts later can allow only a proposal stored after the fail, whatever was in flight |
| `TaskBoard.StartsAreSealed` | src/application/services/task_board_service.py:190-228 | in every interleaving of board and gate clients, all split at their repository calls, a row enters IN_PROGRESS only by a save whose own operation, after reading the row, found a proposal active, then not failed, then sealed, with exactly the hash of the content that the row now has |
| `TaskBoard.EveryWriteIsBacked` | src/application/services/task_board_service.py:204-227 | the invariant behind it: every pending write that starts a task, and every check on the way to one, is backed by what the same operation has read since it read the row |
| `TaskBoard.OperationMeans` | src/application/services/task_board_service.py:97-283 | for every operation, the statuses in which it is admitted, the status it leads to, and field by field what it writes; every move is an edge of the table |
| `TaskBoard.ChangesAreNamed` | src/application/services/task_board_service.py:97-283 | in every interleaving a stored row changes only by the save of one operation, admitted in the status the row still has, and a status changes only along an edge, to the one that operation is for |
| `TaskBoard.CompletedByComplete` | src/application/services/task_board_service.py:230-249 | so a task is completed only by a complete and starts only by a start; it becomes approved by an approve or a retry |
| `TaskBoard.RowsComeAndGo` | src/application/services/task_board_service.py:40-75 | a row comes into being pending, without plan or approver, under a new id, and goes only when removed |
| `TaskBoard.RetryApproves` | src/application/services/task_board_service.py:251-267 | a retry, meant for a task in progress, approves a plan that nobody has approved |
| `TaskBoard.UninterruptedIsWhole` | src/application/services/task_board_service.py:190-228 | the interleaving refines the whole operations: one that nothing interrupts, the gate's repository calls included, does to the rows what the whole operation does |
| `TaskBoard.ContentMeans` | src/domain/services/fpel_content_hash.py:20-36 | the hashed content: the plan, else the subject and, on a second line, a description that is not empty |
| `TaskBoard.LifecycleKeepsContent` | src/domain/services/fpel_content_hash.py:20-36 | operations that change only status or owner leave the task hash and the blockers alone |
| `TaskBoard.SealedStaysStartable` | src/application/services/task_board_service.py:251-267 | a task whose content is frozen and sealed stays startable whenever approved and unblocked, through any moves that leave its content and its proposal alone, retries included |
| `TaskBoard.FreezeAndSealOpensIff` | src/application/services/fpel_authorization_service.py:159-173 | freezing a task and then sealing it opens the gate for the hash that start computes if and only if all checkers have passed the new proposal, the target is not failed for good, and no other hash is reported |
| `TaskBoard.TaskBoardService.Apply` | src/application/services/task_board_service.py:97-283 | succeeds exactly when the operation is admitted in the row's status, and then the row has exactly the fields written that the operation is to write; no other row changes |
| `TaskBoard.TaskBoardService.StartTask` | src/application/services/task_board_service.py:190-228 | starts exactly an approved, unblocked task whose gate is open for its content, setting status, owner and requester and nothing else |
| `TaskBoard.TaskBoardService.FreezeTask` | src/application/services/fpel_authorization_service.py:159-173 | the frozen hash is the hash that start will compute |
| `TaskBoard.TaskBoardService.ResolveBlockers` | src/application/services/task_board_service.py:289-322 | exactly the tasks blocked by the given one all of whose blockers are completed, deleted or gone |
| `PollingScheduler.ScheduleIsSafe` | src/application/services/agent_polling_service.py:105-258 | from any state with one blocking run per task and at most the cap, over every run of poll, check and cancel, with whatever outcomes and exceptions: no task has two blocking runs and there are never more than the cap |
| `PollingScheduler.PollIsSafe` | src/application/services/agent_polling_service.py:105-153 | a poll leaves at most the larger of the cap and what was there, and blocks only further tasks that were approved and free in the registry |
| `PollingScheduler.SpawnedIsSafe` | src/application/services/agent_polling_service.py:277-463 | an attempt adds at most one blocking run, for its own task, whatever its outcome |
| `PollingScheduler.CheckedIsSafe` | src/application/services/agent_polling_service.py:155-233 | checking starts nothing: every blocking run was blocking before, for the same task |
| `PollingScheduler.EndedRunsStay` | src/infrastructure/persistence/repositories/poll_run_repository.py:123-146 | with a repository that checks transitions, an ended run never changes through any schedule of polls with new run ids, checks and cancellations |
| `PollingScheduler.RefusedStartBlocks` | src/application/services/agent_polling_service.py:330-340 | after a start that the board refuses, with a repository that checks transitions and through any continuation until that run is cancelled: the run goes on blocking, its task is no candidate of any poll, and the other runs share a cap that is one smaller; without the check it blocks nothing |
| `PollingScheduler.QueuedIsQuarantinedAtOnce` | src/application/services/agent_polling_service.py:168-177 | a run left queued has no start time, so its first check quarantines it instead of waiting five minutes |
| `PollingScheduler.PollingService.SpawnRun` | src/application/services/agent_polling_service.py:277-463 | the steps of an attempt leave the status that the outcome determines |
| `PollingScheduler.PollingService.PollOnce` | src/application/services/agent_polling_service.py:105-153 | candidates are chosen once, against the runs before the poll, and spawned in order until one raises |
| `PollingScheduler.PollingService.CheckRuns` | src/application/services/agent_polling_service.py:155-233 | each listed run is handled by what its file says, until something raises |
| `PollingScheduler.EndedReachesIff` | src/application/services/agent_polling_service.py:537-572 | a run whose final status is written reaches it if and only if nothing else goes wrong and it was running or terminating, or the repository does not check; a checked queued run is cancelled instead, a checked spawning one stays, and both raise; no other run changes |
| `PollingScheduler.PollingService.CancelRun` | src/application/services/agent_polling_service.py:235-258 | cancels exactly a run whose status allows it |
| `PollingScheduler.CheckDecides` | src/application/services/agent_polling_service.py:155-233 | what a check makes of one run, by its status, its file and the timeout: completed, failed, quarantined or as it was, and whether it raises; no other run changes |
| `PollingScheduler.CheckedEach` | src/application/services/agent_polling_service.py:155-233 | a check works through its list, each run by itself, up to the first on which it raises |
| `PollingScheduler.InterruptedEnd` | src/application/services/agent_polling_service.py:602-610 | when closing the agent raises, the run is left terminating, or cancelled if it was queued |
| `PollingScheduler.CandidatesIff` | src/application/services/agent_polling_service.py:121-147 | the candidates are exactly the approved tasks without a blocking run that the registry does not block |
| `PollingScheduler.CandidatesSplit` | src/application/services/agent_polling_service.py:121-147 | in the order of the list |
| `PollingScheduler.PollAttempts` | src/application/services/agent_polling_service.py:117-153 | a poll attempts the candidates in order, as many as there are free places, until one raises; every attempt leaves its run as its outcome means, and no other run changes |
| `PollingScheduler.AttemptSettles` | src/application/services/agent_polling_service.py:277-463 | an attempt raises exactly when it leaves no run, a queued or a spawning one, or when only its last report fails; which outcomes leave which status |
| `PollingScheduler.TimeoutMeans` | src/application/services/agent_polling_service.py:168-177 | a run has timed out five minutes after its start, or after the epoch when it has no start time |
| `PollingScheduler.UpdateMeans` | src/infrastructure/persistence/repositories/poll_run_repository.py:123-160 | an update along the table writes the status, and the start time with one that is not final; any other raises and changes nothing |
| `PollingScheduler.EntersFrom` | src/infrastructure/persistence/repositories/poll_run_repository.py:123-146 | the transition table read by the status entered |
| `PollingLaunches.OutcomeMeans` | src/application/services/agent_polling_service.py:324-463 | what a granted attempt leaves fits together: a run is quarantined exactly when its launch is, and whenever it blocks so does the launch |
| `PollingLaunches.CheckFinalizes` | src/application/services/agent_polling_service.py:574-610 | a running run that is checked takes its active launch with it: terminated when completed, failed when failed or the file is missing, left alone otherwise |
| `PollingLaunches.FinalizedMeans` | src/application/services/agent_polling_service.py:574-600 | finalizing fails every launch that can fail, or terminates one that is active or terminating, and changes nothing else |
| `PollingLaunches.ChecksAsBefore` | src/application/services/agent_polling_service.py:155-233 | with the registry wired in, checking does to the runs what it does without |
| `PollingLaunches.PollsAsBefore` | src/application/services/agent_polling_service.py:105-153 | and a poll what it does for which the reconciled registry says what it blocks |
| `PollingLaunches.SpawnsAsBefore` | src/application/services/agent_polling_service.py:277-463 | each granted attempt leaves its launch: with a lease until it is active, with a handle from then on |
| `PollingLaunches.CancelFreesIff` | src/application/services/agent_polling_service.py:235-258 | after a run is cancelled its task, approved again, is a candidate of the next poll if and only if the registry has no blocking launch of it |
| `PollingLaunches.RunKeepsLinked` | src/application/services/agent_polling_service.py:277-330 | in every state that polls with new run ids, checks and cancellations lead to, every blocking run has a blocking launch of its task, no task has two blocking runs, and launches have their handles and leases |
| `PollingLaunches.CancelNeverFrees` | src/application/services/agent_polling_service.py:248-258 | so cancelling never frees a task: whatever run is cancelled in whatever such state, no later poll has its task as a candidate, although the cancellation resets it to be picked up |
| `PollingLaunches.CancelledIsNeverRunAgain` | src/application/services/agent_polling_service.py:235-258 | the same from any state with one blocking run per task, for a run of any status that can be cancelled whose launch is blocking |
| `PollingLaunches.StaysOrphaned` | src/application/services/agent_polling_service.py:574-610 | the invariant behind it: a blocking launch without a blocking run of its task stays so |
| `OutputCaps.TruncationFills` | src/application/services/output_caps.py:21-39 | flagged exactly when over the budget; a flagged text has exactly the budget's length; truncating again changes nothing |
| `OutputCaps.CapResponse` | src/application/services/output_caps.py:42-143 | the loop computes the recursive specification |
| `OutputCaps.CutFits` | src/application/services/output_caps.py:84-134 | whatever the escaping, the text chosen by the nested attempts makes the item fit what is left |
| `OutputCaps.FitsBudget` | src/application/services/output_caps.py:62-143 | when every observation has a content key, the serialised items take at most 4 characters a token, for any escaping |
| `OutputCaps.StaysInBudget` | src/application/services/output_caps.py:74-79 | in general the excess is at most what the added content keys take |
| `OutputCaps.BudgetKeptIff` | src/application/services/output_caps.py:74-79 | the budget is kept for every number of tokens if and only if every observation has a content key |
| `OutputCaps.MissingKeyBreaks` | src/application/services/output_caps.py:77 | when one lacks it, the smallest budget that all of them fit into is exceeded |
| `OutputCaps.MissingKeyOverruns` | src/application/services/output_caps.py:77 | an instance: an empty object against a budget of one token |
| `OutputCaps.KeepsOrder` | src/application/services/output_caps.py:65-143 | the result is a subsequence of the input and only its last item can be cut |
| `OutputCaps.DroppedIff` | src/application/services/output_caps.py:91-93 | an observation reached with budget left is dropped if and only if it does not fit whole and its empty-content form leaves no room, also when that form would have fitted exactly |
| `OutputCaps.LeftIsUnspent` | src/application/services/output_caps.py:79 | the budget left is the budget less what was returned, until one is cut |
| `OutputCaps.AllKeptIff` | src/application/services/output_caps.py:65-79 | everything comes back whole if and only if it all fits |
| `OutputCaps.CutKeepsPrefix` | src/application/services/output_caps.py:110-134 | what replaces the content is a beginning of it and then a beginning of the marker |
| `OutputCaps.EscapesCostLittle` | src/application/services/output_caps.py:110-134 | with escapes, whatever they cost: a text that overruns loses four characters more than its excess, or a quarter, whichever is more, and no more; so at least that much of the content is kept, and the later fallbacks are never reached |
| `OutputCaps.FirstFills` | src/application/services/output_caps.py:110-117 | the first text uses all the room, and the marker stands behind the content when there is room for it |
| `OutputCaps.PlainTextFills` | src/application/services/output_caps.py:95-116 | without escapes a cut item wastes at most two characters |
| `Windows.SpacedCount` | src/application/services/messaging/rate_limiter.py:51-63 | spaced times: a window shorter than the gap holds at most n |
| `CircuitBreaker.ClosedIff` | src/infrastructure/tmux_orchestrator/circuit_breaker.py:83-94 | closed if and only if no failure, or fewer than the threshold, since the last success or reset, for any threshold |
| `CircuitBreaker.AdmitsIff` | src/infrastructure/tmux_orchestrator/circuit_breaker.py:96-105 | a call gets through if and only if the breaker is closed, or the recovery time is over and fewer than the permitted probes were made since the last failure |
| `CircuitBreaker.ProbesAreRare` | src/infrastructure/tmux_orchestrator/circuit_breaker.py:72-105 | after a trip without success or reset, at most the permitted number of calls in any half-open interval of the recovery time |
| `CircuitBreaker.TmuxCircuitBreaker.CanExecute` | src/infrastructure/tmux_orchestrator/circuit_breaker.py:96-105 | the new fields and the answer are the specification's |
| `RateLimiter.PrunedRefinesHistory` | src/application/services/messaging/rate_limiter.py:41-63 | the limiter answers as if it had kept every admission since the key's reset: refused if and only if the window that ends now is full |
| `RateLimiter.WindowHoldsAtMost` | src/application/services/messaging/rate_limiter.py:41-63 | every window (t, t + length] holds at most the maximum number of admissions |
| `RateLimiter.RemainingIff` | src/application/services/messaging/rate_limiter.py:76-95 | requests remain if and only if one would be admitted at that instant |
| `RateLimiter.RemainingCounts` | src/application/services/messaging/rate_limiter.py:76-95 | exactly the maximum less the admissions in the window that ends now remain |
| `RateLimiter.RateLimiter.IsAllowed` | src/application/services/messaging/rate_limiter.py:41-63 | the pruning loop and the append compute the specification |
| `RateLimiter.RateLimiter.GetRemaining` | src/application/services/messaging/rate_limiter.py:76-95 | counts what a pruning would keep, without pruning |

## Left out

- SyncConvergence.OverlapConverges: the condition on unique keys is sufficient, not necessary; `SyncClash.RedeliveryDiverges` shows that it cannot just be dropped, and deliveries that never overlap do not need it.
- SyncProtocol.RunKeepsSourceInv: excludes two exports in one millisecond (see `SyncOverwrite.ExportKeepsFilesIff`) and `export_observations` between an export and its commit, which can move the watermark back.
- SyncProtocol.PullReplicates: every pull sees all chunk files and skips the recorded ones; that this is what pulling only new files does while nothing is lost is `SyncFetch.RegularIsPull`.
- SyncProtocol.ExportThenPullReplicates: the source state is the replay of its journal; `SyncRecorder.RecordedPayloadReplicatesIff` says when that equals the source rows.
- SyncRecorder.JournalImage: a topic-key upsert is taken to find its row under the normalised topic and to bring metadata of its own; that it records the topic as given, and stores an empty object when it brings no metadata, is left out, and so is `merge_projects`. `save_event` is a creation. Recording always succeeds here; the source logs a failure to record and goes on.
- SyncServiceModel.ObservationRepository.Create: takes the project as already normalised.
- SyncServiceModel.SyncService.ImportMutations: does not model blank lines, or a file that opens and turns out to be corrupt while it is read.
- SyncSnapshot.SnapshotImporter.ImportObservations: does not model a file that exists and is corrupt.
- SyncSnapshot.SnapshotRoundTrips: project-filtered dumps are left out; the watermark passes the records that the filter drops.
- SyncCompaction.ReconstructFromMutations: gives the observations by key, not the order of the list; a payload of a wrong JSON type is not modelled.
- SyncCompaction.OverlayIsCurrentIff: for entries keyed by row id; `SurvivorsLiveIff` covers the other keys.
- SyncCompaction.RecordedOverlay: for histories without topic-key upserts; `TopicKeyResurrects` shows what one does.
- SyncCompactedImport.CompactedImportIff: for entries keyed by row id.
- LaunchProtocol.MutualExclusion: takes claim and compare-and-set as atomic; under interleaving a reconciler may quarantine a launch that became active after the list was read, and no claim to the contrary is made.
- LaunchProtocol.LineageAndHandles: a launch quarantined while active keeps its handle but needs none; backend, pids and reasons are not kept.
- LaunchService.LifecycleService.RequestLaunch: the lookup may return any blocking launch of the key, where the query returns the newest; an exception from the registry, answered with "error", appears only in LaunchProtocol.
- Fpel.AuthorizationService.Seal: one call that nothing interrupts; calls that interleave are FpelProtocol.
- Fpel.AuthorizationService.CheckSealed: the same; the display status and the candidate verdict are left out, as are `check`, `freeze_plan` and the legacy policy's evaluation.
- Fpel.RunKeepsInv: whole calls; FpelProtocol.RunKeepsInv splits them.
- Fpel.VerdictWasEarned: whole calls; FpelProtocol.VerdictWasEarned splits them, and its four facts hold one after another, not at one moment.
- TaskBoard.StartsAreSealed: the gate is wired; compare-and-save compares the status only, as the code does, so a check and a save are not one step and the gate may close in between.
- TaskBoard.TaskBoardService.Apply: timestamps and ids are left out; a lost compare-and-save shows as a save without effect in the interleaving.
- PollingScheduler.ScheduleIsSafe: polls run one at a time; a blocking run is one in a status that is not final, as the SQLite query has it; the task board appears as answers, and so does the launch registry, which PollingLaunches wires in.
- PollingScheduler.PollingService.CheckRuns: takes the list of active runs as given; one clock value stands for a whole check, and a run removed from the store is skipped.
- PollingLaunches.CancelNeverFrees: no one but the polling service touches the launches; an operator who marks one failed frees the task. One attempt to spawn is one step, the board lists a task once in a poll, and events about a quarantined launch are written after the launch was quarantined.
- OutputCaps.FitsBudget: counts the items; the brackets and commas of the enclosing list are not counted by the code either.
- OutputCaps.CapResponse: works on lengths and contents; copying of the dictionaries and values of `_full_content_tokens` are left out, the length of the marks being any number.
- CircuitBreaker.ProbesAreRare: calls are atomic; `can_execute` releases its lock between reading the state and counting the call, so concurrent callers are not covered.
- RateLimiter.WindowHoldsAtMost: one thread and a clock that does not run backwards; times are reals, so floating-point rounding is left out.
- Observation titles, which are neither written to chunks nor rebuilt.
- SQLite, gzip, JSON text, files, git, tmux and subprocess calls, logging, telemetry, the command line, the TUI, the API and the MCP server.
- Validation of entities other than observations, and of observations the JSON types and the white space beyond ASCII in a project name; redaction, the YAML parser, sanitizers, configuration, templates, plan state: library-bound or easy.
