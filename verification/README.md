# Meilisearch: tasks, batches and the algorithms around them

A model in Dafny of the parts of Meilisearch that decide what happens to a document between the
HTTP request and the index, with proofs of what they promise.

**Batches.** Tasks of one index are folded into a batch (`Autobatcher`) that is executed with its
operations reordered and absorbed: settings before documents, a clear instead of what it clears,
an index deletion instead of everything. `BatchExtent` says which tasks a batch takes, `BatchShape` what it makes of them,
`BatchEquivalence` that it does their work, and `BatchLoss` and `BatchKeys` exactly when it does not. `Drain` and
`DrainTheorem` carry this to whole queues over many indexes. `Settings`, `Indexing` and `IndexStore`
are what a batch is executed on; `SettingsMeaning` and `IndexTaskMeaning` say what one task does to an
index, field by field and document by document.

**The task queue.** `TaskQueue` is the scheduler as a state machine on values; `TaskRuns` and
`TaskEnds` prove what every event keeps, `TaskChoices` and `TickMeaning` say what each event decides and
stores without its functions, `TaskHistory` what whole runs keep, `TaskProtocols` the
protocols that span events, `Renaming` and `BatchOrder` swaps and order, and `TickDrain` that ticks
drain the queue. `Scheduler` is the program's own form: one primary task map and seven secondary
databases updated in place, proved exact, and proved to refine the state machine. `TaskQuery` says
what a query means, `QueryMeaning` says it filter by filter, and the scheduler answers it from the databases.

**Algorithms beside it.** The LRU cache of opened indexes (`RecencyList`, `LruCache`, and
`LruReaders` for concurrent readers), the memory budget (`MemoryBudget`), the JSON depth scanner
(`Json`, `JsonDepth`), flattening (`Flatten`,
`FlattenLaws`, `FlattenTwice`, `FlattenPaths`), the filter parser (`FilterSyntax`,
`FilterParser`, `FilterMeaning`, `FilterGrammar`, `FilterAtoms`, `FilterText`) and the API keys (`ApiKeys`, `AuthStore`).

Task ids are natural numbers up to the 32-bit limit, bitmaps are sets, dates are integers, databases
are maps. What milli makes of an update file and which documents a filter selects are parameters
(`Milli`), and so are which characters are alphanumeric and how geo conditions are read
(`Language`).

Where the code is weaker than its comments or than one would think, the model follows the code; each
weakness has a theorem that says exactly when it shows:

- A batch that starts with a deletion accepts a first import of any key (`index-scheduler/src/autobatcher.rs:245-249`);
  when that key is not the one of the index the whole batch fails and the deletion is lost (`BatchPreservesExactly`).
- The document builder returns early when no document was added
  (`milli/src/update/index_documents/mod.rs:195-200`), so deletions batched with empty imports are dropped
  (`BatchPreservesExactly`).
- A clear that absorbs an import never sets the key the import declared (`BatchKeyExactly`).
- A key that a batch has set is reset only if all its tasks failed (`index-scheduler/src/batch.rs:1260-1272`), so
  rejected imports leave their key behind when a deletion is batched with them (`BatchKeyExactly`).
- Flattening twice is not flattening once (`FlattensOnceExactly`).
- A backslash is not escaped when a value is quoted, and shields what follows it (`QuotingRoundTrip`).
- The cleanup of the queue takes the largest finished ids, not the oldest tasks
  (`index-scheduler/src/lib.rs:1187`, `CleanupLeavesOldest`).
- A query from the last possible id does not return it (`index-scheduler/src/lib.rs:650`, `AnsweredInFull`).

## Model

| member | source | states |
|---|---|---|
| `Autobatcher.Autobatch` | index-scheduler/src/autobatcher.rs:541-568 | There is a batch exactly when the queue is not empty, and the loop with its early returns gives the batch that `BatchOf` describes |
| `BatchExtent.BatchReaches` | index-scheduler/src/autobatcher.rs:220-568 | A batch takes exactly the tasks that are reached, an if-and-only-if for every position of every queue: each task up to it follows those before. Whether a task follows is said by its kind, the kinds before it, the right to create the index and the declared keys alone |
| `BatchExtent.ImportsGoTogether` | index-scheduler/src/autobatcher.rs:299-322 | Imports of one method into an existing index, however many, are one batch that lists them in order, if and only if their declared keys agree: no foreign key first, and then the key of the index or the one before |
| `BatchShape.AutobatchTakesPrefix` | index-scheduler/src/autobatcher.rs:541-568 | The batch made from a queue stands for a non-empty prefix of it, in queue order; the keys its imports declare agree; if it neither finds nor creates the index, none of its tasks could have created it |
| `BatchShape.GrowSummary` | index-scheduler/src/autobatcher.rs:220-536 | One step of the fold, over all batch kinds and task kinds: the new batch stands for the same tasks and one more, so no task is lost, doubled or filed under the wrong list, and `unreachable!` is not reached |
| `BatchShape.StopSummary` | index-scheduler/src/autobatcher.rs:220-536 | A step that breaks with a new batch (an index deletion) stands for the tasks so far and the one that broke |
| `BatchShape.NewSummary` | index-scheduler/src/autobatcher.rs:166-213 | The first task alone is a batch that stands for it, and asks for the creation of the index exactly when the task can create it |
| `BatchShape.BatchIdsPermute` | index-scheduler/src/batch.rs:152-183 | The ids of a batch are those of its tasks, each as often |
| `BatchOrder.BatchListsOnce` | index-scheduler/src/lib.rs:1046-1050 | A batch lists no id twice, whichever index it is for, so that the sorted ids make a bitmap and the unwrap cannot fail |
| `BatchEquivalence.KeyRunValues` | index-scheduler/src/autobatcher.rs:222-257 | Every key declared in a batch is the one of its first import or the one of the index; an index without key sees one declared key only |
| `BatchEquivalence.BatchIsBuildable` | index-scheduler/src/batch.rs:223-462 | Every batch the autobatcher makes can be turned into operations: each task has the kind its list needs, so no `unreachable!` of the batch creation is reached |
| `SlotRuns.RunSettings` | index-scheduler/src/batch.rs:1295-1316 | Settings tasks, whatever stands between them, act as one builder that holds all their writes |
| `SlotRuns.RunDocuments` | index-scheduler/src/batch.rs:1135-1276 | When declared keys agree, imports and deletions act on the documents one after the other and never on the settings |
| `SlotRuns.RunCleared` | index-scheduler/src/batch.rs:1115-1134 | Once the documents end cleared nothing is left of what was imported before |
| `SlotRuns.RunMissing` | index-scheduler/src/autobatcher.rs:228-233 | An index that is missing and that no task can create stays missing |
| `SlotRuns.RunCreates` | index-scheduler/src/autobatcher.rs:541-568 | When the first task may create the index, a missing index behaves as an empty one for all the tasks |
| `Settings.ExecuteMerge` | meilisearch-types/src/settings.rs:294-436 | Executing merged pending writes is executing one builder after the other |
| `SettingsMeaning.TaskStores` | meilisearch-types/src/settings.rs:294-436 | What one settings task leaves stored, for each of the sixteen fields: a set value is stored, a reset field is removed, a field that is not set keeps what it had; a star in an attribute list resets it, and resetting typo tolerance, its word sizes or faceting resets all that is inside |
| `SettingsMeaning.SettingsTaskExactly` | index-scheduler/src/batch.rs:1295-1316 | The same for a settings task executed on an index, which keeps its documents and its key |
| `Settings.ApplySettingsToBuilder` | meilisearch-types/src/settings.rs:294-436 | The setters called one after the other leave the builder with its old writes overridden by those of the settings; what these store, field by field, is `SettingsMeaning.TaskStores` |
| `BatchEquivalence.BatchPreserves` | index-scheduler/src/batch.rs:4-17 | A batch that loses nothing leaves the index with the existence, documents and settings that its tasks give, executed alone and in order, whether the index exists, is created or is missing |
| `BatchLoss.BatchPreservesExactly` | index-scheduler/src/batch.rs:4-17 | A batch agrees with its tasks on all documents and settings if and only if `Loses` is false, a condition on the tasks and the key of the index: a first declared key that differs from the index, or deletions beside imports that add nothing |
| `BatchKeys.BatchKeyExactly` | index-scheduler/src/batch.rs:1135-1276 | A batch and its tasks leave the index with the same primary key if and only if `LosesKey` does not hold of them, whether the index exists, is created or is missing: keys differ exactly when an index without a key meets imports that declare one and either the batch ends cleared and a file was accepted, or all files are rejected beside a deletion |
| `BatchKeys.BatchIsRunExactly` | index-scheduler/src/batch.rs:4-17 | A batch does exactly what its tasks do, key included and on all documents and settings, if and only if neither `Loses` nor `LosesKey` holds, both conditions on the tasks and the key of the index |
| `BatchKeys.LostKeyShows` | index-scheduler/src/batch.rs:1146-1172 | Whenever the key is lost, any later import that declares another key and brings a new document is accepted by just one of the two indexes |
| `Independence.Commute` | index-scheduler/src/batch.rs:4-17 | Two tasks that share no index can be executed in either order, swaps included |
| `AloneRuns.AloneIsExecute` | index-scheduler/src/batch.rs:536-537 | With autobatching off a batch is one task, and processing it is executing that task |
| `IndexTaskMeaning.ReplaceExactly` | index-scheduler/src/batch.rs:1135-1276 | A replacing import stores every document as the file gives it last, and leaves the others alone |
| `IndexTaskMeaning.UpdateExactly` | index-scheduler/src/batch.rs:1135-1276 | An updating import stores every attribute as the file gives it last, keeps the other attributes of the document, and leaves the other documents alone |
| `IndexTaskMeaning.ImportTaskExactly` | index-scheduler/src/batch.rs:1135-1276 | One import task on an index: refused for its key or its file it changes nothing; otherwise it sets the key it declares and imports its file by its method |
| `IndexTaskMeaning.TaskExactly` | index-scheduler/src/batch.rs:859-1058 | What every task other than imports and settings does to an existing index: documents, settings and key, and when a declared key is taken |
| `IndexTaskMeaning.MissingExactly` | index-scheduler/src/batch.rs:859-1058 | A task that finds no index leaves none, unless it may create one, and then it works on an empty index |
| `Drain.Extract` | index-scheduler/src/batch.rs:511-558 | The tasks of a batch may be executed before everything they overtake |
| `DrainTheorem.BatchingPreservesMeaning` | index-scheduler/src/batch.rs:4-17 | For every queue over any number of indexes, with creations, deletions and swaps: when declared keys agree and no batch loses anything, draining it with batching on and off leaves the same indexes, each with the same documents and settings |
| `DrainCorollaries.BatchingPreservesAddingQueues` | index-scheduler/src/batch.rs:4-17 | The same under conditions on the queue alone: every import adds a document and no two tasks declare different keys for an index |
| `DrainCorollaries.ForeignKeyLosesDeletion` | index-scheduler/src/autobatcher.rs:245-249 | A concrete queue on which the claim fails: a deletion followed by an import with a foreign key is accepted as one batch, and the deletion is lost with it |
| `DrainCorollaries.EmptyImportLosesDeletion` | milli/src/update/index_documents/mod.rs:195-200 | A concrete queue on which the claim fails: beside an import without documents, a deletion is dropped |
| `DrainCorollaries.AbsorbedKeyChangesFuture` | index-scheduler/src/autobatcher.rs:299-313 | An import and a clear, for any key and any accepted file: the batch forgets the key, so a later import with another key is accepted after the batch and refused after the tasks |
| `DrainCorollaries.RejectedImportKeepsKey` | index-scheduler/src/batch.rs:1260-1272 | A deletion and a rejected import, for any key: the batch keeps the key it has set, because not all of it failed; a later import with another key is refused after the batch and accepted after the tasks |
| `IndexStore.BuildDocuments` | index-scheduler/src/batch.rs:1135-1276 | The loop that feeds the document builder, with its counter of added documents, gives what `ApplyDocumentOperations` says, or nothing when nothing was added |
| `IndexStore.ApplyIndexOperationInPlace` | index-scheduler/src/batch.rs:1108-1380 | On a write transaction every index operation does what `ApplyIndexOperation` says, and reports its errors |
| `IndexStore.IndexMapper.Process` | index-scheduler/src/batch.rs:859-1058 | Processing a batch changes the stored indexes as `ProcessBatch` says: commit on success, drop on error, creation kept |
| `IndexStore.IndexMapper.SwapEach` | index-scheduler/src/batch.rs:1050-1054 | Swapping pair by pair in place is `SwapAll` |
| `Bitmaps.TakeLargest` | index-scheduler/src/lib.rs:771-773 | The elements taken are as many as asked for, and all larger than those left |
| `Bitmaps.TakeLargestUnique` | index-scheduler/src/lib.rs:771-773 | There is only one way to take the largest elements |
| `Queue.ScheduledIds` | index-scheduler/src/batch.rs:511-558 | The next batch takes the oldest task, and lists exactly the tasks it takes |
| `BatchOrder.NextBatchTakes` | index-scheduler/src/batch.rs:536-557 | A batch takes the oldest tasks that mention one name, leaving none behind in between; only a swap mentions more than one |
| `BatchOrder.NoOvertaking` | index-scheduler/src/batch.rs:511-558 | With a task, a batch holds every older enqueued task that shares an index with it |
| `BatchOrder.SwapsAlone` | index-scheduler/src/autobatcher.rs:166-213 | A swap is in a batch exactly when the batch is that swap alone, and it is then the oldest enqueued task |
| `BatchOrder.EmptySwap` | index-scheduler/src/batch.rs:519-524 | The only index task without an index is a swap of nothing: the assertion never fires |
| `BatchOrder.CreationFlag` | index-scheduler/src/batch.rs:455-459 | A batch is told to create its index, or that its index has been created in between, exactly when its first task may create it |
| `Renaming.SwapAllAt` | index-scheduler/src/batch.rs:1050-1054 | After a swap task each name has behind it what its partner had |
| `Renaming.SwapAllTwice` | index-scheduler/src/batch.rs:1050-1054 | Swapping twice leaves the indexes as they were |
| `Renaming.SwapAllOrder` | index-scheduler/src/batch.rs:1050-1054 | The pairs of a valid swap can be listed in any order |
| `Renaming.SwappedTask` | index-scheduler/src/batch.rs:1077-1083 | A swap gives each older task the partner of every name it mentions, older swap tasks included, and leaves tasks with an id at least its own alone |
| `Renaming.RenamedIndexes` | index-scheduler/src/utils.rs:236-280 | A renamed task mentions a name exactly when it mentioned its partner before |
| `Renaming.RenamedKeeps` | index-scheduler/src/utils.rs:236-280 | Nothing but names changes: not the type, the update file, the tasks referred to, nor the validity of a swap |
| `Renaming.RenameAllTwice` | index-scheduler/src/batch.rs:1077-1083 | A swap task run twice gives every older task its names back |
| `Renaming.RenameAllOrder` | index-scheduler/src/batch.rs:1077-1083 | The order of the pairs makes no difference to the tasks |
| `Renaming.ReferencesFollow` | index-scheduler/src/batch.rs:1063-1102 | After a swap an older task is about the same index as before, under its new name |
| `TaskRuns.RegisterKeeps` | index-scheduler/src/lib.rs:902-970 | A registration stores one new enqueued task and keeps the invariant: references to older tasks only, valid swaps, files, pending cancelations |
| `TaskChoices.RegisterExactly` | index-scheduler/src/lib.rs:902-970 | When a registration is refused, and with which error: a nearly full queue unless it deletes tasks, a swap that lists a name twice, no id left; in this order |
| `TaskChoices.DuplicatesExactly` | index-scheduler/src/utils.rs:301-326 | A name is reported as a duplicate exactly when the swap task lists it at two places |
| `TaskChoices.RegisteredTask` | index-scheduler/src/lib.rs:902-970 | What is stored of an accepted task, field by field, references to tasks that are not older dropped; and when the running batch is asked to stop |
| `TaskChoices.NextIdExactly` | index-scheduler/src/utils.rs:20-26 | The next id is the one number above all stored ids that follows a stored one, or zero |
| `TaskRuns.CleanupKeeps` | index-scheduler/src/lib.rs:1174-1220 | The automatic cleanup adds at most one task, a deletion, and keeps the invariant |
| `TaskRuns.BeginKeeps` | index-scheduler/src/lib.rs:1028-1055 | Choosing a batch keeps the invariant: its tasks are stored, enqueued, of the right kind and listed once |
| `TaskChoices.NextBatchExactly` | index-scheduler/src/batch.rs:470-566 | Which batch comes next, from the waiting tasks alone: the last cancelation, else the oldest deletion, else all snapshots, else the oldest dump, else a batch of an index; none when nothing waits |
| `TaskChoices.BeginExactly` | index-scheduler/src/lib.rs:1028-1055 | While a tick works exactly the tasks of its batch are shown, with its date, and the flag to stop is down; without a batch nothing changes in memory |
| `TickMeaning.SettledExactly` | index-scheduler/src/lib.rs:1076-1158 | The end of a settled tick, without the functions of the state machine: which tasks are deleted, the status, the dates, the canceler and the kind of every other task, which update files are left, and what is in memory |
| `TickMeaning.IndexesEnd` | index-scheduler/src/batch.rs:859-1058 | What is behind each name after any tick: its partner after a swap that succeeded, what milli left after an index batch, and what it was otherwise |
| `TaskEnds.ProcessedTask` | index-scheduler/src/batch.rs:571-740 | What `process_batch` itself stores: cancelations mark their targets and their dates, deletions remove theirs, swaps rename, other batches change no record |
| `TaskEnds.EndedTasks` | index-scheduler/src/lib.rs:1076-1158 | Every stored task after a batch was settled: finished if it is in the batch, canceled if the batch cancels it, as before otherwise; what is gone was matched by a deletion |
| `TaskEnds.RemovedOlder` | index-scheduler/src/batch.rs:1385-1451 | Deletions remove only finished tasks, older than themselves, so the next id does not go back |
| `TaskEnds.LeavingLeave` | index-scheduler/src/lib.rs:1076-1158 | After a settled batch exactly its tasks and those it cancels are no longer enqueued, and exactly their update files are removed |
| `TaskEnds.EndKeepsFiles` | index-scheduler/src/lib.rs:1076-1158 | So after a settled batch an update file is still there exactly while its task is enqueued |
| `TaskEnds.EndKeeps` | index-scheduler/src/lib.rs:1076-1158 | Success, failure, abort and a full index all keep the invariant |
| `TaskHistory.StartIsValid` | index-scheduler/src/lib.rs:378-472 | A new, empty database satisfies the invariant |
| `TaskHistory.ReopenKeeps` | index-scheduler/src/lib.rs:411-414 | Opening an existing database at any point between the two halves of a tick keeps the invariant: the tasks that were being processed are stored as enqueued, and the next tick can begin |
| `TaskHistory.StepKeeps` | index-scheduler/src/lib.rs:1028-1171 | Every event keeps the invariant |
| `TaskHistory.After` | index-scheduler/src/lib.rs:1028-1171 | Safety: after any run from a valid state, restarts included, the invariant holds; in particular no stored status is processing, an update file exists exactly while its task is enqueued, and a canceled task names a later cancelation that asked for it and succeeded |
| `TaskHistory.RunLater` | index-scheduler/src/utils.rs:47-93 | Over any run ids are not reused, tasks keep their type, file and enqueue date, and finished tasks their status, dates and canceling task while they are stored |
| `TaskHistory.DeletedForGood` | index-scheduler/src/utils.rs:20-26 | Once deleted, neither a task nor its id comes back |
| `TaskHistory.EnqueuedStays` | index-scheduler/src/batch.rs:1387-1393 | No event removes a task that waits |
| `TaskHistory.BatchSettled` | index-scheduler/src/lib.rs:1076-1158 | A settled batch leaves each of its tasks succeeded or failed with the date of the tick; an abort or a full index stores nothing and keeps the processing tasks and their date |
| `TaskProtocols.StopMeansCancel` | index-scheduler/src/batch.rs:474-488 | A batch that was asked to stop is followed by the last pending cancelation, which still sees what was being processed, and since when |
| `TaskProtocols.AbortThenCancel` | index-scheduler/src/batch.rs:1457-1491 | From abort to cancelation: targets are canceled and show their start, the others of the batch are enqueued as if never started |
| `TaskProtocols.CancelationSettles` | index-scheduler/src/batch.rs:1457-1491 | A cancelation succeeds, cancels exactly its enqueued targets, and leaves the others alone |
| `TaskProtocols.TicksKeepOrder` | index-scheduler/src/batch.rs:470-558 | In whatever batch a tick processes, no task overtakes an older enqueued one that shares an index with it |
| `TaskProtocols.SwapIsOldest` | index-scheduler/src/batch.rs:511-558 | A swap is processed alone, when no older task is enqueued |
| `TaskProtocols.CleanupTakesNewest` | index-scheduler/src/lib.rs:1187 | A cleanup registers the deletion of the finished tasks with the largest ids, although it logs the oldest |
| `TaskProtocols.CleanupLeavesOldest` | index-scheduler/src/lib.rs:1187 | The cleanup takes all finished tasks exactly when they are at most 100000; otherwise the oldest finished task stays |
| `TaskProtocols.CleanupIsNext` | index-scheduler/src/batch.rs:490-495 | When nothing else was requested, the deletion registered by a cleanup is the next batch |
| `TaskProtocols.CleanupShrinks` | index-scheduler/src/lib.rs:1189-1196 | A tick that runs its own cleanup ends with strictly fewer finished tasks, in a valid state from which the next cleanup can start |
| `TaskProtocols.CleanupsEnd` | index-scheduler/src/lib.rs:1189-1196 | Such ticks cannot go on for ever: in any sequence of them there are fewer ticks than finished tasks at the start |
| `TickDrain.TickDrains` | index-scheduler/src/batch.rs:511-558 | One tick takes one batch from the waiting tasks and does to the indexes what the batch does |
| `TickDrain.TicksDrain` | index-scheduler/src/lib.rs:1028-1171 | The ticks of the scheduler refine the draining of the queue |
| `TickDrain.SchedulersAgree` | index-scheduler/src/batch.rs:4-17 | Two schedulers with the same waiting tasks, one batching and one not, end with the same indexes, documents and settings, when declared keys agree and no batch loses anything |
| `InverseMaps.StatusesPartition` | index-scheduler/src/utils.rs:16-18 | Every task is in exactly one status bitmap, and their union is all the tasks |
| `InverseMaps.ExactMoved` | index-scheduler/src/utils.rs:56-72 | Removing a task from one bitmap and adding it to another keeps a database exact |
| `InverseMaps.ExactCleared` | index-scheduler/src/batch.rs:1423-1448 | Removing deleted tasks from the bitmaps of all the keys they had keeps a database exact |
| `Scheduler.CheckIndexSwapValidity` | index-scheduler/src/utils.rs:301-326 | The duplicates found are the names listed twice, and there is none exactly for a valid swap |
| `Scheduler.IndexScheduler.UpdateTask` | index-scheduler/src/utils.rs:47-93 | The record is replaced and the status, kind and date databases stay exact; the assertions on dates are the preconditions, met by every caller |
| `Scheduler.IndexScheduler.Register` | index-scheduler/src/lib.rs:902-970 | All databases stay exact and the state changes as `TaskQueue.Register` says, errors included |
| `Scheduler.IndexScheduler.CancelMatchedTasks` | index-scheduler/src/batch.rs:1457-1491 | All databases stay exact; the enqueued targets are canceled, the others untouched, and the files to delete are theirs |
| `Scheduler.IndexScheduler.DeleteMatchedTasks` | index-scheduler/src/batch.rs:1385-1451 | All databases stay exact; the matched tasks that are neither enqueued nor processing are gone, the others untouched |
| `Scheduler.IndexScheduler.ApplyIndexSwap` | index-scheduler/src/batch.rs:1063-1102 | The index database stays exact, although only the two bitmaps are rewritten; older tasks are renamed, the indexes exchanged |
| `Scheduler.IndexScheduler.SwapIndexes` | index-scheduler/src/batch.rs:1022-1058 | All pairs of a swap task, or nothing when an index is missing |
| `Scheduler.IndexScheduler.FinishTasks` | index-scheduler/src/lib.rs:1081-1098 | The tasks of a batch become terminal and lose their files; no assertion on their dates fires |
| `Scheduler.IndexScheduler.CleanupTaskQueue` | index-scheduler/src/lib.rs:1174-1220 | The cleanup computed from the status bitmaps is the one of the specification, which `TaskChoices.CleanupExactly` characterises |
| `TaskChoices.CleanupExactly` | index-scheduler/src/lib.rs:1174-1220 | A cleanup changes something if and only if the stored tasks reach the maximum, at least two of them are succeeded, failed or canceled, and an id is left |
| `Scheduler.IndexScheduler.CreateNextBatch` | index-scheduler/src/batch.rs:470-566 | The batch read from the bitmaps is the one of the specification, for every priority and with autobatching on or off |
| `Scheduler.IndexScheduler.BeginTick` | index-scheduler/src/lib.rs:1028-1055 | The first half of a tick is the one of the specification, and the databases stay exact |
| `Scheduler.IndexScheduler.ProcessBatch` | index-scheduler/src/batch.rs:571-1058 | Processing any batch stores what the specification says, and deletes the files of the canceled tasks only |
| `Scheduler.IndexScheduler.EndTick` | index-scheduler/src/lib.rs:1076-1158 | From a state that satisfies the invariant the second half of a tick is the one of the specification for all four outcomes, and the databases stay exact |
| `Scheduler.IndexScheduler.GetTaskIds` | index-scheduler/src/lib.rs:642-776 | The answer computed from the seven databases is a scan of the tasks as they are shown, cut to the largest ids, only a `from` of the very last id losing that id; and it answers the query as `QueryMeaning.Answers` says without those functions |
| `QueryMeaning.AskedExactly` | index-scheduler/src/lib.rs:642-776 | A task is in the scan exactly when it meets each filter: by the constructor of its kind for each of the eleven types, the indexes it names, its shown status and start date, its canceler, its id, and strict date bounds |
| `QueryMeaning.TypeExactly` | meilisearch-types/src/tasks.rs:150-166 | The type of a task, constructor by constructor, for all eleven types |
| `QueryMeaning.IndexesExactly` | meilisearch-types/src/tasks.rs:168-192 | The names of a task are its index, or those of its swaps; the four prioritised types have none |
| `QueryMeaning.AnswersExactly` | index-scheduler/src/lib.rs:642-776 | The answer holds nothing that was not asked for, no more than the limit, and leaves out only what is smaller than all of it when the limit is reached |
| `Scheduler.IndexScheduler.KeepStatuses` | index-scheduler/src/lib.rs:653-668 | Processing tasks are found under the status they are shown with, and under no other |
| `Scheduler.IndexScheduler.KeepStarted` | index-scheduler/src/lib.rs:710-753 | Tasks being processed are filtered by the date held in memory, the others by the database |
| `Scheduler.KeepTasksWithinDatetimes` | index-scheduler/src/utils.rs:202-225 | The tasks with a date strictly within the bounds, and all of them without bounds |
| `TaskQuery.AnsweredInFull` | index-scheduler/src/lib.rs:649-651 | The answer is the full one, cut to the limit, unless the query asks from the last id or beyond, has room for an answer, and the task with the last id is stored and matches as it is shown |
| `TaskQuery.LastTaskIsMissing` | index-scheduler/src/lib.rs:649-651 | In any state that stores a task with the last id, a list from there on misses it |
| `RecencyList.GetKeeps` | index-scheduler/src/lru.rs:132-140 | Getting answers from the contents and makes the entry the most recent one; the others stay, in their order |
| `RecencyList.InsertKeeps` | index-scheduler/src/lru.rs:165-176 | Inserting stores the value as the most recent entry; what leaves is the old value of the key or the least recently used entry of a full cache, and it is reported; the others keep their order |
| `RecencyList.RemoveKeeps` | index-scheduler/src/lru.rs:185-192 | Removing answers with the value of the key, forgets the key and nothing else, and keeps the order of the others |
| `LruCache.Lru.Put` | index-scheduler/src/lru.rs:59-67 | A full cache loses its least recently used element, another loses nothing |
| `LruCache.Lru.Pop` | index-scheduler/src/lru.rs:76-92 | The smallest generation belongs to the least recently used element, wherever `swap_remove` has put it |
| `LruCache.LruMap.Get` | index-scheduler/src/lru.rs:132-140 | Refines `RecencyList.Get` |
| `LruCache.LruMap.Insert` | index-scheduler/src/lru.rs:165-176 | Refines `RecencyList.Insert`, outcome included |
| `LruCache.LruMap.Remove` | index-scheduler/src/lru.rs:185-192 | Refines `RecencyList.Remove` |
| `LruReaders.RunKeeps` | index-scheduler/src/lru.rs:39-43 | However readers interleave their fetch-add and their store, generations in cells and on their way stay distinct and at most the counter |
| `LruReaders.QuietAgain` | index-scheduler/src/lru.rs:132-140 | When all readers are done every entry that was used is more recent than every entry that was not, and the latter keep their stamps |
| `LruReaders.QuietIsValid` | index-scheduler/src/lru.rs:132-140 | The cache is then valid again, as `LruCache.Lru` asks: its recency order is the old one without the used entries, followed by the used entries in the order of their last stamps |
| `JsonDepth.ShouldFlattenFromUncheckedSlice` | json-depth-checker/src/lib.rs:9-62 | The loop over the bytes answers what the automaton does |
| `JsonDepth.ScannerAgrees` | json-depth-checker/src/lib.rs:9-76 | For every JSON value, the scanner on its compact serialization agrees with the check on the value |
| `JsonDepth.StringPassed` | json-depth-checker/src/lib.rs:36-48 | A string is passed over, whatever brackets, quotes, backslashes and control characters it holds |
| `JsonDepth.ItemsScanned` | json-depth-checker/src/lib.rs:34-62 | Over the elements of an array the scanner stops exactly when one of them is an array or an object |
| `Flatten.FlattenDocument` | flatten-serde-json/src/lib.rs:5-13 | The result is `Flattened`: its keys are the dotted paths of the members; a key with leaves holds exactly those, in document order; a key without keeps its first value |
| `Flatten.Flattener.InsertObject` | flatten-serde-json/src/lib.rs:15-33 | The recursive loops insert the leaves in document order and record every member |
| `Flatten.Flattener.InsertArray` | flatten-serde-json/src/lib.rs:35-50 | Arrays are transparent: their elements go under the key of the array |
| `Flatten.Flattener.InsertValue` | flatten-serde-json/src/lib.rs:52-76 | A value joins the array of its key, makes one on a collision, or stands alone |
| `Flatten.Collected` | flatten-serde-json/src/lib.rs:52-76 | Inserting leaves one by one collects, under each key, all its leaves in order, none lost or doubled |
| `Flatten.LeavesUnderEntries` | flatten-serde-json/src/lib.rs:15-50 | Every leaf is under the dotted path of some member |
| `FlattenPaths.KeysExactly` | flatten-serde-json/src/lib.rs:15-50 | A key of the flattened document is the dotted path of a member, arrays on the way not counting, and every such path is a key |
| `FlattenPaths.EntriesExactly` | flatten-serde-json/src/lib.rs:15-50 | The members that are recorded under a key are exactly those at the paths it spells |
| `FlattenPaths.LeavesExactly` | flatten-serde-json/src/lib.rs:52-76 | The scalars collected under a key are exactly those held by the members whose path it is, in arrays of any depth |
| `FlattenPaths.DocumentOrder` | flatten-serde-json/src/lib.rs:15-50 | They stand in the order of the document: members first to last, items first to last |
| `FlattenPaths.FirstIsKept` | flatten-serde-json/src/lib.rs:5-13 | A key that only whole values stand for keeps the first of them |
| `FlattenLaws.FixedExactly` | flatten-serde-json/src/lib.rs:5-50 | For every document with distinct names, flattening changes nothing if and only if it is settled: values are flat or hold no scalar, nested members are also listed under their dotted names, and no other value precedes a member without scalars |
| `FlattenLaws.FlatIsFixed` | flatten-serde-json/src/lib.rs:5-13 | So documents of scalars and arrays of scalars are fixed points |
| `FlattenTwice.FlattensOnceExactly` | flatten-serde-json/src/lib.rs:5-50 | For every document, flattening its flattened form changes nothing, in whatever order that is listed, if and only if each value kept whole holds no scalar and agrees with what is kept for the keys inside of it |
| `FlattenTwice.FlatFlattensOnce` | flatten-serde-json/src/lib.rs:5-13 | Documents of scalars and arrays of scalars flatten once |
| `FlattenTwice.NestedTwice` | flatten-serde-json/src/lib.rs:5-13 | Flattening is not idempotent: for all names and every scalar, a scalar in a nested object is found twice the second time |
| `FlattenTwice.ShadowedTwice` | flatten-serde-json/src/lib.rs:5-13 | It can fail without any scalar too: when a nested value differs from one listed before it under the dotted name |
| `FilterSyntax.QuotedBy` | filter-parser/src/value.rs:22-52 | The loop over the characters gives the token and where it ends |
| `FilterSyntax.QuotingRoundTrip` | filter-parser/src/value.rs:22-52 | A value comes back from between quotes, its own quotes escaped, with nothing left over, if and only if it is quotable: each backslash, read from the left, shields a character that is not the quote |
| `FilterSyntax.QuotableIsEven` | filter-parser/src/value.rs:22-52 | A value is quotable exactly when an even number of backslashes stands before its end and before each of its quotes |
| `FilterSyntax.BackslashIsLost` | filter-parser/src/value.rs:33-43 | No value that survives quoting survives it with one more backslash at its end: the closing quote is taken for an escaped one |
| `FilterSyntax.QuotedValueRead` | filter-parser/src/value.rs:84-175 | A quoted, quotable value is read as one token with that value |
| `FilterSyntax.WordValueRead` | filter-parser/src/value.rs:84-175 | A bare word that is not a keyword is read whole |
| `FilterSyntax.KeywordIsNoValue` | filter-parser/src/value.rs:185-199 | None of the eleven keywords is read as a value |
| `FilterAtoms.ComparisonRead` | filter-parser/src/condition.rs:32-47 | Each of the six comparison operators is read as its own condition, on the field and the value written beside it |
| `FilterAtoms.IsNullRead` | filter-parser/src/condition.rs:49-55 | `field IS NULL` is the condition Null |
| `FilterAtoms.IsNotNullRead` | filter-parser/src/condition.rs:57-63 | `field IS NOT NULL` is the negation of Null |
| `FilterAtoms.IsEmptyRead` | filter-parser/src/condition.rs:65-71 | `field IS EMPTY` is the condition Empty, past the alternatives tried before it |
| `FilterAtoms.IsNotEmptyRead` | filter-parser/src/condition.rs:73-79 | `field IS NOT EMPTY` is the negation of Empty |
| `FilterAtoms.ExistsRead` | filter-parser/src/condition.rs:81-86 | `field EXISTS` is the condition Exists |
| `FilterAtoms.NotExistsRead` | filter-parser/src/condition.rs:87-93 | `field NOT EXISTS` is the negation of Exists |
| `FilterAtoms.ToRead` | filter-parser/src/condition.rs:95-101 | `field from TO to` is the condition Between, with the bounds in this order |
| `FilterAtoms.ListRead` | filter-parser/src/lib.rs:194-209 | A list of quoted values is read back, all of them, in order |
| `FilterAtoms.InRead` | filter-parser/src/lib.rs:241-248 | `field IN [...]` is the condition In with the values in order |
| `FilterAtoms.NotInRead` | filter-parser/src/lib.rs:250-258 | `field NOT IN [...]` is the negation of In with the values in order |
| `FilterAtoms.AtomIsFilter` | filter-parser/src/lib.rs:471-473 | A condition with nothing behind it is the whole filter |
| `FilterAtoms.FieldNotExists` | filter-parser/src/lib.rs:471-473 | So the whole text of a bare name, spaces and NOT EXISTS is accepted as the negation of Exists on that name |
| `FilterMeaning.PrimaryRead` | filter-parser/src/lib.rs:430-463 | A primary that the parser accepts is a parenthesised reading or one of the conditions, with the returned tree, within the depth budget |
| `FilterGrammar.NotComplete` | filter-parser/src/lib.rs:300-317 | Conversely every reading of a negation or a primary within the budget is accepted with its tree |
| `FilterMeaning.AtomsAreConditions` | filter-parser/src/lib.rs:430-463 | An atom is a single condition or the negation of one; which one, from its text, is said by the lemmas of `FilterAtoms` |
| `FilterMeaning.OrRead` | filter-parser/src/lib.rs:261-317 | What the parser accepts has a reading with NOT over AND over OR, whose tree is the one it returns and which keeps to the depth budget |
| `FilterMeaning.OrTreeHolds` | filter-parser/src/lib.rs:261-317 | The tree has the value of its reading under every valuation of the conditions |
| `FilterMeaning.OrTreeNormal` | filter-parser/src/lib.rs:261-317 | No NOT is directly under a NOT, and every AND and OR has at least two children |
| `FilterMeaning.AcceptedFilter` | filter-parser/src/lib.rs:471-473 | All of this for a whole filter, and at most 49 pairs of parentheses nest |
| `FilterGrammar.AcceptedExactly` | filter-parser/src/lib.rs:261-473 | A text is accepted with a tree if and only if it has a reading of that tree within the budget: the parser, which never looks back after a keyword, loses nothing |
| `FilterGrammar.ReadingsAgree` | filter-parser/src/lib.rs:1-23 | The grammar is not ambiguous: a text has at most one reading, within the budget or not |
| `FilterGrammar.ReadTextAccepted` | filter-parser/src/lib.rs:261-473 | A text with a reading is accepted exactly when that reading keeps to the budget, and then with its tree |
| `FilterText.WrittenExactly` | filter-parser/src/lib.rs:1-23 | Any filter in normal form whose values can be quoted, geo conditions aside, is read back from its text as the very same tree, if and only if the text keeps to the budget: NOT over AND over OR, with parentheses only where these ask for them |
| `FilterText.DeepestParentheses` | filter-parser/src/lib.rs:72 | Around any condition up to 49 pairs of parentheses are accepted, and 50 or more never |
| `FilterText.MostNegations` | filter-parser/src/lib.rs:300-317 | Before any condition up to 197 negations are accepted, and 198 or more never; two of them cancel out |
| `ApiKeys.DecodeEncode` | meilisearch-auth/src/store.rs:291-321 | The codec gives back what it encoded, but for an empty index name |
| `ApiKeys.EncodeDecode` | meilisearch-auth/src/store.rs:291-321 | Bytes that decode are the encoding of what they decode to |
| `ApiKeys.EncodeInjective` | meilisearch-auth/src/store.rs:291-321 | Encoded entries are the same only for the same key, action and index name |
| `ApiKeys.ExpandAllExactly` | meilisearch-auth/src/store.rs:104-145 | A key grants an action exactly when it lists all actions, the group of the action, or the action itself; groups are given member by member |
| `ApiKeys.PatternExactly` | meilisearch-auth/src/store.rs:228-254 | A pattern that ends with a star stands for the names that start with what is before it, another for itself only |
| `ApiKeys.AuthorizedExactly` | meilisearch-auth/src/lib.rs:132-155 | What a key may do, from what it lists: an action that allows it, a pattern for the index, and an end that is later than now |
| `AuthStore.Store.PutApiKey` | meilisearch-auth/src/store.rs:93-167 | The inverted table stays exact and the key is stored, replacing an older one with its entries |
| `AuthStore.Store.DeleteApiKey` | meilisearch-auth/src/store.rs:201-208 | The inverted table stays exact, the key and all its entries are gone, and the answer says whether it was there |
| `AuthStore.Store.GetExpirationDate` | meilisearch-auth/src/store.rs:228-254 | A date is found exactly when the key has the action and an entry for the index, by name or by pattern; an empty name is looked up as no name |
| `AuthStore.Store.PrefixFirstExpirationDate` | meilisearch-auth/src/store.rs:256-271 | A date is found exactly when the key has the action and any index pattern |
| `AuthStore.Store.IsKeyAuthorized` | meilisearch-auth/src/lib.rs:132-155 | The answer is yes exactly when the key is stored and `May` holds of it: its listed actions allow the action, one of its patterns stands for the index, and it has not expired |
| `MemoryBudget.DichotomicSearch` | index-scheduler/src/utils.rs:566-598 | The search ends, and from a start above zero finds a size that is good, or zero, next to one that is not; no sum or product that it computes leaves 64 bits |
| `MemoryBudget.NoOverflow` | index-scheduler/src/utils.rs:566-598 | Whatever the search knows, twice its current size and its sums with the known sizes stay below 64 bits |
| `MemoryBudget.SplitBudget` | index-scheduler/src/lib.rs:502-531 | No subtraction underflows, the maps of one more index than allowed fit with the task database into half of the budget, and all three numbers are fixed: the task database keeps its size unless it takes more than half, and there are as many indexes as fit, but one, up to the maximum |

## Left out

- The inside of milli: documents are maps, replace is overwrite and update is merge; primary-key inference is not modelled, so an import that declares no key leaves the key as it is.
- Errors of single tasks inside a batch, other than rejected update files, a wrong key and a missing index; details, error texts and statistics of tasks.
- Transactions, files on disk, threads and signals: a half tick is one atomic step, so a restart is covered between half ticks, but not a crash between the commits of one. Failed deletions of update files are not covered either.
- What dumps and snapshots contain; importing tasks from a dump.
- Ids past the 32-bit limit: registering then fails with `NoIdLeft`.
- A swap task is scheduled by the first name of its first pair, where the program takes any name of a hash set; the batch is the same for every name.
- `delete_all_keys` of the key store, which leaves the inverted table as it is; names, descriptions and creation dates of keys; master keys and their hashes.
- Queries restricted to authorised indexes, and the page cut that precedes the authorisation.
- Scheduler.IndexScheduler.GetTaskIds: the early return for cancelers without tasks is not a separate branch, because the intersections that follow give the same empty answer.
- Scheduler.IndexScheduler.DeleteMatchedTasks: removes the records from the primary map at once instead of one by one, because nothing reads the map in between.
- Renaming.SwapAllTwice: about one swap task run twice on the same state, not about two swap tasks with other tasks between them.
- TaskHistory.After: runs in which update files get fresh ids, are registered once, and ticks do not overlap, as the file store and the single scheduler thread provide.
- LruReaders.RunKeeps: the counter is unbounded, so a wrap-around after 2^64 generations is not covered.
- MemoryBudget.DichotomicSearch: the predicate is a function of the size, so an environment that opens a map once and refuses it later is not covered.
- FilterText.WrittenExactly: needs a filter without geo conditions, whose reading is a parameter.
- FilterGrammar.AcceptedExactly: asks that parentheses are not alphanumeric, that capital letters are, and that geo conditions start with their own words.
- FilterMeaning.AcceptedFilter: error messages, spans and the tree of a blank text (no filter) are not modelled; geo conditions are read by a parameter.
- Flatten.FlattenDocument: the result is a map, so the order of its keys is not modelled.
- JsonDepth.ScannerAgrees: about compact serializations only; text with white space before its first byte is outside what the scanner promises.
