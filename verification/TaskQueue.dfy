/**
 The task queue as a state machine on values.

 A state is the primary task map, the update files, the indexes, what is being processed, and the
 batch in flight.  The transitions are registering a task, the two halves of a tick (choosing a
 batch, finishing it), and uploading an update file.  The secondary databases are left to
 `Scheduler`, which keeps them equal to what the task map says.
*/
module TaskQueue {
  import opened Wrappers
  import opened Tasks
  import opened Bitmaps
  import opened Autobatcher
  import opened Indexing
  import opened Queue

  type TaskMap = map<TaskId, Task>

  datatype Batch =
    | TaskCancelation(task: TaskId, previousStartedAt: Date, previousProcessingTasks: set<TaskId>)
    | TaskDeletion(task: TaskId)
    | SnapshotCreation(tasks: seq<TaskId>)
    | Dump(task: TaskId)
    | ForIndex(batch: IndexBatch)
  {
    function Ids(): seq<TaskId> {
      match this
      case SnapshotCreation(tasks) => tasks
      case ForIndex(batch) => batch.Ids()
      case _ => [task]
    }

    function IdSet(): set<TaskId> {
      set id | id in Ids()
    }
  }

  datatype State = State(
    tasks: TaskMap,
    files: set<Uuid>,
    indexes: Indexes,
    processing: set<TaskId>,
    startedAt: Date,
    mustStop: bool,
    current: Option<Batch>)

  datatype Config = Config(maxNumberOfTasks: nat, autobatchingEnabled: bool)

  datatype Error = NoSpaceLeftInTaskQueue | SwapDuplicateIndexFound | NoIdLeft

  function WithStatus(tasks: TaskMap, status: Status): set<TaskId> {
    set id | id in tasks && tasks[id].status == status
  }

  function OfKind(tasks: TaskMap, ids: set<TaskId>, kind: Kind): set<TaskId>
    requires ids <= tasks.Keys
  {
    set id | id in ids && tasks[id].kind.AsKind() == kind
  }

  function NextId(tasks: TaskMap): nat {
    if tasks == map[] then 0 else Largest(tasks.Keys) + 1
  }

  /** Deletions and cancelations must not refer to tasks newer than themselves. */
  function FilterReferences(kind: KindWithContent, id: nat): KindWithContent {
    if kind.TaskCancelation? || kind.TaskDeletion? then kind.(tasks := set x | x in kind.tasks && x < id) else kind
  }

  function Register(s: State, kind: KindWithContent, now: Date, nearlyFull: bool): Result<State, Error> {
    var id := NextId(s.tasks);
    if !(kind.TaskDeletion? && kind.tasks != {}) && nearlyFull then Err(NoSpaceLeftInTaskQueue)
    else if kind.IndexSwaps? && !ValidSwaps(kind.swaps) then Err(SwapDuplicateIndexFound)
    else if id > MAX_TASK_ID then Err(NoIdLeft)
    else
      Ok(s.(
        tasks := s.tasks[id := Task(id, now, None, None, None, Enqueued, FilterReferences(kind, id))],
        mustStop := s.mustStop || (kind.TaskCancelation? && kind.tasks * s.processing != {})))
  }

  /** How many finished tasks one cleanup deletes at most. */
  const CLEANUP_SIZE: nat := 100_000

  function FinishedTasks(tasks: TaskMap): set<TaskId> {
    WithStatus(tasks, Succeeded) + WithStatus(tasks, Failed) + WithStatus(tasks, Canceled)
  }

  /** Register a deletion of the finished tasks with the largest ids when the queue is full. */
  function CleanupTaskQueue(s: State, config: Config, now: Date): State {
    var toDelete := TakeLargest(FinishedTasks(s.tasks), CLEANUP_SIZE);
    if |s.tasks| < config.maxNumberOfTasks || |toDelete| < 2 then s
    else
      match Register(s, KindWithContent.TaskDeletion("", toDelete), now, false)
      case Ok(after) => after
      case Err(_) => s
  }

  /** The swap tasks still enqueued have passed the check for duplicates. */
  predicate SwapsValid(tasks: TaskMap) {
    forall id <- tasks :: tasks[id].kind.IndexSwaps? ==> ValidSwaps(tasks[id].kind.swaps)
  }

  /** The tasks with the given ids as the autobatcher gets them, smallest id first. */
  function QueueOf(tasks: TaskMap, ids: set<TaskId>): (queue: seq<Queued>)
    requires ids <= tasks.Keys
    ensures |queue| == |ids|
    ensures forall t <- queue :: t.id in ids && t.kind == tasks[t.id].kind
  {
    if ids == {} then []
    else
      var m := Smallest(ids);
      [Queued(m, tasks[m].kind)] + QueueOf(tasks, ids - {m})
  }

  lemma QueueCons(tasks: TaskMap, ids: set<TaskId>, m: TaskId)
    requires ids <= tasks.Keys && IsSmallest(ids, m)
    ensures QueueOf(tasks, ids) == [Queued(m, tasks[m].kind)] + QueueOf(tasks, ids - {m})
  {
    assert Smallest(ids) == m;
  }

  predicate Ascending(queue: seq<Queued>) {
    forall i, j | 0 <= i < j < |queue| :: queue[i].id < queue[j].id
  }

  lemma AscendingCons(t: Queued, rest: seq<Queued>)
    requires Ascending(rest) && forall u <- rest :: t.id < u.id
    ensures Ascending([t] + rest)
  {
  }

  lemma {:induction false} QueueOrder(tasks: TaskMap, ids: set<TaskId>)
    requires ids <= tasks.Keys
    ensures Ascending(QueueOf(tasks, ids))
  {
    hide Ascending;
    if ids == {} {
      AscendingEmpty();
    } else {
      var m := Smallest(ids);
      QueueOrder(tasks, ids - {m});
      AscendingCons(Queued(m, tasks[m].kind), QueueOf(tasks, ids - {m}));
    }
  }

  lemma AscendingEmpty()
    ensures Ascending([])
  {
  }

  lemma {:induction false} QueueHas(tasks: TaskMap, ids: set<TaskId>, id: TaskId)
    requires ids <= tasks.Keys && id in ids
    ensures Queued(id, tasks[id].kind) in QueueOf(tasks, ids)
  {
    var m := Smallest(ids);
    if id != m {
      QueueHas(tasks, ids - {m}, id);
    }
  }

  predicate NonePrioritised(tasks: TaskMap, ids: set<TaskId>)
    requires ids <= tasks.Keys
  {
    forall id <- ids :: !tasks[id].kind.IsPrioritised()
  }

  /** Cancelations first, the last one; then deletions, snapshots, dumps; then the tasks of an index. */
  function CreateNextBatch(s: State, autobatching: bool): Option<Batch>
    requires SwapsValid(s.tasks)
  {
    var enqueued := WithStatus(s.tasks, Enqueued);
    var toCancel := OfKind(s.tasks, enqueued, Kind.TaskCancelation);
    var toDelete := OfKind(s.tasks, enqueued, Kind.TaskDeletion);
    var toSnapshot := OfKind(s.tasks, enqueued, Kind.SnapshotCreation);
    var toDump := OfKind(s.tasks, enqueued, Kind.DumpCreation);
    if toCancel != {} then Some(Batch.TaskCancelation(Largest(toCancel), s.startedAt, s.processing))
    else if toDelete != {} then Some(Batch.TaskDeletion(Smallest(toDelete)))
    else if toSnapshot != {} then Some(Batch.SnapshotCreation(Sorted(toSnapshot)))
    else if toDump != {} then Some(Batch.Dump(Smallest(toDump)))
    else if enqueued == {} then None
    else
      UnprioritisedQueue(s.tasks, enqueued);
      Some(ForIndex(NextBatch(s.indexes, QueueOf(s.tasks, enqueued), autobatching).batch))
  }

  lemma UnprioritisedQueue(tasks: TaskMap, enqueued: set<TaskId>)
    requires SwapsValid(tasks) && enqueued <= tasks.Keys
    requires OfKind(tasks, enqueued, Kind.TaskCancelation) == {} && OfKind(tasks, enqueued, Kind.TaskDeletion) == {}
    requires OfKind(tasks, enqueued, Kind.SnapshotCreation) == {} && OfKind(tasks, enqueued, Kind.DumpCreation) == {}
    ensures NonePrioritised(tasks, enqueued) && ValidQueue(QueueOf(tasks, enqueued))
  {
    hide QueueOf, SwapsValid, ValidQueue, ValidSwaps;
    forall id <- enqueued
      ensures !tasks[id].kind.IsPrioritised()
    {
      assert id !in OfKind(tasks, enqueued, Kind.TaskCancelation) && id !in OfKind(tasks, enqueued, Kind.TaskDeletion);
      assert id !in OfKind(tasks, enqueued, Kind.SnapshotCreation) && id !in OfKind(tasks, enqueued, Kind.DumpCreation);
    }
    PlainQueue(tasks, enqueued);
  }

  lemma PlainQueue(tasks: TaskMap, enqueued: set<TaskId>)
    requires SwapsValid(tasks) && enqueued <= tasks.Keys && NonePrioritised(tasks, enqueued)
    ensures ValidQueue(QueueOf(tasks, enqueued))
  {
    hide QueueOf, ValidSwaps;
    QueueOrder(tasks, enqueued);
  }

  /** The first half of a tick: clean up, choose a batch, show its tasks as processing. */
  function BeginTick(s: State, config: Config, cleanupAt: Date, now: Date): State
    requires SwapsValid(s.tasks)
  {
    var cleaned := CleanupTaskQueue(s, config, cleanupAt);
    match CreateNextBatch(cleaned, config.autobatchingEnabled)
    case None => cleaned
    case Some(batch) =>
      cleaned.(processing := batch.IdSet(), startedAt := now, mustStop := false, current := Some(batch))
  }

  /** How processing a batch ends; `after` is what it left of the indexes. */
  datatype ProcessOutcome =
    | Done(failed: set<TaskId>, after: Indexes)
    | Failure(after: Indexes)
    | Aborted(after: Indexes)
    | MaxDatabaseSizeReached(after: Indexes)

  /** Enqueued tasks that a cancelation matches are canceled, the others are left alone. */
  function CancelMatched(
    tasks: TaskMap, cancelTask: TaskId, matched: set<TaskId>, previousStartedAt: Date, previousProcessing: set<TaskId>,
    now: Date): TaskMap
  {
    map id | id in tasks ::
      if tasks[id].status.Enqueued? && id in matched then
        tasks[id].(
          startedAt := if id in previousProcessing then Some(previousStartedAt) else tasks[id].startedAt,
          status := Canceled,
          canceledBy := Some(cancelTask),
          finishedAt := Some(now))
      else tasks[id]
  }

  /** Finished tasks that a deletion matches. */
  function Deletable(tasks: TaskMap, matched: set<TaskId>, processing: set<TaskId>): set<TaskId> {
    tasks.Keys * matched - processing - WithStatus(tasks, Enqueued)
  }

  function RenameOne(name: string, swap: IndexSwap): string {
    if name == swap.lhs then swap.rhs else if name == swap.rhs then swap.lhs else name
  }

  function RenameSwaps(swaps: seq<IndexSwap>, swap: IndexSwap): (renamed: seq<IndexSwap>)
    ensures |renamed| == |swaps|
  {
    if swaps == [] then []
    else [IndexSwap.IndexSwap(RenameOne(swaps[0].lhs, swap), RenameOne(swaps[0].rhs, swap))] + RenameSwaps(swaps[1..], swap)
  }

  /** `swap_index_uid_in_task` on the kind of a task. */
  function RenameKind(kind: KindWithContent, swap: IndexSwap): KindWithContent {
    match kind
    case DocumentAdditionOrUpdate(name, pk, m, file, allow) =>
      KindWithContent.DocumentAdditionOrUpdate(RenameOne(name, swap), pk, m, file, allow)
    case DocumentDeletion(name, ids) => KindWithContent.DocumentDeletion(RenameOne(name, swap), ids)
    case DocumentDeletionByFilter(name, filter) =>
      KindWithContent.DocumentDeletionByFilter(RenameOne(name, swap), filter)
    case DocumentClear(name) => KindWithContent.DocumentClear(RenameOne(name, swap))
    case SettingsUpdate(name, settings, isDeletion, allow) =>
      KindWithContent.SettingsUpdate(RenameOne(name, swap), settings, isDeletion, allow)
    case IndexDeletion(name) => KindWithContent.IndexDeletion(RenameOne(name, swap))
    case IndexCreation(name, pk) => KindWithContent.IndexCreation(RenameOne(name, swap), pk)
    case IndexUpdate(name, pk) => KindWithContent.IndexUpdate(RenameOne(name, swap), pk)
    case IndexSwaps(swaps) => KindWithContent.IndexSwaps(RenameSwaps(swaps, swap))
    case TaskCancelation(_, _) => kind
    case TaskDeletion(_, _) => kind
    case DumpCreation => kind
    case SnapshotCreation => kind
  }

  /** Tasks older than `bound` follow their index through a swap. */
  function RenameTasks(tasks: TaskMap, swap: IndexSwap, bound: TaskId): TaskMap {
    map id | id in tasks ::
      if id < bound then tasks[id].(kind := RenameKind(tasks[id].kind, swap)) else tasks[id]
  }

  function RenameAll(tasks: TaskMap, swaps: seq<IndexSwap>, bound: TaskId): TaskMap
    decreases |swaps|
  {
    if swaps == [] then tasks else RenameAll(RenameTasks(tasks, swaps[0], bound), swaps[1..], bound)
  }

  /** The stored tasks after `process_batch` succeeded, before its own tasks are updated. */
  function Processed(s: State, batch: Batch, canceledAt: Date): TaskMap {
    match batch
    case TaskCancelation(task, previousStartedAt, previousProcessing) =>
      if task in s.tasks && s.tasks[task].kind.TaskCancelation? then
        CancelMatched(s.tasks, task, s.tasks[task].kind.tasks, previousStartedAt, previousProcessing, canceledAt)
      else s.tasks
    case TaskDeletion(task) =>
      if task in s.tasks && s.tasks[task].kind.TaskDeletion? then
        s.tasks - Deletable(s.tasks, s.tasks[task].kind.tasks, s.processing)
      else s.tasks
    case SnapshotCreation(_) => s.tasks
    case Dump(_) => s.tasks
    case ForIndex(b) => if b.IndexSwap? then RenameAll(s.tasks, b.swaps, b.task) else s.tasks
  }

  function IndexesAfter(s: State, batch: Batch, outcome: ProcessOutcome): Indexes {
    if !batch.ForIndex? then s.indexes
    else if batch.batch.IndexSwap? then
      if outcome.Done? then SwapAll(s.indexes, batch.batch.swaps) else s.indexes
    else outcome.after
  }

  /** The tasks of a batch become terminal, with the dates of the tick. */
  function Finish(tasks: TaskMap, ids: set<TaskId>, failed: set<TaskId>, startedAt: Date, finishedAt: Date): TaskMap {
    map id | id in tasks ::
      if id in ids then
        tasks[id].(
          startedAt := Some(startedAt),
          finishedAt := Some(finishedAt),
          status := if id in failed then Failed else Succeeded)
      else tasks[id]
  }

  /** The update files of the given tasks. */
  function FilesOf(tasks: TaskMap, ids: set<TaskId>): set<Uuid> {
    set id | id in ids && id in tasks && tasks[id].kind.ContentUuid().Some? :: tasks[id].kind.ContentUuid().value
  }

  /** Tasks that are enqueued before and not after have had their update file deleted. */
  function EndTick(s: State, outcome: ProcessOutcome, canceledAt: Date, finishedAt: Date): State
    requires s.current.Some?
  {
    var batch := s.current.value;
    var indexes := IndexesAfter(s, batch, outcome);
    match outcome
    case Aborted(_) => s.(indexes := indexes, current := None)
    case MaxDatabaseSizeReached(_) => s.(indexes := indexes, current := None)
    case Done(failed, _) =>
      var processed := Processed(s, batch, canceledAt);
      var gone := batch.IdSet() + (WithStatus(s.tasks, Enqueued) - WithStatus(processed, Enqueued));
      s.(tasks := Finish(processed, batch.IdSet(), failed, s.startedAt, finishedAt),
         files := s.files - FilesOf(s.tasks, gone),
         indexes := indexes, processing := {}, current := None)
    case Failure(_) =>
      s.(tasks := Finish(s.tasks, batch.IdSet(), batch.IdSet(), s.startedAt, finishedAt),
         files := s.files - FilesOf(s.tasks, batch.IdSet()),
         indexes := indexes, processing := {}, current := None)
  }
}
