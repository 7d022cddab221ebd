/**
 What every reachable state of the task queue satisfies.

 An event is an upload, a registration, or one half of a tick.  `Invariant` is kept by every
 event, so it holds after every run (`TaskHistory` draws the consequences).
*/
module TaskRuns {
  import opened Wrappers
  import opened Tasks
  import opened Bitmaps
  import opened Autobatcher
  import opened BatchShape
  import opened BatchEquivalence
  import opened Indexing
  import opened Queue
  import opened BatchOrder
  import opened TaskQueue
  import opened Renaming

  datatype Event =
    | Upload(file: Uuid)
    | RegisterTask(kind: KindWithContent, now: Date, nearlyFull: bool)
    | Begin(cleanupAt: Date, now: Date)
    | End(outcome: ProcessOutcome, canceledAt: Date, finishedAt: Date)
    | Reopen(now: Date)

  /** The dates and the canceling task go with the status. */
  predicate LifeCycle(t: Task) {
    && !t.status.Processing?
    && (t.status.Enqueued? ==> t.startedAt.None? && t.finishedAt.None?)
    && (t.status.IsTerminal() ==> t.finishedAt.Some?)
    && (t.status.Succeeded? || t.status.Failed? ==> t.startedAt.Some?)
    && (t.status.Canceled? <==> t.canceledBy.Some?)
  }

  /** Deletions and cancelations refer to older tasks only. */
  predicate RefersToOlder(t: Task) {
    t.kind.TaskCancelation? || t.kind.TaskDeletion? ==> forall r <- t.kind.tasks :: r < t.uid
  }

  predicate TaskInvariant(id: TaskId, t: Task) {
    && t.uid == id && id <= MAX_TASK_ID
    && LifeCycle(t) && RefersToOlder(t)
    && (t.kind.IndexSwaps? ==> ValidSwaps(t.kind.swaps))
  }

  predicate TasksInvariant(tasks: TaskMap) {
    forall id <- tasks :: TaskInvariant(id, tasks[id])
  }

  /** A canceled task was canceled by a later task that succeeded and asked for it, if still stored. */
  predicate CanceledBy(tasks: TaskMap, id: TaskId, c: TaskId) {
    && id < c < NextId(tasks)
    && (c in tasks ==> tasks[c].kind.TaskCancelation? && id in tasks[c].kind.tasks && tasks[c].status.Succeeded?)
  }

  predicate CancelInvariant(tasks: TaskMap) {
    forall id <- tasks :: tasks[id].canceledBy.Some? ==> CanceledBy(tasks, id, tasks[id].canceledBy.value)
  }

  predicate NeedsFile(tasks: TaskMap, id: TaskId, file: Uuid) {
    id in tasks && tasks[id].kind.ContentUuid() == Some(file)
  }

  /** An update file is there exactly while the task that needs it is enqueued; files are not shared. */
  ghost predicate FilesInvariant(tasks: TaskMap, files: set<Uuid>) {
    && (forall id, file | id in tasks && NeedsFile(tasks, id, file) :: file in files <==> tasks[id].status.Enqueued?)
    && (forall i, j, file | i in tasks && j in tasks && NeedsFile(tasks, i, file) && NeedsFile(tasks, j, file) :: i == j)
  }

  /** The batch is about a stored task of the right kind. */
  predicate Fits(tasks: TaskMap, batch: Batch) {
    match batch
    case TaskCancelation(task, _, _) => task in tasks && tasks[task].kind.TaskCancelation?
    case TaskDeletion(task) => task in tasks && tasks[task].kind.TaskDeletion?
    case SnapshotCreation(_) => true
    case Dump(_) => true
    case ForIndex(b) => b.IndexSwap? ==> b.task in tasks && tasks[b.task].kind == KindWithContent.IndexSwaps(b.swaps)
  }

  predicate BatchInvariant(tasks: TaskMap, batch: Batch) {
    && batch.Ids() != [] && Distinct(batch.Ids())
    && batch.IdSet() <= WithStatus(tasks, Enqueued)
    && Fits(tasks, batch)
  }

  /** A cancelation registered while its target was processing waits for the next tick. */
  predicate Pending(s: State, c: TaskId) {
    && c in s.tasks && s.tasks[c].status.Enqueued? && s.tasks[c].kind.TaskCancelation?
    && (s.current.Some? ==> forall id <- s.current.value.IdSet() :: id < c)
  }

  ghost predicate StopInvariant(s: State) {
    s.mustStop ==> exists c :: Pending(s, c)
  }

  predicate ProcessingInvariant(s: State) {
    && s.processing <= WithStatus(s.tasks, Enqueued)
    && (s.current.Some? ==> s.processing == s.current.value.IdSet() && BatchInvariant(s.tasks, s.current.value))
  }

  ghost predicate Invariant(s: State) {
    && TasksInvariant(s.tasks)
    && CancelInvariant(s.tasks)
    && FilesInvariant(s.tasks, s.files)
    && ProcessingInvariant(s)
    && StopInvariant(s)
  }

  /** The ways in which processing a batch can end. */
  predicate Possible(s: State, outcome: ProcessOutcome)
    requires s.current.Some?
  {
    var batch := s.current.value;
    match outcome
    case Done(failed, _) =>
      && failed <= batch.IdSet()
      && (failed != {} ==> batch.ForIndex? && (batch.batch.IndexOperation? || batch.batch.IndexDocumentDeletionByFilter?))
      && (batch.ForIndex? && batch.batch.IndexSwap? ==> SwapNames(batch.batch.swaps) <= s.indexes.Keys)
    case Failure(_) => true
    case Aborted(_) => s.mustStop && batch.ForIndex? && !batch.batch.IndexSwap? && !batch.batch.IndexDeletion?
    case MaxDatabaseSizeReached(_) => batch.ForIndex? && !batch.batch.IndexSwap?
  }

  /** The program is started on what an earlier one stored: what was only in memory is gone. */
  function Reopened(s: State, now: Date): State {
    s.(processing := {}, startedAt := now, mustStop := false, current := None)
  }

  /** Uploads get fresh ids, an upload is registered once, and ticks do not overlap. */
  predicate Admissible(s: State, e: Event) {
    match e
    case Upload(file) => file !in s.files && forall id <- s.tasks :: !NeedsFile(s.tasks, id, file)
    case RegisterTask(kind, _, _) => FreshContent(s, kind)
    case Begin(_, _) => s.current.None?
    case End(outcome, _, _) => s.current.Some? && Possible(s, outcome)
    case Reopen(_) => true
  }

  predicate FreshContent(s: State, kind: KindWithContent) {
    kind.ContentUuid().Some? ==>
      kind.contentFile in s.files && forall id <- s.tasks :: !NeedsFile(s.tasks, id, kind.contentFile)
  }

  lemma InvariantSwaps(tasks: TaskMap)
    requires TasksInvariant(tasks)
    ensures SwapsValid(tasks)
  {
    forall id <- tasks
      ensures tasks[id].kind.IndexSwaps? ==> ValidSwaps(tasks[id].kind.swaps)
    {
      assert TaskInvariant(id, tasks[id]);
    }
  }

  function Step(config: Config, s: State, e: Event): State
    requires TasksInvariant(s.tasks) && Admissible(s, e)
  {
    match e
    case Upload(file) => s.(files := s.files + {file})
    case RegisterTask(kind, now, nearlyFull) => (
      match Register(s, kind, now, nearlyFull)
      case Ok(after) => after
      case Err(_) => s)
    case Begin(cleanupAt, now) =>
      InvariantSwaps(s.tasks);
      BeginTick(s, config, cleanupAt, now)
    case End(outcome, canceledAt, finishedAt) => EndTick(s, outcome, canceledAt, finishedAt)
    case Reopen(now) => Reopened(s, now)
  }

  // Registering

  lemma NextIdIsNew(tasks: TaskMap)
    ensures NextId(tasks) !in tasks && forall id <- tasks :: id < NextId(tasks)
  {
  }

  lemma NextIdAfter(tasks: TaskMap, more: TaskMap)
    requires forall id <- tasks :: id in more
    ensures NextId(tasks) <= NextId(more)
  {
    if tasks != map[] {
      var m := Largest(tasks.Keys);
      assert m in more.Keys;
    }
  }

  /** The task that `Register` stores. */
  function NewTask(tasks: TaskMap, kind: KindWithContent, now: Date): Task {
    var id := NextId(tasks);
    Task(id, now, None, None, None, Enqueued, FilterReferences(kind, id))
  }

  /** `after` is `s` with one more task. */
  predicate Added(s: State, after: State, t: Task) {
    && t.uid == NextId(s.tasks) && t.uid !in s.tasks
    && after.tasks == s.tasks[t.uid := t]
    && after.files == s.files && after.indexes == s.indexes && after.processing == s.processing
    && after.startedAt == s.startedAt && after.current == s.current
  }

  lemma RegisterAdds(s: State, kind: KindWithContent, now: Date, nearlyFull: bool)
    ensures
      var r := Register(s, kind, now, nearlyFull);
      r.Ok? ==>
        && Added(s, r.value, NewTask(s.tasks, kind, now))
        && TaskInvariant(NextId(s.tasks), NewTask(s.tasks, kind, now))
        && r.value.mustStop == (s.mustStop || (kind.TaskCancelation? && kind.tasks * s.processing != {}))
  {
    NextIdIsNew(s.tasks);
  }

  lemma AddedTasks(s: State, after: State, t: Task)
    requires TasksInvariant(s.tasks) && CancelInvariant(s.tasks) && Added(s, after, t)
    requires TaskInvariant(t.uid, t) && t.status.Enqueued? && t.canceledBy.None?
    ensures TasksInvariant(after.tasks) && CancelInvariant(after.tasks)
    ensures WithStatus(after.tasks, Enqueued) == WithStatus(s.tasks, Enqueued) + {t.uid}
  {
    hide TaskInvariant, NextId;
    NextIdAfter(s.tasks, after.tasks);
  }

  lemma AddedFiles(s: State, after: State, t: Task, kind: KindWithContent)
    requires FilesInvariant(s.tasks, s.files) && FreshContent(s, kind) && Added(s, after, t)
    requires t.kind.ContentUuid() == kind.ContentUuid() && t.status.Enqueued?
    ensures FilesInvariant(after.tasks, after.files)
  {
    hide NextId;
    forall id, file | id in after.tasks && NeedsFile(after.tasks, id, file)
      ensures file in after.files <==> after.tasks[id].status.Enqueued?
    {
      assert id != t.uid ==> NeedsFile(s.tasks, id, file);
    }
    forall i, j, file | i in after.tasks && j in after.tasks && NeedsFile(after.tasks, i, file) && NeedsFile(after.tasks, j, file)
      ensures i == j
    {
      assert i != t.uid ==> NeedsFile(s.tasks, i, file);
      assert j != t.uid ==> NeedsFile(s.tasks, j, file);
    }
  }

  lemma AddedProcessing(s: State, after: State, t: Task)
    requires ProcessingInvariant(s) && Added(s, after, t) && t.status.Enqueued?
    ensures ProcessingInvariant(after)
  {
    hide NextId;
    assert WithStatus(s.tasks, Enqueued) <= WithStatus(after.tasks, Enqueued);
  }

  lemma AddedStop(s: State, after: State, t: Task, kind: KindWithContent)
    requires ProcessingInvariant(s) && StopInvariant(s) && Added(s, after, t)
    requires t.status.Enqueued? && t.kind.TaskCancelation? == kind.TaskCancelation?
    requires after.mustStop ==> s.mustStop || kind.TaskCancelation?
    ensures StopInvariant(after)
  {
    hide NextId, BatchInvariant;
    if after.mustStop {
      if s.mustStop {
        var c :| Pending(s, c);
        assert Pending(after, c);
      } else {
        NextIdIsNew(s.tasks);
        assert Pending(after, t.uid);
      }
    }
  }

  lemma RegisterKeeps(s: State, kind: KindWithContent, now: Date, nearlyFull: bool)
    requires Invariant(s) && FreshContent(s, kind)
    ensures
      var r := Register(s, kind, now, nearlyFull);
      r.Ok? ==> Invariant(r.value) && Added(s, r.value, NewTask(s.tasks, kind, now))
  {
    hide NextId, TasksInvariant, CancelInvariant, FilesInvariant, ProcessingInvariant, FreshContent;
    hide Added, StopInvariant;
    var r := Register(s, kind, now, nearlyFull);
    if r.Ok? {
      var t := NewTask(s.tasks, kind, now);
      RegisterAdds(s, kind, now, nearlyFull);
      AddedTasks(s, r.value, t);
      AddedFiles(s, r.value, t, kind);
      AddedProcessing(s, r.value, t);
      AddedStop(s, r.value, t, kind);
    }
  }

  lemma CleanupKeeps(s: State, config: Config, now: Date)
    requires Invariant(s)
    ensures
      var after := CleanupTaskQueue(s, config, now);
      && Invariant(after) && after.mustStop == s.mustStop
      && (after == s || exists t :: Added(s, after, t) && t.kind.TaskDeletion? && t.status.Enqueued?)
  {
    hide Invariant, Register, FinishedTasks, NextId, TakeLargest;
    var kind := KindWithContent.TaskDeletion("", TakeLargest(FinishedTasks(s.tasks), CLEANUP_SIZE));
    RegisterKeeps(s, kind, now, false);
    RegisterAdds(s, kind, now, false);
    if Register(s, kind, now, false).Ok? {
      assert NewTask(s.tasks, kind, now).kind.TaskDeletion?;
    }
  }

  // Choosing a batch

  lemma IndexBatchFits(tasks: TaskMap, enqueued: set<TaskId>, indexes: Indexes, autobatching: bool)
    requires SwapsValid(tasks) && enqueued == WithStatus(tasks, Enqueued) && enqueued != {} && NonePrioritised(tasks, enqueued)
    requires ValidQueue(QueueOf(tasks, enqueued))
    ensures BatchInvariant(tasks, ForIndex(NextBatch(indexes, QueueOf(tasks, enqueued), autobatching).batch))
  {
    hide NextBatch, QueueOf, ValidQueue, SwapsValid;
    var queue := QueueOf(tasks, enqueued);
    var s := NextBatch(indexes, queue, autobatching);
    ScheduledIds(indexes, queue, autobatching);
    BatchListsOnce(indexes, queue, autobatching);
    assert queue[0] in queue;
    SwapsAlone(indexes, queue, autobatching, queue[0]);
    forall id <- s.batch.Ids()
      ensures id in enqueued
    {
      assert id in multiset(s.batch.Ids());
      IdsOf(s.taken, id);
    }
  }

  lemma OneTaskFits(tasks: TaskMap, batch: Batch)
    requires batch.TaskCancelation? || batch.TaskDeletion? || batch.Dump?
    requires batch.task in WithStatus(tasks, Enqueued)
    requires batch.TaskCancelation? ==> tasks[batch.task].kind.AsKind() == Kind.TaskCancelation
    requires batch.TaskDeletion? ==> tasks[batch.task].kind.AsKind() == Kind.TaskDeletion
    ensures BatchInvariant(tasks, batch)
  {
    assert batch.Ids() == [batch.task];
  }

  lemma SnapshotFits(tasks: TaskMap, ids: set<TaskId>)
    requires ids <= WithStatus(tasks, Enqueued) && ids != {}
    ensures BatchInvariant(tasks, Batch.SnapshotCreation(Sorted(ids)))
  {
    hide Sorted;
    assert Increasing(Sorted(ids));
  }

  lemma NextBatchFits(s: State, autobatching: bool)
    requires SwapsValid(s.tasks)
    ensures CreateNextBatch(s, autobatching).Some? ==> BatchInvariant(s.tasks, CreateNextBatch(s, autobatching).value)
  {
    hide NextBatch, QueueOf, ValidQueue, SwapsValid, BatchInvariant, Sorted;
    var enqueued := WithStatus(s.tasks, Enqueued);
    var batch := CreateNextBatch(s, autobatching);
    if batch.Some? {
      match batch.value {
        case ForIndex(_) =>
          UnprioritisedQueue(s.tasks, enqueued);
          IndexBatchFits(s.tasks, enqueued, s.indexes, autobatching);
        case SnapshotCreation(_) => SnapshotFits(s.tasks, OfKind(s.tasks, enqueued, Kind.SnapshotCreation));
        case TaskCancelation(_, _, _) => OneTaskFits(s.tasks, batch.value);
        case TaskDeletion(_) => OneTaskFits(s.tasks, batch.value);
        case Dump(_) => OneTaskFits(s.tasks, batch.value);
      }
    }
  }

  lemma BeginKeeps(s: State, config: Config, cleanupAt: Date, now: Date)
    requires Invariant(s) && s.current.None?
    ensures SwapsValid(s.tasks) && Invariant(BeginTick(s, config, cleanupAt, now))
  {
    hide TasksInvariant, CancelInvariant, FilesInvariant, BatchInvariant, CreateNextBatch, CleanupTaskQueue, SwapsValid;
    InvariantSwaps(s.tasks);
    CleanupKeeps(s, config, cleanupAt);
    var cleaned := CleanupTaskQueue(s, config, cleanupAt);
    InvariantSwaps(cleaned.tasks);
    NextBatchFits(cleaned, config.autobatchingEnabled);
    BatchIsEnqueued(cleaned, config.autobatchingEnabled);
  }

  lemma BatchIsEnqueued(s: State, autobatching: bool)
    requires SwapsValid(s.tasks)
    ensures
      var batch := CreateNextBatch(s, autobatching);
      batch.Some? ==> batch.value.IdSet() <= WithStatus(s.tasks, Enqueued)
  {
    hide CreateNextBatch, SwapsValid;
    NextBatchFits(s, autobatching);
  }
}
