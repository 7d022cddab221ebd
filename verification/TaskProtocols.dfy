/**
 Protocols of the task queue that span several events: stopping a batch to cancel it, the order
 of the tasks of an index, the automatic cleanup, and ticks that drain the queue.
*/
module TaskProtocols {
  import opened Wrappers
  import opened Tasks
  import opened Bitmaps
  import opened Autobatcher
  import opened BatchShape
  import opened Indexing
  import opened Queue
  import opened BatchOrder
  import opened TaskQueue
  import opened TaskRuns
  import opened TaskEnds
  import opened TaskHistory

  // Canceling what is being processed

  /** `next` processes a cancelation that still sees what `s` was processing, and since when. */
  predicate TakesOver(s: State, next: State) {
    && next.current.Some? && next.current.value.TaskCancelation?
    && next.current.value.previousStartedAt == s.startedAt
    && next.current.value.previousProcessingTasks == s.processing
    && !next.mustStop && next.processing == {next.current.value.task}
  }

  /** No cancelation is left waiting behind the one that `next` processes. */
  ghost predicate IsLastPending(s: State, next: State) {
    && next.current.Some? && next.current.value.TaskCancelation?
    && forall c: TaskId :: Pending(s, c) ==> c <= next.current.value.task
  }

  /** A batch asked to stop is followed by a cancelation. */
  lemma StopMeansCancel(config: Config, s: State, cleanupAt: Date, now: Date)
    requires Invariant(s) && s.current.None? && s.mustStop
    ensures SwapsValid(s.tasks)
    ensures TakesOver(s, BeginTick(s, config, cleanupAt, now)) && IsLastPending(s, BeginTick(s, config, cleanupAt, now))
  {
    hide CancelInvariant, FilesInvariant, TaskInvariant, BatchInvariant, CleanupTaskQueue;
    InvariantSwapsOf(s);
    CleanupKeeps(s, config, cleanupAt);
    var cleaned := CleanupTaskQueue(s, config, cleanupAt);
    PendingAfterCleanup(s, cleaned);
  }

  lemma PendingAfterCleanup(s: State, cleaned: State)
    requires StopInvariant(s) && s.mustStop
    requires cleaned == s || exists t :: Added(s, cleaned, t)
    ensures
      var toCancel := OfKind(cleaned.tasks, WithStatus(cleaned.tasks, Enqueued), Kind.TaskCancelation);
      && toCancel != {}
      && forall c: TaskId :: Pending(s, c) ==> c in toCancel
    ensures cleaned.startedAt == s.startedAt && cleaned.processing == s.processing
  {
    hide NextId;
    var toCancel := OfKind(cleaned.tasks, WithStatus(cleaned.tasks, Enqueued), Kind.TaskCancelation);
    forall c: TaskId | Pending(s, c)
      ensures c in toCancel
    {
      assert c in cleaned.tasks && cleaned.tasks[c] == s.tasks[c];
    }
    var c :| Pending(s, c);
    assert c in toCancel;
  }

  /** The end of a cancelation that was chosen while `previous` was still marked as processing. */
  lemma CancelationSettles(s: State, outcome: ProcessOutcome, canceledAt: Date, finishedAt: Date, id: TaskId)
    requires Invariant(s) && s.current.Some? && s.current.value.TaskCancelation? && outcome.Done? && Possible(s, outcome)
    requires id in s.tasks && s.tasks[id].status.Enqueued?
    ensures
      var batch, after := s.current.value, EndTick(s, outcome, canceledAt, finishedAt);
      && batch.task in s.tasks && s.tasks[batch.task].kind.TaskCancelation? && id in after.tasks
      && var matched, u := s.tasks[batch.task].kind.tasks, after.tasks[id];
         if id == batch.task then u.status.Succeeded? && u.startedAt == Some(s.startedAt)
         else if id in matched then
           && u.status.Canceled? && u.canceledBy == Some(batch.task)
           && u.startedAt == (if id in batch.previousProcessingTasks then Some(batch.previousStartedAt) else None)
         else u.status.Enqueued? && u.startedAt.None? && u.canceledBy.None?
  {
    hide EndTick, Removed, CancelInvariant, FilesInvariant, StopInvariant, SameSubject, WithStatus;
    EndedTasks(s, outcome, canceledAt, finishedAt);
    EnqueuedStaysAtEnd(s, outcome, canceledAt, finishedAt, id);
    var task := s.current.value.task;
    assert s.current.value.Ids() == [task];
    assert s.current.value.IdSet() == {task};
    EnqueuedNotCanceled(s, task);
    assert Ends(s, true, id, EndTick(s, outcome, canceledAt, finishedAt).tasks[id]);
    assert TaskInvariant(id, s.tasks[id]);
  }

  /**
   From the abort of a batch to its cancelation: the tasks that were asked to be canceled are
   canceled and show when they were started; the others of the batch are back in the queue as if
   they had never been started.
  */
  lemma AbortThenCancel(
    config: Config, s: State, after: Indexes, cleanupAt: Date, now: Date, done: ProcessOutcome,
    canceledAt: Date, finishedAt: Date, id: TaskId)
    requires Invariant(s) && s.current.Some? && Possible(s, Aborted(after)) && id in s.processing
    requires done.Done? && done.failed == {}
    ensures
      var aborted := EndTick(s, Aborted(after), canceledAt, finishedAt);
      && TasksInvariant(aborted.tasks) && SwapsValid(aborted.tasks)
      && var begun := BeginTick(aborted, config, cleanupAt, now);
         && begun.current.Some? && begun.current.value.TaskCancelation?
         && var c, ended := begun.current.value.task, EndTick(begun, done, canceledAt, finishedAt);
            && c in begun.tasks && begun.tasks[c].kind.TaskCancelation? && id in ended.tasks
            && var u := ended.tasks[id];
               if id in begun.tasks[c].kind.tasks then
                 u.status.Canceled? && u.canceledBy == Some(c) && u.startedAt == Some(s.startedAt)
               else u.status.Enqueued? && u.startedAt.None?
  {
    hide BeginTick, CancelInvariant, FilesInvariant, TaskInvariant, Processed, FilesOf, IndexesAfter, Finish;
    hide BatchInvariant;
    EndKeeps(s, Aborted(after), canceledAt, finishedAt);
    var aborted := EndTick(s, Aborted(after), canceledAt, finishedAt);
    StopMeansCancel(config, aborted, cleanupAt, now);
    BeginKeeps(aborted, config, cleanupAt, now);
    BeginTasks(aborted, config, cleanupAt, now);
    var begun := BeginTick(aborted, config, cleanupAt, now);
    assert id in WithStatus(s.tasks, Enqueued);
    AbortedBefore(s, aborted, begun, id);
    CancelationSettles(begun, done, canceledAt, finishedAt, id);
  }

  lemma AbortedBefore(s: State, aborted: State, begun: State, id: TaskId)
    requires ProcessingInvariant(s) && StopInvariant(s) && s.mustStop && s.current.Some? && id in s.processing
    requires aborted.tasks == s.tasks && aborted.current.None?
    requires IsLastPending(aborted, begun)
    ensures id < begun.current.value.task
  {
    hide BatchInvariant, WithStatus;
    var c :| Pending(s, c);
    assert Pending(aborted, c);
  }

  // The order of the tasks of an index

  predicate SharesIndex(tasks: TaskMap, a: TaskId, b: TaskId) {
    a in tasks && b in tasks && tasks[a].kind.Indexes() * tasks[b].kind.Indexes() != {}
  }

  /** Tasks handled before any index operation are of the kinds that mention no index. */
  lemma PrioritisedBatch(s: State, autobatching: bool, id: TaskId)
    requires SwapsValid(s.tasks)
    requires
      var batch := CreateNextBatch(s, autobatching);
      batch.Some? && !batch.value.ForIndex? && id in batch.value.IdSet()
    ensures id in s.tasks && s.tasks[id].kind.IsPrioritised()
  {
    hide QueueOf, NextBatch, SwapsValid, WithStatus, KindWithContent.AsKind, Sorted;
    var enqueued := WithStatus(s.tasks, Enqueued);
    assert enqueued <= s.tasks.Keys by {
      EnqueuedStored(s.tasks);
    }
    var batch := CreateNextBatch(s, autobatching).value;
    if batch.SnapshotCreation? {
      assert id in OfKind(s.tasks, enqueued, Kind.SnapshotCreation);
    } else {
      assert id == batch.task;
    }
    KindIsPrioritised(s.tasks[id].kind);
  }

  lemma EnqueuedStored(tasks: TaskMap)
    ensures WithStatus(tasks, Enqueued) <= tasks.Keys
  {
  }

  lemma KindIsPrioritised(kind: KindWithContent)
    ensures
      kind.AsKind() in {Kind.TaskCancelation, Kind.TaskDeletion, Kind.SnapshotCreation, Kind.DumpCreation}
      <==> kind.IsPrioritised()
  {
  }

  /** In whatever batch a tick processes, no task overtakes an older enqueued one that shares an index with it. */
  lemma TicksKeepOrder(s: State, autobatching: bool, older: TaskId, newer: TaskId)
    requires SwapsValid(s.tasks) && older in WithStatus(s.tasks, Enqueued) && older < newer
    requires SharesIndex(s.tasks, older, newer)
    requires CreateNextBatch(s, autobatching).Some? && newer in CreateNextBatch(s, autobatching).value.IdSet()
    ensures older in CreateNextBatch(s, autobatching).value.IdSet()
  {
    hide QueueOf, NextBatch, SwapsValid;
    var enqueued := WithStatus(s.tasks, Enqueued);
    var batch := CreateNextBatch(s, autobatching).value;
    BatchIsEnqueued(s, autobatching);
    if batch.ForIndex? {
      UnprioritisedQueue(s.tasks, enqueued);
      QueueHas(s.tasks, enqueued, older);
      QueueHas(s.tasks, enqueued, newer);
      NoOvertaking(
        s.indexes, QueueOf(s.tasks, enqueued), autobatching,
        Queued(older, s.tasks[older].kind), Queued(newer, s.tasks[newer].kind));
    } else {
      PrioritisedBatch(s, autobatching, newer);
    }
  }

  /** A swap is processed alone, and only as the oldest task that is enqueued. */
  lemma SwapIsOldest(s: State, autobatching: bool, id: TaskId)
    requires SwapsValid(s.tasks) && id in s.tasks && s.tasks[id].kind.IndexSwaps?
    requires CreateNextBatch(s, autobatching).Some? && id in CreateNextBatch(s, autobatching).value.IdSet()
    ensures CreateNextBatch(s, autobatching).value == ForIndex(IndexBatch.IndexSwap(s.tasks[id].kind.swaps, id))
    ensures forall other <- WithStatus(s.tasks, Enqueued) :: id <= other
  {
    hide NextBatch, SwapsValid;
    var enqueued := WithStatus(s.tasks, Enqueued);
    BatchIsEnqueued(s, autobatching);
    if !CreateNextBatch(s, autobatching).value.ForIndex? {
      PrioritisedBatch(s, autobatching, id);
    } else {
      UnprioritisedQueue(s.tasks, enqueued);
      QueueHas(s.tasks, enqueued, id);
      SwapsAlone(s.indexes, QueueOf(s.tasks, enqueued), autobatching, Queued(id, s.tasks[id].kind));
    }
  }

  // The automatic cleanup

  /** The task that a cleanup registers. */
  function CleanupTask(s: State, now: Date): Task {
    NewTask(s.tasks, KindWithContent.TaskDeletion("", TakeLargest(FinishedTasks(s.tasks), CLEANUP_SIZE)), now)
  }

  /** A cleanup registers the deletion of the finished tasks with the largest ids: the newest, not the oldest. */
  lemma CleanupTakesNewest(s: State, config: Config, now: Date)
    requires CleanupTaskQueue(s, config, now) != s
    ensures
      var t, finished := CleanupTask(s, now), FinishedTasks(s.tasks);
      && CleanupTaskQueue(s, config, now) == s.(tasks := s.tasks[NextId(s.tasks) := t])
      && t.kind.TaskDeletion? && t.kind.tasks <= finished && Above(t.kind.tasks, finished - t.kind.tasks)
      && 2 <= |t.kind.tasks| == if |finished| <= 100_000 then |finished| else 100_000
  {
    hide NextId, FinishedTasks, TakeLargest;
    CleanupFilters(s);
  }

  /** It empties the finished tasks exactly when they are few enough; otherwise the oldest of them stays. */
  lemma CleanupLeavesOldest(s: State, config: Config, now: Date)
    requires CleanupTaskQueue(s, config, now) != s
    ensures
      var t, finished := CleanupTask(s, now), FinishedTasks(s.tasks);
      && t.kind.TaskDeletion?
      && (t.kind.tasks == finished <==> |finished| <= 100_000)
      && (|finished| > 100_000 ==> Smallest(finished) !in t.kind.tasks)
  {
    hide NextId, FinishedTasks, TakeLargest, CleanupTaskQueue;
    CleanupTakesNewest(s, config, now);
    var deleted, finished := CleanupTask(s, now).kind.tasks, FinishedTasks(s.tasks);
    if |finished| <= CLEANUP_SIZE {
      SubsetCardinality(deleted, finished);
    } else {
      if finished <= deleted {
        SubsetCardinality(finished, deleted);
      }
      var kept :| kept in finished && kept !in deleted;
      if Smallest(finished) in deleted {
        AboveAt(deleted, finished - deleted, Smallest(finished), kept);
      }
    }
  }

  lemma CleanupFilters(s: State)
    ensures
      var kind := KindWithContent.TaskDeletion("", TakeLargest(FinishedTasks(s.tasks), CLEANUP_SIZE));
      FilterReferences(kind, NextId(s.tasks)) == kind
  {
    hide NextId, TakeLargest;
    NextIdIsNew(s.tasks);
    var kind := KindWithContent.TaskDeletion("", TakeLargest(FinishedTasks(s.tasks), CLEANUP_SIZE));
    assert FinishedTasks(s.tasks) <= s.tasks.Keys;
    assert FilterReferences(kind, NextId(s.tasks)).tasks == kind.tasks;
  }

  /** Nothing but the cleanup's own deletion is handled before the index tasks. */
  predicate NoneRequested(tasks: TaskMap) {
    forall id <- tasks :: tasks[id].status.Enqueued? ==> !tasks[id].kind.TaskCancelation? && !tasks[id].kind.TaskDeletion?
  }

  lemma OnlyDeletion(s: State, tasks: TaskMap, id: TaskId, autobatching: bool)
    requires NoneRequested(tasks) && id in s.tasks && s.tasks == tasks[id := s.tasks[id]]
    requires s.tasks[id].kind.TaskDeletion? && s.tasks[id].status.Enqueued? && SwapsValid(s.tasks)
    ensures CreateNextBatch(s, autobatching) == Some(Batch.TaskDeletion(id))
  {
    hide NextBatch, QueueOf, SwapsValid;
    var enqueued := WithStatus(s.tasks, Enqueued);
    assert OfKind(s.tasks, enqueued, Kind.TaskCancelation) == {};
    assert OfKind(s.tasks, enqueued, Kind.TaskDeletion) == {id};
  }

  /** The deletion that a cleanup registers is the next batch. */
  lemma CleanupIsNext(s: State, config: Config, cleanupAt: Date, now: Date)
    requires Invariant(s) && s.current.None? && NoneRequested(s.tasks)
    requires CleanupTaskQueue(s, config, cleanupAt) != s
    ensures SwapsValid(s.tasks) && NextId(s.tasks) !in s.tasks
    ensures
      var id, next := NextId(s.tasks), BeginTick(s, config, cleanupAt, now);
      && next.tasks == s.tasks[id := CleanupTask(s, cleanupAt)]
      && next.current == Some(Batch.TaskDeletion(id)) && next.processing == {id}
  {
    hide Invariant, NextId, CleanupTaskQueue, CreateNextBatch, NoneRequested, TakeLargest, FinishedTasks;
    InvariantSwapsOf(s);
    NextIdIsNew(s.tasks);
    CleanupTakesNewest(s, config, cleanupAt);
    var cleaned := CleanupTaskQueue(s, config, cleanupAt);
    CleanupKeeps(s, config, cleanupAt);
    InvariantSwapsOf(cleaned);
    OnlyDeletion(cleaned, s.tasks, NextId(s.tasks), config.autobatchingEnabled);
  }

  lemma TickKeeps(config: Config, s: State, cleanupAt: Date, now: Date, done: ProcessOutcome, canceledAt: Date, finishedAt: Date)
    requires Invariant(s) && s.current.None? && SwapsValid(s.tasks)
    requires
      var current := BeginTick(s, config, cleanupAt, now).current;
      done.Done? && done.failed == {} && current.Some? && current.value.TaskDeletion?
    ensures Invariant(EndTick(BeginTick(s, config, cleanupAt, now), done, canceledAt, finishedAt))
  {
    hide Invariant, BeginTick, EndTick;
    BeginKeeps(s, config, cleanupAt, now);
    EndKeeps(BeginTick(s, config, cleanupAt, now), done, canceledAt, finishedAt);
  }

  /**
   A tick whose cleanup registers a deletion, and succeeds, ends with strictly fewer finished
   tasks, and with nothing requested: the next cleanup starts from there.
  */
  lemma CleanupShrinks(config: Config, s: State, cleanupAt: Date, now: Date, done: ProcessOutcome, canceledAt: Date, finishedAt: Date)
    requires Invariant(s) && s.current.None? && NoneRequested(s.tasks)
    requires CleanupTaskQueue(s, config, cleanupAt) != s
    requires done.Done? && done.failed == {}
    ensures SwapsValid(s.tasks)
    ensures
      var begun := BeginTick(s, config, cleanupAt, now);
      && begun.current.Some?
      && var ended, finished := EndTick(begun, done, canceledAt, finishedAt), FinishedTasks(s.tasks);
         && FinishedTasks(ended.tasks) == finished - TakeLargest(finished, CLEANUP_SIZE) + {NextId(s.tasks)}
         && |FinishedTasks(ended.tasks)| < |finished|
         && NoneRequested(ended.tasks) && ended.current.None? && Invariant(ended)
  {
    hide Invariant, NextId, CleanupTaskQueue, BeginTick, TakeLargest, FinishedTasks, EndTick, NoneRequested, TasksInvariant;
    hide SwapsValid, Above, FilterReferences;
    CleanupIsNext(s, config, cleanupAt, now);
    CleanupFilters(s);
    CleanupTakesNewest(s, config, cleanupAt);
    InvariantSwapsOf(s);
    var begun := BeginTick(s, config, cleanupAt, now);
    TickKeeps(config, s, cleanupAt, now, done, canceledAt, finishedAt);
    DeletionEnds(s, begun, NextId(s.tasks), done, canceledAt, finishedAt);
    var finished := FinishedTasks(s.tasks);
    var taken := TakeLargest(finished, CLEANUP_SIZE);
    FinishedStored(s.tasks);
    assert NextId(s.tasks) !in finished;
    SetMinus(finished, taken, NextId(s.tasks));
  }

  /** What happens in one tick that ends its batch: the dates, and the outcome. */
  datatype Tick = Tick(cleanupAt: Date, now: Date, outcome: ProcessOutcome, canceledAt: Date, finishedAt: Date)

  /** The tick's own cleanup registers a deletion, and the tick succeeds. */
  predicate CleansUp(config: Config, s: State, tick: Tick) {
    CleanupTaskQueue(s, config, tick.cleanupAt) != s && tick.outcome.Done? && tick.outcome.failed == {}
  }

  /** The state after the ticks; `None` when one of them does not clean up. */
  ghost function CleanedUp(config: Config, s: State, ticks: seq<Tick>): Option<State>
    requires SwapsValid(s.tasks)
    decreases |ticks|
  {
    if ticks == [] then Some(s)
    else
      var begun := BeginTick(s, config, ticks[0].cleanupAt, ticks[0].now);
      if !CleansUp(config, s, ticks[0]) || begun.current.None? then None
      else
        var ended := EndTick(begun, ticks[0].outcome, ticks[0].canceledAt, ticks[0].finishedAt);
        if SwapsValid(ended.tasks) then CleanedUp(config, ended, ticks[1..]) else None
  }

  /** Ticks that clean up cannot go on for ever: there are fewer of them than finished tasks at the start. */
  lemma {:induction false} CleanupsEnd(config: Config, s: State, ticks: seq<Tick>)
    requires Invariant(s) && s.current.None? && NoneRequested(s.tasks)
    ensures SwapsValid(s.tasks)
    ensures ticks != [] && CleanedUp(config, s, ticks).Some? ==>
      && |FinishedTasks(CleanedUp(config, s, ticks).value.tasks)| + |ticks| <= |FinishedTasks(s.tasks)|
      && |ticks| < |FinishedTasks(s.tasks)|
    decreases |ticks|
  {
    hide Invariant, BeginTick, EndTick, FinishedTasks, CleanupTaskQueue, NoneRequested;
    InvariantSwapsOf(s);
    if ticks != [] && CleanedUp(config, s, ticks).Some? {
      var tick := ticks[0];
      CleanupShrinks(config, s, tick.cleanupAt, tick.now, tick.outcome, tick.canceledAt, tick.finishedAt);
      var begun := BeginTick(s, config, tick.cleanupAt, tick.now);
      var ended := EndTick(begun, tick.outcome, tick.canceledAt, tick.finishedAt);
      CleanupsEnd(config, ended, ticks[1..]);
      NewestFinished(s, ended);
    }
  }

  /** After a cleanup, its own deletion is among the finished tasks. */
  lemma NewestFinished(s: State, ended: State)
    requires NextId(s.tasks) in FinishedTasks(ended.tasks)
    ensures |FinishedTasks(ended.tasks)| >= 1
  {
    hide FinishedTasks;
    assert {NextId(s.tasks)} <= FinishedTasks(ended.tasks);
    SubsetCardinality({NextId(s.tasks)}, FinishedTasks(ended.tasks));
  }

  lemma FinishedStored(tasks: TaskMap)
    ensures FinishedTasks(tasks) <= tasks.Keys
    ensures forall id :: id in FinishedTasks(tasks) <==> id in tasks && tasks[id].status.IsTerminal()
  {
  }

  lemma SetMinus(finished: set<TaskId>, taken: set<TaskId>, id: TaskId)
    requires taken <= finished && id !in finished
    ensures |finished - taken + {id}| == |finished| - |taken| + 1
  {
  }

  lemma AllDeletable(before: TaskMap, tasks: TaskMap, matched: set<TaskId>, id: TaskId)
    requires id !in before && id in tasks && tasks == before[id := tasks[id]] && matched <= FinishedTasks(before)
    ensures Deletable(tasks, matched, {id}) == matched
  {
    hide FinishedTasks;
    FinishedStored(before);
    forall x <- matched
      ensures x in Deletable(tasks, matched, {id})
    {
      assert x in before && tasks[x] == before[x];
    }
  }

  /** What the deletion of finished tasks does, when nothing else is stored since. */
  lemma DeletionEnds(s: State, begun: State, id: TaskId, done: ProcessOutcome, canceledAt: Date, finishedAt: Date)
    requires TasksInvariant(s.tasks) && id !in s.tasks && NoneRequested(s.tasks)
    requires id in begun.tasks && begun.tasks == s.tasks[id := begun.tasks[id]]
    requires begun.tasks[id].kind.TaskDeletion? && begun.tasks[id].kind.tasks <= FinishedTasks(s.tasks)
    requires begun.current == Some(Batch.TaskDeletion(id)) && begun.processing == {id}
    requires done.Done? && done.failed == {}
    ensures
      var ended := EndTick(begun, done, canceledAt, finishedAt);
      && FinishedTasks(ended.tasks) == FinishedTasks(s.tasks) - begun.tasks[id].kind.tasks + {id}
      && NoneRequested(ended.tasks) && ended.current.None?
  {
    hide FinishedTasks, FilesOf, TaskInvariant, IndexesAfter, WithStatus, Deletable;
    var batch := begun.current.value;
    assert batch.Ids() == [id];
    assert batch.IdSet() == {id};
    var ended := EndTick(begun, done, canceledAt, finishedAt);
    FinishedStored(s.tasks);
    FinishedStored(ended.tasks);
    var matched := begun.tasks[id].kind.tasks;
    AllDeletable(s.tasks, begun.tasks, matched, id);
    assert ended.tasks.Keys == begun.tasks.Keys - matched;
    forall x <- ended.tasks
      ensures x != id ==> ended.tasks[x] == s.tasks[x]
    {
    }
  }
}
