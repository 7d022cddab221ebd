/**
 What the end of a tick leaves behind, task by task, file by file and index by index.
*/
module TickMeaning {
  import opened Wrappers
  import opened Tasks
  import opened Indexing
  import opened TaskQueue
  import opened Renaming
  import opened TaskRuns
  import opened TaskEnds
  import opened TaskHistory

  /** The batch in flight is a deletion that asks for `id`, and the task is neither waiting nor shown as processing. */
  predicate Deletes(s: State, id: TaskId) {
    && s.current.Some? && s.current.value.TaskDeletion?
    && s.current.value.task in s.tasks && s.tasks[s.current.value.task].kind.TaskDeletion?
    && id in s.tasks[s.current.value.task].kind.tasks
    && id in s.tasks && !s.tasks[id].status.Enqueued? && id !in s.processing
  }

  /** The batch in flight is a swap that succeeds, and the task is older. */
  predicate Renames(s: State, outcome: ProcessOutcome, id: TaskId) {
    && s.current.Some? && s.current.value.ForIndex? && s.current.value.batch.IndexSwap?
    && outcome.Done? && id < s.current.value.batch.task
  }

  predicate GetsCanceled(s: State, outcome: ProcessOutcome, id: TaskId) {
    outcome.Done? && id in s.tasks && s.tasks[id].status.Enqueued? && Cancels(s, id)
  }

  /** The record `u` that a task has afterwards. */
  predicate EndsAs(s: State, outcome: ProcessOutcome, canceledAt: Date, finishedAt: Date, id: TaskId, u: Task)
    requires s.current.Some? && id in s.tasks
  {
    var t, batch := s.tasks[id], s.current.value;
    && u.uid == t.uid && u.enqueuedAt == t.enqueuedAt
    && u.kind == (if Renames(s, outcome, id) then Renamed(t.kind, s.current.value.batch.swaps) else t.kind)
    && if id in batch.Ids() then
         && u.status == (if outcome.Done? && id !in outcome.failed then Succeeded else Failed)
         && u.startedAt == Some(s.startedAt) && u.finishedAt == Some(finishedAt) && u.canceledBy == None
       else if GetsCanceled(s, outcome, id) then
         && u.status.Canceled? && u.canceledBy == Some(batch.task) && u.finishedAt == Some(canceledAt)
         && u.startedAt == if id in batch.previousProcessingTasks then Some(batch.previousStartedAt) else None
       else
         u.status == t.status && u.startedAt == t.startedAt && u.finishedAt == t.finishedAt && u.canceledBy == t.canceledBy
  }

  lemma DeletesRemoved(s: State, id: TaskId)
    requires s.current.Some?
    ensures id in Removed(s, true) <==> Deletes(s, id)
    ensures id !in Removed(s, false)
  {
  }

  /** The record that `process_batch` leaves, before the tasks of the batch are finished. */
  lemma ProcessedAs(s: State, outcome: ProcessOutcome, canceledAt: Date, id: TaskId)
    requires TasksInvariant(s.tasks) && s.current.Some? && BatchInvariant(s.tasks, s.current.value) && outcome.Done?
    requires id in s.tasks && id in Processed(s, s.current.value, canceledAt)
    ensures
      var t, u, batch := s.tasks[id], Processed(s, s.current.value, canceledAt)[id], s.current.value;
      if GetsCanceled(s, outcome, id) then
        u == t.(status := Canceled, canceledBy := Some(batch.task), finishedAt := Some(canceledAt),
                startedAt := if id in batch.previousProcessingTasks then Some(batch.previousStartedAt) else None)
      else u == t.(kind := if Renames(s, outcome, id) then Renamed(t.kind, batch.batch.swaps) else t.kind)
  {
    hide WithStatus, RenameAll, RefersToOlder, ValidSwaps, Renamed;
    var batch := s.current.value;
    assert TaskInvariant(id, s.tasks[id]);
    if batch.ForIndex? && batch.batch.IndexSwap? {
      assert TaskInvariant(batch.batch.task, s.tasks[batch.batch.task]);
      SwappedTask(s.tasks, batch.batch.swaps, batch.batch.task, id);
    }
  }

  lemma NotCanceledYet(s: State, id: TaskId)
    requires TasksInvariant(s.tasks) && ProcessingInvariant(s) && s.current.Some? && id in s.current.value.Ids()
    ensures id in s.current.value.IdSet() && id in s.tasks && s.tasks[id].status.Enqueued?
    ensures s.tasks[id].canceledBy == None && !Cancels(s, id)
  {
    EnqueuedNotCanceled(s, id);
    assert TaskInvariant(id, s.tasks[id]);
  }

  lemma {:induction false} TaskEndsAs(s: State, outcome: ProcessOutcome, canceledAt: Date, finishedAt: Date, id: TaskId)
    requires TasksInvariant(s.tasks) && ProcessingInvariant(s) && s.current.Some? && Settles(outcome)
    requires id in EndTick(s, outcome, canceledAt, finishedAt).tasks && id in s.tasks
    ensures EndsAs(s, outcome, canceledAt, finishedAt, id, EndTick(s, outcome, canceledAt, finishedAt).tasks[id])
  {
    hide FilesOf, IndexesAfter, Processed, Renamed, TasksInvariant, BatchInvariant;
    if id in s.current.value.Ids() {
      NotCanceledYet(s, id);
    }
    if outcome.Done? {
      ProcessedAs(s, outcome, canceledAt, id);
    }
  }

  /** A waiting task that the end of the tick takes out of the queue. */
  predicate Leaves(s: State, outcome: ProcessOutcome, id: TaskId) {
    && s.current.Some? && id in s.tasks && s.tasks[id].status.Enqueued?
    && (id in s.current.value.Ids() || GetsCanceled(s, outcome, id))
  }

  predicate HasFile(s: State, id: TaskId, file: Uuid) {
    && id in s.tasks && s.tasks[id].kind.DocumentAdditionOrUpdate? && s.tasks[id].kind.contentFile == file
  }

  lemma FilesLeave(s: State, outcome: ProcessOutcome, canceledAt: Date, finishedAt: Date, file: Uuid)
    requires TasksInvariant(s.tasks) && ProcessingInvariant(s) && s.current.Some? && Settles(outcome)
    ensures file in EndTick(s, outcome, canceledAt, finishedAt).files
       <==> file in s.files && !exists id: TaskId :: Leaves(s, outcome, id) && HasFile(s, id, file)
  {
    hide EndTick, TasksInvariant, ProcessingInvariant, Processed, Cancels;
    LeavingLeave(s, outcome, canceledAt, finishedAt);
    forall id: TaskId
      ensures id in Leaving(s, outcome, canceledAt) <==> Leaves(s, outcome, id)
    {
      LeavingIs(s, outcome, canceledAt, id);
    }
    hide Leaving, Leaves;
    if file in FilesOf(s.tasks, Leaving(s, outcome, canceledAt)) {
      var id :| id in Leaving(s, outcome, canceledAt) && id in s.tasks && s.tasks[id].kind.ContentUuid() == Some(file);
      assert Leaves(s, outcome, id) && HasFile(s, id, file);
    }
    if exists id: TaskId :: Leaves(s, outcome, id) && HasFile(s, id, file) {
      var id: TaskId :| Leaves(s, outcome, id) && HasFile(s, id, file);
      assert id in Leaving(s, outcome, canceledAt) && s.tasks[id].kind.ContentUuid() == Some(file);
    }
  }

  lemma LeavingIs(s: State, outcome: ProcessOutcome, canceledAt: Date, id: TaskId)
    requires TasksInvariant(s.tasks) && ProcessingInvariant(s) && s.current.Some? && Settles(outcome)
    ensures id in Leaving(s, outcome, canceledAt) <==> Leaves(s, outcome, id)
  {
    hide TasksInvariant, Processed, Cancels, BatchInvariant;
    if outcome.Done? {
      LeavingAt(s, canceledAt, id);
    }
    if id in s.current.value.Ids() {
      NotCanceledYet(s, id);
    }
  }

  /**
   A settled batch: which tasks are deleted, what the others become, which files are deleted, and
   what is behind each name afterwards.
  */
  lemma {:induction false} SettledExactly(s: State, outcome: ProcessOutcome, canceledAt: Date, finishedAt: Date)
    requires Invariant(s) && s.current.Some? && Settles(outcome)
    ensures
      var after := EndTick(s, outcome, canceledAt, finishedAt);
      && (forall id: TaskId :: id in after.tasks <==> id in s.tasks && !(outcome.Done? && Deletes(s, id)))
      && (forall id: TaskId | id in after.tasks :: EndsAs(s, outcome, canceledAt, finishedAt, id, after.tasks[id]))
      && (forall file: Uuid :: file in after.files <==>
            file in s.files && !exists id: TaskId :: Leaves(s, outcome, id) && HasFile(s, id, file))
      && after.current == None && after.processing == {} && after.startedAt == s.startedAt && after.mustStop == s.mustStop
  {
    hide Invariant, EndTick, EndsAs, Removed, Ends, Deletes, Leaves, HasFile;
    SplitInvariant(s);
    var after := EndTick(s, outcome, canceledAt, finishedAt);
    EndedTasks(s, outcome, canceledAt, finishedAt);
    forall id: TaskId
      ensures id in after.tasks <==> id in s.tasks && !(outcome.Done? && Deletes(s, id))
    {
      DeletesRemoved(s, id);
      assert id in after.tasks.Keys <==> id in s.tasks.Keys - Removed(s, outcome.Done?);
    }
    forall id: TaskId | id in after.tasks
      ensures EndsAs(s, outcome, canceledAt, finishedAt, id, after.tasks[id])
    {
      TaskEndsAs(s, outcome, canceledAt, finishedAt, id);
    }
    forall file: Uuid
      ensures file in after.files <==>
        file in s.files && !exists id: TaskId :: Leaves(s, outcome, id) && HasFile(s, id, file)
    {
      FilesLeave(s, outcome, canceledAt, finishedAt, file);
    }
    InMemory(s, outcome, canceledAt, finishedAt);
  }

  lemma SplitInvariant(s: State)
    requires Invariant(s)
    ensures TasksInvariant(s.tasks) && ProcessingInvariant(s)
  {
  }

  lemma InMemory(s: State, outcome: ProcessOutcome, canceledAt: Date, finishedAt: Date)
    requires s.current.Some? && Settles(outcome)
    ensures
      var after := EndTick(s, outcome, canceledAt, finishedAt);
      after.current == None && after.processing == {} && after.startedAt == s.startedAt && after.mustStop == s.mustStop
  {
    hide Processed, Finish, FilesOf, IndexesAfter;
  }

  /** What stands behind a name after a tick, settled or not. */
  lemma IndexesEnd(s: State, outcome: ProcessOutcome, canceledAt: Date, finishedAt: Date, name: string)
    requires Invariant(s) && s.current.Some?
    ensures
      var after, batch := Get(EndTick(s, outcome, canceledAt, finishedAt).indexes, name), s.current.value;
      if !batch.ForIndex? then after == Get(s.indexes, name)
      else if !batch.batch.IndexSwap? then after == Get(outcome.after, name)
      else if outcome.Done? then after == Get(s.indexes, Partner(name, batch.batch.swaps))
      else after == Get(s.indexes, name)
  {
    hide Processed, Finish, FilesOf, TasksInvariant, CancelInvariant, FilesInvariant, StopInvariant, Partner, SwapAll;
    var batch := s.current.value;
    if batch.ForIndex? && batch.batch.IndexSwap? {
      SwapsOfBatch(s);
      SwapAllAt(s.indexes, batch.batch.swaps, name);
    }
  }

  lemma SwapsOfBatch(s: State)
    requires Invariant(s) && s.current.Some? && s.current.value.ForIndex? && s.current.value.batch.IndexSwap?
    ensures ValidSwaps(s.current.value.batch.swaps)
  {
    hide CancelInvariant, FilesInvariant, StopInvariant;
    assert TaskInvariant(s.current.value.batch.task, s.tasks[s.current.value.batch.task]);
  }
}
