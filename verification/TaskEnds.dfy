/**
 What the end of a tick does to each stored task, and that it keeps the invariant.
*/
module TaskEnds {
  import opened Wrappers
  import opened Tasks
  import opened Bitmaps
  import opened Indexing
  import opened TaskQueue
  import opened Renaming
  import opened TaskRuns

  /** All but the names of indexes. */
  predicate SameSubject(k: KindWithContent, l: KindWithContent) {
    && l.AsKind() == k.AsKind() && l.ContentUuid() == k.ContentUuid()
    && (k.IsPrioritised() ==> l == k)
    && (k.IndexSwaps? <==> l.IndexSwaps?)
    && (k.IndexSwaps? && ValidSwaps(k.swaps) ==> ValidSwaps(l.swaps))
  }

  predicate SameFate(t: Task, u: Task) {
    && u.status == t.status && u.startedAt == t.startedAt && u.finishedAt == t.finishedAt && u.canceledBy == t.canceledBy
  }

  /** The batch in flight is a cancelation that asks for `id`. */
  predicate Cancels(s: State, id: TaskId) {
    && s.current.Some? && s.current.value.TaskCancelation?
    && s.current.value.task in s.tasks && s.tasks[s.current.value.task].kind.TaskCancelation?
    && id in s.tasks[s.current.value.task].kind.tasks
  }

  predicate IsFinished(t: Task, u: Task, startedAt: Date) {
    && (u.status.Succeeded? || u.status.Failed?)
    && u.startedAt == Some(startedAt) && u.finishedAt.Some? && u.canceledBy == t.canceledBy
  }

  /** A canceled task shows when it was being processed, if it was. */
  predicate IsCanceled(u: Task, batch: Batch)
    requires batch.TaskCancelation?
  {
    && u.status.Canceled? && u.canceledBy == Some(batch.task) && u.finishedAt.Some?
    && u.startedAt == if u.uid in batch.previousProcessingTasks then Some(batch.previousStartedAt) else None
  }

  /** The new record `u` of task `id`, when the batch in flight ends and is not tried again. */
  predicate Ends(s: State, done: bool, id: TaskId, u: Task)
    requires id in s.tasks && s.current.Some?
  {
    var t := s.tasks[id];
    && u.uid == t.uid && u.enqueuedAt == t.enqueuedAt && SameSubject(t.kind, u.kind)
    && if id in s.current.value.IdSet() then IsFinished(t, u, s.startedAt)
       else if done && t.status.Enqueued? && Cancels(s, id) then IsCanceled(u, s.current.value)
       else SameFate(t, u)
  }

  /** The tasks a deletion in flight removes. */
  function Removed(s: State, done: bool): set<TaskId>
    requires s.current.Some?
  {
    if done && s.current.value.TaskDeletion? && s.current.value.task in s.tasks
       && s.tasks[s.current.value.task].kind.TaskDeletion?
    then
      Deletable(s.tasks, s.tasks[s.current.value.task].kind.tasks, s.processing)
    else {}
  }

  lemma SameSubjectRefl(k: KindWithContent)
    ensures SameSubject(k, k)
  {
  }

  /** What `process_batch` itself stores, before the tasks of the batch are updated. */
  lemma ProcessedTask(s: State, canceledAt: Date, id: TaskId)
    requires TasksInvariant(s.tasks) && s.current.Some? && BatchInvariant(s.tasks, s.current.value)
    ensures
      var processed := Processed(s, s.current.value, canceledAt);
      && processed.Keys == s.tasks.Keys - Removed(s, true)
      && (id in processed ==>
            var t, u := s.tasks[id], processed[id];
            && u.uid == t.uid && u.enqueuedAt == t.enqueuedAt && SameSubject(t.kind, u.kind)
            && if t.status.Enqueued? && Cancels(s, id) then IsCanceled(u, s.current.value)
               else SameFate(t, u))
  {
    hide WithStatus, RenameAll, RefersToOlder, ValidSwaps, SwapNames;
    var batch := s.current.value;
    if id in s.tasks {
      assert TaskInvariant(id, s.tasks[id]);
      SameSubjectRefl(s.tasks[id].kind);
    }
    if batch.ForIndex? && batch.batch.IndexSwap? {
      assert TaskInvariant(batch.batch.task, s.tasks[batch.batch.task]);
      SwappedKeys(s.tasks, batch.batch.swaps, batch.batch.task);
      if id in s.tasks {
        SwappedTask(s.tasks, batch.batch.swaps, batch.batch.task, id);
        RenamedKeeps(s.tasks[id].kind, batch.batch.swaps);
      }
    }
  }

  /** The batch is processed, or fails as a whole; otherwise it stays enqueued and is tried again. */
  predicate Settles(outcome: ProcessOutcome) {
    outcome.Done? || outcome.Failure?
  }

  /** Every stored task after a batch has been settled. */
  lemma EndedTasks(s: State, outcome: ProcessOutcome, canceledAt: Date, finishedAt: Date)
    requires TasksInvariant(s.tasks) && ProcessingInvariant(s) && s.current.Some? && Settles(outcome)
    ensures
      var after := EndTick(s, outcome, canceledAt, finishedAt);
      && after.tasks.Keys == s.tasks.Keys - Removed(s, outcome.Done?)
      && (forall id <- after.tasks :: Ends(s, outcome.Done?, id, after.tasks[id]))
      && (forall id <- after.tasks :: id in s.current.value.IdSet() ==>
            after.tasks[id].status == if outcome.Failure? || id in outcome.failed then Failed else Succeeded)
  {
    hide Processed, Removed, Cancels, IsCanceled, SameSubject, FilesOf, IndexesAfter, BatchInvariant, TaskInvariant;
    var after := EndTick(s, outcome, canceledAt, finishedAt);
    if outcome.Done? {
      forall id | id in after.tasks
        ensures id in s.tasks && Ends(s, true, id, after.tasks[id])
      {
        ProcessedTask(s, canceledAt, id);
        if id in s.current.value.IdSet() {
          EnqueuedNotCanceled(s, id);
        }
      }
      forall id
        ensures id in after.tasks.Keys <==> id in s.tasks.Keys - Removed(s, true)
      {
        ProcessedTask(s, canceledAt, id);
      }
    } else {
      RemovedNone(s);
      forall id <- s.tasks
        ensures SameSubject(s.tasks[id].kind, s.tasks[id].kind)
      {
        SameSubjectRefl(s.tasks[id].kind);
      }
    }
  }

  lemma RemovedNone(s: State)
    requires s.current.Some?
    ensures Removed(s, false) == {}
  {
  }

  /** A cancelation does not cancel itself. */
  lemma EnqueuedNotCanceled(s: State, id: TaskId)
    requires TasksInvariant(s.tasks) && ProcessingInvariant(s) && s.current.Some? && id in s.current.value.IdSet()
    ensures id in s.tasks && s.tasks[id].status.Enqueued? && !Cancels(s, id)
  {
    assert id in WithStatus(s.tasks, Enqueued);
  }

  lemma StillValid(s: State, done: bool, id: TaskId, u: Task)
    requires TasksInvariant(s.tasks) && s.current.Some? && id in s.tasks && Ends(s, done, id, u)
    requires id in s.current.value.IdSet() ==> s.tasks[id].status.Enqueued?
    ensures TaskInvariant(id, u)
  {
    hide ValidSwaps, Cancels;
    assert TaskInvariant(id, s.tasks[id]);
  }

  /** Only finished tasks older than the deletion are removed, so ids are not given out twice. */
  lemma RemovedOlder(s: State, done: bool)
    requires TasksInvariant(s.tasks) && ProcessingInvariant(s) && s.current.Some?
    ensures Removed(s, done) <= s.tasks.Keys
    ensures forall id <- Removed(s, done) :: s.tasks[id].status.IsTerminal()
    ensures forall id <- Removed(s, done) :: id < s.current.value.task && s.current.value.task !in Removed(s, done)
    ensures NextId(s.tasks - Removed(s, done)) == NextId(s.tasks)
  {
    var removed := Removed(s, done);
    if removed != {} {
      var task := s.current.value.task;
      assert task in s.current.value.IdSet() by {
        assert task in s.current.value.Ids();
      }
      assert TaskInvariant(task, s.tasks[task]);
      forall id <- removed
        ensures s.tasks[id].status.IsTerminal() && id < task
      {
        assert TaskInvariant(id, s.tasks[id]);
      }
      assert task in WithStatus(s.tasks, Enqueued);
      SameLargest(s.tasks, removed, task);
    } else {
      assert s.tasks - removed == s.tasks;
    }
  }

  lemma SameLargest(tasks: TaskMap, removed: set<TaskId>, kept: TaskId)
    requires kept in tasks && kept !in removed && forall id <- removed :: id < kept
    ensures NextId(tasks - removed) == NextId(tasks)
  {
    var m := Largest(tasks.Keys);
    assert m in tasks - removed && m in (tasks - removed).Keys;
    var n := Largest((tasks - removed).Keys);
    assert n in tasks.Keys;
  }

  lemma SameNextId(a: TaskMap, b: TaskMap)
    requires a.Keys == b.Keys
    ensures NextId(a) == NextId(b)
  {
    if a == map[] {
      assert b.Keys == {};
      assert b == map[];
    } else {
      assert b.Keys != {};
    }
  }

  lemma NextIdKept(s: State, outcome: ProcessOutcome, canceledAt: Date, finishedAt: Date)
    requires TasksInvariant(s.tasks) && ProcessingInvariant(s) && s.current.Some?
    ensures NextId(EndTick(s, outcome, canceledAt, finishedAt).tasks) == NextId(s.tasks)
  {
    hide NextId, TasksInvariant, ProcessingInvariant, Removed, Ends;
    if Settles(outcome) {
      EndedTasks(s, outcome, canceledAt, finishedAt);
      RemovedOlder(s, outcome.Done?);
      SameNextId(EndTick(s, outcome, canceledAt, finishedAt).tasks, s.tasks - Removed(s, outcome.Done?));
    }
  }

  lemma EndKeepsTasks(s: State, outcome: ProcessOutcome, canceledAt: Date, finishedAt: Date)
    requires TasksInvariant(s.tasks) && ProcessingInvariant(s) && s.current.Some? && Settles(outcome)
    ensures TasksInvariant(EndTick(s, outcome, canceledAt, finishedAt).tasks)
  {
    hide EndTick, Ends, Removed, TaskInvariant, BatchInvariant;
    EndedTasks(s, outcome, canceledAt, finishedAt);
    var after := EndTick(s, outcome, canceledAt, finishedAt);
    forall id <- after.tasks
      ensures TaskInvariant(id, after.tasks[id])
    {
      assert id in after.tasks.Keys;
      StillValid(s, outcome.Done?, id, after.tasks[id]);
    }
  }

  lemma EndKeepsCancels(s: State, outcome: ProcessOutcome, canceledAt: Date, finishedAt: Date)
    requires TasksInvariant(s.tasks) && CancelInvariant(s.tasks) && ProcessingInvariant(s) && s.current.Some?
    requires Settles(outcome) && Possible(s, outcome)
    ensures CancelInvariant(EndTick(s, outcome, canceledAt, finishedAt).tasks)
  {
    hide EndTick, Removed, BatchInvariant, NextId;
    var after := EndTick(s, outcome, canceledAt, finishedAt);
    EndedTasks(s, outcome, canceledAt, finishedAt);
    NextIdKept(s, outcome, canceledAt, finishedAt);
    forall id <- after.tasks | after.tasks[id].canceledBy.Some?
      ensures CanceledBy(after.tasks, id, after.tasks[id].canceledBy.value)
    {
      assert id in after.tasks.Keys;
      StillCanceled(s, outcome, after, id);
    }
  }

  lemma StillCanceled(s: State, outcome: ProcessOutcome, after: State, id: TaskId)
    requires TasksInvariant(s.tasks) && CancelInvariant(s.tasks) && ProcessingInvariant(s) && s.current.Some?
    requires Settles(outcome) && Possible(s, outcome)
    requires after.tasks.Keys <= s.tasks.Keys && NextId(after.tasks) == NextId(s.tasks)
    requires forall i <- after.tasks :: i in s.tasks && Ends(s, outcome.Done?, i, after.tasks[i])
    requires forall i <- after.tasks :: i in s.current.value.IdSet() ==>
      after.tasks[i].status == if outcome.Failure? || i in outcome.failed then Failed else Succeeded
    requires id in after.tasks && after.tasks[id].canceledBy.Some?
    ensures CanceledBy(after.tasks, id, after.tasks[id].canceledBy.value)
  {
    hide NextId, BatchInvariant, ValidSwaps;
    var c := after.tasks[id].canceledBy.value;
    assert TaskInvariant(id, s.tasks[id]) && Ends(s, outcome.Done?, id, after.tasks[id]);
    if id !in s.current.value.IdSet() && outcome.Done? && s.tasks[id].status.Enqueued? && Cancels(s, id) {
      CancelerSucceeds(s, c);
      assert TaskInvariant(c, s.tasks[c]);
    } else if id !in s.current.value.IdSet() {
      assert CanceledBy(s.tasks, id, c);
    }
    if c in after.tasks {
      assert Ends(s, outcome.Done?, c, after.tasks[c]);
      if c in s.current.value.IdSet() {
        assert c in WithStatus(s.tasks, Enqueued);
      }
    }
  }

  lemma CancelerSucceeds(s: State, c: TaskId)
    requires ProcessingInvariant(s) && s.current.Some? && s.current.value.TaskCancelation? && s.current.value.task == c
    ensures c in s.current.value.IdSet() && c in s.tasks && s.tasks[c].status.Enqueued?
    ensures c < NextId(s.tasks)
  {
    assert c in s.current.value.Ids();
    assert c in WithStatus(s.tasks, Enqueued);
    NextIdIsNew(s.tasks);
  }

  /** Exactly the tasks that leave the queue lose their update file. */
  lemma FilesFollow(s: State, after: State, gone: set<TaskId>)
    requires FilesInvariant(s.tasks, s.files) && after.tasks.Keys <= s.tasks.Keys
    requires forall id <- after.tasks :: after.tasks[id].kind.ContentUuid() == s.tasks[id].kind.ContentUuid()
    requires WithStatus(after.tasks, Enqueued) == WithStatus(s.tasks, Enqueued) - gone
    requires gone <= WithStatus(s.tasks, Enqueued) && after.files == s.files - FilesOf(s.tasks, gone)
    ensures FilesInvariant(after.tasks, after.files)
  {
    forall id, file | id in after.tasks && NeedsFile(after.tasks, id, file)
      ensures file in after.files <==> after.tasks[id].status.Enqueued?
    {
      assert NeedsFile(s.tasks, id, file);
      assert after.tasks[id].status.Enqueued? <==> id in WithStatus(after.tasks, Enqueued);
      if file in FilesOf(s.tasks, gone) {
        var owner :| owner in gone && owner in s.tasks && s.tasks[owner].kind.ContentUuid() == Some(file);
        assert NeedsFile(s.tasks, owner, file);
        assert owner == id;
      }
    }
    forall i, j, file | i in after.tasks && j in after.tasks && NeedsFile(after.tasks, i, file) && NeedsFile(after.tasks, j, file)
      ensures i == j
    {
      assert NeedsFile(s.tasks, i, file) && NeedsFile(s.tasks, j, file);
    }
  }

  /** The tasks that leave the queue: those of the batch, and those that the batch cancels. */
  function Leaving(s: State, outcome: ProcessOutcome, canceledAt: Date): set<TaskId>
    requires s.current.Some?
  {
    if outcome.Done? then
      s.current.value.IdSet()
      + (WithStatus(s.tasks, Enqueued) - WithStatus(Processed(s, s.current.value, canceledAt), Enqueued))
    else s.current.value.IdSet()
  }

  lemma LeavingAt(s: State, canceledAt: Date, id: TaskId)
    requires TasksInvariant(s.tasks) && ProcessingInvariant(s) && s.current.Some?
    ensures
      var processed := Processed(s, s.current.value, canceledAt);
      id in WithStatus(s.tasks, Enqueued) - WithStatus(processed, Enqueued)
      <==> id in WithStatus(s.tasks, Enqueued) && Cancels(s, id)
  {
    hide Processed, Cancels, TaskInvariant;
    ProcessedTask(s, canceledAt, id);
    RemovedOlder(s, true);
  }

  lemma LeavingLeave(s: State, outcome: ProcessOutcome, canceledAt: Date, finishedAt: Date)
    requires TasksInvariant(s.tasks) && ProcessingInvariant(s) && s.current.Some? && Settles(outcome)
    ensures
      var after := EndTick(s, outcome, canceledAt, finishedAt);
      && WithStatus(after.tasks, Enqueued) == WithStatus(s.tasks, Enqueued) - Leaving(s, outcome, canceledAt)
      && Leaving(s, outcome, canceledAt) <= WithStatus(s.tasks, Enqueued)
      && after.files == s.files - FilesOf(s.tasks, Leaving(s, outcome, canceledAt))
  {
    var after := EndTick(s, outcome, canceledAt, finishedAt);
    assert after.files == s.files - FilesOf(s.tasks, Leaving(s, outcome, canceledAt));
    LeavingTasks(s, outcome, after, canceledAt, finishedAt);
  }

  lemma LeavingTasks(s: State, outcome: ProcessOutcome, after: State, canceledAt: Date, finishedAt: Date)
    requires TasksInvariant(s.tasks) && ProcessingInvariant(s) && s.current.Some? && Settles(outcome)
    requires after == EndTick(s, outcome, canceledAt, finishedAt)
    ensures WithStatus(after.tasks, Enqueued) == WithStatus(s.tasks, Enqueued) - Leaving(s, outcome, canceledAt)
    ensures Leaving(s, outcome, canceledAt) <= WithStatus(s.tasks, Enqueued)
  {
    hide EndTick, Removed, Processed, Cancels, SameSubject, TasksInvariant, BatchInvariant;
    EndedTasks(s, outcome, canceledAt, finishedAt);
    RemovedOlder(s, outcome.Done?);
    forall id
      ensures id in WithStatus(after.tasks, Enqueued)
         <==> id in WithStatus(s.tasks, Enqueued) - Leaving(s, outcome, canceledAt)
      ensures id in Leaving(s, outcome, canceledAt) ==> id in WithStatus(s.tasks, Enqueued)
    {
      LeavingAt(s, canceledAt, id);
      if id in after.tasks {
        assert Ends(s, outcome.Done?, id, after.tasks[id]);
      } else if id in s.tasks {
        assert id in s.tasks.Keys && id !in after.tasks.Keys;
        assert id in Removed(s, outcome.Done?);
      }
    }
  }

  lemma EndKeepsFiles(s: State, outcome: ProcessOutcome, canceledAt: Date, finishedAt: Date)
    requires TasksInvariant(s.tasks) && FilesInvariant(s.tasks, s.files) && ProcessingInvariant(s)
    requires s.current.Some? && Settles(outcome)
    ensures
      var after := EndTick(s, outcome, canceledAt, finishedAt);
      FilesInvariant(after.tasks, after.files)
  {
    hide EndTick, Removed, Leaving, TasksInvariant, ProcessingInvariant, FilesInvariant, WithStatus, FilesOf;
    EndedTasks(s, outcome, canceledAt, finishedAt);
    LeavingLeave(s, outcome, canceledAt, finishedAt);
    FilesFollow(s, EndTick(s, outcome, canceledAt, finishedAt), Leaving(s, outcome, canceledAt));
  }

  lemma EndKeepsStop(s: State, outcome: ProcessOutcome, canceledAt: Date, finishedAt: Date)
    requires TasksInvariant(s.tasks) && ProcessingInvariant(s) && StopInvariant(s) && s.current.Some? && Settles(outcome)
    ensures StopInvariant(EndTick(s, outcome, canceledAt, finishedAt))
  {
    hide Processed, FilesOf, WithStatus, IndexesAfter, Finish, TasksInvariant, ProcessingInvariant;
    var after := EndTick(s, outcome, canceledAt, finishedAt);
    if after.mustStop {
      var c :| Pending(s, c);
      PendingStays(s, outcome, canceledAt, finishedAt, c);
      assert Pending(after, c);
    }
  }

  lemma PendingStays(s: State, outcome: ProcessOutcome, canceledAt: Date, finishedAt: Date, c: TaskId)
    requires TasksInvariant(s.tasks) && ProcessingInvariant(s) && s.current.Some? && Settles(outcome) && Pending(s, c)
    ensures
      var after := EndTick(s, outcome, canceledAt, finishedAt);
      c in after.tasks && after.tasks[c].status.Enqueued? && after.tasks[c].kind.TaskCancelation?
  {
    hide EndTick, Removed, TaskInvariant, BatchInvariant;
    EndedTasks(s, outcome, canceledAt, finishedAt);
    RemovedOlder(s, outcome.Done?);
    if Cancels(s, c) {
      CancelsOlder(s, c);
    }
    assert c in EndTick(s, outcome, canceledAt, finishedAt).tasks.Keys;
  }

  lemma CancelsOlder(s: State, id: TaskId)
    requires TasksInvariant(s.tasks) && ProcessingInvariant(s) && Cancels(s, id)
    ensures s.current.value.task in s.current.value.IdSet() && id < s.current.value.task
  {
    var task := s.current.value.task;
    assert task in s.current.value.Ids();
    assert TaskInvariant(task, s.tasks[task]);
  }

  lemma EndKeeps(s: State, outcome: ProcessOutcome, canceledAt: Date, finishedAt: Date)
    requires Invariant(s) && s.current.Some? && Possible(s, outcome)
    ensures Invariant(EndTick(s, outcome, canceledAt, finishedAt))
  {
    hide TasksInvariant, CancelInvariant, FilesInvariant, BatchInvariant, Processed, FilesOf, WithStatus, Finish;
    if Settles(outcome) {
      EndKeepsTasks(s, outcome, canceledAt, finishedAt);
      EndKeepsCancels(s, outcome, canceledAt, finishedAt);
      EndKeepsFiles(s, outcome, canceledAt, finishedAt);
      EndKeepsStop(s, outcome, canceledAt, finishedAt);
    } else if s.mustStop {
      var c :| Pending(s, c);
      assert Pending(EndTick(s, outcome, canceledAt, finishedAt), c);
    }
  }
}
