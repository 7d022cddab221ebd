/**
 Ticks drain the queue: when nothing is registered from outside, the ticks of the task queue do to
 the indexes exactly what `Drained` says.  With `DrainTheorem`, a scheduler that batches ends with
 the same indexes as one that takes tasks one at a time.
*/
module TickDrain {
  import opened Wrappers
  import opened Tasks
  import opened Bitmaps
  import opened Autobatcher
  import opened BatchShape
  import opened Indexing
  import opened Queue
  import opened BatchOrder
  import opened Independence
  import opened Drain
  import opened DrainTheorem
  import opened TaskQueue
  import opened Renaming
  import opened TaskRuns
  import opened TaskEnds
  import opened TaskHistory
  import opened TaskProtocols

  lemma WithoutCons(t: Queued, rest: seq<Queued>, gone: seq<TaskId>)
    ensures Without([t] + rest, gone) == (if t.id in gone then [] else [t]) + Without(rest, gone)
  {
    assert ([t] + rest)[1..] == rest;
  }

  lemma {:induction false} QueueWithout(tasks: TaskMap, after: TaskMap, ids: set<TaskId>, gone: seq<TaskId>, left: set<TaskId>)
    requires ids <= tasks.Keys && left <= after.Keys
    requires forall id :: id in left <==> id in ids && id !in gone
    requires forall id <- left :: after[id].kind == tasks[id].kind
    ensures QueueOf(after, left) == Without(QueueOf(tasks, ids), gone)
  {
    if ids == {} {
      assert left == {};
    } else {
      hide QueueOf, Without;
      var m := Smallest(ids);
      QueueCons(tasks, ids, m);
      WithoutCons(Queued(m, tasks[m].kind), QueueOf(tasks, ids - {m}), gone);
      if m in gone {
        QueueWithout(tasks, after, ids - {m}, gone, left);
      } else {
        QueueWithout(tasks, after, ids - {m}, gone, left - {m});
        QueueCons(after, left, m);
      }
    }
  }

  /** The index tasks that are waiting. */
  function Waiting(s: State): seq<Queued> {
    QueueOf(s.tasks, WithStatus(s.tasks, Enqueued))
  }

  predicate OnlyIndexTasks(s: State) {
    NonePrioritised(s.tasks, WithStatus(s.tasks, Enqueued))
  }

  /** The batch is settled, and leaves the indexes as `ProcessBatch` says. */
  predicate Processes(milli: Milli, s: State, outcome: ProcessOutcome) {
    && s.current.Some? && s.current.value.ForIndex? && Settles(outcome)
    && IndexesAfter(s, s.current.value, outcome) == ProcessBatch(milli, s.indexes, s.current.value.batch)
  }

  lemma NextIsScheduled(s: State, autobatching: bool)
    requires SwapsValid(s.tasks) && OnlyIndexTasks(s) && WithStatus(s.tasks, Enqueued) != {}
    ensures ValidQueue(Waiting(s)) && Waiting(s) != []
    ensures CreateNextBatch(s, autobatching) == Some(ForIndex(NextBatch(s.indexes, Waiting(s), autobatching).batch))
  {
    hide NextBatch, QueueOf, SwapsValid, ValidQueue;
    var enqueued := WithStatus(s.tasks, Enqueued);
    PlainQueue(s.tasks, enqueued);
    assert OfKind(s.tasks, enqueued, Kind.TaskCancelation) == {};
    assert OfKind(s.tasks, enqueued, Kind.TaskDeletion) == {};
    assert OfKind(s.tasks, enqueued, Kind.SnapshotCreation) == {};
    assert OfKind(s.tasks, enqueued, Kind.DumpCreation) == {};
  }

  /** The end of an index batch leaves the tasks still waiting as they are. */
  lemma WaitingUntouched(s: State, outcome: ProcessOutcome, canceledAt: Date, finishedAt: Date, id: TaskId)
    requires TasksInvariant(s.tasks) && s.current.Some? && s.current.value.ForIndex? && Settles(outcome)
    requires id in s.tasks && id !in s.current.value.IdSet()
    requires s.current.value.batch.IndexSwap? ==> s.current.value.batch.task <= id
    ensures
      var after := EndTick(s, outcome, canceledAt, finishedAt);
      id in after.tasks && after.tasks[id] == s.tasks[id]
  {
    hide FilesOf, IndexesAfter, TasksInvariant;
    var b := s.current.value.batch;
    if b.IndexSwap? {
      RenameAllAt(s.tasks, b.swaps, b.task, id);
    }
  }

  lemma WaitingAfter(milli: Milli, s: State, outcome: ProcessOutcome, canceledAt: Date, finishedAt: Date)
    requires Invariant(s) && Processes(milli, s, outcome)
    requires s.current.value.batch.IndexSwap? ==>
      forall id <- WithStatus(s.tasks, Enqueued) :: s.current.value.batch.task <= id
    ensures Waiting(EndTick(s, outcome, canceledAt, finishedAt)) == Without(Waiting(s), s.current.value.batch.Ids())
    ensures OnlyIndexTasks(s) ==> OnlyIndexTasks(EndTick(s, outcome, canceledAt, finishedAt))
  {
    hide EndTick, IndexesAfter, ProcessBatch, QueueOf, Without, CancelInvariant, FilesInvariant, TaskInvariant, BatchInvariant;
    var after := EndTick(s, outcome, canceledAt, finishedAt);
    var gone := s.current.value.batch.Ids();
    LeavingLeave(s, outcome, canceledAt, finishedAt);
    LeavingBatch(s, outcome, canceledAt);
    forall id <- WithStatus(after.tasks, Enqueued)
      ensures id in WithStatus(s.tasks, Enqueued) && after.tasks[id] == s.tasks[id]
    {
      WaitingUntouched(s, outcome, canceledAt, finishedAt, id);
    }
    QueueWithout(s.tasks, after.tasks, WithStatus(s.tasks, Enqueued), gone, WithStatus(after.tasks, Enqueued));
  }

  lemma LeavingBatch(s: State, outcome: ProcessOutcome, canceledAt: Date)
    requires TasksInvariant(s.tasks) && ProcessingInvariant(s) && s.current.Some? && s.current.value.ForIndex?
    ensures Leaving(s, outcome, canceledAt) == s.current.value.IdSet()
  {
    hide Processed, TasksInvariant;
    forall id
      ensures id in Leaving(s, outcome, canceledAt) <==> id in s.current.value.IdSet()
    {
      LeavingAt(s, canceledAt, id);
    }
  }

  /** One tick takes one batch from the waiting tasks, and does to the indexes what the batch does. */
  lemma TickDrains(
    milli: Milli, config: Config, s: State, cleanupAt: Date, now: Date, outcome: ProcessOutcome, canceledAt: Date,
    finishedAt: Date)
    requires Invariant(s) && s.current.None? && OnlyIndexTasks(s) && Waiting(s) != []
    requires SwapsValid(s.tasks) && CleanupTaskQueue(s, config, cleanupAt) == s
    requires Processes(milli, BeginTick(s, config, cleanupAt, now), outcome)
    ensures ValidQueue(Waiting(s))
    ensures
      var batch := NextBatch(s.indexes, Waiting(s), config.autobatchingEnabled).batch;
      var t := EndTick(BeginTick(s, config, cleanupAt, now), outcome, canceledAt, finishedAt);
      && t.indexes == ProcessBatch(milli, s.indexes, batch) && Waiting(t) == Without(Waiting(s), batch.Ids())
      && OnlyIndexTasks(t) && t.current.None?
  {
    hide Invariant, CreateNextBatch, CleanupTaskQueue, NextBatch, QueueOf, Without, ProcessBatch, IndexesAfter, Processed;
    hide ValidQueue, SwapsValid, Finish, FilesOf, NonePrioritised;
    assert WithStatus(s.tasks, Enqueued) != {};
    NextIsScheduled(s, config.autobatchingEnabled);
    var begun := BeginTick(s, config, cleanupAt, now);
    BeginKeeps(s, config, cleanupAt, now);
    OldestSwap(s, config.autobatchingEnabled);
    WaitingAfter(milli, begun, outcome, canceledAt, finishedAt);
  }

  lemma OldestSwap(s: State, autobatching: bool)
    requires SwapsValid(s.tasks) && OnlyIndexTasks(s) && WithStatus(s.tasks, Enqueued) != {}
    ensures
      var batch := CreateNextBatch(s, autobatching);
      && batch.Some? && batch.value.ForIndex?
      && (batch.value.batch.IndexSwap? ==> forall id <- WithStatus(s.tasks, Enqueued) :: batch.value.batch.task <= id)
  {
    hide CreateNextBatch, QueueOf, NextBatch, SwapsValid, ValidQueue, NonePrioritised;
    NextIsScheduled(s, autobatching);
    NextBatchFits(s, autobatching);
    var batch := CreateNextBatch(s, autobatching).value;
    if batch.batch.IndexSwap? {
      assert batch.batch.task in batch.Ids();
      SwapIsOldest(s, autobatching, batch.batch.task);
    }
  }

  datatype Tick = Tick(cleanupAt: Date, now: Date, outcome: ProcessOutcome, canceledAt: Date, finishedAt: Date)

  function AfterTick(config: Config, s: State, tick: Tick): State
    requires SwapsValid(s.tasks) && BeginTick(s, config, tick.cleanupAt, tick.now).current.Some?
  {
    EndTick(BeginTick(s, config, tick.cleanupAt, tick.now), tick.outcome, tick.canceledAt, tick.finishedAt)
  }

  /** A tick that settles an index batch and has no cleanup to do. */
  ghost predicate IsIndexTick(milli: Milli, config: Config, s: State, tick: Tick)
    requires SwapsValid(s.tasks)
  {
    && Waiting(s) != [] && CleanupTaskQueue(s, config, tick.cleanupAt) == s
    && Processes(milli, BeginTick(s, config, tick.cleanupAt, tick.now), tick.outcome)
    && Possible(BeginTick(s, config, tick.cleanupAt, tick.now), tick.outcome)
  }

  lemma AfterTickIsValid(milli: Milli, config: Config, s: State, tick: Tick)
    requires Invariant(s) && s.current.None? && SwapsValid(s.tasks) && IsIndexTick(milli, config, s, tick)
    ensures Invariant(AfterTick(config, s, tick)) && AfterTick(config, s, tick).current.None?
    ensures SwapsValid(AfterTick(config, s, tick).tasks)
  {
    hide Invariant, BeginTick, Processed, Finish, FilesOf, IndexesAfter, SwapsValid, Possible, CleanupTaskQueue, Waiting;
    BeginKeeps(s, config, tick.cleanupAt, tick.now);
    EndKeeps(BeginTick(s, config, tick.cleanupAt, tick.now), tick.outcome, tick.canceledAt, tick.finishedAt);
    InvariantSwapsOf(AfterTick(config, s, tick));
  }

  /** Ticks until no task is waiting. */
  ghost predicate DrainsBy(milli: Milli, config: Config, s: State, ticks: seq<Tick>)
    requires Invariant(s) && s.current.None? && SwapsValid(s.tasks)
    decreases |ticks|
  {
    if ticks == [] then Waiting(s) == []
    else
      && IsIndexTick(milli, config, s, ticks[0])
      && (AfterTickIsValid(milli, config, s, ticks[0]); DrainsBy(milli, config, AfterTick(config, s, ticks[0]), ticks[1..]))
  }

  ghost function AfterTicks(milli: Milli, config: Config, s: State, ticks: seq<Tick>): State
    requires Invariant(s) && s.current.None? && SwapsValid(s.tasks) && DrainsBy(milli, config, s, ticks)
    decreases |ticks|
  {
    if ticks == [] then s
    else
      AfterTickIsValid(milli, config, s, ticks[0]);
      AfterTicks(milli, config, AfterTick(config, s, ticks[0]), ticks[1..])
  }

  lemma WaitingIsValid(s: State)
    requires SwapsValid(s.tasks) && OnlyIndexTasks(s)
    ensures ValidQueue(Waiting(s))
  {
    hide ValidQueue, SwapsValid, QueueOf, NonePrioritised;
    PlainQueue(s.tasks, WithStatus(s.tasks, Enqueued));
  }

  /** The scheduler's ticks refine `Drained`. */
  lemma {:induction false} TicksDrain(milli: Milli, config: Config, s: State, ticks: seq<Tick>)
    requires Invariant(s) && s.current.None? && SwapsValid(s.tasks) && OnlyIndexTasks(s) && DrainsBy(milli, config, s, ticks)
    ensures ValidQueue(Waiting(s))
    ensures AfterTicks(milli, config, s, ticks).indexes == Drained(milli, s.indexes, Waiting(s), config.autobatchingEnabled)
    decreases |ticks|
  {
    hide Invariant, BeginTick, EndTick, SwapsValid, Waiting, OnlyIndexTasks, ProcessBatch, NextBatch, Possible;
    hide ValidQueue, Without, CleanupTaskQueue;
    WaitingIsValid(s);
    if ticks != [] {
      var tick, next := ticks[0], AfterTick(config, s, ticks[0]);
      AfterTickIsValid(milli, config, s, tick);
      TickDrains(milli, config, s, tick.cleanupAt, tick.now, tick.outcome, tick.canceledAt, tick.finishedAt);
      TicksDrain(milli, config, next, ticks[1..]);
    }
  }

  /**
   Two schedulers with the same tasks waiting, one batching and one not, end with the same indexes,
   each with the same documents and settings, when no batch loses anything and the declared keys agree.
  */
  lemma SchedulersAgree(
    milli: Milli, batching: Config, alone: Config, s: State, ticks: seq<Tick>, others: seq<Tick>, declared: map<string, string>)
    requires Invariant(s) && s.current.None? && SwapsValid(s.tasks) && OnlyIndexTasks(s)
    requires batching.autobatchingEnabled && DrainsBy(milli, batching, s, ticks)
    requires !alone.autobatchingEnabled && DrainsBy(milli, alone, s, others)
    requires ValidQueue(Waiting(s)) && KeysBelow(s.indexes, declared) && KeysStable(milli, World(s.indexes, declared), Waiting(s))
    requires BatchesLossless(milli, s.indexes, Waiting(s))
    ensures SameIndexes(AfterTicks(milli, batching, s, ticks).indexes, AfterTicks(milli, alone, s, others).indexes)
  {
    hide Invariant, DrainsBy, AfterTicks, SwapsValid, Waiting, OnlyIndexTasks, KeysStable, BatchesLossless, Drained, SameIndexes;
    hide KeysBelow, ValidQueue;
    TicksDrain(milli, batching, s, ticks);
    TicksDrain(milli, alone, s, others);
    BatchingPreservesMeaning(milli, s.indexes, declared, Waiting(s));
  }
}
