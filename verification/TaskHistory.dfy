/**
 Whole runs of the task queue.

 Every reachable state satisfies `Invariant`; finished tasks do not change until they are deleted;
 ids are never used twice; an aborted batch is followed by the cancelation that stopped it; tasks
 of an index are processed in order; and automatic cleanups cannot go on for ever.
*/
module TaskHistory {
  import opened Wrappers
  import opened Tasks
  import opened Bitmaps
  import opened Autobatcher
  import opened BatchShape
  import opened Indexing
  import opened Queue
  import opened BatchOrder
  import opened TaskQueue
  import opened TaskRuns
  import opened TaskEnds

  const START := State(map[], {}, map[], {}, 0, false, None)

  lemma StartIsValid()
    ensures Invariant(START)
  {
  }

  /** Whatever was going on when the program stopped, it can go on from what is stored. */
  lemma ReopenKeeps(s: State, now: Date)
    requires Invariant(s)
    ensures
      var after := Reopened(s, now);
      && Invariant(after)
      && after.tasks == s.tasks && after.files == s.files && after.indexes == s.indexes
      && (forall id <- s.tasks :: id in s.processing ==> after.tasks[id].status.Enqueued?)
      && Admissible(after, Begin(now, now))
  {
    hide TasksInvariant, CancelInvariant, FilesInvariant;
  }

  lemma StepKeeps(config: Config, s: State, e: Event)
    requires Invariant(s) && Admissible(s, e)
    ensures Invariant(Step(config, s, e))
  {
    hide TasksInvariant, CancelInvariant, ProcessingInvariant, Register, BeginTick, EndTick, Possible, SwapsValid;
    match e {
      case Upload(file) => UploadKeeps(s, file);
      case RegisterTask(kind, now, nearlyFull) => RegisterKeeps(s, kind, now, nearlyFull);
      case Begin(cleanupAt, now) => BeginKeeps(s, config, cleanupAt, now);
      case End(outcome, canceledAt, finishedAt) => EndKeeps(s, outcome, canceledAt, finishedAt);
      case Reopen(now) => ReopenKeeps(s, now);
    }
  }

  lemma UploadKeeps(s: State, file: Uuid)
    requires Invariant(s) && Admissible(s, Upload(file))
    ensures Invariant(s.(files := s.files + {file}))
  {
    hide TasksInvariant, CancelInvariant, BatchInvariant;
    if s.mustStop {
      var c :| Pending(s, c);
      assert Pending(s.(files := s.files + {file}), c);
    }
  }

  /** Each event may happen in the state that the ones before it lead to. */
  ghost predicate IsRun(config: Config, s: State, events: seq<Event>)
    requires Invariant(s)
    decreases |events|
  {
    events == []
    || (&& Admissible(s, events[0])
        && (StepKeeps(config, s, events[0]); IsRun(config, Step(config, s, events[0]), events[1..])))
  }

  /** Safety: the state after any run satisfies the invariant. */
  ghost function After(config: Config, s: State, events: seq<Event>): (t: State)
    requires Invariant(s) && IsRun(config, s, events)
    ensures Invariant(t)
    decreases |events|
  {
    if events == [] then s
    else
      StepKeeps(config, s, events[0]);
      After(config, Step(config, s, events[0]), events[1..])
  }

  // What stays

  /** A record of the same task, no further back in its life. */
  predicate Continues(t: Task, u: Task) {
    && u.uid == t.uid && u.enqueuedAt == t.enqueuedAt && SameSubject(t.kind, u.kind)
    && (t.status.IsTerminal() ==> SameFate(t, u))
  }

  /** What a later state may differ in. */
  predicate Later(s: State, t: State) {
    && NextId(s.tasks) <= NextId(t.tasks)
    && (forall id <- t.tasks :: id in s.tasks || NextId(s.tasks) <= id)
    && (forall id <- t.tasks :: id in s.tasks ==> Continues(s.tasks[id], t.tasks[id]))
  }

  lemma LaterRefl(s: State, t: State)
    requires s.tasks == t.tasks
    ensures Later(s, t)
  {
    hide NextId;
    forall id <- s.tasks
      ensures Continues(s.tasks[id], s.tasks[id])
    {
      SameSubjectRefl(s.tasks[id].kind);
    }
  }

  lemma ContinuesTrans(t: Task, u: Task, v: Task)
    requires Continues(t, u) && Continues(u, v)
    ensures Continues(t, v)
  {
  }

  lemma LaterTrans(s: State, t: State, u: State)
    requires Later(s, t) && Later(t, u)
    requires forall id <- u.tasks :: id < NextId(u.tasks)
    requires forall id <- s.tasks :: id < NextId(s.tasks)
    ensures Later(s, u)
  {
    hide NextId, Continues;
    forall id <- u.tasks
      ensures id in s.tasks || NextId(s.tasks) <= id
      ensures id in s.tasks ==> Continues(s.tasks[id], u.tasks[id])
    {
      if id in t.tasks {
        if id in s.tasks {
          ContinuesTrans(s.tasks[id], t.tasks[id], u.tasks[id]);
        }
      }
    }
  }

  lemma AddedLater(s: State, after: State, t: Task)
    requires Added(s, after, t)
    ensures Later(s, after)
  {
    NextIdAfter(s.tasks, after.tasks);
    hide NextId;
    forall id <- s.tasks
      ensures Continues(s.tasks[id], after.tasks[id])
    {
      SameSubjectRefl(s.tasks[id].kind);
    }
  }

  lemma EndLater(s: State, outcome: ProcessOutcome, canceledAt: Date, finishedAt: Date)
    requires Invariant(s) && s.current.Some?
    ensures Later(s, EndTick(s, outcome, canceledAt, finishedAt))
  {
    hide NextId, Removed, TasksInvariant, ProcessingInvariant, CancelInvariant, StopInvariant;
    var after := EndTick(s, outcome, canceledAt, finishedAt);
    if Settles(outcome) {
      NextIdKept(s, outcome, canceledAt, finishedAt);
      EndedTasks(s, outcome, canceledAt, finishedAt);
      EndLaterTasks(s, outcome, after);
    } else {
      LaterRefl(s, after);
    }
  }

  lemma EndLaterTasks(s: State, outcome: ProcessOutcome, after: State)
    requires ProcessingInvariant(s) && s.current.Some?
    requires after.tasks.Keys <= s.tasks.Keys && NextId(after.tasks) == NextId(s.tasks)
    requires forall id <- after.tasks :: id in s.tasks && Ends(s, outcome.Done?, id, after.tasks[id])
    ensures Later(s, after)
  {
    hide NextId, BatchInvariant, Cancels, SameSubject;
    forall id <- after.tasks
      ensures Continues(s.tasks[id], after.tasks[id])
    {
      assert Ends(s, outcome.Done?, id, after.tasks[id]);
      assert id in s.current.value.IdSet() ==> id in WithStatus(s.tasks, Enqueued);
    }
  }

  lemma BeginLater(s: State, config: Config, cleanupAt: Date, now: Date)
    requires Invariant(s) && SwapsValid(s.tasks)
    ensures Later(s, BeginTick(s, config, cleanupAt, now))
  {
    hide Invariant, CleanupTaskQueue, CreateNextBatch, Later, Added;
    CleanupKeeps(s, config, cleanupAt);
    var cleaned := CleanupTaskQueue(s, config, cleanupAt);
    if cleaned == s {
      LaterRefl(s, BeginTick(s, config, cleanupAt, now));
    } else {
      var t :| Added(s, cleaned, t);
      AddedLater(s, cleaned, t);
      SameTasksLater(s, cleaned, BeginTick(s, config, cleanupAt, now));
    }
  }

  lemma SameTasksLater(s: State, t: State, u: State)
    requires Later(s, t) && t.tasks == u.tasks
    ensures Later(s, u)
  {
    hide NextId, Continues;
  }

  lemma StepLater(config: Config, s: State, e: Event)
    requires Invariant(s) && Admissible(s, e)
    ensures Later(s, Step(config, s, e))
  {
    hide Later, Register, BeginTick, EndTick, Possible, Added, Invariant, SwapsValid, FreshContent;
    InvariantSwapsOf(s);
    match e {
      case Upload(file) => LaterRefl(s, Step(config, s, e));
      case RegisterTask(kind, now, nearlyFull) =>
        RegisterKeeps(s, kind, now, nearlyFull);
        if Register(s, kind, now, nearlyFull).Ok? {
          AddedLater(s, Step(config, s, e), NewTask(s.tasks, kind, now));
        } else {
          LaterRefl(s, s);
        }
      case Begin(cleanupAt, now) =>
        BeginLater(s, config, cleanupAt, now);
      case End(outcome, canceledAt, finishedAt) => EndLater(s, outcome, canceledAt, finishedAt);
      case Reopen(now) => LaterRefl(s, Step(config, s, e));
    }
  }

  lemma InvariantSwapsOf(s: State)
    requires Invariant(s)
    ensures TasksInvariant(s.tasks) && SwapsValid(s.tasks)
  {
    hide CancelInvariant, ProcessingInvariant, TaskInvariant;
    InvariantSwaps(s.tasks);
  }

  /**
   Over any run: an id that has been given out is never given to another task, a task keeps its
   type, its file and its enqueue date, and a succeeded, failed or canceled task keeps its status,
   dates and canceling task for as long as it is stored.
  */
  lemma {:induction false} RunLater(config: Config, s: State, events: seq<Event>)
    requires Invariant(s) && IsRun(config, s, events)
    ensures Later(s, After(config, s, events))
    decreases |events|
  {
    hide Later, Step, Invariant, Admissible, NextId;
    InvariantSwapsOf(s);
    if events == [] {
      LaterRefl(s, s);
    } else {
      var t := Step(config, s, events[0]);
      StepKeeps(config, s, events[0]);
      StepLater(config, s, events[0]);
      RunLater(config, t, events[1..]);
      var u := After(config, t, events[1..]);
      NextIdIsNew(s.tasks);
      NextIdIsNew(u.tasks);
      LaterTrans(s, t, u);
    }
  }

  /** Once deleted, a task does not come back, nor does its id. */
  lemma DeletedForGood(config: Config, s: State, events: seq<Event>, id: TaskId)
    requires Invariant(s) && IsRun(config, s, events)
    requires id < NextId(s.tasks) && id !in s.tasks
    ensures id !in After(config, s, events).tasks
  {
    hide After, NextId, Invariant, IsRun;
    RunLater(config, s, events);
  }

  /** No event removes a task that is waiting: it has to be processed or canceled first. */
  lemma EnqueuedStays(config: Config, s: State, e: Event, id: TaskId)
    requires Invariant(s) && Admissible(s, e) && id in s.tasks && s.tasks[id].status.Enqueued?
    ensures id in Step(config, s, e).tasks
  {
    hide Register, BeginTick, EndTick, Possible, Invariant, SwapsValid, FreshContent, Removed, Ends;
    match e {
      case Upload(file) =>
      case RegisterTask(kind, now, nearlyFull) => RegisterKeeps(s, kind, now, nearlyFull);
      case Begin(cleanupAt, now) =>
        InvariantSwapsOf(s);
        BeginTasks(s, config, cleanupAt, now);
      case End(outcome, canceledAt, finishedAt) => EnqueuedStaysAtEnd(s, outcome, canceledAt, finishedAt, id);
      case Reopen(_) =>
    }
  }

  lemma BeginTasks(s: State, config: Config, cleanupAt: Date, now: Date)
    requires Invariant(s) && SwapsValid(s.tasks)
    ensures BeginTick(s, config, cleanupAt, now).tasks == CleanupTaskQueue(s, config, cleanupAt).tasks
    ensures forall id <- s.tasks ::
      id in BeginTick(s, config, cleanupAt, now).tasks && BeginTick(s, config, cleanupAt, now).tasks[id] == s.tasks[id]
  {
    hide Invariant, CleanupTaskQueue, CreateNextBatch, NextId;
    CleanupKeeps(s, config, cleanupAt);
  }

  lemma EnqueuedStaysAtEnd(s: State, outcome: ProcessOutcome, canceledAt: Date, finishedAt: Date, id: TaskId)
    requires Invariant(s) && s.current.Some? && id in s.tasks && s.tasks[id].status.Enqueued?
    ensures id in EndTick(s, outcome, canceledAt, finishedAt).tasks
  {
    hide Removed, Ends, NextId, TaskInvariant, BatchInvariant, CancelInvariant, FilesInvariant;
    if Settles(outcome) {
      EndedTasks(s, outcome, canceledAt, finishedAt);
      RemovedOlder(s, outcome.Done?);
      assert id in EndTick(s, outcome, canceledAt, finishedAt).tasks.Keys;
    }
  }

  /** A batch that is settled leaves each of its tasks succeeded or failed; otherwise nothing is stored. */
  lemma BatchSettled(s: State, outcome: ProcessOutcome, canceledAt: Date, finishedAt: Date)
    requires Invariant(s) && s.current.Some?
    ensures
      var after := EndTick(s, outcome, canceledAt, finishedAt);
      && after.current.None?
      && (Settles(outcome) ==> forall id <- s.current.value.Ids() ::
            id in after.tasks && IsFinished(s.tasks[id], after.tasks[id], s.startedAt))
      && (!Settles(outcome) ==> after.tasks == s.tasks && after.processing == s.processing && after.startedAt == s.startedAt)
    ensures s.current.value.IdSet() <= WithStatus(s.tasks, Enqueued)
  {
    hide Removed, NextId, TaskInvariant, BatchInvariant, CancelInvariant, FilesInvariant, Processed, Finish, Cancels;
    hide FilesOf, IndexesAfter;
    BatchEnqueued(s);
    if Settles(outcome) {
      EndedTasks(s, outcome, canceledAt, finishedAt);
      forall id <- s.current.value.Ids()
        ensures id in EndTick(s, outcome, canceledAt, finishedAt).tasks
        ensures IsFinished(s.tasks[id], EndTick(s, outcome, canceledAt, finishedAt).tasks[id], s.startedAt)
      {
        assert id in s.current.value.IdSet();
        EnqueuedStaysAtEnd(s, outcome, canceledAt, finishedAt, id);
      }
    }
  }

  lemma BatchEnqueued(s: State)
    requires ProcessingInvariant(s) && s.current.Some?
    ensures s.current.value.IdSet() <= WithStatus(s.tasks, Enqueued)
    ensures forall id <- s.current.value.IdSet() :: id in s.tasks && s.tasks[id].status.Enqueued?
  {
  }
}
