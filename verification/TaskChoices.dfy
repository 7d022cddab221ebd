/**
 What the scheduler decides: which registrations it accepts and what it stores of them, when it
 cleans up, which batch comes next, and what a tick shows while it works.
*/
module TaskChoices {
  import opened Wrappers
  import opened Tasks
  import opened Bitmaps
  import opened Autobatcher
  import opened Indexing
  import opened Queue
  import opened TaskQueue
  import opened TaskRuns
  import opened TaskHistory
  import opened TaskProtocols
  import SchedulerLemmas

  predicate Waits(s: State, id: TaskId) {
    id in s.tasks && s.tasks[id].status.Enqueued?
  }

  // Registering

  /** A deletion that names a task is accepted even when the queue is nearly full. */
  predicate FreesSpace(kind: KindWithContent) {
    kind.TaskDeletion? && kind.tasks != {}
  }

  /** The names of a swap task, in the order in which it lists them. */
  function ListedNames(swaps: seq<IndexSwap>): seq<string> {
    if swaps == [] then [] else [swaps[0].lhs, swaps[0].rhs] + ListedNames(swaps[1..])
  }

  predicate NoneTwice(names: seq<string>) {
    forall i, j | 0 <= i < j < |names| :: names[i] != names[j]
  }

  lemma {:induction false} ListedAre(swaps: seq<IndexSwap>)
    ensures forall name :: name in ListedNames(swaps) <==> name in SwapNames(swaps)
  {
    if swaps != [] {
      ListedAre(swaps[1..]);
    }
  }

  lemma NoneTwiceCons(a: string, b: string, more: seq<string>)
    ensures NoneTwice([a, b] + more) <==> a != b && a !in more && b !in more && NoneTwice(more)
  {
    var names := [a, b] + more;
    assert forall i | 0 <= i < |more| :: names[i + 2] == more[i];
    if NoneTwice(names) {
      assert names[0] != names[1];
      forall i | 0 <= i < |more|
        ensures a != more[i] && b != more[i]
      {
        assert names[0] != names[i + 2] && names[1] != names[i + 2];
      }
      forall i, j | 0 <= i < j < |more|
        ensures more[i] != more[j]
      {
        assert names[i + 2] != names[j + 2];
      }
    }
    if a != b && a !in more && b !in more && NoneTwice(more) {
      forall i, j | 0 <= i < j < |names|
        ensures names[i] != names[j]
      {
        if i >= 2 {
          assert more[i - 2] != more[j - 2];
        } else if j >= 2 {
          assert names[j] == more[j - 2] && more[j - 2] in more;
        }
      }
    }
  }

  /** A swap task is valid when it lists no name twice. */
  lemma {:induction false} ValidListsOnce(swaps: seq<IndexSwap>)
    ensures ValidSwaps(swaps) <==> NoneTwice(ListedNames(swaps))
  {
    if swaps != [] {
      ValidListsOnce(swaps[1..]);
      ListedAre(swaps[1..]);
      NoneTwiceCons(swaps[0].lhs, swaps[0].rhs, ListedNames(swaps[1..]));
    }
  }

  /** The name stands at two places. */
  predicate Twice(names: seq<string>, name: string) {
    exists i, j | 0 <= i < j < |names| :: names[i] == name && names[j] == name
  }

  lemma TwiceSnoc(names: seq<string>, x: string, y: string, name: string)
    ensures Twice(names + [x, y], name) <==>
      Twice(names, name) || (name == x && x in names) || (name == y && (y in names || x == y))
  {
    var all := names + [x, y];
    if Twice(names, name) {
      var i, j :| 0 <= i < j < |names| && names[i] == name && names[j] == name;
      assert all[i] == name && all[j] == name;
    }
    if name in names {
      var i :| 0 <= i < |names| && names[i] == name;
      assert all[i] == name && all[|names|] == x && all[|names| + 1] == y;
    }
    if Twice(all, name) {
      var i, j :| 0 <= i < j < |all| && all[i] == name && all[j] == name;
      if j < |names| {
        assert names[i] == name && names[j] == name;
      }
    }
    assert all[|names|] == x && all[|names| + 1] == y;
  }

  lemma {:induction false} ListedSnoc(swaps: seq<IndexSwap>, swap: IndexSwap)
    ensures ListedNames(swaps + [swap]) == ListedNames(swaps) + [swap.lhs, swap.rhs]
  {
    if swaps == [] {
      assert [swap][1..] == [];
    } else {
      assert (swaps + [swap])[1..] == swaps[1..] + [swap];
      ListedSnoc(swaps[1..], swap);
    }
  }

  /** The duplicates that are reported are the names listed twice. */
  lemma {:induction false} DuplicatesExactly(swaps: seq<IndexSwap>, name: string)
    ensures name in SchedulerLemmas.DuplicateNames(swaps) <==> Twice(ListedNames(swaps), name)
  {
    if swaps != [] {
      hide Twice;
      var rest, swap := swaps[..|swaps| - 1], swaps[|swaps| - 1];
      assert swaps == rest + [swap];
      DuplicatesExactly(rest, name);
      ListedSnoc(rest, swap);
      ListedAre(rest);
      TwiceSnoc(ListedNames(rest), swap.lhs, swap.rhs, name);
    }
  }

  /** Whether a registration is accepted, and why not: ids have 32 bits. */
  lemma RegisterExactly(s: State, kind: KindWithContent, now: Date, nearlyFull: bool)
    ensures
      var full, twice := nearlyFull && !FreesSpace(kind), kind.IndexSwaps? && !NoneTwice(ListedNames(kind.swaps));
      match Register(s, kind, now, nearlyFull)
      case Ok(_) => !full && !twice && NextId(s.tasks) <= 4_294_967_295
      case Err(NoSpaceLeftInTaskQueue) => full
      case Err(SwapDuplicateIndexFound) => !full && twice
      case Err(NoIdLeft) => !full && !twice && NextId(s.tasks) > 4_294_967_295
  {
    hide NextId, ValidSwaps, NoneTwice;
    assert MAX_TASK_ID == 4_294_967_295;
    if kind.IndexSwaps? {
      ValidListsOnce(kind.swaps);
    }
  }

  /** The id a task gets is the one behind the largest stored, or zero. */
  lemma NextIdExactly(tasks: TaskMap, id: TaskId)
    ensures id == NextId(tasks) <==> (forall other <- tasks :: other < id) && (id > 0 ==> id - 1 in tasks)
  {
    NextIdIsNew(tasks);
    if tasks != map[] {
      assert Largest(tasks.Keys) in tasks;
    }
  }

  /** What is stored of a registered task: what was asked, but for references to tasks that are not older. */
  lemma RegisteredTask(s: State, kind: KindWithContent, now: Date, nearlyFull: bool)
    requires Register(s, kind, now, nearlyFull).Ok?
    ensures
      var after, id := Register(s, kind, now, nearlyFull).value, NextId(s.tasks);
      && id !in s.tasks && after.tasks.Keys == s.tasks.Keys + {id}
      && (forall other <- s.tasks :: after.tasks[other] == s.tasks[other])
      && var t := after.tasks[id];
         && t.uid == id && t.enqueuedAt == now && t.status == Enqueued
         && t.startedAt == t.finishedAt == None && t.canceledBy == None
         && (if kind.TaskCancelation? || kind.TaskDeletion? then
               && t.kind.TaskCancelation? == kind.TaskCancelation? && t.kind.TaskDeletion? == kind.TaskDeletion?
               && t.kind.query == kind.query
               && forall other :: other in t.kind.tasks <==> other in kind.tasks && other < id
             else t.kind == kind)
    ensures
      var after := Register(s, kind, now, nearlyFull).value;
      && after.files == s.files && after.indexes == s.indexes && after.processing == s.processing
      && after.startedAt == s.startedAt && after.current == s.current
      && (after.mustStop <==>
            s.mustStop || (kind.TaskCancelation? && exists other :: other in kind.tasks && other in s.processing))
  {
    hide NextId;
    NextIdIsNew(s.tasks);
    if kind.TaskCancelation? {
      Overlap(kind.tasks, s.processing);
    }
  }

  lemma Overlap(a: set<TaskId>, b: set<TaskId>)
    ensures a * b != {} <==> exists x :: x in a && x in b
  {
    if a * b != {} {
      var x :| x in a * b;
    }
    if exists x :: x in a && x in b {
      var x :| x in a && x in b;
      assert x in a * b;
    }
  }

  // Cleaning up

  /** The cleanup does something exactly when the queue is full and two finished tasks can make room. */
  lemma CleanupExactly(s: State, config: Config, now: Date)
    ensures CleanupTaskQueue(s, config, now) != s
       <==> |s.tasks| >= config.maxNumberOfTasks && |FinishedTasks(s.tasks)| >= 2 && NextId(s.tasks) <= MAX_TASK_ID
    ensures forall id :: id in FinishedTasks(s.tasks) <==>
      id in s.tasks && (s.tasks[id].status.Succeeded? || s.tasks[id].status.Failed? || s.tasks[id].status.Canceled?)
  {
    hide NextId, TakeLargest;
    NextIdIsNew(s.tasks);
    FinishedStored(s.tasks);
    var after := CleanupTaskQueue(s, config, now);
    if |s.tasks| >= config.maxNumberOfTasks && |FinishedTasks(s.tasks)| >= 2 && NextId(s.tasks) <= MAX_TASK_ID {
      assert NextId(s.tasks) in after.tasks;
    }
  }

  // Choosing a batch

  predicate WaitsCancelation(s: State, id: TaskId) {
    Waits(s, id) && s.tasks[id].kind.TaskCancelation?
  }

  predicate WaitsDeletion(s: State, id: TaskId) {
    Waits(s, id) && s.tasks[id].kind.TaskDeletion?
  }

  predicate WaitsSnapshot(s: State, id: TaskId) {
    Waits(s, id) && s.tasks[id].kind.SnapshotCreation?
  }

  predicate WaitsDump(s: State, id: TaskId) {
    Waits(s, id) && s.tasks[id].kind.DumpCreation?
  }

  /** No waiting task is of the first `n` of the four prioritised types. */
  ghost predicate NoneBefore(s: State, n: nat) {
    && (n >= 1 ==> forall id: TaskId :: !WaitsCancelation(s, id))
    && (n >= 2 ==> forall id: TaskId :: !WaitsDeletion(s, id))
    && (n >= 3 ==> forall id: TaskId :: !WaitsSnapshot(s, id))
    && (n >= 4 ==> forall id: TaskId :: !WaitsDump(s, id))
  }

  lemma WaitingKinds(s: State, id: TaskId)
    ensures
      var enqueued := WithStatus(s.tasks, Enqueued);
      && (id in enqueued <==> Waits(s, id))
      && (id in OfKind(s.tasks, enqueued, Kind.TaskCancelation) <==> WaitsCancelation(s, id))
      && (id in OfKind(s.tasks, enqueued, Kind.TaskDeletion) <==> WaitsDeletion(s, id))
      && (id in OfKind(s.tasks, enqueued, Kind.SnapshotCreation) <==> WaitsSnapshot(s, id))
      && (id in OfKind(s.tasks, enqueued, Kind.DumpCreation) <==> WaitsDump(s, id))
  {
  }

  lemma AllWaiting(s: State)
    ensures
      var enqueued := WithStatus(s.tasks, Enqueued);
      && enqueued <= s.tasks.Keys
      && (forall id :: id in enqueued <==> Waits(s, id))
      && (forall id :: id in OfKind(s.tasks, enqueued, Kind.TaskCancelation) <==> WaitsCancelation(s, id))
      && (forall id :: id in OfKind(s.tasks, enqueued, Kind.TaskDeletion) <==> WaitsDeletion(s, id))
      && (forall id :: id in OfKind(s.tasks, enqueued, Kind.SnapshotCreation) <==> WaitsSnapshot(s, id))
      && (forall id :: id in OfKind(s.tasks, enqueued, Kind.DumpCreation) <==> WaitsDump(s, id))
  {
    hide Waits, WaitsCancelation, WaitsDeletion, WaitsSnapshot, WaitsDump, OfKind;
    forall id: TaskId
      ensures
        var enqueued := WithStatus(s.tasks, Enqueued);
        && (id in enqueued <==> Waits(s, id))
        && (id in OfKind(s.tasks, enqueued, Kind.TaskCancelation) <==> WaitsCancelation(s, id))
        && (id in OfKind(s.tasks, enqueued, Kind.TaskDeletion) <==> WaitsDeletion(s, id))
        && (id in OfKind(s.tasks, enqueued, Kind.SnapshotCreation) <==> WaitsSnapshot(s, id))
        && (id in OfKind(s.tasks, enqueued, Kind.DumpCreation) <==> WaitsDump(s, id))
    {
      WaitingKinds(s, id);
    }
  }

  lemma {:induction false} ForIndexExactly(s: State, autobatching: bool)
    requires SwapsValid(s.tasks) && CreateNextBatch(s, autobatching).Some? && CreateNextBatch(s, autobatching).value.ForIndex?
    ensures
      var enqueued := WithStatus(s.tasks, Enqueued);
      && NoneBefore(s, 4) && (exists id: TaskId :: Waits(s, id))
      && ValidQueue(QueueOf(s.tasks, enqueued)) && QueueOf(s.tasks, enqueued) != []
      && CreateNextBatch(s, autobatching).value.batch
      == NextBatch(s.indexes, QueueOf(s.tasks, enqueued), autobatching).batch
  {
    hide NextBatch, ValidQueue, SwapsValid, QueueOf, OfKind, WithStatus;
    hide Waits, WaitsCancelation, WaitsDeletion, WaitsSnapshot, WaitsDump;
    var enqueued := WithStatus(s.tasks, Enqueued);
    AllWaiting(s);
    UnprioritisedQueue(s.tasks, enqueued);
    var id :| id in enqueued;
    assert Waits(s, id);
  }

  /**
   The next batch: the last cancelation, else the oldest deletion, else all snapshots, else the
   oldest dump, else a batch of an index; nothing when nothing waits.
  */
  lemma {:induction false} NextBatchExactly(s: State, autobatching: bool)
    requires SwapsValid(s.tasks)
    ensures
      match CreateNextBatch(s, autobatching)
      case None => forall id: TaskId :: !Waits(s, id)
      case Some(TaskCancelation(id, startedAt, processing)) =>
        && WaitsCancelation(s, id) && (forall other: TaskId :: WaitsCancelation(s, other) ==> other <= id)
        && startedAt == s.startedAt && processing == s.processing
      case Some(TaskDeletion(id)) =>
        NoneBefore(s, 1) && WaitsDeletion(s, id) && forall other: TaskId :: WaitsDeletion(s, other) ==> id <= other
      case Some(SnapshotCreation(ids)) =>
        NoneBefore(s, 2) && ids != [] && Increasing(ids) && forall id: TaskId :: id in ids <==> WaitsSnapshot(s, id)
      case Some(Dump(id)) =>
        NoneBefore(s, 3) && WaitsDump(s, id) && forall other: TaskId :: WaitsDump(s, other) ==> id <= other
      case Some(ForIndex(b)) =>
        && NoneBefore(s, 4) && (exists id: TaskId :: Waits(s, id))
        && var enqueued := WithStatus(s.tasks, Enqueued);
           && ValidQueue(QueueOf(s.tasks, enqueued)) && QueueOf(s.tasks, enqueued) != []
           && b == NextBatch(s.indexes, QueueOf(s.tasks, enqueued), autobatching).batch
  {
    hide NextBatch, ValidQueue, SwapsValid, QueueOf, OfKind, WithStatus;
    hide Waits, WaitsCancelation, WaitsDeletion, WaitsSnapshot, WaitsDump;
    var batch := CreateNextBatch(s, autobatching);
    if batch.Some? && batch.value.ForIndex? {
      ForIndexExactly(s, autobatching);
    } else {
      AllWaiting(s);
    }
  }

  /** While a tick works, the tasks of its batch are shown, with its date, and nobody has asked it to stop. */
  lemma BeginExactly(s: State, config: Config, cleanupAt: Date, now: Date)
    requires Invariant(s) && SwapsValid(s.tasks)
    ensures SwapsValid(CleanupTaskQueue(s, config, cleanupAt).tasks)
    ensures
      var cleaned, after := CleanupTaskQueue(s, config, cleanupAt), BeginTick(s, config, cleanupAt, now);
      && after.tasks == cleaned.tasks && after.files == s.files && after.indexes == s.indexes
      && match CreateNextBatch(cleaned, config.autobatchingEnabled)
         case None => after.processing == s.processing && after.current == s.current && after.mustStop == s.mustStop
         case Some(batch) =>
           && after.current == Some(batch) && !after.mustStop && after.startedAt == now
           && forall id :: id in after.processing <==> id in batch.Ids()
  {
    hide CreateNextBatch, Invariant, CleanupTaskQueue, SwapsValid;
    CleanupKeeps(s, config, cleanupAt);
    InvariantSwapsOf(CleanupTaskQueue(s, config, cleanupAt));
  }
}
