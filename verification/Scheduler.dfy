/**
 The index scheduler: one primary task map and seven secondary databases kept by hand, with the
 tasks being processed held in memory.

 `Valid` says that the secondary databases are exact.  Each operation keeps it, and does to the
 abstract state `View` what the functions of `TaskQueue` say.
*/
module Scheduler {
  import opened Wrappers
  import opened Tasks
  import opened Bitmaps
  import opened Indexing
  import opened Autobatcher
  import opened BatchShape
  import opened BatchEquivalence
  import opened Queue
  import opened BatchOrder
  import opened TaskQueue
  import opened Renaming
  import opened TaskRuns
  import opened TaskEnds
  import opened InverseMaps
  import opened SchedulerLemmas
  import opened TaskQuery
  import opened QueryMeaning

  method InsertTaskDatetime(db: map<Date, set<TaskId>>, time: Date, id: TaskId) returns (after: map<Date, set<TaskId>>)
    ensures after == Inserted(db, time, id)
  {
    var ids := if time in db then db[time] else {};
    ids := ids + {id};
    after := db[time := ids];
  }

  method RemoveTaskDatetime(db: map<Date, set<TaskId>>, time: Date, id: TaskId) returns (after: map<Date, set<TaskId>>)
    ensures after == Deleted(db, time, id)
  {
    after := db;
    if time in db {
      var existing := db[time] - {id};
      if existing == {} {
        after := db - {time};
      } else {
        after := db[time := existing];
      }
    }
  }

  /** The part of `UpdateTask` on a date: a date that was set stays as it is. */
  method MoveDatetime(
    ghost tasks: TaskMap, ghost keys: Task -> set<Date>, ghost task: Task, db: map<Date, set<TaskId>>,
    before: Option<Date>, now: Option<Date>, id: TaskId)
    returns (after: map<Date, set<TaskId>>)
    requires Exact(tasks, db, keys) && NoneEmpty(db) && id == task.uid && id in tasks
    requires keys(tasks[id]) == if before.Some? then {before.value} else {}
    requires keys(task) == if now.Some? then {now.value} else {}
    requires before != now ==> before.None?
    ensures Exact(tasks[id := task], after, keys) && NoneEmpty(after)
  {
    hide Exact, NoneEmpty, Inserted;
    after := db;
    if before != now {
      if now.Some? {
        after := InsertTaskDatetime(db, now.value, id);
        ExactGained(tasks, db, keys, task, now.value);
      }
    } else {
      ExactKept(tasks, db, keys, task);
    }
  }

  /** Remove a task from the bitmap of a date it may have. */
  method DropDatetime(
    ghost tasks: TaskMap, ghost keys: Task -> set<Date>, db: map<Date, set<TaskId>>, date: Option<Date>, id: TaskId)
    returns (after: map<Date, set<TaskId>>)
    requires Exact(tasks, db, keys) && NoneEmpty(db) && id in tasks
    requires keys(tasks[id]) == if date.Some? then {date.value} else {}
    ensures Exact(tasks - {id}, after, keys) && NoneEmpty(after)
  {
    hide Exact, NoneEmpty, Deleted;
    after := db;
    if date.Some? {
      after := RemoveTaskDatetime(db, date.value, id);
      ExactLost(tasks, db, keys, id, date.value);
    } else {
      ExactDropped(tasks, db, keys, id);
    }
  }

  /** The union of the bitmaps of some keys. */
  method UnionOf<K(!new,==)>(db: map<K, set<TaskId>>, keys: seq<K>) returns (ids: set<TaskId>)
    ensures forall id :: id in ids <==> exists k <- keys :: id in Entry(db, k)
  {
    ids := {};
    for i := 0 to |keys|
      invariant forall id :: id in ids <==> exists k <- keys[..i] :: id in Entry(db, k)
    {
      assert keys[..i + 1] == keys[..i] + [keys[i]];
      ids := ids + Entry(db, keys[i]);
    }
    assert keys[..|keys|] == keys;
  }

  /** Keep the tasks whose date in `db` is between the bounds. */
  method KeepTasksWithinDatetimes(
    ghost all: TaskMap, ghost keys: Task -> set<Date>, tasks: set<TaskId>, db: map<Date, set<TaskId>>,
    after: Option<Date>, before: Option<Date>)
    returns (kept: set<TaskId>)
    requires Exact(all, db, keys) && tasks <= all.Keys
    ensures forall id :: id in kept <==>
      id in tasks && ((after.None? && before.None?) || exists d <- keys(all[id]) :: Within(after, before, d))
  {
    if after.None? && before.None? {
      return tasks;
    }
    var collected: set<TaskId> := {};
    var inRange := set d | d in db && Within(after, before, d);
    var left := inRange;
    while left != {}
      invariant left <= inRange
      invariant forall id :: id in collected <==> exists d <- inRange - left :: id in db[d]
      decreases |left|
    {
      var d :| d in left;
      collected := collected + db[d];
      assert inRange - (left - {d}) == inRange - left + {d};
      left := left - {d};
    }
    assert inRange - {} == inRange;
    kept := tasks * collected;
    forall id
      ensures id in kept <==> id in tasks && exists d <- keys(all[id]) :: Within(after, before, d)
    {
      if id in tasks {
        DateInRange(all, db, keys, after, before, id);
      }
    }
  }

  /** `check_index_swap_validity`: the names that are not new when they are met. */
  method CheckIndexSwapValidity(kind: KindWithContent) returns (duplicates: set<string>)
    ensures duplicates == {} <==> (kind.IndexSwaps? ==> ValidSwaps(kind.swaps))
    ensures kind.IndexSwaps? ==> duplicates == DuplicateNames(kind.swaps)
  {
    hide DuplicateNames, SwapNames, ValidSwaps;
    duplicates := {};
    if kind.IndexSwaps? {
      NoDuplicates(kind.swaps);
      NoNames();
      var swaps := kind.swaps;
      var allIndexes: set<string> := {};
      for i := 0 to |swaps|
        invariant allIndexes == SwapNames(swaps[..i]) && duplicates == DuplicateNames(swaps[..i])
      {
        assert swaps[..i + 1] == swaps[..i] + [swaps[i]];
        NamesSnoc(swaps[..i], swaps[i]);
        DuplicatesSnoc(swaps[..i], swaps[i]);
        var lhs, rhs := swaps[i].lhs, swaps[i].rhs;
        if lhs in allIndexes {
          duplicates := duplicates + {lhs};
        }
        allIndexes := allIndexes + {lhs};
        if rhs in allIndexes {
          duplicates := duplicates + {rhs};
        }
        allIndexes := allIndexes + {rhs};
      }
      assert swaps[..|swaps|] == swaps;
    }
  }

  datatype StoreError = CorruptedTaskQueue

  class IndexScheduler {
    const autobatchingEnabled: bool
    const maxNumberOfTasks: nat
    var allTasks: TaskMap
    var status: map<Status, set<TaskId>>
    var kind: map<Kind, set<TaskId>>
    var indexTasks: map<string, set<TaskId>>
    var canceledBy: map<TaskId, set<TaskId>>
    var enqueuedAt: map<Date, set<TaskId>>
    var startedAt: map<Date, set<TaskId>>
    var finishedAt: map<Date, set<TaskId>>
    var fileStore: set<Uuid>
    var indexMapper: Indexes
    var processing: set<TaskId>
    var processingStartedAt: Date
    var mustStopProcessing: bool
    var current: Option<Batch>

    constructor (autobatching: bool, max: nat)
      ensures Valid() && View() == State(map[], {}, map[], {}, 0, false, None)
      ensures autobatchingEnabled == autobatching && maxNumberOfTasks == max
    {
      autobatchingEnabled, maxNumberOfTasks := autobatching, max;
      allTasks, status, kind, indexTasks, canceledBy := map[], map[], map[], map[], map[];
      enqueuedAt, startedAt, finishedAt := map[], map[], map[];
      fileStore, indexMapper, processing, processingStartedAt := {}, map[], {}, 0;
      mustStopProcessing, current := false, None;
    }

    /** The status and date databases are exact; the dates drop empty entries. */
    ghost predicate UpdatesExact()
      reads this
    {
      && Exact(allTasks, status, StatusOf) && Exact(allTasks, kind, KindOf)
      && Exact(allTasks, startedAt, StartedAtOf) && NoneEmpty(startedAt)
      && Exact(allTasks, finishedAt, FinishedAtOf) && NoneEmpty(finishedAt)
    }

    ghost predicate IndexesExact()
      reads this
    {
      Exact(allTasks, indexTasks, IndexesOf) && NoneEmpty(indexTasks)
    }

    ghost predicate EnqueuedExact()
      reads this
    {
      Exact(allTasks, enqueuedAt, EnqueuedAtOf) && NoneEmpty(enqueuedAt)
    }

    predicate KeyedByUid()
      reads this
    {
      forall id <- allTasks :: allTasks[id].uid == id
    }

    /** All seven secondary databases are the inverse images of the primary one. */
    ghost predicate Valid()
      reads this
    {
      && UpdatesExact() && IndexesExact() && EnqueuedExact()
      && Exact(allTasks, canceledBy, CanceledByOf)
      && KeyedByUid()
    }

    function View(): State
      reads this
    {
      State(allTasks, fileStore, indexMapper, processing, processingStartedAt, mustStopProcessing, current)
    }

    function Options(): Config {
      Config(maxNumberOfTasks, autobatchingEnabled)
    }

    method UpdateIndex(index: string, remove: set<TaskId>, insert: set<TaskId>)
      modifies `indexTasks
      ensures Rewritten(old(indexTasks), indexTasks, {index}, remove, insert)
      ensures old(NoneEmpty(indexTasks)) ==> NoneEmpty(indexTasks)
    {
      var tasks := Entry(indexTasks, index) - remove + insert;
      if tasks == {} {
        indexTasks := indexTasks - {index};
      } else {
        indexTasks := indexTasks[index := tasks];
      }
    }

    method UpdateStatus(s: Status, remove: set<TaskId>, insert: set<TaskId>)
      modifies `status
      ensures Rewritten(old(status), status, {s}, remove, insert)
    {
      status := status[s := Entry(status, s) - remove + insert];
    }

    method UpdateKind(a: Kind, remove: set<TaskId>, insert: set<TaskId>)
      modifies `kind
      ensures Rewritten(old(kind), kind, {a}, remove, insert)
    {
      kind := kind[a := Entry(kind, a) - remove + insert];
    }

    function LastTaskId(): Option<nat>
      reads this
    {
      if allTasks == map[] then None else Some(Largest(allTasks.Keys) + 1)
    }

    /** The part of `UpdateTask` on statuses. */
    method MoveStatus(oldTask: Task, task: Task)
      requires Exact(allTasks, status, StatusOf) && task.uid in allTasks && allTasks[task.uid] == oldTask
      modifies `status
      ensures Exact(allTasks[task.uid := task], status, StatusOf)
    {
      hide Exact, Entry, Rewritten;
      if oldTask.status != task.status {
        UpdateStatus(oldTask.status, {task.uid}, {});
        ghost var mid := status;
        UpdateStatus(task.status, {}, {task.uid});
        ExactMoved(allTasks, old(status), mid, status, StatusOf, task, oldTask.status, task.status);
      } else {
        ExactKept(allTasks, status, StatusOf, task);
      }
    }

    /** The part of `UpdateTask` on kinds. */
    method MoveKind(oldTask: Task, task: Task)
      requires Exact(allTasks, kind, KindOf) && task.uid in allTasks && allTasks[task.uid] == oldTask
      modifies `kind
      ensures Exact(allTasks[task.uid := task], kind, KindOf)
    {
      hide Exact, Entry, Rewritten;
      if oldTask.kind.AsKind() != task.kind.AsKind() {
        UpdateKind(oldTask.kind.AsKind(), {task.uid}, {});
        ghost var mid := kind;
        UpdateKind(task.kind.AsKind(), {}, {task.uid});
        ExactMoved(allTasks, old(kind), mid, kind, KindOf, task, oldTask.kind.AsKind(), task.kind.AsKind());
      } else {
        ExactKept(allTasks, kind, KindOf, task);
      }
    }

    /** Store a changed record: the assertions on the dates are its preconditions. */
    method UpdateTask(task: Task) returns (r: Result<(), StoreError>)
      requires UpdatesExact() && KeyedByUid()
      requires task.uid in allTasks ==>
        var t := allTasks[task.uid];
        && t.enqueuedAt == task.enqueuedAt
        && (t.startedAt != task.startedAt ==> t.startedAt.None?)
        && (t.finishedAt != task.finishedAt ==> t.finishedAt.None?)
      modifies `allTasks, `status, `kind, `startedAt, `finishedAt
      ensures r.Ok? <==> task.uid in old(allTasks)
      ensures UpdatesExact() && KeyedByUid()
      ensures allTasks == if r.Ok? then old(allTasks)[task.uid := task] else old(allTasks)
    {
      hide Exact, Entry, NoneEmpty;
      if task.uid !in allTasks {
        return Err(CorruptedTaskQueue);
      }
      var oldTask := allTasks[task.uid];
      if oldTask == task {
        assert allTasks == allTasks[task.uid := task];
        return Ok(());
      }
      MoveStatus(oldTask, task);
      MoveKind(oldTask, task);
      startedAt := MoveDatetime(allTasks, StartedAtOf, task, startedAt, oldTask.startedAt, task.startedAt, task.uid);
      finishedAt := MoveDatetime(allTasks, FinishedAtOf, task, finishedAt, oldTask.finishedAt, task.finishedAt, task.uid);
      allTasks := allTasks[task.uid := task];
      return Ok(());
    }

    /** Add a task to the bitmaps of all the indexes it mentions. */
    method UpdateIndexes(names: set<string>, remove: set<TaskId>, insert: set<TaskId>)
      modifies `indexTasks
      ensures Rewritten(old(indexTasks), indexTasks, names, remove, insert)
      ensures old(NoneEmpty(indexTasks)) ==> NoneEmpty(indexTasks)
    {
      hide NoneEmpty, Rewritten, Entry;
      var left := names;
      RewrittenNone(indexTasks, remove, insert);
      assert names - left == {};
      while left != {}
        invariant left <= names && (old(NoneEmpty(indexTasks)) ==> NoneEmpty(indexTasks))
        invariant Rewritten(old(indexTasks), indexTasks, names - left, remove, insert)
        decreases |left|
      {
        var index :| index in left;
        ghost var mid := indexTasks;
        UpdateIndex(index, remove, insert);
        RewrittenMore(old(indexTasks), mid, indexTasks, names - left, index, remove, insert);
        assert names - left + {index} == names - (left - {index});
        left := left - {index};
      }
      assert names - {} == names;
    }

    /** Put a new task in the bitmaps of its indexes, status, kind and enqueue date. */
    method AddToDatabases(task: Task)
      requires UpdatesExact() && IndexesExact() && EnqueuedExact() && task.uid !in allTasks
      modifies `indexTasks, `status, `kind, `enqueuedAt
      ensures Exact(allTasks[task.uid := task], indexTasks, IndexesOf) && NoneEmpty(indexTasks)
      ensures Exact(allTasks[task.uid := task], status, StatusOf) && Exact(allTasks[task.uid := task], kind, KindOf)
      ensures Exact(allTasks[task.uid := task], enqueuedAt, EnqueuedAtOf) && NoneEmpty(enqueuedAt)
    {
      hide Exact, NoneEmpty, Rewritten, Inserted, KindWithContent.Indexes, KindWithContent.AsKind;
      UpdateIndexes(task.kind.Indexes(), {}, {task.uid});
      UpdateStatus(task.status, {}, {task.uid});
      UpdateKind(task.kind.AsKind(), {}, {task.uid});
      enqueuedAt := InsertTaskDatetime(enqueuedAt, task.enqueuedAt, task.uid);
      ExactAdded(allTasks, old(indexTasks), indexTasks, IndexesOf, task);
      ExactAdded(allTasks, old(status), status, StatusOf, task);
      ExactAdded(allTasks, old(kind), kind, KindOf, task);
      ExactGained(allTasks, old(enqueuedAt), EnqueuedAtOf, task, task.enqueuedAt);
    }

    /** The databases of what a new task does not have yet. */
    lemma AddedToNone(task: Task)
      requires Valid() && task.uid !in allTasks
      requires task.startedAt.None? && task.finishedAt.None? && task.canceledBy.None?
      ensures Exact(allTasks[task.uid := task], startedAt, StartedAtOf)
      ensures Exact(allTasks[task.uid := task], finishedAt, FinishedAtOf)
      ensures Exact(allTasks[task.uid := task], canceledBy, CanceledByOf)
    {
      hide Exact, NoneEmpty;
      ExactKept(allTasks, startedAt, StartedAtOf, task);
      ExactKept(allTasks, finishedAt, FinishedAtOf, task);
      ExactKept(allTasks, canceledBy, CanceledByOf, task);
    }

    /** Store a new enqueued task in the primary database and in the secondary ones. */
    method AddTask(task: Task)
      requires Valid() && task.uid !in allTasks
      requires task.startedAt.None? && task.finishedAt.None? && task.canceledBy.None?
      modifies this
      ensures Valid() && View() == old(View()).(tasks := old(allTasks)[task.uid := task])
    {
      hide Exact, NoneEmpty;
      AddedToNone(task);
      AddToDatabases(task);
      allTasks := allTasks[task.uid := task];
    }

    method Register(k: KindWithContent, now: Date, nearlyFull: bool) returns (r: Result<Task, Error>)
      requires Valid()
      modifies this
      ensures Valid()
      ensures
        match TaskQueue.Register(old(View()), k, now, nearlyFull)
        case Ok(after) => r == Ok(NewTask(old(allTasks), k, now)) && View() == after
        case Err(e) => r == Err(e) && View() == old(View())
    {
      hide Valid, NextId;
      if !(k.TaskDeletion? && k.tasks != {}) && nearlyFull {
        return Err(NoSpaceLeftInTaskQueue);
      }
      var duplicates := CheckIndexSwapValidity(k);
      if duplicates != {} {
        return Err(SwapDuplicateIndexFound);
      }
      var last := LastTaskId();
      var id := if last.None? then 0 else last.value;
      SameAsNextId();
      if id > MAX_TASK_ID {
        return Err(NoIdLeft);
      }
      var task := Task(id, now, None, None, None, Enqueued, FilterReferences(k, id));
      NextIdIsNew(allTasks);
      AddTask(task);
      if k.TaskCancelation? && k.tasks * processing != {} {
        SetMustStop();
      }
      return Ok(task);
    }

    method SetMustStop()
      requires Valid()
      modifies `mustStopProcessing
      ensures Valid() && View() == old(View()).(mustStop := true)
    {
      mustStopProcessing := true;
    }

    lemma SameAsNextId()
      ensures NextId(allTasks) == match LastTaskId() case None => 0 case Some(n) => n
    {
    }

    /** The record of a canceled task. */
    function CanceledTask(t: Task, c: TaskId, previousStartedAt: Date, previous: set<TaskId>, now: Date): Task {
      t.(
        startedAt := if t.uid in previous then Some(previousStartedAt) else t.startedAt,
        status := Canceled,
        canceledBy := Some(c),
        finishedAt := Some(now))
    }

    /** Cancel the given enqueued tasks one by one, and collect their update files. */
    method CancelTasks(
      toCancel: set<TaskId>, c: TaskId, previousStartedAt: Date, previous: set<TaskId>, now: Date)
      returns (files: set<Uuid>)
      requires UpdatesExact() && KeyedByUid() && TasksInvariant(allTasks) && toCancel <= WithStatus(allTasks, Enqueued)
      modifies `allTasks, `status, `kind, `startedAt, `finishedAt
      ensures UpdatesExact() && KeyedByUid()
      ensures allTasks == CancelMatched(old(allTasks), c, toCancel, previousStartedAt, previous, now)
      ensures files == FilesOf(old(allTasks), toCancel)
    {
      hide UpdatesExact, Sorted, WithStatus;
      files := {};
      var ids := Sorted(toCancel);
      CancelNone(allTasks, c, previousStartedAt, previous, now);
      assert forall id <- ids :: id in toCancel;
      for i := 0 to |ids|
        invariant UpdatesExact() && KeyedByUid()
        invariant allTasks == CancelMatched(old(allTasks), c, ToSet(ids[..i]), previousStartedAt, previous, now)
        invariant files == FilesOf(old(allTasks), ToSet(ids[..i]))
      {
        var id := ids[i];
        ToSetSnoc(ids, i);
        assert id in toCancel;
        CanStillCancel(old(allTasks), ids, i, c, previousStartedAt, previous, now);
        var task := allTasks[id];
        var uuid := task.kind.ContentUuid();
        if uuid.Some? {
          files := files + {uuid.value};
        }
        FilesMore(old(allTasks), ToSet(ids[..i]), id);
        var r := UpdateTask(CanceledTask(task, c, previousStartedAt, previous, now));
      }
      assert ids[..|ids|] == ids && ToSet(ids) == toCancel;
    }

    /** The databases that `CancelTasks` leaves alone stay exact, but for the tasks canceled by `c`. */
    lemma CanceledDatabases(before: TaskMap, c: TaskId, toCancel: set<TaskId>, previousStartedAt: Date, previous: set<TaskId>, now: Date)
      requires Exact(before, indexTasks, IndexesOf) && Exact(before, enqueuedAt, EnqueuedAtOf)
      requires Exact(before, canceledBy, CanceledByOf) && Entry(canceledBy, c) == {}
      requires TasksInvariant(before) && toCancel <= WithStatus(before, Enqueued)
      requires allTasks == CancelMatched(before, c, toCancel, previousStartedAt, previous, now)
      ensures Exact(allTasks, indexTasks, IndexesOf) && Exact(allTasks, enqueuedAt, EnqueuedAtOf)
      ensures Exact(allTasks, canceledBy[c := toCancel], CanceledByOf)
    {
      hide TasksInvariant, RefersToOlder, ValidSwaps;
      ExactSameKeys(before, allTasks, indexTasks, IndexesOf);
      ExactSameKeys(before, allTasks, enqueuedAt, EnqueuedAtOf);
      forall id <- before
        ensures before[id].status.Enqueued? ==> CanceledByOf(before[id]) == {}
      {
        NotYetCanceled(before, id);
      }
      ExactGroup(before, allTasks, canceledBy, CanceledByOf, c, toCancel);
    }

    /** Cancel the enqueued tasks among `matched`. */
    method CancelMatchedTasks(c: TaskId, matched: set<TaskId>, previousStartedAt: Date, previous: set<TaskId>, now: Date)
      returns (files: set<Uuid>)
      requires Valid() && TasksInvariant(allTasks) && Entry(canceledBy, c) == {}
      modifies `allTasks, `status, `kind, `startedAt, `finishedAt, `canceledBy
      ensures Valid()
      ensures allTasks == CancelMatched(old(allTasks), c, matched, previousStartedAt, previous, now)
      ensures files == FilesOf(old(allTasks), matched * WithStatus(old(allTasks), Enqueued))
    {
      hide Exact, NoneEmpty, CancelMatched, FilesOf, TasksInvariant;
      StatusEntry(allTasks, status, Enqueued);
      var toCancel := Entry(status, Enqueued) * matched;
      files := CancelTasks(toCancel, c, previousStartedAt, previous, now);
      CanceledDatabases(old(allTasks), c, toCancel, previousStartedAt, previous, now);
      canceledBy := canceledBy[c := toCancel];
      OnlyEnqueuedMatter(old(allTasks), c, matched, previousStartedAt, previous, now);
      assert toCancel == matched * WithStatus(old(allTasks), Enqueued);
    }

    /** The date databases are exact for `tasks`. */
    ghost predicate DatesExact(tasks: TaskMap)
      reads this
    {
      && Exact(tasks, enqueuedAt, EnqueuedAtOf) && NoneEmpty(enqueuedAt)
      && Exact(tasks, startedAt, StartedAtOf) && NoneEmpty(startedAt)
      && Exact(tasks, finishedAt, FinishedAtOf) && NoneEmpty(finishedAt)
    }

    /** Remove one task from the date databases. */
    method RemoveDatetimes(task: Task, ghost tasks: TaskMap)
      requires DatesExact(tasks) && task.uid in tasks && tasks[task.uid] == task
      modifies `enqueuedAt, `startedAt, `finishedAt
      ensures DatesExact(tasks - {task.uid})
    {
      hide Exact, NoneEmpty;
      enqueuedAt := DropDatetime(tasks, EnqueuedAtOf, enqueuedAt, Some(task.enqueuedAt), task.uid);
      startedAt := DropDatetime(tasks, StartedAtOf, startedAt, task.startedAt, task.uid);
      finishedAt := DropDatetime(tasks, FinishedAtOf, finishedAt, task.finishedAt, task.uid);
    }

    /** Remove tasks from the date databases, and collect what the other databases know of them. */
    method CollectAffected(toDelete: set<TaskId>) returns (affected: Affected)
      requires DatesExact(allTasks) && KeyedByUid() && toDelete <= allTasks.Keys
      modifies `enqueuedAt, `startedAt, `finishedAt
      ensures DatesExact(allTasks - toDelete) && CoversAll(affected, allTasks, toDelete)
    {
      hide DatesExact, Sorted, CoversAll;
      affected := Affected({}, {}, {}, {});
      var ids := Sorted(toDelete);
      assert ToSet(ids[..0]) == {} && allTasks - {} == allTasks;
      CoversNone(affected, allTasks);
      assert forall id <- ids :: id in toDelete;
      for i := 0 to |ids|
        invariant DatesExact(allTasks - ToSet(ids[..i])) && CoversAll(affected, allTasks, ToSet(ids[..i]))
      {
        var id := ids[i];
        ToSetSnoc(ids, i);
        assert id in toDelete && id !in ids[..i];
        var task := allTasks[id];
        MinusStep(allTasks, ToSet(ids[..i]), id);
        RemoveDatetimes(task, allTasks - ToSet(ids[..i]));
        ExtendCovers(affected, allTasks, ToSet(ids[..i]), id);
        affected := affected.Extend(task);
      }
      assert ids[..|ids|] == ids && ToSet(ids) == toDelete;
    }

    method UpdateStatuses(statuses: set<Status>, remove: set<TaskId>)
      modifies `status
      ensures Rewritten(old(status), status, statuses, remove, {})
    {
      hide Rewritten, Entry;
      var left := statuses;
      RewrittenNone(status, remove, {});
      assert statuses - left == {};
      while left != {}
        invariant left <= statuses
        invariant Rewritten(old(status), status, statuses - left, remove, {})
        decreases |left|
      {
        var s :| s in left;
        ghost var mid := status;
        UpdateStatus(s, remove, {});
        RewrittenMore(old(status), mid, status, statuses - left, s, remove, {});
        assert statuses - left + {s} == statuses - (left - {s});
        left := left - {s};
      }
      assert statuses - {} == statuses;
    }

    method UpdateKinds(kinds: set<Kind>, remove: set<TaskId>)
      modifies `kind
      ensures Rewritten(old(kind), kind, kinds, remove, {})
    {
      hide Rewritten, Entry;
      var left := kinds;
      RewrittenNone(kind, remove, {});
      assert kinds - left == {};
      while left != {}
        invariant left <= kinds
        invariant Rewritten(old(kind), kind, kinds - left, remove, {})
        decreases |left|
      {
        var k :| k in left;
        ghost var mid := kind;
        UpdateKind(k, remove, {});
        RewrittenMore(old(kind), mid, kind, kinds - left, k, remove, {});
        assert kinds - left + {k} == kinds - (left - {k});
        left := left - {k};
      }
      assert kinds - {} == kinds;
    }

    method UpdateCanceledByOne(c: TaskId, remove: set<TaskId>)
      modifies `canceledBy
      ensures Rewritten(old(canceledBy), canceledBy, {c}, remove, {})
    {
      if c in canceledBy {
        var tasks := canceledBy[c] - remove;
        if tasks == {} {
          canceledBy := canceledBy - {c};
        } else {
          canceledBy := canceledBy[c := tasks];
        }
      }
    }

    /** Take deleted tasks out of the bitmaps of the tasks that canceled them. */
    method UpdateCanceledBy(cancelers: set<TaskId>, remove: set<TaskId>)
      modifies `canceledBy
      ensures Rewritten(old(canceledBy), canceledBy, cancelers, remove, {})
    {
      hide Rewritten, Entry;
      var left := cancelers;
      RewrittenNone(canceledBy, remove, {});
      assert cancelers - left == {};
      while left != {}
        invariant left <= cancelers
        invariant Rewritten(old(canceledBy), canceledBy, cancelers - left, remove, {})
        decreases |left|
      {
        var c :| c in left;
        ghost var mid := canceledBy;
        UpdateCanceledByOne(c, remove);
        RewrittenMore(old(canceledBy), mid, canceledBy, cancelers - left, c, remove, {});
        assert cancelers - left + {c} == cancelers - (left - {c});
        left := left - {c};
      }
      assert cancelers - {} == cancelers;
    }

    /** Remove deleted tasks from the databases of the affected keys. */
    method ClearDatabases(affected: Affected, toDelete: set<TaskId>)
      requires Exact(allTasks, indexTasks, IndexesOf) && NoneEmpty(indexTasks)
      requires Exact(allTasks, status, StatusOf) && Exact(allTasks, kind, KindOf)
      requires Exact(allTasks, canceledBy, CanceledByOf)
      requires CoversAll(affected, allTasks, toDelete)
      modifies `indexTasks, `status, `kind, `canceledBy
      ensures Exact(allTasks - toDelete, indexTasks, IndexesOf) && NoneEmpty(indexTasks)
      ensures Exact(allTasks - toDelete, status, StatusOf) && Exact(allTasks - toDelete, kind, KindOf)
      ensures Exact(allTasks - toDelete, canceledBy, CanceledByOf)
    {
      hide Exact, NoneEmpty, Rewritten, CoversAll, IndexesOf, StatusOf, KindOf, CanceledByOf;
      UpdateIndexes(affected.indexes, toDelete, {});
      UpdateStatuses(affected.statuses, toDelete);
      UpdateKinds(affected.kinds, toDelete);
      UpdateCanceledBy(affected.canceledBy, toDelete);
      CoveredKeys(affected, allTasks, toDelete);
      ExactCleared(allTasks, old(indexTasks), indexTasks, IndexesOf, toDelete, affected.indexes);
      ExactCleared(allTasks, old(status), status, StatusOf, toDelete, affected.statuses);
      ExactCleared(allTasks, old(kind), kind, KindOf, toDelete, affected.kinds);
      ExactCleared(allTasks, old(canceledBy), canceledBy, CanceledByOf, toDelete, affected.canceledBy);
    }

    /** Delete the matched tasks that are neither enqueued nor processing from all the databases. */
    method DeleteMatchedTasks(matched: set<TaskId>) returns (toDelete: set<TaskId>)
      requires Valid()
      modifies `allTasks, `indexTasks, `status, `kind, `canceledBy, `enqueuedAt, `startedAt, `finishedAt
      ensures Valid()
      ensures toDelete == Deletable(old(allTasks), matched, processing)
      ensures allTasks == old(allTasks) - toDelete
    {
      hide Exact, NoneEmpty, CoversAll;
      StatusEntry(allTasks, status, Enqueued);
      toDelete := allTasks.Keys * matched - processing - Entry(status, Enqueued);
      var affected := CollectAffected(toDelete);
      ClearDatabases(affected, toDelete);
      allTasks := allTasks - toDelete;
    }

    /** Rename the given tasks one by one; the secondary databases are left for later. */
    method RenameEach(ids: set<TaskId>, swap: IndexSwap)
      requires ids <= allTasks.Keys
      modifies `allTasks
      ensures allTasks == RenameSome(old(allTasks), swap, ids)
    {
      hide Sorted, RenameKind;
      var list := Sorted(ids);
      RenameNobody(allTasks, swap);
      assert forall id <- list :: id in ids;
      for i := 0 to |list|
        invariant allTasks == RenameSome(old(allTasks), swap, ToSet(list[..i]))
      {
        var id := list[i];
        ToSetSnoc(list, i);
        assert id in ids && id !in list[..i];
        RenameOneMore(old(allTasks), swap, ToSet(list[..i]), id);
        var task := allTasks[id];
        allTasks := allTasks[id := task.(kind := RenameKind(task.kind, swap))];
      }
      assert list[..|list|] == list && ToSet(list) == ids;
    }

    /** Exchange the older tasks of two indexes, and the indexes. */
    method ApplyIndexSwap(taskId: TaskId, swap: IndexSwap)
      requires Valid() && swap.lhs != swap.rhs && swap.lhs in indexMapper && swap.rhs in indexMapper
      modifies `allTasks, `indexTasks, `indexMapper
      ensures Valid()
      ensures allTasks == RenameTasks(old(allTasks), swap, taskId) && indexMapper == SwapOne(old(indexMapper), swap)
    {
      hide Exact, NoneEmpty, Rewritten, RenameTasks, RenameSome, Entry;
      var lhs, rhs := swap.lhs, swap.rhs;
      var lhsIds := Below(Entry(indexTasks, lhs), taskId);
      var rhsIds := Below(Entry(indexTasks, rhs), taskId);
      RenamedAreMentioned(allTasks, indexTasks, swap, taskId);
      RenameEach(lhsIds + rhsIds, swap);
      UpdateIndex(lhs, lhsIds, rhsIds);
      ghost var mid := indexTasks;
      UpdateIndex(rhs, rhsIds, lhsIds);
      SwappedIndexTasks(old(allTasks), old(indexTasks), mid, indexTasks, swap, taskId);
      SwappedOthers(old(allTasks), swap, taskId);
      var l, r := indexMapper[lhs], indexMapper[rhs];
      indexMapper := indexMapper[lhs := r][rhs := l];
    }

    /** The databases that a swap leaves alone stay exact. */
    lemma SwappedOthers(before: TaskMap, swap: IndexSwap, bound: TaskId)
      requires Exact(before, status, StatusOf) && Exact(before, kind, KindOf) && Exact(before, canceledBy, CanceledByOf)
      requires DatesExact(before) && forall id <- before :: before[id].uid == id
      requires allTasks == RenameTasks(before, swap, bound)
      ensures Exact(allTasks, status, StatusOf) && Exact(allTasks, kind, KindOf) && Exact(allTasks, canceledBy, CanceledByOf)
      ensures DatesExact(allTasks) && KeyedByUid()
    {
      hide NoneEmpty, RenameSwaps;
      ExactSameKeys(before, allTasks, status, StatusOf);
      ExactSameKeys(before, allTasks, kind, KindOf);
      ExactSameKeys(before, allTasks, canceledBy, CanceledByOf);
      ExactSameKeys(before, allTasks, enqueuedAt, EnqueuedAtOf);
      ExactSameKeys(before, allTasks, startedAt, StartedAtOf);
      ExactSameKeys(before, allTasks, finishedAt, FinishedAtOf);
    }

    /** The pairs of a swap task, when all the indexes exist; otherwise nothing happens. */
    method SwapIndexes(taskId: TaskId, swaps: seq<IndexSwap>) returns (ok: bool)
      requires Valid() && ValidSwaps(swaps)
      modifies `allTasks, `indexTasks, `indexMapper
      ensures Valid() && (ok <==> SwapNames(swaps) <= old(indexMapper).Keys)
      ensures allTasks == if ok then RenameAll(old(allTasks), swaps, taskId) else old(allTasks)
      ensures indexMapper == if ok then SwapAll(old(indexMapper), swaps) else old(indexMapper)
    {
      hide Valid, RenameTasks, SwapOne;
      ok := IndexesExist(swaps);
      if !ok {
        return;
      }
      for i := 0 to |swaps|
        invariant Valid() && ValidSwaps(swaps[i..]) && SwapNames(swaps[i..]) <= indexMapper.Keys
        invariant RenameAll(allTasks, swaps[i..], taskId) == RenameAll(old(allTasks), swaps, taskId)
        invariant SwapAll(indexMapper, swaps[i..]) == SwapAll(old(indexMapper), swaps)
      {
        assert swaps[i..][1..] == swaps[i + 1..];
        SwapOneKeys(indexMapper, swaps[i]);
        ApplyIndexSwap(taskId, swaps[i]);
      }
    }

    method IndexesExist(swaps: seq<IndexSwap>) returns (ok: bool)
      ensures ok <==> SwapNames(swaps) <= indexMapper.Keys
    {
      ok := true;
      for i := 0 to |swaps|
        invariant ok <==> SwapNames(swaps[..i]) <= indexMapper.Keys
      {
        assert swaps[..i + 1] == swaps[..i] + [swaps[i]];
        NamesSnoc(swaps[..i], swaps[i]);
        if swaps[i].lhs !in indexMapper || swaps[i].rhs !in indexMapper {
          ok := false;
        }
      }
      assert swaps[..|swaps|] == swaps;
    }

    /** The tasks of a batch become succeeded or failed, and lose their update files. */
    method FinishTasks(ids: seq<TaskId>, failed: set<TaskId>, started: Date, finished: Date)
      requires Valid() && Distinct(ids)
      requires forall id <- ids :: id in allTasks && allTasks[id].startedAt.None? && allTasks[id].finishedAt.None?
      modifies `allTasks, `status, `kind, `startedAt, `finishedAt, `fileStore
      ensures Valid()
      ensures allTasks == Finish(old(allTasks), ToSet(ids), failed, started, finished)
      ensures fileStore == old(fileStore) - FilesOf(old(allTasks), ToSet(ids))
    {
      hide Exact, NoneEmpty, FilesOf, Finish;
      FinishNobody(allTasks, failed, started, finished);
      assert ToSet(ids[..0]) == {};
      for i := 0 to |ids|
        invariant UpdatesExact() && KeyedByUid()
        invariant allTasks == Finish(old(allTasks), ToSet(ids[..i]), failed, started, finished)
        invariant fileStore == old(fileStore) - FilesOf(old(allTasks), ToSet(ids[..i]))
      {
        var id := ids[i];
        ToSetSnoc(ids, i);
        FinishOneMore(old(allTasks), ToSet(ids[..i]), id, failed, started, finished);
        FilesMore(old(allTasks), ToSet(ids[..i]), id);
        var task := allTasks[id];
        var r := UpdateTask(
          task.(
            startedAt := Some(started), finishedAt := Some(finished), status := if id in failed then Failed else Succeeded));
        var uuid := task.kind.ContentUuid();
        if uuid.Some? {
          fileStore := fileStore - {uuid.value};
        }
      }
      assert ids[..|ids|] == ids;
      FinishedOthers(old(allTasks), ToSet(ids), failed, started, finished);
    }

    lemma FinishedOthers(before: TaskMap, ids: set<TaskId>, failed: set<TaskId>, started: Date, finished: Date)
      requires Exact(before, indexTasks, IndexesOf) && Exact(before, enqueuedAt, EnqueuedAtOf)
      requires Exact(before, canceledBy, CanceledByOf)
      requires allTasks == Finish(before, ids, failed, started, finished)
      ensures Exact(allTasks, indexTasks, IndexesOf) && Exact(allTasks, enqueuedAt, EnqueuedAtOf)
      ensures Exact(allTasks, canceledBy, CanceledByOf)
    {
      ExactSameKeys(before, allTasks, indexTasks, IndexesOf);
      ExactSameKeys(before, allTasks, enqueuedAt, EnqueuedAtOf);
      ExactSameKeys(before, allTasks, canceledBy, CanceledByOf);
    }

    /** All the ids, as the union of the statuses. */
    method AllTaskIds() returns (ids: set<TaskId>)
      requires Exact(allTasks, status, StatusOf)
      ensures ids == allTasks.Keys
    {
      hide Exact;
      StatusesPartition(allTasks, status);
      ids := Entry(status, Enqueued) + Entry(status, Processing) + Entry(status, Succeeded) + Entry(status, Failed)
        + Entry(status, Canceled);
    }

    method CleanupTaskQueue(now: Date)
      requires Valid()
      modifies this
      ensures Valid() && View() == TaskQueue.CleanupTaskQueue(old(View()), Options(), now)
    {
      hide Exact, NoneEmpty, TakeLargest, TaskQueue.Register;
      var ids := AllTaskIds();
      SizeOfKeys(allTasks);
      if |ids| < maxNumberOfTasks {
        return;
      }
      StatusEntry(allTasks, status, Succeeded);
      StatusEntry(allTasks, status, Failed);
      StatusEntry(allTasks, status, Canceled);
      var finished := Entry(status, Succeeded) + Entry(status, Failed) + Entry(status, Canceled);
      var toDelete := TakeLargest(finished, CLEANUP_SIZE);
      if |toDelete| < 2 {
        return;
      }
      var r := Register(KindWithContent.TaskDeletion("", toDelete), now, false);
    }

    /** The enqueued tasks of an index, smallest id first. */
    method EnqueuedOf(name: string) returns (queue: seq<Queued>)
      requires Valid()
      ensures WithStatus(allTasks, Enqueued) <= allTasks.Keys
      ensures queue == OnIndex(QueueOf(allTasks, WithStatus(allTasks, Enqueued)), name)
    {
      hide Exact, NoneEmpty, QueueOf, OnIndex, Sorted;
      StatusEntry(allTasks, status, Enqueued);
      var ids := Entry(indexTasks, name) * Entry(status, Enqueued);
      forall id
        ensures id in ids <==> id in Entry(status, Enqueued) && name in allTasks[id].kind.Indexes()
      {
        ExactAt(allTasks, indexTasks, IndexesOf, name, id);
      }
      queue := QueueOf(allTasks, ids);
      QueueOnIndex(allTasks, Entry(status, Enqueued), name, ids);
    }

    /** A batch of the tasks of the index that the oldest enqueued task mentions. */
    method NextIndexBatch() returns (batch: IndexBatch)
      requires Valid() && SwapsValid(allTasks)
      requires WithStatus(allTasks, Enqueued) != {} && NonePrioritised(allTasks, WithStatus(allTasks, Enqueued))
      ensures ValidQueue(QueueOf(allTasks, WithStatus(allTasks, Enqueued)))
      ensures
        batch == NextBatch(indexMapper, QueueOf(allTasks, WithStatus(allTasks, Enqueued)), autobatchingEnabled).batch
    {
      hide Exact, NoneEmpty, QueueOf, OnIndex, NextBatch, SwapsValid, ValidQueue, KindsOf, BatchOf, CreateNextBatchIndex;
      hide NonePrioritised, KindWithContent.Indexes, IndexName, Schedule;
      StatusEntry(allTasks, status, Enqueued);
      var enqueued := Entry(status, Enqueued);
      ghost var all := QueueOf(allTasks, enqueued);
      PlainQueue(allTasks, enqueued);
      var taskId := Smallest(enqueued);
      var task := allTasks[taskId];
      QueueCons(allTasks, enqueued, taskId);
      if task.kind.Indexes() == {} {
        EmptySwap(indexMapper, all, autobatchingEnabled);
        return IndexBatch.IndexSwap([], taskId);
      }
      var name := IndexName(task.kind);
      var alreadyExists := name in indexMapper;
      var primaryKey := if alreadyExists then indexMapper[name].primaryKey else None;
      var queue := EnqueuedOf(name);
      NextBatchIsScheduled(indexMapper, all, autobatchingEnabled);
      CandidatesAre(all, autobatchingEnabled);
      if !autobatchingEnabled {
        queue := queue[..1];
      }
      ScheduledBatch(indexMapper, name, queue);
      var made := Autobatch(queue, alreadyExists, primaryKey);
      return CreateNextBatchIndex(KindsOf(queue), name, made.value.0, made.value.1);
    }

    method CreateNextBatch() returns (batch: Option<Batch>)
      requires Valid() && SwapsValid(allTasks)
      ensures batch == TaskQueue.CreateNextBatch(View(), autobatchingEnabled)
    {
      hide Exact, NoneEmpty, QueueOf, NextBatch, SwapsValid, ValidQueue;
      StatusEntry(allTasks, status, Enqueued);
      var enqueued := Entry(status, Enqueued);
      KindEntry(allTasks, kind, Kind.TaskCancelation, enqueued);
      var toCancel := Entry(kind, Kind.TaskCancelation) * enqueued;
      if toCancel != {} {
        return Some(Batch.TaskCancelation(Largest(toCancel), processingStartedAt, processing));
      }
      KindEntry(allTasks, kind, Kind.TaskDeletion, enqueued);
      var toDelete := Entry(kind, Kind.TaskDeletion) * enqueued;
      if toDelete != {} {
        return Some(Batch.TaskDeletion(Smallest(toDelete)));
      }
      KindEntry(allTasks, kind, Kind.SnapshotCreation, enqueued);
      var toSnapshot := Entry(kind, Kind.SnapshotCreation) * enqueued;
      if toSnapshot != {} {
        return Some(Batch.SnapshotCreation(Sorted(toSnapshot)));
      }
      KindEntry(allTasks, kind, Kind.DumpCreation, enqueued);
      var toDump := Entry(kind, Kind.DumpCreation) * enqueued;
      if toDump != {} {
        return Some(Batch.Dump(Smallest(toDump)));
      }
      if enqueued == {} {
        return None;
      }
      UnprioritisedQueue(allTasks, enqueued);
      var b := NextIndexBatch();
      return Some(ForIndex(b));
    }

    /** The first half of a tick. */
    method BeginTick(cleanupAt: Date, now: Date)
      requires Valid() && SwapsValid(allTasks)
      modifies this
      ensures Valid() && View() == TaskQueue.BeginTick(old(View()), Options(), cleanupAt, now)
    {
      hide Valid, SwapsValid, TaskQueue.CleanupTaskQueue, TaskQueue.CreateNextBatch;
      CleanupTaskQueue(cleanupAt);
      CleanupSwaps(old(View()), Options(), cleanupAt);
      var batch := CreateNextBatch();
      if batch.Some? {
        NextBatchFits(View(), autobatchingEnabled);
        StartProcessing(batch.value, now);
      }
    }

    /** The sorted ids of a batch make a bitmap, since none occurs twice. */
    method StartProcessing(batch: Batch, now: Date)
      requires Valid() && Distinct(batch.Ids())
      modifies `processing, `processingStartedAt, `mustStopProcessing, `current
      ensures Valid()
      ensures View() == old(View()).(
        processing := batch.IdSet(), startedAt := now, mustStop := false, current := Some(batch))
    {
      var ids := batch.Ids();
      mustStopProcessing := false;
      processingStartedAt := now;
      processing := set id | id in ids;
      current := Some(batch);
    }

    /** No task was canceled yet by a cancelation that is still enqueued. */
    lemma NobodyCanceledYet(c: TaskId)
      requires Exact(allTasks, canceledBy, CanceledByOf) && CancelInvariant(allTasks)
      requires c in allTasks && allTasks[c].status.Enqueued?
      ensures Entry(canceledBy, c) == {}
    {
      hide NextId;
      forall id
        ensures id !in Entry(canceledBy, c)
      {
        ExactAt(allTasks, canceledBy, CanceledByOf, c, id);
        if id in allTasks && allTasks[id].canceledBy == Some(c) {
          assert CanceledBy(allTasks, id, c);
        }
      }
    }

    /** The part of `process_batch` for a cancelation. */
    method ProcessCancelation(batch: Batch, canceledAt: Date)
      requires Valid() && Invariant(View()) && current == Some(batch) && batch.TaskCancelation?
      modifies `allTasks, `status, `kind, `startedAt, `finishedAt, `canceledBy, `fileStore
      ensures Valid() && allTasks == Processed(old(View()), batch, canceledAt)
      ensures fileStore == old(fileStore) - FilesOf(old(allTasks), LeavesQueue(old(View()), canceledAt))
    {
      hide Exact, NoneEmpty, CancelMatched, FilesOf, TasksInvariant, CancelInvariant, FilesInvariant, StopInvariant;
      BatchFacts(View());
      NobodyCanceledYet(batch.task);
      CanceledLeave(View(), canceledAt);
      var matched := allTasks[batch.task].kind.tasks;
      var files :=
        CancelMatchedTasks(batch.task, matched, batch.previousStartedAt, batch.previousProcessingTasks, canceledAt);
      fileStore := fileStore - files;
    }

    /** `process_batch`, with what milli does to the indexes given by `after`. */
    method ProcessBatch(batch: Batch, after: Indexes, canceledAt: Date)
      requires Valid() && Invariant(View()) && current == Some(batch) && Possible(View(), Done({}, after))
      modifies `allTasks, `status, `kind, `indexTasks, `canceledBy, `enqueuedAt, `startedAt, `finishedAt, `fileStore, `indexMapper
      ensures Valid() && allTasks == Processed(old(View()), batch, canceledAt)
      ensures fileStore == old(fileStore) - FilesOf(old(allTasks), LeavesQueue(old(View()), canceledAt))
      ensures indexMapper == IndexesAfter(old(View()), batch, Done({}, after))
    {
      hide Valid, FilesOf, Invariant, SwapAll, RenameAll, Deletable, LeavesQueue;
      BatchFacts(View());
      if !batch.TaskCancelation? {
        NoneLeave(View(), canceledAt);
      }
      match batch {
        case TaskCancelation(_, _, _) => ProcessCancelation(batch, canceledAt);
        case TaskDeletion(task) => var deleted := DeleteMatchedTasks(allTasks[task].kind.tasks);
        case SnapshotCreation(_) =>
        case Dump(_) =>
        case ForIndex(b) =>
          if b.IndexSwap? {
            var ok := SwapIndexes(b.task, b.swaps);
          } else {
            ReplaceIndexes(after);
          }
      }
    }

    method ReplaceIndexes(after: Indexes)
      requires Valid()
      modifies `indexMapper
      ensures Valid() && indexMapper == after
    {
      indexMapper := after;
    }

    /** The second half of a tick: `outcome` says how processing the batch went. */
    method EndTick(outcome: ProcessOutcome, canceledAt: Date, finished: Date)
      requires Valid() && Invariant(View()) && current.Some? && Possible(View(), outcome)
      modifies this
      ensures Valid() && View() == TaskQueue.EndTick(old(View()), outcome, canceledAt, finished)
    {
      hide Valid, FilesOf, Invariant, Processed, Finish, WithStatus, IndexesAfter;
      var batch := current.value;
      BatchFacts(View());
      match outcome {
        case Done(failed, after) =>
          AnyFailures(View(), failed, after);
          ProcessBatch(batch, after, canceledAt);
          StillToFinish(old(View()), canceledAt);
          FinishTasks(batch.Ids(), failed, processingStartedAt, finished);
          FilesOfBoth(old(View()), canceledAt);
          Rest();
        case Failure(after) =>
          ReplaceIndexes(IndexesAfter(View(), batch, outcome));
          FinishTasks(batch.Ids(), ToSet(batch.Ids()), processingStartedAt, finished);
          Rest();
        case Aborted(after) =>
          ReplaceIndexes(IndexesAfter(View(), batch, outcome));
          Interrupt();
        case MaxDatabaseSizeReached(after) =>
          ReplaceIndexes(IndexesAfter(View(), batch, outcome));
          Interrupt();
      }
    }

    /** Nothing is being processed any more. */
    method Rest()
      requires Valid()
      modifies `processing, `current
      ensures Valid() && processing == {} && current == None
    {
      processing := {};
      current := None;
    }

    /** The batch is given up, but its tasks still show as processing. */
    method Interrupt()
      requires Valid()
      modifies `current
      ensures Valid() && current == None
    {
      current := None;
    }

    /** Keep the tasks with one of the statuses; processing tasks are known in memory only. */
    method KeepStatuses(tasks: set<TaskId>, statuses: Option<seq<Status>>) returns (kept: set<TaskId>)
      requires Valid() && tasks <= allTasks.Keys && forall id <- allTasks :: !allTasks[id].status.Processing?
      ensures kept == set id | id in tasks && StatusMatches(statuses, Shown(View(), id))
    {
      hide Exact, NoneEmpty;
      kept := tasks;
      if statuses.Some? {
        var statusTasks: set<TaskId> := {};
        var list := statuses.value;
        for i := 0 to |list|
          invariant forall id :: id in statusTasks <==>
            exists s <- list[..i] :: id in if s.Processing? then processing else Entry(status, s)
        {
          assert list[..i + 1] == list[..i] + [list[i]];
          statusTasks := statusTasks + if list[i].Processing? then processing else Entry(status, list[i]);
        }
        assert list[..|list|] == list;
        if Processing !in list {
          kept := kept - processing;
        }
        kept := kept * statusTasks;
        forall id <- tasks
          ensures id in kept <==> Shown(View(), id).status in list
        {
          StatusBitmaps(allTasks, status, processing, list, id);
        }
      }
    }

    method KeepCanceledBy(tasks: set<TaskId>, cancelers: Option<seq<TaskId>>) returns (kept: set<TaskId>)
      requires Valid() && tasks <= allTasks.Keys
      ensures kept == set id | id in tasks && CanceledByMatches(cancelers, Shown(View(), id))
    {
      hide Exact, NoneEmpty;
      kept := tasks;
      if cancelers.Some? {
        var allCanceled := UnionOf(canceledBy, cancelers.value);
        kept := kept * allCanceled;
        forall id <- tasks
          ensures id in kept <==> CanceledByMatches(cancelers, Shown(View(), id))
        {
          CanceledByBitmaps(allTasks, canceledBy, cancelers.value, id);
        }
      }
    }

    method KeepTypes(tasks: set<TaskId>, types: Option<seq<Kind>>) returns (kept: set<TaskId>)
      requires Valid() && tasks <= allTasks.Keys
      ensures kept == set id | id in tasks && TypeMatches(types, Shown(View(), id))
    {
      hide Exact, NoneEmpty, KindWithContent.AsKind;
      kept := tasks;
      if types.Some? {
        var kindTasks := UnionOf(kind, types.value);
        kept := kept * kindTasks;
        forall id <- tasks
          ensures id in kept <==> TypeMatches(types, Shown(View(), id))
        {
          KindBitmaps(allTasks, kind, types.value, id);
        }
      }
    }

    method KeepIndexes(tasks: set<TaskId>, names: Option<seq<string>>) returns (kept: set<TaskId>)
      requires Valid() && tasks <= allTasks.Keys
      ensures kept == set id | id in tasks && IndexMatches(names, Shown(View(), id))
    {
      hide Exact, NoneEmpty, KindWithContent.Indexes;
      kept := tasks;
      if names.Some? {
        var found := UnionOf(indexTasks, names.value);
        kept := kept * found;
        forall id <- tasks
          ensures id in kept <==> IndexMatches(names, Shown(View(), id))
        {
          IndexBitmaps(allTasks, indexTasks, names.value, id);
        }
      }
    }

    /** The tasks being processed are all kept or all dropped, by the date held in memory. */
    method KeepStarted(tasks: set<TaskId>, after: Option<Date>, before: Option<Date>) returns (kept: set<TaskId>)
      requires Valid() && tasks <= allTasks.Keys
      ensures kept == set id | id in tasks && DateMatches(after, before, Shown(View(), id).startedAt)
    {
      hide Exact, NoneEmpty;
      var filteredProcessing := tasks * processing;
      if (after.Some? || before.Some?) && !Within(after, before, processingStartedAt) {
        filteredProcessing := {};
      }
      var filteredOthers :=
        KeepTasksWithinDatetimes(allTasks, StartedAtOf, tasks - processing, startedAt, after, before);
      kept := filteredOthers + filteredProcessing;
    }

    method KeepFrom(tasks: set<TaskId>, q: Query) returns (kept: set<TaskId>)
      requires forall id <- tasks :: id <= MAX_TASK_ID
      ensures kept == set id | id in tasks && (q.from.Some? ==> id <= q.from.value) && id !in Lost(q)
    {
      kept := tasks;
      if q.from.Some? {
        kept := set id | id in tasks && id < FromBound(q.from.value);
        forall id <- tasks
          ensures id < FromBound(q.from.value) <==> id <= q.from.value && id !in Lost(q)
        {
          FromBoundKeeps(q, id);
        }
      }
    }

    method KeepUids(tasks: set<TaskId>, uids: Option<seq<TaskId>>) returns (kept: set<TaskId>)
      ensures kept == set id | id in tasks && UidMatches(uids, id)
    {
      kept := tasks;
      if uids.Some? {
        kept := kept * ToSet(uids.value);
      }
    }

    method KeepEnqueuedAndFinished(tasks: set<TaskId>, q: Query) returns (kept: set<TaskId>)
      requires Valid() && tasks <= allTasks.Keys
      ensures kept == set id | id in tasks
        && DateMatches(q.afterEnqueuedAt, q.beforeEnqueuedAt, Some(Shown(View(), id).enqueuedAt))
        && DateMatches(q.afterFinishedAt, q.beforeFinishedAt, Shown(View(), id).finishedAt)
    {
      hide Exact, NoneEmpty;
      var inTime :=
        KeepTasksWithinDatetimes(allTasks, EnqueuedAtOf, tasks, enqueuedAt, q.afterEnqueuedAt, q.beforeEnqueuedAt);
      assert inTime <= tasks;
      kept :=
        KeepTasksWithinDatetimes(allTasks, FinishedAtOf, inTime, finishedAt, q.afterFinishedAt, q.beforeFinishedAt);
    }

    /**
     The ids of the tasks that match a query: what a scan of the shown tasks gives, cut to the
     largest ids.
    */
    method GetTaskIds(q: Query) returns (ids: set<TaskId>)
      requires Valid() && TasksInvariant(allTasks)
      ensures ids == Cut(q.limit, Scan(View(), q) - Lost(q))
      ensures Answers(View(), q, ids)
    {
      hide StatusMatches, CanceledByMatches, TypeMatches, IndexMatches, DateMatches, UidMatches, Shown, TakeLargest;
      hide Exact, NoneEmpty, Lost, TasksInvariant, Answers;
      NoneStoredProcessing(allTasks);
      var tasks := AllTaskIds();
      tasks := KeepFrom(tasks, q);
      tasks := KeepStatuses(tasks, q.statuses);
      tasks := KeepUids(tasks, q.uids);
      tasks := KeepCanceledBy(tasks, q.canceledBy);
      tasks := KeepTypes(tasks, q.types);
      tasks := KeepIndexes(tasks, q.indexUids);
      tasks := KeepStarted(tasks, q.afterStartedAt, q.beforeStartedAt);
      tasks := KeepEnqueuedAndFinished(tasks, q);
      assert tasks == Scan(View(), q) - Lost(q);
      ids := if q.limit.Some? then TakeLargest(tasks, q.limit.value) else tasks;
      AnswersExactly(View(), q);
    }
  }
}
