/**
 Facts about values that the methods of `IndexScheduler` rest on: step lemmas of their loops, and
 what the batch in flight leaves behind.
*/
module SchedulerLemmas {
  import opened Wrappers
  import opened Tasks
  import opened Bitmaps
  import opened Autobatcher
  import opened BatchShape
  import opened BatchEquivalence
  import opened Indexing
  import opened Queue
  import opened BatchOrder
  import opened TaskQueue
  import opened Renaming
  import opened TaskRuns
  import opened TaskEnds
  import opened InverseMaps
  import opened TaskQuery

  /** The names that occur twice among the pairs of a swap. */
  function DuplicateNames(swaps: seq<IndexSwap>): set<string> {
    if swaps == [] then {}
    else
      var swap, rest := swaps[|swaps| - 1], swaps[..|swaps| - 1];
      DuplicateNames(rest)
      + (if swap.lhs in SwapNames(rest) then {swap.lhs} else {})
      + (if swap.rhs in SwapNames(rest) || swap.rhs == swap.lhs then {swap.rhs} else {})
  }

  lemma DuplicatesSnoc(swaps: seq<IndexSwap>, swap: IndexSwap)
    ensures
      DuplicateNames(swaps + [swap]) == DuplicateNames(swaps)
        + (if swap.lhs in SwapNames(swaps) then {swap.lhs} else {})
        + (if swap.rhs in SwapNames(swaps) || swap.rhs == swap.lhs then {swap.rhs} else {})
  {
    assert (swaps + [swap])[..|swaps|] == swaps;
  }

  lemma NoNames()
    ensures SwapNames([]) == {} && DuplicateNames([]) == {}
  {
  }

  lemma {:induction false} NamesSnoc(swaps: seq<IndexSwap>, swap: IndexSwap)
    ensures SwapNames(swaps + [swap]) == SwapNames(swaps) + {swap.lhs, swap.rhs}
  {
    if swaps == [] {
      assert swaps + [swap] == [swap];
      assert [swap][1..] == [];
    } else {
      assert (swaps + [swap])[1..] == swaps[1..] + [swap];
      NamesSnoc(swaps[1..], swap);
    }
  }

  lemma {:induction false} ValidSnoc(swaps: seq<IndexSwap>, swap: IndexSwap)
    ensures ValidSwaps(swaps + [swap])
       <==> ValidSwaps(swaps) && swap.lhs != swap.rhs && {swap.lhs, swap.rhs} !! SwapNames(swaps)
  {
    if swaps == [] {
      assert swaps + [swap] == [swap];
      assert [swap][1..] == [];
    } else {
      assert (swaps + [swap])[1..] == swaps[1..] + [swap];
      NamesSnoc(swaps[1..], swap);
      ValidSnoc(swaps[1..], swap);
    }
  }

  /** A swap is well formed exactly when no name occurs twice. */
  lemma {:induction false} NoDuplicates(swaps: seq<IndexSwap>)
    ensures ValidSwaps(swaps) <==> DuplicateNames(swaps) == {}
  {
    if swaps != [] {
      var swap, rest := swaps[|swaps| - 1], swaps[..|swaps| - 1];
      assert swaps == rest + [swap];
      NoDuplicates(rest);
      ValidSnoc(rest, swap);
    }
  }

  /** The keys under which the secondary databases hold some tasks. */
  datatype Affected = Affected(indexes: set<string>, statuses: set<Status>, kinds: set<Kind>, canceledBy: set<TaskId>)
  {
    predicate Covers(t: Task) {
      && t.kind.Indexes() <= indexes && t.status in statuses && t.kind.AsKind() in kinds
      && CanceledByOf(t) <= canceledBy
    }

    function Extend(t: Task): Affected {
      Affected(
        indexes + t.kind.Indexes(), statuses + {t.status}, kinds + {t.kind.AsKind()}, canceledBy + CanceledByOf(t))
    }
  }

  predicate CoversAll(a: Affected, tasks: TaskMap, ids: set<TaskId>) {
    forall id | id in ids && id in tasks :: a.Covers(tasks[id])
  }

  lemma ExtendCovers(a: Affected, tasks: TaskMap, ids: set<TaskId>, id: TaskId)
    requires CoversAll(a, tasks, ids) && id in tasks
    ensures CoversAll(a.Extend(tasks[id]), tasks, ids + {id})
  {
    hide KindWithContent.Indexes, KindWithContent.AsKind;
    var b := a.Extend(tasks[id]);
    forall i | i in ids + {id} && i in tasks
      ensures b.Covers(tasks[i])
    {
      assert i in ids ==> a.Covers(tasks[i]);
    }
  }

  lemma MinusStep(tasks: TaskMap, done: set<TaskId>, id: TaskId)
    ensures tasks - done - {id} == tasks - (done + {id})
  {
  }

  function ToSet(ids: seq<TaskId>): set<TaskId> {
    set id | id in ids
  }

  lemma ToSetSnoc(ids: seq<TaskId>, i: nat)
    requires i < |ids|
    ensures ToSet(ids[..i + 1]) == ToSet(ids[..i]) + {ids[i]}
  {
    assert ids[..i + 1] == ids[..i] + [ids[i]];
  }

  lemma FilesMore(tasks: TaskMap, ids: set<TaskId>, id: TaskId)
    requires id in tasks
    ensures
      var uuid := tasks[id].kind.ContentUuid();
      FilesOf(tasks, ids + {id}) == FilesOf(tasks, ids) + if uuid.Some? then {uuid.value} else {}
  {
  }

  lemma CancelNone(tasks: TaskMap, c: TaskId, previousStartedAt: Date, previous: set<TaskId>, now: Date)
    ensures tasks == CancelMatched(tasks, c, {}, previousStartedAt, previous, now)
  {
  }

  /** A task about to be canceled is still as it was: no assertion on its dates can fail. */
  lemma CanStillCancel(
    tasks: TaskMap, ids: seq<TaskId>, i: nat, c: TaskId, previousStartedAt: Date, previous: set<TaskId>, now: Date)
    requires TasksInvariant(tasks) && Increasing(ids) && i < |ids| && ids[i] in WithStatus(tasks, Enqueued)
    ensures
      var before := CancelMatched(tasks, c, ToSet(ids[..i]), previousStartedAt, previous, now);
      var t := tasks[ids[i]];
      && ids[i] in before && before[ids[i]] == t && t.uid == ids[i]
      && t.startedAt.None? && t.finishedAt.None? && t.canceledBy.None?
      && CancelMatched(tasks, c, ToSet(ids[..i]) + {ids[i]}, previousStartedAt, previous, now)
         == before[ids[i] := t.(
              startedAt := if t.uid in previous then Some(previousStartedAt) else t.startedAt,
              status := Canceled, canceledBy := Some(c), finishedAt := Some(now))]
  {
    hide RefersToOlder, ValidSwaps;
    assert TaskInvariant(ids[i], tasks[ids[i]]);
    assert ids[i] !in ids[..i];
  }

  lemma NotYetCanceled(tasks: TaskMap, id: TaskId)
    requires TasksInvariant(tasks) && id in tasks
    ensures tasks[id].status.Enqueued? ==> tasks[id].canceledBy.None?
  {
    assert TaskInvariant(id, tasks[id]);
  }

  lemma OnlyEnqueuedMatter(tasks: TaskMap, c: TaskId, matched: set<TaskId>, previousStartedAt: Date, previous: set<TaskId>, now: Date)
    ensures CancelMatched(tasks, c, matched, previousStartedAt, previous, now)
         == CancelMatched(tasks, c, WithStatus(tasks, Enqueued) * matched, previousStartedAt, previous, now)
  {
  }

  lemma CoversNone(a: Affected, tasks: TaskMap)
    ensures CoversAll(a, tasks, {})
  {
  }

  lemma CoveredKeys(a: Affected, tasks: TaskMap, ids: set<TaskId>)
    requires CoversAll(a, tasks, ids)
    ensures forall id | id in ids && id in tasks :: IndexesOf(tasks[id]) <= a.indexes
    ensures forall id | id in ids && id in tasks :: StatusOf(tasks[id]) <= a.statuses
    ensures forall id | id in ids && id in tasks :: KindOf(tasks[id]) <= a.kinds
    ensures forall id | id in ids && id in tasks :: CanceledByOf(tasks[id]) <= a.canceledBy
  {
    forall id | id in ids && id in tasks
      ensures IndexesOf(tasks[id]) <= a.indexes && StatusOf(tasks[id]) <= a.statuses
      ensures KindOf(tasks[id]) <= a.kinds && CanceledByOf(tasks[id]) <= a.canceledBy
    {
      assert a.Covers(tasks[id]);
    }
  }

  function Below(ids: set<TaskId>, bound: TaskId): set<TaskId> {
    set id | id in ids && id < bound
  }

  function RenameSome(tasks: TaskMap, swap: IndexSwap, ids: set<TaskId>): TaskMap {
    map id | id in tasks :: if id in ids then tasks[id].(kind := RenameKind(tasks[id].kind, swap)) else tasks[id]
  }

  lemma RenameNobody(tasks: TaskMap, swap: IndexSwap)
    ensures RenameSome(tasks, swap, {}) == tasks
  {
  }

  lemma RenameOneMore(tasks: TaskMap, swap: IndexSwap, ids: set<TaskId>, id: TaskId)
    requires id in tasks && id !in ids
    ensures
      RenameSome(tasks, swap, ids + {id})
      == RenameSome(tasks, swap, ids)[id := tasks[id].(kind := RenameKind(tasks[id].kind, swap))]
    ensures id in RenameSome(tasks, swap, ids) && RenameSome(tasks, swap, ids)[id] == tasks[id]
  {
  }

  lemma {:induction false} SwapsUnmentioned(swaps: seq<IndexSwap>, swap: IndexSwap)
    requires swap.lhs !in SwapNames(swaps) && swap.rhs !in SwapNames(swaps)
    ensures RenameSwaps(swaps, swap) == swaps
  {
    if swaps != [] {
      SwapsUnmentioned(swaps[1..], swap);
    }
  }

  /** Renaming leaves a task that mentions neither name as it is. */
  lemma Unmentioned(kind: KindWithContent, swap: IndexSwap)
    requires swap.lhs !in kind.Indexes() && swap.rhs !in kind.Indexes()
    ensures RenameKind(kind, swap) == kind
  {
    if kind.IndexSwaps? {
      SwapsUnmentioned(kind.swaps, swap);
    }
  }

  /** The bitmaps of the two indexes hold all the older tasks that have to be renamed. */
  lemma RenamedAreMentioned(tasks: TaskMap, indexTasks: map<string, set<TaskId>>, swap: IndexSwap, bound: TaskId)
    requires Exact(tasks, indexTasks, IndexesOf)
    ensures Below(Entry(indexTasks, swap.lhs), bound) + Below(Entry(indexTasks, swap.rhs), bound) <= tasks.Keys
    ensures
      RenameSome(tasks, swap, Below(Entry(indexTasks, swap.lhs), bound) + Below(Entry(indexTasks, swap.rhs), bound))
      == RenameTasks(tasks, swap, bound)
  {
    hide Exact, Entry, RenameKind, KindWithContent.Indexes;
    var ids := Below(Entry(indexTasks, swap.lhs), bound) + Below(Entry(indexTasks, swap.rhs), bound);
    forall id: TaskId
      ensures id in ids <==> id in tasks && id < bound && (swap.lhs in tasks[id].kind.Indexes() || swap.rhs in tasks[id].kind.Indexes())
    {
      ExactAt(tasks, indexTasks, IndexesOf, swap.lhs, id);
      ExactAt(tasks, indexTasks, IndexesOf, swap.rhs, id);
    }
    forall id <- tasks
      ensures id < bound && id !in ids ==> RenameKind(tasks[id].kind, swap) == tasks[id].kind
    {
      if id < bound && id !in ids {
        Unmentioned(tasks[id].kind, swap);
      }
    }
  }

  lemma RenamedMentions(kind: KindWithContent, swap: IndexSwap, name: string)
    requires swap.lhs != swap.rhs
    ensures name in RenameKind(kind, swap).Indexes() <==> RenameOne(name, swap) in kind.Indexes()
  {
    hide RenameKind, KindWithContent.Indexes;
    assert [swap][1..] == [];
    assert ValidSwaps([swap]);
    RenameKindsIsRenamed(kind, [swap]);
    assert RenameKinds(kind, [swap]) == RenameKind(kind, swap);
    RenamedIndexes(kind, [swap], name);
    assert Partner(name, [swap]) == RenameOne(name, swap);
  }

  /** The index database stays exact through a swap, for older swap tasks that mention the names too. */
  lemma SwappedIndexTasks(
    tasks: TaskMap, before: map<string, set<TaskId>>, mid: map<string, set<TaskId>>, after: map<string, set<TaskId>>,
    swap: IndexSwap, bound: TaskId)
    requires Exact(tasks, before, IndexesOf) && swap.lhs != swap.rhs
    requires
      Rewritten(before, mid, {swap.lhs}, Below(Entry(before, swap.lhs), bound), Below(Entry(before, swap.rhs), bound))
    requires
      Rewritten(mid, after, {swap.rhs}, Below(Entry(before, swap.rhs), bound), Below(Entry(before, swap.lhs), bound))
    ensures Exact(RenameTasks(tasks, swap, bound), after, IndexesOf)
  {
    hide RenameKind, KindWithContent.Indexes;
    var renamed := RenameTasks(tasks, swap, bound);
    forall name: string, id: TaskId
      ensures id in Entry(after, name) <==> id in renamed && name in IndexesOf(renamed[id])
    {
      ExactAt(tasks, before, IndexesOf, name, id);
      ExactAt(tasks, before, IndexesOf, RenameOne(name, swap), id);
      if id in tasks {
        RenamedMentions(tasks[id].kind, swap, name);
      }
      SwappedEntry(before, mid, after, swap, bound, name, id);
    }
  }

  lemma SwappedEntry(
    before: map<string, set<TaskId>>, mid: map<string, set<TaskId>>, after: map<string, set<TaskId>>,
    swap: IndexSwap, bound: TaskId, name: string, id: TaskId)
    requires swap.lhs != swap.rhs
    requires
      Rewritten(before, mid, {swap.lhs}, Below(Entry(before, swap.lhs), bound), Below(Entry(before, swap.rhs), bound))
    requires
      Rewritten(mid, after, {swap.rhs}, Below(Entry(before, swap.rhs), bound), Below(Entry(before, swap.lhs), bound))
    ensures id in Entry(after, name) <==> id in Entry(before, if id < bound then RenameOne(name, swap) else name)
  {
  }

  lemma SwapOneKeys<V>(m: map<string, V>, swap: IndexSwap)
    requires swap.lhs in m && swap.rhs in m
    ensures SwapOne(m, swap).Keys == m.Keys
  {
  }

  lemma FinishNobody(tasks: TaskMap, failed: set<TaskId>, started: Date, finished: Date)
    ensures Finish(tasks, {}, failed, started, finished) == tasks
    ensures FilesOf(tasks, {}) == {}
  {
  }

  lemma FinishOneMore(tasks: TaskMap, ids: set<TaskId>, id: TaskId, failed: set<TaskId>, started: Date, finished: Date)
    requires id in tasks && id !in ids
    ensures
      Finish(tasks, ids + {id}, failed, started, finished)
      == Finish(tasks, ids, failed, started, finished)[id := tasks[id].(
           startedAt := Some(started), finishedAt := Some(finished), status := if id in failed then Failed else Succeeded)]
    ensures id in Finish(tasks, ids, failed, started, finished)
    ensures Finish(tasks, ids, failed, started, finished)[id] == tasks[id]
  {
  }

  lemma SizeOfKeys(tasks: TaskMap)
    ensures |tasks| == |tasks.Keys|
  {
  }

  lemma OnIndexCons(t: Queued, rest: seq<Queued>, name: string)
    ensures OnIndex([t] + rest, name) == (if name in t.kind.Indexes() then [t] else []) + OnIndex(rest, name)
  {
    assert ([t] + rest)[1..] == rest;
  }

  /** Reading the bitmap of an index gives the tasks of the queue that mention it, in order. */
  lemma {:induction false} QueueOnIndex(tasks: TaskMap, ids: set<TaskId>, name: string, mine: set<TaskId>)
    requires ids <= tasks.Keys
    requires forall id :: id in mine <==> id in ids && name in tasks[id].kind.Indexes()
    ensures QueueOf(tasks, mine) == OnIndex(QueueOf(tasks, ids), name)
  {
    if ids == {} {
      assert mine == {};
    } else {
      hide QueueOf, OnIndex;
      var m := Smallest(ids);
      QueueCons(tasks, ids, m);
      OnIndexCons(Queued(m, tasks[m].kind), QueueOf(tasks, ids - {m}), name);
      if m in mine {
        QueueOnIndex(tasks, ids - {m}, name, mine - {m});
        QueueCons(tasks, mine, m);
      } else {
        QueueOnIndex(tasks, ids - {m}, name, mine);
      }
    }
  }

  lemma CandidatesAre(all: seq<Queued>, autobatching: bool)
    requires all != [] && all[0].kind.Indexes() != {}
    ensures
      var mine := OnIndex(all, IndexName(all[0].kind));
      && mine != [] && Candidates(all, autobatching) == if autobatching then mine else mine[..1]
  {
  }

  /** The scheduled batch is the one the autobatcher made, looked up in the queue. */
  lemma ScheduledBatch(indexes: Indexes, name: string, mine: seq<Queued>)
    requires mine != [] && forall t <- mine :: !t.kind.IsPrioritised()
    requires forall t, u | t in mine && u in mine && t.id == u.id :: t == u
    ensures
      var o := BatchOf(mine, name in indexes, if name in indexes then indexes[name].primaryKey else None);
      && Buildable(KindsOf(mine), o.batch)
      && Schedule(indexes, name, mine).batch == CreateNextBatchIndex(KindsOf(mine), name, o.batch, o.mustCreateIndex)
  {
    hide Buildable, BatchOf, CreateNextBatchIndex, KindsOf, Batched;
    ScheduleIds(indexes, name, mine);
  }

  lemma CleanupSwaps(s: State, config: Config, now: Date)
    requires SwapsValid(s.tasks)
    ensures SwapsValid(TaskQueue.CleanupTaskQueue(s, config, now).tasks)
  {
    hide NextId, TakeLargest, FinishedTasks, ValidSwaps;
  }

  /** The tasks that the processing of the batch in flight takes out of the queue, besides its own. */
  function LeavesQueue(s: State, canceledAt: Date): set<TaskId>
    requires s.current.Some?
  {
    WithStatus(s.tasks, Enqueued) - WithStatus(Processed(s, s.current.value, canceledAt), Enqueued)
  }

  lemma BatchFacts(s: State)
    requires Invariant(s) && s.current.Some?
    ensures TasksInvariant(s.tasks) && CancelInvariant(s.tasks) && ProcessingInvariant(s)
    ensures Distinct(s.current.value.Ids()) && Fits(s.tasks, s.current.value)
    ensures forall id <- s.current.value.Ids() ::
      id in s.tasks && s.tasks[id].status.Enqueued? && s.tasks[id].startedAt.None? && s.tasks[id].finishedAt.None?
    ensures s.current.value.ForIndex? && s.current.value.batch.IndexSwap? ==> ValidSwaps(s.current.value.batch.swaps)
  {
    hide CancelInvariant, FilesInvariant, StopInvariant, Fits, RefersToOlder, ValidSwaps;
    var batch := s.current.value;
    forall id <- batch.Ids()
      ensures id in s.tasks && s.tasks[id].status.Enqueued? && s.tasks[id].startedAt.None? && s.tasks[id].finishedAt.None?
    {
      assert id in batch.IdSet() && id in WithStatus(s.tasks, Enqueued);
      assert TaskInvariant(id, s.tasks[id]);
    }
    if batch.ForIndex? && batch.batch.IndexSwap? {
      SwapBatchValid(s.tasks, batch);
    }
  }

  lemma SwapBatchValid(tasks: TaskMap, batch: Batch)
    requires TasksInvariant(tasks) && Fits(tasks, batch) && batch.ForIndex? && batch.batch.IndexSwap?
    ensures ValidSwaps(batch.batch.swaps)
  {
    hide ValidSwaps;
    assert TaskInvariant(batch.batch.task, tasks[batch.batch.task]);
  }

  lemma CanceledLeave(s: State, canceledAt: Date)
    requires TasksInvariant(s.tasks) && ProcessingInvariant(s) && s.current.Some? && s.current.value.TaskCancelation?
    requires s.current.value.task in s.tasks && s.tasks[s.current.value.task].kind.TaskCancelation?
    ensures LeavesQueue(s, canceledAt) == s.tasks[s.current.value.task].kind.tasks * WithStatus(s.tasks, Enqueued)
  {
    hide TasksInvariant, ProcessingInvariant, Processed;
    forall id
      ensures id in LeavesQueue(s, canceledAt)
         <==> id in s.tasks[s.current.value.task].kind.tasks * WithStatus(s.tasks, Enqueued)
    {
      LeavingAt(s, canceledAt, id);
    }
  }

  lemma NoneLeave(s: State, canceledAt: Date)
    requires TasksInvariant(s.tasks) && ProcessingInvariant(s) && s.current.Some? && !s.current.value.TaskCancelation?
    ensures LeavesQueue(s, canceledAt) == {} && FilesOf(s.tasks, LeavesQueue(s, canceledAt)) == {}
  {
    hide TasksInvariant, ProcessingInvariant, Processed;
    forall id
      ensures id !in LeavesQueue(s, canceledAt)
    {
      LeavingAt(s, canceledAt, id);
    }
  }

  lemma AnyFailures(s: State, failed: set<TaskId>, after: Indexes)
    requires s.current.Some? && Possible(s, Done(failed, after))
    ensures Possible(s, Done({}, after))
    ensures IndexesAfter(s, s.current.value, Done({}, after)) == IndexesAfter(s, s.current.value, Done(failed, after))
  {
  }

  /** The tasks of the batch are still as they were: no assertion on their dates can fail. */
  lemma StillToFinish(s: State, canceledAt: Date)
    requires Invariant(s) && s.current.Some?
    ensures
      var processed := Processed(s, s.current.value, canceledAt);
      forall id <- s.current.value.Ids() ::
        id in processed && processed[id].startedAt.None? && processed[id].finishedAt.None?
        && processed[id].kind.ContentUuid() == s.tasks[id].kind.ContentUuid()
  {
    hide Invariant, Processed, Removed, IsCanceled, Cancels, CanceledBy, ProcessingInvariant, TasksInvariant;
    BatchFacts(s);
    RemovedOlder(s, true);
    forall id <- s.current.value.Ids()
      ensures
        var processed := Processed(s, s.current.value, canceledAt);
        id in processed && processed[id].startedAt.None? && processed[id].finishedAt.None?
        && processed[id].kind.ContentUuid() == s.tasks[id].kind.ContentUuid()
    {
      assert id in s.current.value.IdSet();
      BatchBasics(s);
      ProcessedTask(s, canceledAt, id);
      EnqueuedNotCanceled(s, id);
      assert id in Processed(s, s.current.value, canceledAt).Keys;
    }
  }

  lemma BatchBasics(s: State)
    requires ProcessingInvariant(s) && s.current.Some?
    ensures BatchInvariant(s.tasks, s.current.value)
  {
  }

  /** Two removals of update files are one removal of the files of the tasks that leave the queue. */
  lemma FilesOfBoth(s: State, canceledAt: Date)
    requires Invariant(s) && s.current.Some?
    ensures
      var batch := s.current.value;
      var processed := Processed(s, batch, canceledAt);
      s.files - FilesOf(s.tasks, LeavesQueue(s, canceledAt)) - FilesOf(processed, ToSet(batch.Ids()))
      == s.files - FilesOf(s.tasks, batch.IdSet() + LeavesQueue(s, canceledAt))
  {
    hide Invariant, Processed, LeavesQueue;
    BatchFacts(s);
    StillToFinish(s, canceledAt);
    var batch := s.current.value;
    var processed := Processed(s, batch, canceledAt);
    assert FilesOf(processed, ToSet(batch.Ids())) == FilesOf(s.tasks, batch.IdSet()) by {
      SameFiles(s.tasks, processed, batch.IdSet());
    }
    FilesOfUnion(s.tasks, batch.IdSet(), LeavesQueue(s, canceledAt));
  }

  lemma SameFiles(tasks: TaskMap, after: TaskMap, ids: set<TaskId>)
    requires forall id <- ids :: id in tasks && id in after && after[id].kind.ContentUuid() == tasks[id].kind.ContentUuid()
    ensures FilesOf(after, ids) == FilesOf(tasks, ids)
  {
    hide KindWithContent.ContentUuid;
    forall f
      ensures f in FilesOf(after, ids) <==> f in FilesOf(tasks, ids)
    {
    }
  }

  lemma FilesOfUnion(tasks: TaskMap, a: set<TaskId>, b: set<TaskId>)
    ensures FilesOf(tasks, a + b) == FilesOf(tasks, a) + FilesOf(tasks, b)
  {
    hide KindWithContent.ContentUuid;
  }

  lemma DateInRange(
    all: TaskMap, db: map<Date, set<TaskId>>, keys: Task -> set<Date>, after: Option<Date>, before: Option<Date>, id: TaskId)
    requires Exact(all, db, keys) && id in all
    ensures
      (exists d :: d in db && Within(after, before, d) && id in db[d])
      <==> exists d <- keys(all[id]) :: Within(after, before, d)
  {
    forall d: Date
      ensures (d in db && id in db[d]) <==> d in keys(all[id])
    {
      ExactAt(all, db, keys, d, id);
    }
  }

  lemma StatusBitmaps(
    tasks: TaskMap, db: map<Status, set<TaskId>>, processing: set<TaskId>, list: seq<Status>, id: TaskId)
    requires Exact(tasks, db, StatusOf) && id in tasks
    ensures id !in processing ==>
      ((exists s <- list :: id in if s.Processing? then processing else Entry(db, s))
       <==> (tasks[id].status in list && tasks[id].status != Processing))
    ensures id in processing && Processing in list ==>
      exists s <- list :: id in if s.Processing? then processing else Entry(db, s)
  {
    hide Exact, Entry;
    forall s: Status
      ensures id in Entry(db, s) <==> tasks[id].status == s
    {
      ExactAt(tasks, db, StatusOf, s, id);
    }
  }

  lemma CanceledByBitmaps(tasks: TaskMap, db: map<TaskId, set<TaskId>>, list: seq<TaskId>, id: TaskId)
    requires Exact(tasks, db, CanceledByOf) && id in tasks
    ensures (exists c <- list :: id in Entry(db, c)) <==> tasks[id].canceledBy.Some? && tasks[id].canceledBy.value in list
  {
    hide Exact, Entry;
    forall c: TaskId
      ensures id in Entry(db, c) <==> c in CanceledByOf(tasks[id])
    {
      ExactAt(tasks, db, CanceledByOf, c, id);
    }
  }

  lemma KindBitmaps(tasks: TaskMap, db: map<Kind, set<TaskId>>, list: seq<Kind>, id: TaskId)
    requires Exact(tasks, db, KindOf) && id in tasks
    ensures (exists k <- list :: id in Entry(db, k)) <==> tasks[id].kind.AsKind() in list
  {
    hide Exact, Entry;
    forall k: Kind
      ensures id in Entry(db, k) <==> k in KindOf(tasks[id])
    {
      ExactAt(tasks, db, KindOf, k, id);
    }
  }

  lemma IndexBitmaps(tasks: TaskMap, db: map<string, set<TaskId>>, list: seq<string>, id: TaskId)
    requires Exact(tasks, db, IndexesOf) && id in tasks
    ensures (exists name <- list :: id in Entry(db, name)) <==> exists name <- list :: name in tasks[id].kind.Indexes()
  {
    hide Exact, Entry;
    forall name: string
      ensures id in Entry(db, name) <==> name in tasks[id].kind.Indexes()
    {
      ExactAt(tasks, db, IndexesOf, name, id);
    }
  }

  /** `Processing` is a status that tasks are shown with, never one that is stored. */
  lemma NoneStoredProcessing(tasks: TaskMap)
    requires TasksInvariant(tasks)
    ensures forall id <- tasks :: !tasks[id].status.Processing? && id <= MAX_TASK_ID
  {
    forall id <- tasks
      ensures !tasks[id].status.Processing? && id <= MAX_TASK_ID
    {
      assert TaskInvariant(id, tasks[id]);
    }
  }
}
