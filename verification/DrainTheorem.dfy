/**
 The claim of the batch module: executing batches is functionally equivalent to executing each
 task individually and in order.  It is proved for whole queues, over several indexes, with
 index creations, deletions and swaps between the document tasks.
*/
module DrainTheorem {
  import opened Wrappers
  import opened Tasks
  import opened Autobatcher
  import opened BatchShape
  import opened Indexing
  import opened SlotRuns
  import opened BatchEquivalence
  import opened Queue
  import opened Independence
  import opened AloneRuns
  import opened Drain

  /** No batch met while draining loses anything; each batch is checked as it is about to be processed. */
  predicate BatchesLossless(milli: Milli, indexes: Indexes, queue: seq<Queued>)
    requires ValidQueue(queue)
    decreases |queue|
  {
    queue == []
    || (var s := NextBatch(indexes, queue, true);
        ScheduledIds(indexes, queue, true);
        WithoutKeepsOrder(queue, s.batch.Ids());
        && (s.name in indexes ==> Lossless(milli, indexes[s.name], s.kind, s.taken))
        && BatchesLossless(milli, ProcessBatch(milli, indexes, s.batch), Without(queue, s.batch.Ids())))
  }

  lemma {:induction false} WithoutNone(queue: seq<Queued>, ids: seq<TaskId>)
    requires forall t <- queue :: t.id !in ids
    ensures Without(queue, ids) == queue
  {
    if queue != [] {
      assert queue[0] in queue;
      WithoutNone(queue[1..], ids);
    }
  }

  lemma {:induction false} WithoutIsRest(queue: seq<Queued>, name: string, n: nat, ids: seq<TaskId>)
    requires ValidQueue(queue) && n <= |OnIndex(queue, name)|
    requires forall t <- queue :: t.id in ids <==> t in OnIndex(queue, name)[..n]
    ensures Without(queue, ids) == Rest(queue, name, n)
    decreases |queue|
  {
    hide ValidQueue;
    if n == 0 {
      WithoutNone(queue, ids);
    } else {
      var t, tail := queue[0], queue[1..];
      ValidTail(queue);
      var mine, later := OnIndex(queue, name), OnIndex(tail, name);
      if name in t.kind.Indexes() {
        assert mine[..n] == [t] + later[..n - 1];
        assert forall u <- tail :: u != t;
        WithoutIsRest(tail, name, n - 1, ids);
      } else {
        assert mine == later;
        assert t !in mine by {
          assert forall u <- later :: u in tail;
        }
        WithoutIsRest(tail, name, n, ids);
      }
    }
  }

  lemma TakenIds(mine: seq<Queued>, queue: seq<Queued>, n: nat, ids: seq<TaskId>)
    requires n <= |mine| && (forall t <- mine :: t in queue) && ValidQueue(queue)
    requires multiset(ids) == multiset(Ids(mine[..n]))
    ensures forall t <- queue :: t.id in ids <==> t in mine[..n]
  {
    DistinctIds(queue);
    forall t <- queue
      ensures t.id in ids <==> t in mine[..n]
    {
      IdsOf(mine[..n], t.id);
      assert t.id in ids <==> t.id in multiset(ids);
      assert t.id in Ids(mine[..n]) <==> t.id in multiset(Ids(mine[..n]));
      assert forall u <- mine[..n] :: u in mine;
    }
  }

  /** Only a swap is batched as a swap, and then alone. */
  lemma NoSwapInside(final: BatchKind, p: seq<Queued>)
    requires Summarises(final, p) && p != []
    ensures final.IndexSwap? <==> p[0].kind.IndexSwaps?
    ensures !final.IndexSwap? ==> forall t <- p :: !t.kind.IndexSwaps?
    ensures final.IndexSwap? ==> p == [p[0]]
  {
    hide Docs, Setts, Ids, EndsCleared, LastKey, OneMethod, DeletionIds;
    assert p[0] in p;
    if final.IndexDeletion? {
      var q, t := p[..|p| - 1], p[|p| - 1];
      assert p == q + [t] && t.kind.IndexDeletion? by {
        LastIsDeletion(final, p);
      }
      if q != [] {
        assert p[0] in q;
      }
    }
  }

  lemma LastIsDeletion(final: BatchKind, p: seq<Queued>)
    requires Summarises(final, p) && final.IndexDeletion?
    ensures p != [] && p == p[..|p| - 1] + [p[|p| - 1]] && p[|p| - 1].kind.IndexDeletion?
  {
    hide Docs, Setts, Ids;
  }

  /** The tasks taken from the front of the queue, and those left: together they do what the queue does. */
  ghost predicate SplitsOff(milli: Milli, w: World, queue: seq<Queued>, p: seq<Queued>, rest: seq<Queued>)
    requires ValidQueue(queue)
  {
    && IndexTasks(p) && IndexTasks(rest)
    && AdvanceAll(milli, w, queue) == AdvanceAll(milli, AdvanceAll(milli, w, p), rest)
    && (KeysStable(milli, w, queue) ==> KeysStable(milli, w, p) && KeysStable(milli, AdvanceAll(milli, w, p), rest))
  }

  lemma SplitFirst(milli: Milli, w: World, queue: seq<Queued>)
    requires ValidQueue(queue) && queue != []
    ensures SplitsOff(milli, w, queue, [queue[0]], Without(queue, [queue[0].id]))
  {
    hide Advance, KeyAgrees, AdvanceAll, KeysStable;
    ValidTail(queue);
    WithoutNone(queue[1..], [queue[0].id]);
    assert Without(queue, [queue[0].id]) == queue[1..];
    assert queue == [queue[0]] + queue[1..];
    AdvanceAppend(milli, w, [queue[0]], queue[1..]);
  }

  lemma SplitBatch(milli: Milli, w: World, queue: seq<Queued>, name: string, n: nat, ids: seq<TaskId>)
    requires ValidQueue(queue) && n <= |OnIndex(queue, name)|
    requires OnlyOn(OnIndex(queue, name)[..n], name)
    requires multiset(ids) == multiset(Ids(OnIndex(queue, name)[..n]))
    ensures SplitsOff(milli, w, queue, OnIndex(queue, name)[..n], Without(queue, ids))
  {
    hide Advance, KeyAgrees, AdvanceAll, KeysStable, Ids, OnIndex, Rest;
    var p := OnIndex(queue, name)[..n];
    TakenIds(OnIndex(queue, name), queue, n, ids);
    WithoutIsRest(queue, name, n, ids);
    Extract(milli, w, queue, name, n);
    AdvanceAppend(milli, w, p, Rest(queue, name, n));
  }

  /** A swap at the front of the queue is batched alone, whichever tasks share its indexes. */
  lemma SwapScheduled(indexes: Indexes, queue: seq<Queued>)
    requires ValidQueue(queue) && queue != [] && queue[0].kind.IndexSwaps?
    ensures
      var s := NextBatch(indexes, queue, true);
      s.taken == [queue[0]] && s.batch == IndexBatch.IndexSwap(queue[0].kind.swaps, queue[0].id)
  {
    hide Schedule;
    var t := queue[0];
    assert t in queue;
    if t.kind.Indexes() == {} {
      assert SwapNames(t.kind.swaps) == {};
    } else {
      DistinctIds(queue);
      ScheduleSwap(indexes, IndexName(t.kind), OnIndex(queue, IndexName(t.kind)));
    }
  }

  lemma ScheduleSwap(indexes: Indexes, name: string, mine: seq<Queued>)
    requires mine != [] && mine[0].kind.IndexSwaps? && forall t <- mine :: !t.kind.IsPrioritised()
    requires forall t, u | t in mine && u in mine && t.id == u.id :: t == u
    ensures
      var s := Schedule(indexes, name, mine);
      s.taken == [mine[0]] && s.batch == IndexBatch.IndexSwap(mine[0].kind.swaps, mine[0].id)
  {
    hide Batched, Buildable, BatchOf;
    var t := mine[0];
    ScheduleIds(indexes, name, mine);
    SwapFirst(mine, name in indexes, KeyOf(Get(indexes, name)));
    assert mine[..1] == [t] && t in [t];
  }

  lemma SwapFirst(mine: seq<Queued>, indexExists: bool, key: Option<string>)
    requires mine != [] && mine[0].kind.IndexSwaps? && forall t <- mine :: !t.kind.IsPrioritised()
    ensures BatchOf(mine, indexExists, key) == Outcome(BatchKind.IndexSwap(mine[0].id), false, 1)
  {
  }

  /** What one batch achieves: it splits off its tasks, and does to the indexes what they do. */
  ghost predicate BatchWorks(milli: Milli, w: World, queue: seq<Queued>, s: Scheduled)
    requires ValidQueue(queue)
  {
    && SplitsOff(milli, w, queue, s.taken, Without(queue, s.batch.Ids()))
    && SameIndexes(ProcessBatch(milli, w.indexes, s.batch), AdvanceAll(milli, w, s.taken).indexes)
    && KeysBelow(ProcessBatch(milli, w.indexes, s.batch), AdvanceAll(milli, w, s.taken).declared)
  }

  lemma SwapBatch(milli: Milli, w: World, queue: seq<Queued>)
    requires ValidQueue(queue) && queue != [] && KeysStable(milli, w, queue) && KeysBelow(w.indexes, w.declared)
    requires queue[0].kind.IndexSwaps?
    ensures BatchWorks(milli, w, queue, NextBatch(w.indexes, queue, true))
  {
    hide KeysStable, SameIndexes, KeysBelow, NextBatch, SwapAll, KeyAgrees;
    var t := queue[0];
    SwapScheduled(w.indexes, queue);
    SplitFirst(milli, w, queue);
    AdvanceCons(milli, w, t, []);
    assert [t] + [] == [t];
    SameAsItself(w.indexes);
    AdvanceAllSimilar(milli, w.indexes, w.indexes, w.declared, [t]);
    assert ProcessBatch(milli, w.indexes, IndexBatch.IndexSwap(t.kind.swaps, t.id)) == Advance(milli, w, t.kind).indexes;
  }

  /** A batch opened by another task holds no swap. */
  lemma ScheduledKinds(indexes: Indexes, name: string, mine: seq<Queued>)
    requires mine != [] && !mine[0].kind.IndexSwaps? && forall t <- mine :: !t.kind.IsPrioritised()
    requires forall t, u | t in mine && u in mine && t.id == u.id :: t == u
    ensures forall t <- Schedule(indexes, name, mine).taken :: !t.kind.IndexSwaps? && t in mine
  {
    hide Summarises, Buildable, CreateNextBatchIndex, KeyRun, CanCreate, Batched, Schedule, Stored;
    var s := Schedule(indexes, name, mine);
    ScheduleIds(indexes, name, mine);
    SummaryOf(s.kind, s.taken, Get(indexes, name));
    NoSwapInside(s.kind, s.taken);
    assert s.taken[0] == mine[0];
  }

  lemma ScheduledOnly(indexes: Indexes, queue: seq<Queued>, name: string)
    requires ValidQueue(queue) && queue != [] && !queue[0].kind.IndexSwaps? && name in queue[0].kind.Indexes()
    ensures forall t, u | t in queue && u in queue && t.id == u.id :: t == u
    ensures OnlyOn(Schedule(indexes, name, OnIndex(queue, name)).taken, name)
  {
    hide Schedule, OnIndex;
    DistinctIds(queue);
    ScheduledKinds(indexes, name, OnIndex(queue, name));
  }

  lemma OneIndexBatch(milli: Milli, w: World, queue: seq<Queued>, name: string)
    requires ValidQueue(queue) && queue != [] && KeysStable(milli, w, queue) && KeysBelow(w.indexes, w.declared)
    requires !queue[0].kind.IndexSwaps? && name in queue[0].kind.Indexes()
    requires forall t, u | t in queue && u in queue && t.id == u.id :: t == u
    requires
      var s := Schedule(w.indexes, name, OnIndex(queue, name));
      s.name in w.indexes ==> Lossless(milli, w.indexes[s.name], s.kind, s.taken)
    ensures BatchWorks(milli, w, queue, Schedule(w.indexes, name, OnIndex(queue, name)))
  {
    hide AdvanceAll, KeysStable, Lossless, Buildable, CreateNextBatchIndex, SameIndexes, KeysBelow;
    hide ProcessBatch, OnIndex, Batched, Ids, OnlyOn, BatchOf, ValidQueue;
    var mine := OnIndex(queue, name);
    var s := Schedule(w.indexes, name, mine);
    ScheduledOnly(w.indexes, queue, name);
    ScheduleIds(w.indexes, name, mine);
    SplitBatch(milli, w, queue, name, |s.taken|, s.batch.Ids());
    assert s.taken[0] == mine[0];
    BatchSimilar(milli, w, KindsOf(mine), name, s.kind, s.taken);
  }

  /** One batch from the front of the queue. */
  lemma OneBatch(milli: Milli, w: World, queue: seq<Queued>)
    requires ValidQueue(queue) && queue != [] && KeysStable(milli, w, queue) && KeysBelow(w.indexes, w.declared)
    requires
      var s := NextBatch(w.indexes, queue, true);
      s.name in w.indexes ==> Lossless(milli, w.indexes[s.name], s.kind, s.taken)
    ensures BatchWorks(milli, w, queue, NextBatch(w.indexes, queue, true))
  {
    var t := queue[0];
    assert t in queue;
    hide KeysStable, Lossless, SameIndexes, KeysBelow, Schedule, BatchWorks, ProcessBatch, OnIndex;
    if t.kind.IndexSwaps? {
      SwapBatch(milli, w, queue);
    } else {
      DistinctIds(queue);
      OneIndexBatch(milli, w, queue, IndexName(t.kind));
    }
  }

  lemma SameTransitive(a: Indexes, b: Indexes, c: Indexes)
    requires SameIndexes(a, b) && SameIndexes(b, c)
    ensures SameIndexes(a, c) && SameIndexes(b, a)
  {
    forall n
      ensures SameData(Get(a, n), Get(c, n)) && SameData(Get(b, n), Get(a, n))
    {
      assert SameData(Get(a, n), Get(b, n)) && SameData(Get(b, n), Get(c, n));
    }
  }

  lemma KeysOfRun(milli: Milli, w: World, p: seq<Queued>)
    requires IndexTasks(p) && KeysStable(milli, w, p) && KeysBelow(w.indexes, w.declared)
    ensures KeysBelow(AdvanceAll(milli, w, p).indexes, AdvanceAll(milli, w, p).declared)
  {
    SameAsItself(w.indexes);
    AdvanceAllSimilar(milli, w.indexes, w.indexes, w.declared, p);
  }

  lemma {:induction false} DrainedIsRun(milli: Milli, w: World, queue: seq<Queued>)
    requires ValidQueue(queue) && KeysStable(milli, w, queue) && KeysBelow(w.indexes, w.declared)
    requires BatchesLossless(milli, w.indexes, queue)
    ensures SameIndexes(Drained(milli, w.indexes, queue, true), AdvanceAll(milli, w, queue).indexes)
    decreases |queue|
  {
    if queue == [] {
      SameAsItself(w.indexes);
    } else {
      hide NextBatch, Lossless, SameIndexes, KeysBelow, AdvanceAll, KeysStable, ProcessBatch, ValidQueue;
      var s := NextBatch(w.indexes, queue, true);
      ScheduledIds(w.indexes, queue, true);
      WithoutKeepsOrder(queue, s.batch.Ids());
      var rest := Without(queue, s.batch.Ids());
      OneBatch(milli, w, queue);
      var v := AdvanceAll(milli, w, s.taken);
      var after := ProcessBatch(milli, w.indexes, s.batch);
      KeysOfRun(milli, w, s.taken);
      Symmetric(after, v.indexes);
      AdvanceAllSimilar(milli, v.indexes, after, v.declared, rest);
      DrainedIsRun(milli, World(after, v.declared), rest);
      var left, right := AdvanceAll(milli, World(after, v.declared), rest).indexes, AdvanceAll(milli, v, rest).indexes;
      Symmetric(right, left);
      SameTransitive(Drained(milli, after, rest, true), left, right);
    }
  }

  lemma Symmetric(a: Indexes, b: Indexes)
    requires SameIndexes(a, b)
    ensures SameIndexes(b, a)
  {
    forall n
      ensures SameData(Get(b, n), Get(a, n))
    {
      assert SameData(Get(a, n), Get(b, n));
    }
  }

  lemma {:induction false} AloneIsRun(milli: Milli, w: World, queue: seq<Queued>)
    requires ValidQueue(queue)
    ensures Drained(milli, w.indexes, queue, false) == AdvanceAll(milli, w, queue).indexes
    decreases |queue|
  {
    if queue != [] {
      hide NextBatch, ProcessBatch, Effect;
      var t := queue[0];
      ValidTail(queue);
      var s := NextBatch(w.indexes, queue, false);
      AloneIsExecute(milli, w.indexes, queue);
      WithoutNone(queue[1..], [t.id]);
      assert Without(queue, s.batch.Ids()) == queue[1..];
      AloneIsRun(milli, Advance(milli, w, t.kind), queue[1..]);
    }
  }

  /**
   For any indexes and any queue: if no two tasks declare different keys for an index, and no
   batch met on the way loses anything, draining the queue with autobatching on and off leaves the
   same indexes, each with the same documents and settings.
  */
  lemma BatchingPreservesMeaning(milli: Milli, indexes: Indexes, declared: map<string, string>, queue: seq<Queued>)
    requires ValidQueue(queue) && KeysBelow(indexes, declared)
    requires KeysStable(milli, World(indexes, declared), queue)
    requires BatchesLossless(milli, indexes, queue)
    ensures SameIndexes(Drained(milli, indexes, queue, true), Drained(milli, indexes, queue, false))
  {
    hide KeysStable, SameIndexes, KeysBelow, BatchesLossless;
    DrainedIsRun(milli, World(indexes, declared), queue);
    AloneIsRun(milli, World(indexes, declared), queue);
  }
}
