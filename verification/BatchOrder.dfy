/**
 The order in which the tasks of an index are processed.

 Whatever the batch is made of, a task never overtakes an older enqueued task that mentions one
 of its indexes, and a swap waits until it is the oldest enqueued task and is processed alone.
*/
module BatchOrder {
  import opened Wrappers
  import opened Tasks
  import opened Autobatcher
  import opened BatchShape
  import opened BatchEquivalence
  import opened Indexing
  import opened Queue
  import opened DrainTheorem
  import opened TaskQueue

  lemma {:induction false} OnIndexHas(queue: seq<Queued>, name: string, t: Queued)
    requires t in queue && name in t.kind.Indexes()
    ensures t in OnIndex(queue, name)
  {
    if t != queue[0] {
      assert t in queue[1..];
      OnIndexHas(queue[1..], name, t);
    }
  }

  lemma {:induction false} OnIndexOrder(queue: seq<Queued>, name: string)
    requires Ascending(queue)
    ensures Ascending(OnIndex(queue, name))
  {
    hide Ascending;
    if queue == [] {
      AscendingEmpty();
    } else {
      AscendingTail(queue);
      OnIndexOrder(queue[1..], name);
      if name in queue[0].kind.Indexes() {
        AscendingCons(queue[0], OnIndex(queue[1..], name));
      } else {
        assert OnIndex(queue, name) == OnIndex(queue[1..], name);
      }
    }
  }

  lemma AscendingTail(queue: seq<Queued>)
    requires Ascending(queue) && queue != []
    ensures Ascending(queue[1..]) && forall t <- queue[1..] :: queue[0].id < t.id
  {
  }

  lemma AscendingPrefix(queue: seq<Queued>, n: nat, t: Queued, u: Queued)
    requires Ascending(queue) && n <= |queue| && u in queue[..n] && t in queue && t.id < u.id
    ensures t in queue[..n]
  {
    var j :| 0 <= j < n && queue[j] == u;
    var i :| 0 <= i < |queue| && queue[i] == t;
    assert i <= j;
    assert queue[..n][i] == t;
  }

  /** The tasks that the autobatcher is given. */
  function Candidates(queue: seq<Queued>, autobatching: bool): seq<Queued>
    requires queue != [] && queue[0].kind.Indexes() != {}
  {
    var mine := OnIndex(queue, IndexName(queue[0].kind));
    if autobatching then mine else mine[..1]
  }

  lemma NextBatchIsScheduled(indexes: Indexes, queue: seq<Queued>, autobatching: bool)
    requires ValidQueue(queue) && queue != [] && queue[0].kind.Indexes() != {}
    ensures
      var mine := Candidates(queue, autobatching);
      && mine != [] && mine[0] == queue[0] && (forall t <- mine :: t in queue && !t.kind.IsPrioritised())
      && (forall t, u | t in mine && u in mine && t.id == u.id :: t == u)
      && NextBatch(indexes, queue, autobatching) == Schedule(indexes, IndexName(queue[0].kind), mine)
      && exists n: nat :: n <= |OnIndex(queue, IndexName(queue[0].kind))| && mine == OnIndex(queue, IndexName(queue[0].kind))[..n]
  {
    hide Schedule, OnIndex;
    assert queue[0] in queue;
    DistinctIds(queue);
    var all := OnIndex(queue, IndexName(queue[0].kind));
    if autobatching {
      assert all == all[..|all|];
    }
  }

  /** A batch takes the tasks that mention one name, oldest first, and leaves none of them behind in between. */
  lemma NextBatchTakes(indexes: Indexes, queue: seq<Queued>, autobatching: bool)
    requires ValidQueue(queue) && queue != [] && queue[0].kind.Indexes() != {}
    ensures
      var s := NextBatch(indexes, queue, autobatching);
      var name := IndexName(queue[0].kind);
      && 1 <= |s.taken| <= |OnIndex(queue, name)| && s.taken == OnIndex(queue, name)[..|s.taken|]
      && multiset(s.batch.Ids()) == multiset(Ids(s.taken))
      && (forall t <- queue :: t.id in s.batch.Ids() <==> t in s.taken)
      && (queue[0].kind.IndexSwaps? ==>
            s.taken == [queue[0]] && s.batch == IndexBatch.IndexSwap(queue[0].kind.swaps, queue[0].id))
      && (!queue[0].kind.IndexSwaps? ==>
            !s.batch.IndexSwap? && forall t <- s.taken :: !t.kind.IndexSwaps? && t.kind.Indexes() == {name})
  {
    hide Schedule, NextBatch, OnIndex, Candidates, Ids, Batched, Buildable, CreateNextBatchIndex, Stored, KindsOf;
    NextBatchIsScheduled(indexes, queue, autobatching);
    var name, s := IndexName(queue[0].kind), NextBatch(indexes, queue, autobatching);
    var mine := Candidates(queue, autobatching);
    ScheduleIds(indexes, name, mine);
    assert s.taken == OnIndex(queue, name)[..|s.taken|];
    TakenIds(OnIndex(queue, name), queue, |s.taken|, s.batch.Ids());
    if queue[0].kind.IndexSwaps? {
      ScheduleSwap(indexes, name, mine);
    } else {
      ScheduledKinds(indexes, name, mine);
      NotASwap(indexes, name, mine);
    }
  }

  /** A batch is told to create its index, or that it has been created, exactly when its first task may create it. */
  lemma CreationFlag(indexes: Indexes, queue: seq<Queued>, autobatching: bool)
    requires ValidQueue(queue) && queue != [] && queue[0].kind.Indexes() != {}
    ensures
      var batch := NextBatch(indexes, queue, autobatching).batch;
      && (batch.IndexOperation? ==> (batch.mustCreateIndex <==> CanCreate(queue[0].kind)))
      && (batch.IndexDeletion? ==> (batch.indexHasBeenCreated <==> CanCreate(queue[0].kind)))
  {
    hide NextBatch, OnIndex, Candidates, Ids, Batched, Buildable, Stored, KindsOf, New, Fold, CanCreate;
    NextBatchIsScheduled(indexes, queue, autobatching);
    var name, mine := IndexName(queue[0].kind), Candidates(queue, autobatching);
    var slot := Get(indexes, name);
    NewSummary(mine[0], KeyOf(slot));
    assert BatchOf(mine, slot.Some?, KeyOf(slot)).mustCreateIndex == CanCreate(queue[0].kind);
  }

  lemma NotASwap(indexes: Indexes, name: string, mine: seq<Queued>)
    requires mine != [] && !mine[0].kind.IndexSwaps? && forall t <- mine :: !t.kind.IsPrioritised()
    requires forall t, u | t in mine && u in mine && t.id == u.id :: t == u
    ensures !Schedule(indexes, name, mine).batch.IndexSwap?
  {
    hide Schedule, Summarises, KeyRun, Ids;
    var s := Schedule(indexes, name, mine);
    ScheduleIds(indexes, name, mine);
    NoSwapInside(s.kind, s.taken);
  }

  /** Per-index order: with a task, a batch holds every older enqueued task that shares an index with it. */
  lemma NoOvertaking(indexes: Indexes, queue: seq<Queued>, autobatching: bool, t: Queued, u: Queued)
    requires ValidQueue(queue) && t in queue && u in queue && t.id < u.id
    requires t.kind.Indexes() * u.kind.Indexes() != {}
    requires u.id in NextBatch(indexes, queue, autobatching).batch.Ids()
    ensures t.id in NextBatch(indexes, queue, autobatching).batch.Ids()
  {
    hide NextBatch, OnIndex;
    var s := NextBatch(indexes, queue, autobatching);
    if queue[0].kind.Indexes() == {} {
      EmptySwap(indexes, queue, autobatching);
      DistinctIds(queue);
    } else {
      NextBatchTakes(indexes, queue, autobatching);
      if !queue[0].kind.IndexSwaps? {
        var name := IndexName(queue[0].kind);
        OnIndexHas(queue, name, t);
        OnIndexOrder(queue, name);
        AscendingPrefix(OnIndex(queue, name), |s.taken|, t, u);
      }
    }
  }

  /** The only task without an index that can be met is a swap of nothing. */
  lemma EmptySwap(indexes: Indexes, queue: seq<Queued>, autobatching: bool)
    requires ValidQueue(queue) && queue != [] && queue[0].kind.Indexes() == {}
    ensures queue[0].kind == KindWithContent.IndexSwaps([])
    ensures NextBatch(indexes, queue, autobatching).batch == IndexBatch.IndexSwap([], queue[0].id)
  {
    var t := queue[0];
    assert t in queue;
    assert SwapNames(t.kind.swaps) == {};
    assert t.kind.swaps == [];
  }

  /** A swap is processed alone, as the oldest enqueued task, with its own pairs. */
  lemma SwapsAlone(indexes: Indexes, queue: seq<Queued>, autobatching: bool, t: Queued)
    requires ValidQueue(queue) && t in queue && t.id in NextBatch(indexes, queue, autobatching).batch.Ids()
    ensures
      var s := NextBatch(indexes, queue, autobatching);
      t.kind.IndexSwaps? <==> s.batch.IndexSwap?
    ensures
      var s := NextBatch(indexes, queue, autobatching);
      t.kind.IndexSwaps? ==> t == queue[0] && s.batch == IndexBatch.IndexSwap(t.kind.swaps, t.id)
  {
    hide NextBatch, OnIndex;
    var s := NextBatch(indexes, queue, autobatching);
    DistinctIds(queue);
    assert queue[0] in queue;
    if queue[0].kind.Indexes() == {} {
      EmptySwap(indexes, queue, autobatching);
    } else {
      NextBatchTakes(indexes, queue, autobatching);
    }
  }

  predicate Distinct(ids: seq<TaskId>) {
    forall i, j | 0 <= i < j < |ids| :: ids[i] != ids[j]
  }

  lemma {:induction false} DistinctOnce(ids: seq<TaskId>, x: TaskId)
    requires Distinct(ids)
    ensures multiset(ids)[x] <= 1
  {
    if ids != [] {
      var rest := ids[..|ids| - 1];
      assert ids == rest + [ids[|ids| - 1]];
      DistinctOnce(rest, x);
    }
  }

  lemma SameMultisetDistinct(a: seq<TaskId>, b: seq<TaskId>)
    requires Distinct(a) && multiset(a) == multiset(b)
    ensures Distinct(b)
  {
    forall i, j | 0 <= i < j < |b|
      ensures b[i] != b[j]
    {
      DistinctOnce(a, b[i]);
      assert b == b[..i] + [b[i]] + b[i + 1..j] + [b[j]] + b[j + 1..];
    }
  }

  lemma {:induction false} IdsAt(p: seq<Queued>)
    ensures |Ids(p)| == |p| && forall i | 0 <= i < |p| :: Ids(p)[i] == p[i].id
  {
    if p != [] {
      IdsAt(p[..|p| - 1]);
    }
  }

  /** A batch lists each of its tasks once, which is why its sorted ids make a bitmap. */
  lemma BatchListsOnce(indexes: Indexes, queue: seq<Queued>, autobatching: bool)
    requires ValidQueue(queue) && queue != []
    ensures Distinct(NextBatch(indexes, queue, autobatching).batch.Ids())
  {
    hide NextBatch, OnIndex, Ids;
    if queue[0].kind.Indexes() == {} {
      EmptySwap(indexes, queue, autobatching);
    } else {
      var s := NextBatch(indexes, queue, autobatching);
      NextBatchTakes(indexes, queue, autobatching);
      OnIndexOrder(queue, IndexName(queue[0].kind));
      IdsAt(s.taken);
      SameMultisetDistinct(Ids(s.taken), s.batch.Ids());
    }
  }
}
