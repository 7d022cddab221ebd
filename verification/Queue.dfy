/**
 The queue of index tasks, drained with autobatching on or off.

 `NextBatch` takes the smallest enqueued task, picks its index, and batches the tasks of that
 index; with autobatching off it takes one task at a time.  `Drain` repeats this until the queue
 is empty.
*/
module Queue {
  import opened Wrappers
  import opened Tasks
  import opened Autobatcher
  import opened BatchShape
  import opened Indexing
  import opened SlotRuns
  import opened BatchEquivalence

  /** Enqueued index tasks, ids increasing; swaps have passed the check made when registering. */
  predicate ValidQueue(queue: seq<Queued>) {
    && (forall t <- queue :: !t.kind.IsPrioritised() && (t.kind.IndexSwaps? ==> ValidSwaps(t.kind.swaps)))
    && (forall i, j | 0 <= i < j < |queue| :: queue[i].id < queue[j].id)
  }

  /** The enqueued tasks that mention `name`. */
  function OnIndex(queue: seq<Queued>, name: string): (mine: seq<Queued>)
    ensures forall t <- mine :: t in queue && name in t.kind.Indexes()
    ensures queue != [] && name in queue[0].kind.Indexes() ==> mine != [] && mine[0] == queue[0]
  {
    if queue == [] then []
    else (if name in queue[0].kind.Indexes() then [queue[0]] else []) + OnIndex(queue[1..], name)
  }

  /** The index a task is scheduled by; for a swap any of its names gives the same batch. */
  function IndexName(kind: KindWithContent): (name: string)
    requires kind.Indexes() != {}
    ensures name in kind.Indexes()
  {
    if kind.IndexSwaps? then kind.swaps[0].lhs else kind.indexUid
  }

  function KindsOf(p: seq<Queued>): (kinds: map<TaskId, KindWithContent>)
    ensures forall id <- kinds :: exists t <- p :: t.id == id && t.kind == kinds[id]
  {
    if p == [] then map[]
    else
      var t := p[0];
      assert t in p;
      KindsOf(p[1..])[t.id := t.kind]
  }

  lemma {:induction false} KindsStored(p: seq<Queued>)
    requires forall t, u | t in p && u in p && t.id == u.id :: t == u
    ensures Stored(KindsOf(p), p)
  {
    if p != [] {
      KindsStored(p[1..]);
      forall t | t in p
        ensures t.id in KindsOf(p) && KindsOf(p)[t.id] == t.kind
      {
        if t != p[0] {
          assert t in p[1..];
        }
      }
    }
  }

  lemma DistinctIds(queue: seq<Queued>)
    requires ValidQueue(queue)
    ensures forall t, u | t in queue && u in queue && t.id == u.id :: t == u
  {
  }

  /** A batch, the tasks it takes, and the index it is for. */
  datatype Scheduled = Scheduled(batch: IndexBatch, kind: BatchKind, taken: seq<Queued>, name: string)

  /** The batch made from tasks that all mention `name`. */
  function Schedule(indexes: Indexes, name: string, mine: seq<Queued>): Scheduled
    requires mine != [] && forall t <- mine :: !t.kind.IsPrioritised()
    requires forall t, u | t in mine && u in mine && t.id == u.id :: t == u
  {
    var slot := Get(indexes, name);
    var o := BatchOf(mine, slot.Some?, KeyOf(slot));
    var taken := mine[..o.taken];
    AutobatchTakesPrefix(mine, slot.Some?, KeyOf(slot));
    KindsStored(mine);
    assert Stored(KindsOf(mine), taken);
    BatchIsBuildable(KindsOf(mine), o.batch, taken);
    Scheduled(CreateNextBatchIndex(KindsOf(mine), name, o.batch, o.mustCreateIndex), o.batch, taken, name)
  }

  function NextBatch(indexes: Indexes, queue: seq<Queued>, autobatching: bool): Scheduled
    requires queue != [] && ValidQueue(queue)
  {
    var t := queue[0];
    assert t in queue;
    if t.kind.Indexes() == {} then Scheduled(IndexBatch.IndexSwap([], t.id), BatchKind.IndexSwap(t.id), [t], "")
    else
      var name := IndexName(t.kind);
      var mine := OnIndex(queue, name);
      DistinctIds(queue);
      if autobatching then Schedule(indexes, name, mine) else Schedule(indexes, name, mine[..1])
  }

  /** The tasks still enqueued once those of a batch have left. */
  function Without(queue: seq<Queued>, ids: seq<TaskId>): seq<Queued> {
    if queue == [] then []
    else (if queue[0].id in ids then [] else [queue[0]]) + Without(queue[1..], ids)
  }

  lemma {:induction false} WithoutKeepsOrder(queue: seq<Queued>, ids: seq<TaskId>)
    requires ValidQueue(queue)
    ensures ValidQueue(Without(queue, ids)) && forall t <- Without(queue, ids) :: t in queue && t.id !in ids
    ensures |Without(queue, ids)| <= |queue|
    ensures queue != [] && queue[0].id in ids ==> |Without(queue, ids)| < |queue|
  {
    if queue != [] {
      var tail := queue[1..];
      ValidTail(queue);
      WithoutKeepsOrder(tail, ids);
      if queue[0].id !in ids {
        ValidCons(queue[0], Without(tail, ids));
      }
    }
  }

  lemma ValidTail(queue: seq<Queued>)
    requires ValidQueue(queue) && queue != []
    ensures ValidQueue(queue[1..]) && forall t <- queue[1..] :: t in queue && queue[0].id < t.id
    ensures queue[0] in queue
  {
  }

  lemma ValidCons(t: Queued, tail: seq<Queued>)
    requires ValidQueue(tail) && forall u <- tail :: t.id < u.id
    requires !t.kind.IsPrioritised() && (t.kind.IndexSwaps? ==> ValidSwaps(t.kind.swaps))
    ensures ValidQueue([t] + tail)
  {
  }

  lemma {:induction false} IdsOf(p: seq<Queued>, id: TaskId)
    ensures id in Ids(p) <==> exists t <- p :: t.id == id
  {
    if p != [] {
      var q, t := p[..|p| - 1], p[|p| - 1];
      assert p == q + [t];
      IdsOf(q, id);
    }
  }

  /** A scheduled batch takes the first task of the queue, and lists exactly the tasks it takes. */
  lemma ScheduledIds(indexes: Indexes, queue: seq<Queued>, autobatching: bool)
    requires queue != [] && ValidQueue(queue)
    ensures
      var s := NextBatch(indexes, queue, autobatching);
      && s.taken != [] && s.taken[0] == queue[0]
      && (forall t <- s.taken :: t in queue)
      && multiset(s.batch.Ids()) == multiset(Ids(s.taken))
      && queue[0].id in s.batch.Ids()
  {
    var t := queue[0];
    assert t in queue;
    var s := NextBatch(indexes, queue, autobatching);
    if t.kind.Indexes() == {} {
      Singleton(t, None);
    } else {
      var name := IndexName(t.kind);
      DistinctIds(queue);
      var mine := if autobatching then OnIndex(queue, name) else OnIndex(queue, name)[..1];
      ScheduleIds(indexes, name, mine);
    }
    IdsOf(s.taken, t.id);
    assert queue[0].id in multiset(s.batch.Ids());
  }

  lemma ScheduleIds(indexes: Indexes, name: string, mine: seq<Queued>)
    requires mine != [] && forall t <- mine :: !t.kind.IsPrioritised()
    requires forall t, u | t in mine && u in mine && t.id == u.id :: t == u
    ensures
      var s := Schedule(indexes, name, mine);
      && 1 <= |s.taken| <= |mine| && s.taken == mine[..|s.taken|]
      && multiset(s.batch.Ids()) == multiset(Ids(s.taken))
      && Batched(s.kind, s.taken, name in indexes || CanCreate(mine[0].kind), KeyOf(Get(indexes, name)))
      && Stored(KindsOf(mine), s.taken) && Buildable(KindsOf(mine), s.kind)
      && s.batch == CreateNextBatchIndex(KindsOf(mine), name, s.kind, CanCreate(mine[0].kind))
  {
    hide Summarises, KeyRun, Buildable, CreateNextBatchIndex;
    var slot := Get(indexes, name);
    var o := BatchOf(mine, slot.Some?, KeyOf(slot));
    AutobatchTakesPrefix(mine, slot.Some?, KeyOf(slot));
    KindsStored(mine);
    BatchIdsPermute(o.batch, mine[..o.taken]);
    BatchIsBuildable(KindsOf(mine), o.batch, mine[..o.taken]);
    BuiltIds(KindsOf(mine), name, o.batch, o.mustCreateIndex);
  }

  /** Process batches until the queue is empty. */
  function Drained(milli: Milli, indexes: Indexes, queue: seq<Queued>, autobatching: bool): Indexes
    requires ValidQueue(queue)
    decreases |queue|
  {
    if queue == [] then indexes
    else
      var s := NextBatch(indexes, queue, autobatching);
      ScheduledIds(indexes, queue, autobatching);
      WithoutKeepsOrder(queue, s.batch.Ids());
      Drained(milli, ProcessBatch(milli, indexes, s.batch), Without(queue, s.batch.Ids()), autobatching)
  }
}
