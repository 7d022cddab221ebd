/**
 What a query asks for, filter by filter, and that its answer is exactly that.
*/
module QueryMeaning {
  import opened Wrappers
  import opened Tasks
  import opened Bitmaps
  import opened TaskQueue
  import opened TaskQuery

  /** The tasks that belong to a type: the three ways of deleting documents are one type. */
  predicate IsOfType(kind: KindWithContent, t: Kind) {
    match t
    case DocumentAdditionOrUpdate => kind.DocumentAdditionOrUpdate?
    case DocumentDeletion => kind.DocumentDeletion? || kind.DocumentDeletionByFilter? || kind.DocumentClear?
    case SettingsUpdate => kind.SettingsUpdate?
    case IndexCreation => kind.IndexCreation?
    case IndexDeletion => kind.IndexDeletion?
    case IndexUpdate => kind.IndexUpdate?
    case IndexSwap => kind.IndexSwaps?
    case TaskCancelation => kind.TaskCancelation?
    case TaskDeletion => kind.TaskDeletion?
    case DumpCreation => kind.DumpCreation?
    case SnapshotCreation => kind.SnapshotCreation?
  }

  /** The names a task is about: its index, or the names it swaps. */
  predicate Mentions(kind: KindWithContent, name: string) {
    if kind.IndexSwaps? then exists swap <- kind.swaps :: swap.lhs == name || swap.rhs == name
    else !kind.TaskCancelation? && !kind.TaskDeletion? && !kind.DumpCreation? && !kind.SnapshotCreation? && kind.indexUid == name
  }

  /** A task of the batch in flight is processing since the tick began, whatever is stored of it. */
  predicate HasStatus(s: State, id: TaskId, status: Status)
    requires id in s.tasks
  {
    if id in s.processing then status.Processing? else s.tasks[id].status == status
  }

  function StartDate(s: State, id: TaskId): Option<Date>
    requires id in s.tasks
  {
    if id in s.processing then Some(s.startedAt) else s.tasks[id].startedAt
  }

  /** Strictly after one date and strictly before another; without bounds even a date not set will do. */
  predicate Between(after: Option<Date>, before: Option<Date>, date: Option<Date>) {
    && (after.Some? ==> date.Some? && after.value < date.value)
    && (before.Some? ==> date.Some? && date.value < before.value)
  }

  predicate Asked(s: State, q: Query, id: TaskId) {
    && id in s.tasks
    && (q.from.Some? ==> id <= q.from.value)
    && (q.uids.Some? ==> id in q.uids.value)
    && (q.statuses.Some? ==> exists status <- q.statuses.value :: HasStatus(s, id, status))
    && (q.types.Some? ==> exists t <- q.types.value :: IsOfType(s.tasks[id].kind, t))
    && (q.indexUids.Some? ==> exists name <- q.indexUids.value :: Mentions(s.tasks[id].kind, name))
    && (q.canceledBy.Some? ==> exists c <- q.canceledBy.value :: s.tasks[id].canceledBy == Some(c))
    && Between(q.afterEnqueuedAt, q.beforeEnqueuedAt, Some(s.tasks[id].enqueuedAt))
    && Between(q.afterStartedAt, q.beforeStartedAt, StartDate(s, id))
    && Between(q.afterFinishedAt, q.beforeFinishedAt, s.tasks[id].finishedAt)
  }

  /** Asked for, and not the last possible id when the query starts from there. */
  predicate Found(s: State, q: Query, id: TaskId) {
    Asked(s, q, id) && !(id == MAX_TASK_ID && q.from.Some? && q.from.value >= MAX_TASK_ID)
  }

  /** The answer: what is found, or as many of the largest ids as the limit allows. */
  ghost predicate Answers(s: State, q: Query, ids: set<TaskId>) {
    && (forall id <- ids :: Found(s, q, id))
    && (q.limit.Some? ==> |ids| <= q.limit.value)
    && (forall id: TaskId | Found(s, q, id) && id !in ids ::
          q.limit.Some? && |ids| == q.limit.value && forall other <- ids :: id < other)
  }

  lemma TypeExactly(kind: KindWithContent, t: Kind)
    ensures kind.AsKind() == t <==> IsOfType(kind, t)
  {
  }

  lemma {:induction false} SwapMentions(swaps: seq<IndexSwap>, name: string)
    ensures name in SwapNames(swaps) <==> exists swap <- swaps :: swap.lhs == name || swap.rhs == name
  {
    if swaps != [] {
      assert swaps == [swaps[0]] + swaps[1..];
      SwapMentions(swaps[1..], name);
    }
  }

  lemma IndexesExactly(kind: KindWithContent, name: string)
    ensures name in kind.Indexes() <==> Mentions(kind, name)
  {
    if kind.IndexSwaps? {
      SwapMentions(kind.swaps, name);
    }
  }

  lemma AskedExactly(s: State, q: Query, id: TaskId)
    ensures id in Scan(s, q) <==> Asked(s, q, id)
  {
    hide KindWithContent.AsKind, KindWithContent.Indexes, IsOfType, Mentions;
    if id in s.tasks {
      var t := s.tasks[id];
      assert Shown(s, id).kind == t.kind;
      assert TypeMatches(q.types, t) <==> (q.types.Some? ==> exists k <- q.types.value :: IsOfType(t.kind, k)) by {
        forall k: Kind
          ensures t.kind.AsKind() == k <==> IsOfType(t.kind, k)
        {
          TypeExactly(t.kind, k);
        }
      }
      assert IndexMatches(q.indexUids, t) <==> (q.indexUids.Some? ==> exists n <- q.indexUids.value :: Mentions(t.kind, n)) by {
        forall n: string
          ensures n in t.kind.Indexes() <==> Mentions(t.kind, n)
        {
          IndexesExactly(t.kind, n);
        }
      }
      StatusAsked(s, q, id);
    }
  }

  lemma StatusAsked(s: State, q: Query, id: TaskId)
    requires id in s.tasks
    ensures StatusMatches(q.statuses, Shown(s, id))
       <==> (q.statuses.Some? ==> exists status <- q.statuses.value :: HasStatus(s, id, status))
  {
    if q.statuses.Some? {
      forall status: Status
        ensures Shown(s, id).status == status <==> HasStatus(s, id, status)
      {
      }
    }
  }

  /** The scan, cut and without what is lost, answers the query. */
  lemma AnswersExactly(s: State, q: Query)
    ensures Answers(s, q, Cut(q.limit, Scan(s, q) - Lost(q)))
  {
    hide Scan, Asked, TakeLargest;
    var all := Scan(s, q) - Lost(q);
    var ids := Cut(q.limit, all);
    forall id: TaskId
      ensures id in all <==> Found(s, q, id)
    {
      AskedExactly(s, q, id);
    }
    forall id: TaskId | Found(s, q, id) && id !in ids
      ensures q.limit.Some? && |ids| == q.limit.value && forall other <- ids :: id < other
    {
      assert id in all;
      if q.limit.Some? {
        if |all| <= q.limit.value {
          SubsetCardinality(ids, all);
        }
        forall other <- ids
          ensures id < other
        {
          AboveAt(ids, all - ids, other, id);
        }
      }
    }
  }
}
