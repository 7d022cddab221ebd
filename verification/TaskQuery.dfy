/**
 Queries on tasks, and what they mean: a scan of all the tasks, each as it is shown.

 `IndexScheduler.GetTaskIds` answers the same queries from the secondary databases.
*/
module TaskQuery {
  import opened Wrappers
  import opened Tasks
  import opened Bitmaps
  import opened TaskQueue

  datatype Query = Query(
    limit: Option<nat>,
    from: Option<TaskId>,
    statuses: Option<seq<Status>>,
    types: Option<seq<Kind>>,
    indexUids: Option<seq<string>>,
    uids: Option<seq<TaskId>>,
    canceledBy: Option<seq<TaskId>>,
    beforeEnqueuedAt: Option<Date>,
    afterEnqueuedAt: Option<Date>,
    beforeStartedAt: Option<Date>,
    afterStartedAt: Option<Date>,
    beforeFinishedAt: Option<Date>,
    afterFinishedAt: Option<Date>)

  /** A task as it is shown: one that is being processed shows the date of the current tick. */
  function Shown(s: State, id: TaskId): Task
    requires id in s.tasks
  {
    if id in s.processing then s.tasks[id].(status := Processing, startedAt := Some(s.startedAt)) else s.tasks[id]
  }

  /** Both bounds are exclusive. */
  predicate Within(after: Option<Date>, before: Option<Date>, date: Date) {
    (after.Some? ==> after.value < date) && (before.Some? ==> date < before.value)
  }

  /** A date that is not set passes only a filter with no bound. */
  predicate DateMatches(after: Option<Date>, before: Option<Date>, date: Option<Date>) {
    (after.None? && before.None?) || (date.Some? && Within(after, before, date.value))
  }

  predicate StatusMatches(statuses: Option<seq<Status>>, t: Task) {
    statuses.Some? ==> t.status in statuses.value
  }

  predicate UidMatches(uids: Option<seq<TaskId>>, id: TaskId) {
    uids.Some? ==> id in uids.value
  }

  predicate CanceledByMatches(cancelers: Option<seq<TaskId>>, t: Task) {
    cancelers.Some? ==> t.canceledBy.Some? && t.canceledBy.value in cancelers.value
  }

  predicate TypeMatches(types: Option<seq<Kind>>, t: Task) {
    types.Some? ==> t.kind.AsKind() in types.value
  }

  predicate IndexMatches(names: Option<seq<string>>, t: Task) {
    names.Some? ==> exists name <- names.value :: name in t.kind.Indexes()
  }

  predicate Matches(q: Query, id: TaskId, t: Task) {
    && (q.from.Some? ==> id <= q.from.value)
    && StatusMatches(q.statuses, t)
    && UidMatches(q.uids, id)
    && CanceledByMatches(q.canceledBy, t)
    && TypeMatches(q.types, t)
    && IndexMatches(q.indexUids, t)
    && DateMatches(q.afterStartedAt, q.beforeStartedAt, t.startedAt)
    && DateMatches(q.afterEnqueuedAt, q.beforeEnqueuedAt, Some(t.enqueuedAt))
    && DateMatches(q.afterFinishedAt, q.beforeFinishedAt, t.finishedAt)
  }

  /** The ids of the tasks that satisfy every given filter, whatever their number. */
  function Scan(s: State, q: Query): set<TaskId> {
    set id | id in s.tasks && Matches(q, id, Shown(s, id))
  }

  /** The largest ids, up to the limit. */
  function Cut(limit: Option<nat>, ids: set<TaskId>): set<TaskId> {
    if limit.Some? then TakeLargest(ids, limit.value) else ids
  }

  /** `from` is meant inclusive, but its bound saturates. */
  function FromBound(from: TaskId): TaskId {
    if from >= MAX_TASK_ID then MAX_TASK_ID else from + 1
  }

  /** The one id that a query loses: the very last, when `from` asks for it. */
  function Lost(q: Query): set<TaskId> {
    if q.from.Some? && q.from.value >= MAX_TASK_ID then {MAX_TASK_ID} else {}
  }

  /** What a bitmap cut at the saturating bound keeps. */
  lemma FromBoundKeeps(q: Query, id: TaskId)
    requires q.from.Some? && id <= MAX_TASK_ID
    ensures id < FromBound(q.from.value) <==> id <= q.from.value && id !in Lost(q)
  {
  }

  /** The largest id comes first in a cut that is not empty. */
  lemma LargestIsTaken(ids: set<TaskId>, last: TaskId, limit: Option<nat>)
    requires last in ids && forall id <- ids :: id <= last
    ensures last in Cut(limit, ids) <==> limit != Some(0)
  {
    hide TakeLargest;
    if limit.Some? && limit.value > 0 && last !in TakeLargest(ids, limit.value) {
      var taken := TakeLargest(ids, limit.value);
      assert taken != {} by {
        assert {last} <= ids;
        SubsetCardinality({last}, ids);
      }
      var x :| x in taken;
      AboveAt(taken, ids - taken, x, last);
    }
  }

  /**
   A query is answered in full unless it asks, with room for one answer, from the very last id, and
   a task with that id is stored and matches as it is shown.
  */
  lemma AnsweredInFull(s: State, q: Query)
    requires forall id <- s.tasks :: id <= MAX_TASK_ID
    ensures Cut(q.limit, Scan(s, q) - Lost(q)) == Cut(q.limit, Scan(s, q)) <==>
      !(&& q.from.Some? && q.from.value >= MAX_TASK_ID && q.limit != Some(0)
        && MAX_TASK_ID in s.tasks && Matches(q, MAX_TASK_ID, Shown(s, MAX_TASK_ID)))
  {
    hide TakeLargest, Matches, Shown;
    if MAX_TASK_ID in Scan(s, q) {
      LargestIsTaken(Scan(s, q), MAX_TASK_ID, q.limit);
    } else {
      assert Scan(s, q) - Lost(q) == Scan(s, q);
    }
  }

  /** The tasks from `from` down, whatever they are. */
  function From(from: TaskId, limit: Option<nat>): Query {
    Query(limit, Some(from), None, None, None, None, None, None, None, None, None, None, None)
  }

  /** So the last possible task is missing from every list that starts at it. */
  lemma LastTaskIsMissing(s: State, from: TaskId, limit: Option<nat>)
    requires forall id <- s.tasks :: id <= MAX_TASK_ID
    requires MAX_TASK_ID in s.tasks && from >= MAX_TASK_ID && limit != Some(0)
    ensures
      var q := From(from, limit);
      && MAX_TASK_ID in Cut(limit, Scan(s, q)) && MAX_TASK_ID !in Cut(limit, Scan(s, q) - Lost(q))
      && Cut(limit, Scan(s, q) - Lost(q)) != Cut(limit, Scan(s, q))
  {
    hide TakeLargest, Shown;
    AnsweredInFull(s, From(from, limit));
    LargestIsTaken(Scan(s, From(from, limit)), MAX_TASK_ID, limit);
  }
}
