/**
 Secondary databases: bitmaps of task ids by status, kind, index, canceling task and date.

 A database is exact when each bitmap holds the tasks that have its key, and no other; an entry
 that is not stored counts as empty.
*/
module InverseMaps {
  import opened Wrappers
  import opened Tasks
  import opened TaskQueue

  function Entry<K>(db: map<K, set<TaskId>>, k: K): set<TaskId> {
    if k in db then db[k] else {}
  }

  ghost predicate Exact<K(!new)>(tasks: TaskMap, db: map<K, set<TaskId>>, keys: Task -> set<K>) {
    forall k, id :: id in Entry(db, k) <==> id in tasks && k in keys(tasks[id])
  }

  /** Some databases drop an entry as soon as its bitmap is empty. */
  predicate NoneEmpty<K>(db: map<K, set<TaskId>>) {
    forall k <- db :: db[k] != {}
  }

  function StatusOf(t: Task): set<Status> { {t.status} }

  function KindOf(t: Task): set<Kind> { {t.kind.AsKind()} }

  function IndexesOf(t: Task): set<string> { t.kind.Indexes() }

  function CanceledByOf(t: Task): set<TaskId> { if t.canceledBy.Some? then {t.canceledBy.value} else {} }

  function EnqueuedAtOf(t: Task): set<Date> { {t.enqueuedAt} }

  function StartedAtOf(t: Task): set<Date> { if t.startedAt.Some? then {t.startedAt.value} else {} }

  function FinishedAtOf(t: Task): set<Date> { if t.finishedAt.Some? then {t.finishedAt.value} else {} }

  /** A bitmap with one more id. */
  function Inserted<K>(db: map<K, set<TaskId>>, k: K, id: TaskId): map<K, set<TaskId>> {
    db[k := Entry(db, k) + {id}]
  }

  /** A bitmap with one id less; an entry left empty is deleted. */
  function Deleted<K>(db: map<K, set<TaskId>>, k: K, id: TaskId): map<K, set<TaskId>> {
    if k !in db then db
    else if db[k] - {id} == {} then db - {k}
    else db[k := db[k] - {id}]
  }

  /** The bitmaps of some keys lose and gain ids; the others stay as they are. */
  ghost predicate Rewritten<K(!new)>(
    before: map<K, set<TaskId>>, after: map<K, set<TaskId>>, ks: set<K>, remove: set<TaskId>, insert: set<TaskId>)
  {
    && (forall k <- ks :: Entry(after, k) == Entry(before, k) - remove + insert)
    && (forall k | k !in ks :: Entry(after, k) == Entry(before, k))
  }

  lemma RewrittenNone<K(!new)>(db: map<K, set<TaskId>>, remove: set<TaskId>, insert: set<TaskId>)
    ensures Rewritten(db, db, {}, remove, insert)
  {
  }

  lemma RewrittenMore<K(!new)>(
    before: map<K, set<TaskId>>, mid: map<K, set<TaskId>>, after: map<K, set<TaskId>>, ks: set<K>, k: K,
    remove: set<TaskId>, insert: set<TaskId>)
    requires Rewritten(before, mid, ks, remove, insert) && k !in ks && Rewritten(mid, after, {k}, remove, insert)
    ensures Rewritten(before, after, ks + {k}, remove, insert)
  {
  }

  /** Storing one record keeps a database exact when only that record's membership changed, as its keys say. */
  lemma ExactStored<K(!new)>(
    tasks: TaskMap, db: map<K, set<TaskId>>, keys: Task -> set<K>, t: Task, after: map<K, set<TaskId>>)
    requires Exact(tasks, db, keys)
    requires forall k, id :: id != t.uid ==> (id in Entry(after, k) <==> id in Entry(db, k))
    requires forall k :: t.uid in Entry(after, k) <==> k in keys(t)
    ensures Exact(tasks[t.uid := t], after, keys)
  {
  }

  /** A record that moves from one key to another. */
  lemma ExactMoved<K(!new)>(
    tasks: TaskMap, db: map<K, set<TaskId>>, mid: map<K, set<TaskId>>, after: map<K, set<TaskId>>, keys: Task -> set<K>,
    t: Task, from: K, to: K)
    requires Exact(tasks, db, keys) && t.uid in tasks && keys(tasks[t.uid]) == {from} && keys(t) == {to} && from != to
    requires Rewritten(db, mid, {from}, {t.uid}, {}) && Rewritten(mid, after, {to}, {}, {t.uid})
    ensures Exact(tasks[t.uid := t], after, keys)
  {
    forall k
      ensures t.uid in Entry(after, k) <==> k in keys(t)
    {
      ExactAt(tasks, db, keys, k, t.uid);
    }
    ExactStored(tasks, db, keys, t, after);
  }

  /** A record that gets its first key. */
  lemma ExactGained<K(!new)>(tasks: TaskMap, db: map<K, set<TaskId>>, keys: Task -> set<K>, t: Task, to: K)
    requires Exact(tasks, db, keys) && (t.uid in tasks ==> keys(tasks[t.uid]) == {}) && keys(t) == {to}
    ensures Exact(tasks[t.uid := t], Inserted(db, to, t.uid), keys)
    ensures NoneEmpty(db) ==> NoneEmpty(Inserted(db, to, t.uid))
  {
    forall k
      ensures t.uid in Entry(Inserted(db, to, t.uid), k) <==> k in keys(t)
    {
      ExactAt(tasks, db, keys, k, t.uid);
    }
    ExactStored(tasks, db, keys, t, Inserted(db, to, t.uid));
  }

  /** A new record, put in the bitmap of each of its keys. */
  lemma ExactAdded<K(!new)>(
    tasks: TaskMap, db: map<K, set<TaskId>>, after: map<K, set<TaskId>>, keys: Task -> set<K>, t: Task)
    requires Exact(tasks, db, keys) && t.uid !in tasks && Rewritten(db, after, keys(t), {}, {t.uid})
    ensures Exact(tasks[t.uid := t], after, keys)
  {
    forall k
      ensures t.uid in Entry(after, k) <==> k in keys(t)
    {
      ExactAt(tasks, db, keys, k, t.uid);
    }
    ExactStored(tasks, db, keys, t, after);
  }

  /** A record that leaves the bitmap of its one key. */
  lemma ExactLost<K(!new)>(tasks: TaskMap, db: map<K, set<TaskId>>, keys: Task -> set<K>, id: TaskId, from: K)
    requires Exact(tasks, db, keys) && id in tasks && keys(tasks[id]) == {from}
    ensures Exact(tasks - {id}, Deleted(db, from, id), keys)
    ensures NoneEmpty(db) ==> NoneEmpty(Deleted(db, from, id))
  {
    forall k
      ensures Entry(Deleted(db, from, id), k) == Entry(db, k) - {id}
    {
      ExactAt(tasks, db, keys, k, id);
    }
    ExactRemoved(tasks, db, keys, {id}, Deleted(db, from, id));
  }

  lemma ExactKept<K(!new)>(tasks: TaskMap, db: map<K, set<TaskId>>, keys: Task -> set<K>, t: Task)
    requires Exact(tasks, db, keys)
    requires if t.uid in tasks then keys(tasks[t.uid]) == keys(t) else keys(t) == {}
    ensures Exact(tasks[t.uid := t], db, keys)
  {
    forall k
      ensures t.uid in Entry(db, k) <==> k in keys(t)
    {
      ExactAt(tasks, db, keys, k, t.uid);
    }
    ExactStored(tasks, db, keys, t, db);
  }

  /** A record may change where the keys do not. */
  lemma ExactSameKeys<K(!new)>(tasks: TaskMap, after: TaskMap, db: map<K, set<TaskId>>, keys: Task -> set<K>)
    requires Exact(tasks, db, keys) && after.Keys == tasks.Keys
    requires forall id <- tasks :: keys(after[id]) == keys(tasks[id])
    ensures Exact(after, db, keys)
  {
    forall k, id
      ensures id in Entry(db, k) <==> id in after && k in keys(after[id])
    {
      assert id in after <==> id in after.Keys;
    }
  }

  /** A record that has no key leaves no trace. */
  lemma ExactDropped<K(!new)>(tasks: TaskMap, db: map<K, set<TaskId>>, keys: Task -> set<K>, id: TaskId)
    requires Exact(tasks, db, keys) && id in tasks && keys(tasks[id]) == {}
    ensures Exact(tasks - {id}, db, keys)
  {
    forall k
      ensures id !in Entry(db, k)
    {
      ExactAt(tasks, db, keys, k, id);
    }
    ExactRemoved(tasks, db, keys, {id}, db);
  }

  /** Several records get the same first key at once. */
  lemma ExactGroup<K(!new)>(
    tasks: TaskMap, after: TaskMap, db: map<K, set<TaskId>>, keys: Task -> set<K>, to: K, ids: set<TaskId>)
    requires Exact(tasks, db, keys) && after.Keys == tasks.Keys && Entry(db, to) == {} && ids <= tasks.Keys
    requires forall id <- ids :: keys(tasks[id]) == {} && keys(after[id]) == {to}
    requires forall id <- tasks :: id !in ids ==> keys(after[id]) == keys(tasks[id])
    ensures Exact(after, db[to := ids], keys)
  {
    var put := db[to := ids];
    forall k, id: TaskId
      ensures id in Entry(put, k) <==> id in after && k in keys(after[id])
    {
      assert id in after <==> id in after.Keys;
      ExactAt(tasks, db, keys, k, id);
      ExactAt(tasks, db, keys, to, id);
    }
  }

  lemma ExactRemoved<K(!new)>(
    tasks: TaskMap, db: map<K, set<TaskId>>, keys: Task -> set<K>, removed: set<TaskId>, after: map<K, set<TaskId>>)
    requires Exact(tasks, db, keys)
    requires forall k :: Entry(after, k) == Entry(db, k) - removed
    ensures Exact(tasks - removed, after, keys)
  {
  }

  /** Records removed from the bitmaps of all the keys they have. */
  lemma ExactCleared<K(!new)>(
    tasks: TaskMap, db: map<K, set<TaskId>>, after: map<K, set<TaskId>>, keys: Task -> set<K>, removed: set<TaskId>, ks: set<K>)
    requires Exact(tasks, db, keys) && Rewritten(db, after, ks, removed, {})
    requires forall id | id in removed && id in tasks :: keys(tasks[id]) <= ks
    ensures Exact(tasks - removed, after, keys)
  {
    forall k
      ensures Entry(after, k) == Entry(db, k) - removed
    {
      if k !in ks {
        forall id | id in removed
          ensures id !in Entry(db, k)
        {
          ExactAt(tasks, db, keys, k, id);
        }
      }
    }
    ExactRemoved(tasks, db, keys, removed, after);
  }

  lemma ExactAt<K(!new)>(tasks: TaskMap, db: map<K, set<TaskId>>, keys: Task -> set<K>, k: K, id: TaskId)
    requires Exact(tasks, db, keys)
    ensures id in Entry(db, k) <==> id in tasks && k in keys(tasks[id])
  {
  }

  lemma StatusEntry(tasks: TaskMap, db: map<Status, set<TaskId>>, status: Status)
    requires Exact(tasks, db, StatusOf)
    ensures Entry(db, status) == WithStatus(tasks, status)
  {
  }

  lemma KindEntry(tasks: TaskMap, db: map<Kind, set<TaskId>>, kind: Kind, ids: set<TaskId>)
    requires Exact(tasks, db, KindOf) && ids <= tasks.Keys
    ensures Entry(db, kind) * ids == OfKind(tasks, ids, kind)
  {
    forall id
      ensures id in Entry(db, kind) * ids <==> id in OfKind(tasks, ids, kind)
    {
      ExactAt(tasks, db, KindOf, kind, id);
    }
  }

  /** Every task is in exactly one status bitmap. */
  lemma StatusesPartition(tasks: TaskMap, db: map<Status, set<TaskId>>)
    requires Exact(tasks, db, StatusOf)
    ensures
      Entry(db, Enqueued) + Entry(db, Processing) + Entry(db, Succeeded) + Entry(db, Failed) + Entry(db, Canceled)
      == tasks.Keys
    ensures forall a, b | a != b :: Entry(db, a) !! Entry(db, b)
  {
    hide Exact, Entry;
    forall status: Status
      ensures Entry(db, status) == WithStatus(tasks, status)
    {
      StatusEntry(tasks, db, status);
    }
    assert forall id <- tasks :: id in WithStatus(tasks, tasks[id].status);
  }
}
