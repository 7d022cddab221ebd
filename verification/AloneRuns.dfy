/**
 With autobatching off, processing a batch is executing its single task.
*/
module AloneRuns {
  import opened Wrappers
  import opened Tasks
  import opened Settings
  import opened Autobatcher
  import opened BatchShape
  import opened Indexing
  import opened SlotRuns
  import opened BatchEquivalence
  import opened Queue
  import opened Independence

  /** Processing a batch of one index changes the slot of that index only. */
  lemma ProcessIsLocal(milli: Milli, indexes: Indexes, batch: IndexBatch, name: string)
    requires !batch.IndexSwap? && batch.indexUid == name
    ensures ProcessBatch(milli, indexes, batch) == Put(indexes, name, ProcessSlot(milli, Get(indexes, name), batch))
  {
    hide ApplyIndexOperation, SetPrimaryKey;
  }

  /** The index name written in a batch is the one it was made for. */
  lemma BatchName(tasks: map<TaskId, KindWithContent>, name: string, final: BatchKind, p: seq<Queued>, create: bool)
    requires Summarises(final, p) && Stored(tasks, p) && Buildable(tasks, final) && !final.IndexSwap?
    requires forall t <- p :: !t.kind.IndexSwaps? && !t.kind.IsPrioritised() && t.kind.indexUid == name
    ensures !CreateNextBatchIndex(tasks, name, final, create).IndexSwap?
    ensures CreateNextBatchIndex(tasks, name, final, create).indexUid == name
  {
    hide Docs, Setts, Ids, EndsCleared, LastKey, Operations, NewSettings, DeletedDocuments, FirstImport;
    if |p| == 1 {
      assert p[0] in p;
    }
  }

  lemma Lists(tasks: map<TaskId, KindWithContent>, id: TaskId, documents: Documents)
    requires id in tasks
    ensures [id][..0] == []
    ensures tasks[id].DocumentAdditionOrUpdate? || tasks[id].DocumentDeletion? ==>
              && KnownOperations(tasks, [id]) && Operations(tasks, [id]) == [OperationOf(tasks[id])]
    ensures tasks[id].DocumentAdditionOrUpdate? ==> FirstImportKey(tasks, [id]) == tasks[id].primaryKey
    ensures tasks[id].DocumentDeletion? ==>
              && KnownDeletions(tasks, [id]) && Flatten(DeletedDocuments(tasks, [id])) == tasks[id].documentsIds
    ensures tasks[id].SettingsUpdate? ==> KnownSettings(tasks, [id]) && NewSettings(tasks, [id]) == [tasks[id].newSettings]
  {
    assert [id][..0] == [];
    if tasks[id].DocumentAdditionOrUpdate? {
      assert FirstImport(tasks, [id][..0]) == None;
    }
    if tasks[id].DocumentDeletion? {
      FlattenSnoc([], tasks[id].documentsIds);
      assert [] + [tasks[id].documentsIds] == [tasks[id].documentsIds];
      assert DeletedDocuments(tasks, [id]) == [tasks[id].documentsIds];
    }
  }

  /** A batch of one task does to its slot exactly what the task does, key included. */
  lemma AloneSlot(milli: Milli, tasks: map<TaskId, KindWithContent>, name: string, slot: Slot, t: Queued)
    requires !t.kind.IsPrioritised() && !t.kind.IndexSwaps? && Stored(tasks, [t])
    requires
      Summarises(New(t.id, t.kind, KeyOf(slot)).0.batch, [t]) && Buildable(tasks, New(t.id, t.kind, KeyOf(slot)).0.batch)
    ensures
      var (flow, create) := New(t.id, t.kind, KeyOf(slot));
      && !flow.batch.IndexSwap?
      && ProcessSlot(milli, slot, CreateNextBatchIndex(tasks, name, flow.batch, create)) == Effect(milli, slot, t.kind)
  {
    hide Operations, NewSettings, DeletedDocuments, FirstImport, FirstImportKey, ApplyOperations, AllWrites, Execute, Flatten;
    hide Summarises;
    assert t in [t];
    Lists(tasks, t.id, map[]);
  }

  /** The schedule of a single task. */
  lemma ScheduleAlone(indexes: Indexes, name: string, t: Queued)
    requires !t.kind.IsPrioritised()
    ensures t in [t]
    ensures
      var s := Schedule(indexes, name, [t]);
      var (flow, create) := New(t.id, t.kind, KeyOf(Get(indexes, name)));
      && s.taken == [t] && s.kind == flow.batch
      && Stored(KindsOf([t]), [t]) && Buildable(KindsOf([t]), s.kind)
      && Summarises(s.kind, [t])
      && s.batch == CreateNextBatchIndex(KindsOf([t]), name, flow.batch, create)
  {
    hide CreateNextBatchIndex, Buildable, Summarises, KeyRun, Accumulate, FromKind, New, KindsOf, Stored;
    ScheduleIds(indexes, name, [t]);
    NewSummary(t, KeyOf(Get(indexes, name)));
    var s := Schedule(indexes, name, [t]);
    assert |s.taken| == 1 && [t][..1] == [t];
    assert [t][1..] == [];
  }

  lemma NewIds(t: Queued, key: Option<string>)
    requires !t.kind.IsPrioritised()
    ensures New(t.id, t.kind, key).0.batch.Ids() == [t.id]
    ensures New(t.id, t.kind, key).0.batch.IndexSwap? <==> t.kind.IndexSwaps?
  {
  }

  /** A swap is batched alone, whichever of its names it was scheduled by. */
  lemma SwapAlone(indexes: Indexes, name: string, t: Queued)
    requires t.kind.IndexSwaps?
    ensures Schedule(indexes, name, [t]).batch == IndexBatch.IndexSwap(t.kind.swaps, t.id)
  {
    hide Buildable, Summarises, Schedule;
    ScheduleAlone(indexes, name, t);
  }

  lemma OneIndexAlone(milli: Milli, indexes: Indexes, name: string, t: Queued)
    requires !t.kind.IsPrioritised() && !t.kind.IndexSwaps? && t.kind.indexUid == name
    ensures ProcessBatch(milli, indexes, Schedule(indexes, name, [t]).batch) == Execute1(milli, indexes, t.kind)
  {
    hide CreateNextBatchIndex, Buildable, Summarises, Effect, New, ProcessSlot, ProcessBatch;
    ScheduleAlone(indexes, name, t);
    NewIds(t, KeyOf(Get(indexes, name)));
    var (flow, create) := New(t.id, t.kind, KeyOf(Get(indexes, name)));
    AloneSlot(milli, KindsOf([t]), name, Get(indexes, name), t);
    BatchName(KindsOf([t]), name, flow.batch, [t], create);
    ProcessIsLocal(milli, indexes, CreateNextBatchIndex(KindsOf([t]), name, flow.batch, create), name);
  }

  /** With autobatching off a batch is one task, and processing it is executing that task. */
  lemma AloneIsExecute(milli: Milli, indexes: Indexes, queue: seq<Queued>)
    requires queue != [] && ValidQueue(queue)
    ensures !queue[0].kind.IsPrioritised()
    ensures
      var s := NextBatch(indexes, queue, false);
      && s.batch.Ids() == [queue[0].id]
      && ProcessBatch(milli, indexes, s.batch) == Execute1(milli, indexes, queue[0].kind)
  {
    hide CreateNextBatchIndex, Buildable, Summarises, Effect, New, Schedule;
    var t := queue[0];
    assert t in queue;
    if t.kind.Indexes() == {} {
      assert SwapNames(t.kind.swaps) == {};
    } else {
      var name := IndexName(t.kind);
      assert OnIndex(queue, name)[..1] == [t];
      AloneIds(indexes, name, t);
      if t.kind.IndexSwaps? {
        SwapAlone(indexes, name, t);
      } else {
        OneIndexAlone(milli, indexes, name, t);
      }
    }
  }

  lemma AloneIds(indexes: Indexes, name: string, t: Queued)
    requires !t.kind.IsPrioritised()
    ensures Schedule(indexes, name, [t]).batch.Ids() == [t.id]
  {
    hide CreateNextBatchIndex, Buildable, Summarises;
    ScheduleAlone(indexes, name, t);
    var (flow, create) := New(t.id, t.kind, KeyOf(Get(indexes, name)));
    BuiltIds(KindsOf([t]), name, flow.batch, create);
    NewIds(t, KeyOf(Get(indexes, name)));
  }
}
