/**
 When the hypotheses of `BatchingPreservesMeaning` hold, and queues for which the claim fails.
*/
module DrainCorollaries {
  import opened Wrappers
  import opened Tasks
  import opened Settings
  import opened Autobatcher
  import opened BatchShape
  import opened Indexing
  import opened SlotRuns
  import opened BatchEquivalence
  import opened BatchKeys
  import opened Queue
  import opened Independence
  import opened AloneRuns
  import opened Drain
  import opened DrainTheorem

  /** Every import brings a file that milli accepts and that holds a document. */
  predicate ImportsAdd(milli: Milli, p: seq<Queued>) {
    forall t <- p :: IsImport(t) ==> AddsDocuments(milli, OperationOf(t.kind))
  }

  lemma {:induction false} SomeImport(p: seq<Queued>)
    requires LastKey(p).Some?
    ensures exists t <- p :: IsImport(t)
  {
    var t := p[|p| - 1];
    assert t in p;
    if !IsImport(t) {
      SomeImport(p[..|p| - 1]);
    }
  }

  lemma {:induction false} OperationsContain(p: seq<Queued>)
    requires forall t <- p :: IsImport(t) || t.kind.DocumentDeletion?
    ensures forall t <- p ::
              (IsImport(t) || t.kind.DocumentDeletion?) && OperationOf(t.kind) in OperationsOf(p)
  {
    if p != [] {
      var q, t := p[..|p| - 1], p[|p| - 1];
      assert p == q + [t];
      OperationsContain(q);
      OperationsSnoc(q, t);
    }
  }

  /** When keys are stable the first import of a batch declares the key of the index. */
  lemma StableKeysDoNotClash(milli: Milli, w: World, p: seq<Queued>, name: string)
    requires AllPlain(p) && OnlyOn(p, name) && p != [] && KeysStable(milli, w, p) && KeysBelow(w.indexes, w.declared)
    requires name in w.indexes
    ensures !Clashes(p, w.indexes[name].primaryKey)
  {
    hide FirstKey, KeysStable, AdvanceAll;
    DeclaredRun(milli, w, p, name);
    assert KeyBelow(Get(w.indexes, name), Get(w.declared, name));
  }

  lemma AddingImportsDropNothing(milli: Milli, p: seq<Queued>)
    requires ImportsAdd(milli, p) && LastKey(p).Some?
    requires forall t <- Docs(p) :: IsImport(t) || t.kind.DocumentDeletion?
    ensures !DropsDeletions(milli, OperationsOf(Docs(p)))
  {
    hide Docs, LastKey, OperationsOf;
    SomeImport(p);
    var t :| t in p && IsImport(t);
    DocsHold(p);
    OperationsContain(Docs(p));
    assert OperationOf(t.kind) in OperationsOf(Docs(p));
  }

  lemma LosslessBatch(milli: Milli, w: World, final: BatchKind, p: seq<Queued>, name: string)
    requires Summarises(final, p) && ImportsAdd(milli, p)
    requires OnlyOn(p, name) && p != [] && KeysStable(milli, w, p) && KeysBelow(w.indexes, w.declared)
    requires name in w.indexes
    ensures Lossless(milli, w.indexes[name], final, p)
  {
    hide Docs, Setts, Ids, EndsCleared, LastKey, FirstKey, KeysStable, OperationsOf, DropsDeletions, Clashes;
    if final.DocumentOperation? || final.SettingsAndDocumentOperation? {
      StableKeysDoNotClash(milli, w, p, name);
      if forall t <- Docs(p) :: IsImport(t) || t.kind.DocumentDeletion? {
        AddingImportsDropNothing(milli, p);
      }
    }
  }

  lemma ScheduledLossless(milli: Milli, w: World, queue: seq<Queued>)
    requires ValidQueue(queue) && queue != [] && KeysStable(milli, w, queue) && KeysBelow(w.indexes, w.declared)
    requires ImportsAdd(milli, queue)
    ensures
      var s := NextBatch(w.indexes, queue, true);
      s.name in w.indexes ==> Lossless(milli, w.indexes[s.name], s.kind, s.taken)
  {
    hide KeysStable, Lossless, Schedule, KeysBelow, OnIndex, Batched, OnlyOn, AdvanceAll;
    var t := queue[0];
    assert t in queue;
    if t.kind.IndexSwaps? {
      SwapKindScheduled(w.indexes, queue);
      var s := NextBatch(w.indexes, queue, true);
      if s.name in w.indexes {
        SwapLossless(milli, w.indexes[s.name], s.kind, s.taken);
      }
    } else {
      DistinctIds(queue);
      var name := IndexName(t.kind);
      var mine := OnIndex(queue, name);
      var s := Schedule(w.indexes, name, mine);
      ScheduleIds(w.indexes, name, mine);
      ScheduledOnly(w.indexes, queue, name);
      SummaryOf(s.kind, s.taken, Get(w.indexes, name));
      SplitBatch(milli, w, queue, name, |s.taken|, s.batch.Ids());
      assert ImportsAdd(milli, s.taken) by {
        assert forall u <- s.taken :: u in mine;
      }
      if name in w.indexes {
        LosslessBatch(milli, w, s.kind, s.taken, name);
      }
      ScheduleName(w.indexes, name, mine);
    }
  }

  lemma ScheduleName(indexes: Indexes, name: string, mine: seq<Queued>)
    requires mine != [] && forall t <- mine :: !t.kind.IsPrioritised()
    requires forall t, u | t in mine && u in mine && t.id == u.id :: t == u
    ensures Schedule(indexes, name, mine).name == name
  {
  }

  lemma SwapLossless(milli: Milli, index: Index, final: BatchKind, p: seq<Queued>)
    requires final.IndexSwap?
    ensures Lossless(milli, index, final, p)
  {
  }

  lemma SwapKindScheduled(indexes: Indexes, queue: seq<Queued>)
    requires ValidQueue(queue) && queue != [] && queue[0].kind.IndexSwaps?
    ensures NextBatch(indexes, queue, true).kind.IndexSwap?
  {
    hide OnIndex;
    var t := queue[0];
    assert t in queue;
    if t.kind.Indexes() != {} {
      SwapFirst(OnIndex(queue, IndexName(t.kind)), IndexName(t.kind) in indexes, KeyOf(Get(indexes, IndexName(t.kind))));
    }
  }

  lemma {:induction false} LosslessDrain(milli: Milli, w: World, queue: seq<Queued>)
    requires ValidQueue(queue) && KeysStable(milli, w, queue) && KeysBelow(w.indexes, w.declared)
    requires ImportsAdd(milli, queue)
    ensures BatchesLossless(milli, w.indexes, queue)
    decreases |queue|
  {
    if queue != [] {
      hide NextBatch, Lossless, SameIndexes, KeysBelow, AdvanceAll, KeysStable, ProcessBatch, ValidQueue;
      var s := NextBatch(w.indexes, queue, true);
      ScheduledIds(w.indexes, queue, true);
      WithoutKeepsOrder(queue, s.batch.Ids());
      var rest := Without(queue, s.batch.Ids());
      ScheduledLossless(milli, w, queue);
      OneBatch(milli, w, queue);
      var v := AdvanceAll(milli, w, s.taken);
      var after := ProcessBatch(milli, w.indexes, s.batch);
      KeysOfRun(milli, w, s.taken);
      Symmetric(after, v.indexes);
      AdvanceAllSimilar(milli, v.indexes, after, v.declared, rest);
      LosslessDrain(milli, World(after, v.declared), rest);
    }
  }

  /**
   The claim under conditions on the queue alone: every import adds a document, and no two tasks
   declare different keys for an index.
  */
  lemma BatchingPreservesAddingQueues(milli: Milli, indexes: Indexes, declared: map<string, string>, queue: seq<Queued>)
    requires ValidQueue(queue) && KeysBelow(indexes, declared)
    requires KeysStable(milli, World(indexes, declared), queue)
    requires ImportsAdd(milli, queue)
    ensures SameIndexes(Drained(milli, indexes, queue, true), Drained(milli, indexes, queue, false))
  {
    hide KeysStable, SameIndexes, KeysBelow, BatchesLossless;
    LosslessDrain(milli, World(indexes, declared), queue);
    BatchingPreservesMeaning(milli, indexes, declared, queue);
  }

  /** One document `x`, under the key `a`. */
  const ONE_DOCUMENT := Index(map["x" := map[]], map[], Some("a"))

  function DeletionOf(id: TaskId, document: string): Queued {
    Queued(id, KindWithContent.DocumentDeletion("i", [document]))
  }

  function ImportOf(id: TaskId, key: Option<string>, file: Uuid): Queued {
    Queued(id, KindWithContent.DocumentAdditionOrUpdate("i", key, ReplaceDocuments, file, true))
  }

  /** A deletion and an import are one batch, whatever key the import declares. */
  lemma DeletionThenImport(key: Option<string>, file: Uuid, indexKey: Option<string>)
    ensures
      var queue := [DeletionOf(0, "x"), ImportOf(1, key, file)];
      && (forall t <- queue :: !t.kind.IsPrioritised())
      && BatchOf(queue, true, indexKey)
         == Outcome(BatchKind.DocumentOperation(ReplaceDocuments, true, key, [0, 1]), false, 2)
  {
    var queue := [DeletionOf(0, "x"), ImportOf(1, key, file)];
    var first, second := BatchKind.DocumentDeletion([0]), BatchKind.DocumentOperation(ReplaceDocuments, true, key, [0, 1]);
    assert Accumulate(first, 1, FromKind(queue[1].kind), true, indexKey) == Continue(second);
    var rest := queue[1..];
    assert rest[0] == queue[1] && rest[1..] == [];
    assert Fold(second, [], true, indexKey) == (second, 0);
    assert Fold(first, rest, true, indexKey) == (second, 1);
  }

  lemma TwoTasks(milli: Milli, slot: Slot, a: Queued, b: Queued)
    requires OnlyOn([a, b], "i")
    ensures a in [a, b] && b in [a, b]
    ensures Run(milli, slot, [a, b]) == Effect(milli, Effect(milli, slot, a.kind), b.kind)
  {
    assert [a, b][..1] == [a] && [a][..0] == [];
    assert Run(milli, slot, []) == slot;
    assert Run(milli, slot, [a]) == Effect(milli, slot, a.kind);
  }

  /**
   The claim fails when a deletion is followed by an import that declares another key than the one
   of the index: alone, the deletion removes its document; in the batch it is lost with the import.
  */
  lemma ForeignKeyLosesDeletion(milli: Milli, tasks: map<TaskId, KindWithContent>)
    requires Stored(tasks, [DeletionOf(0, "x"), ImportOf(1, Some("b"), 7)])
    ensures
      var queue := [DeletionOf(0, "x"), ImportOf(1, Some("b"), 7)];
      && OneIndexTasks(queue)
      && var o := BatchOf(queue, true, Some("a"));
         && o.taken == 2 && Buildable(tasks, o.batch)
         && var slot := Some(ONE_DOCUMENT);
            && Run(milli, slot, queue).value.documents == map[]
            && ProcessSlot(milli, slot, CreateNextBatchIndex(tasks, "i", o.batch, false)) == slot
  {
    var queue := [DeletionOf(0, "x"), ImportOf(1, Some("b"), 7)];
    DeletionThenImport(Some("b"), 7, Some("a"));
    TwoTasks(milli, Some(ONE_DOCUMENT), queue[0], queue[1]);
    TwoOperations(tasks, Some("b"), 7);
  }

  /**
   It also fails when the import adds no document: the document builder returns before it deletes
   anything.
  */
  lemma EmptyImportLosesDeletion(milli: Milli, tasks: map<TaskId, KindWithContent>)
    requires Stored(tasks, [DeletionOf(0, "x"), ImportOf(1, None, 7)]) && milli.content(7) == Some([])
    ensures
      var queue := [DeletionOf(0, "x"), ImportOf(1, None, 7)];
      && OneIndexTasks(queue)
      && var o := BatchOf(queue, true, Some("a"));
         && o.taken == 2 && Buildable(tasks, o.batch)
         && var slot := Some(ONE_DOCUMENT);
            && Run(milli, slot, queue).value.documents == map[]
            && ProcessSlot(milli, slot, CreateNextBatchIndex(tasks, "i", o.batch, false)) == slot
  {
    var queue := [DeletionOf(0, "x"), ImportOf(1, None, 7)];
    DeletionThenImport(None, 7, Some("a"));
    TwoTasks(milli, Some(ONE_DOCUMENT), queue[0], queue[1]);
    TwoOperations(tasks, None, 7);
    assert Delete(["x"]) in [Delete(["x"]), Add(7)];
  }

  lemma TwoOperations(tasks: map<TaskId, KindWithContent>, key: Option<string>, file: Uuid)
    requires Stored(tasks, [DeletionOf(0, "x"), ImportOf(1, key, file)])
    ensures KnownOperations(tasks, [0, 1])
    ensures Operations(tasks, [0, 1]) == [Delete(["x"]), Add(file)]
    ensures FirstImportKey(tasks, [0, 1]) == key
  {
    var queue := [DeletionOf(0, "x"), ImportOf(1, key, file)];
    assert queue[0] in queue && queue[1] in queue;
    assert [0, 1][..1] == [0] && [0][..0] == [];
    assert Operations(tasks, [0]) == [Delete(["x"])];
    assert FirstImport(tasks, [0]).None?;
  }

  lemma ImportThenClear(key: Option<string>, file: Uuid)
    ensures
      var queue := [ImportOf(0, key, file), Queued(1, KindWithContent.DocumentClear("i"))];
      && (forall t <- queue :: !t.kind.IsPrioritised())
      && BatchOf(queue, false, None) == Outcome(BatchKind.DocumentClear([0, 1]), true, 2)
  {
    var queue := [ImportOf(0, key, file), Queued(1, KindWithContent.DocumentClear("i"))];
    var first, second := BatchKind.DocumentOperation(ReplaceDocuments, true, key, [0]), BatchKind.DocumentClear([0, 1]);
    assert Accumulate(first, 1, FromKind(queue[1].kind), true, None) == Continue(second);
    var rest := queue[1..];
    assert rest[0] == queue[1] && rest[1..] == [];
    assert Fold(second, [], true, None) == (second, 0);
    assert Fold(first, rest, true, None) == (second, 1);
  }

  lemma FirstOfTwo(a: Queued, b: Queued)
    ensures FirstKey([a, b])
         == if IsImport(a) then Some(a.kind.primaryKey) else if IsImport(b) then Some(b.kind.primaryKey) else None
  {
    FirstKeySnoc([], a);
    FirstKeySnoc([a], b);
    assert [] + [a] == [a] && [a] + [b] == [a, b];
  }

  /**
   Stable keys are needed: a clear absorbs the import before it, key included, so that a later
   import with another key is accepted after the batch and refused after the tasks.
  */
  lemma AbsorbedKeyChangesFuture(
    milli: Milli, tasks: map<TaskId, KindWithContent>, key: string, file: Uuid, later: KindWithContent, id: string)
    requires Stored(tasks, [ImportOf(0, Some(key), file), Queued(1, KindWithContent.DocumentClear("i"))])
    requires milli.content(file).Some?
    requires later.DocumentAdditionOrUpdate? && later.primaryKey.Some? && later.primaryKey != Some(key)
    requires milli.content(later.contentFile).Some? && exists entry <- milli.content(later.contentFile).value :: entry.0 == id
    ensures
      var queue := [ImportOf(0, Some(key), file), Queued(1, KindWithContent.DocumentClear("i"))];
      && OneIndexTasks(queue)
      && var o := BatchOf(queue, false, None);
         && o.taken == 2 && o.mustCreateIndex && Buildable(tasks, o.batch) && o.batch.DocumentClear?
         && TellsApart(
              milli, ProcessSlot(milli, None, CreateNextBatchIndex(tasks, "i", o.batch, true)), Run(milli, None, queue),
              later, id)
  {
    hide BatchOf, FirstKey, Batched, TellsApart, ProcessSlot, Run;
    var queue := [ImportOf(0, Some(key), file), Queued(1, KindWithContent.DocumentClear("i"))];
    assert queue[0] in queue && queue[..2] == queue;
    ImportThenClear(Some(key), file);
    FirstOfTwo(queue[0], queue[1]);
    AutobatchTakesPrefix(queue, false, None);
    assert SomeAccepted(milli, queue);
    LostKeyShows(milli, tasks, "i", None, BatchKind.DocumentClear([0, 1]), queue, later, id);
  }

  lemma RejectedImportBatch(milli: Milli, key: string, file: Uuid)
    requires milli.content(file).None?
    ensures
      var queue := [DeletionOf(0, "x"), ImportOf(1, Some(key), file)];
      var batch := BatchKind.DocumentOperation(ReplaceDocuments, true, Some(key), [0, 1]);
      && OneIndexTasks(queue) && BatchOf(queue, true, None) == Outcome(batch, false, 2)
      && Batched(batch, queue, true, None) && FirstKey(queue) == Some(Some(key)) && LosesKey(milli, batch, queue, None)
  {
    hide BatchOf, FirstKey, Batched;
    var queue := [DeletionOf(0, "x"), ImportOf(1, Some(key), file)];
    assert queue[0] in queue && queue[..2] == queue;
    DeletionThenImport(Some(key), file, None);
    FirstOfTwo(queue[0], queue[1]);
    AutobatchTakesPrefix(queue, true, None);
    assert !SomeAccepted(milli, queue);
  }

  /**
   So does a rejected import beside a deletion: the batch keeps the key it set, since not all of it
   was rejected; alone, the import fails and the index stays without a key.
  */
  lemma {:induction false} RejectedImportKeepsKey(
    milli: Milli, tasks: map<TaskId, KindWithContent>, index: Index, key: string, file: Uuid, later: KindWithContent, id: string)
    requires Stored(tasks, [DeletionOf(0, "x"), ImportOf(1, Some(key), file)])
    requires milli.content(file).None? && index.primaryKey.None?
    requires later.DocumentAdditionOrUpdate? && later.primaryKey.Some? && later.primaryKey != Some(key)
    requires milli.content(later.contentFile).Some? && exists entry <- milli.content(later.contentFile).value :: entry.0 == id
    ensures
      var queue := [DeletionOf(0, "x"), ImportOf(1, Some(key), file)];
      && OneIndexTasks(queue)
      && var o := BatchOf(queue, true, None);
         && o.taken == 2 && !o.mustCreateIndex && Buildable(tasks, o.batch) && o.batch.DocumentOperation?
         && TellsApart(
              milli, ProcessSlot(milli, Some(index), CreateNextBatchIndex(tasks, "i", o.batch, false)),
              Run(milli, Some(index), queue), later, id)
  {
    hide BatchOf, FirstKey, Batched, TellsApart, ProcessSlot, Run, LosesKey, Stored, Buildable, CreateNextBatchIndex;
    var queue := [DeletionOf(0, "x"), ImportOf(1, Some(key), file)];
    RejectedImportBatch(milli, key, file);
    LostKeyShows(milli, tasks, "i", Some(index), BatchOf(queue, true, None).batch, queue, later, id);
  }
}
