/**
 The primary key of an index after a batch and after its tasks.

 The key is not part of the data compared by `BatchPreserves`, but it decides which later imports
 are accepted.  `LosesKey` reads off the tasks when the batch and its tasks disagree on it.
*/
module BatchKeys {
  import opened Wrappers
  import opened Tasks
  import opened Settings
  import opened Autobatcher
  import opened BatchShape
  import opened Indexing
  import opened SlotRuns
  import opened BatchEquivalence
  import opened BatchLoss

  /** Some import brings a file that milli accepts. */
  predicate SomeAccepted(milli: Milli, p: seq<Queued>) {
    exists t <- p :: IsImport(t) && milli.content(t.kind.contentFile).Some?
  }

  /**
   Both cases need an index without a key and an import that declares one.  A batch that ends cleared
   forgets the key of the imports it absorbs; a batch that deletes keeps the key of imports that are
   all rejected, since a key just set is reset only when every operation of the batch was rejected.
  */
  predicate LosesKey(milli: Milli, final: BatchKind, p: seq<Queued>, key: Option<string>) {
    && key.None? && FirstKey(p).Some? && FirstKey(p).value.Some?
    && match final
       case DocumentClear(_) => SomeAccepted(milli, p)
       case ClearAndSettings(_, _, _) => SomeAccepted(milli, p)
       case DocumentOperation(_, _, _, _) => !SomeAccepted(milli, p) && exists t <- p :: t.kind.DocumentDeletion?
       case SettingsAndDocumentOperation(_, _, _, _, _) =>
         !SomeAccepted(milli, p) && exists t <- p :: t.kind.DocumentDeletion?
       case _ => false
  }

  // The tasks, one by one

  lemma KeyStep(milli: Milli, index: Index, t: Queued)
    requires IsPlain(t)
    ensures
      var r := Effect(milli, Some(index), t.kind);
      && r.Some?
      && (index.primaryKey.Some? ==> r.value.primaryKey == index.primaryKey)
      && (!IsImport(t) ==> r.value.primaryKey == index.primaryKey)
      && (IsImport(t) && index.primaryKey.None? ==>
            r.value.primaryKey == if milli.content(t.kind.contentFile).Some? then t.kind.primaryKey else None)
  {
    hide ApplyDocumentOperations, AllWrites, Execute;
    if IsImport(t) {
      var op := Add(t.kind.contentFile);
      assert op in [op] && forall o <- [op] :: o == op;
    }
  }

  /** A key is never changed by tasks that can be batched. */
  lemma {:induction false} RunKeepsKey(milli: Milli, index: Index, p: seq<Queued>)
    requires AllPlain(p) && index.primaryKey.Some?
    ensures KeyOf(Run(milli, Some(index), p)) == index.primaryKey
  {
    if p != [] {
      hide Effect;
      var q, t := p[..|p| - 1], p[|p| - 1];
      assert p == q + [t] && t in p;
      RunKeepsKey(milli, index, q);
      RunSnoc(milli, Some(index), q, t);
      KeyStep(milli, Run(milli, Some(index), q).value, t);
    }
  }

  /** An index without a key gets the one its imports declare from the first file that is accepted. */
  lemma {:induction false} RunSetsKey(milli: Milli, index: Index, p: seq<Queued>, declared: Option<string>)
    requires AllPlain(p) && index.primaryKey.None?
    requires forall t <- p :: IsImport(t) ==> t.kind.primaryKey == declared
    ensures Run(milli, Some(index), p).Some?
    ensures KeyOf(Run(milli, Some(index), p)) == if SomeAccepted(milli, p) then declared else None
  {
    if p != [] {
      hide Effect;
      var q, t := p[..|p| - 1], p[|p| - 1];
      assert p == q + [t] && t in p;
      RunSetsKey(milli, index, q, declared);
      RunSnoc(milli, Some(index), q, t);
      KeyStep(milli, Run(milli, Some(index), q).value, t);
      assert SomeAccepted(milli, p) <==>
        SomeAccepted(milli, q) || (IsImport(t) && milli.content(t.kind.contentFile).Some?);
    }
  }

  // The batch

  lemma OperationsKey(milli: Milli, index: Index, pk: Option<string>, m: IndexDocumentsMethod, ops: seq<DocumentOperation>)
    ensures
      var r := ApplyOperations(milli, index, pk, m, ops);
      && (index.primaryKey.Some? && r.Some? ==> r.value.primaryKey == index.primaryKey)
      && (index.primaryKey.None? ==>
            r.Some? && r.value.primaryKey == if forall op <- ops :: IsRejected(milli, op) then None else pk)
  {
    hide ApplyDocumentOperations;
  }

  /** All operations of the tasks are rejected: no deletion, and no accepted import. */
  lemma {:induction false} AllRejected(milli: Milli, p: seq<Queued>)
    requires forall t <- p :: IsImport(t) || t.kind.DocumentDeletion?
    ensures (forall op <- OperationsOf(p) :: IsRejected(milli, op))
       <==> !SomeAccepted(milli, p) && forall t <- p :: !t.kind.DocumentDeletion?
  {
    if p != [] {
      var q, t := p[..|p| - 1], p[|p| - 1];
      assert p == q + [t] && t in p;
      AllRejected(milli, q);
      OperationsSnoc(q, t);
      hide OperationsOf;
      var op := OperationOf(t.kind);
      assert (forall o <- OperationsOf(q) + [op] :: IsRejected(milli, o))
        <==> (forall o <- OperationsOf(q) :: IsRejected(milli, o)) && IsRejected(milli, op) by {
        assert forall o <- OperationsOf(q) :: o in OperationsOf(q) + [op];
        assert op in OperationsOf(q) + [op];
      }
      assert SomeAccepted(milli, p) <==>
        SomeAccepted(milli, q) || (IsImport(t) && milli.content(t.kind.contentFile).Some?);
    }
  }

  /** Settings tasks make no difference to what is imported and deleted. */
  lemma DocsCarry(milli: Milli, p: seq<Queued>)
    ensures SomeAccepted(milli, Docs(p)) <==> SomeAccepted(milli, p)
    ensures (exists t <- Docs(p) :: t.kind.DocumentDeletion?) <==> (exists t <- p :: t.kind.DocumentDeletion?)
  {
    hide Docs;
    DocsHold(p);
  }

  ghost predicate IsOperation(final: BatchKind) {
    final.DocumentOperation? || final.SettingsAndDocumentOperation?
  }

  lemma OperationBatchKey(
    milli: Milli, tasks: map<TaskId, KindWithContent>, name: string, index: Index, final: BatchKind, p: seq<Queued>, create: bool)
    requires IsOperation(final) && Summarises(final, p) && Stored(tasks, p) && Buildable(tasks, final)
    ensures
      var r := KeyOf(ProcessSlot(milli, Some(index), CreateNextBatchIndex(tasks, name, final, create)));
      && (index.primaryKey.Some? ==> r == index.primaryKey)
      && (index.primaryKey.None? ==>
            r == if (SomeAccepted(milli, p) || exists t <- p :: t.kind.DocumentDeletion?) && FirstKey(p).Some? then FirstKey(p).value
                 else None)
  {
    hide Docs, Setts, Ids, LastKey, OperationsOf, FirstKey, ApplyOperations, Operations, NewSettings, FirstImport;
    hide SomeAccepted, IsRejected, AllWrites, Execute;
    DocsCarry(milli, p);
    if final.DocumentOperation? {
      NoSettings(p);
      OperationsRead(tasks, p, final.updateMethod);
      AllRejected(milli, p);
      OperationsKey(milli, index, FirstImportKey(tasks, Ids(p)), final.updateMethod, OperationsOf(p));
    } else {
      PartsStored(tasks, p);
      OperationsRead(tasks, Docs(p), final.updateMethod);
      FirstKeyOfDocs(p);
      AllRejected(milli, Docs(p));
      var settings := NewSettings(tasks, Ids(Setts(p)));
      SettingsOnly(index, settings);
      OperationsKey(
        milli, ApplySettings(index, settings), FirstImportKey(tasks, Ids(Docs(p))), final.updateMethod,
        OperationsOf(Docs(p)));
    }
  }

  /** The other batches that can grow do not touch the key. */
  lemma OtherBatchKey(
    milli: Milli, tasks: map<TaskId, KindWithContent>, name: string, index: Index, final: BatchKind, p: seq<Queued>, create: bool)
    requires final.IsOpen() && !IsOperation(final) && Buildable(tasks, final)
    ensures KeyOf(ProcessSlot(milli, Some(index), CreateNextBatchIndex(tasks, name, final, create))) == index.primaryKey
  {
    hide NewSettings, DeletedDocuments, AllWrites, Execute;
  }

  // Both

  lemma PlainSummary(final: BatchKind, p: seq<Queued>)
    requires final.IsOpen() && Summarises(final, p)
    ensures AllPlain(p)
  {
    hide Docs, Setts, Ids, LastKey, EndsCleared;
  }

  lemma NoImports(final: BatchKind, p: seq<Queued>)
    requires (final.DocumentDeletion? || final.Settings?) && Summarises(final, p)
    ensures FirstKey(p).None?
  {
    hide Ids;
    OnlyImportsDeclare(p);
  }

  lemma {:induction false} OnlyImportsDeclare(p: seq<Queued>)
    requires forall t <- p :: !IsImport(t)
    ensures FirstKey(p).None?
  {
    if p != [] {
      OnlyImportsDeclare(p[..|p| - 1]);
    }
  }

  lemma OpenKeyExactly(
    milli: Milli, tasks: map<TaskId, KindWithContent>, name: string, index: Index, final: BatchKind, p: seq<Queued>, create: bool)
    requires final.IsOpen() && Summarises(final, p) && KeyRun(p, index.primaryKey)
    requires Stored(tasks, p) && Buildable(tasks, final) && OneIndexTasks(p)
    ensures
      KeyOf(ProcessSlot(milli, Some(index), CreateNextBatchIndex(tasks, name, final, create)))
      == KeyOf(Run(milli, Some(index), p))
      <==> !LosesKey(milli, final, p, index.primaryKey)
  {
    hide Summarises, Stored, Buildable, KeyRun, FirstKey, Run, ProcessSlot, CreateNextBatchIndex, SomeAccepted;
    PlainSummary(final, p);
    if IsOperation(final) {
      OperationBatchKey(milli, tasks, name, index, final, p, create);
    } else {
      OtherBatchKey(milli, tasks, name, index, final, p, create);
    }
    if index.primaryKey.Some? {
      RunKeepsKey(milli, index, p);
    } else {
      KeyRunValues(p, None);
      RunSetsKey(milli, index, p, if FirstKey(p).Some? then FirstKey(p).value else None);
      if final.DocumentDeletion? || final.Settings? {
        NoImports(final, p);
      }
    }
  }

  /**
   The exact condition for the key, whether the index exists, is created by the batch, or is missing:
   the batch and its tasks leave the same key if and only if `LosesKey` does not hold of them.
  */
  lemma BatchKeyExactly(
    milli: Milli, tasks: map<TaskId, KindWithContent>, name: string, slot: Slot, final: BatchKind, p: seq<Queued>)
    requires p != [] && OneIndexTasks(p) && Stored(tasks, p)
    requires Batched(final, p, slot.Some? || CanCreate(p[0].kind), KeyOf(slot))
    ensures Buildable(tasks, final) && !final.IndexSwap?
    ensures
      KeyOf(ProcessSlot(milli, slot, CreateNextBatchIndex(tasks, name, final, CanCreate(p[0].kind))))
      == KeyOf(Run(milli, slot, p))
      <==> !((slot.Some? || CanCreate(p[0].kind)) && LosesKey(milli, final, p, KeyOf(slot)))
  {
    hide Docs, Setts, Ids, EndsCleared, LastKey, KeyRun, OperationsOf, FirstKey, SomeAccepted;
    hide ApplyIndexOperation, Operations, NewSettings, DeletedDocuments, FirstImport, Stored;
    BatchIsBuildable(tasks, final, p);
    var create := CanCreate(p[0].kind);
    assert p[0] in p;
    if final.IsOpen() {
      PlainSummary(final, p);
      if slot.Some? {
        OpenKeyExactly(milli, tasks, name, slot.value, final, p, create);
      } else if create {
        OpenKeyExactly(milli, tasks, name, EMPTY_INDEX, final, p, create);
        RunCreates(milli, p);
      } else {
        RunMissing(milli, p);
      }
    } else if final.IndexDeletion? {
      assert Run(milli, slot, p) == None;
    } else {
      assert p == [p[0]];
      PreservesSingle(milli, tasks, name, slot, final, p[0], create);
    }
  }

  /**
   Data and key together: a batch made from the tasks `p` of an existing index with key `key` does
   exactly what its tasks do, on all documents and settings, if and only if it loses neither.
  */
  lemma BatchIsRunExactly(
    milli: Milli, tasks: map<TaskId, KindWithContent>, name: string, final: BatchKind, p: seq<Queued>, key: Option<string>)
    requires p != [] && OneIndexTasks(p) && Stored(tasks, p) && Batched(final, p, true, key)
    ensures Buildable(tasks, final) && !final.IndexSwap?
    ensures
      (forall index: Index :: index.primaryKey == key ==>
         ProcessSlot(milli, Some(index), CreateNextBatchIndex(tasks, name, final, CanCreate(p[0].kind)))
         == Run(milli, Some(index), p))
      <==> !Loses(milli, final, p, key) && !LosesKey(milli, final, p, key)
  {
    hide Batched, Loses, LosesKey, ProcessSlot, Run, CanCreate, Operations, NewSettings, DeletedDocuments, FirstImport;
    BatchPreservesExactly(milli, tasks, name, final, p, key);
    forall index: Index | index.primaryKey == key
      ensures
        ProcessSlot(milli, Some(index), CreateNextBatchIndex(tasks, name, final, CanCreate(p[0].kind)))
        == Run(milli, Some(index), p)
        <==> Preserves(milli, tasks, name, index, final, p, CanCreate(p[0].kind)) && !LosesKey(milli, final, p, key)
    {
      BatchKeyExactly(milli, tasks, name, Some(index), final, p);
    }
    var any := Index(map[], map[], key);
    assert any.primaryKey == key;
  }

  // What a lost key changes

  lemma AcceptedLater(milli: Milli, index: Index, later: KindWithContent, id: string)
    requires later.DocumentAdditionOrUpdate? && index.primaryKey.None?
    requires milli.content(later.contentFile).Some? && exists entry <- milli.content(later.contentFile).value :: entry.0 == id
    ensures
      var r := Effect(milli, Some(index), later);
      r.Some? && id in r.value.documents
  {
    var batch := milli.content(later.contentFile).value;
    var op := Add(later.contentFile);
    assert op in [op] && !IsRejected(milli, op) && AddsDocuments(milli, op);
    ImportPresence(later.updateMethod, index.documents, batch, id);
    ApplySnoc(milli, later.updateMethod, index.documents, [], op);
    assert [] + [op] == [op];
  }

  predicate Holds(slot: Slot, id: string) {
    slot.Some? && id in slot.value.documents
  }

  /** An import brings the new document `id` to just one of two existing indexes. */
  ghost predicate TellsApart(milli: Milli, a: Slot, b: Slot, later: KindWithContent, id: string)
    requires later.DocumentAdditionOrUpdate?
  {
    && a.Some? && b.Some?
    && (!Holds(a, id) && !Holds(b, id) ==>
          (Holds(Effect(milli, a, later), id) <==> !Holds(Effect(milli, b, later), id)))
  }

  lemma KeysTellApart(milli: Milli, a: Index, b: Index, later: KindWithContent, id: string)
    requires later.DocumentAdditionOrUpdate? && later.primaryKey.Some?
    requires milli.content(later.contentFile).Some? && exists entry <- milli.content(later.contentFile).value :: entry.0 == id
    requires a.primaryKey.None? && b.primaryKey.Some? && later.primaryKey != b.primaryKey
    ensures TellsApart(milli, Some(a), Some(b), later, id) && TellsApart(milli, Some(b), Some(a), later, id)
  {
    hide Effect;
    AcceptedLater(milli, a, later, id);
    RefusedImport(milli, b, Queued(0, later));
  }

  /**
   When the key is lost, a later import that declares another key and brings a new document is
   accepted on one side and refused on the other.
  */
  lemma LostKeyShows(
    milli: Milli, tasks: map<TaskId, KindWithContent>, name: string, slot: Slot, final: BatchKind, p: seq<Queued>,
    later: KindWithContent, id: string)
    requires p != [] && OneIndexTasks(p) && Stored(tasks, p) && (slot.Some? || CanCreate(p[0].kind))
    requires Batched(final, p, true, KeyOf(slot)) && LosesKey(milli, final, p, KeyOf(slot))
    requires later.DocumentAdditionOrUpdate? && later.primaryKey.Some? && later.primaryKey != FirstKey(p).value
    requires milli.content(later.contentFile).Some? && exists entry <- milli.content(later.contentFile).value :: entry.0 == id
    ensures Buildable(tasks, final) && !final.IndexSwap?
    ensures
      TellsApart(
        milli, ProcessSlot(milli, slot, CreateNextBatchIndex(tasks, name, final, CanCreate(p[0].kind))),
        Run(milli, slot, p), later, id)
  {
    hide Stored, Run, ProcessSlot, Effect, KeyRun, FirstKey, SomeAccepted, Summarises, TellsApart;
    hide Operations, NewSettings, DeletedDocuments, FirstImport;
    BatchKeyExactly(milli, tasks, name, slot, final, p);
    var batched := ProcessSlot(milli, slot, CreateNextBatchIndex(tasks, name, final, CanCreate(p[0].kind)));
    var alone := Run(milli, slot, p);
    KeysOfBoth(milli, tasks, name, slot, final, p);
    if KeyOf(batched).None? {
      KeysTellApart(milli, batched.value, alone.value, later, id);
    } else {
      KeysTellApart(milli, alone.value, batched.value, later, id);
    }
  }

  lemma KeysOfBoth(
    milli: Milli, tasks: map<TaskId, KindWithContent>, name: string, slot: Slot, final: BatchKind, p: seq<Queued>)
    requires p != [] && OneIndexTasks(p) && Stored(tasks, p) && (slot.Some? || CanCreate(p[0].kind))
    requires Batched(final, p, true, KeyOf(slot)) && LosesKey(milli, final, p, KeyOf(slot)) && Buildable(tasks, final)
    ensures
      var batched := ProcessSlot(milli, slot, CreateNextBatchIndex(tasks, name, final, CanCreate(p[0].kind)));
      var alone := Run(milli, slot, p);
      && batched.Some? && alone.Some?
      && KeyOf(batched) in {None, FirstKey(p).value} && KeyOf(alone) in {None, FirstKey(p).value}
  {
    hide Stored, Run, Buildable, KeyRun, FirstKey, SomeAccepted, Summarises, CreateNextBatchIndex;
    var index := if slot.Some? then slot.value else EMPTY_INDEX;
    PlainSummary(final, p);
    KeyRunValues(p, None);
    RunSetsKey(milli, index, p, FirstKey(p).value);
    if slot.None? {
      RunCreates(milli, p);
    }
    if IsOperation(final) {
      OperationBatchKey(milli, tasks, name, index, final, p, CanCreate(p[0].kind));
    } else {
      OtherBatchKey(milli, tasks, name, index, final, p, CanCreate(p[0].kind));
    }
    OpenStays(milli, tasks, name, slot, final, CanCreate(p[0].kind));
  }

  /** A batch that can grow works on the index it opened, and keeps it. */
  lemma OpenStays(milli: Milli, tasks: map<TaskId, KindWithContent>, name: string, slot: Slot, final: BatchKind, create: bool)
    requires final.IsOpen() && Buildable(tasks, final) && (slot.Some? || create)
    ensures
      var batch := CreateNextBatchIndex(tasks, name, final, create);
      && ProcessSlot(milli, slot, batch).Some?
      && ProcessSlot(milli, slot, batch) == ProcessSlot(milli, Some(if slot.Some? then slot.value else EMPTY_INDEX), batch)
  {
    hide ApplyIndexOperation, Operations, NewSettings, DeletedDocuments, FirstImport;
  }
}
