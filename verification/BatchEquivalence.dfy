/**
 One batch against the tasks it stands for.

 Processing the batch gives the index the same existence, documents and settings as executing
 its tasks alone, one after the other, except in two cases that can be read off the tasks:
 the key of the first import clashes with the key of the index, or no import adds a document
 and the deletions of the batch are dropped.
*/
module BatchEquivalence {
  import opened Wrappers
  import opened Tasks
  import opened Settings
  import opened Autobatcher
  import opened BatchShape
  import opened Indexing
  import opened SlotRuns

  /** The database holds the tasks of `p` under their ids. */
  predicate Stored(tasks: map<TaskId, KindWithContent>, p: seq<Queued>) {
    forall t <- p :: t.id in tasks && tasks[t.id] == t.kind
  }

  /** The key declared by the first import of `p`, if there is an import. */
  function FirstKey(p: seq<Queued>): Option<Option<string>> {
    if p == [] then None
    else
      var earlier := FirstKey(p[..|p| - 1]);
      if earlier.Some? then earlier
      else if IsImport(p[|p| - 1]) then Some(p[|p| - 1].kind.primaryKey)
      else None
  }

  lemma FirstKeySnoc(q: seq<Queued>, t: Queued)
    ensures FirstKey(q + [t])
         == if FirstKey(q).Some? then FirstKey(q) else if IsImport(t) then Some(t.kind.primaryKey) else None
  {
    assert (q + [t])[..|q + [t]| - 1] == q;
  }

  lemma IdsSnoc(ids: seq<TaskId>, id: TaskId)
    ensures (ids + [id])[..|ids + [id]| - 1] == ids
    ensures id in ids + [id]
    ensures forall i <- ids :: i in ids + [id]
  {
  }

  /** What the batch builder reads back from the database is what the tasks asked for. */
  lemma {:induction false} OperationsRead(tasks: map<TaskId, KindWithContent>, p: seq<Queued>, m: IndexDocumentsMethod)
    requires Stored(tasks, p) && OneMethod(p, m)
    ensures KnownOperations(tasks, Ids(p))
    ensures Operations(tasks, Ids(p)) == OperationsOf(p)
    ensures FirstImport(tasks, Ids(p)) == FirstKey(p)
  {
    if p != [] {
      var q, t := p[..|p| - 1], p[|p| - 1];
      assert p == q + [t] && t in p;
      OperationsRead(tasks, q, m);
      SnocIds(q, t);
      IdsSnoc(Ids(q), t.id);
      OperationsSnoc(q, t);
      FirstKeySnoc(q, t);
    }
  }

  lemma {:induction false} SettingsRead(tasks: map<TaskId, KindWithContent>, p: seq<Queued>)
    requires Stored(tasks, p) && forall t <- p :: IsSettings(t)
    ensures KnownSettings(tasks, Ids(p))
    ensures NewSettings(tasks, Ids(p)) == SettingsOf(p)
  {
    if p != [] {
      var q, t := p[..|p| - 1], p[|p| - 1];
      assert p == q + [t] && t in p;
      SettingsRead(tasks, q);
      SnocIds(q, t);
      IdsSnoc(Ids(q), t.id);
      SettingsSnoc(q, t);
    }
  }

  lemma FlattenSnoc(lists: seq<seq<string>>, list: seq<string>)
    ensures Flatten(lists + [list]) == Flatten(lists) + list
  {
    assert (lists + [list])[..|lists + [list]| - 1] == lists;
  }

  lemma {:induction false} OnlyDeletions(tasks: map<TaskId, KindWithContent>, p: seq<Queued>)
    requires Stored(tasks, p) && forall t <- p :: t.kind.DocumentDeletion?
    ensures KnownDeletions(tasks, Ids(p))
  {
    if p != [] {
      var q, t := p[..|p| - 1], p[|p| - 1];
      assert p == q + [t] && t in p;
      OnlyDeletions(tasks, q);
      SnocIds(q, t);
    }
  }

  lemma EmptyReads(milli: Milli, m: IndexDocumentsMethod, documents: Documents)
    ensures Flatten([]) == [] && Ids([]) == [] && OperationsOf([]) == []
    ensures Remove(documents, []) == documents == ApplyDocumentOperations(milli, m, documents, [])
  {
  }

  /** Deleting all the ids at once is deleting task by task. */
  lemma {:induction false} DeletionsRead(
    milli: Milli, tasks: map<TaskId, KindWithContent>, p: seq<Queued>, m: IndexDocumentsMethod, documents: Documents)
    requires Stored(tasks, p) && forall t <- p :: t.kind.DocumentDeletion?
    ensures KnownDeletions(tasks, Ids(p))
    ensures Remove(documents, Flatten(DeletedDocuments(tasks, Ids(p))))
         == ApplyDocumentOperations(milli, m, documents, OperationsOf(p))
  {
    hide Ids, OperationsOf, ApplyDocumentOperations, Flatten;
    if p == [] {
      EmptyReads(milli, m, documents);
    } else {
      var q, t := p[..|p| - 1], p[|p| - 1];
      assert p == q + [t] && t in p;
      DeletionsRead(milli, tasks, q, m, documents);
      SnocIds(q, t);
      IdsSnoc(Ids(q), t.id);
      OperationsSnoc(q, t);
      ApplySnoc(milli, m, documents, OperationsOf(q), OperationOf(t.kind));
      FlattenSnoc(DeletedDocuments(tasks, Ids(q)), t.kind.documentsIds);
    }
  }

  lemma {:induction false} IdsKnown(tasks: map<TaskId, KindWithContent>, p: seq<Queued>)
    requires Stored(tasks, p)
    ensures Known(tasks, Ids(p))
  {
    if p != [] {
      var q, t := p[..|p| - 1], p[|p| - 1];
      assert p == q + [t] && t in p;
      IdsKnown(tasks, q);
      SnocIds(q, t);
    }
  }

  lemma {:induction false} PartsStored(tasks: map<TaskId, KindWithContent>, p: seq<Queued>)
    requires Stored(tasks, p)
    ensures Stored(tasks, Docs(p)) && Stored(tasks, Setts(p))
    ensures Known(tasks, Ids(p)) && Known(tasks, Ids(Docs(p))) && Known(tasks, Ids(Setts(p)))
  {
    IdsKnown(tasks, p);
    IdsKnown(tasks, Docs(p));
    IdsKnown(tasks, Setts(p));
  }

  /** None of the `unreachable!` arms of the batch builder can be reached. */
  lemma BatchIsBuildable(tasks: map<TaskId, KindWithContent>, final: BatchKind, p: seq<Queued>)
    requires Summarises(final, p) && Stored(tasks, p)
    ensures Buildable(tasks, final)
  {
    hide Docs, Setts, Ids, EndsCleared, LastKey;
    PartsStored(tasks, p);
    match final
    case DocumentOperation(m, _, _, ids) => OperationsRead(tasks, p, m);
    case DocumentDeletion(_) => OnlyDeletions(tasks, p);
    case Settings(_, _) => SettingsRead(tasks, p);
    case ClearAndSettings(_, _, _) => SettingsRead(tasks, Setts(p));
    case SettingsAndDocumentOperation(_, m, _, _, _) =>
      SettingsRead(tasks, Setts(p));
      OperationsRead(tasks, Docs(p), m);
    case IndexDeletion(ids) =>
      var q, t := p[..|p| - 1], p[|p| - 1];
      assert t in p;
      PartsStored(tasks, q);
    case _ =>
      if |p| == 1 {
        assert p[0] in p;
      }
  }

  /** Every key declared in a run is the first one or the key of the index. */
  lemma {:induction false} KeyRunValues(p: seq<Queued>, key: Option<string>)
    requires KeyRun(p, key)
    ensures FirstKey(p).Some? <==> LastKey(p).Some?
    ensures LastKey(p).Some? ==> LastKey(p) == FirstKey(p) || (key.Some? && LastKey(p).value == key)
    ensures forall t <- p :: IsImport(t) ==>
              FirstKey(p).Some? && (t.kind.primaryKey == FirstKey(p).value || (key.Some? && t.kind.primaryKey == key))
  {
    if p != [] {
      var q, t := p[..|p| - 1], p[|p| - 1];
      assert p == q + [t];
      KeyRunValues(q, key);
      FirstKeySnoc(q, t);
      Snoc(q, t);
    }
  }

  /** The first import declares a key other than the key of the index: the batch fails as a whole. */
  predicate Clashes(p: seq<Queued>, key: Option<string>) {
    FirstKey(p).Some? && FirstKey(p).value.Some? && key.Some? && FirstKey(p).value != key
  }

  /** The one key that an unclashing run can declare. */
  function CommonKey(p: seq<Queued>, key: Option<string>): string {
    if key.Some? then key.value
    else if FirstKey(p).Some? && FirstKey(p).value.Some? then FirstKey(p).value.value
    else ""
  }

  lemma UnclashingRun(p: seq<Queued>, key: Option<string>)
    requires KeyRun(p, key) && !Clashes(p, key)
    ensures Declares(p, CommonKey(p, key))
    ensures key.None? || key == Some(CommonKey(p, key))
  {
    hide FirstKey, KeyRun;
    KeyRunValues(p, key);
  }

  predicate NamesDocuments(op: DocumentOperation) {
    op.Delete? && op.documentsIds != []
  }

  /** No document is added and some are to be deleted: milli returns before deleting them. */
  predicate DropsDeletions(milli: Milli, ops: seq<DocumentOperation>) {
    && (forall op <- ops :: !AddsDocuments(milli, op))
    && (exists op <- ops :: NamesDocuments(op))
  }

  lemma {:induction false} IdleOperations(milli: Milli, m: IndexDocumentsMethod, documents: Documents, ops: seq<DocumentOperation>)
    requires forall op <- ops :: !AddsDocuments(milli, op) && !NamesDocuments(op)
    ensures ApplyDocumentOperations(milli, m, documents, ops) == documents
  {
    if ops != [] {
      var op := ops[|ops| - 1];
      assert op in ops;
      IdleOperations(milli, m, documents, ops[..|ops| - 1]);
      assert Remove(documents, []) == documents;
    }
  }

  lemma {:induction false} EmptyStaysEmpty(milli: Milli, m: IndexDocumentsMethod, ops: seq<DocumentOperation>)
    requires forall op <- ops :: !AddsDocuments(milli, op)
    ensures ApplyDocumentOperations(milli, m, map[], ops) == map[]
  {
    if ops != [] {
      var op := ops[|ops| - 1];
      assert op in ops;
      EmptyStaysEmpty(milli, m, ops[..|ops| - 1]);
    }
  }

  /** The document builder applies all the operations, or there was nothing to apply. */
  lemma OperationsApplied(
    milli: Milli, index: Index, pk: Option<string>, m: IndexDocumentsMethod, ops: seq<DocumentOperation>)
    requires !(pk.Some? && index.primaryKey.Some? && pk != index.primaryKey)
    requires !DropsDeletions(milli, ops) || index.documents == map[]
    ensures
      var r := ApplyOperations(milli, index, pk, m, ops);
      && r.Some?
      && r.value.documents == ApplyDocumentOperations(milli, m, index.documents, ops)
      && r.value.settings == index.settings
      && (r.value.primaryKey == index.primaryKey || r.value.primaryKey == pk)
  {
    hide ApplyDocumentOperations;
    if !exists op <- ops :: AddsDocuments(milli, op) {
      if index.documents == map[] {
        EmptyStaysEmpty(milli, m, ops);
      } else {
        IdleOperations(milli, m, index.documents, ops);
      }
    } else {
      var op :| op in ops && AddsDocuments(milli, op);
      assert !IsRejected(milli, op);
    }
  }

  /** What processing a batch does to the slot of its index. */
  function ProcessSlot(milli: Milli, slot: Slot, batch: IndexBatch): Slot
    requires !batch.IndexSwap?
  {
    match batch
    case IndexOperation(_, op, mustCreate) =>
      var base := OpenSlot(slot, mustCreate);
      if base.None? then None
      else (
        match ApplyIndexOperation(milli, base.value, op)
        case Some(index) => Some(index)
        case None => base)
    case IndexDocumentDeletionByFilter(_, filter, _) =>
      if slot.None? then None
      else
        var i := slot.value;
        var selected := milli.matching(filter, i.documents, i.settings);
        Some(i.(documents := map id | id in i.documents && id !in selected :: i.documents[id]))
    case IndexCreation(_, pk, _) => if slot.Some? then slot else Some(SetPrimaryKey(EMPTY_INDEX, pk))
    case IndexUpdate(_, pk, _) => if slot.None? then None else Some(SetPrimaryKey(slot.value, pk))
    case IndexDeletion(_, _, _) => None
  }

  /** Neither of the two cases in which a batch does less than its tasks. */
  predicate Lossless(milli: Milli, index: Index, final: BatchKind, p: seq<Queued>) {
    final.DocumentOperation? || final.SettingsAndDocumentOperation? ==>
      && !Clashes(p, index.primaryKey)
      && ((forall t <- Docs(p) :: IsImport(t) || t.kind.DocumentDeletion?) ==>
            !DropsDeletions(milli, OperationsOf(Docs(p))) || index.documents == map[])
  }

  /** The batch, read back from the database, does the work of `p` on an existing index. */
  ghost predicate Preserves(
    milli: Milli, tasks: map<TaskId, KindWithContent>, name: string, index: Index, final: BatchKind, p: seq<Queued>,
    create: bool)
    requires Buildable(tasks, final) && !final.IndexSwap?
    requires forall t <- p :: !t.kind.IsPrioritised() && !t.kind.IndexSwaps?
  {
    SameData(
      ProcessSlot(milli, Some(index), CreateNextBatchIndex(tasks, name, final, create)), Run(milli, Some(index), p))
  }

  lemma RunKeepsSettings(milli: Milli, index: Index, p: seq<Queued>)
    requires AllPlain(p) && Setts(p) == []
    ensures Run(milli, Some(index), p).Some?
    ensures Run(milli, Some(index), p).value.settings == index.settings
  {
    RunSettings(milli, index, p);
    assert Execute(map[], index.settings) == index.settings;
  }

  lemma RunKeepsDocuments(milli: Milli, index: Index, p: seq<Queued>)
    requires AllPlain(p) && forall t <- p :: IsSettings(t)
    ensures Run(milli, Some(index), p).Some?
    ensures Run(milli, Some(index), p).value.documents == index.documents
  {
    OnlySettings(p);
    RunDocuments(milli, index, p, ReplaceDocuments, if index.primaryKey.Some? then index.primaryKey.value else "");
  }

  lemma PreservesClear(
    milli: Milli, tasks: map<TaskId, KindWithContent>, name: string, index: Index, final: BatchKind, p: seq<Queued>,
    create: bool)
    requires final.DocumentClear? || final.ClearAndSettings?
    requires Summarises(final, p) && Stored(tasks, p) && Buildable(tasks, final)
    ensures Preserves(milli, tasks, name, index, final, p, create)
  {
    hide Docs, Setts, Ids, EndsCleared, LastKey, Run, AllWrites, SettingsOf, Execute;
    if final.DocumentClear? {
      NoSettings(p);
      RunKeepsSettings(milli, index, p);
    } else {
      PartsStored(tasks, p);
      SettingsRead(tasks, Setts(p));
      RunSettings(milli, index, p);
    }
    RunCleared(milli, index, p);
  }

  lemma PreservesSettings(
    milli: Milli, tasks: map<TaskId, KindWithContent>, name: string, index: Index, final: BatchKind, p: seq<Queued>,
    create: bool)
    requires final.Settings?
    requires Summarises(final, p) && Stored(tasks, p) && Buildable(tasks, final)
    ensures Preserves(milli, tasks, name, index, final, p, create)
  {
    hide Docs, Setts, Ids, EndsCleared, LastKey, Run, AllWrites, SettingsOf, Execute;
    OnlySettings(p);
    assert AllPlain(p);
    SettingsRead(tasks, p);
    RunSettings(milli, index, p);
    RunKeepsDocuments(milli, index, p);
  }

  lemma PreservesDeletion(
    milli: Milli, tasks: map<TaskId, KindWithContent>, name: string, index: Index, final: BatchKind, p: seq<Queued>,
    create: bool)
    requires final.DocumentDeletion?
    requires Summarises(final, p) && Stored(tasks, p) && Buildable(tasks, final)
    ensures Preserves(milli, tasks, name, index, final, p, create)
  {
    hide Docs, Setts, Ids, EndsCleared, LastKey, Run, AllWrites, SettingsOf, Execute, OperationsOf, ApplyDocumentOperations;
    NoSettings(p);
    RunKeepsSettings(milli, index, p);
    DeletionsRead(milli, tasks, p, ReplaceDocuments, index.documents);
    RunDocuments(milli, index, p, ReplaceDocuments, if index.primaryKey.Some? then index.primaryKey.value else "");
  }

  /** The document part of a batch, when nothing is lost. */
  lemma DocumentPart(milli: Milli, index: Index, p: seq<Queued>, m: IndexDocumentsMethod)
    requires AllPlain(p) && OneMethod(Docs(p), m) && KeyRun(p, index.primaryKey)
    requires !Clashes(p, index.primaryKey)
    requires !DropsDeletions(milli, OperationsOf(Docs(p))) || index.documents == map[]
    ensures
      var pk := if FirstKey(p).Some? then FirstKey(p).value else None;
      var r := ApplyOperations(milli, index, pk, m, OperationsOf(Docs(p)));
      var run := Run(milli, Some(index), p);
      && r.Some? && run.Some?
      && r.value.documents == run.value.documents
      && r.value.settings == index.settings
  {
    hide Docs, Setts, Ids, EndsCleared, LastKey, Run, OperationsOf, ApplyDocumentOperations, ApplyOperations, FirstKey, KeyRun;
    var key := CommonKey(p, index.primaryKey);
    UnclashingRun(p, index.primaryKey);
    RunDocuments(milli, index, p, m, key);
    OperationsApplied(
      milli, index, if FirstKey(p).Some? then FirstKey(p).value else None, m, OperationsOf(Docs(p)));
  }

  lemma {:induction false} FirstKeyOfDocs(p: seq<Queued>)
    ensures FirstKey(Docs(p)) == FirstKey(p)
  {
    if p != [] {
      var q, t := p[..|p| - 1], p[|p| - 1];
      assert p == q + [t];
      hide Docs, FirstKey, Setts, Ids, EndsCleared, LastKey, KeyRun;
      FirstKeyOfDocs(q);
      Snoc(q, t);
      FirstKeySnoc(q, t);
      FirstKeySnoc(Docs(q), t);
    }
  }

  lemma PreservesOperation(
    milli: Milli, tasks: map<TaskId, KindWithContent>, name: string, index: Index, final: BatchKind, p: seq<Queued>,
    create: bool)
    requires final.DocumentOperation? && Lossless(milli, index, final, p) && KeyRun(p, index.primaryKey)
    requires Summarises(final, p) && Stored(tasks, p) && Buildable(tasks, final)
    ensures Preserves(milli, tasks, name, index, final, p, create)
  {
    hide Docs, Setts, Ids, EndsCleared, LastKey, Run, OperationsOf, ApplyDocumentOperations, ApplyOperations, FirstKey, KeyRun;
    NoSettings(p);
    RunKeepsSettings(milli, index, p);
    OperationsRead(tasks, p, final.updateMethod);
    DocumentPart(milli, index, p, final.updateMethod);
  }

  lemma PreservesSettingsAndOperation(
    milli: Milli, tasks: map<TaskId, KindWithContent>, name: string, index: Index, final: BatchKind, p: seq<Queued>,
    create: bool)
    requires final.SettingsAndDocumentOperation? && Lossless(milli, index, final, p) && KeyRun(p, index.primaryKey)
    requires Summarises(final, p) && Stored(tasks, p) && Buildable(tasks, final)
    ensures Preserves(milli, tasks, name, index, final, p, create)
  {
    hide Docs, Setts, Ids, EndsCleared, LastKey, Run, OperationsOf, ApplyDocumentOperations, ApplyOperations, FirstKey, KeyRun;
    hide SettingsOf, AllWrites, Execute;
    PartsStored(tasks, p);
    SettingsRead(tasks, Setts(p));
    RunSettings(milli, index, p);
    OperationsRead(tasks, Docs(p), final.updateMethod);
    FirstKeyOfDocs(p);
    DocumentPart(milli, index, p, final.updateMethod);
    SettingsFirst(milli, index, SettingsOf(Setts(p)), FirstImportKey(tasks, Ids(Docs(p))), final.updateMethod, OperationsOf(Docs(p)));
  }

  /** Settings and documents commute: operations do not look at the settings. */
  lemma SettingsFirst(
    milli: Milli, index: Index, settings: seq<IndexSettings>, pk: Option<string>, m: IndexDocumentsMethod,
    ops: seq<DocumentOperation>)
    ensures
      var before := ApplyOperations(milli, index, pk, m, ops);
      var after := ApplyOperations(milli, ApplySettings(index, settings), pk, m, ops);
      && before.Some? == after.Some?
      && (before.Some? ==>
            after.value == before.value.(settings := ApplySettings(index, settings).settings))
  {
    hide ApplyDocumentOperations, AllWrites, Execute, IsRejected, AddsDocuments;
  }

  /** Every batch that can grow, on an existing index. */
  lemma PreservesOpen(
    milli: Milli, tasks: map<TaskId, KindWithContent>, name: string, index: Index, final: BatchKind, p: seq<Queued>,
    create: bool)
    requires final.IsOpen() && Lossless(milli, index, final, p) && KeyRun(p, index.primaryKey)
    requires Summarises(final, p) && Stored(tasks, p) && Buildable(tasks, final)
    ensures Preserves(milli, tasks, name, index, final, p, create)
  {
    hide Summarises, Lossless, Preserves, KeyRun, CreateNextBatchIndex, Buildable;
    match final
    case DocumentClear(_) => PreservesClear(milli, tasks, name, index, final, p, create);
    case ClearAndSettings(_, _, _) => PreservesClear(milli, tasks, name, index, final, p, create);
    case Settings(_, _) => PreservesSettings(milli, tasks, name, index, final, p, create);
    case DocumentDeletion(_) => PreservesDeletion(milli, tasks, name, index, final, p, create);
    case DocumentOperation(_, _, _, _) => PreservesOperation(milli, tasks, name, index, final, p, create);
    case SettingsAndDocumentOperation(_, _, _, _, _) =>
      PreservesSettingsAndOperation(milli, tasks, name, index, final, p, create);
  }

  /** The batches that hold a single task do exactly what the task does. */
  lemma PreservesSingle(
    milli: Milli, tasks: map<TaskId, KindWithContent>, name: string, slot: Slot, final: BatchKind, t: Queued, create: bool)
    requires !final.IsOpen() && !final.IndexSwap? && !final.IndexDeletion?
    requires Summarises(final, [t]) && Stored(tasks, [t]) && Buildable(tasks, final)
    ensures [t][..0] == [] && !t.kind.IsPrioritised() && !t.kind.IndexSwaps?
    ensures ProcessSlot(milli, slot, CreateNextBatchIndex(tasks, name, final, create)) == Run(milli, slot, [t])
  {
    assert t in [t];
    assert Run(milli, slot, []) == slot;
  }

  predicate OneIndexTasks(p: seq<Queued>) {
    forall t <- p :: !t.kind.IsPrioritised() && !t.kind.IndexSwaps?
  }

  function KeyOf(slot: Slot): Option<string> {
    if slot.Some? then slot.value.primaryKey else None
  }

  /**
   A batch that loses nothing leaves the index as its tasks would, executed alone and in order,
   whether the index exists, is created by the batch, or is missing.
  */
  lemma BatchPreserves(milli: Milli, tasks: map<TaskId, KindWithContent>, name: string, slot: Slot, final: BatchKind, p: seq<Queued>)
    requires p != [] && OneIndexTasks(p) && Stored(tasks, p)
    requires Batched(final, p, slot.Some? || CanCreate(p[0].kind), KeyOf(slot))
    requires slot.Some? ==> Lossless(milli, slot.value, final, p)
    ensures Buildable(tasks, final) && !final.IndexSwap?
    ensures
      SameData(
        ProcessSlot(milli, slot, CreateNextBatchIndex(tasks, name, final, CanCreate(p[0].kind))), Run(milli, slot, p))
  {
    hide Docs, Setts, Ids, EndsCleared, LastKey, KeyRun, OperationsOf, Lossless;
    BatchIsBuildable(tasks, final, p);
    var create := CanCreate(p[0].kind);
    assert p[0] in p;
    if final.IsOpen() {
      assert AllPlain(p);
      if slot.Some? {
        PreservesOpen(milli, tasks, name, slot.value, final, p, create);
      } else if create {
        assert Lossless(milli, EMPTY_INDEX, final, p) by {
          EmptyIsLossless(milli, final, p);
        }
        PreservesOpen(milli, tasks, name, EMPTY_INDEX, final, p, create);
        RunCreates(milli, p);
      } else {
        RunMissing(milli, p);
      }
    } else if final.IndexDeletion? {
      assert Run(milli, slot, p) == None;
    } else {
      assert p == [p[0]];
      PreservesSingle(milli, tasks, name, slot, final, p[0], create);
    }
  }

  lemma EmptyIsLossless(milli: Milli, final: BatchKind, p: seq<Queued>)
    ensures Lossless(milli, EMPTY_INDEX, final, p)
  {
  }

  /** After a batch that can grow, the key is the old one or the one its first import declares. */
  lemma OpenBatchKey(
    milli: Milli, tasks: map<TaskId, KindWithContent>, name: string, index: Index, final: BatchKind, p: seq<Queued>, create: bool)
    requires final.IsOpen() && Summarises(final, p) && Stored(tasks, p) && Buildable(tasks, final)
    ensures
      var r := ProcessSlot(milli, Some(index), CreateNextBatchIndex(tasks, name, final, create));
      && r.Some?
      && (|| r.value.primaryKey == index.primaryKey
          || (FirstKey(p).Some? && FirstKey(p).value.Some? && r.value.primaryKey == FirstKey(p).value))
  {
    hide Docs, Setts, Ids, EndsCleared, LastKey, OperationsOf, FirstKey, ApplyDocumentOperations, Operations, NewSettings;
    hide DeletedDocuments, AllWrites, Execute, FirstImport, IsRejected, AddsDocuments;
    match final
    case DocumentOperation(m, _, _, _) => OperationsRead(tasks, p, m);
    case SettingsAndDocumentOperation(_, m, _, _, _) =>
      PartsStored(tasks, p);
      OperationsRead(tasks, Docs(p), m);
      FirstKeyOfDocs(p);
    case _ =>
  }

  /** Building a batch keeps its list of tasks. */
  lemma BuiltIds(tasks: map<TaskId, KindWithContent>, name: string, final: BatchKind, create: bool)
    requires Buildable(tasks, final)
    ensures CreateNextBatchIndex(tasks, name, final, create).Ids() == final.Ids()
  {
    hide Operations, NewSettings, DeletedDocuments, FirstImport;
  }
}
