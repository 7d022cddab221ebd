/**
 Exactly when a batch does less than its tasks.

 `BatchPreserves` is one half.  Here is the other: whenever `Loses` holds, which can be read off
 the tasks and the key of the index, there are documents and settings for which the batch and
 its tasks disagree.
*/
module BatchLoss {
  import opened Wrappers
  import opened Tasks
  import opened Settings
  import opened Autobatcher
  import opened BatchShape
  import opened Indexing
  import opened SlotRuns
  import opened BatchEquivalence

  predicate Touches(milli: Milli, op: DocumentOperation, id: string) {
    match op
    case Delete(ids) => id in ids
    case Add(file) => milli.content(file).Some? && exists entry <- milli.content(file).value :: entry.0 == id
  }

  lemma {:induction false} ImportPresence(m: IndexDocumentsMethod, documents: Documents, batch: seq<(string, Document)>, id: string)
    ensures id in Import(m, documents, batch) <==> id in documents || exists entry <- batch :: entry.0 == id
  {
    if batch != [] {
      var last := batch[|batch| - 1];
      ImportPresence(m, documents, batch[..|batch| - 1], id);
      assert batch == batch[..|batch| - 1] + [last];
    }
  }

  /** After an operation that touches `id`, whether `id` is present does not depend on the past. */
  lemma OperationPresence(milli: Milli, m: IndexDocumentsMethod, a: Documents, b: Documents, op: DocumentOperation, id: string)
    requires Touches(milli, op, id) || (id in a <==> id in b)
    ensures id in ApplyDocumentOperation(milli, m, a, op) <==> id in ApplyDocumentOperation(milli, m, b, op)
  {
    if op.Add? && milli.content(op.contentFile).Some? {
      ImportPresence(m, a, milli.content(op.contentFile).value, id);
      ImportPresence(m, b, milli.content(op.contentFile).value, id);
    }
  }

  lemma {:induction false} Presence(
    milli: Milli, m: IndexDocumentsMethod, a: Documents, b: Documents, ops: seq<DocumentOperation>, id: string)
    requires (exists op <- ops :: Touches(milli, op, id)) || (id in a <==> id in b)
    ensures id in ApplyDocumentOperations(milli, m, a, ops) <==> id in ApplyDocumentOperations(milli, m, b, ops)
  {
    if ops != [] {
      var before, op := ops[..|ops| - 1], ops[|ops| - 1];
      assert ops == before + [op];
      if !Touches(milli, op, id) {
        Presence(milli, m, a, b, before, id);
      }
      OperationPresence(
        milli, m, ApplyDocumentOperations(milli, m, a, before), ApplyDocumentOperations(milli, m, b, before), op, id);
    }
  }

  predicate Effective(milli: Milli, op: DocumentOperation) {
    NamesDocuments(op) || AddsDocuments(milli, op)
  }

  /** Operations that name or add any document change some set of documents. */
  lemma SomeDocumentsChange(milli: Milli, m: IndexDocumentsMethod, ops: seq<DocumentOperation>) returns (documents: Documents)
    requires exists op <- ops :: Effective(milli, op)
    ensures ApplyDocumentOperations(milli, m, documents, ops) != documents
  {
    var op :| op in ops && Effective(milli, op);
    var id := if op.Delete? then op.documentsIds[0] else milli.content(op.contentFile).value[0].0;
    assert Touches(milli, op, id);
    var one: Documents := map[id := map[]];
    Presence(milli, m, map[], one, ops, id);
    documents := if id in ApplyDocumentOperations(milli, m, map[], ops) then map[] else one;
  }

  /** Pending writes that write anything change some stored settings. */
  lemma SomeSettingsChange(pending: Pending) returns (stored: StoredSettings)
    requires pending != map[]
    ensures Execute(pending, stored) != stored
  {
    var field :| field in pending;
    stored := if pending[field].Some? then map[] else map[field := Flag(true)];
    assert field in Execute(pending, stored) <==> pending[field].Some?;
  }

  /** The document tasks of `p` that an index with key `key` accepts. */
  function Accepted(p: seq<Queued>, key: string): (accepted: seq<Queued>)
    ensures forall t <- accepted :: t in p && !IsSettings(t)
  {
    if p == [] then []
    else
      var t := p[|p| - 1];
      Accepted(p[..|p| - 1], key) +
      if IsSettings(t) || (IsImport(t) && t.kind.primaryKey.Some? && t.kind.primaryKey != Some(key)) then [] else [t]
  }

  lemma AcceptedSnoc(q: seq<Queued>, t: Queued, key: string)
    ensures Accepted(q + [t], key)
         == if IsSettings(t) || (IsImport(t) && t.kind.primaryKey.Some? && t.kind.primaryKey != Some(key)) then
              Accepted(q, key)
            else
              Accepted(q, key) + [t]
  {
    assert (q + [t])[..|q + [t]| - 1] == q;
  }

  /** On an index with a key, the tasks act one after the other and the clashing imports do nothing. */
  ghost predicate RunsAccepted(milli: Milli, index: Index, p: seq<Queued>, m: IndexDocumentsMethod, key: string)
    requires AllPlain(p) && OneMethod(Accepted(p, key), m)
  {
    var r := Run(milli, Some(index), p);
    && r.Some?
    && r.value.documents == ApplyDocumentOperations(milli, m, index.documents, OperationsOf(Accepted(p, key)))
    && r.value.primaryKey == Some(key)
  }

  lemma RefusedImport(milli: Milli, index: Index, t: Queued)
    requires IsImport(t) && index.primaryKey.Some? && t.kind.primaryKey.Some? && t.kind.primaryKey != index.primaryKey
    ensures Effect(milli, Some(index), t.kind) == Some(index)
  {
  }

  lemma RunAcceptedStep(milli: Milli, index: Index, q: seq<Queued>, t: Queued, m: IndexDocumentsMethod, key: string)
    requires AllPlain(q) && AllPlain(q + [t]) && IsPlain(t)
    requires OneMethod(Accepted(q, key), m) && OneMethod(Accepted(q + [t], key), m)
    requires RunsAccepted(milli, index, q, m, key)
    ensures RunsAccepted(milli, index, q + [t], m, key)
  {
    hide Run, Effect, OperationsOf, ApplyDocumentOperations, Accepted, ApplyDocumentOperation, OperationOf;
    AcceptedSnoc(q, t, key);
    RunSnoc(milli, Some(index), q, t);
    var before := Run(milli, Some(index), q).value;
    if IsSettings(t) {
      SettingsKeepDocuments(milli, before, t);
    } else if IsImport(t) && t.kind.primaryKey.Some? && t.kind.primaryKey != Some(key) {
      RefusedImport(milli, before, t);
    } else {
      assert t in Accepted(q, key) + [t];
      OneOperation(milli, before, t, m, key);
      OperationsSnoc(Accepted(q, key), t);
      ApplySnoc(milli, m, index.documents, OperationsOf(Accepted(q, key)), OperationOf(t.kind));
    }
  }

  lemma {:induction false} RunAccepted(milli: Milli, index: Index, p: seq<Queued>, m: IndexDocumentsMethod, key: string)
    requires AllPlain(p) && OneMethod(Accepted(p, key), m) && index.primaryKey == Some(key)
    ensures RunsAccepted(milli, index, p, m, key)
  {
    if p != [] {
      hide Run, Effect, OperationsOf, ApplyDocumentOperations, Accepted, RunsAccepted;
      var q, t := p[..|p| - 1], p[|p| - 1];
      assert p == q + [t] && t in p;
      AcceptedSnoc(q, t, key);
      assert OneMethod(Accepted(q, key), m) by {
        assert forall u <- Accepted(q, key) :: u in Accepted(p, key);
      }
      RunAccepted(milli, index, q, m, key);
      RunAcceptedStep(milli, index, q, t, m, key);
    }
  }

  lemma {:induction false} AcceptedAreDocs(p: seq<Queued>, key: string)
    ensures forall t <- Accepted(p, key) :: t in Docs(p)
  {
    if p != [] {
      var q, t := p[..|p| - 1], p[|p| - 1];
      assert p == q + [t];
      AcceptedAreDocs(q, key);
      AcceptedSnoc(q, t, key);
      Snoc(q, t);
    }
  }

  /** What a failing batch throws away. */
  predicate WouldChange(milli: Milli, p: seq<Queued>, key: string)
    requires forall t <- Docs(p) :: IsImport(t) || t.kind.DocumentDeletion?
  {
    || AllWrites(SettingsOf(Setts(p))) != map[]
    || (AcceptedAreDocs(p, key);
        exists op <- OperationsOf(Accepted(p, key)) :: Effective(milli, op))
  }

  /** The batch does less than its tasks on some documents and settings. */
  predicate Loses(milli: Milli, final: BatchKind, p: seq<Queued>, key: Option<string>) {
    && (final.DocumentOperation? || final.SettingsAndDocumentOperation?)
    && (forall t <- Docs(p) :: IsImport(t) || t.kind.DocumentDeletion?)
    && if Clashes(p, key) then WouldChange(milli, p, key.value) else DropsDeletions(milli, OperationsOf(Docs(p)))
  }

  /** A clashing batch fails as a whole: the index is left as it was. */
  lemma ClashFails(
    milli: Milli, tasks: map<TaskId, KindWithContent>, name: string, index: Index, final: BatchKind, p: seq<Queued>, create: bool)
    requires final.DocumentOperation? || final.SettingsAndDocumentOperation?
    requires Summarises(final, p) && Stored(tasks, p) && Buildable(tasks, final) && Clashes(p, index.primaryKey)
    ensures ProcessSlot(milli, Some(index), CreateNextBatchIndex(tasks, name, final, create)) == Some(index)
  {
    hide Docs, Setts, Ids, LastKey, OperationsOf, FirstKey, AllWrites, Execute;
    if final.DocumentOperation? {
      OperationsRead(tasks, p, final.updateMethod);
    } else {
      PartsStored(tasks, p);
      OperationsRead(tasks, Docs(p), final.updateMethod);
      FirstKeyOfDocs(p);
    }
  }

  lemma OneMethodOf(final: BatchKind, p: seq<Queued>, key: string)
    requires (final.DocumentOperation? || final.SettingsAndDocumentOperation?) && Summarises(final, p)
    ensures AllPlain(p) && OneMethod(Docs(p), final.updateMethod)
    ensures OneMethod(Accepted(p, key), final.updateMethod)
  {
    hide Docs, Setts, Ids, LastKey, Accepted;
    if final.DocumentOperation? {
      NoSettings(p);
    }
    AcceptedAreDocs(p, key);
  }

  /** A clashing batch whose tasks would change something disagrees with them somewhere. */
  lemma ClashLoses(
    milli: Milli, tasks: map<TaskId, KindWithContent>, name: string, final: BatchKind, p: seq<Queued>, key: string, create: bool)
    returns (index: Index)
    requires final.DocumentOperation? || final.SettingsAndDocumentOperation?
    requires Summarises(final, p) && Stored(tasks, p) && Buildable(tasks, final) && Clashes(p, Some(key))
    requires OneIndexTasks(p)
    requires (forall t <- Docs(p) :: IsImport(t) || t.kind.DocumentDeletion?) && WouldChange(milli, p, key)
    ensures index.primaryKey == Some(key)
    ensures !Preserves(milli, tasks, name, index, final, p, create)
  {
    hide Docs, Setts, Ids, LastKey, OperationsOf, FirstKey, AllWrites, Execute, Summarises, Run, Accepted, ApplyDocumentOperations;
    hide CreateNextBatchIndex, Buildable, ProcessSlot;
    OneMethodOf(final, p, key);
    if AllWrites(SettingsOf(Setts(p))) != map[] {
      var stored := SomeSettingsChange(AllWrites(SettingsOf(Setts(p))));
      index := Index(map[], stored, Some(key));
      RunSettings(milli, index, p);
    } else {
      AcceptedAreDocs(p, key);
      var documents := SomeDocumentsChange(milli, final.updateMethod, OperationsOf(Accepted(p, key)));
      index := Index(documents, map[], Some(key));
      RunAccepted(milli, index, p, final.updateMethod, key);
    }
    ClashFails(milli, tasks, name, index, final, p, create);
  }

  /** A clashing batch whose tasks would change nothing agrees with them. */
  lemma ClashHarmless(
    milli: Milli, tasks: map<TaskId, KindWithContent>, name: string, index: Index, final: BatchKind, p: seq<Queued>, create: bool)
    requires final.DocumentOperation? || final.SettingsAndDocumentOperation?
    requires Summarises(final, p) && Stored(tasks, p) && Buildable(tasks, final) && Clashes(p, index.primaryKey)
    requires OneIndexTasks(p)
    requires (forall t <- Docs(p) :: IsImport(t) || t.kind.DocumentDeletion?) && !WouldChange(milli, p, index.primaryKey.value)
    ensures Preserves(milli, tasks, name, index, final, p, create)
  {
    hide Docs, Setts, Ids, LastKey, OperationsOf, FirstKey, AllWrites, Summarises, Run, Accepted, ApplyDocumentOperations;
    hide CreateNextBatchIndex, Buildable, ProcessSlot;
    var key := index.primaryKey.value;
    OneMethodOf(final, p, key);
    AcceptedAreDocs(p, key);
    RunSettings(milli, index, p);
    assert Execute(map[], index.settings) == index.settings;
    RunAccepted(milli, index, p, final.updateMethod, key);
    IdleOperations(milli, final.updateMethod, index.documents, OperationsOf(Accepted(p, key)));
    ClashFails(milli, tasks, name, index, final, p, create);
  }

  lemma NothingAdded(milli: Milli, index: Index, pk: Option<string>, m: IndexDocumentsMethod, ops: seq<DocumentOperation>)
    requires forall op <- ops :: !AddsDocuments(milli, op)
    requires !(pk.Some? && index.primaryKey.Some? && pk != index.primaryKey)
    ensures
      var r := ApplyOperations(milli, index, pk, m, ops);
      r.Some? && r.value.documents == index.documents
  {
    hide ApplyDocumentOperations;
  }

  lemma SettingsOnly(index: Index, settings: seq<IndexSettings>)
    ensures ApplySettings(index, settings).documents == index.documents
    ensures ApplySettings(index, settings).primaryKey == index.primaryKey
  {
  }

  /** A batch that drops its deletions leaves the documents as they were. */
  lemma DropKeeps(
    milli: Milli, tasks: map<TaskId, KindWithContent>, name: string, index: Index, final: BatchKind, p: seq<Queued>, create: bool)
    requires final.DocumentOperation? || final.SettingsAndDocumentOperation?
    requires Summarises(final, p) && Stored(tasks, p) && Buildable(tasks, final) && !Clashes(p, index.primaryKey)
    requires forall t <- Docs(p) :: IsImport(t) || t.kind.DocumentDeletion?
    requires DropsDeletions(milli, OperationsOf(Docs(p)))
    ensures
      var r := ProcessSlot(milli, Some(index), CreateNextBatchIndex(tasks, name, final, create));
      r.Some? && r.value.documents == index.documents
  {
    hide Docs, Setts, Ids, LastKey, OperationsOf, FirstKey, ApplyOperations, ApplySettings;
    if final.DocumentOperation? {
      NoSettings(p);
      OperationsRead(tasks, p, final.updateMethod);
      NothingAdded(milli, index, FirstImportKey(tasks, Ids(p)), final.updateMethod, OperationsOf(p));
    } else {
      PartsStored(tasks, p);
      OperationsRead(tasks, Docs(p), final.updateMethod);
      FirstKeyOfDocs(p);
      var settings := NewSettings(tasks, Ids(Setts(p)));
      SettingsOnly(index, settings);
      NothingAdded(
        milli, ApplySettings(index, settings), FirstImportKey(tasks, Ids(Docs(p))), final.updateMethod,
        OperationsOf(Docs(p)));
    }
  }

  /** A batch that drops deletions disagrees with its tasks on some documents. */
  lemma DropLoses(
    milli: Milli, tasks: map<TaskId, KindWithContent>, name: string, final: BatchKind, p: seq<Queued>, key: Option<string>,
    create: bool)
    returns (index: Index)
    requires final.DocumentOperation? || final.SettingsAndDocumentOperation?
    requires Summarises(final, p) && Stored(tasks, p) && Buildable(tasks, final) && KeyRun(p, key) && !Clashes(p, key)
    requires OneIndexTasks(p)
    requires forall t <- Docs(p) :: IsImport(t) || t.kind.DocumentDeletion?
    requires DropsDeletions(milli, OperationsOf(Docs(p)))
    ensures index.primaryKey == key
    ensures !Preserves(milli, tasks, name, index, final, p, create)
  {
    hide Docs, Setts, Ids, LastKey, OperationsOf, FirstKey, KeyRun, Run, ApplyDocumentOperations;
    hide CreateNextBatchIndex, Buildable, ProcessSlot, Summarises, Clashes;
    var m := final.updateMethod;
    OneMethodOf(final, p, "");
    var documents := SomeDocumentsChange(milli, m, OperationsOf(Docs(p)));
    index := Index(documents, map[], key);
    UnclashingRun(p, key);
    RunDocuments(milli, index, p, m, CommonKey(p, key));
    DropKeeps(milli, tasks, name, index, final, p, create);
  }

  /**
   The exact condition.  For a batch made from the tasks `p` of an existing index with key `key`,
   the batch and its tasks agree on all documents and settings if and only if it loses nothing.
  */
  lemma BatchPreservesExactly(
    milli: Milli, tasks: map<TaskId, KindWithContent>, name: string, final: BatchKind, p: seq<Queued>, key: Option<string>)
    requires p != [] && OneIndexTasks(p) && Stored(tasks, p) && Batched(final, p, true, key)
    ensures Buildable(tasks, final) && !final.IndexSwap?
    ensures
      (forall index: Index :: index.primaryKey == key ==>
         Preserves(milli, tasks, name, index, final, p, CanCreate(p[0].kind)))
      <==> !Loses(milli, final, p, key)
  {
    hide Docs, Setts, Ids, LastKey, OperationsOf, FirstKey, KeyRun, Run, EndsCleared, CreateNextBatchIndex, ProcessSlot;
    BatchIsBuildable(tasks, final, p);
    assert p[0] in p;
    var create := CanCreate(p[0].kind);
    if Loses(milli, final, p, key) {
      if Clashes(p, key) {
        var index := ClashLoses(milli, tasks, name, final, p, key.value, create);
      } else {
        var index := DropLoses(milli, tasks, name, final, p, key, create);
      }
    } else {
      forall index: Index | index.primaryKey == key
        ensures Preserves(milli, tasks, name, index, final, p, create)
      {
        if (final.DocumentOperation? || final.SettingsAndDocumentOperation?) && Clashes(p, key) {
          OneMethodOf(final, p, key.value);
          ClashHarmless(milli, tasks, name, index, final, p, create);
        } else {
          LosesNothing(milli, final, p, index);
          BatchPreserves(milli, tasks, name, Some(index), final, p);
        }
      }
    }
  }

  lemma LosesNothing(milli: Milli, final: BatchKind, p: seq<Queued>, index: Index)
    requires !Loses(milli, final, p, index.primaryKey)
    requires !((final.DocumentOperation? || final.SettingsAndDocumentOperation?) && Clashes(p, index.primaryKey))
    ensures Lossless(milli, index, final, p)
  {
  }
}
