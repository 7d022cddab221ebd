/**
 Tasks executed one at a time, seen from the one index they work on.

 A slot is the index behind a name, if there is one.  `Effect` is what executing one task alone
 does to a slot; `Run` executes a sequence of tasks in order.
*/
module SlotRuns {
  import opened Wrappers
  import opened Tasks
  import opened Settings
  import opened Autobatcher
  import opened BatchShape
  import opened Indexing

  type Slot = Option<Index>

  /** Opening an index, creating it when the task may. */
  function OpenSlot(slot: Slot, allowCreation: bool): Slot {
    if slot.None? && allowCreation then Some(EMPTY_INDEX) else slot
  }

  function ImportEffect(milli: Milli, slot: Slot, pk: Option<string>, m: IndexDocumentsMethod, file: Uuid): Slot {
    if slot.None? then None
    else
      match ApplyOperations(milli, slot.value, pk, m, [Add(file)])
      case Some(index) => Some(index)
      case None => slot
  }

  function Effect(milli: Milli, slot: Slot, kind: KindWithContent): Slot
    requires !kind.IsPrioritised() && !kind.IndexSwaps?
  {
    match kind
    case DocumentAdditionOrUpdate(_, pk, m, file, allow) => ImportEffect(milli, OpenSlot(slot, allow), pk, m, file)
    case DocumentDeletion(_, ids) =>
      if slot.None? then None else Some(slot.value.(documents := Remove(slot.value.documents, ids)))
    case DocumentClear(_) => if slot.None? then None else Some(slot.value.(documents := map[]))
    case SettingsUpdate(_, s, isDeletion, allow) =>
      var base := OpenSlot(slot, allow && !isDeletion);
      if base.None? then None else Some(ApplySettings(base.value, [s]))
    case DocumentDeletionByFilter(_, filter) =>
      if slot.None? then None
      else
        var i := slot.value;
        var selected := milli.matching(filter, i.documents, i.settings);
        Some(i.(documents := map id | id in i.documents && id !in selected :: i.documents[id]))
    case IndexDeletion(_) => None
    case IndexCreation(_, pk) => if slot.Some? then slot else Some(SetPrimaryKey(EMPTY_INDEX, pk))
    case IndexUpdate(_, pk) => if slot.None? then None else Some(SetPrimaryKey(slot.value, pk))
  }

  function Run(milli: Milli, slot: Slot, p: seq<Queued>): Slot
    requires forall t <- p :: !t.kind.IsPrioritised() && !t.kind.IndexSwaps?
  {
    if p == [] then slot else Effect(milli, Run(milli, slot, p[..|p| - 1]), p[|p| - 1].kind)
  }

  /** The same existence, documents and settings; primary keys may differ. */
  predicate SameData(a: Slot, b: Slot) {
    && a.Some? == b.Some?
    && (a.Some? ==> a.value.documents == b.value.documents && a.value.settings == b.value.settings)
  }

  /** The operations the document tasks of `p` ask for. */
  function OperationsOf(p: seq<Queued>): (ops: seq<DocumentOperation>)
    requires forall t <- p :: IsImport(t) || t.kind.DocumentDeletion?
  {
    if p == [] then []
    else
      var t := p[|p| - 1];
      assert t in p;
      assert IsImport(t) || t.kind.DocumentDeletion?;
      OperationsOf(p[..|p| - 1]) + [OperationOf(t.kind)]
  }

  function SettingsOf(p: seq<Queued>): seq<IndexSettings>
    requires forall t <- p :: IsSettings(t)
  {
    if p == [] then []
    else
      var t := p[|p| - 1];
      assert t in p;
      assert IsSettings(t);
      SettingsOf(p[..|p| - 1]) + [t.kind.newSettings]
  }

  /** Every declared key of `p` is `key` or absent. */
  predicate Declares(p: seq<Queued>, key: string) {
    forall t <- p :: IsImport(t) ==> t.kind.primaryKey.None? || t.kind.primaryKey == Some(key)
  }

  lemma RunSnoc(milli: Milli, slot: Slot, q: seq<Queued>, t: Queued)
    requires forall u <- q + [t] :: !u.kind.IsPrioritised() && !u.kind.IndexSwaps?
    ensures forall u <- q :: !u.kind.IsPrioritised() && !u.kind.IndexSwaps?
    ensures !t.kind.IsPrioritised() && !t.kind.IndexSwaps?
    ensures Run(milli, slot, q + [t]) == Effect(milli, Run(milli, slot, q), t.kind)
  {
    assert (q + [t])[..|q + [t]| - 1] == q;
    assert t in q + [t];
    assert forall u <- q :: u in q + [t];
  }

  lemma OperationsSnoc(q: seq<Queued>, t: Queued)
    requires forall u <- q + [t] :: IsImport(u) || u.kind.DocumentDeletion?
    ensures forall u <- q :: IsImport(u) || u.kind.DocumentDeletion?
    ensures IsImport(t) || t.kind.DocumentDeletion?
    ensures OperationsOf(q + [t]) == OperationsOf(q) + [OperationOf(t.kind)]
  {
    assert (q + [t])[..|q + [t]| - 1] == q;
    assert t in q + [t];
    assert forall u <- q :: u in q + [t];
  }

  lemma SettingsSnoc(q: seq<Queued>, t: Queued)
    requires forall u <- q + [t] :: IsSettings(u)
    ensures forall u <- q :: IsSettings(u)
    ensures IsSettings(t)
    ensures SettingsOf(q + [t]) == SettingsOf(q) + [t.kind.newSettings]
  {
    assert (q + [t])[..|q + [t]| - 1] == q;
    assert t in q + [t];
    assert forall u <- q :: u in q + [t];
  }

  lemma WritesSnoc(settings: seq<IndexSettings>, s: IndexSettings)
    ensures AllWrites(settings + [s]) == AllWrites(settings) + Writes(Check(s))
    ensures AllWrites([s]) == Writes(Check(s))
  {
    hide Writes, Check;
    assert (settings + [s])[..|settings + [s]| - 1] == settings;
    assert [s][..0] == [];
    assert AllWrites([s]) == map[] + Writes(Check(s));
  }

  lemma ApplySnoc(milli: Milli, m: IndexDocumentsMethod, documents: Documents, ops: seq<DocumentOperation>, op: DocumentOperation)
    ensures ApplyDocumentOperations(milli, m, documents, ops + [op])
         == ApplyDocumentOperation(milli, m, ApplyDocumentOperations(milli, m, documents, ops), op)
  {
    assert (ops + [op])[..|ops + [op]| - 1] == ops;
  }

  lemma ImportKeepsSettings(milli: Milli, index: Index, t: Queued)
    requires IsImport(t)
    ensures
      var r := ApplyOperations(milli, index, t.kind.primaryKey, t.kind.updateMethod, [Add(t.kind.contentFile)]);
      r.Some? ==> r.value.settings == index.settings
  {
    hide ApplyDocumentOperations;
  }

  /** One task more changes the settings of an existing index exactly by its own writes. */
  lemma OneTaskSettings(milli: Milli, index: Index, t: Queued)
    requires IsPlain(t)
    ensures Effect(milli, Some(index), t.kind).Some?
    ensures Effect(milli, Some(index), t.kind).value.settings
         == if IsSettings(t) then Execute(Writes(Check(t.kind.newSettings)), index.settings) else index.settings
  {
    hide Writes, Check, Execute, ApplyOperations, Remove;
    if IsSettings(t) {
      WritesSnoc([], t.kind.newSettings);
    } else if IsImport(t) {
      ImportKeepsSettings(milli, index, t);
    }
  }

  /** The settings tasks act on an existing index as one builder holding all their writes. */
  lemma {:induction false} RunSettings(milli: Milli, index: Index, p: seq<Queued>)
    requires AllPlain(p)
    ensures Run(milli, Some(index), p).Some?
    ensures Run(milli, Some(index), p).value.settings == Execute(AllWrites(SettingsOf(Setts(p))), index.settings)
  {
    if p == [] {
      assert Execute(map[], index.settings) == index.settings;
    } else {
      hide Docs, Setts, Ids, EndsCleared, LastKey, KeyRun, Run, SettingsOf, AllWrites, Effect, Execute;
      var q, t := p[..|p| - 1], p[|p| - 1];
      assert p == q + [t];
      RunSettings(milli, index, q);
      RunSnoc(milli, Some(index), q, t);
      Snoc(q, t);
      OneTaskSettings(milli, Run(milli, Some(index), q).value, t);
      if IsSettings(t) {
        SettingsSnoc(Setts(q), t);
        WritesSnoc(SettingsOf(Setts(q)), t.kind.newSettings);
        ExecuteMerge(AllWrites(SettingsOf(Setts(q))), Writes(Check(t.kind.newSettings)), index.settings);
      }
    }
  }

  lemma ClearedStep(milli: Milli, index: Index, t: Queued)
    requires IsPlain(t)
    ensures
      var r := Effect(milli, Some(index), t.kind);
      && r.Some?
      && (t.kind.DocumentClear? ==> r.value.documents == map[])
      && (IsSettings(t) ==> r.value.documents == index.documents)
      && (t.kind.DocumentDeletion? && index.documents == map[] ==> r.value.documents == map[])
  {
  }

  /** Once the documents end cleared they are gone, whatever was imported before. */
  lemma {:induction false} RunCleared(milli: Milli, index: Index, p: seq<Queued>)
    requires AllPlain(p) && EndsCleared(Docs(p))
    ensures Run(milli, Some(index), p).Some?
    ensures Run(milli, Some(index), p).value.documents == map[]
  {
    hide Docs, Setts, Ids, EndsCleared, LastKey, KeyRun, Run, Effect;
    if p == [] {
      EmptyParts();
      NotCleared();
    } else {
      var q, t := p[..|p| - 1], p[|p| - 1];
      assert p == q + [t];
      Snoc(q, t);
      SnocIds(Docs(q), t);
      RunSettings(milli, index, q);
      RunSnoc(milli, Some(index), q, t);
      ClearedStep(milli, Run(milli, Some(index), q).value, t);
      if !t.kind.DocumentClear? {
        RunCleared(milli, index, q);
      }
    }
  }

  lemma NotCleared()
    ensures !EndsCleared([])
  {
  }

  /** One import or deletion alone, when its key cannot clash. */
  lemma OneOperation(milli: Milli, index: Index, t: Queued, m: IndexDocumentsMethod, key: string)
    requires index.primaryKey.None? || index.primaryKey == Some(key)
    requires OneMethod([t], m) && Declares([t], key)
    ensures
      var r := Effect(milli, Some(index), t.kind);
      && r.Some?
      && (IsImport(t) || t.kind.DocumentDeletion?)
      && r.value.documents == ApplyDocumentOperation(milli, m, index.documents, OperationOf(t.kind))
      && (r.value.primaryKey == index.primaryKey || r.value.primaryKey == Some(key))
  {
    assert t in [t];
    if IsImport(t) {
      var op := Add(t.kind.contentFile);
      ApplySnoc(milli, m, index.documents, [], op);
      assert [] + [op] == [op];
      assert op in [op];
      assert forall o <- [op] :: o == op;
    }
  }

  ghost predicate RunsDocuments(milli: Milli, index: Index, p: seq<Queued>, m: IndexDocumentsMethod, key: string)
    requires AllPlain(p) && OneMethod(Docs(p), m)
  {
    var r := Run(milli, Some(index), p);
    && r.Some?
    && r.value.documents == ApplyDocumentOperations(milli, m, index.documents, OperationsOf(Docs(p)))
    && (r.value.primaryKey == index.primaryKey || r.value.primaryKey == Some(key))
  }

  lemma RunDocumentsStep(milli: Milli, index: Index, q: seq<Queued>, t: Queued, m: IndexDocumentsMethod, key: string)
    requires AllPlain(q) && OneMethod(Docs(q), m) && RunsDocuments(milli, index, q, m, key)
    requires AllPlain(q + [t]) && OneMethod(Docs(q + [t]), m) && IsPlain(t)
    requires Declares([t], key) && (index.primaryKey.None? || index.primaryKey == Some(key))
    ensures RunsDocuments(milli, index, q + [t], m, key)
  {
    hide Docs, Setts, Ids, EndsCleared, LastKey, KeyRun, Run, Effect, OperationsOf, ApplyDocumentOperations;
    hide ApplyDocumentOperation, OperationOf, Declares;
    Snoc(q, t);
    RunSnoc(milli, Some(index), q, t);
    var before := Run(milli, Some(index), q).value;
    if IsSettings(t) {
      SettingsKeepDocuments(milli, before, t);
    } else {
      OperationsSnoc(Docs(q), t);
      assert OneMethod([t], m) by {
        assert t in Docs(q) + [t];
      }
      OneOperation(milli, before, t, m, key);
      ApplySnoc(milli, m, index.documents, OperationsOf(Docs(q)), OperationOf(t.kind));
    }
  }

  /** When no key clashes, imports and deletions act on the documents one after the other. */
  lemma {:induction false} RunDocuments(milli: Milli, index: Index, p: seq<Queued>, m: IndexDocumentsMethod, key: string)
    requires AllPlain(p) && OneMethod(Docs(p), m)
    requires Declares(p, key) && (index.primaryKey.None? || index.primaryKey == Some(key))
    ensures RunsDocuments(milli, index, p, m, key)
  {
    if p != [] {
      hide Docs, Setts, Ids, EndsCleared, LastKey, KeyRun, Run, Effect, RunsDocuments;
      var q, t := p[..|p| - 1], p[|p| - 1];
      assert p == q + [t];
      Snoc(q, t);
      assert OneMethod(Docs(q), m) by {
        assert forall u <- Docs(q) :: u in Docs(p);
      }
      RunDocuments(milli, index, q, m, key);
      RunDocumentsStep(milli, index, q, t, m, key);
    }
  }

  lemma SettingsKeepDocuments(milli: Milli, index: Index, t: Queued)
    requires IsSettings(t)
    ensures
      var r := Effect(milli, Some(index), t.kind);
      r.Some? && r.value.documents == index.documents && r.value.primaryKey == index.primaryKey
  {
  }

  /** A missing index that no task can create stays missing. */
  lemma {:induction false} RunMissing(milli: Milli, p: seq<Queued>)
    requires AllPlain(p) && forall t <- p :: !CanCreate(t.kind)
    ensures Run(milli, None, p) == None
  {
    if p != [] {
      RunMissing(milli, p[..|p| - 1]);
    }
  }

  /** When the first task may create the index, a missing index behaves as an empty one. */
  lemma {:induction false} RunCreates(milli: Milli, p: seq<Queued>)
    requires p != [] && AllPlain(p) && CanCreate(p[0].kind)
    ensures Run(milli, None, p) == Run(milli, Some(EMPTY_INDEX), p)
  {
    var q := p[..|p| - 1];
    if q == [] {
      var t := p[|p| - 1];
      assert t == p[0] && t in p;
      assert Effect(milli, None, t.kind) == Effect(milli, Some(EMPTY_INDEX), t.kind);
      assert Run(milli, None, q) == None && Run(milli, Some(EMPTY_INDEX), q) == Some(EMPTY_INDEX);
    } else {
      RunCreates(milli, q);
    }
  }
}
