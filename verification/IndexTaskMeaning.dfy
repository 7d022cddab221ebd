/**
 What each index task does to an index, document by document.
*/
module IndexTaskMeaning {
  import opened Wrappers
  import opened Tasks
  import opened Settings
  import opened Indexing
  import opened SlotRuns

  // Imports

  /** Where a file names the document `id` for the last time, attribute `a` included when one is asked for. */
  ghost predicate IsLast(batch: seq<(string, Document)>, i: nat, id: string, a: Option<string>) {
    && i < |batch| && batch[i].0 == id && (a.Some? ==> a.value in batch[i].1)
    && forall j | i < j < |batch| :: !(batch[j].0 == id && (a.Some? ==> a.value in batch[j].1))
  }

  ghost predicate Occurs(batch: seq<(string, Document)>, id: string, a: Option<string>) {
    exists e <- batch :: e.0 == id && (a.Some? ==> a.value in e.1)
  }

  lemma OccursSnoc(batch: seq<(string, Document)>, e: (string, Document), id: string, a: Option<string>)
    ensures Occurs(batch + [e], id, a) <==> Occurs(batch, id, a) || (e.0 == id && (a.Some? ==> a.value in e.1))
  {
    assert e in batch + [e] && forall x <- batch :: x in batch + [e];
  }

  lemma LastSnoc(batch: seq<(string, Document)>, e: (string, Document), i: nat, id: string, a: Option<string>)
    requires IsLast(batch + [e], i, id, a)
    ensures i < |batch| ==> IsLast(batch, i, id, a) && !(e.0 == id && (a.Some? ==> a.value in e.1)) && (batch + [e])[i] == batch[i]
    ensures i >= |batch| ==> i == |batch| && (batch + [e])[i] == e
  {
    if i < |batch| {
      assert (batch + [e])[|batch|] == e;
      forall j | i < j < |batch|
        ensures !(batch[j].0 == id && (a.Some? ==> a.value in batch[j].1))
      {
        assert (batch + [e])[j] == batch[j];
      }
    }
  }

  /** A replacing import stores each document as the file last gives it, and leaves the others alone. */
  lemma {:induction false} ReplaceExactly(documents: Documents, batch: seq<(string, Document)>, id: string)
    ensures
      var after := Import(ReplaceDocuments, documents, batch);
      && (id in after <==> id in documents || Occurs(batch, id, None))
      && (!Occurs(batch, id, None) && id in after ==> after[id] == documents[id])
      && forall i: nat | IsLast(batch, i, id, None) :: id in after && after[id] == batch[i].1
  {
    if batch != [] {
      var rest, e := batch[..|batch| - 1], batch[|batch| - 1];
      assert batch == rest + [e];
      ReplaceExactly(documents, rest, id);
      OccursSnoc(rest, e, id, None);
      hide Occurs;
      forall i: nat | IsLast(batch, i, id, None)
        ensures
          var after := Import(ReplaceDocuments, documents, batch);
          id in after && after[id] == batch[i].1
      {
        LastSnoc(rest, e, i, id, None);
      }
    }
  }

  /** An updating import stores each attribute as the file last gives it, and keeps the other attributes. */
  lemma {:induction false} UpdateExactly(documents: Documents, batch: seq<(string, Document)>, id: string, a: string)
    ensures
      var after := Import(UpdateDocuments, documents, batch);
      && (id in after <==> id in documents || Occurs(batch, id, None))
      && (id in after && !Occurs(batch, id, Some(a)) ==>
            (a in after[id] <==> id in documents && a in documents[id])
            && (a in after[id] ==> after[id][a] == documents[id][a]))
      && forall i: nat | IsLast(batch, i, id, Some(a)) :: id in after && a in after[id] && after[id][a] == batch[i].1[a]
  {
    if batch != [] {
      var rest, e := batch[..|batch| - 1], batch[|batch| - 1];
      assert batch == rest + [e];
      UpdateExactly(documents, rest, id, a);
      OccursSnoc(rest, e, id, None);
      OccursSnoc(rest, e, id, Some(a));
      AttributeOccurs(rest, id, a);
      hide Occurs;
      forall i: nat | IsLast(batch, i, id, Some(a))
        ensures
          var after := Import(UpdateDocuments, documents, batch);
          id in after && a in after[id] && after[id][a] == batch[i].1[a]
      {
        LastSnoc(rest, e, i, id, Some(a));
      }
    }
  }

  lemma AttributeOccurs(batch: seq<(string, Document)>, id: string, a: string)
    ensures Occurs(batch, id, Some(a)) ==> Occurs(batch, id, None)
  {
  }

  /** Whether an import is refused, for its key or for its file; it is then as if it had not been. */
  predicate Refused(milli: Milli, index: Index, kind: KindWithContent)
    requires kind.DocumentAdditionOrUpdate?
  {
    || (kind.primaryKey.Some? && index.primaryKey.Some? && kind.primaryKey != index.primaryKey)
    || milli.content(kind.contentFile).None?
  }

  lemma ImportTaskExactly(milli: Milli, index: Index, kind: KindWithContent)
    requires kind.DocumentAdditionOrUpdate?
    ensures
      var r := Effect(milli, Some(index), kind);
      if Refused(milli, index, kind) then r == Some(index)
      else
        && r.Some? && r.value.settings == index.settings
        && r.value.documents == Import(kind.updateMethod, index.documents, milli.content(kind.contentFile).value)
        && r.value.primaryKey == if index.primaryKey.Some? then index.primaryKey else kind.primaryKey
  {
    hide Import, ApplyOperations;
    OneFile(milli, index, kind.primaryKey, kind.updateMethod, kind.contentFile);
  }

  lemma OneFile(milli: Milli, index: Index, pk: Option<string>, m: IndexDocumentsMethod, file: Uuid)
    ensures
      var r := ApplyOperations(milli, index, pk, m, [Add(file)]);
      if pk.Some? && index.primaryKey.Some? && pk != index.primaryKey then r == None
      else if milli.content(file).None? then r == Some(index)
      else
        && r.Some? && r.value.settings == index.settings
        && r.value.documents == Import(m, index.documents, milli.content(file).value)
        && r.value.primaryKey == if index.primaryKey.Some? then index.primaryKey else pk
  {
    var op := Add(file);
    assert op in [op] && forall o <- [op] :: o == op;
    ApplySnoc(milli, m, index.documents, [], op);
    assert [] + [op] == [op];
    hide ApplyDocumentOperations, Import;
    assert ApplyDocumentOperations(milli, m, index.documents, [op]) == ApplyDocumentOperation(milli, m, index.documents, op) by {
      NoOperations(milli, m, index.documents);
    }
    if milli.content(file) == Some([]) {
      ImportNothing(m, index.documents);
    }
  }

  lemma NoOperations(milli: Milli, m: IndexDocumentsMethod, documents: Documents)
    ensures ApplyDocumentOperations(milli, m, documents, []) == documents
  {
  }

  lemma ImportNothing(m: IndexDocumentsMethod, documents: Documents)
    ensures Import(m, documents, []) == documents
  {
  }

  // The other tasks

  /** The documents of `after` are those of `before` that `keep` holds of, unchanged. */
  ghost predicate Keeps(before: Documents, after: Documents, keep: string -> bool) {
    && (forall id :: id in after <==> id in before && keep(id))
    && (forall id <- after :: id in before && after[id] == before[id])
  }

  /** What every task other than imports and settings does to an index that exists. */
  lemma TaskExactly(milli: Milli, index: Index, kind: KindWithContent)
    requires !kind.IsPrioritised() && !kind.IndexSwaps? && !kind.DocumentAdditionOrUpdate? && !kind.SettingsUpdate?
    ensures
      var r := Effect(milli, Some(index), kind);
      match kind
      case DocumentDeletion(_, ids) =>
        r == Some(index.(documents := r.value.documents)) && Keeps(index.documents, r.value.documents, id => id !in ids)
      case DocumentDeletionByFilter(_, filter) =>
        var selected := milli.matching(filter, index.documents, index.settings);
        && r == Some(index.(documents := r.value.documents))
        && Keeps(index.documents, r.value.documents, id => id !in selected)
      case DocumentClear(_) => r == Some(index.(documents := map[]))
      case IndexDeletion(_) => r == None
      case IndexCreation(_, _) => r == Some(index)
      case IndexUpdate(_, pk) =>
        && r == Some(index.(primaryKey := r.value.primaryKey))
        && (pk.None? || (index.documents != map[] && index.primaryKey.Some?) ==> r == Some(index))
        && (pk.Some? && (index.documents == map[] || index.primaryKey.None?) ==> r.value.primaryKey == pk)
      case _ => true
  {
  }

  /** What a task does where there is no index: nothing, unless it may create one. */
  lemma MissingExactly(milli: Milli, kind: KindWithContent)
    requires !kind.IsPrioritised() && !kind.IndexSwaps?
    ensures
      var r := Effect(milli, None, kind);
      match kind
      case DocumentAdditionOrUpdate(_, _, _, _, allow) => r == if allow then Effect(milli, Some(EMPTY_INDEX), kind) else None
      case SettingsUpdate(_, _, isDeletion, allow) =>
        r == if allow && !isDeletion then Effect(milli, Some(EMPTY_INDEX), kind) else None
      case IndexCreation(_, pk) => r == Some(Index(map[], map[], pk))
      case _ => r == None
  {
    hide ApplyOperations, ApplySettings;
  }
}
