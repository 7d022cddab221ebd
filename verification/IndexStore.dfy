/**
 Processing batches in place.

 A write transaction on an index is an object that `ApplyIndexOperation` changes; the store
 commits it, or drops it on an error.  Both are proved against the functions of `Indexing`.
*/
module IndexStore {
  import opened Wrappers
  import opened Tasks
  import opened Settings
  import opened Indexing

  class Transaction {
    var documents: Documents
    var settings: StoredSettings
    var primaryKey: Option<string>

    constructor (index: Index)
      ensures View() == index
    {
      documents := index.documents;
      settings := index.settings;
      primaryKey := index.primaryKey;
    }

    function View(): Index
      reads this
    {
      Index(documents, settings, primaryKey)
    }
  }

  lemma PrefixStep<T>(s: seq<T>, i: nat)
    requires i < |s|
    ensures s[..i + 1][..|s[..i + 1]| - 1] == s[..i] && s[..i + 1][|s[..i + 1]| - 1] == s[i]
    ensures forall x <- s[..i + 1] :: x in s[..i] || x == s[i]
    ensures s[i] in s[..i + 1] && forall x <- s[..i] :: x in s[..i + 1]
  {
    assert s[..i + 1] == s[..i] + [s[i]];
  }

  lemma AddsStep(milli: Milli, ops: seq<DocumentOperation>, i: nat)
    requires i < |ops|
    ensures (exists op <- ops[..i + 1] :: AddsDocuments(milli, op))
       <==> (exists op <- ops[..i] :: AddsDocuments(milli, op)) || AddsDocuments(milli, ops[i])
    ensures (forall op <- ops[..i + 1] :: IsRejected(milli, op))
       <==> (forall op <- ops[..i] :: IsRejected(milli, op)) && IsRejected(milli, ops[i])
  {
    PrefixStep(ops, i);
    if AddsDocuments(milli, ops[i]) {
      assert ops[i] in ops[..i + 1];
    }
  }

  /** All the settings of a batch go through one builder. */
  method ApplySettingsOperation(txn: Transaction, settings: seq<IndexSettings>)
    modifies txn
    ensures txn.View() == ApplySettings(old(txn.View()), settings)
  {
    var builder := new Builder();
    for i := 0 to |settings|
      invariant fresh(builder)
      invariant builder.pending == AllWrites(settings[..i])
      invariant txn.View() == old(txn.View())
    {
      PrefixStep(settings, i);
      ApplySettingsToBuilder(Check(settings[i]), builder);
    }
    assert settings[..|settings|] == settings;
    txn.settings := builder.ExecuteOn(txn.settings);
  }

  /** Imports and deletions go through one document builder, which counts the documents it adds. */
  method BuildDocuments(milli: Milli, m: IndexDocumentsMethod, start: Documents, ops: seq<DocumentOperation>)
    returns (documents: Documents, addedDocuments: nat, allFailed: bool)
    ensures documents == ApplyDocumentOperations(milli, m, start, ops)
    ensures addedDocuments > 0 <==> exists op <- ops :: AddsDocuments(milli, op)
    ensures allFailed <==> forall op <- ops :: IsRejected(milli, op)
  {
    documents, addedDocuments, allFailed := start, 0, true;
    for i := 0 to |ops|
      invariant documents == ApplyDocumentOperations(milli, m, start, ops[..i])
      invariant addedDocuments > 0 <==> exists op <- ops[..i] :: AddsDocuments(milli, op)
      invariant allFailed <==> forall op <- ops[..i] :: IsRejected(milli, op)
    {
      PrefixStep(ops, i);
      AddsStep(milli, ops, i);
      match ops[i] {
        case Add(file) =>
          match milli.content(file) {
            case Some(batch) =>
              documents := Import(m, documents, batch);
              addedDocuments := addedDocuments + |batch|;
              allFailed := false;
            case None =>
          }
        case Delete(ids) =>
          documents := Remove(documents, ids);
          allFailed := false;
      }
    }
    assert ops[..|ops|] == ops;
  }

  method ApplyDocumentOperation(
    milli: Milli, txn: Transaction, pk: Option<string>, m: IndexDocumentsMethod, ops: seq<DocumentOperation>)
    returns (ok: bool)
    modifies txn
    ensures ok <==> ApplyOperations(milli, old(txn.View()), pk, m, ops).Some?
    ensures ok ==> txn.View() == ApplyOperations(milli, old(txn.View()), pk, m, ops).value
  {
    hide ApplyDocumentOperations;
    var primaryKeyHasBeenSet := false;
    if pk.Some? {
      if txn.primaryKey.Some? {
        if pk != txn.primaryKey {
          return false;
        }
      } else {
        txn.primaryKey := pk;
        primaryKeyHasBeenSet := true;
      }
    }
    var documents, addedDocuments, allFailed := BuildDocuments(milli, m, txn.documents, ops);
    if !allFailed {
      // the builder's execute returns early when nothing was added
      if addedDocuments > 0 {
        txn.documents := documents;
      }
    } else if primaryKeyHasBeenSet {
      txn.primaryKey := None;
    }
    return true;
  }

  method ApplyIndexOperationInPlace(milli: Milli, txn: Transaction, op: IndexOperation) returns (ok: bool)
    modifies txn
    ensures ok <==> ApplyIndexOperation(milli, old(txn.View()), op).Some?
    ensures ok ==> txn.View() == ApplyIndexOperation(milli, old(txn.View()), op).value
  {
    ok := true;
    match op {
      case DocumentClear(_) => txn.documents := map[];
      case DocumentOperation(pk, m, ops, _) => ok := ApplyDocumentOperation(milli, txn, pk, m, ops);
      case DocumentDeletion(documents, _) => txn.documents := Remove(txn.documents, Flatten(documents));
      case Settings(settings, _) => ApplySettingsOperation(txn, settings);
      case DocumentClearAndSetting(_, settings, _) =>
        txn.documents := map[];
        ApplySettingsOperation(txn, settings);
      case SettingsAndDocumentOperation(pk, m, ops, _, settings, _) =>
        ApplySettingsOperation(txn, settings);
        ok := ApplyDocumentOperation(milli, txn, pk, m, ops);
    }
  }

  /** The index mapper: the indexes by name. */
  class IndexMapper {
    var indexes: Indexes

    constructor ()
      ensures indexes == map[]
    {
      indexes := map[];
    }

    /** Create the index if it does not exist. */
    method CreateIndex(name: string)
      modifies this
      ensures indexes == if name in old(indexes) then old(indexes) else old(indexes)[name := EMPTY_INDEX]
    {
      if name !in indexes {
        indexes := indexes[name := EMPTY_INDEX];
      }
    }

    method Swap(swap: IndexSwap)
      requires swap.lhs in indexes && swap.rhs in indexes
      modifies this
      ensures indexes == SwapOne(old(indexes), swap)
    {
      var lhs, rhs := indexes[swap.lhs], indexes[swap.rhs];
      indexes := indexes[swap.lhs := rhs];
      indexes := indexes[swap.rhs := lhs];
    }

    /** Process a batch: a failed operation leaves the index it opened as it was. */
    method Process(milli: Milli, batch: IndexBatch)
      modifies this
      ensures indexes == ProcessBatch(milli, old(indexes), batch)
    {
      match batch {
        case IndexOperation(name, op, mustCreate) =>
          if mustCreate {
            CreateIndex(name);
          }
          if name in indexes {
            var txn := new Transaction(indexes[name]);
            var ok := ApplyIndexOperationInPlace(milli, txn, op);
            if ok {
              indexes := indexes[name := txn.View()];
            }
          }
        case IndexDocumentDeletionByFilter(name, filter, _) =>
          if name in indexes {
            var i := indexes[name];
            var selected := milli.matching(filter, i.documents, i.settings);
            indexes := indexes[
              name := i.(documents := map id | id in i.documents && id !in selected :: i.documents[id])];
          }
        case IndexCreation(name, pk, _) =>
          if name !in indexes {
            CreateIndex(name);
            indexes := indexes[name := SetPrimaryKey(indexes[name], pk)];
          }
        case IndexUpdate(name, pk, _) =>
          if name in indexes {
            indexes := indexes[name := SetPrimaryKey(indexes[name], pk)];
          }
        case IndexDeletion(name, _, _) => indexes := indexes - {name};
        case IndexSwap(swaps, _) =>
          if SwapNames(swaps) <= indexes.Keys {
            SwapEach(swaps);
          }
      }
    }

    method SwapEach(swaps: seq<IndexSwap>)
      requires SwapNames(swaps) <= indexes.Keys
      modifies this
      ensures indexes == SwapAll(old(indexes), swaps)
    {
      for i := 0 to |swaps|
        invariant SwapNames(swaps[i..]) <= indexes.Keys
        invariant SwapAll(indexes, swaps[i..]) == SwapAll(old(indexes), swaps)
      {
        assert swaps[i..][0] == swaps[i] && swaps[i..][1..] == swaps[i + 1..];
        Swap(swaps[i]);
      }
    }
  }
}
