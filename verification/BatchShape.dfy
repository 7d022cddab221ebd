/**
 What a batch stands for: the tasks it takes are a prefix of the queue, in the order of the
 queue, and their kinds are such that one batch operation can do the work of all of them.
*/
module BatchShape {
  import opened Wrappers
  import opened Tasks
  import opened Autobatcher

  predicate IsSettings(t: Queued) {
    t.kind.SettingsUpdate?
  }

  predicate IsImport(t: Queued) {
    t.kind.DocumentAdditionOrUpdate?
  }

  /** The kinds that an open batch can hold. */
  predicate IsPlain(t: Queued) {
    IsImport(t) || IsSettings(t) || t.kind.DocumentDeletion? || t.kind.DocumentClear?
  }

  predicate AllPlain(p: seq<Queued>) {
    forall t <- p :: IsPlain(t)
  }

  function Ids(p: seq<Queued>): (ids: seq<TaskId>)
    ensures |ids| == |p|
  {
    if p == [] then [] else Ids(p[..|p| - 1]) + [p[|p| - 1].id]
  }

  /** The tasks of `p` that work on documents, in order. */
  function Docs(p: seq<Queued>): (docs: seq<Queued>)
    ensures forall t <- docs :: !IsSettings(t) && t in p
  {
    if p == [] then []
    else Docs(p[..|p| - 1]) + if IsSettings(p[|p| - 1]) then [] else [p[|p| - 1]]
  }

  /** The settings tasks of `p`, in order. */
  function Setts(p: seq<Queued>): (settings: seq<Queued>)
    ensures forall t <- settings :: IsSettings(t) && t in p
  {
    if p == [] then []
    else Setts(p[..|p| - 1]) + if IsSettings(p[|p| - 1]) then [p[|p| - 1]] else []
  }

  /** The documents are cleared and nothing is imported afterwards. */
  predicate EndsCleared(p: seq<Queued>) {
    && p != []
    && var t := p[|p| - 1];
       t.kind.DocumentClear? || (t.kind.DocumentDeletion? && EndsCleared(p[..|p| - 1]))
  }

  /** Imports with one method, and deletions. */
  predicate OneMethod(p: seq<Queued>, m: IndexDocumentsMethod) {
    forall t <- p :: (IsImport(t) && t.kind.updateMethod == m) || t.kind.DocumentDeletion?
  }

  /** The key declared by the last import of `p`, if there is an import. */
  function LastKey(p: seq<Queued>): Option<Option<string>> {
    if p == [] then None
    else if IsImport(p[|p| - 1]) then Some(p[|p| - 1].kind.primaryKey)
    else LastKey(p[..|p| - 1])
  }

  /** Each import after the first declares the key of the import before it, or the key of the index. */
  predicate KeyRun(p: seq<Queued>, primaryKey: Option<string>) {
    p == []
    || (&& KeyRun(p[..|p| - 1], primaryKey)
        && var t := p[|p| - 1];
           IsImport(t) ==> JoinsRun(p[..|p| - 1], t, primaryKey))
  }

  predicate JoinsRun(p: seq<Queued>, t: Queued, primaryKey: Option<string>)
    requires IsImport(t)
  {
    || LastKey(p).None?
    || LastKey(p) == Some(t.kind.primaryKey)
    || (primaryKey.Some? && t.kind.primaryKey == primaryKey)
  }

  /** The tasks that create a missing index. */
  predicate CanCreate(kind: KindWithContent) {
    || (kind.DocumentAdditionOrUpdate? && kind.allowIndexCreation)
    || (kind.SettingsUpdate? && kind.allowIndexCreation && !kind.isDeletion)
    || kind.IndexCreation?
  }

  /**
   An index deletion swallows the batch before it, with one of its two id lists behind its own id:
   the list of the settings, but for a batch that clears the documents.
  */
  ghost predicate DeletionIds(ids: seq<TaskId>, before: seq<Queued>, t: Queued) {
    && t.kind.IndexDeletion?
    && ids == if Setts(before) != [] && (Docs(before) == [] || EndsCleared(Docs(before))) then
                Ids(Setts(before)) + [t.id] + Ids(Docs(before))
              else
                Ids(Docs(before)) + [t.id] + Ids(Setts(before))
  }

  /** `batch` stands for the tasks `p`, each of its id lists in the order of the queue. */
  ghost predicate Summarises(batch: BatchKind, p: seq<Queued>) {
    match batch
    case DocumentClear(ids) => AllPlain(p) && Setts(p) == [] && ids == Ids(p) && EndsCleared(p)
    case DocumentOperation(m, _, pk, ids) =>
      AllPlain(p) && Setts(p) == [] && ids == Ids(p) && OneMethod(p, m) && LastKey(p) == Some(pk)
    case DocumentDeletion(ids) => p != [] && ids == Ids(p) && forall t <- p :: t.kind.DocumentDeletion?
    case Settings(_, ids) => p != [] && ids == Ids(p) && forall t <- p :: IsSettings(t)
    case ClearAndSettings(other, _, ids) =>
      AllPlain(p) && other == Ids(Docs(p)) && ids == Ids(Setts(p)) && ids != [] && EndsCleared(Docs(p))
    case SettingsAndDocumentOperation(sids, m, _, pk, ids) =>
      && AllPlain(p) && ids == Ids(Docs(p)) && sids == Ids(Setts(p)) && sids != []
      && OneMethod(Docs(p), m) && LastKey(p) == Some(pk)
    case IndexDeletion(ids) =>
      p != [] && AllPlain(p[..|p| - 1]) && DeletionIds(ids, p[..|p| - 1], p[|p| - 1])
    case DocumentDeletionByFilter(id) => |p| == 1 && p[0].id == id && p[0].kind.DocumentDeletionByFilter?
    case IndexCreation(id) => |p| == 1 && p[0].id == id && p[0].kind.IndexCreation?
    case IndexUpdate(id) => |p| == 1 && p[0].id == id && p[0].kind.IndexUpdate?
    case IndexSwap(id) => |p| == 1 && p[0].id == id && p[0].kind.IndexSwaps?
  }

  lemma Snoc(p: seq<Queued>, t: Queued)
    ensures (p + [t])[..|p + [t]| - 1] == p
    ensures Ids(p + [t]) == Ids(p) + [t.id]
    ensures Docs(p + [t]) == if IsSettings(t) then Docs(p) else Docs(p) + [t]
    ensures Setts(p + [t]) == if IsSettings(t) then Setts(p) + [t] else Setts(p)
    ensures LastKey(p + [t]) == if IsImport(t) then Some(t.kind.primaryKey) else LastKey(p)
    ensures AllPlain(p + [t]) <==> AllPlain(p) && IsPlain(t)
    ensures EndsCleared(p + [t]) <==> t.kind.DocumentClear? || (t.kind.DocumentDeletion? && EndsCleared(p))
    ensures forall key :: KeyRun(p, key) && (IsImport(t) ==> JoinsRun(p, t, key)) ==> KeyRun(p + [t], key)
    ensures forall m :: OneMethod(p, m) && ((IsImport(t) && t.kind.updateMethod == m) || t.kind.DocumentDeletion?) ==> OneMethod(p + [t], m)
  {
    assert (p + [t])[..|p + [t]| - 1] == p;
    assert t in p + [t];
    assert forall u <- p :: u in p + [t];
  }

  lemma EmptyParts()
    ensures Docs([]) == [] && Setts([]) == [] && Ids([]) == []
  {
  }

  lemma {:induction false} NoSettings(p: seq<Queued>)
    requires Setts(p) == [] || forall t <- p :: !IsSettings(t)
    ensures Docs(p) == p && Setts(p) == []
  {
    hide Docs, Setts, Ids, LastKey, EndsCleared, KeyRun;
    EmptyParts();
    if p != [] {
      var q, t := p[..|p| - 1], p[|p| - 1];
      assert p == q + [t];
      Snoc(q, t);
      NoSettings(q);
    }
  }

  lemma {:induction false} OnlySettings(p: seq<Queued>)
    requires forall t <- p :: IsSettings(t)
    ensures Docs(p) == [] && Setts(p) == p
  {
    hide Docs, Setts, Ids, LastKey, EndsCleared, KeyRun;
    EmptyParts();
    if p != [] {
      var q, t := p[..|p| - 1], p[|p| - 1];
      assert p == q + [t];
      Snoc(q, t);
      OnlySettings(q);
    }
  }

  lemma {:induction false} DocsHold(p: seq<Queued>)
    ensures forall t <- p :: !IsSettings(t) ==> t in Docs(p)
  {
    if p != [] {
      var q, t := p[..|p| - 1], p[|p| - 1];
      assert p == q + [t];
      DocsHold(q);
      Snoc(q, t);
    }
  }

  lemma {:induction false} NoImportNoKey(p: seq<Queued>)
    requires forall t <- p :: !IsImport(t)
    ensures LastKey(p).None?
  {
    if p != [] {
      NoImportNoKey(p[..|p| - 1]);
    }
  }

  /** How the facts about one id list grow by one task. */
  lemma SnocIds(p: seq<Queued>, t: Queued)
    ensures Ids(p + [t]) == Ids(p) + [t.id]
    ensures EndsCleared(p + [t]) <==> t.kind.DocumentClear? || (t.kind.DocumentDeletion? && EndsCleared(p))
    ensures forall m :: OneMethod(p, m) && ((IsImport(t) && t.kind.updateMethod == m) || t.kind.DocumentDeletion?) ==> OneMethod(p + [t], m)
  {
    assert (p + [t])[..|p + [t]| - 1] == p;
  }

  function Next(batch: BatchKind, t: Queued, indexExists: bool, primaryKey: Option<string>): BatchKind
    requires batch.IsOpen() && !t.kind.IsPrioritised()
  {
    Accumulate(batch, t.id, FromKind(t.kind), indexExists, primaryKey).batch
  }

  /** `batch` stands for `p` and takes `t` too. */
  ghost predicate Grows(batch: BatchKind, p: seq<Queued>, t: Queued, indexExists: bool, primaryKey: Option<string>) {
    && batch.IsOpen() && Summarises(batch, p) && !t.kind.IsPrioritised()
    && Accumulate(batch, t.id, FromKind(t.kind), indexExists, primaryKey).Continue?
  }

  lemma GrowClear(batch: BatchKind, p: seq<Queued>, t: Queued, indexExists: bool, primaryKey: Option<string>)
    requires batch.DocumentClear? && Grows(batch, p, t, indexExists, primaryKey)
    ensures Summarises(Next(batch, t, indexExists, primaryKey), p + [t])
  {
    hide Docs, Setts, Ids, EndsCleared, LastKey;
    Snoc(p, t);
  }

  lemma GrowDeletion(batch: BatchKind, p: seq<Queued>, t: Queued, indexExists: bool, primaryKey: Option<string>)
    requires batch.DocumentDeletion? && Grows(batch, p, t, indexExists, primaryKey)
    ensures Summarises(Next(batch, t, indexExists, primaryKey), p + [t])
  {
    hide Docs, Setts, Ids, EndsCleared, LastKey;
    Snoc(p, t);
    NoSettings(p);
  }

  lemma GrowOperation(batch: BatchKind, p: seq<Queued>, t: Queued, indexExists: bool, primaryKey: Option<string>)
    requires batch.DocumentOperation? && Grows(batch, p, t, indexExists, primaryKey)
    ensures Summarises(Next(batch, t, indexExists, primaryKey), p + [t])
  {
    hide Docs, Setts, Ids, EndsCleared, LastKey;
    Snoc(p, t);
    if IsSettings(t) {
      NoSettings(p);
      SnocIds([], t);
      assert Setts(p + [t]) == [] + [t];
    }
  }

  lemma GrowSettings(batch: BatchKind, p: seq<Queued>, t: Queued, indexExists: bool, primaryKey: Option<string>)
    requires batch.Settings? && Grows(batch, p, t, indexExists, primaryKey)
    ensures Summarises(Next(batch, t, indexExists, primaryKey), p + [t])
  {
    hide Docs, Setts, Ids, EndsCleared, LastKey;
    Snoc(p, t);
    if !IsSettings(t) {
      OnlySettings(p);
      SnocIds([], t);
      assert Docs(p + [t]) == [] + [t];
    }
  }

  lemma GrowClearAndSettings(batch: BatchKind, p: seq<Queued>, t: Queued, indexExists: bool, primaryKey: Option<string>)
    requires batch.ClearAndSettings? && Grows(batch, p, t, indexExists, primaryKey)
    ensures Summarises(Next(batch, t, indexExists, primaryKey), p + [t])
  {
    hide Docs, Setts, Ids, EndsCleared, LastKey;
    Snoc(p, t);
    if IsSettings(t) {
      SnocIds(Setts(p), t);
    } else {
      SnocIds(Docs(p), t);
    }
  }

  lemma GrowSettingsAndOperation(batch: BatchKind, p: seq<Queued>, t: Queued, indexExists: bool, primaryKey: Option<string>)
    requires batch.SettingsAndDocumentOperation? && Grows(batch, p, t, indexExists, primaryKey)
    ensures Summarises(Next(batch, t, indexExists, primaryKey), p + [t])
  {
    hide Docs, Setts, Ids, EndsCleared, LastKey;
    Snoc(p, t);
    if IsSettings(t) {
      SnocIds(Setts(p), t);
    } else {
      SnocIds(Docs(p), t);
    }
  }

  lemma GrowSummary(batch: BatchKind, p: seq<Queued>, t: Queued, indexExists: bool, primaryKey: Option<string>)
    requires Grows(batch, p, t, indexExists, primaryKey)
    ensures Summarises(Next(batch, t, indexExists, primaryKey), p + [t])
  {
    match batch
    case DocumentClear(_) => GrowClear(batch, p, t, indexExists, primaryKey);
    case DocumentOperation(_, _, _, _) => GrowOperation(batch, p, t, indexExists, primaryKey);
    case DocumentDeletion(_) => GrowDeletion(batch, p, t, indexExists, primaryKey);
    case Settings(_, _) => GrowSettings(batch, p, t, indexExists, primaryKey);
    case ClearAndSettings(_, _, _) => GrowClearAndSettings(batch, p, t, indexExists, primaryKey);
    case SettingsAndDocumentOperation(_, _, _, _, _) => GrowSettingsAndOperation(batch, p, t, indexExists, primaryKey);
  }

  /** A batch that stops is left as it was, or is swallowed by an index deletion. */
  lemma StopSummary(batch: BatchKind, p: seq<Queued>, t: Queued, indexExists: bool, primaryKey: Option<string>)
    requires batch.IsOpen() && Summarises(batch, p) && !t.kind.IsPrioritised()
    requires Accumulate(batch, t.id, FromKind(t.kind), indexExists, primaryKey).Break?
    ensures
      var final := Next(batch, t, indexExists, primaryKey);
      final == batch || (final.IndexDeletion? && AllPlain(p) && DeletionIds(final.ids, p, t))
  {
    hide Docs, Setts, Ids, EndsCleared, LastKey, OneMethod;
    if batch.Settings? {
      OnlySettings(p);
    } else if batch.SettingsAndDocumentOperation? {
      MethodNotCleared(Docs(p), batch.updateMethod);
      ImportIsDoc(p);
    } else if !batch.ClearAndSettings? {
      NoSettings(p);
    }
    EmptyParts();
  }

  lemma {:induction false} MethodNotCleared(docs: seq<Queued>, m: IndexDocumentsMethod)
    requires OneMethod(docs, m)
    ensures !EndsCleared(docs)
  {
    if docs != [] {
      assert docs[|docs| - 1] in docs && forall t <- docs[..|docs| - 1] :: t in docs;
      MethodNotCleared(docs[..|docs| - 1], m);
    }
  }

  lemma {:induction false} ImportIsDoc(p: seq<Queued>)
    requires LastKey(p).Some?
    ensures Docs(p) != []
  {
    if !IsImport(p[|p| - 1]) {
      ImportIsDoc(p[..|p| - 1]);
    }
  }

  lemma GrowKeys(batch: BatchKind, p: seq<Queued>, t: Queued, indexExists: bool, primaryKey: Option<string>)
    requires Grows(batch, p, t, indexExists, primaryKey) && KeyRun(p, primaryKey)
    ensures KeyRun(p + [t], primaryKey)
  {
    hide Docs, Setts, Ids, EndsCleared;
    Snoc(p, t);
    if batch.DocumentDeletion? {
      NoImportNoKey(p);
    }
  }

  /** If the index is missing and the batch does not create it, none of its tasks could. */
  ghost predicate CreationRights(batch: BatchKind, p: seq<Queued>, indexExists: bool) {
    !indexExists ==> batch.AllowIndexCreation() != Some(true) && forall t <- p :: !CanCreate(t.kind)
  }

  lemma GrowRights(batch: BatchKind, p: seq<Queued>, t: Queued, indexExists: bool, primaryKey: Option<string>)
    requires Grows(batch, p, t, indexExists, primaryKey) && CreationRights(batch, p, indexExists)
    ensures CreationRights(Next(batch, t, indexExists, primaryKey), p + [t], indexExists)
  {
    hide Summarises;
  }

  /** What holds of the batch and of the tasks it has taken when the loop of `Autobatch` ends. */
  ghost predicate Batched(final: BatchKind, p: seq<Queued>, indexExists: bool, primaryKey: Option<string>) {
    && Summarises(final, p)
    && KeyRun(p, primaryKey)
    && (!indexExists ==> forall t <- p :: !CanCreate(t.kind))
  }

  /** A stopped loop leaves a final batch, with or without the task that stopped it. */
  lemma StopBatched(batch: BatchKind, p: seq<Queued>, t: Queued, indexExists: bool, primaryKey: Option<string>)
    requires batch.IsOpen() && Summarises(batch, p) && KeyRun(p, primaryKey) && CreationRights(batch, p, indexExists)
    requires !t.kind.IsPrioritised()
    requires Accumulate(batch, t.id, FromKind(t.kind), indexExists, primaryKey).Break?
    requires Next(batch, t, indexExists, primaryKey) != batch
    ensures Batched(Next(batch, t, indexExists, primaryKey), p + [t], indexExists, primaryKey)
  {
    StopSummary(batch, p, t, indexExists, primaryKey);
    assert (p + [t])[..|p + [t]| - 1] == p;
  }

  lemma OpenIsBatched(batch: BatchKind, p: seq<Queued>, indexExists: bool, primaryKey: Option<string>)
    requires Summarises(batch, p) && KeyRun(p, primaryKey) && CreationRights(batch, p, indexExists)
    ensures Batched(batch, p, indexExists, primaryKey)
  {
  }

  lemma {:induction false} FoldSummary(
    batch: BatchKind, p: seq<Queued>, rest: seq<Queued>, indexExists: bool, primaryKey: Option<string>)
    requires batch.IsOpen() && Summarises(batch, p) && KeyRun(p, primaryKey) && CreationRights(batch, p, indexExists)
    requires forall t <- rest :: !t.kind.IsPrioritised()
    ensures
      var (final, n) := Fold(batch, rest, indexExists, primaryKey);
      Batched(final, p + rest[..n], indexExists, primaryKey)
    decreases |rest|
  {
    hide Summarises, Accumulate, KeyRun, CreationRights, Batched;
    var (final, n) := Fold(batch, rest, indexExists, primaryKey);
    if n == 0 {
      OpenIsBatched(batch, p, indexExists, primaryKey);
      assert p + rest[..n] == p;
    } else {
      var t := rest[0];
      if Accumulate(batch, t.id, FromKind(t.kind), indexExists, primaryKey).Continue? {
        GrowSummary(batch, p, t, indexExists, primaryKey);
        GrowKeys(batch, p, t, indexExists, primaryKey);
        GrowRights(batch, p, t, indexExists, primaryKey);
        FoldSummary(Next(batch, t, indexExists, primaryKey), p + [t], rest[1..], indexExists, primaryKey);
        assert p + [t] + rest[1..][..n - 1] == p + rest[..n];
      } else {
        StopBatched(batch, p, t, indexExists, primaryKey);
        assert p + rest[..n] == p + [t];
      }
    }
  }

  lemma Singleton(t: Queued, primaryKey: Option<string>)
    ensures [t][..0] == [] && Ids([t]) == [t.id]
    ensures Setts([t]) == if IsSettings(t) then [t] else []
    ensures LastKey([t]) == if IsImport(t) then Some(t.kind.primaryKey) else None
    ensures EndsCleared([t]) <==> t.kind.DocumentClear?
    ensures KeyRun([t], primaryKey)
  {
    Snoc([], t);
    assert [] + [t] == [t];
    assert KeyRun([], primaryKey);
  }

  /** The first task alone is a batch, open or final. */
  lemma NewSummary(t: Queued, primaryKey: Option<string>)
    requires !t.kind.IsPrioritised()
    ensures
      var (flow, create) := New(t.id, t.kind, primaryKey);
      && create == CanCreate(t.kind)
      && Summarises(flow.batch, [t])
      && KeyRun([t], primaryKey)
      && (flow.Continue? ==> flow.batch.IsOpen() && (!create ==> flow.batch.AllowIndexCreation() != Some(true)))
  {
    hide Docs, Setts, Ids, EndsCleared, LastKey, KeyRun;
    Singleton(t, primaryKey);
    if t.kind.IndexDeletion? {
      EmptyParts();
    }
  }

  /**
   The batch made from a queue stands for a non-empty prefix of that queue, in queue order; its
   imports declare agreeing keys; and if it neither finds nor creates the index, none of its
   tasks could have created it.
  */
  lemma AutobatchTakesPrefix(enqueued: seq<Queued>, indexAlreadyExists: bool, primaryKey: Option<string>)
    requires enqueued != []
    requires forall t <- enqueued :: !t.kind.IsPrioritised()
    ensures
      var o := BatchOf(enqueued, indexAlreadyExists, primaryKey);
      && 1 <= o.taken <= |enqueued|
      && Batched(o.batch, enqueued[..o.taken], indexAlreadyExists || o.mustCreateIndex, primaryKey)
      && o.mustCreateIndex == CanCreate(enqueued[0].kind)
  {
    hide Summarises, Accumulate, KeyRun;
    var t := enqueued[0];
    var (flow, create) := New(t.id, t.kind, primaryKey);
    NewSummary(t, primaryKey);
    if flow.Continue? {
      FoldSummary(flow.batch, [t], enqueued[1..], indexAlreadyExists || create, primaryKey);
      var n := Fold(flow.batch, enqueued[1..], indexAlreadyExists || create, primaryKey).1;
      assert [t] + enqueued[1..][..n] == enqueued[..n + 1];
    } else {
      assert enqueued[..1] == [t];
    }
  }

  lemma {:induction false} PartsIds(p: seq<Queued>)
    ensures multiset(Ids(Docs(p))) + multiset(Ids(Setts(p))) == multiset(Ids(p))
  {
    hide Docs, Setts, Ids, EndsCleared, LastKey, KeyRun;
    EmptyParts();
    if p != [] {
      var q, t := p[..|p| - 1], p[|p| - 1];
      assert p == q + [t];
      PartsIds(q);
      Snoc(q, t);
      SnocIds(Docs(q), t);
      SnocIds(Setts(q), t);
    }
  }

  lemma DeletionIdsPermute(ids: seq<TaskId>, q: seq<Queued>, t: Queued)
    requires DeletionIds(ids, q, t)
    ensures multiset(ids) == multiset(Ids(q + [t]))
  {
    hide Docs, Setts, Ids, EndsCleared, LastKey, KeyRun;
    PartsIds(q);
    SnocIds(q, t);
  }

  /** The ids of a batch are those of the tasks it stands for, each as often. */
  lemma BatchIdsPermute(final: BatchKind, p: seq<Queued>)
    requires Summarises(final, p)
    ensures multiset(final.Ids()) == multiset(Ids(p))
  {
    hide Docs, Setts, Ids, EndsCleared, LastKey, OneMethod;
    if final.ClearAndSettings? || final.SettingsAndDocumentOperation? {
      PartsIds(p);
    } else if final.IndexDeletion? {
      assert p == p[..|p| - 1] + [p[|p| - 1]];
      DeletionIdsPermute(final.ids, p[..|p| - 1], p[|p| - 1]);
    } else if |p| == 1 {
      Singleton(p[0], None);
      assert p == [p[0]];
    }
  }
}
