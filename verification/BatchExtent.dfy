/**
 How far a batch reaches.

 `Follows` says, from the tasks alone, whether a task joins the tasks before it; the autobatcher
 takes exactly the longest front of the queue in which every task follows.
*/
module BatchExtent {
  import opened Wrappers
  import opened Tasks
  import opened Autobatcher
  import opened BatchShape

  predicate HasClear(p: seq<Queued>) {
    exists t <- p :: t.kind.DocumentClear?
  }

  predicate HasSettings(p: seq<Queued>) {
    exists t <- p :: IsSettings(t)
  }

  predicate HasImport(p: seq<Queued>) {
    exists t <- p :: IsImport(t)
  }

  predicate ImportsBy(p: seq<Queued>, m: IndexDocumentsMethod) {
    forall t <- p :: IsImport(t) ==> t.kind.updateMethod == m
  }

  /** A batch can grow from the first task: not from an index operation, nor from an import with a foreign key. */
  predicate Opens(t: Queued, primaryKey: Option<string>) {
    && IsPlain(t)
    && (IsImport(t) && primaryKey.Some? && t.kind.primaryKey.Some? ==> t.kind.primaryKey == primaryKey)
  }

  /**
   The kinds that can be executed together: a clear goes with everything; a deletion with documents
   alone or after a clear; an import behind other imports of its method or behind deletions, but not
   behind a clear; settings with settings, or behind imports.
  */
  predicate GoesWith(p: seq<Queued>, t: Queued) {
    match t.kind
    case DocumentClear(_) => true
    case DocumentDeletion(_, _) => HasClear(p) || !HasSettings(p)
    case DocumentAdditionOrUpdate(_, _, m, _, _) =>
      !HasClear(p) && (exists u <- p :: !IsSettings(u)) && ImportsBy(p, m)
    case SettingsUpdate(_, _, _, _) => HasSettings(p) || (HasImport(p) && !HasClear(p))
    case _ => false
  }

  /** The task joins the batch of the tasks before it, and the batch goes on. */
  predicate Joins(p: seq<Queued>, t: Queued, indexExists: bool, primaryKey: Option<string>) {
    && GoesWith(p, t)
    && (indexExists || !CanCreate(t.kind))
    && (IsImport(t) ==> JoinsRun(p, t, primaryKey))
  }

  /** The task is taken by the batch of the tasks before it; an index deletion ends it. */
  predicate Follows(p: seq<Queued>, t: Queued, indexExists: bool, primaryKey: Option<string>) {
    t.kind.IndexDeletion? || Joins(p, t, indexExists, primaryKey)
  }

  /** Task `i` is reached: every task up to it follows those before, and none before it ends the batch. */
  predicate Reached(queue: seq<Queued>, i: nat, indexExists: bool, primaryKey: Option<string>)
    requires i < |queue|
  {
    i > 0 ==>
      && Opens(queue[0], primaryKey)
      && (forall j | 1 <= j <= i :: Follows(queue[..j], queue[j], indexExists, primaryKey))
      && (forall j | 1 <= j < i :: !queue[j].kind.IndexDeletion?)
  }

  lemma {:induction false} ClearedHasClear(p: seq<Queued>)
    requires EndsCleared(p)
    ensures HasClear(p)
  {
    var t := p[|p| - 1];
    assert t in p;
    if !t.kind.DocumentClear? {
      ClearedHasClear(p[..|p| - 1]);
      var u :| u in p[..|p| - 1] && u.kind.DocumentClear?;
      assert u in p;
    }
  }

  lemma {:induction false} KeyHasImport(p: seq<Queued>)
    requires LastKey(p).Some?
    ensures HasImport(p)
  {
    var t := p[|p| - 1];
    assert t in p;
    if !IsImport(t) {
      KeyHasImport(p[..|p| - 1]);
      var u :| u in p[..|p| - 1] && IsImport(u);
      assert u in p;
    }
  }

  lemma {:induction false} SettsHold(p: seq<Queued>)
    ensures forall t <- p :: IsSettings(t) ==> t in Setts(p)
  {
    if p != [] {
      var q, t := p[..|p| - 1], p[|p| - 1];
      assert p == q + [t];
      SettsHold(q);
      Snoc(q, t);
    }
  }

  /** What an open batch tells about the kinds of its tasks. */
  lemma ShapeKinds(batch: BatchKind, p: seq<Queued>)
    requires batch.IsOpen() && Summarises(batch, p)
    ensures HasClear(p) <==> batch.DocumentClear? || batch.ClearAndSettings?
    ensures HasSettings(p) <==> batch.Settings? || batch.ClearAndSettings? || batch.SettingsAndDocumentOperation?
    ensures batch.DocumentOperation? || batch.SettingsAndDocumentOperation? ==>
      && HasImport(p) && LastKey(p) == Some(batch.primaryKey)
      && forall m :: ImportsBy(p, m) <==> m == batch.updateMethod
    ensures batch.DocumentDeletion? || batch.Settings? ==> !HasImport(p) && LastKey(p).None? && forall m :: ImportsBy(p, m)
    ensures (exists t <- p :: !IsSettings(t)) <==> !batch.Settings?
  {
    hide Docs, Setts, Ids, EndsCleared, LastKey, OneMethod;
    DocsHold(p);
    SettsHold(p);
    match batch {
      case DocumentClear(_) => ClearedHasClear(p);
      case ClearAndSettings(_, _, _) =>
        ClearedHasClear(Docs(p));
        assert Setts(p)[0] in Setts(p);
      case DocumentOperation(m, _, _, _) =>
        KeyHasImport(p);
        MethodOf(p, p, m);
      case SettingsAndDocumentOperation(_, m, _, _, _) =>
        KeyHasImport(p);
        MethodOf(p, Docs(p), m);
        assert Setts(p)[0] in Setts(p);
      case DocumentDeletion(_) =>
        assert p[0] in p;
        NoImportNoKey(p);
      case Settings(_, _) =>
        assert p[0] in p;
        NoImportNoKey(p);
    }
  }

  lemma MethodOf(p: seq<Queued>, docs: seq<Queued>, m: IndexDocumentsMethod)
    requires OneMethod(docs, m) && forall t <- p :: !IsSettings(t) ==> t in docs
    ensures !HasClear(p) && ImportsBy(p, m)
  {
  }

  /** One step of the loop, from the tasks alone. */
  lemma StepFollows(batch: BatchKind, p: seq<Queued>, t: Queued, indexExists: bool, primaryKey: Option<string>)
    requires batch.IsOpen() && Summarises(batch, p) && CreationRights(batch, p, indexExists) && !t.kind.IsPrioritised()
    ensures
      var flow := Accumulate(batch, t.id, FromKind(t.kind), indexExists, primaryKey);
      && (flow.Continue? <==> Joins(p, t, indexExists, primaryKey))
      && (flow.Break? ==> (flow.batch != batch <==> t.kind.IndexDeletion?))
  {
    hide Summarises, LastKey, HasClear, HasSettings, HasImport, ImportsBy;
    ShapeKinds(batch, p);
  }

  /** What `FoldReaches` says of the first `n` of `rest`. */
  ghost predicate Reaches(p: seq<Queued>, rest: seq<Queued>, n: nat, indexExists: bool, primaryKey: Option<string>)
    requires n <= |rest|
  {
    && (forall i | 0 <= i < n :: Follows(p + rest[..i], rest[i], indexExists, primaryKey))
    && (forall i | 0 <= i < n - 1 :: !rest[i].kind.IndexDeletion?)
    && (n < |rest| ==>
          (n > 0 && rest[n - 1].kind.IndexDeletion?) || !Follows(p + rest[..n], rest[n], indexExists, primaryKey))
  }

  lemma ReachesOneMore(p: seq<Queued>, rest: seq<Queued>, n: nat, indexExists: bool, primaryKey: Option<string>)
    requires rest != [] && n < |rest| && Reaches(p + [rest[0]], rest[1..], n, indexExists, primaryKey)
    requires Follows(p, rest[0], indexExists, primaryKey) && !rest[0].kind.IndexDeletion?
    ensures Reaches(p, rest, n + 1, indexExists, primaryKey)
  {
    hide Follows;
    assert p + rest[..0] == p;
    forall i | 1 <= i < |rest|
      ensures p + [rest[0]] + rest[1..][..i - 1] == p + rest[..i] && rest[1..][i - 1] == rest[i]
    {
    }
    forall i | 0 <= i < n + 1
      ensures Follows(p + rest[..i], rest[i], indexExists, primaryKey)
    {
      if i > 0 {
        assert Follows(p + [rest[0]] + rest[1..][..i - 1], rest[1..][i - 1], indexExists, primaryKey);
      }
    }
    forall i | 0 <= i < n
      ensures !rest[i].kind.IndexDeletion?
    {
      assert i > 0 ==> !rest[1..][i - 1].kind.IndexDeletion?;
    }
  }

  lemma {:induction false} FoldReaches(
    batch: BatchKind, p: seq<Queued>, rest: seq<Queued>, indexExists: bool, primaryKey: Option<string>)
    requires batch.IsOpen() && Summarises(batch, p) && KeyRun(p, primaryKey) && CreationRights(batch, p, indexExists)
    requires forall t <- rest :: !t.kind.IsPrioritised()
    ensures Reaches(p, rest, Fold(batch, rest, indexExists, primaryKey).1, indexExists, primaryKey)
    decreases |rest|
  {
    hide Summarises, Accumulate, KeyRun, CreationRights, Joins, Follows, Reaches, JoinsRun;
    if rest == [] {
      ReachesEmpty(p, rest, indexExists, primaryKey);
    } else {
      var t := rest[0];
      StepFollows(batch, p, t, indexExists, primaryKey);
      if Joins(p, t, indexExists, primaryKey) {
        GrowSummary(batch, p, t, indexExists, primaryKey);
        GrowKeys(batch, p, t, indexExists, primaryKey);
        GrowRights(batch, p, t, indexExists, primaryKey);
        DeletionNeverJoins(p, t, indexExists, primaryKey);
        var next := Next(batch, t, indexExists, primaryKey);
        FoldReaches(next, p + [t], rest[1..], indexExists, primaryKey);
        ReachesOneMore(p, rest, Fold(next, rest[1..], indexExists, primaryKey).1, indexExists, primaryKey);
      } else {
        ReachesLast(p, rest, indexExists, primaryKey);
      }
    }
  }

  lemma ReachesEmpty(p: seq<Queued>, rest: seq<Queued>, indexExists: bool, primaryKey: Option<string>)
    requires rest == []
    ensures Reaches(p, rest, 0, indexExists, primaryKey)
  {
  }

  lemma ReachesLast(p: seq<Queued>, rest: seq<Queued>, indexExists: bool, primaryKey: Option<string>)
    requires rest != [] && !Joins(p, rest[0], indexExists, primaryKey)
    ensures Reaches(p, rest, if rest[0].kind.IndexDeletion? then 1 else 0, indexExists, primaryKey)
  {
    hide Joins;
    assert p + rest[..0] == p;
  }

  lemma DeletionNeverJoins(p: seq<Queued>, t: Queued, indexExists: bool, primaryKey: Option<string>)
    ensures Joins(p, t, indexExists, primaryKey) ==> !t.kind.IndexDeletion? && Follows(p, t, indexExists, primaryKey)
  {
  }

  lemma FirstOpens(t: Queued, primaryKey: Option<string>)
    requires !t.kind.IsPrioritised()
    ensures New(t.id, t.kind, primaryKey).0.Continue? <==> Opens(t, primaryKey)
  {
  }

  lemma {:induction false} TakenIs(enqueued: seq<Queued>, indexAlreadyExists: bool, primaryKey: Option<string>)
    requires enqueued != [] && forall t <- enqueued :: !t.kind.IsPrioritised()
    ensures
      var t := enqueued[0];
      var first, exists_ := New(t.id, t.kind, primaryKey).0.batch, indexAlreadyExists || CanCreate(t.kind);
      && (Opens(t, primaryKey) ==> first.IsOpen())
      && BatchOf(enqueued, indexAlreadyExists, primaryKey).taken
      == if Opens(t, primaryKey) then Fold(first, enqueued[1..], exists_, primaryKey).1 + 1 else 1
  {
    hide Summarises, KeyRun, New, Opens, Fold;
    NewSummary(enqueued[0], primaryKey);
    FirstOpens(enqueued[0], primaryKey);
  }

  /** The batch takes exactly the tasks that are reached. */
  lemma {:induction false} BatchReaches(enqueued: seq<Queued>, indexAlreadyExists: bool, primaryKey: Option<string>, i: nat)
    requires i < |enqueued| && forall t <- enqueued :: !t.kind.IsPrioritised()
    ensures i < BatchOf(enqueued, indexAlreadyExists, primaryKey).taken
       <==> Reached(enqueued, i, indexAlreadyExists || CanCreate(enqueued[0].kind), primaryKey)
  {
    hide Summarises, KeyRun, Follows, New, Opens, Reaches, CreationRights, Fold, BatchOf;
    var t := enqueued[0];
    var exists_ := indexAlreadyExists || CanCreate(t.kind);
    NewSummary(t, primaryKey);
    TakenIs(enqueued, indexAlreadyExists, primaryKey);
    if Opens(t, primaryKey) {
      var first := New(t.id, t.kind, primaryKey).0.batch;
      FirstRights(t, exists_, primaryKey);
      FoldReaches(first, [t], enqueued[1..], exists_, primaryKey);
      ReachesQueue(enqueued, Fold(first, enqueued[1..], exists_, primaryKey).1, exists_, primaryKey);
    }
  }

  lemma FirstRights(t: Queued, indexExists: bool, primaryKey: Option<string>)
    requires !t.kind.IsPrioritised() && (CanCreate(t.kind) ==> indexExists)
    ensures CreationRights(New(t.id, t.kind, primaryKey).0.batch, [t], indexExists)
  {
  }

  lemma ReachesQueue(queue: seq<Queued>, n: nat, indexExists: bool, primaryKey: Option<string>)
    requires queue != [] && n < |queue| && Opens(queue[0], primaryKey)
    requires Reaches([queue[0]], queue[1..], n, indexExists, primaryKey)
    ensures forall i: nat | i < |queue| :: i < n + 1 <==> Reached(queue, i, indexExists, primaryKey)
  {
    hide Follows, Opens;
    var t, rest := queue[0], queue[1..];
    forall j: nat | 1 <= j < |queue|
      ensures [t] + rest[..j - 1] == queue[..j] && rest[j - 1] == queue[j]
    {
    }
    forall j: nat | 1 <= j <= n
      ensures Follows(queue[..j], queue[j], indexExists, primaryKey)
      ensures j < n ==> !queue[j].kind.IndexDeletion?
    {
      assert Follows([t] + rest[..j - 1], rest[j - 1], indexExists, primaryKey);
      assert j < n ==> !rest[j - 1].kind.IndexDeletion?;
    }
    if n + 1 < |queue| {
      assert [t] + rest[..n] == queue[..n + 1] && rest[n] == queue[n + 1];
      assert n > 0 ==> rest[n - 1] == queue[n];
    }
  }

  predicate AllImports(p: seq<Queued>, m: IndexDocumentsMethod) {
    forall t <- p :: IsImport(t) && t.kind.updateMethod == m
  }

  /**
   The first import does not declare a foreign key, and each of the others declares the key of the
   index, or just what the one before it declares.
  */
  predicate KeysAgree(queue: seq<Queued>, m: IndexDocumentsMethod, primaryKey: Option<string>)
    requires AllImports(queue, m)
  {
    |queue| > 1 ==>
      && (queue[0].kind.primaryKey.None? || primaryKey.None? || queue[0].kind.primaryKey == primaryKey)
      && (forall j | 1 <= j < |queue| ::
            || queue[j].kind.primaryKey == queue[j - 1].kind.primaryKey
            || (primaryKey.Some? && queue[j].kind.primaryKey == primaryKey))
  }

  /** Imports of one method into an existing index are one batch exactly when their keys agree. */
  lemma {:induction false} ImportsGoTogether(queue: seq<Queued>, m: IndexDocumentsMethod, primaryKey: Option<string>)
    requires queue != [] && AllImports(queue, m)
    ensures forall t <- queue :: !t.kind.IsPrioritised()
    ensures
      var o := BatchOf(queue, true, primaryKey);
      && (o.taken == |queue| <==> KeysAgree(queue, m, primaryKey))
      && (o.taken == |queue| ==>
            o.batch.DocumentOperation? && o.batch.updateMethod == m && o.batch.operationIds == Ids(queue))
  {
    ImportsArePlain(queue, m);
    hide BatchOf, Batched, Reached, AllImports, KeysAgree, CanCreate, Summarises;
    var o := BatchOf(queue, true, primaryKey);
    AutobatchTakesPrefix(queue, true, primaryKey);
    BatchReaches(queue, true, primaryKey, |queue| - 1);
    ImportsReached(queue, m, primaryKey);
    if o.taken == |queue| {
      assert queue[..o.taken] == queue;
      BatchedSummary(o.batch, queue, true, primaryKey);
      ImportsMakeOperation(o.batch, queue, m);
    }
  }

  lemma ImportsArePlain(queue: seq<Queued>, m: IndexDocumentsMethod)
    requires AllImports(queue, m)
    ensures forall t <- queue :: !t.kind.IsPrioritised()
  {
  }

  lemma BatchedSummary(final: BatchKind, p: seq<Queued>, indexExists: bool, primaryKey: Option<string>)
    requires Batched(final, p, indexExists, primaryKey)
    ensures Summarises(final, p)
  {
  }

  lemma {:induction false} ImportsReached(queue: seq<Queued>, m: IndexDocumentsMethod, primaryKey: Option<string>)
    requires queue != [] && AllImports(queue, m)
    ensures Reached(queue, |queue| - 1, true, primaryKey) <==> KeysAgree(queue, m, primaryKey)
  {
    hide Follows;
    assert queue[0] in queue;
    if Reached(queue, |queue| - 1, true, primaryKey) {
      forall j | 1 <= j < |queue|
        ensures queue[j].kind.primaryKey == queue[j - 1].kind.primaryKey
             || (primaryKey.Some? && queue[j].kind.primaryKey == primaryKey)
      {
        assert Follows(queue[..j], queue[j], true, primaryKey);
        ImportFollows(queue, j, m, primaryKey);
      }
    }
    if KeysAgree(queue, m, primaryKey) {
      forall j | 1 <= j < |queue|
        ensures Follows(queue[..j], queue[j], true, primaryKey) && !queue[j].kind.IndexDeletion?
      {
        ImportFollows(queue, j, m, primaryKey);
      }
    }
  }

  lemma ImportFollows(queue: seq<Queued>, j: nat, m: IndexDocumentsMethod, primaryKey: Option<string>)
    requires AllImports(queue, m) && 1 <= j < |queue|
    ensures !queue[j].kind.IndexDeletion?
    ensures Follows(queue[..j], queue[j], true, primaryKey) <==>
      || queue[j].kind.primaryKey == queue[j - 1].kind.primaryKey
      || (primaryKey.Some? && queue[j].kind.primaryKey == primaryKey)
  {
    var p := queue[..j];
    assert forall t <- p :: t in queue;
    assert queue[j] in queue && p[0] in p && p[|p| - 1] in p;
  }

  lemma ImportsMakeOperation(final: BatchKind, p: seq<Queued>, m: IndexDocumentsMethod)
    requires p != [] && Summarises(final, p) && AllImports(p, m)
    ensures final.DocumentOperation? && final.operationIds == Ids(p) && final.updateMethod == m
  {
    hide Ids, Docs, Setts, LastKey, EndsCleared;
    assert p[0] in p && p[|p| - 1] in p;
    if final.IsOpen() {
      assert !HasSettings(p) && HasImport(p) && !HasClear(p);
      assert ImportsBy(p, m);
      ShapeKinds(final, p);
    }
  }
}
