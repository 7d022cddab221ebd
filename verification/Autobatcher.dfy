/**
 The autobatcher: it folds the enqueued tasks of one index into a batch.

 `New` opens a batch with the first task, `Accumulate` tries to add one more task, and
 `Autobatch` loops until the tasks run out or a step breaks.  `Summarises` says which tasks a
 batch stands for; it is what the batch-execution proofs rest on.
*/
module Autobatcher {
  import opened Wrappers
  import opened Tasks

  /** A task waiting in the queue. */
  datatype Queued = Queued(id: TaskId, kind: KindWithContent)

  /** What the autobatcher keeps of a task's kind. */
  datatype AutobatchKind =
    | DocumentImport(updateMethod: IndexDocumentsMethod, allowIndexCreation: bool, primaryKey: Option<string>)
    | DocumentDeletion
    | DocumentDeletionByFilter
    | DocumentClear
    | Settings(allowIndexCreation: bool)
    | IndexCreation
    | IndexDeletion
    | IndexUpdate
    | IndexSwap
  {
    function AllowIndexCreation(): Option<bool> {
      if DocumentImport? || Settings? then Some(allowIndexCreation) else None
    }

    function PrimaryKey(): Option<Option<string>> {
      if DocumentImport? then Some(primaryKey) else None
    }
  }

  function FromKind(kind: KindWithContent): AutobatchKind
    requires !kind.IsPrioritised()
  {
    match kind
    case DocumentAdditionOrUpdate(_, pk, m, _, allow) => AutobatchKind.DocumentImport(m, allow, pk)
    case DocumentDeletion(_, _) => AutobatchKind.DocumentDeletion
    case DocumentClear(_) => AutobatchKind.DocumentClear
    case DocumentDeletionByFilter(_, _) => AutobatchKind.DocumentDeletionByFilter
    case SettingsUpdate(_, _, isDeletion, allow) => AutobatchKind.Settings(allow && !isDeletion)
    case IndexDeletion(_) => AutobatchKind.IndexDeletion
    case IndexCreation(_, _) => AutobatchKind.IndexCreation
    case IndexUpdate(_, _) => AutobatchKind.IndexUpdate
    case IndexSwaps(_) => AutobatchKind.IndexSwap
  }

  datatype BatchKind =
    | DocumentClear(ids: seq<TaskId>)
    | DocumentOperation(
        updateMethod: IndexDocumentsMethod,
        allowIndexCreation: bool,
        primaryKey: Option<string>,
        operationIds: seq<TaskId>)
    | DocumentDeletion(deletionIds: seq<TaskId>)
    | DocumentDeletionByFilter(id: TaskId)
    | ClearAndSettings(other: seq<TaskId>, allowIndexCreation: bool, settingsIds: seq<TaskId>)
    | SettingsAndDocumentOperation(
        settingsIds: seq<TaskId>,
        updateMethod: IndexDocumentsMethod,
        allowIndexCreation: bool,
        primaryKey: Option<string>,
        operationIds: seq<TaskId>)
    | Settings(allowIndexCreation: bool, settingsIds: seq<TaskId>)
    | IndexDeletion(ids: seq<TaskId>)
    | IndexCreation(id: TaskId)
    | IndexUpdate(id: TaskId)
    | IndexSwap(id: TaskId)
  {
    function AllowIndexCreation(): Option<bool> {
      if DocumentOperation? || ClearAndSettings? || SettingsAndDocumentOperation? || Settings? then
        Some(allowIndexCreation)
      else
        None
    }

    function PrimaryKey(): Option<Option<string>> {
      if DocumentOperation? || SettingsAndDocumentOperation? then Some(primaryKey) else None
    }

    /** The tasks of a batch, in the order in which the batch lists them. */
    function Ids(): seq<TaskId> {
      match this
      case DocumentOperation(_, _, _, ids) => ids
      case DocumentDeletion(ids) => ids
      case ClearAndSettings(other, _, sids) => other + sids
      case SettingsAndDocumentOperation(sids, _, _, _, ids) => ids + sids
      case Settings(_, sids) => sids
      case DocumentClear(ids) => ids
      case IndexDeletion(ids) => ids
      case _ => [id]
    }

    /** The batches that can still grow; the others are final as soon as they are made. */
    predicate IsOpen() {
      DocumentClear? || DocumentOperation? || DocumentDeletion? || ClearAndSettings?
      || SettingsAndDocumentOperation? || Settings?
    }
  }

  datatype ControlFlow = Continue(batch: BatchKind) | Break(batch: BatchKind)

  function New(id: TaskId, kind: KindWithContent, primaryKey: Option<string>): (ControlFlow, bool)
    requires !kind.IsPrioritised()
  {
    match FromKind(kind)
    case IndexCreation => (Break(BatchKind.IndexCreation(id)), true)
    case IndexDeletion => (Break(BatchKind.IndexDeletion([id])), false)
    case IndexUpdate => (Break(BatchKind.IndexUpdate(id)), false)
    case IndexSwap => (Break(BatchKind.IndexSwap(id)), false)
    case DocumentClear => (Continue(BatchKind.DocumentClear([id])), false)
    case DocumentImport(m, allow, pk) =>
      var batch := BatchKind.DocumentOperation(m, allow, pk, [id]);
      // a key that differs from the index's makes the batch fail on its own, as soon as possible
      if primaryKey.None? || pk.None? || primaryKey == pk then (Continue(batch), allow) else (Break(batch), allow)
    case DocumentDeletion => (Continue(BatchKind.DocumentDeletion([id])), false)
    case DocumentDeletionByFilter => (Break(BatchKind.DocumentDeletionByFilter(id)), false)
    case Settings(allow) => (Continue(BatchKind.Settings(allow, [id])), allow)
  }

  /** The guard on primary keys under which a task may join a batch. */
  predicate KeysCompatible(batch: BatchKind, kind: AutobatchKind, primaryKey: Option<string>) {
    || (batch.PrimaryKey().None? && kind.PrimaryKey().None?)
    || (&& primaryKey.Some?
        && (kind.PrimaryKey().Some? ==> kind.PrimaryKey().value == primaryKey))
    || (batch.PrimaryKey().Some? && kind.PrimaryKey().Some? ==> batch.PrimaryKey() == kind.PrimaryKey())
  }

  function Accumulate(
    batch: BatchKind, id: TaskId, kind: AutobatchKind, indexAlreadyExists: bool, primaryKey: Option<string>)
    : (flow: ControlFlow)
    requires batch.IsOpen()
    ensures flow.Continue? ==> flow.batch.IsOpen()
  {
    if kind.IndexCreation? || kind.IndexUpdate? || kind.IndexSwap? || kind.DocumentDeletionByFilter? then
      Break(batch)
    else if !indexAlreadyExists && batch.AllowIndexCreation() == Some(false) && kind.AllowIndexCreation() == Some(true) then
      Break(batch)
    else if !KeysCompatible(batch, kind, primaryKey) then
      Break(batch)
    else
      match batch
      case DocumentClear(ids) => (
        match kind
        case IndexDeletion => Break(BatchKind.IndexDeletion(ids + [id]))
        case DocumentClear => Continue(BatchKind.DocumentClear(ids + [id]))
        case DocumentDeletion => Continue(BatchKind.DocumentClear(ids + [id]))
        case _ => Break(batch))
      case DocumentOperation(m, allow, pk, ids) => (
        match kind
        case IndexDeletion => Break(BatchKind.IndexDeletion(ids + [id]))
        case DocumentClear => Continue(BatchKind.DocumentClear(ids + [id]))
        case DocumentImport(m2, _, pk2) =>
          if m == m2 then Continue(BatchKind.DocumentOperation(m, allow, pk2, ids + [id])) else Break(batch)
        case DocumentDeletion => Continue(BatchKind.DocumentOperation(m, allow, pk, ids + [id]))
        case Settings(_) => Continue(BatchKind.SettingsAndDocumentOperation([id], m, allow, pk, ids)))
      case DocumentDeletion(ids) => (
        match kind
        case IndexDeletion => Break(BatchKind.IndexDeletion(ids + [id]))
        case DocumentClear => Continue(BatchKind.DocumentClear(ids + [id]))
        case DocumentImport(m, allow, pk) =>
          if indexAlreadyExists || !allow then Continue(BatchKind.DocumentOperation(m, allow, pk, ids + [id]))
          else Break(batch)
        case DocumentDeletion => Continue(BatchKind.DocumentDeletion(ids + [id]))
        case Settings(_) => Break(batch))
      case Settings(allow, ids) => (
        match kind
        case IndexDeletion => Break(BatchKind.IndexDeletion(ids + [id]))
        case DocumentClear => Continue(BatchKind.ClearAndSettings([id], allow, ids))
        case Settings(_) => Continue(BatchKind.Settings(allow, ids + [id]))
        case _ => Break(batch))
      case ClearAndSettings(other, allow, ids) => (
        match kind
        case IndexDeletion => Break(BatchKind.IndexDeletion(ids + [id] + other))
        case DocumentClear => Continue(BatchKind.ClearAndSettings(other + [id], allow, ids))
        case DocumentDeletion => Continue(BatchKind.ClearAndSettings(other + [id], allow, ids))
        case Settings(_) => Continue(BatchKind.ClearAndSettings(other, allow, ids + [id]))
        case _ => Break(batch))
      case SettingsAndDocumentOperation(sids, m, allow, pk, ids) => (
        match kind
        case IndexDeletion => Break(BatchKind.IndexDeletion(ids + [id] + sids))
        case DocumentClear => Continue(BatchKind.ClearAndSettings(ids + [id], allow, sids))
        case DocumentImport(m2, _, pk2) =>
          if m == m2 then Continue(BatchKind.SettingsAndDocumentOperation(sids, m, allow, pk2, ids + [id]))
          else Break(batch)
        case Settings(_) => Continue(BatchKind.SettingsAndDocumentOperation(sids + [id], m, allow, pk, ids))
        case _ => Break(batch))
  }

  /** The loop of `Autobatch`, as a function: the final batch and how many of `rest` joined it. */
  function Fold(batch: BatchKind, rest: seq<Queued>, indexExists: bool, primaryKey: Option<string>)
    : (result: (BatchKind, nat))
    requires batch.IsOpen()
    requires forall t <- rest :: !t.kind.IsPrioritised()
    ensures result.1 <= |rest|
    decreases |rest|
  {
    if rest == [] then (batch, 0)
    else
      match Accumulate(batch, rest[0].id, FromKind(rest[0].kind), indexExists, primaryKey)
      case Continue(next) =>
        var (final, n) := Fold(next, rest[1..], indexExists, primaryKey);
        (final, n + 1)
      case Break(final) => (final, if final == batch then 0 else 1)
  }

  datatype Outcome = Outcome(batch: BatchKind, mustCreateIndex: bool, taken: nat)

  function BatchOf(enqueued: seq<Queued>, indexAlreadyExists: bool, primaryKey: Option<string>): Outcome
    requires enqueued != []
    requires forall t <- enqueued :: !t.kind.IsPrioritised()
  {
    match New(enqueued[0].id, enqueued[0].kind, primaryKey)
    case (Break(batch), create) => Outcome(batch, create, 1)
    case (Continue(batch), create) =>
      var (final, n) := Fold(batch, enqueued[1..], indexAlreadyExists || create, primaryKey);
      Outcome(final, create, n + 1)
  }

  /** `autobatch`: the loop over the queue with its two early returns. */
  method Autobatch(enqueued: seq<Queued>, indexAlreadyExists: bool, primaryKey: Option<string>)
    returns (result: Option<(BatchKind, bool)>)
    requires forall t <- enqueued :: !t.kind.IsPrioritised()
    ensures result.None? <==> enqueued == []
    ensures enqueued != [] ==>
      var o := BatchOf(enqueued, indexAlreadyExists, primaryKey);
      result == Some((o.batch, o.mustCreateIndex))
  {
    if enqueued == [] {
      return None;
    }
    var (flow, mustCreateIndex) := New(enqueued[0].id, enqueued[0].kind, primaryKey);
    if flow.Break? {
      return Some((flow.batch, mustCreateIndex));
    }
    var acc := flow.batch;
    var indexExist := indexAlreadyExists || mustCreateIndex;
    var i := 1;
    while i < |enqueued|
      invariant 1 <= i <= |enqueued|
      invariant acc.IsOpen()
      invariant Fold(acc, enqueued[i..], indexExist, primaryKey).0
             == Fold(flow.batch, enqueued[1..], indexExist, primaryKey).0
    {
      match Accumulate(acc, enqueued[i].id, FromKind(enqueued[i].kind), indexExist, primaryKey) {
        case Continue(batch) =>
          assert enqueued[i..][1..] == enqueued[i + 1..];
          acc := batch;
        case Break(batch) => return Some((batch, mustCreateIndex));
      }
      i := i + 1;
    }
    return Some((acc, mustCreateIndex));
  }
}
