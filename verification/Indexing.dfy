/**
 Indexes, index batches, and what processing a batch does to the indexes.

 An index is its documents, its stored settings and its primary key.  milli's document builder
 is taken as the operations it was given, one after the other; the one thing kept of its inside
 is that `execute` returns early when no document was added, whatever was deleted.
*/
module Indexing {
  import opened Wrappers
  import opened Tasks
  import opened Settings
  import opened Autobatcher

  type Document = map<string, string>

  type Documents = map<string, Document>

  datatype Index = Index(documents: Documents, settings: StoredSettings, primaryKey: Option<string>)

  const EMPTY_INDEX := Index(map[], map[], None)

  /** The indexes by name. */
  type Indexes = map<string, Index>

  /**
   What the scheduler reads from outside: the documents of an update file (`None` when milli
   rejects the file as a user error), and the documents a filter selects.
  */
  datatype Milli = Milli(
    content: Uuid -> Option<seq<(string, Document)>>,
    matching: (string, Documents, StoredSettings) -> set<string>)

  datatype DocumentOperation = Add(contentFile: Uuid) | Delete(documentsIds: seq<string>)

  datatype IndexOperation =
    | DocumentOperation(
        primaryKey: Option<string>,
        updateMethod: IndexDocumentsMethod,
        operations: seq<DocumentOperation>,
        tasks: seq<TaskId>)
    | DocumentDeletion(documents: seq<seq<string>>, tasks: seq<TaskId>)
    | DocumentClear(tasks: seq<TaskId>)
    | Settings(settings: seq<IndexSettings>, tasks: seq<TaskId>)
    | DocumentClearAndSetting(clearedTasks: seq<TaskId>, settings: seq<IndexSettings>, settingsTasks: seq<TaskId>)
    | SettingsAndDocumentOperation(
        primaryKey: Option<string>,
        updateMethod: IndexDocumentsMethod,
        operations: seq<DocumentOperation>,
        documentImportTasks: seq<TaskId>,
        settings: seq<IndexSettings>,
        settingsTasks: seq<TaskId>)
  {
    function Ids(): seq<TaskId> {
      match this
      case SettingsAndDocumentOperation(_, _, _, imports, _, settings) => imports + settings
      case DocumentClearAndSetting(cleared, _, settings) => cleared + settings
      case _ => tasks
    }
  }

  /** The batches that work on indexes. */
  datatype IndexBatch =
    | IndexOperation(indexUid: string, op: IndexOperation, mustCreateIndex: bool)
    | IndexDocumentDeletionByFilter(indexUid: string, filterExpr: string, task: TaskId)
    | IndexCreation(indexUid: string, primaryKey: Option<string>, task: TaskId)
    | IndexUpdate(indexUid: string, primaryKey: Option<string>, task: TaskId)
    | IndexDeletion(indexUid: string, tasks: seq<TaskId>, indexHasBeenCreated: bool)
    | IndexSwap(swaps: seq<IndexSwap>, task: TaskId)
  {
    function Ids(): seq<TaskId> {
      match this
      case IndexOperation(_, op, _) => op.Ids()
      case IndexDeletion(_, tasks, _) => tasks
      case _ => [task]
    }
  }

  /** The stored tasks a batch refers to: each with a kind the batch expects. */
  predicate Known(tasks: map<TaskId, KindWithContent>, ids: seq<TaskId>) {
    forall id <- ids :: id in tasks
  }

  predicate KnownOperations(tasks: map<TaskId, KindWithContent>, ids: seq<TaskId>) {
    Known(tasks, ids) && forall id <- ids :: tasks[id].DocumentAdditionOrUpdate? || tasks[id].DocumentDeletion?
  }

  predicate KnownDeletions(tasks: map<TaskId, KindWithContent>, ids: seq<TaskId>) {
    Known(tasks, ids) && forall id <- ids :: tasks[id].DocumentDeletion?
  }

  predicate KnownSettings(tasks: map<TaskId, KindWithContent>, ids: seq<TaskId>) {
    Known(tasks, ids) && forall id <- ids :: tasks[id].SettingsUpdate?
  }

  /** The key declared by the first import among `ids`, if there is an import. */
  function FirstImport(tasks: map<TaskId, KindWithContent>, ids: seq<TaskId>): Option<Option<string>>
    requires KnownOperations(tasks, ids)
  {
    if ids == [] then None
    else
      var earlier := FirstImport(tasks, ids[..|ids| - 1]);
      var id := ids[|ids| - 1];
      assert id in ids;
      if earlier.Some? then earlier
      else if tasks[id].DocumentAdditionOrUpdate? then Some(tasks[id].primaryKey)
      else None
  }

  function FirstImportKey(tasks: map<TaskId, KindWithContent>, ids: seq<TaskId>): Option<string>
    requires KnownOperations(tasks, ids)
  {
    var first := FirstImport(tasks, ids);
    if first.Some? then first.value else None
  }

  /** The operation a document task asks for. */
  function OperationOf(kind: KindWithContent): DocumentOperation
    requires kind.DocumentAdditionOrUpdate? || kind.DocumentDeletion?
  {
    match kind
    case DocumentAdditionOrUpdate(_, _, _, file, _) => Add(file)
    case DocumentDeletion(_, ids) => Delete(ids)
  }

  function Operations(tasks: map<TaskId, KindWithContent>, ids: seq<TaskId>): seq<DocumentOperation>
    requires KnownOperations(tasks, ids)
  {
    if ids == [] then []
    else
      var id := ids[|ids| - 1];
      assert id in ids;
      Operations(tasks, ids[..|ids| - 1]) + [OperationOf(tasks[id])]
  }

  function DeletedDocuments(tasks: map<TaskId, KindWithContent>, ids: seq<TaskId>): seq<seq<string>>
    requires KnownDeletions(tasks, ids)
  {
    if ids == [] then []
    else
      var id := ids[|ids| - 1];
      assert id in ids;
      DeletedDocuments(tasks, ids[..|ids| - 1]) + [tasks[id].documentsIds]
  }

  function NewSettings(tasks: map<TaskId, KindWithContent>, ids: seq<TaskId>): seq<IndexSettings>
    requires KnownSettings(tasks, ids)
  {
    if ids == [] then []
    else
      var id := ids[|ids| - 1];
      assert id in ids;
      NewSettings(tasks, ids[..|ids| - 1]) + [tasks[id].newSettings]
  }

  /** The kinds a batch kind relies on; outside of them the program panics. */
  predicate Buildable(tasks: map<TaskId, KindWithContent>, kind: BatchKind) {
    match kind
    case DocumentClear(ids) => Known(tasks, ids)
    case DocumentOperation(_, _, _, ids) => KnownOperations(tasks, ids)
    case DocumentDeletion(ids) => KnownDeletions(tasks, ids)
    case DocumentDeletionByFilter(id) => id in tasks && tasks[id].DocumentDeletionByFilter?
    case ClearAndSettings(other, _, ids) => Known(tasks, other) && KnownSettings(tasks, ids)
    case SettingsAndDocumentOperation(sids, _, _, _, ids) => KnownSettings(tasks, sids) && KnownOperations(tasks, ids)
    case Settings(_, ids) => KnownSettings(tasks, ids)
    case IndexDeletion(ids) => Known(tasks, ids)
    case IndexCreation(id) => id in tasks && tasks[id].IndexCreation?
    case IndexUpdate(id) => id in tasks && tasks[id].IndexUpdate?
    case IndexSwap(id) => id in tasks && tasks[id].IndexSwaps?
  }

  function CreateNextBatchIndex(
    tasks: map<TaskId, KindWithContent>, indexUid: string, kind: BatchKind, mustCreateIndex: bool): IndexBatch
    requires Buildable(tasks, kind)
  {
    match kind
    case DocumentClear(ids) => IndexOperation(indexUid, IndexOperation.DocumentClear(ids), mustCreateIndex)
    case DocumentDeletionByFilter(id) =>
      IndexDocumentDeletionByFilter(tasks[id].indexUid, tasks[id].filterExpr, id)
    case DocumentOperation(m, _, _, ids) =>
      IndexOperation(
        indexUid,
        IndexOperation.DocumentOperation(FirstImportKey(tasks, ids), m, Operations(tasks, ids), ids),
        mustCreateIndex)
    case DocumentDeletion(ids) =>
      IndexOperation(indexUid, IndexOperation.DocumentDeletion(DeletedDocuments(tasks, ids), ids), mustCreateIndex)
    case Settings(_, ids) =>
      IndexOperation(indexUid, IndexOperation.Settings(NewSettings(tasks, ids), ids), mustCreateIndex)
    case ClearAndSettings(other, _, ids) =>
      IndexOperation(
        indexUid, IndexOperation.DocumentClearAndSetting(other, NewSettings(tasks, ids), ids), mustCreateIndex)
    case SettingsAndDocumentOperation(sids, m, _, _, ids) =>
      IndexOperation(
        indexUid,
        IndexOperation.SettingsAndDocumentOperation(
          FirstImportKey(tasks, ids), m, Operations(tasks, ids), ids, NewSettings(tasks, sids), sids),
        mustCreateIndex)
    case IndexCreation(id) => IndexBatch.IndexCreation(tasks[id].indexUid, tasks[id].primaryKey, id)
    case IndexUpdate(id) => IndexBatch.IndexUpdate(indexUid, tasks[id].primaryKey, id)
    case IndexDeletion(ids) => IndexBatch.IndexDeletion(indexUid, ids, mustCreateIndex)
    case IndexSwap(id) => IndexBatch.IndexSwap(tasks[id].swaps, id)
  }

  function Upsert(m: IndexDocumentsMethod, documents: Documents, id: string, document: Document): Documents {
    documents[id := if m.UpdateDocuments? && id in documents then documents[id] + document else document]
  }

  function Import(m: IndexDocumentsMethod, documents: Documents, batch: seq<(string, Document)>): Documents {
    if batch == [] then documents
    else
      var last := batch[|batch| - 1];
      Upsert(m, Import(m, documents, batch[..|batch| - 1]), last.0, last.1)
  }

  function Remove(documents: Documents, ids: seq<string>): Documents {
    map id | id in documents && id !in ids :: documents[id]
  }

  function ApplyDocumentOperation(
    milli: Milli, m: IndexDocumentsMethod, documents: Documents, op: DocumentOperation): Documents
  {
    match op
    case Delete(ids) => Remove(documents, ids)
    case Add(file) =>
      match milli.content(file)
      case None => documents
      case Some(batch) => Import(m, documents, batch)
  }

  function ApplyDocumentOperations(
    milli: Milli, m: IndexDocumentsMethod, documents: Documents, ops: seq<DocumentOperation>): Documents
  {
    if ops == [] then documents
    else
      ApplyDocumentOperation(
        milli, m, ApplyDocumentOperations(milli, m, documents, ops[..|ops| - 1]), ops[|ops| - 1])
  }

  predicate IsRejected(milli: Milli, op: DocumentOperation) {
    op.Add? && milli.content(op.contentFile).None?
  }

  predicate AddsDocuments(milli: Milli, op: DocumentOperation) {
    op.Add? && milli.content(op.contentFile).Some? && milli.content(op.contentFile).value != []
  }

  /** `None` when the declared key is not the key of the index; the transaction is then dropped. */
  function ApplyOperations(
    milli: Milli, index: Index, primaryKey: Option<string>, m: IndexDocumentsMethod, ops: seq<DocumentOperation>)
    : Option<Index>
  {
    if primaryKey.Some? && index.primaryKey.Some? && primaryKey != index.primaryKey then None
    else if forall op <- ops :: IsRejected(milli, op) then Some(index)  // a key just set is reset
    else
      var keyed := if primaryKey.Some? then index.(primaryKey := primaryKey) else index;
      if exists op <- ops :: AddsDocuments(milli, op) then
        Some(keyed.(documents := ApplyDocumentOperations(milli, m, index.documents, ops)))
      else Some(keyed)
  }

  function Flatten(lists: seq<seq<string>>): seq<string> {
    if lists == [] then [] else Flatten(lists[..|lists| - 1]) + lists[|lists| - 1]
  }

  function AllWrites(settings: seq<IndexSettings>): Pending {
    if settings == [] then map[]
    else AllWrites(settings[..|settings| - 1]) + Writes(Check(settings[|settings| - 1]))
  }

  function ApplySettings(index: Index, settings: seq<IndexSettings>): Index {
    index.(settings := Execute(AllWrites(settings), index.settings))
  }

  /** `apply_index_operation`: the index afterwards, or `None` on an error. */
  function ApplyIndexOperation(milli: Milli, index: Index, op: IndexOperation): Option<Index> {
    match op
    case DocumentClear(_) => Some(index.(documents := map[]))
    case DocumentOperation(pk, m, ops, _) => ApplyOperations(milli, index, pk, m, ops)
    case DocumentDeletion(documents, _) => Some(index.(documents := Remove(index.documents, Flatten(documents))))
    case Settings(settings, _) => Some(ApplySettings(index, settings))
    case DocumentClearAndSetting(_, settings, _) => Some(ApplySettings(index.(documents := map[]), settings))
    case SettingsAndDocumentOperation(pk, m, ops, _, settings, _) =>
      ApplyOperations(milli, ApplySettings(index, settings), pk, m, ops)
  }

  function SetPrimaryKey(index: Index, primaryKey: Option<string>): Index {
    if primaryKey.Some? && (index.documents == map[] || index.primaryKey.None?) then
      index.(primaryKey := primaryKey)
    else index
  }

  function Get<V>(m: map<string, V>, name: string): Option<V> {
    if name in m then Some(m[name]) else None
  }

  function Put<V>(m: map<string, V>, name: string, value: Option<V>): map<string, V> {
    match value
    case Some(v) => m[name := v]
    case None => m - {name}
  }

  /** Exchange what stands behind two names. */
  function SwapOne<V>(m: map<string, V>, swap: IndexSwap): map<string, V> {
    Put(Put(m, swap.lhs, Get(m, swap.rhs)), swap.rhs, Get(m, swap.lhs))
  }

  function SwapAll<V>(m: map<string, V>, swaps: seq<IndexSwap>): map<string, V>
    decreases |swaps|
  {
    if swaps == [] then m else SwapAll(SwapOne(m, swaps[0]), swaps[1..])
  }

  /** The indexes after a batch was processed, whether it succeeded or failed. */
  function ProcessBatch(milli: Milli, indexes: Indexes, batch: IndexBatch): Indexes {
    match batch
    case IndexOperation(name, op, mustCreate) =>
      var available := if mustCreate && name !in indexes then indexes[name := EMPTY_INDEX] else indexes;
      if name !in available then available
      else (
        match ApplyIndexOperation(milli, available[name], op)
        case Some(index) => available[name := index]
        case None => available)
    case IndexDocumentDeletionByFilter(name, filter, _) =>
      if name !in indexes then indexes
      else
        var i := indexes[name];
        var selected := milli.matching(filter, i.documents, i.settings);
        indexes[name := i.(documents := map id | id in i.documents && id !in selected :: i.documents[id])]
    case IndexCreation(name, pk, _) =>
      if name in indexes then indexes else indexes[name := SetPrimaryKey(EMPTY_INDEX, pk)]
    case IndexUpdate(name, pk, _) =>
      if name !in indexes then indexes else indexes[name := SetPrimaryKey(indexes[name], pk)]
    case IndexDeletion(name, _, _) => indexes - {name}
    case IndexSwap(swaps, _) =>
      if SwapNames(swaps) <= indexes.Keys then SwapAll(indexes, swaps) else indexes
  }
}
