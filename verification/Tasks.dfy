/**
 The vocabulary of the task queue: tasks, their kinds, their statuses.

 Bitmaps of task ids are sets, dates are integers (nanoseconds), file ids are numbers.
*/
module Tasks {
  import opened Wrappers
  import opened Settings

  type TaskId = nat

  /** The largest task id: ids are 32-bit in the program. */
  const MAX_TASK_ID: TaskId := 0xFFFF_FFFF

  type Uuid = nat

  type Date = int

  datatype IndexDocumentsMethod = ReplaceDocuments | UpdateDocuments

  datatype IndexSwap = IndexSwap(lhs: string, rhs: string)

  datatype KindWithContent =
    | DocumentAdditionOrUpdate(
        indexUid: string,
        primaryKey: Option<string>,
        updateMethod: IndexDocumentsMethod,
        contentFile: Uuid,
        allowIndexCreation: bool)
    | DocumentDeletion(indexUid: string, documentsIds: seq<string>)
    | DocumentDeletionByFilter(indexUid: string, filterExpr: string)
    | DocumentClear(indexUid: string)
    | SettingsUpdate(indexUid: string, newSettings: IndexSettings, isDeletion: bool, allowIndexCreation: bool)
    | IndexDeletion(indexUid: string)
    | IndexCreation(indexUid: string, primaryKey: Option<string>)
    | IndexUpdate(indexUid: string, primaryKey: Option<string>)
    | IndexSwaps(swaps: seq<IndexSwap>)
    | TaskCancelation(query: string, tasks: set<TaskId>)
    | TaskDeletion(query: string, tasks: set<TaskId>)
    | DumpCreation
    | SnapshotCreation
  {
    /** The kinds that the scheduler handles before any index operation. */
    predicate IsPrioritised() {
      TaskCancelation? || TaskDeletion? || DumpCreation? || SnapshotCreation?
    }

    function AsKind(): Kind {
      match this
      case DocumentAdditionOrUpdate(_, _, _, _, _) => Kind.DocumentAdditionOrUpdate
      case DocumentDeletion(_, _) => Kind.DocumentDeletion
      case DocumentDeletionByFilter(_, _) => Kind.DocumentDeletion
      case DocumentClear(_) => Kind.DocumentDeletion
      case SettingsUpdate(_, _, _, _) => Kind.SettingsUpdate
      case IndexCreation(_, _) => Kind.IndexCreation
      case IndexDeletion(_) => Kind.IndexDeletion
      case IndexUpdate(_, _) => Kind.IndexUpdate
      case IndexSwaps(_) => Kind.IndexSwap
      case TaskCancelation(_, _) => Kind.TaskCancelation
      case TaskDeletion(_, _) => Kind.TaskDeletion
      case DumpCreation => Kind.DumpCreation
      case SnapshotCreation => Kind.SnapshotCreation
    }

    /** The names of the indexes a task reads or writes. */
    function Indexes(): set<string> {
      match this
      case IndexSwaps(swaps) => SwapNames(swaps)
      case TaskCancelation(_, _) => {}
      case TaskDeletion(_, _) => {}
      case DumpCreation => {}
      case SnapshotCreation => {}
      case _ => {indexUid}
    }

    function ContentUuid(): Option<Uuid> {
      if DocumentAdditionOrUpdate? then Some(contentFile) else None
    }
  }

  function SwapNames(swaps: seq<IndexSwap>): (names: set<string>)
  {
    if swaps == [] then {} else {swaps[0].lhs, swaps[0].rhs} + SwapNames(swaps[1..])
  }

  /** A swap task is accepted only when its names are pairwise distinct. */
  predicate ValidSwaps(swaps: seq<IndexSwap>) {
    swaps == [] ||
    (&& swaps[0].lhs != swaps[0].rhs
     && {swaps[0].lhs, swaps[0].rhs} !! SwapNames(swaps[1..])
     && ValidSwaps(swaps[1..]))
  }

  datatype Kind =
    | DocumentAdditionOrUpdate | DocumentDeletion | SettingsUpdate | IndexCreation | IndexDeletion
    | IndexUpdate | IndexSwap | TaskCancelation | TaskDeletion | DumpCreation | SnapshotCreation

  datatype Status = Enqueued | Processing | Succeeded | Failed | Canceled
  {
    predicate IsTerminal() {
      Succeeded? || Failed? || Canceled?
    }
  }

  datatype Task = Task(
    uid: TaskId,
    enqueuedAt: Date,
    startedAt: Option<Date>,
    finishedAt: Option<Date>,
    canceledBy: Option<TaskId>,
    status: Status,
    kind: KindWithContent)
}
