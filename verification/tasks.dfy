/** The task record and the shapes of the requests that reach the task store. */
module Tasks {

  /** A task identifier: the 128 bits of a UUID. */
  type Uuid = n: nat | n < 0x1_0000_0000_0000_0000_0000_0000_0000_0000

  datatype Option<+T> = None | Some(value: T)

  /** A stored task: its identifier, the name given at creation, a description and a done flag. */
  datatype Task = Task(taskId: Uuid, name: string, description: string, status: bool)

  /** The body of a creation request. */
  datatype TaskIn = TaskIn(name: string, description: string)

  /** The body of an update request: both mutable fields, always given together. */
  datatype TaskInUpdate = TaskInUpdate(description: string, status: bool)

  /** The values a listing may be filtered by. */
  datatype StatusFilter = Done | NotDone

  /** The shared task collection, keyed by task identifier. */
  type Store = map<Uuid, Task>

  /** The collection every session sees when the process starts. */
  const EmptyStore: Store := map[]

  /** Whether a task passes a status filter: `Done` keeps finished tasks, `NotDone` the others. */
  predicate Matches(t: Task, f: StatusFilter) {
    match f
    case Done => t.status
    case NotDone => !t.status
  }

  /** The store invariant: every entry is filed under its own identifier. */
  predicate WellKeyed(db: Store) {
    forall k :: k in db ==> db[k].taskId == k
  }

  /** The reference meaning of a listing: the sub-map of the store the filter selects. */
  function Select(db: Store, q: Option<StatusFilter>): Store {
    match q
    case None => db
    case Some(f) => map k | k in db && Matches(db[k], f) :: db[k]
  }
}
