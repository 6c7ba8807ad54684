/** The four operations of the task store over an immutable collection. */
module Database {
  import opened Tasks

  /** The one failure the store reports: an identifier that is not in the collection. */
  datatype Error = NotFound

  /** How a `NotFound` failure is rendered at the HTTP boundary. */
  const NotFoundStatus: nat := 404
  const NotFoundDetail: string := "Task not found"

  datatype Result<+T> = Ok(value: T) | Err(error: Error)

  /** A store together with the task an operation produced. */
  datatype Stored = Stored(db: Store, task: Task)

  /** Creates a task under the (caller-chosen) identifier `id`, not yet done.
      Like a dictionary update, an existing entry under `id` would be replaced;
      a fresh identifier adds exactly one entry. */
  function CreateTask(db: Store, id: Uuid, input: TaskIn): (r: Stored)
    ensures r.task.taskId == id && !r.task.status
    ensures r.task.name == input.name && r.task.description == input.description
    ensures r.db.Keys == db.Keys + {id}
    ensures id in r.db && r.db[id] == r.task
    ensures forall k :: k in db && k != id ==> r.db[k] == db[k]
    ensures id !in db ==> |r.db| == |db| + 1
  {
    var t := Task(id, input.name, input.description, false);
    Stored(db[id := t], t)
  }

  /** Replaces description and status of the task filed under `id`,
      keeping the stored identifier and name; fails when `id` is absent. */
  function UpdateTask(db: Store, id: Uuid, upd: TaskInUpdate): (r: Result<Stored>)
    ensures r.Err? <==> id !in db
    ensures r.Err? ==> r.error == NotFound
    ensures r.Ok? ==> r.value.task.taskId == db[id].taskId && r.value.task.name == db[id].name
    ensures r.Ok? ==> r.value.task.description == upd.description && r.value.task.status == upd.status
    ensures r.Ok? ==> r.value.db.Keys == db.Keys && r.value.db[id] == r.value.task
    ensures r.Ok? ==> forall k :: k in db && k != id ==> r.value.db[k] == db[k]
  {
    if id !in db then Err(NotFound)
    else
      var t := db[id].(description := upd.description, status := upd.status);
      Ok(Stored(db[id := t], t))
  }

  /** Removes the task filed under `id` and returns the remaining collection;
      fails when `id` is absent. */
  function DeleteTask(db: Store, id: Uuid): (r: Result<Store>)
    ensures r.Err? <==> id !in db
    ensures r.Err? ==> r.error == NotFound
    ensures r.Ok? ==> r.value.Keys == db.Keys - {id}
    ensures r.Ok? ==> forall k :: k in r.value ==> r.value[k] == db[k]
    ensures r.Ok? ==> |r.value| == |db| - 1
  {
    if id !in db then Err(NotFound) else Ok(db - {id})
  }

  /** Lists the store. Without a filter the collection itself is returned; with
      one, the entries are scanned in an arbitrary order and each task that
      passes is filed under its own `taskId`. Whatever the order, the result is
      well-keyed and made of matching stored tasks, and on a well-keyed store it
      is exactly the selected sub-map. */
  method ReadTasks(db: Store, q: Option<StatusFilter>) returns (r: Store)
    ensures q.None? ==> r == db
    ensures q.Some? ==> WellKeyed(r)
    ensures q.Some? ==> forall k :: k in r ==> Matches(r[k], q.value) && exists j :: j in db && db[j] == r[k]
    ensures q.Some? ==> forall j :: j in db && Matches(db[j], q.value) ==> db[j].taskId in r
    ensures WellKeyed(db) ==> r == Select(db, q)
  {
    if q.None? {
      return db;
    }
    var f := q.value;
    r := map[];
    var rest := db.Keys;
    while rest != {}
      invariant rest <= db.Keys
      invariant WellKeyed(r)
      invariant forall k :: k in r ==> Matches(r[k], f) && exists j :: j in db && j !in rest && db[j] == r[k]
      invariant forall j :: j in db && j !in rest && Matches(db[j], f) ==> db[j].taskId in r
      decreases rest
    {
      var j :| j in rest;
      var t := db[j];
      if t.status && f == Done {
        r := r[t.taskId := t];
      } else if !t.status && f == NotDone {
        r := r[t.taskId := t];
      }
      rest := rest - {j};
    }
    if WellKeyed(db) {
      ScanIsSelect(db, f, r);
    }
  }

  /** A well-keyed result holding exactly the matching tasks of a well-keyed store is the selected sub-map. */
  lemma ScanIsSelect(db: Store, f: StatusFilter, r: Store)
    requires WellKeyed(db) && WellKeyed(r)
    requires forall k :: k in r ==> Matches(r[k], f) && exists j :: j in db && db[j] == r[k]
    requires forall j :: j in db && Matches(db[j], f) ==> db[j].taskId in r
    ensures r == Select(db, Some(f))
  {
  }
}
