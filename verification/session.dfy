/** Sequences of requests against the one shared task collection, and what
    they preserve. Every session object aliases the same collection, so a run
    of requests is a fold of single steps over one store that starts empty. */
module Session {
  import opened Tasks
  import opened Database

  /** One request that reaches the store. */
  datatype Command =
    | Create(id: Uuid, input: TaskIn)
    | Read(q: Option<StatusFilter>)
    | Update(id: Uuid, upd: TaskInUpdate)
    | Delete(id: Uuid)

  /** What the store hands back for one request. */
  datatype Response =
    | Created(task: Task)
    | Listed(tasks: Store)
    | Updated(task: Task)
    | Remaining(tasks: Store)
    | Failed(error: Error)

  datatype Outcome = Outcome(db: Store, response: Response)

  /** Applies one request. Only an update or delete of an absent identifier
      fails, a failure leaves the store as it was, a listing never changes it,
      and a well-keyed store stays well-keyed. */
  function Step(db: Store, c: Command): (r: Outcome)
    ensures r.response.Failed? <==> (c.Update? || c.Delete?) && c.id !in db
    ensures r.response.Failed? ==> r.db == db && r.response.error == NotFound
    ensures c.Read? ==> r.db == db
    ensures WellKeyed(db) ==> WellKeyed(r.db)
  {
    match c
    case Create(id, input) =>
      var s := CreateTask(db, id, input);
      Outcome(s.db, Created(s.task))
    case Read(q) =>
      Outcome(db, Listed(Select(db, q)))
    case Update(id, upd) =>
      var u := UpdateTask(db, id, upd);
      if u.Ok? then Outcome(u.value.db, Updated(u.value.task)) else Outcome(db, Failed(u.error))
    case Delete(id) =>
      var d := DeleteTask(db, id);
      if d.Ok? then Outcome(d.value, Remaining(d.value)) else Outcome(db, Failed(d.error))
  }

  /** The store after a run of requests. */
  function Run(db: Store, cmds: seq<Command>): Store
    decreases |cmds|
  {
    if |cmds| == 0 then db else Run(Step(db, cmds[0]).db, cmds[1..])
  }

  /** No request of the run creates a task under `k`. */
  predicate NeverCreates(cmds: seq<Command>, k: Uuid) {
    forall i :: 0 <= i < |cmds| ==> !(cmds[i].Create? && cmds[i].id == k)
  }

  /** Create, update and delete each keep every entry filed under its own identifier. */
  lemma OperationsPreserveWellKeyed(db: Store, id: Uuid, input: TaskIn, upd: TaskInUpdate)
    requires WellKeyed(db)
    ensures WellKeyed(CreateTask(db, id, input).db)
    ensures UpdateTask(db, id, upd).Ok? ==> WellKeyed(UpdateTask(db, id, upd).value.db)
    ensures UpdateTask(db, id, upd).Ok? ==> UpdateTask(db, id, upd).value.task.taskId == id
    ensures DeleteTask(db, id).Ok? ==> WellKeyed(DeleteTask(db, id).value)
  {
  }

  /** Any run of requests from a well-keyed store ends in a well-keyed store. */
  lemma {:induction false} RunPreservesWellKeyed(db: Store, cmds: seq<Command>)
    requires WellKeyed(db)
    ensures WellKeyed(Run(db, cmds))
    decreases |cmds|
  {
    if |cmds| > 0 {
      RunPreservesWellKeyed(Step(db, cmds[0]).db, cmds[1..]);
    }
  }

  /** Every store the program can reach from its empty start is well-keyed,
      so every filtered listing it serves is a sub-map of the store. */
  lemma ReachableStoresWellKeyed(cmds: seq<Command>)
    ensures WellKeyed(Run(EmptyStore, cmds))
  {
    RunPreservesWellKeyed(EmptyStore, cmds);
  }

  /** Unless some request creates it again, an entry present after a run was
      present before it, with the same identifier and name: no request renames
      a task, and a deleted task never comes back. */
  lemma {:induction false} NameAndIdPersist(db: Store, cmds: seq<Command>, k: Uuid)
    requires NeverCreates(cmds, k)
    ensures k in Run(db, cmds) ==> k in db
    ensures k in Run(db, cmds) ==> Run(db, cmds)[k].taskId == db[k].taskId && Run(db, cmds)[k].name == db[k].name
    decreases |cmds|
  {
    if |cmds| > 0 {
      var next := Step(db, cmds[0]).db;
      assert NeverCreates(cmds[1..], k) by {
        forall i | 0 <= i < |cmds[1..]|
          ensures !(cmds[1..][i].Create? && cmds[1..][i].id == k)
        {
          assert cmds[1..][i] == cmds[i + 1];
        }
      }
      NameAndIdPersist(next, cmds[1..], k);
      assert !(cmds[0].Create? && cmds[0].id == k);
    }
  }

  /** After a task is deleted, and until a task is created under its identifier
      again, updating or deleting it fails with `NotFound` and no listing shows it. */
  lemma DeletedStaysNotFound(db: Store, k: Uuid, cmds: seq<Command>, upd: TaskInUpdate, q: Option<StatusFilter>)
    requires k in db
    requires NeverCreates(cmds, k)
    ensures DeleteTask(db, k).Ok?
    ensures UpdateTask(Run(DeleteTask(db, k).value, cmds), k, upd) == Err(NotFound)
    ensures DeleteTask(Run(DeleteTask(db, k).value, cmds), k) == Err(NotFound)
    ensures k !in Select(Run(DeleteTask(db, k).value, cmds), q)
  {
    NameAndIdPersist(DeleteTask(db, k).value, cmds, k);
  }

  /** Deleting a task just created under a fresh identifier gives back the store it was created in. */
  lemma CreateThenDeleteRestores(db: Store, id: Uuid, input: TaskIn)
    requires id !in db
    ensures DeleteTask(CreateTask(db, id, input).db, id) == Ok(db)
  {
    var after := CreateTask(db, id, input).db;
    assert after - {id} == db;
  }

  /** Updating a task with the description and status it already has changes nothing. */
  lemma UpdateWithCurrentFieldsIsIdentity(db: Store, id: Uuid)
    requires id in db
    ensures UpdateTask(db, id, TaskInUpdate(db[id].description, db[id].status)) == Ok(Stored(db, db[id]))
  {
    var r := UpdateTask(db, id, TaskInUpdate(db[id].description, db[id].status));
    assert r.value.db == db;
  }

  /** Repeating an update is the same as doing it once. */
  lemma UpdateIdempotent(db: Store, id: Uuid, upd: TaskInUpdate)
    requires id in db
    ensures UpdateTask(UpdateTask(db, id, upd).value.db, id, upd) == UpdateTask(db, id, upd)
  {
    var once := UpdateTask(db, id, upd).value.db;
    assert UpdateTask(once, id, upd).value.db == once;
  }

  /** The `done` and `not_done` listings are disjoint and together make up the unfiltered listing. */
  lemma ListingPartition(db: Store)
    ensures Select(db, Some(Done)).Keys !! Select(db, Some(NotDone)).Keys
    ensures Select(db, Some(Done)) + Select(db, Some(NotDone)) == Select(db, None)
    ensures Select(db, None) == db
  {
  }

  /** Before any request the listing is empty, whatever the filter. */
  lemma EmptyStartListing(q: Option<StatusFilter>)
    ensures Select(Run(EmptyStore, []), q) == map[]
  {
  }

  /** Three tasks created in a row are all listed as not done and none as done,
      and deleting the three of them empties the store again. */
  lemma ThreeTasksListedThenDeleted()
    ensures var db := Run(EmptyStore, [Create(1, TaskIn("t3", "task3")), Create(2, TaskIn("t4", "task4")), Create(3, TaskIn("t5", "task5"))]);
      && db.Keys == {1, 2, 3}
      && Select(db, Some(NotDone)) == db
      && Select(db, Some(Done)) == map[]
      && Run(db, [Delete(1), Delete(2), Delete(3)]) == EmptyStore
  {
    var db := Run(EmptyStore, [Create(1, TaskIn("t3", "task3")), Create(2, TaskIn("t4", "task4")), Create(3, TaskIn("t5", "task5"))]);
    assert db == map[1 := Task(1, "t3", "task3", false), 2 := Task(2, "t4", "task4", false), 3 := Task(3, "t5", "task5", false)];
  }
}
