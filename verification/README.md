# Task store of the megadados task-list service

The service keeps its tasks in one in-memory dictionary, owned by the class
`DBSession`. The dictionary maps a task id (a UUID) to a task record holding
`task_id`, `name`, `description` and `status`. Every session object aliases
the same class-level dictionary, so the whole program works on one store,
which starts empty. The store has four operations:

- `create_task` files a new task, not yet done, under a new id.
- `read_task` lists the store, optionally filtered by `done` or `not_done`.
- `update_task` replaces the description and status of an existing task.
- `delete_task` removes an existing task and returns the remaining store.

`DBSession` appears twice with the same text: `aps2/api/database.py:5-64`
and `main.py:50-109`. One model serves both. The operation rows below cite
the first copy. The rows about sequences of requests cite the second.

The model is functional. A `Store` is an immutable `map<Uuid, Task>`.
Operations take a store and return the new store together with their
answer. `HTTPException(404, 'Task not found')` becomes `Err(NotFound)`.
The 404 code and its message are kept as the constants `NotFoundStatus`
and `NotFoundDetail`. `uuid.uuid4()` becomes an id that the caller passes in.

The store invariant `WellKeyed` says that every entry is filed under its
own `task_id`. A filtered listing re-files each matching task under
`task.task_id`. The invariant is therefore what makes a listing a sub-map
of the store. `Database.ReadTasks` models that loop over the entries, taken
in any order. Its result is always well-keyed and made of matching stored
tasks. On a well-keyed store it equals the reference sub-map `Tasks.Select`.
`Session.ReachableStoresWellKeyed` shows that every store the program can
reach is well-keyed.

Modules:
- `Tasks` (`tasks.dfy`): the record, the request bodies, the filter, the invariant and `Select`.
- `Database` (`database.dfy`): the four operations.
- `Session` (`session.dfy`): runs of requests against the shared store, and the lemmas about them.

## Model

| member | source | states |
|---|---|---|
| Database.CreateTask | aps2/api/database.py:11-18 | The new task has the given id, name and description, and its status is false. It is filed under its own id. Every other entry is unchanged. With a fresh id the store grows by exactly one. |
| Database.ReadTasks | aps2/api/database.py:20-35 | Without a filter the store itself is returned. With a filter, the result holds only stored tasks that match, each filed under its own `task_id`. Every matching task is present. On a well-keyed store the result is exactly the selected sub-map, whatever the scan order. |
| Database.UpdateTask | aps2/api/database.py:37-51 | The update fails with NotFound exactly when the id is absent. Otherwise the stored `task_id` and name are kept, and the description and status are replaced by the request's. The updated task is stored under the same key. No other key changes. |
| Database.DeleteTask | aps2/api/database.py:53-64 | The delete fails with NotFound exactly when the id is absent. Otherwise exactly that key is removed. Every remaining entry is unchanged, and the remaining store is returned. |
| Session.Step | main.py:56-109 | Only an update or delete of an absent id fails, and it fails with NotFound. A failure leaves the store unchanged. A listing never changes the store. A well-keyed store stays well-keyed. |
| Session.OperationsPreserveWellKeyed | main.py:58-101 | Create, update and delete each keep every entry filed under its own id. A successful update returns a task whose `task_id` is the requested id. |
| Session.RunPreservesWellKeyed | main.py:50-109 | Any run of requests that starts from a well-keyed store ends in a well-keyed store. |
| Session.ReachableStoresWellKeyed | main.py:50-54 | Every store reachable from the empty start is well-keyed. |
| Session.NameAndIdPersist | main.py:90-94 | If no request in a run creates the id again, an entry present after the run was present before it, with the same `task_id` and name. |
| Session.DeletedStaysNotFound | main.py:98-109 | After a task is deleted, and until its id is created again, updating or deleting it fails with NotFound. No listing shows it. |
| Session.CreateThenDeleteRestores | api/test_main.py:147-160 | Deleting a task just created under a fresh id gives back the earlier store. |
| Session.UpdateWithCurrentFieldsIsIdentity | main.py:90-96 | Updating a task with its current description and status leaves the store as it was and returns the stored task. |
| Session.UpdateIdempotent | main.py:82-96 | Applying the same update twice gives the same result as applying it once. |
| Session.ListingPartition | main.py:65-80 | The `done` and `not_done` listings have disjoint keys. Their union is the unfiltered listing, which is the whole store. |
| Session.EmptyStartListing | test_main.py:19-22 | Before any request, every listing is empty. |
| Session.ThreeTasksListedThenDeleted | api/test_main.py:24-81 | After three tasks are created, all three are listed as not done and none as done. Deleting all three empties the store again. |

## Left out

- HTTP routing, path prefixes, status-code rendering and the liveness probe (`aps2/api/routers/task.py`, `aps2/api/main.py`, `main.py:111-173`). These are framework plumbing. A `NotFound` result corresponds one-to-one to the 404 answer.
- Request validation by the web framework and its 422 error bodies. This includes coercion of strings such as `"True"` to booleans. None of this logic is visible in the source. The model's request datatypes are already well-typed.
- Non-empty names and descriptions. The request schemas declare plain strings with no length constraint, so the model accepts any string, the empty one included.
- Random UUID generation. The id is a parameter of `CreateTask`. Uniqueness is a hypothesis (`id !in db`) only where a property needs it.
- `async` handlers and dependency injection. Requests are modelled as a sequential run over the one shared store (`Session.Run`).
- Mutation and aliasing of the Python dictionary. An unfiltered listing and a delete hand back the live dictionary. The model returns the store's value instead. No operation of the source mutates a returned dictionary, so the observable contents are the same.
- Repeating a listing. It is trivially idempotent in the functional model, so there is no separate lemma for it.
- `aps3/tasklist/tasklist/models.py` and `aps3_teste/tasklist/tasklist/models.py`. They hold declarative schemas with no logic.
