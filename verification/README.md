# chronos scheduler core, modelled in Dafny

chronos is a small asyncio task scheduler. Its core consists of three parts, and this project models all three:

- A `Task` record (`chronos/task.py`). A task holds:
  - an id;
  - a function reference and its parameters;
  - the timestamp of its next run;
  - an optional repeat interval;
  - a `run_missed` policy flag.
- A SQLite-backed `Storage` (`chronos/storage.py`). It keeps each task's pickled blob in a `tasks` table whose primary key is the id.
- A `Scheduler` (`chronos/scheduler.py`). It runs each task in its own coroutine (a "runner"). A runner:
  - optionally saves the task;
  - waits until the task is due, or skips a missed run;
  - executes the task;
  - then either advances a recurring task, updates its row and spawns the next runner, or deletes a one-shot task's row.

## Modules

| file | module | contents |
|---|---|---|
| wrappers.dfy | `Wrappers` | `Option` with failure propagation |
| exceptions.dfy | `Exceptions` | the two error kinds (`StorageError`, `TaskExecutionError`) and the `Outcome` / `Result` shapes of an operation that may raise |
| records.dfy | `Records` | the task's fields as a value (`TaskData`) and the reschedule rule `AfterReschedule` |
| codec.dfy | `Codec` | a byte encoding of `TaskData` standing for pickle, with round-trip lemmas |
| task.dfy | `Tasks` | class `Task`: constructor, unpickling (`Restore`, `FromBlob`), `Blob`, `ScheduleNextRun` |
| table.dfy | `Table` | each SQL statement the storage issues, as a function on a map from id to row |
| storage.dfy | `Persistence` | class `Storage` over a `rows` map, one method per storage operation |
| scheduler.dfy | `Scheduling` | `Step`, the value-level specification of one runner pass, and class `Scheduler` |

## Modelling decisions

Timestamps, intervals and the current time are whole seconds (`int`). The code only adds them and compares them.

The current time (`time()`) is the `now` argument. What the executor does with the task's function is the `outcome` argument: the function either returns or raises.

A backend failure of SQLite (any `aiosqlite.Error` other than a primary-key violation) is the `medium` argument of each storage call. A `Medium.Unavailable` call raises `StorageError` and leaves the table unchanged. Every task in the model can be pickled and unpickled. The errors that pickling or unpickling raises are not an `aiosqlite.Error`, and they are listed under Left out.

A runner is the pending call `__run_task(task, save)` it stands for: `Runner(task, save)`. `self.tasks` is the sequence of runners spawned so far.

A table row holds the task's fields (`TaskData`), not their blob. `Tasks.Task.Blob` and `Codec.TaskRoundTrip` show that decoding a blob written by `save_task` or `update_task` gives back exactly those fields. For every row written through those two operations, then, a table of blobs answers every query alike.

The ghost field `Scheduler.executed` records each executor invocation. The contract of `RunTask` can therefore say how many times the executor ran in one pass.

## Behaviour worth noting

- `UPDATE tasks SET data = ? WHERE id = ?` on an id with no row matches nothing and raises nothing (`chronos/storage.py:75-78`).
- A recurring task is continued by a brand-new runner appended to `self.tasks` (`chronos/scheduler.py:59-60`).
- A missed run with `run_missed` false is skipped and stays stored, with its `next_run` unchanged (`chronos/scheduler.py:43-47`).

## Model

| member | source | states |
|---|---|---|
| Records.AfterReschedule | chronos/task.py:42-45 | a recurring task (interval neither `None` nor `0`) gets `next_run + interval`; a one-shot task is unchanged; no field other than `next_run` changes; recurrence is kept |
| Records.AfterReschedulesAdvance | chronos/task.py:37-45 | after k reschedules, a recurring task is exactly k intervals past its original `next_run`, independent of the current time; a one-shot task is unchanged |
| Tasks.Task.constructor | chronos/task.py:11-25 | the id is the supplied `_id` when it is present and non-empty, otherwise the fresh id; the id is never empty; interval defaults to `None` and `run_missed` to true; every other field is the argument given |
| Tasks.Task.Restore | chronos/task.py:27-30 | an unpickled task has exactly the decoded fields |
| Tasks.Task.FromBlob | chronos/task.py:27-30 | yields a fresh task exactly when the blob decodes, holding the decoded fields; a malformed blob is the error case |
| Tasks.Task.ScheduleNextRun | chronos/task.py:37-45 | answers true exactly for a recurring task and then adds exactly one interval to `next_run`; otherwise answers false and leaves `next_run` as it was; id, function, params, interval and `run_missed` never change; the new fields are `AfterReschedule` of the old |
| Tasks.Task.Blob | chronos/task.py:32-35 | decoding the task's blob, as `from_blob` does, gives back every field of the task |
| Codec.TaskRoundTrip | chronos/task.py:27-35 | decoding the encoding of any task record gives back the same id, function, params, `next_run`, interval and `run_missed` |
| Codec.ParamsRoundTrip | chronos/task.py:32-35 | a parameter list decodes back to itself and leaves what follows it untouched |
| Codec.ValueRoundTrip | chronos/task.py:32-35 | each parameter value (`None`, bool, int, str) decodes back to itself |
| Codec.StrRoundTrip | chronos/task.py:32-35 | a string (id, function name, str parameter) decodes back to itself |
| Codec.IntRoundTrip | chronos/task.py:32-35 | an integer (`next_run`, interval, int parameter), negative or not, decodes back to itself |
| Codec.IntervalRoundTrip | chronos/task.py:32-35 | the optional interval, `None` included, decodes back to itself |
| Table.Insert | chronos/storage.py:38-41 | the insert succeeds exactly when the backend is available and the id is not stored yet; a duplicate id raises a primary-key `StorageError`; on success exactly the new id is added, with the given row, and every other row is kept |
| Table.Select | chronos/storage.py:51-57 | answers `None` exactly when no row has the id, otherwise that row; raises only when the backend fails |
| Table.Update | chronos/storage.py:75-78 | replaces the row of a stored id; an absent id matches no row, raises nothing and leaves the table unchanged; keys and every other row are kept |
| Table.Delete | chronos/storage.py:88 | removes the id if present, with no error when it is absent; every other row is kept |
| Table.SelectAfterInsert | chronos/storage.py:38-56 | a row just inserted is what a following `SELECT` on its id returns |
| Table.SelectAfterUpdate | chronos/storage.py:51-78 | after an update, a `SELECT` on the id returns the new row if the id was stored, and no row otherwise |
| Table.SelectAfterDelete | chronos/storage.py:51-88 | after a delete, a `SELECT` on the id finds no row |
| Table.ScanAll | chronos/storage.py:65-66 | the cursor yields every row of the table exactly once, each with its own id, in no promised order |
| Persistence.Storage.constructor | chronos/storage.py:17-32 | a storage opened on a table keyed by id holds exactly that table |
| Persistence.Storage.SaveTask | chronos/storage.py:34-45 | the new table is the `INSERT` of the task's fields under its id; passes exactly when the backend is available and the id is new, and then stores the task's current fields; a duplicate id or a failing backend raises and leaves the table unchanged; rows stay keyed by their ids |
| Persistence.Storage.GetTask | chronos/storage.py:47-59 | answers `None` exactly when no row has the id; otherwise a fresh task with that id and the stored fields; raises `StorageError` exactly when the backend fails (an unpickling failure is under Left out) |
| Persistence.Storage.GetAllTasks | chronos/storage.py:61-69 | one fresh task per stored row: as many tasks as rows, each equal to the row under its id, no id twice, every stored id present; raises `StorageError` exactly when the backend fails (an unpickling failure is under Left out) |
| Persistence.Storage.UpdateTask | chronos/storage.py:71-82 | the new table is the `UPDATE` of the task's row; a stored id then holds the task's current fields; an absent id is no error and changes nothing; a failing backend raises and changes nothing |
| Persistence.Storage.RemoveTask | chronos/storage.py:84-92 | the new table is the `DELETE` of the id; after it the id is absent, whether or not it was present before; a failing backend raises and changes nothing |
| Scheduling.Step | chronos/scheduler.py:25-67 | one pass: a failed save (`DuplicateId` for an id already stored, `MediumUnavailable` for a backend failure) executes nothing and changes nothing; the executor runs exactly when the save (if asked) succeeded and the task is due later or `run_missed` is true; a skipped missed run keeps the record and its `next_run`; a failed execution neither reschedules nor removes; a successful recurring run stores `next_run + interval`, keeps the row and spawns exactly one runner; a successful one-shot run removes the row and spawns none; a failed write leaves the table as the save left it; only the task's own row is touched, and rows stay keyed |
| Scheduling.Scheduler.constructor | chronos/scheduler.py:19-23 | a new scheduler has no runners, is not running, and has executed nothing |
| Scheduling.Scheduler.RunTask | chronos/scheduler.py:25-67 | the returned ending, the task's new fields, the new table, the runner appended (or not) to `self.tasks` and the executor invocation (or not) are exactly those `Step` prescribes; `running` is unchanged |
| Scheduling.Scheduler.AddTask | chronos/scheduler.py:69-78 | appends exactly one runner, which saves the task first |
| Scheduling.Scheduler.Start | chronos/scheduler.py:80-96 | sets `running`; a load that fails in the backend raises `StorageError` and spawns nothing; otherwise the old runners are kept and one non-saving runner is appended per stored task, the new runners' tasks being a snapshot of the table made of fresh objects |
| Scheduling.Scheduler.SpawnAll | chronos/scheduler.py:90-92 | appends one non-saving runner per loaded task, in the order loaded, after the existing runners |
| Scheduling.Scheduler.Stop | chronos/scheduler.py:116-128 | clears `running` and leaves the runner registry empty |

## Left out

- The executor (`chronos/executor.py`): the lookup of the callable, the choice between awaiting a coroutine and running in a thread pool, and the call itself. Its effect is the `outcome` argument. Any exception becomes `TaskExecutionError(task.id, message)`.
- Waiting and concurrency: `asyncio.sleep` before a due run, `create_task`, and the interleaving of runners. A runner is its pending call, and a pass is atomic.
- `start()` (`chronos/scheduler.py:98-114`): event-loop detection and `run_until_complete`. Only the `__start` coroutine it schedules is modelled, as `Start`.
- The cancellation loop and `asyncio.gather` in `stop()` (`chronos/scheduler.py:123-127`). `Stop` models only the flag and the clearing of the registry.
- The SQLite connection per call, `commit`, and table creation in `Storage.__init__`, including the `StorageError` its failure raises. `Storage` is built over an already open table.
- `Scheduling.Scheduler.constructor` takes its storage as an argument rather than opening one from `storage_path`.
- pickle's byte format. `Codec` is this model's own encoding of the same fields, and a table row holds the decoded fields rather than the bytes.
- The function reference is its name (`FuncRef = string`). Resolving it to a callable is not modelled.
- Parameter values are limited to `None`, booleans, integers and strings. Floats, nested containers and arbitrary picklable objects are left out.
- Float timestamps from `time()`. `now`, `next_run` and the interval are integers.
- `uuid.uuid4()` is the `freshId` argument of the constructor, required to be non-empty.
- Logging, and `Task.__repr__`.
- Persistence.Storage.GetTask: a stored blob that fails to unpickle is not modelled. Examples are a function renamed or moved since the blob was written. In the source `Task.from_blob` then raises inside the `try` (`chronos/storage.py:55-56`). The exception is not an `aiosqlite.Error`, so it escapes unwrapped rather than as `StorageError`. Rows here hold decoded fields and cannot be malformed, so the model raises only on a backend failure.
- Persistence.Storage.GetAllTasks: the same unpickling error is not modelled for any row of the scan (`chronos/storage.py:65-66`). `__start` re-raises that error (`chronos/scheduler.py:93-96`). `Scheduling.Scheduler.Start`'s failure case therefore covers only the backend failure.
- Persistence.Storage.SaveTask: assumes every task can be pickled. In the source, `task.blob` (`pickle.dumps`, `chronos/task.py:35`) runs inside the `try` of `save_task` (`chronos/storage.py:38-41`). A lambda, a nested function or an unpicklable parameter makes it raise `PicklingError` or `AttributeError`. That error is not an `aiosqlite.Error`, so it escapes without being wrapped as `StorageError`, and the table is unchanged. The model's tasks have a function name and simple values, so they always pickle, and `SaveTask` raises only a duplicate id or a backend failure.
- Persistence.Storage.UpdateTask: the same pickling failure inside the `try` of `update_task` (`chronos/storage.py:75-78`) is not modelled. It too would escape unwrapped and leave the table unchanged.
- Scheduling.Step: a pickling failure during the initial save is not modelled. In the source `__run_task` swallows it (`chronos/scheduler.py:65-67`). Its effect on the table, on the task and on the executor is that of a failed save in the model (`saveMedium == Unavailable`): nothing is stored, nothing runs and nothing is respawned. Only the error it raises differs. The same holds for a pickling failure during the update after a successful run, which behaves like a failed write (`writeMedium == Unavailable`).
