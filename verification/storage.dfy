/**
 * `Storage` of chronos/storage.py: the `tasks` table and the five operations
 * the scheduler uses, each one SQL statement (table.dfy) followed by a
 * `commit`. A row holds the task's fields rather than their pickled bytes:
 * `Codec.TaskRoundTrip` shows that decoding the blob of a task saved or
 * updated here gives back exactly those fields, so for such rows the two
 * tables answer every query alike. Tasks that fail to pickle or unpickle are
 * outside the model. Opening a connection per call, creating the table and
 * committing are not modelled; a backend failure is the `medium` argument.
 */
module Persistence {
  import opened Wrappers
  import opened Exceptions
  import opened Records
  import opened Table
  import opened Tasks

  type TaskRows = Rows<TaskData>

  /** Every row is stored under its own task's id. */
  ghost predicate Keyed(rows: TaskRows) {
    forall id | id in rows :: rows[id].id == id
  }

  /**
   * `ts` holds the table `rows` one task per row: as many tasks as rows,
   * each equal to the row under its id, no id twice, every stored id present.
   */
  ghost predicate IsSnapshot(ts: seq<Task>, rows: TaskRows)
    reads ts
  {
    && |ts| == |rows|
    && (forall i | 0 <= i < |ts| :: ts[i].id in rows && ts[i].Data() == rows[ts[i].id])
    && (forall i, j | 0 <= i < j < |ts| :: ts[i].id != ts[j].id)
    && (forall id | id in rows :: id in IdsOf(ts))
  }

  /** The id of each task, in order. */
  ghost function IdsOf(ts: seq<Task>): (ids: seq<string>)
    reads ts
    ensures |ids| == |ts| && forall i :: 0 <= i < |ts| ==> ids[i] == ts[i].id
  {
    seq(|ts|, i requires 0 <= i < |ts| reads ts => ts[i].id)
  }

  class Storage {
    var rows: TaskRows

    ghost predicate Valid()
      reads this
    {
      Keyed(rows)
    }

    /** Opens a database file whose table already holds `persisted`. */
    constructor (persisted: TaskRows)
      requires Keyed(persisted)
      ensures Valid() && rows == persisted
    {
      rows := persisted;
    }

    /**
     * `save_task`: inserts the task under its id. An id already stored
     * violates the primary key and raises `StorageError`; the table is then
     * unchanged. No other row is touched.
     */
    method SaveTask(task: Task, medium: Medium) returns (r: Outcome)
      requires Valid()
      modifies this
      ensures Valid()
      ensures var t := Insert(old(rows), task.id, task.Data(), medium);
        && (t.Ok? ==> r == Pass && rows == t.value)
        && (t.Err? ==> r == Fail(t.error) && rows == old(rows))
      ensures r.Pass? <==> medium.Available? && task.id !in old(rows)
      ensures r.Pass? ==> task.id in rows && rows[task.id] == task.Data()
    {
      var inserted := Insert(rows, task.id, task.Data(), medium);
      if inserted.Err? {
        return Fail(inserted.error);
      }
      rows := inserted.value;
      r := Pass;
    }

    /** `get_task`: a fresh task object rebuilt from the row, or `None` when no row has the id. */
    method GetTask(taskId: string, medium: Medium) returns (r: Result<Option<Task>>)
      requires Valid()
      ensures r.Err? <==> medium.Unavailable?
      ensures r.Err? ==> r.error == StorageError(MediumUnavailable)
      ensures r.Ok? ==> (r.value.None? <==> taskId !in rows)
      ensures r.Ok? && r.value.Some? ==>
        fresh(r.value.value) && r.value.value.id == taskId && r.value.value.Data() == rows[taskId]
    {
      var selected := Select(rows, taskId, medium);
      if selected.Err? {
        return Err(selected.error);
      }
      if selected.value.None? {
        return Ok(None);
      }
      var task := new Task.Restore(selected.value.value);
      r := Ok(Some(task));
    }

    /**
     * `get_all_tasks`: one fresh task object per row, in no particular order.
     */
    method GetAllTasks(medium: Medium) returns (r: Result<seq<Task>>)
      requires Valid()
      ensures r.Err? <==> medium.Unavailable?
      ensures r.Err? ==> r.error == StorageError(MediumUnavailable)
      ensures r.Ok? ==> IsSnapshot(r.value, rows)
      ensures r.Ok? ==> forall i :: 0 <= i < |r.value| ==> fresh(r.value[i])
    {
      if medium.Unavailable? {
        return Err(StorageError(MediumUnavailable));
      }
      var cursor := ScanAll(rows);
      var loaded: seq<Task> := [];
      for i := 0 to |cursor|
        invariant |loaded| == i
        invariant forall k :: 0 <= k < i ==>
          fresh(loaded[k]) && loaded[k].id == cursor[k].0 && loaded[k].Data() == cursor[k].1
      {
        var task := new Task.Restore(cursor[i].1);
        loaded := loaded + [task];
      }
      forall id | id in rows ensures id in IdsOf(loaded) {
        var i :| 0 <= i < |cursor| && cursor[i].0 == id;
        assert IdsOf(loaded)[i] == id;
      }
      r := Ok(loaded);
    }

    /**
     * `update_task`: overwrites the row keyed by the task's id with its
     * current fields. An id with no row matches nothing: no error, no
     * change. No other row is touched.
     */
    method UpdateTask(task: Task, medium: Medium) returns (r: Outcome)
      requires Valid()
      modifies this
      ensures Valid()
      ensures var t := Update(old(rows), task.id, task.Data(), medium);
        && (t.Ok? ==> r == Pass && rows == t.value)
        && (t.Err? ==> r == Fail(t.error) && rows == old(rows))
      ensures r.Pass? <==> medium.Available?
      ensures r.Pass? && task.id in old(rows) ==> rows[task.id] == task.Data()
    {
      var updated := Update(rows, task.id, task.Data(), medium);
      if updated.Err? {
        return Fail(updated.error);
      }
      rows := updated.value;
      r := Pass;
    }

    /** `remove_task`: deletes the row keyed by `taskId`; an absent id is no error. */
    method RemoveTask(taskId: string, medium: Medium) returns (r: Outcome)
      requires Valid()
      modifies this
      ensures Valid()
      ensures var t := Delete(old(rows), taskId, medium);
        && (t.Ok? ==> r == Pass && rows == t.value)
        && (t.Err? ==> r == Fail(t.error) && rows == old(rows))
      ensures r.Pass? <==> medium.Available?
      ensures r.Pass? ==> taskId !in rows
    {
      var deleted := Delete(rows, taskId, medium);
      if deleted.Err? {
        return Fail(deleted.error);
      }
      rows := deleted.value;
      r := Pass;
    }
  }
}
