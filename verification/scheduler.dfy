/**
 * `Scheduler` of chronos/scheduler.py. One pass of `__run_task` is specified
 * by the value-level function `Step` and carried out by the method
 * `Scheduler.RunTask`; `add_task`, `__start` and `stop` keep the registry of
 * runners (`self.tasks`) and the `running` flag. Waiting, spawning and
 * cancelling coroutines are not modelled: a runner is the pending call it
 * stands for, the current time is the `now` argument, and what the executor
 * does is the `outcome` argument.
 */
module Scheduling {
  import opened Exceptions
  import opened Records
  import opened Table
  import opened Tasks
  import opened Persistence

  /** What `TaskExecutor.execute` does with the task's function: return, or raise. */
  datatype ExecOutcome = Returned | Raised(message: string)

  /** How a pass ends, as its log line tells. */
  datatype PassEnd =
    | Skipped               // missed its run and `run_missed` is false
    | Rescheduled           // recurring: advanced, updated, and a new runner spawned
    | Retired               // one-shot: removed from storage
    | Aborted(error: SchedulerError)  // an exception ended the pass

  /** An entry of `self.tasks`: a pending `__run_task(task, save)`. */
  datatype Runner = Runner(task: Task, save: bool)

  /** The task of each runner. */
  function TasksOf(rs: seq<Runner>): (ts: seq<Task>)
    ensures |ts| == |rs| && forall i :: 0 <= i < |rs| ==> ts[i] == rs[i].task
  {
    seq(|rs|, i requires 0 <= i < |rs| => rs[i].task)
  }

  /** Everything one pass changes: the task's fields, the table, and what happened. */
  datatype PassEffect = PassEffect(
    record: TaskData,
    rows: TaskRows,
    executed: bool,
    respawned: bool,
    end: PassEnd)

  /**
   * One pass of `__run_task(task, save)` at time `now` over the table `rows`.
   * `saveMedium` is the backend during the initial save, `writeMedium` during
   * the update or delete that follows a successful run.
   */
  function Step(d: TaskData, save: bool, now: int, outcome: ExecOutcome,
                saveMedium: Medium, writeMedium: Medium, rows: TaskRows): (p: PassEffect)
    // the save comes first: when the insert fails nothing runs and nothing changes
    ensures save && (saveMedium.Unavailable? || d.id in rows) ==>
      && !p.executed && !p.respawned && p.rows == rows && p.record == d
      && p.end == Aborted(StorageError(if saveMedium.Unavailable? then MediumUnavailable else DuplicateId))
    // the executor is invoked exactly when the save (if any) succeeded and the
    // task is not a missed run that must be skipped
    ensures p.executed <==>
      && (!save || (saveMedium.Available? && d.id !in rows))
      && (d.nextRun > now || d.runMissed)
    // a skipped missed run leaves the task and its stored row as they were
    ensures (!save || (saveMedium.Available? && d.id !in rows)) && d.nextRun <= now && !d.runMissed ==>
      && p.end == Skipped && p.record == d && !p.respawned
      && p.rows == (if save then rows[d.id := d] else rows)
    // a failed execution is neither rescheduled nor removed
    ensures p.executed && outcome.Raised? ==>
      && p.end == Aborted(TaskExecutionError(d.id, outcome.message))
      && p.record == d && !p.respawned
      && p.rows == (if save then rows[d.id := d] else rows)
    // a successful run reschedules the in-memory task, from its own previous time
    ensures p.executed && outcome.Returned? ==> p.record == AfterReschedule(d)
    // a recurring task is stored with its new time and gets one new runner
    ensures p.executed && outcome.Returned? && IsRecurring(d) && writeMedium.Available? ==>
      && p.end == Rescheduled && p.respawned
      && p.record.nextRun == d.nextRun + d.intervalSeconds.value
      && (save || d.id in rows ==> d.id in p.rows && p.rows[d.id] == p.record)
      && (!save && d.id !in rows ==> p.rows == rows)
    // a one-shot task is removed and gets no new runner
    ensures p.executed && outcome.Returned? && !IsRecurring(d) && writeMedium.Available? ==>
      && p.end == Retired && !p.respawned && d.id !in p.rows
    // a failed update or delete leaves the table as the save left it
    ensures p.executed && outcome.Returned? && writeMedium.Unavailable? ==>
      && p.end == Aborted(StorageError(MediumUnavailable)) && !p.respawned
      && p.rows == (if save then rows[d.id := d] else rows)
    // only a successful recurring run spawns a runner
    ensures p.respawned ==> p.executed && outcome.Returned? && IsRecurring(d)
    // no row other than the task's own is touched
    ensures forall k :: k != d.id ==> (k in p.rows <==> k in rows) && (k in rows ==> p.rows[k] == rows[k])
    // every row stays keyed by its own id
    ensures Keyed(rows) ==> Keyed(p.rows)
  {
    var saved := if save then Insert(rows, d.id, d, saveMedium) else Ok(rows);
    if saved.Err? then PassEffect(d, rows, false, false, Aborted(saved.error))
    else
      var rows1 := saved.value;
      if d.nextRun <= now && !d.runMissed then PassEffect(d, rows1, false, false, Skipped)
      else if outcome.Raised? then
        PassEffect(d, rows1, true, false, Aborted(TaskExecutionError(d.id, outcome.message)))
      else
        var d' := AfterReschedule(d);
        if IsRecurring(d) then
          var updated := Update(rows1, d.id, d', writeMedium);
          if updated.Err? then PassEffect(d', rows1, true, false, Aborted(updated.error))
          else PassEffect(d', updated.value, true, true, Rescheduled)
        else
          var removed := Delete(rows1, d.id, writeMedium);
          if removed.Err? then PassEffect(d', rows1, true, false, Aborted(removed.error))
          else PassEffect(d', removed.value, true, false, Retired)
  }

  class Scheduler {
    const storage: Storage
    /** `self.tasks`: every runner spawned since the last `stop`. */
    var tasks: seq<Runner>
    var running: bool
    /** The ids of the tasks handed to the executor, in order. */
    ghost var executed: seq<string>

    ghost predicate Valid()
      reads this, storage
    {
      storage.Valid()
    }

    constructor (storage: Storage)
      requires storage.Valid()
      ensures Valid() && this.storage == storage
      ensures tasks == [] && !running && executed == []
    {
      this.storage := storage;
      tasks := [];
      running := false;
      executed := [];
    }

    /**
     * `__run_task(task, save)`: save if asked; skip a missed run when
     * `run_missed` is false; execute; then either advance the task, update
     * its row and spawn the next runner, or remove its row. Any exception
     * ends the pass where it is raised.
     */
    method RunTask(task: Task, save: bool, now: int, outcome: ExecOutcome,
                   saveMedium: Medium, writeMedium: Medium) returns (end: PassEnd)
      requires Valid()
      modifies this, task, storage
      ensures Valid() && running == old(running)
      ensures var p := Step(old(task.Data()), save, now, outcome, saveMedium, writeMedium, old(storage.rows));
        && end == p.end && task.Data() == p.record && storage.rows == p.rows
        && tasks == old(tasks) + (if p.respawned then [Runner(task, false)] else [])
        && executed == old(executed) + (if p.executed then [old(task.id)] else [])
    {
      if save {
        var saved := storage.SaveTask(task, saveMedium);
        if saved.Fail? {
          return Aborted(saved.error);
        }
      }
      var pause := task.nextRun - now;
      if pause <= 0 && !task.runMissed {
        return Skipped;
      }
      executed := executed + [task.id];
      if outcome.Raised? {
        return Aborted(TaskExecutionError(task.id, outcome.message));
      }
      var recurring := task.ScheduleNextRun();
      if recurring {
        var updated := storage.UpdateTask(task, writeMedium);
        if updated.Fail? {
          return Aborted(updated.error);
        }
        tasks := tasks + [Runner(task, false)];
        end := Rescheduled;
      } else {
        var removed := storage.RemoveTask(task.id, writeMedium);
        if removed.Fail? {
          return Aborted(removed.error);
        }
        end := Retired;
      }
    }

    /** `add_task`: spawns one runner that saves the task before anything else. */
    method AddTask(task: Task)
      modifies this`tasks
      ensures tasks == old(tasks) + [Runner(task, true)]
    {
      tasks := tasks + [Runner(task, true)];
    }

    /**
     * `__start`: sets `running`, loads every stored task and spawns one
     * runner per task, without saving. A failed load is raised again and
     * spawns nothing.
     */
    method Start(medium: Medium) returns (r: Outcome)
      requires Valid()
      modifies this`tasks, this`running
      ensures running
      ensures r.Pass? <==> medium.Available?
      ensures r.Fail? ==> r.error == StorageError(MediumUnavailable) && tasks == old(tasks)
      ensures r.Pass? ==> |old(tasks)| <= |tasks| && tasks[..|old(tasks)|] == old(tasks)
      ensures r.Pass? ==> IsSnapshot(TasksOf(tasks[|old(tasks)|..]), storage.rows)
      ensures r.Pass? ==> forall i :: |old(tasks)| <= i < |tasks| ==> !tasks[i].save && fresh(tasks[i].task)
    {
      running := true;
      var loaded := storage.GetAllTasks(medium);
      if loaded.Err? {
        return Fail(loaded.error);
      }
      var all := loaded.value;
      SpawnAll(all);
      assert IsSnapshot(all, storage.rows);
      r := Pass;
    }

    /** The `for` loop of `__start`: one runner per loaded task, appended in order, none of them saving it again. */
    method SpawnAll(all: seq<Task>)
      modifies this`tasks
      ensures |old(tasks)| <= |tasks| && tasks[..|old(tasks)|] == old(tasks)
      ensures TasksOf(tasks[|old(tasks)|..]) == all
      ensures forall i :: |old(tasks)| <= i < |tasks| ==> !tasks[i].save
    {
      ghost var spawned: seq<Runner> := [];
      for i := 0 to |all|
        invariant tasks == old(tasks) + spawned
        invariant |spawned| == i && forall j :: 0 <= j < i ==> spawned[j] == Runner(all[j], false)
      {
        tasks := tasks + [Runner(all[i], false)];
        spawned := spawned + [Runner(all[i], false)];
      }
      assert tasks[|old(tasks)|..] == spawned;
    }

    /** `stop`: clears `running` and empties the registry once every runner has been cancelled. */
    method Stop()
      modifies this`tasks, this`running
      ensures !running && tasks == []
    {
      running := false;
      tasks := [];
    }
  }
}
