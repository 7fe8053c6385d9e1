/**
 * The in-memory task object of chronos/task.py. The runner mutates it in
 * place (`schedule_next_run`), so it is a class; `Data()` is the value of all
 * its fields, which is what its blob encodes.
 */
module Tasks {
  import opened Wrappers
  import opened Records
  import Codec

  class Task {
    var id: string
    var func: FuncRef
    var params: seq<Value>
    var nextRun: int
    var intervalSeconds: Option<int>
    var runMissed: bool

    function Data(): (d: TaskData)
      reads this
      ensures d.id == id && d.nextRun == nextRun && d.runMissed == runMissed
      ensures d.func == func && d.params == params && d.intervalSeconds == intervalSeconds
    {
      TaskData(id, func, params, nextRun, intervalSeconds, runMissed)
    }

    /**
     * `Task(function, params, next_run, _id=None, interval_seconds=None,
     * run_missed=True)`. `freshId` stands for the `str(uuid.uuid4())` that
     * replaces a missing or empty `_id`.
     */
    constructor (func: FuncRef, params: seq<Value>, nextRun: int, freshId: string,
                 id: Option<string> := None, intervalSeconds: Option<int> := None,
                 runMissed: bool := true)
      requires freshId != ""
      ensures id.Some? && id.value != "" ==> this.id == id.value
      ensures id.None? || id.value == "" ==> this.id == freshId
      ensures this.id != ""
      ensures this.func == func && this.params == params && this.nextRun == nextRun
      ensures this.intervalSeconds == intervalSeconds && this.runMissed == runMissed
    {
      this.id := if id.Some? && id.value != "" then id.value else freshId;
      this.func := func;
      this.params := params;
      this.nextRun := nextRun;
      this.intervalSeconds := intervalSeconds;
      this.runMissed := runMissed;
    }

    /** Unpickling: the object is rebuilt field by field, bypassing `__init__`. */
    constructor Restore(d: TaskData)
      ensures Data() == d
    {
      id, func, params, nextRun, intervalSeconds, runMissed :=
        d.id, d.func, d.params, d.nextRun, d.intervalSeconds, d.runMissed;
    }

    /** `Task.blob`: `from_blob` on it gives back every field of the task. */
    function Blob(): (b: Codec.Blob)
      reads this
      ensures Codec.DecodeTask(b) == Some(Data())
    {
      Codec.TaskRoundTrip(Data());
      Codec.EncodeTask(Data())
    }

    /** `Task.from_blob`; `None` stands for the error pickle raises on a malformed blob. */
    static method FromBlob(blob: Codec.Blob) returns (t: Option<Task>)
      ensures t.Some? <==> Codec.DecodeTask(blob).Some?
      ensures t.Some? ==> fresh(t.value) && t.value.Data() == Codec.DecodeTask(blob).value
    {
      var decoded := Codec.DecodeTask(blob);
      if decoded.Some? {
        var task := new Task.Restore(decoded.value);
        t := Some(task);
      } else {
        t := None;
      }
    }

    /**
     * `schedule_next_run`: a recurring task moves one interval past its
     * previous scheduled time and the call answers true; a one-shot task
     * (interval `None` or `0`) is left as it is and the call answers false.
     * No field other than `nextRun` changes.
     */
    method ScheduleNextRun() returns (rescheduled: bool)
      modifies this
      ensures rescheduled == IsRecurring(old(Data()))
      ensures rescheduled ==> nextRun == old(nextRun) + old(intervalSeconds).value
      ensures !rescheduled ==> nextRun == old(nextRun)
      ensures id == old(id) && func == old(func) && params == old(params)
      ensures intervalSeconds == old(intervalSeconds) && runMissed == old(runMissed)
      ensures Data() == AfterReschedule(old(Data()))
    {
      if intervalSeconds.Some? && intervalSeconds.value != 0 {
        nextRun := nextRun + intervalSeconds.value;
        return true;
      }
      return false;
    }
  }
}
