/**
 * The data fields of a task (chronos/task.py) as a value, and the
 * rescheduling rule of `Task.schedule_next_run` stated on that value.
 * Timestamps and intervals are whole seconds: the source only adds and
 * compares them.
 */
module Records {
  import opened Wrappers

  /** The qualified name under which the task's function is resolved. */
  type FuncRef = string

  /** A parameter value passed to the task's function. */
  datatype Value =
    | NoneValue
    | BoolValue(b: bool)
    | IntValue(i: int)
    | StrValue(s: string)

  /** Every field of a task object. */
  datatype TaskData = TaskData(
    id: string,
    func: FuncRef,
    params: seq<Value>,
    nextRun: int,
    intervalSeconds: Option<int>,
    runMissed: bool)

  /** `if self.interval_seconds:` — both `None` and `0` are falsy. */
  predicate IsRecurring(d: TaskData) {
    d.intervalSeconds.Some? && d.intervalSeconds.value != 0
  }

  /** The task after one call of `schedule_next_run`. */
  function AfterReschedule(d: TaskData): (r: TaskData)
    ensures IsRecurring(d) ==> r.nextRun == d.nextRun + d.intervalSeconds.value
    ensures !IsRecurring(d) ==> r == d
    ensures r.(nextRun := d.nextRun) == d
    ensures IsRecurring(r) == IsRecurring(d)
  {
    if IsRecurring(d) then d.(nextRun := d.nextRun + d.intervalSeconds.value) else d
  }

  /** The task after `k` successive calls of `schedule_next_run`. */
  function AfterReschedules(d: TaskData, k: nat): TaskData
  {
    if k == 0 then d else AfterReschedule(AfterReschedules(d, k - 1))
  }

  /**
   * Rescheduling advances from the previous scheduled time and never from the
   * current time: after k calls a recurring task is exactly k intervals past
   * its original `next_run`, and a one-shot task is unchanged.
   */
  lemma {:induction false} AfterReschedulesAdvance(d: TaskData, k: nat)
    ensures IsRecurring(d) ==>
      AfterReschedules(d, k) == d.(nextRun := d.nextRun + k * d.intervalSeconds.value)
    ensures !IsRecurring(d) ==> AfterReschedules(d, k) == d
  {
    if k > 0 {
      AfterReschedulesAdvance(d, k - 1);
      if IsRecurring(d) {
        var i := d.intervalSeconds.value;
        assert (k - 1) * i + i == k * i;
      }
    }
  }
}
