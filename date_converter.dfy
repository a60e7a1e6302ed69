/**
 * The value converter of the task grid's time column (DateTimeConverter):
 * a processed task shows when it was executed, any other task when it is due.
 */
module DateConverter {
  import opened Common
  import opened Clock
  import opened Calendar
  import opened TaskResolver

  /** What the grid binds to the column: a task row, or anything else. */
  datatype Bound = BoundTask(task: TaskView) | BoundOther

  /** The task carries a real execution moment (not the 1900-01-01 sentinel). */
  predicate ShowsExecution(t: TaskView) {
    t.executionTime.Some? && t.executionTime.value != DefaultExecutionTime
  }

  /** The times of a task lie in the DateTime range, as every DateTime does. */
  predicate InDateTimeRange(t: TaskView) {
    0 <= t.dueDateTime && (t.executionTime.Some? ==> 0 <= t.executionTime.value)
  }

  function Convert(v: Bound): (r: string)
    requires v.BoundTask? ==> InDateTimeRange(v.task)
    ensures v.BoundOther? <==> r == []
    ensures v.BoundTask? && ShowsExecution(v.task) ==> r == Format(v.task.executionTime.value)
    ensures v.BoundTask? && !ShowsExecution(v.task) ==> r == Format(v.task.dueDateTime)
  {
    match v
    case BoundOther => []
    case BoundTask(t) =>
      var text := if ShowsExecution(t) then Format(t.executionTime.value) else Format(t.dueDateTime);
      assert |text| >= 1;
      text
  }

  /** The text of a moment within the DateTime range has the "dd.MM.yyyy HH:mm" layout. */
  lemma ConvertLayout(v: Bound)
    requires v.BoundTask? && InDateTimeRange(v.task)
    requires v.task.dueDateTime < TimeLimit && (v.task.executionTime.Some? ==> v.task.executionTime.value < TimeLimit)
    ensures |Convert(v)| == 16 && Convert(v)[2] == '.' && Convert(v)[5] == '.' && Convert(v)[10] == ' ' && Convert(v)[13] == ':'
  {
    if ShowsExecution(v.task) {
      FormatShape(v.task.executionTime.value);
    } else {
      FormatShape(v.task.dueDateTime);
    }
  }

  /** Every row of the operator's list is unprocessed, so its column shows the due moment. */
  lemma ListedShowDue(s: Records.Snapshot, role: Option<int>, sector: Option<int>, now: Time, t: TaskView)
    requires t in TaskList(s, role, sector, now) && 0 <= t.dueDateTime
    ensures Convert(BoundTask(t)) == Format(t.dueDateTime)
  {
    assert RoleSeesTasks(role);
  }
}
