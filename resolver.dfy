/**
 * Which standing assignments the kiosk shows as tasks for the current shift
 * (the query and loop of MainWindow.LoadTasksAsync), the sector fail-over test
 * (HasUnprocessedTasksForSector, GetNextSectorWithTasksAsync) and the paging of
 * the task grid. Everything here is a function of a snapshot of the tables.
 */
module TaskResolver {
  import opened Common
  import opened Clock
  import opened Records

  const DueStatusName: string := "Требуется выполнить!"
  const UnknownName: string := "Unknown"
  const AdminRoleId: int := 4
  const PageSize: int := 6

  /** One row of the task grid (TaskViewModel). */
  datatype TaskView = TaskView(
    id: int, workName: string, workType: string, dueDateTime: Time, statusName: string,
    executionTime: Option<Time>, isUnprocessed: bool, comment: Option<string>)

  /** Only roles 1 and 2 get tasks; the administrator role 4, no role and any other role get none. */
  predicate RoleSeesTasks(role: Option<int>) {
    role.Some? && (role.value == 1 || role.value == 2)
  }

  /** The interval of the task list: the frequency's days for frequencies 2 to 5 (0 if unset), a week otherwise. */
  function ListIntervalDays(f: WorkFrequency): int {
    if 2 <= f.id <= 5 then f.intervalDay.GetOr(0) else 7
  }

  /** When the task list considers the assignment due next. */
  function ListNextDue(a: Assignment, f: WorkFrequency, now: Time): Time {
    if f.id == EveryShiftFreqId then ShiftStart(now)
    else if a.lastExecTime == Some(DefaultExecutionTime) then Date(now)
    else match a.lastExecTime
      case Some(t) => AddDays(t, ListIntervalDays(f))
      case None => Date(now)
  }

  /** The query includes Work, WorkType and Freq, which are required: an assignment missing one is not loaded. */
  predicate Loaded(s: Snapshot, a: Assignment) {
    FindWork(s.works, a.workId).Some? && FindWorkType(s.workTypes, a.workTypeId).Some?
      && FindFrequency(s.frequencies, a.freqId).Some?
  }

  /** The filters of the query: not canceled, of the role, of the sector when one is selected. */
  predicate Selected(a: Assignment, role: int, sector: Option<int>) {
    !a.isCanceled && a.roleId == role && (sector.Some? ==> a.sectorId == sector.value)
  }

  /** The assignment is shown: selected, loaded, due (every-shift ones always are) and not handled this shift. */
  predicate Listed(s: Snapshot, a: Assignment, role: int, sector: Option<int>, now: Time) {
    Selected(a, role, sector) && Loaded(s, a)
      && (a.freqId == EveryShiftFreqId || ListNextDue(a, FindFrequency(s.frequencies, a.freqId).value, now) <= now)
      && !HasExecution(s.executions, a.id, ShiftStart(now))
  }

  /** The grid row of a listed assignment. */
  function TaskFor(s: Snapshot, a: Assignment, now: Time): TaskView
    requires Loaded(s, a)
  {
    TaskView(
      a.id,
      FindWork(s.works, a.workId).value.workName.GetOr(UnknownName),
      FindWorkType(s.workTypes, a.workTypeId).value.workType.GetOr(UnknownName),
      ListNextDue(a, FindFrequency(s.frequencies, a.freqId).value, now),
      DueStatusName, None, true, None)
  }

  /** The rows for `asgs`, in their order. */
  function DueTasks(s: Snapshot, asgs: seq<Assignment>, role: int, sector: Option<int>, now: Time): (r: seq<TaskView>)
    ensures |r| <= |asgs|
    ensures forall t :: t in r ==> t.statusName == DueStatusName && t.executionTime == None && t.isUnprocessed
  {
    if asgs == [] then []
    else
      var n := |asgs| - 1;
      DueTasks(s, asgs[..n], role, sector, now)
        + (if Listed(s, asgs[n], role, sector, now) then [TaskFor(s, asgs[n], now)] else [])
  }

  /** The task list for the current role, sector and time. */
  function TaskList(s: Snapshot, role: Option<int>, sector: Option<int>, now: Time): seq<TaskView> {
    if RoleSeesTasks(role) then DueTasks(s, s.assignments, role.value, sector, now) else []
  }

  /** A row is in the list exactly when it is the row of a listed assignment. */
  lemma {:induction false} DueTasksMembership(s: Snapshot, asgs: seq<Assignment>, role: int, sector: Option<int>, now: Time, t: TaskView)
    ensures t in DueTasks(s, asgs, role, sector, now) <==>
      exists a :: a in asgs && Listed(s, a, role, sector, now) && t == TaskFor(s, a, now)
  {
    if asgs != [] {
      var n := |asgs| - 1;
      var last := asgs[n];
      DueTasksMembership(s, asgs[..n], role, sector, now, t);
      assert t in DueTasks(s, asgs, role, sector, now) <==>
        t in DueTasks(s, asgs[..n], role, sector, now) || (Listed(s, last, role, sector, now) && t == TaskFor(s, last, now));
      LastSplit(asgs);
    }
  }

  /** An element of a non-empty sequence is in its prefix or is its last element. */
  lemma LastSplit<T>(xs: seq<T>)
    requires xs != []
    ensures forall x :: x in xs <==> x in xs[..|xs| - 1] || x == xs[|xs| - 1]
  {
    assert xs == xs[..|xs| - 1] + [xs[|xs| - 1]];
  }

  /** Every row of the list stems from an assignment that passes the role and sector filters and is due. */
  lemma TaskListFilters(s: Snapshot, role: Option<int>, sector: Option<int>, now: Time, t: TaskView)
    requires t in TaskList(s, role, sector, now)
    ensures RoleSeesTasks(role)
    ensures exists a :: (a in s.assignments && a.id == t.id && !a.isCanceled && a.roleId == role.value
                         && (sector.Some? ==> a.sectorId == sector.value)
                         && !HasExecution(s.executions, a.id, ShiftStart(now)))
  {
    DueTasksMembership(s, s.assignments, role.value, sector, now, t);
  }

  /** An every-shift assignment that passes the filters stays listed, due at the shift start, until handled. */
  lemma EveryShiftListedUntilHandled(s: Snapshot, a: Assignment, role: int, sector: Option<int>, now: Time)
    requires a in s.assignments && a.freqId == EveryShiftFreqId
    requires Selected(a, role, sector) && Loaded(s, a) && !HasExecution(s.executions, a.id, ShiftStart(now))
    ensures RoleSeesTasks(Some(role)) ==> TaskFor(s, a, now) in TaskList(s, Some(role), sector, now)
    ensures TaskFor(s, a, now).dueDateTime == ShiftStart(now)
  {
    DueTasksMembership(s, s.assignments, role, sector, now, TaskFor(s, a, now));
  }

  /**
   * Once an execution is recorded for an assignment at the start of the shift,
   * the assignment disappears from the list for the rest of that shift.
   */
  lemma HandledNotListed(s: Snapshot, id: int, role: Option<int>, sector: Option<int>, now: Time, later: Time, t: TaskView)
    requires HasExecution(s.executions, id, ShiftStart(now))
    requires ShiftStart(now) <= later < ShiftStart(now) + ShiftLength
    requires t in TaskList(s, role, sector, later)
    ensures t.id != id
  {
    SameShift(now, later);
    TaskListFilters(s, role, sector, later, t);
  }

  // ---- sector fail-over ----

  /** The next-due rule of the fail-over test: last execution (1900-01-01 if none) plus the interval (7 days if unset). */
  function FailoverNextDue(a: Assignment, f: WorkFrequency, now: Time): Time {
    if f.id == EveryShiftFreqId then ShiftStart(now)
    else AddDays(a.lastExecTime.GetOr(DefaultExecutionTime), f.intervalDay.GetOr(7))
  }

  /** The assignment keeps the sector busy: filters of HasUnprocessedTasksForSector, due and not handled. */
  predicate Pending(s: Snapshot, a: Assignment, sectorId: int, role: Option<int>, now: Time) {
    a.sectorId == sectorId && !a.isCanceled && (role.None? || a.roleId == role.value)
      && FindFrequency(s.frequencies, a.freqId).Some?
      && (a.freqId == EveryShiftFreqId || FailoverNextDue(a, FindFrequency(s.frequencies, a.freqId).value, now) <= now)
      && !HasExecution(s.executions, a.id, ShiftStart(now))
  }

  predicate SectorHasPending(s: Snapshot, sectorId: int, role: Option<int>, now: Time) {
    exists a :: a in s.assignments && Pending(s, a, sectorId, role, now)
  }

  /**
   * The first available sector, other than the current one, that still has
   * pending work; no sector at all when none is current.
   */
  function NextSector(s: Snapshot, available: seq<int>, current: Option<int>, role: Option<int>, now: Time): (r: Option<int>)
    ensures current.None? ==> r.None?
    ensures r.Some? ==>
      current.Some? && r.value in available && r.value != current.value && SectorHasPending(s, r.value, role, now)
    ensures current.Some? ==>
      (r.None? <==> forall id :: id in available && id != current.value ==> !SectorHasPending(s, id, role, now))
  {
    if current.None? || available == [] then None
    else if available[0] != current.value && SectorHasPending(s, available[0], role, now) then Some(available[0])
    else NextSector(s, available[1..], current, role, now)
  }

  /** The choice is the first qualifying sector: every sector before it is the current one or has nothing pending. */
  lemma {:induction false} NextSectorIsFirst(s: Snapshot, available: seq<int>, current: Option<int>, role: Option<int>, now: Time)
    requires NextSector(s, available, current, role, now).Some?
    ensures var r := NextSector(s, available, current, role, now).value;
      exists k :: 0 <= k < |available| && available[k] == r
        && forall i :: 0 <= i < k ==> available[i] == current.value || !SectorHasPending(s, available[i], role, now)
  {
    var r := NextSector(s, available, current, role, now).value;
    if !(available[0] != current.value && SectorHasPending(s, available[0], role, now)) {
      NextSectorIsFirst(s, available[1..], current, role, now);
      var k :| 0 <= k < |available[1..]| && available[1..][k] == r
        && forall i :: 0 <= i < k ==> available[1..][i] == current.value || !SectorHasPending(s, available[1..][i], role, now);
      assert available[k + 1] == r;
      forall i | 0 <= i < k + 1 ensures available[i] == current.value || !SectorHasPending(s, available[i], role, now) {
        if i > 0 { assert available[i] == available[1..][i - 1]; }
      }
    } else {
      assert available[0] == r;
    }
  }

  // ---- paging ----

  /** `Math.Ceiling(count / 6.0)`. */
  function TotalPages(count: nat): (p: nat)
    ensures p * PageSize >= count
    ensures count > 0 ==> (p - 1) * PageSize < count
    ensures count == 0 <==> p == 0
  {
    (count + PageSize - 1) / PageSize
  }

  /** `Skip((page - 1) * 6).Take(6)`. */
  function PageOf(tasks: seq<TaskView>, page: int): (r: seq<TaskView>)
    requires page >= 1
    ensures |r| <= PageSize
    ensures forall k :: 0 <= k < |r| ==> (page - 1) * PageSize + k < |tasks| && r[k] == tasks[(page - 1) * PageSize + k]
    ensures page <= TotalPages(|tasks|) <==> r != []
  {
    var start := (page - 1) * PageSize;
    if start >= |tasks| then []
    else if start + PageSize <= |tasks| then tasks[start..start + PageSize]
    else tasks[start..]
  }

  /** Every task shows on exactly one page: the one its index falls in. */
  lemma TaskOnItsPage(tasks: seq<TaskView>, i: nat)
    requires i < |tasks|
    ensures 1 <= i / PageSize + 1 <= TotalPages(|tasks|)
    ensures i % PageSize < |PageOf(tasks, i / PageSize + 1)|
    ensures PageOf(tasks, i / PageSize + 1)[i % PageSize] == tasks[i]
  {
  }
}
