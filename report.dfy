/**
 * The report window (ReportWindow.LoadReports): executions joined with their
 * assignment, work, sector and type, filtered by due day, sector and shift,
 * and projected to report rows.
 */
module Report {
  import opened Common
  import opened Clock
  import opened Records
  import opened Calendar

  const DayShiftName: string := "Дневная"
  const NightShiftName: string := "Ночная"
  const NoShiftName: string := "Не указано"
  const CompletedName: string := "Выполнена"
  const NotDoneName: string := "Не выполнена"
  const UnknownStatusName: string := "Неизвестно"
  const NotExecutedText: string := "Не выполнено"
  const NoOperatorName: string := "Не назначен"

  /** The filter of the window: a day, a sector and a shift ("All", "Day", anything else is night). */
  datatype ReportFilter = ReportFilter(date: Option<Time>, sectorId: Option<int>, shiftType: string)

  const NoFilter: ReportFilter := ReportFilter(None, None, "All")

  datatype ReportRow = ReportRow(
    id: int, workName: Option<string>, sectorName: Option<string>, shiftType: string, status: int,
    statusName: string, executionTime: Time, executionTimeDisplay: string, operatorName: Option<string>,
    comment: Option<string>)

  /**
   * The projection reads the assignment's work and sector, both required
   * navigations, so an execution missing one is not read. The work type is
   * also asked for: its foreign key means no stored row lacks one.
   */
  predicate Joined(s: Snapshot, e: Execution) {
    && FindAssignment(s.assignments, e.assignmentId).Some?
    && var a := FindAssignment(s.assignments, e.assignmentId).value;
       FindWork(s.works, a.workId).Some? && FindSector(s.sectors, a.sectorId).Some?
       && FindWorkType(s.workTypes, a.workTypeId).Some?
  }

  predicate PassesDate(e: Execution, date: Option<Time>) {
    date.None? || (e.dueDateTime.Some? && Date(date.value) <= e.dueDateTime.value < Date(date.value) + SecondsPerDay)
  }

  predicate PassesShift(e: Execution, shiftType: string) {
    shiftType == "All" || (e.dueDateTime.Some? && (Hour(e.dueDateTime.value) == 8) == (shiftType == "Day"))
  }

  predicate Passes(s: Snapshot, e: Execution, f: ReportFilter)
    requires Joined(s, e)
  {
    && PassesDate(e, f.date)
    && (f.sectorId.None? || FindAssignment(s.assignments, e.assignmentId).value.sectorId == f.sectorId.value)
    && PassesShift(e, f.shiftType)
  }

  function ShiftTypeName(due: Option<Time>): (r: string)
    ensures r == NoShiftName <==> due.None?
    ensures r == DayShiftName <==> due.Some? && Hour(due.value) == 8
  {
    match due
    case None => NoShiftName
    case Some(t) => if Hour(t) == 8 then DayShiftName else NightShiftName
  }

  function StatusName(status: int): (r: string)
    ensures r == CompletedName <==> status == StatusCompleted
    ensures r == NotDoneName <==> status == StatusNotDone
    ensures r == UnknownStatusName <==> status != StatusCompleted && status != StatusNotDone
  {
    if status == StatusCompleted then CompletedName else if status == StatusNotDone then NotDoneName else UnknownStatusName
  }

  /** The sentinel reads "not executed"; any other moment is written out. */
  function ExecutionTimeDisplay(t: Time): (r: string)
    requires 0 <= t
    ensures r == NotExecutedText <==> t == DefaultExecutionTime
  {
    if t == DefaultExecutionTime then NotExecutedText
    else
      var f := Format(t);
      assert f[0] != NotExecutedText[0];
      f
  }

  function FindOperator(operators: seq<Skud>, id: int): (r: Option<Skud>)
    ensures r.Some? ==> r.value in operators && r.value.id == id
    ensures r.None? <==> forall o :: o in operators ==> o.id != id
  {
    if operators == [] then None
    else if operators[0].id == id then Some(operators[0])
    else FindOperator(operators[1..], id)
  }

  /** The name of the operator of the execution (possibly unset), or "not assigned" when there is none. */
  function OperatorName(operators: seq<Skud>, operatorId: Option<int>): (r: Option<string>)
    ensures (operatorId.None? || FindOperator(operators, operatorId.value).None?) ==> r == Some(NoOperatorName)
    ensures operatorId.Some? && FindOperator(operators, operatorId.value).Some? ==>
      r == FindOperator(operators, operatorId.value).value.fio
  {
    if operatorId.Some? && FindOperator(operators, operatorId.value).Some? then FindOperator(operators, operatorId.value).value.fio
    else Some(NoOperatorName)
  }

  function RowOf(s: Snapshot, operators: seq<Skud>, e: Execution): ReportRow
    requires Joined(s, e) && 0 <= e.executionTime
  {
    var a := FindAssignment(s.assignments, e.assignmentId).value;
    ReportRow(e.id, FindWork(s.works, a.workId).value.workName, FindSector(s.sectors, a.sectorId).value.sectorName,
      ShiftTypeName(e.dueDateTime), e.status, StatusName(e.status), e.executionTime,
      ExecutionTimeDisplay(e.executionTime), OperatorName(operators, e.operatorId), e.comment)
  }

  /** The query reads the execution and the filter lets it through. */
  predicate Keeps(s: Snapshot, e: Execution, f: ReportFilter) {
    Joined(s, e) && Passes(s, e, f)
  }

  /** The executions the query reads and the filter keeps, in the order the table is read (insertion order). */
  function Kept(s: Snapshot, executions: seq<Execution>, f: ReportFilter): (r: seq<Execution>)
    ensures |r| <= |executions|
  {
    if executions == [] then []
    else
      var n := |executions| - 1;
      Kept(s, executions[..n], f) + (if Keeps(s, executions[n], f) then [executions[n]] else [])
  }

  predicate TimesInRange(executions: seq<Execution>) {
    forall e :: e in executions ==> 0 <= e.executionTime
  }

  function Rows(s: Snapshot, operators: seq<Skud>, kept: seq<Execution>): (r: seq<ReportRow>)
    requires forall e :: e in kept ==> Joined(s, e) && 0 <= e.executionTime
    ensures |r| == |kept|
    ensures forall k :: 0 <= k < |r| ==> r[k] == RowOf(s, operators, kept[k])
  {
    seq(|kept|, k requires 0 <= k < |kept| => RowOf(s, operators, kept[k]))
  }

  /** The rows the window shows. */
  function LoadReports(s: Snapshot, operators: seq<Skud>, f: ReportFilter): (r: seq<ReportRow>)
    requires TimesInRange(s.executions)
    ensures |r| == |Kept(s, s.executions, f)|
  {
    KeptFrom(s, s.executions, f);
    Rows(s, operators, Kept(s, s.executions, f))
  }

  /** An execution is kept exactly as often as the table holds it, when it joins and passes the filter. */
  lemma {:induction false} KeptCount(s: Snapshot, executions: seq<Execution>, f: ReportFilter, e: Execution)
    ensures multiset(Kept(s, executions, f))[e] == if Keeps(s, e, f) then multiset(executions)[e] else 0
  {
    if executions != [] {
      var n := |executions| - 1;
      var last := executions[n];
      KeptCount(s, executions[..n], f, e);
      assert executions == executions[..n] + [last];
      var tail := if Keeps(s, last, f) then [last] else [];
      assert Kept(s, executions, f) == Kept(s, executions[..n], f) + tail;
      assert multiset(executions) == multiset(executions[..n]) + multiset{last};
      assert multiset(Kept(s, executions, f)) == multiset(Kept(s, executions[..n], f)) + multiset(tail);
    }
  }

  /** Every kept execution is one of the table's, joined and passing the filter. */
  lemma KeptFrom(s: Snapshot, executions: seq<Execution>, f: ReportFilter)
    ensures forall e :: e in Kept(s, executions, f) ==> e in executions && Keeps(s, e, f)
  {
    forall e | e in Kept(s, executions, f) ensures e in executions && Keeps(s, e, f) {
      KeptCount(s, executions, f, e);
    }
  }

  /** The window shows a row for every execution that is read and passes the filter. */
  lemma ReportsShowKept(s: Snapshot, operators: seq<Skud>, f: ReportFilter, e: Execution)
    requires TimesInRange(s.executions) && e in s.executions && Keeps(s, e, f)
    ensures RowOf(s, operators, e) in LoadReports(s, operators, f)
  {
    var kept := Kept(s, s.executions, f);
    KeptFrom(s, s.executions, f);
    KeptCount(s, s.executions, f, e);
    assert e in multiset(kept);
    var k :| 0 <= k < |kept| && kept[k] == e;
    assert LoadReports(s, operators, f)[k] == RowOf(s, operators, e);
  }

  lemma RowsFrom(s: Snapshot, operators: seq<Skud>, kept: seq<Execution>, row: ReportRow)
    requires forall e :: e in kept ==> Joined(s, e) && 0 <= e.executionTime
    requires row in Rows(s, operators, kept)
    ensures exists i :: 0 <= i < |kept| && row == RowOf(s, operators, kept[i])
  {
    var r := Rows(s, operators, kept);
    var i :| 0 <= i < |r| && r[i] == row;
    assert kept[i] in kept;
  }

  /** Every row the window shows is the row of an execution of the table that is read and passes the filter. */
  lemma ReportsShowOnlyKept(s: Snapshot, operators: seq<Skud>, f: ReportFilter, row: ReportRow)
    requires TimesInRange(s.executions) && row in LoadReports(s, operators, f)
    ensures exists e :: e in s.executions && Keeps(s, e, f) && row == RowOf(s, operators, e)
  {
    var kept := Kept(s, s.executions, f);
    KeptFrom(s, s.executions, f);
    RowsFrom(s, operators, kept, row);
    var i :| 0 <= i < |kept| && row == RowOf(s, operators, kept[i]);
    var e := kept[i];
    assert e in kept;
    assert e in s.executions && Keeps(s, e, f) && row == RowOf(s, operators, e);
  }

  /** Without filters every joined execution is read exactly once per row of the table. */
  lemma NoFilterKeepsAll(s: Snapshot, executions: seq<Execution>, e: Execution)
    requires Joined(s, e)
    ensures multiset(Kept(s, executions, NoFilter))[e] == multiset(executions)[e]
  {
    KeptCount(s, executions, NoFilter, e);
  }

  /** The filters combine by conjunction: filtering the unfiltered result gives the filtered one, a subsequence of it. */
  lemma {:induction false} FilteredOfUnfiltered(s: Snapshot, executions: seq<Execution>, f: ReportFilter)
    ensures Kept(s, Kept(s, executions, NoFilter), f) == Kept(s, executions, f)
  {
    if executions != [] {
      var n := |executions| - 1;
      var e := executions[n];
      FilteredOfUnfiltered(s, executions[..n], f);
      var u := Kept(s, executions[..n], NoFilter);
      if Joined(s, e) {
        assert Keeps(s, e, NoFilter);
        var u' := u + [e];
        assert Kept(s, executions, NoFilter) == u';
        assert u'[..|u'| - 1] == u;
        assert Kept(s, u', f) == Kept(s, u, f) + (if Keeps(s, e, f) then [e] else []);
      } else {
        assert !Keeps(s, e, NoFilter) && !Keeps(s, e, f);
        assert Kept(s, executions, NoFilter) == u;
      }
    }
  }

  /** The date filter keeps exactly the executions due on the chosen day; the sector filter those of the sector. */
  lemma FilterMeaning(s: Snapshot, e: Execution, f: ReportFilter)
    requires Joined(s, e) && f.date.Some? && f.sectorId.Some? && f.shiftType == "All"
    ensures Passes(s, e, f) <==>
      && e.dueDateTime.Some? && Date(e.dueDateTime.value) == Date(f.date.value)
      && FindAssignment(s.assignments, e.assignmentId).value.sectorId == f.sectorId.value
  {
    if e.dueDateTime.Some? {
      DateOfDayMoment(e.dueDateTime.value, Date(f.date.value));
    }
  }

  lemma DateOfDayMoment(t: Time, day: Time)
    requires day % SecondsPerDay == 0
    ensures day <= t < day + SecondsPerDay <==> Date(t) == day
  {
    if Date(t) == day {
    } else if day <= t < day + SecondsPerDay {
      OffsetInDay(day, t - day);
    }
  }
}
