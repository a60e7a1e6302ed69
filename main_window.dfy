/**
 * The kiosk window (MainWindow): the task list it loads for the signed-in
 * role and the selected sector, the pages of six rows it shows, the two
 * buttons that record an outcome for a task, the switch to the next sector
 * with pending work, and the sector selector.
 */
module MainWindow {
  import opened Common
  import opened Clock
  import opened Records
  import opened Store
  import opened TaskResolver

  /** How a load of the task list ended. */
  datatype LoadOutcome = Shown | SwitchedTo(sectorId: int) | CloseRequested

  /** How a press of "complete" or "cancel" ended. */
  datatype RecordOutcome = NotAuthenticated | OperatorIdNotFound | AlreadyProcessed | Recorded

  /** The rows of the task list, built in the order the table is read (insertion order) by the loop of the load. */
  method CollectDueTasks(s: Snapshot, role: int, sector: Option<int>, now: Time) returns (tasks: seq<TaskView>)
    ensures tasks == DueTasks(s, s.assignments, role, sector, now)
  {
    tasks := [];
    var i := 0;
    while i < |s.assignments|
      invariant 0 <= i <= |s.assignments|
      invariant tasks == DueTasks(s, s.assignments[..i], role, sector, now)
    {
      var a := s.assignments[i];
      assert s.assignments[..i + 1][..i] == s.assignments[..i];
      if Listed(s, a, role, sector, now) {
        tasks := tasks + [TaskFor(s, a, now)];
      }
      i := i + 1;
    }
    assert s.assignments[..i] == s.assignments;
  }

  /** The sectors an operator may choose: those of the full list whose id the computer is allowed, in list order. */
  function Permitted(all: seq<Sector>, ids: seq<int>): (r: seq<Sector>)
    ensures |r| <= |all|
    ensures forall x :: x in r <==> x in all && x.id in ids
  {
    if all == [] then []
    else (if all[0].id in ids then [all[0]] else []) + Permitted(all[1..], ids)
  }

  /**
   * The selection after the list is replaced: the current sector when it is
   * still offered, otherwise the first offered one, otherwise none.
   */
  function SelectSector(shown: seq<Sector>, current: Option<int>): (r: Option<Sector>)
    ensures r.Some? ==> r.value in shown
    ensures r.None? <==> shown == []
    ensures current.Some? && (exists x :: x in shown && x.id == current.value) ==> r.Some? && r.value.id == current.value
    ensures (current.None? || forall x :: x in shown ==> x.id != current.value) && shown != [] ==> r == Some(shown[0])
  {
    if current.Some? && FindSector(shown, current.value).Some? then FindSector(shown, current.value)
    else if shown != [] then Some(shown[0])
    else None
  }

  class Kiosk {
    const db: Db
    var roleId: Option<int>
    var sectorId: Option<int>
    /** The sectors of the computer, in their stored order (`_availableSectorIds`). */
    var availableSectorIds: seq<int>
    /** Every sector of the database (`_allAvailableSectors`). */
    var allSectors: seq<Sector>
    /** The items and the selection of the sector selector. */
    var shownSectors: seq<Sector>
    var selectedSector: Option<Sector>
    var allTasks: seq<TaskView>
    var currentPage: int
    /** The rows of the grid, the page count and the enabled state of the page buttons. */
    var pageTasks: seq<TaskView>
    var totalPages: nat
    var prevEnabled: bool
    var nextEnabled: bool
    var closeRequested: bool

    ghost predicate Valid()
      reads this, db
    {
      db.Valid() && currentPage >= 1
    }

    /** The grid shows the current page of the task list and the page buttons match it. */
    ghost predicate PageShown()
      reads this
    {
      && currentPage >= 1
      && pageTasks == PageOf(allTasks, currentPage)
      && totalPages == TotalPages(|allTasks|)
      && prevEnabled == (currentPage > 1)
      && nextEnabled == (currentPage < totalPages)
    }

    constructor (db: Db, availableSectorIds: seq<int>, allSectors: seq<Sector>)
      requires db.Valid()
      ensures Valid() && PageShown()
      ensures this.db == db && this.availableSectorIds == availableSectorIds && this.allSectors == allSectors
      ensures roleId == None && sectorId == None && allTasks == [] && currentPage == 1 && !closeRequested
    {
      this.db := db;
      this.availableSectorIds := availableSectorIds;
      this.allSectors := allSectors;
      roleId, sectorId := None, None;
      shownSectors, selectedSector := [], None;
      allTasks, currentPage := [], 1;
      pageTasks, totalPages, prevEnabled, nextEnabled := [], 0, false, false;
      closeRequested := false;
    }

    /** Fills the grid with the current page. */
    method UpdatePagedTasks()
      requires currentPage >= 1
      modifies this`pageTasks, this`totalPages, this`prevEnabled, this`nextEnabled
      ensures PageShown()
    {
      pageTasks := PageOf(allTasks, currentPage);
      totalPages := TotalPages(|allTasks|);
      prevEnabled := currentPage > 1;
      nextEnabled := currentPage < totalPages;
    }

    method PrevPage()
      requires Valid()
      modifies this`currentPage, this`pageTasks, this`totalPages, this`prevEnabled, this`nextEnabled
      ensures Valid()
      ensures currentPage == if old(currentPage) > 1 then old(currentPage) - 1 else old(currentPage)
      ensures old(currentPage) > 1 ==> PageShown()
      ensures old(currentPage) <= 1 ==>
        pageTasks == old(pageTasks) && totalPages == old(totalPages)
        && prevEnabled == old(prevEnabled) && nextEnabled == old(nextEnabled)
    {
      if currentPage > 1 {
        currentPage := currentPage - 1;
        UpdatePagedTasks();
      }
    }

    method NextPage()
      requires Valid()
      modifies this`currentPage, this`pageTasks, this`totalPages, this`prevEnabled, this`nextEnabled
      ensures Valid()
      ensures currentPage == if old(currentPage) < TotalPages(|allTasks|) then old(currentPage) + 1 else old(currentPage)
      ensures old(currentPage) < TotalPages(|allTasks|) ==> PageShown()
      ensures old(currentPage) >= TotalPages(|allTasks|) ==>
        pageTasks == old(pageTasks) && totalPages == old(totalPages)
        && prevEnabled == old(prevEnabled) && nextEnabled == old(nextEnabled)
    {
      var pages := TotalPages(|allTasks|);
      if currentPage < pages {
        currentPage := currentPage + 1;
        UpdatePagedTasks();
      }
    }

    /** Whether the sector still has an assignment of the role that is due and not handled this shift. */
    method HasUnprocessedTasksForSector(sector: int, now: Time) returns (r: bool)
      ensures r == SectorHasPending(db.Snap(), sector, roleId, now)
    {
      var s := db.Snap();
      var i := 0;
      while i < |s.assignments|
        invariant 0 <= i <= |s.assignments|
        invariant forall k :: 0 <= k < i ==> !Pending(s, s.assignments[k], sector, roleId, now)
      {
        if Pending(s, s.assignments[i], sector, roleId, now) {
          return true;
        }
        i := i + 1;
      }
      return false;
    }

    /** The first sector of the computer, other than the current one, with pending work. */
    method GetNextSectorWithTasks(now: Time) returns (r: Option<int>)
      ensures r == NextSector(db.Snap(), availableSectorIds, sectorId, roleId, now)
    {
      if sectorId.None? {
        return None;
      }
      var i := 0;
      while i < |availableSectorIds|
        invariant 0 <= i <= |availableSectorIds|
        invariant NextSector(db.Snap(), availableSectorIds, sectorId, roleId, now)
               == NextSector(db.Snap(), availableSectorIds[i..], sectorId, roleId, now)
      {
        var id := availableSectorIds[i];
        assert availableSectorIds[i..][0] == id && availableSectorIds[i..][1..] == availableSectorIds[i + 1..];
        if id != sectorId.value {
          var has := HasUnprocessedTasksForSector(id, now);
          if has {
            return Some(id);
          }
        }
        i := i + 1;
      }
      return None;
    }

    /**
     * Reloads the task list and its current page. For the roles that see
     * tasks, an empty list while an operator is signed in moves the kiosk to
     * the next sector with pending work, or asks the window to close when
     * there is none; any other role is shown an empty list.
     */
    method LoadTasks(now: Time, hasOperator: bool) returns (outcome: LoadOutcome)
      requires Valid()
      modifies this`allTasks, this`pageTasks, this`totalPages, this`prevEnabled, this`nextEnabled
      modifies this`sectorId, this`closeRequested
      ensures Valid() && PageShown()
      ensures allTasks == if roleId == Some(AdminRoleId) then [] else TaskList(db.Snap(), roleId, old(sectorId), now)
      ensures var next := NextSector(db.Snap(), availableSectorIds, old(sectorId), roleId, now);
        if !RoleSeesTasks(roleId) || allTasks != [] || !hasOperator then
          outcome == Shown && sectorId == old(sectorId) && closeRequested == old(closeRequested)
        else if next.Some? then
          outcome == SwitchedTo(next.value) && sectorId == next && closeRequested == old(closeRequested)
        else
          outcome == CloseRequested && sectorId == old(sectorId) && closeRequested
    {
      if roleId == Some(AdminRoleId) {
        allTasks := [];
        UpdatePagedTasks();
        return Shown;
      }
      outcome := ShowDueTasks(now, hasOperator);
    }

    /** The task list of the role in the current sector, with its current page. */
    method ReloadDueList(now: Time)
      requires Valid()
      modifies this`allTasks, this`pageTasks, this`totalPages, this`prevEnabled, this`nextEnabled
      ensures Valid() && PageShown()
      ensures allTasks == TaskList(db.Snap(), roleId, sectorId, now)
    {
      var tasks := [];
      if RoleSeesTasks(roleId) {
        tasks := CollectDueTasks(db.Snap(), roleId.value, sectorId, now);
      }
      allTasks := tasks;
      UpdatePagedTasks();
    }

    /**
     * The list of a role other than the administrator's. A role that sees no
     * tasks gets an empty list and nothing more; for the others an empty list
     * with an operator signed in moves the kiosk to another sector.
     */
    method ShowDueTasks(now: Time, hasOperator: bool) returns (outcome: LoadOutcome)
      requires Valid() && roleId != Some(AdminRoleId)
      modifies this`allTasks, this`pageTasks, this`totalPages, this`prevEnabled, this`nextEnabled
      modifies this`sectorId, this`closeRequested
      ensures Valid() && PageShown()
      ensures allTasks == TaskList(db.Snap(), roleId, old(sectorId), now)
      ensures var next := NextSector(db.Snap(), availableSectorIds, old(sectorId), roleId, now);
        if !RoleSeesTasks(roleId) || allTasks != [] || !hasOperator then
          outcome == Shown && sectorId == old(sectorId) && closeRequested == old(closeRequested)
        else if next.Some? then
          outcome == SwitchedTo(next.value) && sectorId == next && closeRequested == old(closeRequested)
        else
          outcome == CloseRequested && sectorId == old(sectorId) && closeRequested
    {
      ReloadDueList(now);
      if RoleSeesTasks(roleId) && |allTasks| == 0 && hasOperator {
        var next := GetNextSectorWithTasks(now);
        if next.Some? {
          sectorId := next;
          return SwitchedTo(next.value);
        }
        closeRequested := true;
        return CloseRequested;
      }
      return Shown;
    }

    /**
     * The part that "complete" and "cancel" share: without an operator, without
     * an operator id or with an outcome already recorded for the assignment this
     * shift nothing is written; otherwise one execution with the given status is
     * added, due at the shift start, and the assignment's last execution time
     * becomes the shift start.
     */
    method Record(assignmentId: int, comment: Option<string>, status: int,
                  hasOperator: bool, operatorId: Option<int>, now: Time) returns (outcome: RecordOutcome)
      requires Valid()
      modifies db`executions, db`nextExecutionId, db`assignments
      ensures Valid()
      ensures outcome == (if !hasOperator then NotAuthenticated
                          else if operatorId.None? then OperatorIdNotFound
                          else if HasExecution(old(db.executions), assignmentId, ShiftStart(now)) then AlreadyProcessed
                          else Recorded)
      ensures outcome != Recorded ==>
        db.executions == old(db.executions) && db.assignments == old(db.assignments)
        && db.nextExecutionId == old(db.nextExecutionId)
      ensures outcome == Recorded ==>
        && db.executions == old(db.executions)
             + [Execution(old(db.nextExecutionId), assignmentId, operatorId, now, status, Some(ShiftStart(now)), comment)]
        && db.nextExecutionId == old(db.nextExecutionId) + 1
        && db.assignments == SetLastExec(old(db.assignments), assignmentId, ShiftStart(now))
    {
      if !hasOperator {
        return NotAuthenticated;
      }
      if operatorId.None? {
        return OperatorIdNotFound;
      }
      var shiftStart := ShiftStart(now);
      if HasExecution(db.executions, assignmentId, shiftStart) {
        return AlreadyProcessed;
      }
      var e := Execution(db.nextExecutionId, assignmentId, operatorId, now, status, Some(shiftStart), comment);
      db.RecordExecution(e, shiftStart);
      return Recorded;
    }

    /**
     * The outcome is recorded at `now`, then the list is reloaded at
     * `reloadAt`, when the clock is read again; a reload within the same
     * shift no longer lists the handled task.
     */
    method RecordAndReload(assignmentId: int, comment: Option<string>, status: int,
                           hasOperator: bool, operatorId: Option<int>, now: Time, reloadAt: Time) returns (outcome: RecordOutcome)
      requires Valid()
      modifies db`executions, db`nextExecutionId, db`assignments
      modifies this`allTasks, this`pageTasks, this`totalPages, this`prevEnabled, this`nextEnabled
      modifies this`sectorId, this`closeRequested
      ensures Valid()
      ensures outcome == (if !hasOperator then NotAuthenticated
                          else if operatorId.None? then OperatorIdNotFound
                          else if HasExecution(old(db.executions), assignmentId, ShiftStart(now)) then AlreadyProcessed
                          else Recorded)
      ensures outcome != Recorded ==>
        db.executions == old(db.executions) && db.assignments == old(db.assignments)
        && db.nextExecutionId == old(db.nextExecutionId) && allTasks == old(allTasks)
      ensures outcome == Recorded ==>
        && db.executions == old(db.executions)
             + [Execution(old(db.nextExecutionId), assignmentId, operatorId, now, status, Some(ShiftStart(now)), comment)]
        && db.assignments == SetLastExec(old(db.assignments), assignmentId, ShiftStart(now))
        && PageShown()
        && allTasks == (if roleId == Some(AdminRoleId) then [] else TaskList(db.Snap(), roleId, old(sectorId), reloadAt))
      ensures outcome == Recorded && ShiftStart(now) <= reloadAt < ShiftStart(now) + ShiftLength ==>
        forall t :: t in allTasks ==> t.id != assignmentId
    {
      outcome := Record(assignmentId, comment, status, hasOperator, operatorId, now);
      if outcome == Recorded {
        var e := Execution(old(db.nextExecutionId), assignmentId, operatorId, now, status, Some(ShiftStart(now)), comment);
        assert e in db.executions;
        assert HasExecution(db.executions, assignmentId, ShiftStart(now));
        var _ := LoadTasks(reloadAt, hasOperator);
        if ShiftStart(now) <= reloadAt < ShiftStart(now) + ShiftLength {
          forall t | t in allTasks ensures t.id != assignmentId {
            HandledNotListed(db.Snap(), assignmentId, roleId, old(sectorId), now, reloadAt, t);
          }
        }
      }
    }

    /** "Complete": records status 1 (completed). */
    method MarkTaskCompleted(assignmentId: int, comment: Option<string>,
                             hasOperator: bool, operatorId: Option<int>, now: Time, reloadAt: Time) returns (outcome: RecordOutcome)
      requires Valid()
      modifies db`executions, db`nextExecutionId, db`assignments
      modifies this`allTasks, this`pageTasks, this`totalPages, this`prevEnabled, this`nextEnabled
      modifies this`sectorId, this`closeRequested
      ensures Valid()
      ensures outcome == Recorded ==>
        && db.executions == old(db.executions) + [Execution(old(db.nextExecutionId), assignmentId, operatorId, now,
                                                            StatusCompleted, Some(ShiftStart(now)), comment)]
        && db.assignments == SetLastExec(old(db.assignments), assignmentId, ShiftStart(now))
      ensures outcome == Recorded && ShiftStart(now) <= reloadAt < ShiftStart(now) + ShiftLength ==>
        forall t :: t in allTasks ==> t.id != assignmentId
      ensures outcome != Recorded ==> db.executions == old(db.executions) && db.assignments == old(db.assignments)
      ensures outcome == Recorded <==>
        hasOperator && operatorId.Some? && !HasExecution(old(db.executions), assignmentId, ShiftStart(now))
    {
      outcome := RecordAndReload(assignmentId, comment, StatusCompleted, hasOperator, operatorId, now, reloadAt);
    }

    /** "Cancel" with a reason: records status 2 (not done). */
    method CancelTask(assignmentId: int, comment: Option<string>,
                      hasOperator: bool, operatorId: Option<int>, now: Time, reloadAt: Time) returns (outcome: RecordOutcome)
      requires Valid()
      modifies db`executions, db`nextExecutionId, db`assignments
      modifies this`allTasks, this`pageTasks, this`totalPages, this`prevEnabled, this`nextEnabled
      modifies this`sectorId, this`closeRequested
      ensures Valid()
      ensures outcome == Recorded ==>
        && db.executions == old(db.executions) + [Execution(old(db.nextExecutionId), assignmentId, operatorId, now,
                                                            StatusNotDone, Some(ShiftStart(now)), comment)]
        && db.assignments == SetLastExec(old(db.assignments), assignmentId, ShiftStart(now))
      ensures outcome == Recorded && ShiftStart(now) <= reloadAt < ShiftStart(now) + ShiftLength ==>
        forall t :: t in allTasks ==> t.id != assignmentId
      ensures outcome != Recorded ==> db.executions == old(db.executions) && db.assignments == old(db.assignments)
      ensures outcome == Recorded <==>
        hasOperator && operatorId.Some? && !HasExecution(old(db.executions), assignmentId, ShiftStart(now))
    {
      outcome := RecordAndReload(assignmentId, comment, StatusNotDone, hasOperator, operatorId, now, reloadAt);
    }

    /**
     * Offers the administrator every sector and anyone else the sectors of the
     * computer, then keeps the current selection if it is still offered.
     */
    method ApplySectorFilterToComboBox()
      modifies this`shownSectors, this`selectedSector, this`sectorId
      ensures allSectors == [] ==>
        shownSectors == old(shownSectors) && selectedSector == old(selectedSector) && sectorId == old(sectorId)
      ensures allSectors != [] ==>
        && shownSectors == (if roleId == Some(AdminRoleId) then allSectors else Permitted(allSectors, availableSectorIds))
        && selectedSector == SelectSector(shownSectors, old(sectorId))
        && sectorId == (if selectedSector.Some? then Some(selectedSector.value.id) else None)
    {
      if allSectors == [] {
        return;
      }
      var toShow := if roleId == Some(AdminRoleId) then allSectors else Permitted(allSectors, availableSectorIds);
      shownSectors := toShow;
      var current := sectorId;
      if current.Some? && FindSector(toShow, current.value).Some? {
        selectedSector := FindSector(toShow, current.value);
      } else if toShow != [] {
        selectedSector := Some(toShow[0]);
        sectorId := Some(toShow[0].id);
      } else {
        selectedSector := None;
        sectorId := None;
      }
    }
  }
}
