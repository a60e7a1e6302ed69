/**
 * The store operations of the administrator window (AdminWindow): add a work
 * with its assignments, add assignments for an existing work, delete every
 * assignment and execution, and add a single task by hand.
 */
module Admin {
  import opened Common
  import opened Clock
  import opened Records
  import opened Store

  /** The text the due-date box shows when left empty. */
  const DueDateHint: string := "ДД.ММ.ГГГГ ЧЧ:ММ (опционально)"

  datatype AdminResult =
    | NotAuthenticated
    | MissingFields
    | NothingCreated
    | Created(count: nat)
    | NotConfirmed
    | Deleted
    | NoAssignmentSelected
    | DateTooEarly
    | TaskCreated

  /** A new work's id is fresh, so it is linked to no sector and every sector is missing. */
  lemma {:induction false} FreshWorkMissesAll(assignments: seq<Assignment>, workId: int, sectors: seq<Sector>)
    requires forall a :: a in assignments ==> a.workId != workId
    ensures |MissingSectors(assignments, workId, sectors)| == |sectors|
  {
    if sectors != [] {
      var n := |sectors| - 1;
      FreshWorkMissesAll(assignments, workId, sectors[..n]);
      HasAssignmentForAt(assignments, workId, sectors[n].id);
      forall i | 0 <= i < |assignments| ensures assignments[i].workId != workId {
        assert assignments[i] in assignments;
      }
    }
  }

  /**
   * "Add work": the work is saved, then every sector gets an assignment with
   * the chosen frequency, role and type, and a placeholder for 08:00 tomorrow
   * when the type is KO.
   */
  method AddWork(db: Db, hasOperator: bool, name: string, freq: Option<WorkFrequency>, role: Option<Role>,
                 workType: Option<WorkType>, now: Time) returns (r: AdminResult)
    requires db.Valid()
    modifies db`works, db`nextWorkId, db`assignments, db`nextAssignmentId, db`executions, db`nextExecutionId
    ensures db.Valid()
    ensures !hasOperator ==> r == NotAuthenticated
    ensures hasOperator && (name == [] || freq.None? || role.None? || workType.None?) ==> r == MissingFields
    ensures r in {NotAuthenticated, MissingFields} ==>
      db.works == old(db.works) && db.assignments == old(db.assignments) && db.executions == old(db.executions)
    ensures r !in {NotAuthenticated, MissingFields} ==>
      && hasOperator && name != [] && freq.Some? && role.Some? && workType.Some?
      && db.works == old(db.works) + [Work(old(db.nextWorkId), Some(name))]
      && db.assignments == old(db.assignments) + Fill(old(db.nextAssignmentId), old(db.nextWorkId),
           freq.value.id, role.value.id, workType.value.id, MissingSectors(old(db.assignments), old(db.nextWorkId), db.sectors))
      && db.executions == old(db.executions)
           + (if workType.value.id == KoWorkTypeId
              then Placeholders(old(db.nextExecutionId), old(db.nextAssignmentId), |db.sectors|, AddHours(AddDays(Date(now), 1), 8))
              else [])
      && r == (if db.sectors == [] then NothingCreated else Created(|db.sectors|))
  {
    if !hasOperator {
      return NotAuthenticated;
    }
    if name == [] || freq.None? || role.None? || workType.None? {
      return MissingFields;
    }
    var w := Work(db.nextWorkId, Some(name));
    db.InsertWork(w);
    FreshWorkMissesAll(db.assignments, w.id, db.sectors);
    var n := db.AddMissingAssignments(w.id, freq.value.id, role.value.id, workType.value.id, true, now);
    r := if n == 0 then NothingCreated else Created(n);
  }

  /** "Create assignment" for a work of the table: every sector not linked to it yet gets one. */
  method CreateAssignment(db: Db, hasOperator: bool, work: Option<Work>, freq: Option<WorkFrequency>,
                          role: Option<Role>, workType: Option<WorkType>, now: Time) returns (r: AdminResult)
    requires db.Valid()
    requires work.Some? ==> work.value in db.works
    modifies db`assignments, db`nextAssignmentId, db`executions, db`nextExecutionId
    ensures db.Valid()
    ensures !hasOperator ==> r == NotAuthenticated
    ensures hasOperator && (work.None? || freq.None? || role.None? || workType.None?) ==> r == MissingFields
    ensures r in {NotAuthenticated, MissingFields} ==>
      db.assignments == old(db.assignments) && db.executions == old(db.executions)
    ensures r !in {NotAuthenticated, MissingFields} ==>
      && hasOperator && work.Some? && freq.Some? && role.Some? && workType.Some?
      && var missing := MissingSectors(old(db.assignments), work.value.id, db.sectors);
         && db.assignments == old(db.assignments) + Fill(old(db.nextAssignmentId), work.value.id,
              freq.value.id, role.value.id, workType.value.id, missing)
         && db.executions == old(db.executions)
              + (if workType.value.id == KoWorkTypeId
                 then Placeholders(old(db.nextExecutionId), old(db.nextAssignmentId), |missing|, AddHours(AddDays(Date(now), 1), 8))
                 else [])
         && r == (if missing == [] then NothingCreated else Created(|missing|))
    ensures forall s :: s in db.sectors && r !in {NotAuthenticated, MissingFields} ==>
      HasAssignmentFor(db.assignments, work.value.id, s.id)
  {
    if !hasOperator {
      return NotAuthenticated;
    }
    if work.None? || freq.None? || role.None? || workType.None? {
      return MissingFields;
    }
    var n := db.AddMissingAssignments(work.value.id, freq.value.id, role.value.id, workType.value.id, true, now);
    r := if n == 0 then NothingCreated else Created(n);
  }

  /** "Delete assignments": after a confirmation every execution and every assignment is removed. */
  method DeleteAssignments(db: Db, hasOperator: bool, confirmed: bool) returns (r: AdminResult)
    requires db.Valid()
    modifies db`executions, db`assignments
    ensures db.Valid()
    ensures r == (if !hasOperator then NotAuthenticated else if !confirmed then NotConfirmed else Deleted)
    ensures r == Deleted ==> db.executions == [] && db.assignments == []
    ensures r != Deleted ==> db.executions == old(db.executions) && db.assignments == old(db.assignments)
  {
    if !hasOperator {
      return NotAuthenticated;
    }
    if !confirmed {
      return NotConfirmed;
    }
    db.ClearAssignments();
    return Deleted;
  }

  /** What the due-date box yields: a refusal, or the due date (possibly none). */
  datatype DueInput = TooEarly | Due(due: Option<Time>)

  /** The due date a manual task gets from the text box; `parsed` is what the date parser made of the text. */
  function ManualDue(text: string, parsed: Option<Time>): (r: DueInput)
    ensures r.TooEarly? <==> text != [] && text != DueDateHint && parsed.Some? && parsed.value < SqlMinDate
    ensures r.Due? && r.due.Some? ==> parsed == r.due && r.due.value >= SqlMinDate
    ensures r.Due? && r.due.None? <==> text == [] || text == DueDateHint || parsed.None?
  {
    if text != [] && text != DueDateHint && parsed.Some? then
      if parsed.value < SqlMinDate then TooEarly else Due(parsed)
    else Due(None)
  }

  /**
   * "Create task": one execution for the selected assignment, not done and
   * by nobody, due at the entered moment (none if the box is empty, shows the
   * hint or does not parse); a moment before 1753-01-01 is refused.
   */
  method CreateTask(db: Db, hasOperator: bool, assignmentId: Option<int>, text: string, parsed: Option<Time>)
    returns (r: AdminResult)
    requires db.Valid()
    modifies db`executions, db`nextExecutionId
    ensures db.Valid()
    ensures r == (if !hasOperator then NotAuthenticated
                  else if assignmentId.None? then NoAssignmentSelected
                  else if ManualDue(text, parsed).TooEarly? then DateTooEarly
                  else TaskCreated)
    ensures r != TaskCreated ==> db.executions == old(db.executions)
    ensures r == TaskCreated ==>
      db.executions == old(db.executions) + [Execution(old(db.nextExecutionId), assignmentId.value, None,
                                                       DefaultExecutionTime, StatusNotDone, ManualDue(text, parsed).due, None)]
  {
    if !hasOperator {
      return NotAuthenticated;
    }
    if assignmentId.None? {
      return NoAssignmentSelected;
    }
    var due := ManualDue(text, parsed);
    if due.TooEarly? {
      return DateTooEarly;
    }
    db.InsertExecution(Execution(db.nextExecutionId, assignmentId.value, None, DefaultExecutionTime, StatusNotDone, due.due, None));
    return TaskCreated;
  }
}
