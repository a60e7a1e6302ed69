/**
 * The rows of the inspection database (the entities of DBContext): works,
 * sectors, roles, frequencies, work types, the standing assignment of a work to
 * a sector, and the executions recorded against an assignment.
 */
module Records {
  import opened Common
  import opened Clock

  datatype Work = Work(id: int, workName: Option<string>)
  datatype Sector = Sector(id: int, sectorName: Option<string>)
  datatype Role = Role(id: int, roleName: Option<string>)
  datatype WorkType = WorkType(id: int, workType: Option<string>)
  datatype WorkFrequency = WorkFrequency(
    id: int, kind: Option<string>, frequency: Option<string>,
    intervalDay: Option<int>, intervalHour: Option<int>)

  /** TOWorkAssignments: a work assigned to a sector, with its frequency, role and type. */
  datatype Assignment = Assignment(
    id: int, workId: int, freqId: int, roleId: int, workTypeId: int,
    sectorId: int, isCanceled: bool, lastExecTime: Option<Time>)

  /** TOExecutions: one completion, cancellation or placeholder of an assignment. */
  datatype Execution = Execution(
    id: int, assignmentId: int, operatorId: Option<int>, executionTime: Time,
    status: int, dueDateTime: Option<Time>, comment: Option<string>)

  /** An employee of the access-control table (dic_SKUD); the card id and personnel number are nullable text. */
  datatype Skud = Skud(
    id: int, idCard: Option<string>, tabNumber: Option<string>, fio: Option<string>, department: Option<string>,
    employName: Option<string>, roleId: Option<int>, statId: Option<int>, toRoleId: Option<int>)

  /** Execution statuses: done, not done (also the placeholder state), overdue. */
  const StatusCompleted: int := 1
  const StatusNotDone: int := 2
  const StatusOverdue: int := 4

  /** The work type of the special "KO" works, whose shifts are seeded with placeholders. */
  const KoWorkTypeId: int := 2
  /** The frequency that makes a task due at every shift. */
  const EveryShiftFreqId: int := 1

  /** The tables the pure parts of the model read, as one value. */
  datatype Snapshot = Snapshot(
    works: seq<Work>, sectors: seq<Sector>, frequencies: seq<WorkFrequency>,
    workTypes: seq<WorkType>, assignments: seq<Assignment>, executions: seq<Execution>)

  function FindWork(works: seq<Work>, id: int): (r: Option<Work>)
    ensures r.Some? ==> r.value in works && r.value.id == id
    ensures r.None? <==> forall w :: w in works ==> w.id != id
  {
    if works == [] then None
    else if works[0].id == id then Some(works[0])
    else FindWork(works[1..], id)
  }

  function FindSector(sectors: seq<Sector>, id: int): (r: Option<Sector>)
    ensures r.Some? ==> r.value in sectors && r.value.id == id
    ensures r.None? <==> forall s :: s in sectors ==> s.id != id
  {
    if sectors == [] then None
    else if sectors[0].id == id then Some(sectors[0])
    else FindSector(sectors[1..], id)
  }

  function FindFrequency(freqs: seq<WorkFrequency>, id: int): (r: Option<WorkFrequency>)
    ensures r.Some? ==> r.value in freqs && r.value.id == id
    ensures r.None? <==> forall f :: f in freqs ==> f.id != id
  {
    if freqs == [] then None
    else if freqs[0].id == id then Some(freqs[0])
    else FindFrequency(freqs[1..], id)
  }

  function FindWorkType(types: seq<WorkType>, id: int): (r: Option<WorkType>)
    ensures r.Some? ==> r.value in types && r.value.id == id
    ensures r.None? <==> forall t :: t in types ==> t.id != id
  {
    if types == [] then None
    else if types[0].id == id then Some(types[0])
    else FindWorkType(types[1..], id)
  }

  function FindAssignment(assignments: seq<Assignment>, id: int): (r: Option<Assignment>)
    ensures r.Some? ==> r.value in assignments && r.value.id == id
    ensures r.None? <==> forall a :: a in assignments ==> a.id != id
  {
    if assignments == [] then None
    else if assignments[0].id == id then Some(assignments[0])
    else FindAssignment(assignments[1..], id)
  }

  /** Some execution of the assignment is due exactly at `due` (the lookup by (AssignmentId, DueDateTime)). */
  predicate HasExecution(executions: seq<Execution>, assignmentId: int, due: Time) {
    exists e :: e in executions && e.assignmentId == assignmentId && e.dueDateTime == Some(due)
  }

  /** Some assignment links the work to the sector (the lookup by (WorkId, SectorId)). */
  predicate HasAssignmentFor(assignments: seq<Assignment>, workId: int, sectorId: int) {
    |assignments| > 0 &&
      var last := assignments[|assignments| - 1];
      (last.workId == workId && last.sectorId == sectorId)
        || HasAssignmentFor(assignments[..|assignments| - 1], workId, sectorId)
  }

  /** The lookup succeeds exactly when some row carries the pair. */
  lemma {:induction false} HasAssignmentForAt(assignments: seq<Assignment>, workId: int, sectorId: int)
    ensures HasAssignmentFor(assignments, workId, sectorId) <==>
      exists i :: 0 <= i < |assignments| && assignments[i].workId == workId && assignments[i].sectorId == sectorId
  {
    if |assignments| > 0 {
      var n := |assignments| - 1;
      var init := assignments[..n];
      HasAssignmentForAt(init, workId, sectorId);
      if HasAssignmentFor(init, workId, sectorId) {
        var i :| 0 <= i < |init| && init[i].workId == workId && init[i].sectorId == sectorId;
        assert assignments[i] == init[i];
      }
      if exists i :: 0 <= i < |assignments| && assignments[i].workId == workId && assignments[i].sectorId == sectorId {
        var i :| 0 <= i < |assignments| && assignments[i].workId == workId && assignments[i].sectorId == sectorId;
        if i < n { assert init[i] == assignments[i]; }
      }
    }
  }

  /** Looking up in two tables one after the other is looking up in either. */
  lemma {:induction false} HasAssignmentForAppend(front: seq<Assignment>, back: seq<Assignment>, workId: int, sectorId: int)
    ensures HasAssignmentFor(front + back, workId, sectorId)
        == (HasAssignmentFor(front, workId, sectorId) || HasAssignmentFor(back, workId, sectorId))
  {
    if back == [] {
      assert front + back == front;
    } else {
      var n := |back| - 1;
      assert (front + back)[..|front + back| - 1] == front + back[..n];
      HasAssignmentForAppend(front, back[..n], workId, sectorId);
    }
  }

  predicate UniqueAssignmentIds(assignments: seq<Assignment>) {
    forall i, j :: 0 <= i < j < |assignments| ==> assignments[i].id != assignments[j].id
  }

  /** The unique index of TOWorkAssignments on (WorkId, SectorId). */
  predicate UniqueWorkSector(assignments: seq<Assignment>) {
    forall i, j :: 0 <= i < j < |assignments| ==>
      assignments[i].workId != assignments[j].workId || assignments[i].sectorId != assignments[j].sectorId
  }

  predicate UniqueSectorIds(sectors: seq<Sector>) {
    forall i, j :: 0 <= i < j < |sectors| ==> sectors[i].id != sectors[j].id
  }

  predicate UniqueWorkIds(works: seq<Work>) {
    forall i, j :: 0 <= i < j < |works| ==> works[i].id != works[j].id
  }
}
