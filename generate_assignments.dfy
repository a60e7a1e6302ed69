/**
 * The assignment generator job (GenerateAssignmentsJob): every work that has
 * a frequency in the fixed work-to-frequency table gets an assignment for
 * every sector it is not linked to yet.
 */
module AssignmentJob {
  import opened Common
  import opened Clock
  import opened Records
  import opened Store

  /** The fixed table from work id to frequency id. */
  const WorkFreqMap: map<int, int> := map[
    1 := 1, 2 := 1, 3 := 1, 4 := 2, 5 := 2, 6 := 2, 7 := 1, 8 := 2,
    9 := 1, 10 := 1, 11 := 1, 12 := 1, 13 := 1, 14 := 1, 15 := 2,
    16 := 5, 17 := 5, 18 := 5, 19 := 4, 20 := 1, 21 := 3]

  /** Works 1 to 14 are operator work, every other work belongs to role 2. */
  function RoleFor(workId: int): (r: int)
    ensures r == 1 <==> 1 <= workId <= 14
    ensures r == 1 || r == 2
  {
    if 1 <= workId <= 14 then 1 else 2
  }

  /** Works 1 to 14 are KO work (type 2), every other work is ordinary (type 1). */
  function WorkTypeFor(workId: int): (r: int)
    ensures r == KoWorkTypeId <==> 1 <= workId <= 14
    ensures r == 1 || r == KoWorkTypeId
  {
    if 1 <= workId <= 14 then KoWorkTypeId else 1
  }

  /** The job handles a work only if the table maps it and the mapped frequency row exists. */
  predicate Eligible(frequencies: seq<WorkFrequency>, workId: int) {
    workId in WorkFreqMap && FindFrequency(frequencies, WorkFreqMap[workId]).Some?
  }

  /** The shape of an assignment the job creates. */
  predicate Generated(frequencies: seq<WorkFrequency>, a: Assignment) {
    && Eligible(frequencies, a.workId) && a.freqId == WorkFreqMap[a.workId]
    && a.roleId == RoleFor(a.workId) && a.workTypeId == WorkTypeFor(a.workId)
    && !a.isCanceled && a.lastExecTime.None?
  }

  /** Every sector has an assignment of the work. */
  predicate Covered(assignments: seq<Assignment>, sectors: seq<Sector>, workId: int) {
    forall s :: s in sectors ==> HasAssignmentFor(assignments, workId, s.id)
  }

  /** Every eligible work has an assignment for every sector. */
  predicate AllCovered(s: Snapshot) {
    forall w :: w in s.works && Eligible(s.frequencies, w.id) ==> Covered(s.assignments, s.sectors, w.id)
  }

  /** `rows` keeps the rows of `base` in front and adds only generated rows. */
  predicate GrownBy(frequencies: seq<WorkFrequency>, base: seq<Assignment>, rows: seq<Assignment>) {
    |base| <= |rows| && rows[..|base|] == base
    && forall k :: |base| <= k < |rows| ==> Generated(frequencies, rows[k])
  }

  /** A table that only grew keeps every link of the smaller one. */
  lemma CoveredGrows(base: seq<Assignment>, extra: seq<Assignment>, sectors: seq<Sector>, workId: int)
    requires Covered(base, sectors, workId)
    ensures Covered(base + extra, sectors, workId)
  {
    forall s | s in sectors ensures HasAssignmentFor(base + extra, workId, s.id) {
      HasAssignmentForAppend(base, extra, workId, s.id);
    }
  }

  /** Appending one fill of a generated shape extends the growth. */
  lemma GrownByFill(frequencies: seq<WorkFrequency>, base: seq<Assignment>, rows: seq<Assignment>,
                    firstId: int, workId: int, sectorIds: seq<int>)
    requires GrownBy(frequencies, base, rows) && Eligible(frequencies, workId)
    ensures GrownBy(frequencies, base,
      rows + Fill(firstId, workId, WorkFreqMap[workId], RoleFor(workId), WorkTypeFor(workId), sectorIds))
  {
    var created := Fill(firstId, workId, WorkFreqMap[workId], RoleFor(workId), WorkTypeFor(workId), sectorIds);
    var r := rows + created;
    FillRows(firstId, workId, WorkFreqMap[workId], RoleFor(workId), WorkTypeFor(workId), sectorIds);
    assert r[..|base|] == base by {
      assert r[..|rows|] == rows;
    }
    forall k | |base| <= k < |r| ensures Generated(frequencies, r[k]) {
      if k >= |rows| { assert r[k] == created[k - |rows|] && r[k] in created; }
    }
  }

  /** One work of the run, in the order the table is read (insertion order): its missing sectors are filled when the job handles it. */
  method VisitWork(db: Db, works: seq<Work>, i: nat, now: Time, ghost before: seq<Assignment>, ghost wasCovered: bool)
    returns (n: nat)
    requires i < |works| && works == db.works && db.Valid()
    requires GrownBy(db.frequencies, before, db.assignments)
    requires forall k :: 0 <= k < i && Eligible(db.frequencies, works[k].id) ==>
      Covered(db.assignments, db.sectors, works[k].id)
    requires wasCovered ==> db.assignments == before
    requires wasCovered && Eligible(db.frequencies, works[i].id) ==> Covered(db.assignments, db.sectors, works[i].id)
    modifies db`assignments, db`nextAssignmentId, db`executions, db`nextExecutionId
    ensures db.Valid()
    ensures db.executions == old(db.executions) && db.nextExecutionId == old(db.nextExecutionId)
    ensures GrownBy(db.frequencies, before, db.assignments)
    ensures n == |db.assignments| - |old(db.assignments)|
    ensures forall k :: 0 <= k < i + 1 && Eligible(db.frequencies, works[k].id) ==>
      Covered(db.assignments, db.sectors, works[k].id)
    ensures wasCovered ==> db.assignments == before
  {
    n := 0;
    var id := works[i].id;
    if id in WorkFreqMap && FindFrequency(db.frequencies, WorkFreqMap[id]).Some? {
      n := FillWork(db, works, i, now, before, wasCovered);
    }
  }

  /** A work the job handles: the fill of the sectors it is missing. */
  method FillWork(db: Db, works: seq<Work>, i: nat, now: Time, ghost before: seq<Assignment>, ghost wasCovered: bool)
    returns (n: nat)
    requires i < |works| && works == db.works && db.Valid() && Eligible(db.frequencies, works[i].id)
    requires GrownBy(db.frequencies, before, db.assignments)
    requires forall k :: 0 <= k < i && Eligible(db.frequencies, works[k].id) ==>
      Covered(db.assignments, db.sectors, works[k].id)
    requires wasCovered ==> db.assignments == before
    requires wasCovered && Eligible(db.frequencies, works[i].id) ==> Covered(db.assignments, db.sectors, works[i].id)
    modifies db`assignments, db`nextAssignmentId, db`executions, db`nextExecutionId
    ensures db.Valid()
    ensures db.executions == old(db.executions) && db.nextExecutionId == old(db.nextExecutionId)
    ensures GrownBy(db.frequencies, before, db.assignments)
    ensures n == |db.assignments| - |old(db.assignments)|
    ensures forall k :: 0 <= k < i + 1 && Eligible(db.frequencies, works[k].id) ==>
      Covered(db.assignments, db.sectors, works[k].id)
    ensures wasCovered ==> db.assignments == before
  {
    var id := works[i].id;
    ghost var rows := db.assignments;
    ghost var firstId := db.nextAssignmentId;
    n := db.AddMissingAssignments(id, WorkFreqMap[id], RoleFor(id), WorkTypeFor(id), false, now);
    FillWorkOutcome(db.frequencies, db.sectors, works, i, before, rows, firstId, wasCovered, db.assignments);
  }

  /** What the fill of work `i` leaves: growth by generated rows, coverage of works up to `i`, nothing added to a covered table. */
  lemma FillWorkOutcome(frequencies: seq<WorkFrequency>, sectors: seq<Sector>, works: seq<Work>, i: nat,
                        before: seq<Assignment>, rows: seq<Assignment>, firstId: int, wasCovered: bool,
                        after: seq<Assignment>)
    requires i < |works| && Eligible(frequencies, works[i].id)
    requires after == rows + Fill(firstId, works[i].id, WorkFreqMap[works[i].id], RoleFor(works[i].id),
      WorkTypeFor(works[i].id), MissingSectors(rows, works[i].id, sectors))
    requires Covered(after, sectors, works[i].id)
    requires GrownBy(frequencies, before, rows)
    requires forall k :: 0 <= k < i && Eligible(frequencies, works[k].id) ==> Covered(rows, sectors, works[k].id)
    requires wasCovered ==> rows == before && Covered(rows, sectors, works[i].id)
    ensures GrownBy(frequencies, before, after)
    ensures forall k :: 0 <= k < i + 1 && Eligible(frequencies, works[k].id) ==> Covered(after, sectors, works[k].id)
    ensures wasCovered ==> after == before
    ensures forall k :: |rows| <= k < |after| ==>
      && after[k].workId == works[i].id && !HasAssignmentFor(rows, works[i].id, after[k].sectorId)
      && exists j :: 0 <= j < |sectors| && sectors[j].id == after[k].sectorId
  {
    var id := works[i].id;
    var missing := MissingSectors(rows, id, sectors);
    var created := Fill(firstId, id, WorkFreqMap[id], RoleFor(id), WorkTypeFor(id), missing);
    forall k | |rows| <= k < |after|
      ensures && after[k].workId == id && !HasAssignmentFor(rows, id, after[k].sectorId)
        && exists j :: 0 <= j < |sectors| && sectors[j].id == after[k].sectorId
    {
      assert after[k] == created[k - |rows|];
      assert missing[k - |rows|] in missing;
      MissingSectorsIds(rows, id, sectors, missing[k - |rows|]);
    }
    if wasCovered {
      MissingSectorsCovered(rows, id, sectors);
      assert after == rows + [];
    }
    GrownByFill(frequencies, before, rows, firstId, id, missing);
    assert after[..|rows|] == rows;
    CoveredKept(rows, after, sectors, frequencies, works, i);
  }

  /** Works covered before a fill stay covered after it. */
  lemma CoveredKept(rows: seq<Assignment>, after: seq<Assignment>, sectors: seq<Sector>,
                    frequencies: seq<WorkFrequency>, works: seq<Work>, i: nat)
    requires |rows| <= |after| && after[..|rows|] == rows && i <= |works|
    requires forall k :: 0 <= k < i && Eligible(frequencies, works[k].id) ==> Covered(rows, sectors, works[k].id)
    ensures forall k :: 0 <= k < i && Eligible(frequencies, works[k].id) ==> Covered(after, sectors, works[k].id)
  {
    assert rows + after[|rows|..] == after;
    forall k | 0 <= k < i && Eligible(frequencies, works[k].id) ensures Covered(after, sectors, works[k].id) {
      CoveredGrows(rows, after[|rows|..], sectors, works[k].id);
    }
  }

  /**
   * One run of the job: for every work in the order the table is read (insertion order) that the job handles,
   * the shared per-sector fill without KO placeholders.
   */
  method GenerateAssignments(db: Db, now: Time) returns (added: nat)
    requires db.Valid()
    modifies db`assignments, db`nextAssignmentId, db`executions, db`nextExecutionId
    ensures db.Valid()
    ensures db.executions == old(db.executions) && db.nextExecutionId == old(db.nextExecutionId)
    ensures GrownBy(db.frequencies, old(db.assignments), db.assignments)
    ensures added == |db.assignments| - |old(db.assignments)|
    ensures AllCovered(db.Snap())
    ensures AllCovered(old(db.Snap())) ==> added == 0 && db.assignments == old(db.assignments)
  {
    ghost var before := db.assignments;
    ghost var wasCovered := AllCovered(db.Snap());
    var works := db.works;
    added := 0;
    var i := 0;
    while i < |works|
      invariant 0 <= i <= |works| && works == db.works
      invariant db.Valid()
      invariant db.executions == old(db.executions) && db.nextExecutionId == old(db.nextExecutionId)
      invariant GrownBy(db.frequencies, before, db.assignments)
      invariant added == |db.assignments| - |before|
      invariant forall k :: 0 <= k < i && Eligible(db.frequencies, works[k].id) ==>
        Covered(db.assignments, db.sectors, works[k].id)
      invariant wasCovered ==> db.assignments == before
    {
      if wasCovered && Eligible(db.frequencies, works[i].id) {
        assert works[i] in db.works;
      }
      var n := VisitWork(db, works, i, now, before, wasCovered);
      added := added + n;
      i := i + 1;
    }
    forall w | w in db.works && Eligible(db.frequencies, w.id) ensures Covered(db.assignments, db.sectors, w.id) {
      var k :| 0 <= k < |works| && works[k] == w;
    }
  }
}
