/**
 * The task generator job (GenerateTasksJob): not-done executions whose due
 * moment has passed become overdue, and every active KO assignment that is due
 * by today gets a placeholder for 08:00 today unless the store already holds
 * one. The job exists in the code base but the application never schedules it.
 */
module TaskJob {
  import opened Common
  import opened Clock
  import opened Records
  import opened Store

  /** A not-done execution whose due moment lies before `now` (a missing due moment is never before). */
  predicate Overdue(e: Execution, now: Time) {
    e.status == StatusNotDone && e.dueDateTime.Some? && e.dueDateTime.value < now
  }

  /** The overdue marking, row by row. */
  method MarkOverdue(executions: seq<Execution>, now: Time) returns (r: seq<Execution>)
    ensures |r| == |executions|
    ensures forall k :: 0 <= k < |r| ==>
      r[k] == if Overdue(executions[k], now) then executions[k].(status := StatusOverdue) else executions[k]
    ensures forall e :: e in r ==> !Overdue(e, now)
  {
    r := executions;
    var k := 0;
    while k < |r|
      invariant 0 <= k <= |r| == |executions|
      invariant forall j :: 0 <= j < k ==>
        r[j] == if Overdue(executions[j], now) then executions[j].(status := StatusOverdue) else executions[j]
      invariant forall j :: k <= j < |r| ==> r[j] == executions[j]
    {
      if Overdue(r[k], now) {
        r := r[k := r[k].(status := StatusOverdue)];
      }
      k := k + 1;
    }
  }

  /** The job's query: active KO assignments whose frequency and type rows exist. */
  predicate Considered(s: Snapshot, a: Assignment) {
    a.workTypeId == KoWorkTypeId && !a.isCanceled
      && FindFrequency(s.frequencies, a.freqId).Some? && FindWorkType(s.workTypes, a.workTypeId).Some?
  }

  /**
   * The job's next due moment: the last execution (1900-01-01 if none) plus the
   * smaller of the day interval (1 if unset) and the hour interval (12 if unset)
   * read as half days, here both in whole hours.
   */
  function KoNextDue(a: Assignment, f: WorkFrequency): Time {
    var days := f.intervalDay.GetOr(1);
    var hours := f.intervalHour.GetOr(12);
    AddHours(a.lastExecTime.GetOr(DefaultExecutionTime), if 24 * days <= 2 * hours then 24 * days else 2 * hours)
  }

  /** The assignment is considered and its next due moment falls on today or earlier. */
  predicate DueByToday(s: Snapshot, a: Assignment, now: Time) {
    Considered(s, a) && Date(KoNextDue(a, FindFrequency(s.frequencies, a.freqId).value)) <= Date(now)
  }

  /** The store holds a not-done execution of the assignment due at 08:00 on the day of `now`. */
  predicate HasMorningPlaceholder(executions: seq<Execution>, assignmentId: int, now: Time) {
    exists e :: e in executions && e.assignmentId == assignmentId && e.dueDateTime.Some?
      && Date(e.dueDateTime.value) == Date(now) && Hour(e.dueDateTime.value) == 8 && e.status == StatusNotDone
  }

  /** The assignment gets a new placeholder: due by today and none in the store yet. */
  predicate ShouldSeed(s: Snapshot, a: Assignment, now: Time) {
    DueByToday(s, a, now) && !HasMorningPlaceholder(s.executions, a.id, now)
  }

  /** The assignment after the run: a due one that was never executed takes today as its last execution. */
  function Touched(s: Snapshot, a: Assignment, now: Time): (r: Assignment)
    ensures r == a.(lastExecTime := r.lastExecTime)
    ensures a.lastExecTime.Some? ==> r == a
    ensures r != a <==> DueByToday(s, a, now) && a.lastExecTime.None?
    ensures r != a ==> r.lastExecTime == Some(Date(now))
  {
    if DueByToday(s, a, now) && a.lastExecTime.None? then a.(lastExecTime := Some(Date(now))) else a
  }

  /** The ids of the assignments that get a placeholder, in the order the table is read (insertion order). */
  function SeedIds(s: Snapshot, assignments: seq<Assignment>, now: Time): (r: seq<int>)
    ensures |r| <= |assignments|
  {
    if assignments == [] then []
    else
      var n := |assignments| - 1;
      SeedIds(s, assignments[..n], now) + (if ShouldSeed(s, assignments[n], now) then [assignments[n].id] else [])
  }

  /** The placeholders for the given assignment ids, numbered from `firstId`. */
  function PlaceholdersFor(firstId: int, assignmentIds: seq<int>, due: Time): (r: seq<Execution>)
    ensures |r| == |assignmentIds|
    ensures forall k :: 0 <= k < |r| ==> r[k] == Placeholder(firstId + k, assignmentIds[k], due)
  {
    if assignmentIds == [] then []
    else
      var n := |assignmentIds| - 1;
      PlaceholdersFor(firstId, assignmentIds[..n], due) + [Placeholder(firstId + n, assignmentIds[n], due)]
  }

  /** An id is seeded exactly when some assignment with it should be. */
  lemma {:induction false} SeedIdsMembership(s: Snapshot, assignments: seq<Assignment>, now: Time, id: int)
    ensures id in SeedIds(s, assignments, now) <==> exists a :: a in assignments && a.id == id && ShouldSeed(s, a, now)
  {
    if assignments != [] {
      var n := |assignments| - 1;
      SeedIdsMembership(s, assignments[..n], now, id);
      if exists a :: a in assignments && a.id == id && ShouldSeed(s, a, now) {
        var a :| a in assignments && a.id == id && ShouldSeed(s, a, now);
        var k :| 0 <= k < |assignments| && assignments[k] == a;
        if k < n { assert a in assignments[..n]; }
      }
      if id in SeedIds(s, assignments[..n], now) {
        var a :| a in assignments[..n] && a.id == id && ShouldSeed(s, a, now);
        assert a in assignments;
      }
    }
  }

  /** With unique assignment ids no assignment is seeded twice. */
  lemma {:induction false} SeedIdsDistinct(s: Snapshot, assignments: seq<Assignment>, now: Time)
    requires UniqueAssignmentIds(assignments)
    ensures Distinct(SeedIds(s, assignments, now))
  {
    if assignments != [] {
      var n := |assignments| - 1;
      var init := assignments[..n];
      assert UniqueAssignmentIds(init) by {
        forall i, j | 0 <= i < j < |init| ensures init[i].id != init[j].id {
          assert init[i] == assignments[i] && init[j] == assignments[j];
        }
      }
      SeedIdsDistinct(s, init, now);
      var m0 := SeedIds(s, init, now);
      forall id | id in m0 ensures id != assignments[n].id {
        SeedIdsMembership(s, init, now, id);
        var a :| a in init && a.id == id && ShouldSeed(s, a, now);
        var k :| 0 <= k < |init| && init[k] == a;
        assert assignments[k] == a;
      }
      var m := SeedIds(s, assignments, now);
      forall i, j | 0 <= i < j < |m| ensures m[i] != m[j] {
        if j >= |m0| { assert m[i] == m0[i] && m0[i] in m0; }
        else { assert m[i] == m0[i] && m[j] == m0[j]; }
      }
    }
  }

  lemma SeedIdsStep(s: Snapshot, assignments: seq<Assignment>, k: nat, now: Time)
    requires k < |assignments|
    ensures SeedIds(s, assignments[..k + 1], now)
         == SeedIds(s, assignments[..k], now) + (if ShouldSeed(s, assignments[k], now) then [assignments[k].id] else [])
  {
    assert assignments[..k + 1][..k] == assignments[..k];
  }

  lemma PlaceholdersForStep(base: seq<Execution>, firstId: int, ids: seq<int>, x: int, due: Time)
    ensures base + PlaceholdersFor(firstId, ids, due) + [Placeholder(firstId + |ids|, x, due)]
         == base + PlaceholdersFor(firstId, ids + [x], due)
  {
    assert (ids + [x])[..|ids|] == ids;
    AppendAssoc(base, PlaceholdersFor(firstId, ids, due), [Placeholder(firstId + |ids|, x, due)]);
  }

  /** One assignment of the seeding loop, on the values the loop carries. */
  method SeedStep(s: Snapshot, marked: seq<Execution>, firstId: int, now: Time, k: nat,
                  ghost seeded: seq<int>, added: nat, execs: seq<Execution>)
    returns (ghost seeded': seq<int>, added': nat, execs': seq<Execution>)
    requires k < |s.assignments|
    requires seeded == SeedIds(s, s.assignments[..k], now) && added == |seeded|
    requires execs == marked + PlaceholdersFor(firstId, seeded, AddHours(Date(now), 8))
    ensures seeded' == SeedIds(s, s.assignments[..k + 1], now) && added' == |seeded'|
    ensures execs' == marked + PlaceholdersFor(firstId, seeded', AddHours(Date(now), 8))
  {
    var a := s.assignments[k];
    SeedIdsStep(s, s.assignments, k, now);
    if DueByToday(s, a, now) && !HasMorningPlaceholder(s.executions, a.id, now) {
      PlaceholdersForStep(marked, firstId, seeded, a.id, AddHours(Date(now), 8));
      execs' := execs + [Placeholder(firstId + added, a.id, AddHours(Date(now), 8))];
      seeded' := seeded + [a.id];
      added' := added + 1;
    } else {
      seeded', added', execs' := seeded, added, execs;
    }
  }

  /** The first execution moment of an assignment due by today that was never executed is set to today. */
  method TouchStep(s: Snapshot, rows: seq<Assignment>, k: nat, now: Time) returns (rows': seq<Assignment>)
    requires k < |rows| == |s.assignments| && rows[k] == s.assignments[k]
    ensures |rows'| == |rows| && rows'[k] == Touched(s, s.assignments[k], now)
    ensures forall j :: 0 <= j < |rows| && j != k ==> rows'[j] == rows[j]
  {
    rows' := rows;
    var a := s.assignments[k];
    if DueByToday(s, a, now) && a.lastExecTime.None? {
      rows' := rows[k := a.(lastExecTime := Some(Date(now)))];
    }
  }

  /**
   * The seeding loop over a snapshot taken before the run: the rows after the
   * run and the placeholders appended to `marked`.
   */
  method SeedKo(s: Snapshot, marked: seq<Execution>, firstId: int, now: Time)
    returns (rows: seq<Assignment>, execs: seq<Execution>)
    ensures |rows| == |s.assignments|
    ensures forall k :: 0 <= k < |rows| ==> rows[k] == Touched(s, s.assignments[k], now)
    ensures execs == marked + PlaceholdersFor(firstId, SeedIds(s, s.assignments, now), AddHours(Date(now), 8))
  {
    rows := s.assignments;
    ghost var seeded: seq<int> := [];
    var added := 0;
    execs := marked;
    var k := 0;
    while k < |s.assignments|
      invariant 0 <= k <= |s.assignments| == |rows|
      invariant forall j :: 0 <= j < k ==> rows[j] == Touched(s, s.assignments[j], now)
      invariant forall j :: k <= j < |rows| ==> rows[j] == s.assignments[j]
      invariant seeded == SeedIds(s, s.assignments[..k], now) && added == |seeded|
      invariant execs == marked + PlaceholdersFor(firstId, seeded, AddHours(Date(now), 8))
    {
      seeded, added, execs := SeedStep(s, marked, firstId, now, k, seeded, added, execs);
      rows := TouchStep(s, rows, k, now);
      k := k + 1;
    }
    assert s.assignments[..k] == s.assignments;
  }

  /** The run's executions: the marked old ones, with their ids, then the new placeholders, all below the new next id. */
  lemma RunIdsBelow(executions: seq<Execution>, marked: seq<Execution>, firstId: int, seeded: seq<int>, due: Time,
                    execs: seq<Execution>)
    requires |marked| == |executions| && forall k :: 0 <= k < |marked| ==> marked[k].id == executions[k].id
    requires forall e :: e in executions ==> e.id < firstId
    requires execs == marked + PlaceholdersFor(firstId, seeded, due)
    ensures forall e :: e in execs ==> e.id < firstId + |seeded|
    ensures execs[|marked|..] == PlaceholdersFor(firstId, seeded, due)
  {
    forall e | e in execs ensures e.id < firstId + |seeded| {
      var k :| 0 <= k < |execs| && execs[k] == e;
      if k < |marked| { assert executions[k] in executions; }
    }
  }

  /** One run of the job. */
  method GenerateTasks(db: Db, now: Time)
    requires db.Valid()
    modifies db`assignments, db`executions, db`nextExecutionId
    ensures db.Valid()
    ensures |db.assignments| == |old(db.assignments)|
    ensures forall k :: 0 <= k < |db.assignments| ==> db.assignments[k] == Touched(old(db.Snap()), old(db.assignments)[k], now)
    ensures var seeded := SeedIds(old(db.Snap()), old(db.assignments), now);
      && |db.executions| == |old(db.executions)| + |seeded|
      && db.nextExecutionId == old(db.nextExecutionId) + |seeded|
      && (forall k :: 0 <= k < |old(db.executions)| ==>
            db.executions[k] == if Overdue(old(db.executions)[k], now)
                                then old(db.executions)[k].(status := StatusOverdue) else old(db.executions)[k])
      && db.executions[|old(db.executions)|..]
         == PlaceholdersFor(old(db.nextExecutionId), seeded, AddHours(Date(now), 8))
  {
    var s := db.Snap();
    var firstId := db.nextExecutionId;
    var marked := MarkOverdue(db.executions, now);
    var rows, execs := SeedKo(s, marked, firstId, now);
    ghost var seeded := SeedIds(s, s.assignments, now);
    assert OnlyLastExecChanged(s.assignments, rows);
    LastExecChangeKeepsKeys(s.assignments, rows, db.nextAssignmentId, db.nextWorkId);
    RunIdsBelow(s.executions, marked, firstId, seeded, AddHours(Date(now), 8), execs);
    db.SaveChanges(rows, execs, firstId + (|execs| - |marked|));
  }

  /** Every assignment the run seeds is seeded once, and these are exactly the ones due by today without a placeholder. */
  lemma SeedOnce(s: Snapshot, now: Time, a: Assignment)
    requires UniqueAssignmentIds(s.assignments) && a in s.assignments
    ensures a.id in SeedIds(s, s.assignments, now) <==> ShouldSeed(s, a, now)
    ensures Distinct(SeedIds(s, s.assignments, now))
  {
    SeedIdsMembership(s, s.assignments, now, a.id);
    SeedIdsDistinct(s, s.assignments, now);
    if a.id in SeedIds(s, s.assignments, now) {
      var b :| b in s.assignments && b.id == a.id && ShouldSeed(s, b, now);
      var i :| 0 <= i < |s.assignments| && s.assignments[i] == a;
      var j :| 0 <= j < |s.assignments| && s.assignments[j] == b;
      assert i == j;
    }
  }
}
