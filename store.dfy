/**
 * The database the windows and jobs share (ApplicationDbContext). Every
 * `SaveChangesAsync` of the source is modelled as taking effect at once; the
 * identity columns are counters that hand out the next id.
 */
module Store {
  import opened Common
  import opened Clock
  import opened Records

  /** The sector ids, in the order the table is read (insertion order), for which no assignment links the work yet. */
  function MissingSectors(assignments: seq<Assignment>, workId: int, sectors: seq<Sector>): (r: seq<int>)
    ensures |r| <= |sectors|
  {
    if sectors == [] then []
    else
      var last := sectors[|sectors| - 1];
      MissingSectors(assignments, workId, sectors[..|sectors| - 1])
        + (if HasAssignmentFor(assignments, workId, last.id) then [] else [last.id])
  }

  /** The assignments created for `sectorIds`, numbered from `firstId`. */
  function Fill(firstId: int, workId: int, freqId: int, roleId: int, workTypeId: int, sectorIds: seq<int>): (r: seq<Assignment>)
    ensures |r| == |sectorIds|
  {
    seq(|sectorIds|, k requires 0 <= k < |sectorIds| =>
      Assignment(firstId + k, workId, freqId, roleId, workTypeId, sectorIds[k], false, None))
  }

  /** A "KO" placeholder: an execution not yet done by anyone, due at `due`. */
  function Placeholder(id: int, assignmentId: int, due: Time): Execution {
    Execution(id, assignmentId, None, DefaultExecutionTime, StatusNotDone, Some(due), None)
  }

  /** One placeholder for each of `count` assignments numbered from `firstAssignmentId`. */
  function Placeholders(firstId: int, firstAssignmentId: int, count: nat, due: Time): (r: seq<Execution>)
    ensures |r| == count
    ensures forall k :: 0 <= k < count ==> r[k] == Placeholder(firstId + k, firstAssignmentId + k, due)
  {
    if count == 0 then []
    else Placeholders(firstId, firstAssignmentId, count - 1, due) + [Placeholder(firstId + count - 1, firstAssignmentId + count - 1, due)]
  }

  lemma FillExtend(firstId: int, workId: int, freqId: int, roleId: int, workTypeId: int, ids: seq<int>, x: int)
    ensures Fill(firstId, workId, freqId, roleId, workTypeId, ids + [x])
         == Fill(firstId, workId, freqId, roleId, workTypeId, ids)
            + [Assignment(firstId + |ids|, workId, freqId, roleId, workTypeId, x, false, None)]
  {
    var l := Fill(firstId, workId, freqId, roleId, workTypeId, ids + [x]);
    var r := Fill(firstId, workId, freqId, roleId, workTypeId, ids)
            + [Assignment(firstId + |ids|, workId, freqId, roleId, workTypeId, x, false, None)];
    forall k | 0 <= k < |l| ensures l[k] == r[k] {
      if k < |ids| { assert (ids + [x])[k] == ids[k]; }
    }
  }

  lemma AppendAssoc<T>(a: seq<T>, b: seq<T>, c: seq<T>)
    ensures (a + b) + c == a + (b + c)
  {
  }

  /** A table without the sector does not count as an assignment for it. */
  lemma {:induction false} NoAssignmentForOthers(added: seq<Assignment>, workId: int, id: int)
    requires forall k :: 0 <= k < |added| ==> added[k].sectorId != id
    ensures !HasAssignmentFor(added, workId, id)
  {
    HasAssignmentForAt(added, workId, id);
  }

  /** Every missing id is the id of a listed sector that the work has no assignment for. */
  lemma {:induction false} MissingSectorsIds(assignments: seq<Assignment>, workId: int, sectors: seq<Sector>, id: int)
    requires id in MissingSectors(assignments, workId, sectors)
    ensures !HasAssignmentFor(assignments, workId, id)
    ensures exists k :: 0 <= k < |sectors| && sectors[k].id == id
  {
    var n := |sectors| - 1;
    if id in MissingSectors(assignments, workId, sectors[..n]) {
      MissingSectorsIds(assignments, workId, sectors[..n], id);
      var k :| 0 <= k < n && sectors[..n][k].id == id;
      assert sectors[k].id == id;
    } else {
      assert sectors[n].id == id;
    }
  }

  /** The assignments created for earlier sectors are for other sectors than the next one. */
  lemma CreatedAvoidNext(base: seq<Assignment>, workId: int, freqId: int, roleId: int, workTypeId: int,
                         firstId: int, sectors: seq<Sector>, j: nat)
    requires UniqueSectorIds(sectors) && j < |sectors|
    ensures var created := Fill(firstId, workId, freqId, roleId, workTypeId, MissingSectors(base, workId, sectors[..j]));
      forall k :: 0 <= k < |created| ==> created[k].sectorId != sectors[j].id
  {
    var missing := MissingSectors(base, workId, sectors[..j]);
    var created := Fill(firstId, workId, freqId, roleId, workTypeId, missing);
    forall k | 0 <= k < |created| ensures created[k].sectorId != sectors[j].id {
      assert missing[k] in missing;
      MissingSectorsIds(base, workId, sectors[..j], missing[k]);
      var i :| 0 <= i < j && sectors[..j][i].id == missing[k];
      assert sectors[i].id != sectors[j].id;
    }
  }

  /**
   * One step of the fill loop: the lookup for the next sector in the table built
   * so far gives the same answer as in the table before the loop, and the
   * missing list and the table grow by that sector exactly when it fails.
   */
  lemma MissingStep(base: seq<Assignment>, workId: int, freqId: int, roleId: int, workTypeId: int,
                    firstId: int, sectors: seq<Sector>, j: nat, missing: seq<int>, rows: seq<Assignment>)
    requires UniqueSectorIds(sectors) && j < |sectors|
    requires missing == MissingSectors(base, workId, sectors[..j])
    requires rows == base + Fill(firstId, workId, freqId, roleId, workTypeId, missing)
    ensures HasAssignmentFor(rows, workId, sectors[j].id) == HasAssignmentFor(base, workId, sectors[j].id)
    ensures HasAssignmentFor(rows, workId, sectors[j].id) ==> MissingSectors(base, workId, sectors[..j + 1]) == missing
    ensures !HasAssignmentFor(rows, workId, sectors[j].id) ==>
      && MissingSectors(base, workId, sectors[..j + 1]) == missing + [sectors[j].id]
      && rows + [Assignment(firstId + |missing|, workId, freqId, roleId, workTypeId, sectors[j].id, false, None)]
         == base + Fill(firstId, workId, freqId, roleId, workTypeId, missing + [sectors[j].id])
  {
    var created := Fill(firstId, workId, freqId, roleId, workTypeId, missing);
    var id := sectors[j].id;
    assert sectors[..j + 1][..j] == sectors[..j] && sectors[..j + 1][j] == sectors[j];
    CreatedAvoidNext(base, workId, freqId, roleId, workTypeId, firstId, sectors, j);
    HasAssignmentForAppend(base, created, workId, id);
    NoAssignmentForOthers(created, workId, id);
    FillExtend(firstId, workId, freqId, roleId, workTypeId, missing, id);
    AppendAssoc(base, created, [Assignment(firstId + |missing|, workId, freqId, roleId, workTypeId, id, false, None)]);
  }

  lemma PlaceholdersStep(base: seq<Execution>, firstId: int, firstAssignmentId: int, count: nat, due: Time, execs: seq<Execution>)
    requires execs == base + Placeholders(firstId, firstAssignmentId, count, due)
    ensures execs + [Placeholder(firstId + count, firstAssignmentId + count, due)]
         == base + Placeholders(firstId, firstAssignmentId, count + 1, due)
  {
    AppendAssoc(base, Placeholders(firstId, firstAssignmentId, count, due), [Placeholder(firstId + count, firstAssignmentId + count, due)]);
  }

  predicate Distinct(s: seq<int>) {
    forall i, j :: 0 <= i < j < |s| ==> s[i] != s[j]
  }

  /** The missing list of a table of distinct sectors has no repeats. */
  lemma {:induction false} MissingSectorsDistinct(assignments: seq<Assignment>, workId: int, sectors: seq<Sector>)
    requires UniqueSectorIds(sectors)
    ensures Distinct(MissingSectors(assignments, workId, sectors))
  {
    if sectors != [] {
      var n := |sectors| - 1;
      var init := sectors[..n];
      assert UniqueSectorIds(init) by {
        forall i, j | 0 <= i < j < |init| ensures init[i].id != init[j].id { assert init[i] == sectors[i] && init[j] == sectors[j]; }
      }
      MissingSectorsDistinct(assignments, workId, init);
      var m0 := MissingSectors(assignments, workId, init);
      forall id | id in m0 ensures id != sectors[n].id {
        MissingSectorsIds(assignments, workId, init, id);
        var k :| 0 <= k < |init| && init[k].id == id;
        assert sectors[k].id == id;
      }
      var m := MissingSectors(assignments, workId, sectors);
      assert sectors[..n] == init;
      forall i, j | 0 <= i < j < |m| ensures m[i] != m[j] {
        if j >= |m0| { assert m[i] == m0[i] && m0[i] in m0 && m[j] == sectors[n].id; }
        else { assert m[i] == m0[i] && m[j] == m0[j]; }
      }
    }
  }

  /** What a completed fill leaves behind: keys unique, every sector covered. */
  lemma FillOutcome(base: seq<Assignment>, workId: int, freqId: int, roleId: int, workTypeId: int,
                    firstId: int, sectors: seq<Sector>)
    requires UniqueAssignmentIds(base) && UniqueWorkSector(base) && UniqueSectorIds(sectors)
    requires forall b :: b in base ==> b.id < firstId
    ensures var missing := MissingSectors(base, workId, sectors);
      var rows := base + Fill(firstId, workId, freqId, roleId, workTypeId, missing);
      && UniqueAssignmentIds(rows) && UniqueWorkSector(rows)
      && (forall b :: b in rows ==> b.id < firstId + |missing|)
      && (forall s :: s in sectors ==> HasAssignmentFor(rows, workId, s.id))
  {
    var missing := MissingSectors(base, workId, sectors);
    var created := Fill(firstId, workId, freqId, roleId, workTypeId, missing);
    FillKeepsIdsUnique(base, created, firstId);
    MissingSectorsDistinct(base, workId, sectors);
    FillKeepsPairsUnique(base, workId, freqId, roleId, workTypeId, firstId, sectors);
    FillCoversSectors(base, workId, freqId, roleId, workTypeId, firstId, sectors);
  }

  /** Appending rows numbered from above every existing id keeps ids unique. */
  lemma FillKeepsIdsUnique(base: seq<Assignment>, created: seq<Assignment>, firstId: int)
    requires UniqueAssignmentIds(base) && UniqueAssignmentIds(created)
    requires forall b :: b in base ==> b.id < firstId
    requires forall c :: c in created ==> firstId <= c.id
    ensures UniqueAssignmentIds(base + created)
  {
    var rows := base + created;
    forall i, j | 0 <= i < j < |rows| ensures rows[i].id != rows[j].id {
      if j >= |base| && i < |base| { assert rows[i] in base && rows[j] in created; }
      else if j < |base| { assert rows[i] == base[i] && rows[j] == base[j]; }
      else { assert rows[i] == created[i - |base|] && rows[j] == created[j - |base|]; }
    }
  }

  /** The filled rows pair the work only with sectors it lacked, each once. */
  lemma FillKeepsPairsUnique(base: seq<Assignment>, workId: int, freqId: int, roleId: int, workTypeId: int,
                             firstId: int, sectors: seq<Sector>)
    requires UniqueWorkSector(base) && Distinct(MissingSectors(base, workId, sectors))
    ensures UniqueWorkSector(base + Fill(firstId, workId, freqId, roleId, workTypeId, MissingSectors(base, workId, sectors)))
  {
    var missing := MissingSectors(base, workId, sectors);
    var created := Fill(firstId, workId, freqId, roleId, workTypeId, missing);
    var rows := base + created;
    forall i, j | 0 <= i < j < |rows|
      ensures rows[i].workId != rows[j].workId || rows[i].sectorId != rows[j].sectorId
    {
      if j < |base| {
        assert rows[i] == base[i] && rows[j] == base[j];
      } else if i < |base| {
        var id := missing[j - |base|];
        assert id in missing;
        MissingSectorsIds(base, workId, sectors, id);
        HasAssignmentForAt(base, workId, id);
        assert rows[i] == base[i] && rows[j] == created[j - |base|];
      } else {
        assert rows[i] == created[i - |base|] && rows[j] == created[j - |base|];
      }
    }
  }

  /** After the fill every listed sector has the work. */
  lemma FillCoversSectors(base: seq<Assignment>, workId: int, freqId: int, roleId: int, workTypeId: int,
                          firstId: int, sectors: seq<Sector>)
    ensures forall s :: s in sectors ==>
      HasAssignmentFor(base + Fill(firstId, workId, freqId, roleId, workTypeId, MissingSectors(base, workId, sectors)), workId, s.id)
  {
    var missing := MissingSectors(base, workId, sectors);
    var created := Fill(firstId, workId, freqId, roleId, workTypeId, missing);
    forall s | s in sectors ensures HasAssignmentFor(base + created, workId, s.id) {
      HasAssignmentForAppend(base, created, workId, s.id);
      if !HasAssignmentFor(base, workId, s.id) {
        MissingSectorsHas(base, workId, sectors, s);
        var k :| 0 <= k < |missing| && missing[k] == s.id;
        HasAssignmentForAt(created, workId, s.id);
        assert created[k].workId == workId && created[k].sectorId == s.id;
      }
    }
  }

  /** A listed sector lacking the work is in the missing list. */
  lemma {:induction false} MissingSectorsHas(assignments: seq<Assignment>, workId: int, sectors: seq<Sector>, s: Sector)
    requires s in sectors && !HasAssignmentFor(assignments, workId, s.id)
    ensures s.id in MissingSectors(assignments, workId, sectors)
  {
    var n := |sectors| - 1;
    if sectors[n] != s {
      assert s in sectors[..n] by {
        var k :| 0 <= k < |sectors| && sectors[k] == s;
        assert k < n;
        assert sectors[..n][k] == s;
      }
      MissingSectorsHas(assignments, workId, sectors[..n], s);
    }
  }

  lemma PlaceholderIds(base: seq<Execution>, firstId: int, firstAssignmentId: int, count: nat, due: Time)
    requires forall e :: e in base ==> e.id < firstId
    ensures forall e :: e in base + Placeholders(firstId, firstAssignmentId, count, due) ==> e.id < firstId + count
  {
    var p := Placeholders(firstId, firstAssignmentId, count, due);
    forall e | e in base + p ensures e.id < firstId + count {
      if e !in base {
        var k :| 0 <= k < |p| && p[k] == e;
      }
    }
  }

  /** A work already linked to every sector is missing none. */
  lemma {:induction false} MissingSectorsCovered(assignments: seq<Assignment>, workId: int, sectors: seq<Sector>)
    requires forall s :: s in sectors ==> HasAssignmentFor(assignments, workId, s.id)
    ensures MissingSectors(assignments, workId, sectors) == []
  {
    if sectors != [] {
      var n := |sectors| - 1;
      assert sectors[n] in sectors;
      forall s | s in sectors[..n] ensures HasAssignmentFor(assignments, workId, s.id) {
        assert s in sectors;
      }
      MissingSectorsCovered(assignments, workId, sectors[..n]);
    }
  }

  /** Every created assignment carries the given work, frequency, role and type, is active and was never executed. */
  lemma FillRows(firstId: int, workId: int, freqId: int, roleId: int, workTypeId: int, sectorIds: seq<int>)
    ensures forall a :: a in Fill(firstId, workId, freqId, roleId, workTypeId, sectorIds) ==>
      a.workId == workId && a.freqId == freqId && a.roleId == roleId && a.workTypeId == workTypeId
      && !a.isCanceled && a.lastExecTime.None?
  {
  }

  /** A fill keeps every work reference below a bound that the work itself is below. */
  lemma FillWorkBelow(base: seq<Assignment>, firstId: int, workId: int, freqId: int, roleId: int, workTypeId: int,
                      sectorIds: seq<int>, bound: int)
    requires workId < bound && forall b :: b in base ==> b.workId < bound
    ensures forall b :: b in base + Fill(firstId, workId, freqId, roleId, workTypeId, sectorIds) ==> b.workId < bound
  {
    FillRows(firstId, workId, freqId, roleId, workTypeId, sectorIds);
  }

  /** A fill only ever links the work: the pair of any other work is looked up as before. */
  lemma FillKeepsOtherWorks(base: seq<Assignment>, firstId: int, workId: int, freqId: int, roleId: int, workTypeId: int,
                            sectorIds: seq<int>, otherWork: int, sectorId: int)
    requires otherWork != workId
    ensures HasAssignmentFor(base + Fill(firstId, workId, freqId, roleId, workTypeId, sectorIds), otherWork, sectorId)
         == HasAssignmentFor(base, otherWork, sectorId)
  {
    var created := Fill(firstId, workId, freqId, roleId, workTypeId, sectorIds);
    HasAssignmentForAppend(base, created, otherWork, sectorId);
    HasAssignmentForAt(created, otherWork, sectorId);
  }

  /** One sector of the fill loop, on the values the loop carries. */
  method FillStep(base: seq<Assignment>, baseE: seq<Execution>, workId: int, freqId: int, roleId: int, workTypeId: int,
                  firstA: int, firstE: int, seed: bool, due: Time, sectors: seq<Sector>, j: nat,
                  ghost missing: seq<int>, rows: seq<Assignment>, execs: seq<Execution>, added: nat)
    returns (ghost missing': seq<int>, rows': seq<Assignment>, execs': seq<Execution>, added': nat)
    requires UniqueSectorIds(sectors) && j < |sectors|
    requires missing == MissingSectors(base, workId, sectors[..j]) && added == |missing|
    requires rows == base + Fill(firstA, workId, freqId, roleId, workTypeId, missing)
    requires execs == baseE + (if seed then Placeholders(firstE, firstA, added, due) else [])
    ensures missing' == MissingSectors(base, workId, sectors[..j + 1]) && added' == |missing'|
    ensures rows' == base + Fill(firstA, workId, freqId, roleId, workTypeId, missing')
    ensures execs' == baseE + (if seed then Placeholders(firstE, firstA, added', due) else [])
  {
    MissingStep(base, workId, freqId, roleId, workTypeId, firstA, sectors, j, missing, rows);
    if HasAssignmentFor(rows, workId, sectors[j].id) {
      return missing, rows, execs, added;
    }
    var a := Assignment(firstA + added, workId, freqId, roleId, workTypeId, sectors[j].id, false, None);
    missing' := missing + [sectors[j].id];
    added' := added + 1;
    rows' := rows + [a];
    if seed {
      PlaceholdersStep(baseE, firstE, firstA, added, due, execs);
      execs' := execs + [Placeholder(firstE + added, a.id, due)];
    } else {
      execs' := execs;
    }
  }

  /**
   * The table after the first assignment with the id (the row `FirstOrDefault`
   * finds) took `t` as its last execution time; without such a row, unchanged.
   */
  function SetLastExec(assignments: seq<Assignment>, id: int, t: Time): (r: seq<Assignment>)
    ensures |r| == |assignments|
    ensures forall k :: 0 <= k < |r| ==> r[k] == assignments[k].(lastExecTime := r[k].lastExecTime)
    ensures forall k :: 0 <= k < |r| && assignments[k].id != id ==> r[k] == assignments[k]
    ensures FindAssignment(assignments, id).None? ==> r == assignments
    ensures FindAssignment(assignments, id).Some? ==>
      FindAssignment(r, id) == Some(FindAssignment(assignments, id).value.(lastExecTime := Some(t)))
  {
    if assignments == [] then []
    else if assignments[0].id == id then [assignments[0].(lastExecTime := Some(t))] + assignments[1..]
    else [assignments[0]] + SetLastExec(assignments[1..], id, t)
  }

  /** Changing a last execution time keeps the keys of the table unique and below the counter. */
  lemma SetLastExecKeepsKeys(assignments: seq<Assignment>, id: int, t: Time, nextId: int, nextWorkId: int)
    requires UniqueAssignmentIds(assignments) && UniqueWorkSector(assignments)
    requires forall a :: a in assignments ==> a.id < nextId && a.workId < nextWorkId
    ensures var r := SetLastExec(assignments, id, t);
      UniqueAssignmentIds(r) && UniqueWorkSector(r) && forall a :: a in r ==> a.id < nextId && a.workId < nextWorkId
  {
    var r := SetLastExec(assignments, id, t);
    forall a | a in r ensures a.id < nextId && a.workId < nextWorkId {
      var k :| 0 <= k < |r| && r[k] == a;
      assert assignments[k] in assignments;
    }
  }

  /** `rows` is `assignments` with at most the last execution times changed, row by row. */
  predicate OnlyLastExecChanged(assignments: seq<Assignment>, rows: seq<Assignment>) {
    |rows| == |assignments| && forall k :: 0 <= k < |rows| ==> rows[k] == assignments[k].(lastExecTime := rows[k].lastExecTime)
  }

  /** Changing only last execution times keeps the keys unique and every bound. */
  lemma LastExecChangeKeepsKeys(assignments: seq<Assignment>, rows: seq<Assignment>, nextId: int, nextWorkId: int)
    requires OnlyLastExecChanged(assignments, rows)
    requires UniqueAssignmentIds(assignments) && UniqueWorkSector(assignments)
    requires forall a :: a in assignments ==> a.id < nextId && a.workId < nextWorkId
    ensures UniqueAssignmentIds(rows) && UniqueWorkSector(rows)
    ensures forall a :: a in rows ==> a.id < nextId && a.workId < nextWorkId
  {
    forall a | a in rows ensures a.id < nextId && a.workId < nextWorkId {
      var k :| 0 <= k < |rows| && rows[k] == a;
      assert assignments[k] in assignments;
    }
  }

  class Db {
    var works: seq<Work>
    var sectors: seq<Sector>
    var roles: seq<Role>
    var frequencies: seq<WorkFrequency>
    var workTypes: seq<WorkType>
    var assignments: seq<Assignment>
    var executions: seq<Execution>
    var nextWorkId: int
    var nextAssignmentId: int
    var nextExecutionId: int

    /** Primary keys are unique and below their identity counters; (WorkId, SectorId) is unique. */
    ghost predicate Valid()
      reads this
    {
      && UniqueWorkIds(works) && (forall w :: w in works ==> w.id < nextWorkId)
      && UniqueSectorIds(sectors)
      && UniqueAssignmentIds(assignments) && (forall a :: a in assignments ==> a.id < nextAssignmentId)
      && UniqueWorkSector(assignments) && (forall a :: a in assignments ==> a.workId < nextWorkId)
      && (forall e :: e in executions ==> e.id < nextExecutionId)
    }

    function Snap(): Snapshot
      reads this
    {
      Snapshot(works, sectors, frequencies, workTypes, assignments, executions)
    }

    constructor ()
      ensures Valid()
      ensures works == [] && sectors == [] && roles == [] && frequencies == [] && workTypes == []
      ensures assignments == [] && executions == []
    {
      works, sectors, roles, frequencies, workTypes := [], [], [], [], [];
      assignments, executions := [], [];
      nextWorkId, nextAssignmentId, nextExecutionId := 1, 1, 1;
    }

    /**
     * SaveChanges after a run that only edits assignments and adds executions:
     * the tracked rows are written back and the execution counter moves on.
     */
    method SaveChanges(rows: seq<Assignment>, execs: seq<Execution>, nextExecution: int)
      requires Valid()
      requires UniqueAssignmentIds(rows) && UniqueWorkSector(rows)
      requires forall a :: a in rows ==> a.id < nextAssignmentId && a.workId < nextWorkId
      requires forall e :: e in execs ==> e.id < nextExecution
      modifies this`assignments, this`executions, this`nextExecutionId
      ensures Valid()
      ensures assignments == rows && executions == execs && nextExecutionId == nextExecution
    {
      assignments, executions, nextExecutionId := rows, execs, nextExecution;
    }

    /** Insert of a work row; the identity counter moves past its id. */
    method InsertWork(w: Work)
      requires Valid()
      requires w.id == nextWorkId
      modifies this`works, this`nextWorkId
      ensures Valid()
      ensures works == old(works) + [w] && nextWorkId == old(nextWorkId) + 1
    {
      works := works + [w];
      nextWorkId := nextWorkId + 1;
    }

    /** Removal of every execution and every assignment; the identity counters keep their values. */
    method ClearAssignments()
      requires Valid()
      modifies this`executions, this`assignments
      ensures Valid()
      ensures executions == [] && assignments == []
    {
      executions := [];
      assignments := [];
    }

    /** Insert of an execution row; the identity counter moves past its id. */
    method InsertExecution(e: Execution)
      requires Valid()
      requires e.id == nextExecutionId
      modifies this`executions, this`nextExecutionId
      ensures Valid()
      ensures executions == old(executions) + [e] && nextExecutionId == old(nextExecutionId) + 1
    {
      executions := executions + [e];
      nextExecutionId := nextExecutionId + 1;
    }

    /**
     * The commit of a recorded outcome: the execution row is added and the
     * assignment it belongs to takes `t` as its last execution time.
     */
    method RecordExecution(e: Execution, t: Time)
      requires Valid()
      requires e.id == nextExecutionId
      modifies this`executions, this`nextExecutionId, this`assignments
      ensures Valid()
      ensures executions == old(executions) + [e] && nextExecutionId == old(nextExecutionId) + 1
      ensures assignments == SetLastExec(old(assignments), e.assignmentId, t)
    {
      SetLastExecKeepsKeys(assignments, e.assignmentId, t, nextAssignmentId, nextWorkId);
      var r := SetLastExec(assignments, e.assignmentId, t);
      assignments := r;
      executions := executions + [e];
      nextExecutionId := nextExecutionId + 1;
    }

    /**
     * The loop shared by the two "create assignments" buttons of the admin window
     * and by the assignment generator: for every sector, in the order the table is read (insertion order), that has
     * no assignment of the work yet, add one (saved at once, so that it gets its
     * id) and, when `seedKo` holds and the work type is KO, a placeholder for
     * 08:00 of the next day.
     */
    method AddMissingAssignments(workId: int, freqId: int, roleId: int, workTypeId: int, seedKo: bool, now: Time)
      returns (added: nat)
      requires Valid() && workId < nextWorkId
      modifies this`assignments, this`nextAssignmentId, this`executions, this`nextExecutionId
      ensures Valid()
      ensures added == |MissingSectors(old(assignments), workId, sectors)|
      ensures assignments == old(assignments)
        + Fill(old(nextAssignmentId), workId, freqId, roleId, workTypeId, MissingSectors(old(assignments), workId, sectors))
      ensures nextAssignmentId == old(nextAssignmentId) + added
      ensures nextExecutionId == old(nextExecutionId) + |executions| - |old(executions)|
      ensures executions == old(executions)
        + (if seedKo && workTypeId == KoWorkTypeId
           then Placeholders(old(nextExecutionId), old(nextAssignmentId), added, AddHours(AddDays(Date(now), 1), 8))
           else [])
      ensures forall s :: s in sectors ==> HasAssignmentFor(assignments, workId, s.id)
    {
      var seed := seedKo && workTypeId == KoWorkTypeId;
      var due := AddHours(AddDays(Date(now), 1), 8);
      var secs, base, baseE := sectors, assignments, executions;
      var firstA, firstE := nextAssignmentId, nextExecutionId;
      var rows, execs := base, baseE;
      added := 0;
      var j := 0;
      ghost var missing: seq<int> := [];
      assert secs[..0] == [];
      assert rows == base + Fill(firstA, workId, freqId, roleId, workTypeId, missing);
      assert execs == baseE + (if seed then Placeholders(firstE, firstA, 0, due) else []);
      while j < |secs|
        invariant 0 <= j <= |secs|
        invariant missing == MissingSectors(base, workId, secs[..j])
        invariant added == |missing|
        invariant rows == base + Fill(firstA, workId, freqId, roleId, workTypeId, missing)
        invariant execs == baseE + (if seed then Placeholders(firstE, firstA, added, due) else [])
      {
        missing, rows, execs, added := FillStep(base, baseE, workId, freqId, roleId, workTypeId,
          firstA, firstE, seed, due, secs, j, missing, rows, execs, added);
        j := j + 1;
      }
      assert secs[..j] == secs;
      assert missing == MissingSectors(base, workId, secs);
      FillOutcome(base, workId, freqId, roleId, workTypeId, firstA, secs);
      FillWorkBelow(base, firstA, workId, freqId, roleId, workTypeId, missing, nextWorkId);
      PlaceholderIds(baseE, firstE, firstA, added, due);
      assignments, executions := rows, execs;
      nextAssignmentId := firstA + added;
      nextExecutionId := firstE + (if seed then added else 0);
    }
  }
}
