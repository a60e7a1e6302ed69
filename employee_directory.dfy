/**
 * The employee repository over the access-control table dic_SKUD
 * (DataAccessLayer): the role an employee's position implies, the
 * synchronisation of a record from the HR system, the lookup by card, the
 * first save of an employee and the operator id of a personnel number.
 */
module EmployeeDirectory {
  import opened Common
  import opened Records

  /** Employee1CModel.ErrorCodes. */
  const UnknownError: int := -1
  const SpecificError: int := 0
  const EmployeeNotFound: int := 1
  const ReadingSuccessful: int := 4

  const NotFoundText: string := "Employee not found in dic_SKUD."
  const DatabaseErrorPrefix: string := "Database error: "
  const UnexpectedErrorPrefix: string := "Unexpected error: "

  /** Employee1CModel: an employee as the HR system or the table reports it, with an error code. */
  datatype Employee = Employee(
    cardNumber: Option<string>, personnelNumber: Option<string>, fullName: Option<string>,
    department: Option<string>, position: Option<string>, errorCode: int, errorText: Option<string>,
    toRoleId: Option<int>)

  /** A failure of the database: an SQL error or any other exception, with its message. */
  datatype Fault = SqlFault(message: string) | OtherFault(message: string)

  /**
   * The SQL error of a statement whose parameter is set to a null reference
   * rather than to DBNull: ADO.NET treats the parameter as not supplied and
   * the server rejects the statement.
   */
  function NotSupplied(parameter: string): Fault {
    SqlFault("The parameterized query expects the parameter '" + parameter + "', which was not supplied.")
  }

  /**
   * The failure of a lookup whose one parameter is `key`: the failure of the
   * connection or the statement if there is one, else the rejection of a null key.
   */
  function KeyFault(key: Option<string>, parameter: string, fault: Option<Fault>): (r: Option<Fault>)
    ensures r.None? <==> fault.None? && key.Some?
    ensures fault.Some? ==> r == fault
    ensures fault.None? && key.None? ==> r == Some(NotSupplied(parameter))
  {
    if fault.Some? then fault else if key.None? then Some(NotSupplied(parameter)) else None
  }

  /** The error record a caught exception becomes. */
  function FaultResult(f: Fault, card: Option<string>, personnelNumber: Option<string>): (r: Employee)
    ensures r.errorCode == (if f.SqlFault? then SpecificError else UnknownError)
    ensures r.cardNumber == card && r.personnelNumber == personnelNumber && r.toRoleId.None?
    ensures r.errorText == Some((if f.SqlFault? then DatabaseErrorPrefix else UnexpectedErrorPrefix) + f.message)
  {
    match f
    case SqlFault(m) => Employee(card, personnelNumber, None, None, None, SpecificError, Some(DatabaseErrorPrefix + m), None)
    case OtherFault(m) => Employee(card, personnelNumber, None, None, None, UnknownError, Some(UnexpectedErrorPrefix + m), None)
  }

  // ---------------------------------------------------------------- roles

  /** Lower case of Latin and Cyrillic capitals (А–Я, and Ѐ–Џ to ѐ–џ); every other character is kept. */
  function LowerChar(c: char): (r: char)
    ensures 'A' <= c <= 'Z' ==> r as int == c as int + 32
    ensures '\U{0410}' <= c <= '\U{042F}' ==> r as int == c as int + 32
    ensures '\U{0400}' <= c <= '\U{040F}' ==> r as int == c as int + 80
    ensures !('A' <= c <= 'Z' || '\U{0400}' <= c <= '\U{042F}') ==> r == c
  {
    if 'A' <= c <= 'Z' || '\U{0410}' <= c <= '\U{042F}' then (c as int + 32) as char
    else if '\U{0400}' <= c <= '\U{040F}' then (c as int + 80) as char
    else c
  }

  function ToLower(s: string): (r: string)
    ensures |r| == |s| && forall i :: 0 <= i < |s| ==> r[i] == LowerChar(s[i])
  {
    seq(|s|, i requires 0 <= i < |s| => LowerChar(s[i]))
  }

  /** A lower-case character has no capital form left. */
  lemma LowerCharIdempotent(c: char)
    ensures LowerChar(LowerChar(c)) == LowerChar(c)
  {
  }

  lemma ToLowerIdempotent(s: string)
    ensures ToLower(ToLower(s)) == ToLower(s)
  {
    forall i | 0 <= i < |s| ensures ToLower(ToLower(s))[i] == ToLower(s)[i] {
      LowerCharIdempotent(s[i]);
    }
  }

  /** `part` occurs in `s` (string.Contains, ordinal). */
  predicate Contains(s: string, part: string) {
    exists i :: 0 <= i <= |s| - |part| && OccursAt(s, part, i)
  }

  predicate OccursAt(s: string, part: string, i: int)
    requires 0 <= i <= |s| - |part|
  {
    s[i..i + |part|] == part
  }

  const Fitter: string := "слесарь"
  const Engineer: string := "инженер"
  const Foreman: string := "мастер"
  const Chief: string := "начальник"
  const Deputy: string := "заместитель"

  /** The position names an engineer, a foreman, a chief or a deputy. */
  predicate IsManagerTitle(lower: string) {
    Contains(lower, Engineer) || Contains(lower, Foreman) || Contains(lower, Chief) || Contains(lower, Deputy)
  }

  /**
   * The role a position implies: none for a missing or empty position, 2 for a
   * fitter (checked first), 4 for a manager, otherwise 1.
   */
  function DetermineRole(position: Option<string>): (r: Option<int>)
    ensures r.None? <==> position.None? || position.value == []
    ensures r.Some? ==> r.value in {1, 2, 4}
    ensures r == Some(2) <==> position.Some? && position.value != [] && Contains(ToLower(position.value), Fitter)
    ensures r == Some(4) <==> position.Some? && position.value != [] && !Contains(ToLower(position.value), Fitter)
                                && IsManagerTitle(ToLower(position.value))
  {
    if position.None? || position.value == [] then None
    else
      var lower := ToLower(position.value);
      if Contains(lower, Fitter) then Some(2)
      else if IsManagerTitle(lower) then Some(4)
      else Some(1)
  }

  /** The classification does not depend on letter case. */
  lemma RoleIgnoresCase(s: string)
    ensures DetermineRole(Some(ToLower(s))) == DetermineRole(Some(s))
  {
    ToLowerIdempotent(s);
  }

  /** Text without capitals is its own lower case. */
  lemma LowerOfLower(s: string)
    requires forall i :: 0 <= i < |s| ==> !('A' <= s[i] <= 'Z' || '\U{0400}' <= s[i] <= '\U{042F}')
    ensures ToLower(s) == s
  {
  }

  /** A few positions of the plant and the role each one gets. */
  lemma FitterExample()
    ensures DetermineRole(Some("слесарь-ремонтник")) == Some(2)
    ensures DetermineRole(Some("")) == None
  {
    var fitter := "слесарь-ремонтник";
    LowerOfLower(fitter);
    assert OccursAt(fitter, Fitter, 0);
  }

  lemma ForemanExample()
    ensures DetermineRole(Some("старший мастер")) == Some(4)
  {
    var foreman := "старший мастер";
    LowerOfLower(foreman);
    assert OccursAt(foreman, Foreman, 8);
    assert !Contains(foreman, Fitter) by {
      forall i | 0 <= i <= |foreman| - |Fitter| ensures !OccursAt(foreman, Fitter, i) {
        assert foreman[i..i + |Fitter|][0] == foreman[i];
        assert foreman[i..i + |Fitter|][1] == foreman[i + 1];
      }
    }
  }

  // ---------------------------------------------------------------- the table

  /** The first row with the personnel number (a NULL number matches no row). */
  function FirstWithTabNumber(rows: seq<Skud>, personnelNumber: Option<string>): (r: Option<Skud>)
    ensures r.Some? ==> r.value in rows && personnelNumber.Some? && r.value.tabNumber == personnelNumber
    ensures r.None? <==> personnelNumber.None? || forall row :: row in rows ==> row.tabNumber != personnelNumber
  {
    if rows == [] || personnelNumber.None? then None
    else if rows[0].tabNumber == personnelNumber then Some(rows[0])
    else FirstWithTabNumber(rows[1..], personnelNumber)
  }

  /** The first row with the card id (a NULL card matches no row). */
  function FirstWithCard(rows: seq<Skud>, card: Option<string>): (r: Option<Skud>)
    ensures r.Some? ==> r.value in rows && card.Some? && r.value.idCard == card
    ensures r.None? <==> card.None? || forall row :: row in rows ==> row.idCard != card
  {
    if rows == [] || card.None? then None
    else if rows[0].idCard == card then Some(rows[0])
    else FirstWithCard(rows[1..], card)
  }

  predicate IdsIncreasing(rows: seq<Skud>) {
    forall i, j :: 0 <= i < j < |rows| ==> rows[i].id < rows[j].id
  }

  /** With ids increasing along the table, the first row with a card is the one of smallest id ("order by id asc"). */
  lemma {:induction false} FirstWithCardSmallest(rows: seq<Skud>, card: Option<string>)
    requires IdsIncreasing(rows) && FirstWithCard(rows, card).Some?
    ensures forall row :: row in rows && row.idCard == card ==> FirstWithCard(rows, card).value.id <= row.id
  {
    if rows[0].idCard != card {
      IncreasingTail(rows);
      FirstWithCardSmallest(rows[1..], card);
      forall row | row in rows && row.idCard == card ensures FirstWithCard(rows, card).value.id <= row.id {
        InTail(rows, row);
      }
    } else {
      HeadSmallest(rows);
    }
  }

  lemma IncreasingTail(rows: seq<Skud>)
    requires IdsIncreasing(rows) && rows != []
    ensures IdsIncreasing(rows[1..])
  {
    forall i, j | 0 <= i < j < |rows[1..]| ensures rows[1..][i].id < rows[1..][j].id {
      assert rows[1..][i] == rows[i + 1] && rows[1..][j] == rows[j + 1];
    }
  }

  lemma InTail(rows: seq<Skud>, row: Skud)
    requires row in rows && row != rows[0]
    ensures row in rows[1..]
  {
    assert rows == [rows[0]] + rows[1..];
  }

  lemma HeadSmallest(rows: seq<Skud>)
    requires IdsIncreasing(rows) && rows != []
    ensures forall row :: row in rows ==> rows[0].id <= row.id
  {
    forall row | row in rows ensures rows[0].id <= row.id {
      var k :| 0 <= k < |rows| && rows[k] == row;
    }
  }

  /** A row as the reader turns it into text: a NULL column reads as the empty string, the role is kept as it is. */
  function ReadRow(row: Skud): (r: Employee)
    ensures r.errorCode == ReadingSuccessful && r.errorText.None?
    ensures r.cardNumber == Some(row.idCard.GetOr([])) && r.personnelNumber == Some(row.tabNumber.GetOr([]))
    ensures r.fullName == Some(row.fio.GetOr([])) && r.department == Some(row.department.GetOr([]))
    ensures r.position == Some(row.employName.GetOr([])) && r.toRoleId == row.toRoleId
    ensures row.tabNumber.Some? ==> r.personnelNumber == row.tabNumber
  {
    Employee(Some(row.idCard.GetOr([])), Some(row.tabNumber.GetOr([])), Some(row.fio.GetOr([])),
             Some(row.department.GetOr([])), Some(row.employName.GetOr([])), ReadingSuccessful, None, row.toRoleId)
  }

  /**
   * The lookup by personnel number: the first row read, nothing, or the
   * error record of a failure. A null number is a failure too: the
   * statement is rejected and the SQL error record is returned.
   */
  function ByPersonnelNumber(rows: seq<Skud>, personnelNumber: Option<string>, fault: Option<Fault>): (r: Option<Employee>)
    ensures fault.Some? ==> r == Some(FaultResult(fault.value, None, personnelNumber))
    ensures fault.None? && personnelNumber.None? ==>
      r == Some(FaultResult(NotSupplied("@TabNumber"), None, None)) && r.value.errorCode == SpecificError
    ensures fault.None? && personnelNumber.Some? ==> (r.None? <==> FirstWithTabNumber(rows, personnelNumber).None?)
    ensures fault.None? && FirstWithTabNumber(rows, personnelNumber).Some? ==>
      r == Some(ReadRow(FirstWithTabNumber(rows, personnelNumber).value))
    ensures r.Some? && r.value.errorCode == ReadingSuccessful <==> fault.None? && FirstWithTabNumber(rows, personnelNumber).Some?
  {
    var f := KeyFault(personnelNumber, "@TabNumber", fault);
    if f.Some? then Some(FaultResult(f.value, None, personnelNumber))
    else match FirstWithTabNumber(rows, personnelNumber)
      case None => None
      case Some(row) => Some(ReadRow(row))
  }

  /** One column of the update statement with the value it sets. */
  datatype Column =
    | IdCardColumn(card: Option<string>)
    | FioColumn(fio: Option<string>)
    | DepartmentColumn(department: Option<string>)
    | EmployNameColumn(position: Option<string>)
    | ToRoleColumn(role: Option<int>)

  function SetColumn(row: Skud, c: Column): Skud {
    match c
    case IdCardColumn(v) => row.(idCard := v)
    case FioColumn(v) => row.(fio := v)
    case DepartmentColumn(v) => row.(department := v)
    case EmployNameColumn(v) => row.(employName := v)
    case ToRoleColumn(v) => row.(toRoleId := v)
  }

  function SetColumns(row: Skud, cs: seq<Column>): (r: Skud)
    decreases |cs|
    ensures r.id == row.id && r.roleId == row.roleId && r.statId == row.statId && r.tabNumber == row.tabNumber
  {
    if cs == [] then row else SetColumns(SetColumn(row, cs[0]), cs[1..])
  }

  /** UPDATE ... WHERE TabNumber = @TabNumber: every row with the number gets the columns. */
  function UpdateWhereTab(rows: seq<Skud>, personnelNumber: Option<string>, cs: seq<Column>): (r: seq<Skud>)
    ensures |r| == |rows|
    ensures forall i :: 0 <= i < |rows| ==>
      r[i] == (if personnelNumber.Some? && rows[i].tabNumber == personnelNumber then SetColumns(rows[i], cs) else rows[i])
  {
    seq(|rows|, i requires 0 <= i < |rows| =>
      if personnelNumber.Some? && rows[i].tabNumber == personnelNumber then SetColumns(rows[i], cs) else rows[i])
  }

  /** UPDATE ... SET TORoleId WHERE idCard = @IdCard: every row with the card gets the role. */
  function UpdateRoleWhereCard(rows: seq<Skud>, card: Option<string>, role: int): (r: seq<Skud>)
    ensures |r| == |rows|
    ensures forall i :: 0 <= i < |rows| ==>
      r[i] == (if card.Some? && rows[i].idCard == card then rows[i].(toRoleId := Some(role)) else rows[i])
  {
    seq(|rows|, i requires 0 <= i < |rows| =>
      if card.Some? && rows[i].idCard == card then rows[i].(toRoleId := Some(role)) else rows[i])
  }

  /** The columns the synchronisation writes for a record that exists, in the order the statement lists them. */
  function UpdateSet(existing: Employee, e: Employee, derived: Option<int>): seq<Column> {
    (if existing.cardNumber != e.cardNumber then [IdCardColumn(e.cardNumber)] else [])
    + (if existing.fullName != e.fullName then [FioColumn(e.fullName)] else [])
    + (if existing.department != e.department then [DepartmentColumn(e.department)] else [])
    + (if existing.position != e.position || existing.toRoleId != derived
       then [EmployNameColumn(e.position), ToRoleColumn(derived)] else [])
  }

  /**
   * The update set holds the card, the name and the department exactly when each
   * differs, the position and the role together exactly when either differs,
   * and is empty exactly when nothing differs.
   */
  lemma UpdateSetColumns(existing: Employee, e: Employee, derived: Option<int>)
    ensures (exists c :: c in UpdateSet(existing, e, derived) && c.IdCardColumn?) <==> existing.cardNumber != e.cardNumber
    ensures (exists c :: c in UpdateSet(existing, e, derived) && c.FioColumn?) <==> existing.fullName != e.fullName
    ensures (exists c :: c in UpdateSet(existing, e, derived) && c.DepartmentColumn?) <==> existing.department != e.department
    ensures (exists c :: c in UpdateSet(existing, e, derived) && c.EmployNameColumn?)
        <==> (exists c :: c in UpdateSet(existing, e, derived) && c.ToRoleColumn?)
    ensures (exists c :: c in UpdateSet(existing, e, derived) && c.ToRoleColumn?)
        <==> existing.position != e.position || existing.toRoleId != derived
    ensures UpdateSet(existing, e, derived) == [] <==>
      existing.cardNumber == e.cardNumber && existing.fullName == e.fullName && existing.department == e.department
      && existing.position == e.position && existing.toRoleId == derived
    ensures forall c :: c in UpdateSet(existing, e, derived) ==>
      c == IdCardColumn(e.cardNumber) || c == FioColumn(e.fullName) || c == DepartmentColumn(e.department)
      || c == EmployNameColumn(e.position) || c == ToRoleColumn(derived)
  {
    var u := UpdateSet(existing, e, derived);
    forall x ensures x in u <==> Written(existing, e, derived, x) {
      UpdateSetMembers(existing, e, derived, x);
    }
    if existing.cardNumber != e.cardNumber { assert Written(existing, e, derived, IdCardColumn(e.cardNumber)); }
    if existing.fullName != e.fullName { assert Written(existing, e, derived, FioColumn(e.fullName)); }
    if existing.department != e.department { assert Written(existing, e, derived, DepartmentColumn(e.department)); }
    if existing.position != e.position || existing.toRoleId != derived {
      assert Written(existing, e, derived, EmployNameColumn(e.position));
      assert Written(existing, e, derived, ToRoleColumn(derived));
    }
  }

  /** The column assignment `x` belongs to the update set. */
  predicate Written(existing: Employee, e: Employee, derived: Option<int>, x: Column) {
    || (x == IdCardColumn(e.cardNumber) && existing.cardNumber != e.cardNumber)
    || (x == FioColumn(e.fullName) && existing.fullName != e.fullName)
    || (x == DepartmentColumn(e.department) && existing.department != e.department)
    || ((x == EmployNameColumn(e.position) || x == ToRoleColumn(derived))
        && (existing.position != e.position || existing.toRoleId != derived))
  }

  lemma UpdateSetMembers(existing: Employee, e: Employee, derived: Option<int>, x: Column)
    ensures x in UpdateSet(existing, e, derived) <==> Written(existing, e, derived, x)
  {
    var a := if existing.cardNumber != e.cardNumber then [IdCardColumn(e.cardNumber)] else [];
    var b := if existing.fullName != e.fullName then [FioColumn(e.fullName)] else [];
    var c := if existing.department != e.department then [DepartmentColumn(e.department)] else [];
    var d := if existing.position != e.position || existing.toRoleId != derived
             then [EmployNameColumn(e.position), ToRoleColumn(derived)] else [];
    assert UpdateSet(existing, e, derived) == a + b + c + d;
    assert x in a + b + c + d <==> x in a || x in b || x in c || x in d;
  }

  /** The update set the synchronisation builds column by column. */
  method BuildUpdateSet(existing: Employee, e: Employee, derived: Option<int>) returns (updates: seq<Column>)
    ensures updates == UpdateSet(existing, e, derived)
  {
    updates := [];
    if existing.cardNumber != e.cardNumber {
      updates := updates + [IdCardColumn(e.cardNumber)];
    }
    if existing.fullName != e.fullName {
      updates := updates + [FioColumn(e.fullName)];
    }
    if existing.department != e.department {
      updates := updates + [DepartmentColumn(e.department)];
    }
    if existing.position != e.position || existing.toRoleId != derived {
      updates := updates + [EmployNameColumn(e.position)];
      updates := updates + [ToRoleColumn(derived)];
    }
  }

  /**
   * The record the lookup by card yields: the error record of a failure (a
   * null card is one: the statement is rejected), the not-found record with
   * the card, or the row read, with the role derived from the position when
   * the row has none.
   */
  function CardLookup(rows: seq<Skud>, card: Option<string>, fault: Option<Fault>): (r: Employee)
    ensures fault.Some? ==> r == FaultResult(fault.value, card, None)
    ensures fault.None? && card.None? ==> r == FaultResult(NotSupplied("@IdCard"), None, None) && r.errorCode == SpecificError
    ensures fault.None? && card.Some? && FirstWithCard(rows, card).None? ==>
      r == Employee(card, None, None, None, None, EmployeeNotFound, Some(NotFoundText), None)
    ensures fault.None? && FirstWithCard(rows, card).Some? ==>
      var row := FirstWithCard(rows, card).value;
      && r.errorCode == ReadingSuccessful && r.errorText.None?
      && r.cardNumber == card && r.personnelNumber == Some(row.tabNumber.GetOr([]))
      && r.fullName == Some(row.fio.GetOr([])) && r.department == Some(row.department.GetOr([]))
      && r.position == Some(row.employName.GetOr([]))
      && r.toRoleId == (if row.toRoleId.Some? then row.toRoleId else DetermineRole(Some(row.employName.GetOr([]))))
    ensures r.errorCode == ReadingSuccessful <==> fault.None? && FirstWithCard(rows, card).Some?
  {
    var f := KeyFault(card, "@IdCard", fault);
    if f.Some? then FaultResult(f.value, card, None)
    else match FirstWithCard(rows, card)
      case None => Employee(card, None, None, None, None, EmployeeNotFound, Some(NotFoundText), None)
      case Some(row) =>
        var read := ReadRow(row);
        if read.toRoleId.None? then read.(toRoleId := DetermineRole(read.position)) else read
  }

  /** Only a card on file yields a personnel number; a failure or an unknown card yields none. */
  lemma UnknownCardHasNoNumber(rows: seq<Skud>, card: Option<string>, fault: Option<Fault>, others: seq<Skud>)
    requires fault.Some? || FirstWithCard(rows, card).None?
    ensures CardLookup(rows, card, fault).personnelNumber.None?
    ensures OperatorIdOf(others, CardLookup(rows, card, fault).personnelNumber).None?
  {
  }

  /** The row the insert statements add. */
  function NewRow(id: int, e: Employee, role: Option<int>): Skud {
    Skud(id, e.cardNumber, e.personnelNumber, e.fullName, e.department, e.position, None, None, role)
  }

  /** The id of the first row with the personnel number (ExecuteScalar), if any. */
  function OperatorIdOf(rows: seq<Skud>, personnelNumber: Option<string>): (r: Option<int>)
    ensures r.Some? <==> FirstWithTabNumber(rows, personnelNumber).Some?
    ensures r.Some? ==> exists row :: row in rows && row.id == r.value && row.tabNumber == personnelNumber
  {
    match FirstWithTabNumber(rows, personnelNumber)
    case None => None
    case Some(row) => Some(row.id)
  }

  /** Tables that agree on every row's id and personnel number give the same operator ids. */
  lemma {:induction false} SameNumbersSameIds(a: seq<Skud>, b: seq<Skud>, personnelNumber: Option<string>)
    requires |a| == |b| && forall i :: 0 <= i < |a| ==> a[i].tabNumber == b[i].tabNumber && a[i].id == b[i].id
    ensures OperatorIdOf(a, personnelNumber) == OperatorIdOf(b, personnelNumber)
    decreases |a|
  {
    if a != [] && personnelNumber.Some? && a[0].tabNumber != personnelNumber {
      SameNumbersSameIds(a[1..], b[1..], personnelNumber);
    }
  }

  /** Writing a role back leaves every operator id as it was. */
  lemma RoleUpdateKeepsOperatorIds(rows: seq<Skud>, card: Option<string>, role: int, personnelNumber: Option<string>)
    ensures OperatorIdOf(UpdateRoleWhereCard(rows, card, role), personnelNumber) == OperatorIdOf(rows, personnelNumber)
  {
    SameNumbersSameIds(UpdateRoleWhereCard(rows, card, role), rows, personnelNumber);
  }

  /** Once saved, a personnel number is on file, so a second save inserts nothing. */
  lemma SavedIsOnFile(rows: seq<Skud>, id: int, e: Employee, role: Option<int>)
    requires e.personnelNumber.Some?
    ensures FirstWithTabNumber(rows + [NewRow(id, e, role)], e.personnelNumber).Some?
    ensures OperatorIdOf(rows + [NewRow(id, e, role)], e.personnelNumber).Some?
  {
    assert NewRow(id, e, role) in rows + [NewRow(id, e, role)];
  }

  /** After the derived role is written back, the next lookup by the card reads it and derives nothing. */
  lemma RolePersisted(rows: seq<Skud>, card: Option<string>, role: int)
    requires FirstWithCard(rows, card).Some?
    ensures FirstWithCard(UpdateRoleWhereCard(rows, card, role), card)
         == Some(FirstWithCard(rows, card).value.(toRoleId := Some(role)))
  {
    var updated := UpdateRoleWhereCard(rows, card, role);
    if rows[0].idCard != card {
      assert updated[1..] == UpdateRoleWhereCard(rows[1..], card, role);
      RolePersisted(rows[1..], card, role);
    }
  }

  /**
   * The table after a lookup by card: the derived role written back to the
   * rows of the card when the row found had none, the table unchanged
   * otherwise. No operator id moves.
   */
  function LookupRows(rows: seq<Skud>, card: Option<string>, fault: Option<Fault>): (r: seq<Skud>)
    ensures |r| == |rows|
    ensures forall pn :: OperatorIdOf(r, pn) == OperatorIdOf(rows, pn)
  {
    var e := CardLookup(rows, card, fault);
    if fault.None? && FirstWithCard(rows, card).Some? && FirstWithCard(rows, card).value.toRoleId.None? && e.toRoleId.Some?
    then
      var updated := UpdateRoleWhereCard(rows, card, e.toRoleId.value);
      assert forall pn :: OperatorIdOf(updated, pn) == OperatorIdOf(rows, pn) by {
        forall pn ensures OperatorIdOf(updated, pn) == OperatorIdOf(rows, pn) {
          RoleUpdateKeepsOperatorIds(rows, card, e.toRoleId.value, pn);
        }
      }
      updated
    else rows
  }

  /** The dic_SKUD table with its identity counter. */
  class SkudTable {
    var rows: seq<Skud>
    var nextId: int

    ghost predicate Valid()
      reads this
    {
      IdsIncreasing(rows) && forall row :: row in rows ==> row.id < nextId
    }

    constructor ()
      ensures Valid() && rows == []
    {
      rows, nextId := [], 1;
    }

    method Insert(e: Employee, role: Option<int>)
      requires Valid()
      modifies this
      ensures Valid()
      ensures rows == old(rows) + [NewRow(old(nextId), e, role)] && nextId == old(nextId) + 1
    {
      rows := rows + [NewRow(nextId, e, role)];
      nextId := nextId + 1;
    }

    /** `fault`: the connection or a statement fails; the table then stays as it was. */
    method SyncEmployee(e: Employee, lookupFault: Option<Fault>, fault: Option<Fault>) returns (r: Employee)
      requires Valid()
      modifies this
      ensures Valid()
      ensures e.errorCode != 0 ==> r == e && rows == old(rows)
      ensures e.errorCode == 0 && fault.Some? ==>
        r == FaultResult(fault.value, e.cardNumber, e.personnelNumber) && rows == old(rows)
      ensures e.errorCode == 0 && fault.None? && lookupFault.None? && e.personnelNumber.None? ==>
        r.errorCode == SpecificError && rows == old(rows)
      ensures e.errorCode == 0 && fault.None? ==>
        var existing := ByPersonnelNumber(old(rows), e.personnelNumber, lookupFault);
        var derived := DetermineRole(e.position);
        && (existing.Some? && existing.value.errorCode != ReadingSuccessful ==> r == existing.value && rows == old(rows))
        && (existing.None? ==>
              r == e.(toRoleId := derived, errorCode := ReadingSuccessful)
              && rows == old(rows) + [NewRow(old(nextId), e, derived)])
        && (existing.Some? && existing.value.errorCode == ReadingSuccessful ==>
              && r == e.(toRoleId := if derived.Some? then derived else existing.value.toRoleId, errorCode := ReadingSuccessful)
              && var updates := UpdateSet(existing.value, e, derived);
                 rows == (if updates == [] then old(rows) else UpdateWhereTab(old(rows), e.personnelNumber, updates)))
    {
      if e.errorCode != 0 {
        return e;
      }
      if fault.Some? {
        return FaultResult(fault.value, e.cardNumber, e.personnelNumber);
      }
      var existing := ByPersonnelNumber(rows, e.personnelNumber, lookupFault);
      if existing.Some? && existing.value.errorCode != ReadingSuccessful {
        return existing.value;
      }
      var derived := DetermineRole(e.position);
      if existing.None? {
        Insert(e, derived);
        return e.(toRoleId := derived, errorCode := ReadingSuccessful);
      }
      var updates := BuildUpdateSet(existing.value, e, derived);
      if updates != [] {
        var updated := UpdateWhereTab(rows, e.personnelNumber, updates);
        UpdateKeepsIds(rows, e.personnelNumber, updates, nextId);
        rows := updated;
      }
      r := e.(toRoleId := if derived.Some? then derived else existing.value.toRoleId, errorCode := ReadingSuccessful);
    }

    /** The lookup by card; it never yields null, and a derived role is written back when there is one. A null card fails before anything is read. */
    method GetEmployee(card: Option<string>, fault: Option<Fault>) returns (r: Employee)
      requires Valid()
      modifies this`rows
      ensures Valid()
      ensures r == CardLookup(old(rows), card, fault)
      ensures rows == (if fault.None? && FirstWithCard(old(rows), card).Some?
                          && FirstWithCard(old(rows), card).value.toRoleId.None? && r.toRoleId.Some?
                       then UpdateRoleWhereCard(old(rows), card, r.toRoleId.value) else old(rows))
    {
      var f := KeyFault(card, "@IdCard", fault);
      if f.Some? {
        return FaultResult(f.value, card, None);
      }
      var found := FirstWithCard(rows, card);
      if found.None? {
        return Employee(card, None, None, None, None, EmployeeNotFound, Some(NotFoundText), None);
      }
      r := ReadRow(found.value);
      if r.toRoleId.None? {
        r := r.(toRoleId := DetermineRole(r.position));
        if r.toRoleId.Some? {
          RoleUpdateKeepsIds(rows, card, r.toRoleId.value, nextId);
          rows := UpdateRoleWhereCard(rows, card, r.toRoleId.value);
        }
      }
    }

    /** The first save of an employee: nothing is inserted when the personnel number is already on file. */
    method SaveEmployee(e: Employee, fault: Option<Fault>) returns (r: Call<()>)
      requires Valid()
      modifies this
      ensures Valid()
      ensures fault.Some? ==> r == Threw && rows == old(rows)
      ensures fault.None? ==> r == Returned(())
      ensures fault.None? && FirstWithTabNumber(old(rows), e.personnelNumber).Some? ==> rows == old(rows)
      ensures fault.None? && FirstWithTabNumber(old(rows), e.personnelNumber).None? ==>
        rows == old(rows) + [NewRow(old(nextId), e, DetermineRole(e.position))]
    {
      if fault.Some? {
        return Threw;
      }
      if FirstWithTabNumber(rows, e.personnelNumber).None? {
        Insert(e, DetermineRole(e.position));
      }
      return Returned(());
    }

    /** The operator id of a personnel number; a failure is thrown to the caller. */
    method GetOperatorId(personnelNumber: Option<string>, fault: Option<Fault>) returns (r: Call<Option<int>>)
      ensures fault.Some? <==> r.Threw?
      ensures r.Returned? ==> r.value == OperatorIdOf(rows, personnelNumber)
    {
      if fault.Some? {
        return Threw;
      }
      return Returned(OperatorIdOf(rows, personnelNumber));
    }
  }

  lemma UpdateKeepsIds(rows: seq<Skud>, personnelNumber: Option<string>, cs: seq<Column>, nextId: int)
    requires IdsIncreasing(rows) && forall row :: row in rows ==> row.id < nextId
    ensures var r := UpdateWhereTab(rows, personnelNumber, cs);
      IdsIncreasing(r) && forall row :: row in r ==> row.id < nextId
  {
    var r := UpdateWhereTab(rows, personnelNumber, cs);
    IncreasingKept(rows, r, nextId);
  }

  lemma RoleUpdateKeepsIds(rows: seq<Skud>, card: Option<string>, role: int, nextId: int)
    requires IdsIncreasing(rows) && forall row :: row in rows ==> row.id < nextId
    ensures var r := UpdateRoleWhereCard(rows, card, role);
      IdsIncreasing(r) && forall row :: row in r ==> row.id < nextId
  {
    var r := UpdateRoleWhereCard(rows, card, role);
    IncreasingKept(rows, r, nextId);
  }

  /** A row-wise update that keeps the ids keeps them increasing. */
  lemma IncreasingKept(before: seq<Skud>, after: seq<Skud>, nextId: int)
    requires IdsIncreasing(before) && forall row :: row in before ==> row.id < nextId
    requires |after| == |before| && forall i :: 0 <= i < |before| ==> after[i].id == before[i].id
    ensures IdsIncreasing(after) && forall row :: row in after ==> row.id < nextId
  {
    forall row | row in after ensures row.id < nextId {
      var k :| 0 <= k < |after| && after[k] == row;
      assert before[k] in before;
    }
  }
}
