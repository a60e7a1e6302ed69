/**
 * The operator service: it listens to the card reader, looks the card up in
 * the employee table, and keeps the operator who is signed in. Every
 * assignment of the current operator raises OnOperatorChanged, which the
 * model records as the sequence of values assigned.
 */
module Operators {
  import opened Common
  import opened EmployeeDirectory
  import opened CardReader
  import opened Records

  /** What a reader event asks of the service. */
  datatype Reaction = SignIn(card: string) | SignOut | Ignore

  /** A detected card with an id signs in; a removed card or a port error signs out; anything else is ignored. */
  function Dispatch(ev: ReaderEvent): (r: Reaction)
    ensures r.SignIn? <==> ev.state == Detected && ev.cardId.Some? && ev.cardId.value != []
    ensures r.SignIn? ==> r.card == ev.cardId.value
    ensures r == SignOut <==> ev.state == Removed || ev.state == NoState
  {
    if ev.state == Detected && ev.cardId.Some? && ev.cardId.value != [] then SignIn(ev.cardId.value)
    else if ev.state == Removed then SignOut
    else if ev.state == NoState then SignOut
    else Ignore
  }

  /** Both port failures the reader reports sign the operator out; its reconnect notice changes nothing. */
  lemma PortFailuresSignOut(cardId: Option<string>)
    ensures Dispatch(ConnectFailed) == SignOut && Dispatch(ConnectionLost) == SignOut
    ensures Dispatch(ReaderEvent(cardId, ReaderConnecting, ComReaderConnecting, None)) == Ignore
    ensures Dispatch(ReaderEvent(cardId, Detected, ComReadingSuccessful, None)).SignIn? <==> cardId.Some? && cardId.value != []
  {
  }

  /**
   * The operator a sign-in with `card` leaves signed in: the record the card
   * lookup yields, provided its personnel number has an operator id.
   */
  function SignedIn(rows: seq<Skud>, card: Option<string>, lookupFault: Option<Fault>, idFault: Option<Fault>): (r: Option<Employee>)
    ensures r.Some? ==> r.value == CardLookup(rows, card, lookupFault)
    ensures r.Some? <==> idFault.None? && OperatorIdOf(rows, CardLookup(rows, card, lookupFault).personnelNumber).Some?
  {
    var e := CardLookup(rows, card, lookupFault);
    if idFault.None? && OperatorIdOf(rows, e.personnelNumber).Some? then Some(e) else None
  }

  /** Only a card on file, read without failure, whose personnel number has an operator id, signs anybody in. */
  lemma SignedInOnFile(rows: seq<Skud>, card: Option<string>, lookupFault: Option<Fault>, idFault: Option<Fault>)
    requires SignedIn(rows, card, lookupFault, idFault).Some?
    ensures lookupFault.None? && idFault.None? && FirstWithCard(rows, card).Some?
    ensures var e := SignedIn(rows, card, lookupFault, idFault).value;
      e.errorCode == ReadingSuccessful && FirstWithTabNumber(rows, e.personnelNumber).Some?
  {
    if lookupFault.Some? || FirstWithCard(rows, card).None? {
      UnknownCardHasNoNumber(rows, card, lookupFault, rows);
    }
  }

  /** An unknown card, or a failing lookup, signs nobody in. */
  lemma UnknownCardSignsNobody(rows: seq<Skud>, card: Option<string>, lookupFault: Option<Fault>, idFault: Option<Fault>)
    requires lookupFault.Some? || FirstWithCard(rows, card).None?
    ensures SignedIn(rows, card, lookupFault, idFault).None?
  {
    UnknownCardHasNoNumber(rows, card, lookupFault, rows);
  }

  class OperatorService {
    const repository: SkudTable
    var currentOperator: Option<Employee>
    /** The value of every OnOperatorChanged notification raised so far. */
    var changes: seq<Option<Employee>>

    ghost predicate Valid()
      reads this, repository
    {
      repository.Valid()
    }

    constructor (repository: SkudTable)
      requires repository.Valid()
      ensures Valid() && this.repository == repository
      ensures currentOperator.None? && changes == []
    {
      this.repository := repository;
      currentOperator := None;
      changes := [];
    }

    /** The CurrentOperator setter: it notifies on every assignment, even of the same value. */
    method SetCurrentOperator(value: Option<Employee>)
      modifies this`currentOperator, this`changes
      ensures currentOperator == value && changes == old(changes) + [value]
    {
      currentOperator := value;
      changes := changes + [value];
    }

    /** The operator id of a personnel number; a failure of the table reads as none. */
    method GetOperatorId(personnelNumber: Option<string>, fault: Option<Fault>) returns (r: Option<int>)
      ensures fault.Some? ==> r.None?
      ensures fault.None? ==> r == OperatorIdOf(repository.rows, personnelNumber)
    {
      var c := repository.GetOperatorId(personnelNumber, fault);
      r := if c.Threw? then None else c.value;
    }

    /**
     * The operator of a card is whatever the table lookup yields. The lookup
     * never yields null, so the fallback to the HR system is never taken.
     */
    method InitializeOperator(card: Option<string>, fault: Option<Fault>)
      requires Valid()
      modifies this`currentOperator, this`changes, repository`rows
      ensures Valid()
      ensures currentOperator == Some(CardLookup(old(repository.rows), card, fault))
      ensures changes == old(changes) + [currentOperator]
      ensures repository.rows == LookupRows(old(repository.rows), card, fault)
      ensures forall pn :: OperatorIdOf(repository.rows, pn) == OperatorIdOf(old(repository.rows), pn)
    {
      var e := repository.GetEmployee(card, fault);
      SetCurrentOperator(Some(e));
    }

    /**
     * The fallback to the HR system: `reply` is its answer, or a failure of
     * the call. A record without an error and with a personnel number is
     * saved and returned; otherwise, or when anything fails, nothing is.
     */
    method FetchAndSaveFrom1C(card: Option<string>, reply: Call<Employee>, saveFault: Option<Fault>) returns (r: Option<Employee>)
      requires Valid()
      modifies repository
      ensures Valid()
      ensures reply.Threw? ==> r.None? && repository.rows == old(repository.rows)
      ensures reply.Returned? && (reply.value.errorCode != 0 || reply.value.personnelNumber.GetOr([]) == []) ==>
        r.None? && repository.rows == old(repository.rows)
      ensures reply.Returned? && reply.value.errorCode == 0 && reply.value.personnelNumber.GetOr([]) != [] ==>
        && (saveFault.Some? ==> r.None? && repository.rows == old(repository.rows))
        && (saveFault.None? ==>
              && r == Some(reply.value)
              && repository.rows == (if FirstWithTabNumber(old(repository.rows), reply.value.personnelNumber).Some? then old(repository.rows)
                                     else old(repository.rows) + [NewRow(old(repository.nextId), reply.value, DetermineRole(reply.value.position))])
              && FirstWithTabNumber(repository.rows, reply.value.personnelNumber).Some?)
      ensures r.Some? ==> r.value.errorCode == 0
    {
      if reply.Threw? {
        return None;
      }
      var employee := reply.value;
      if employee.errorCode == 0 && employee.personnelNumber.GetOr([]) != [] {
        ghost var before := repository.rows;
        var saved := repository.SaveEmployee(employee, saveFault);
        if saved.Threw? {
          return None;
        }
        if FirstWithTabNumber(before, employee.personnelNumber).None? {
          SavedIsOnFile(before, old(repository.nextId), employee, DetermineRole(employee.position));
        }
        return Some(employee);
      }
      return None;
    }

    /**
     * Signing in (`isAuth`) or out. A sign-in sets the operator of the card
     * and keeps it only when its personnel number has an operator id; a
     * sign-out with an operator clears it, whether the id is found, missing
     * or its lookup fails.
     */
    method Authenticate(card: Option<string>, isAuth: bool, lookupFault: Option<Fault>, idFault: Option<Fault>)
      requires Valid()
      modifies this`currentOperator, this`changes, repository`rows
      ensures Valid()
      ensures !isAuth ==> repository.rows == old(repository.rows)
      ensures !isAuth && old(currentOperator).None? ==> currentOperator.None? && changes == old(changes)
      ensures !isAuth && old(currentOperator).Some? ==> currentOperator.None? && changes == old(changes) + [None]
      ensures isAuth ==>
        var e := CardLookup(old(repository.rows), card, lookupFault);
        var signedIn := SignedIn(old(repository.rows), card, lookupFault, idFault);
        && currentOperator == signedIn
        && changes == old(changes) + [Some(e)] + (if signedIn.Some? then [] else [None])
        && repository.rows == LookupRows(old(repository.rows), card, lookupFault)
    {
      var current: Option<Employee>;
      if isAuth {
        InitializeOperator(card, lookupFault);
        current := currentOperator;
        if current.None? {
          return;
        }
      } else {
        current := currentOperator;
        if current.None? {
          return;
        }
      }
      var operatorId := repository.GetOperatorId(current.value.personnelNumber, idFault);
      if operatorId.Threw? {
        SetCurrentOperator(None);
        return;
      }
      if operatorId.value.None? {
        SetCurrentOperator(None);
        return;
      }
      if !isAuth {
        SetCurrentOperator(None);
      }
    }

    /** The reader's StateChanged handler. */
    method OnReaderEvent(ev: ReaderEvent, lookupFault: Option<Fault>, idFault: Option<Fault>)
      requires Valid()
      modifies this`currentOperator, this`changes, repository`rows
      ensures Valid()
      ensures Dispatch(ev) == Ignore ==>
        currentOperator == old(currentOperator) && changes == old(changes) && repository.rows == old(repository.rows)
      ensures Dispatch(ev) == SignOut ==>
        && currentOperator.None? && repository.rows == old(repository.rows)
        && changes == old(changes) + (if old(currentOperator).Some? then [None] else [])
      ensures Dispatch(ev).SignIn? ==>
        var card := Some(ev.cardId.value);
        var signedIn := SignedIn(old(repository.rows), card, lookupFault, idFault);
        && currentOperator == signedIn
        && changes == old(changes) + [Some(CardLookup(old(repository.rows), card, lookupFault))]
             + (if signedIn.Some? then [] else [None])
        && repository.rows == LookupRows(old(repository.rows), card, lookupFault)
    {
      match Dispatch(ev)
      case SignIn(card) =>
        Authenticate(Some(card), true, lookupFault, idFault);
      case SignOut =>
        Authenticate(None, false, lookupFault, idFault);
      case Ignore =>
    }
  }
}
