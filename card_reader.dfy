/**
 * The card reader on the serial port (COMController): received text is cut
 * into lines, each line is matched against the card-id pattern, and the
 * reader raises Detected, Removed, connection-lost and reconnected events.
 */
module CardReader {
  import opened Common

  /** COMControllerParamsModel.COMStates. */
  datatype ComState = NoState | Detected | Removed | ReaderConnecting

  /** COMControllerParamsModel.ErrorCodes. */
  const ComConnectionError: int := 1
  const ComReadingError: int := 2
  const ComReadingSuccessful: int := 3
  const ComReaderConnecting: int := 4

  const ConnectionErrorText: string := "Ошибка подключения к считывателю."
  const ReadingErrorText: string := "Ошибка считывания данных. Возможно, считыватель был отключен."

  /** ReadingDataEventArgs: the card id, the state, an error code and an error text. */
  datatype ReaderEvent = ReaderEvent(cardId: Option<string>, state: ComState, errorCode: int, errorText: Option<string>)

  const ConnectFailed: ReaderEvent := ReaderEvent(None, NoState, ComConnectionError, Some(ConnectionErrorText))
  const ConnectionLost: ReaderEvent := ReaderEvent(None, NoState, ComReadingError, Some(ReadingErrorText))

  // ---------------------------------------------------------------- lines

  /** The index of the first line feed (string.IndexOf). */
  function FirstNewline(s: string): (i: nat)
    requires '\n' in s
    ensures i < |s| && s[i] == '\n' && '\n' !in s[..i]
  {
    if s[0] == '\n' then 0
    else
      var i := FirstNewline(s[1..]);
      assert s[..i + 1] == [s[0]] + s[1..][..i];
      i + 1
  }

  /** The complete lines of a buffer, without their line feeds, and the unterminated rest. */
  datatype Split = Split(lines: seq<string>, rest: string)

  function SplitLines(s: string): (r: Split)
    ensures '\n' !in r.rest
    decreases |s|
  {
    if '\n' !in s then Split([], s)
    else
      var i := FirstNewline(s);
      var tail := SplitLines(s[i + 1..]);
      Split([s[..i]] + tail.lines, tail.rest)
  }

  /** The lines, each followed by its line feed. */
  function Terminated(lines: seq<string>): string {
    if lines == [] then [] else lines[0] + "\n" + Terminated(lines[1..])
  }

  /** Cutting at the first line feed. */
  lemma SplitStep(s: string)
    requires '\n' in s
    ensures var i := FirstNewline(s);
      SplitLines(s) == Split([s[..i]] + SplitLines(s[i + 1..]).lines, SplitLines(s[i + 1..]).rest)
  {
  }

  lemma TerminatedCons(line: string, lines: seq<string>)
    ensures Terminated([line] + lines) == line + "\n" + Terminated(lines)
  {
    assert ([line] + lines)[1..] == lines;
  }

  /** Cutting loses and adds nothing: the terminated lines followed by the rest are the text. */
  lemma {:induction false} SplitConserves(s: string)
    ensures Terminated(SplitLines(s).lines) + SplitLines(s).rest == s
    decreases |s|
  {
    if '\n' in s {
      var i := FirstNewline(s);
      var x, t := s[..i], s[i + 1..];
      SplitStep(s);
      SplitConserves(t);
      var tail := SplitLines(t);
      TerminatedCons(x, tail.lines);
      CutAt(s, i);
      ConcatAssoc(x + "\n", Terminated(tail.lines), tail.rest);
    }
  }

  lemma CutAt(s: string, i: nat)
    requires i < |s| && s[i] == '\n'
    ensures s == s[..i] + "\n" + s[i + 1..]
  {
    assert s == s[..i] + [s[i]] + s[i + 1..];
  }

  lemma {:induction false} CountAt(s: string, i: nat)
    requires i < |s| && s[i] == '\n' && '\n' !in s[..i]
    ensures NewlineCount(s) == 1 + NewlineCount(s[i + 1..])
    decreases i
  {
    if i > 0 {
      assert s[0] == s[..i][0];
      assert s[1..][..i - 1] == s[..i][1..];
      assert s[1..][i..] == s[i + 1..];
      CountAt(s[1..], i - 1);
    }
  }

  lemma ConcatAssoc(a: string, b: string, c: string)
    ensures a + b + c == a + (b + c)
  {
  }

  /** The number of line feeds in a text. */
  function NewlineCount(s: string): nat {
    if s == [] then 0 else (if s[0] == '\n' then 1 else 0) + NewlineCount(s[1..])
  }

  /** There are as many complete lines as line feeds. */
  lemma {:induction false} SplitCount(s: string)
    ensures |SplitLines(s).lines| == NewlineCount(s)
    decreases |s|
  {
    if '\n' in s {
      var t := s[FirstNewline(s) + 1..];
      SplitStepCount(s);
      SplitCount(t);
      CountAt(s, FirstNewline(s));
      assert |SplitLines(s).lines| == 1 + |SplitLines(t).lines| == 1 + NewlineCount(t);
    } else {
      NoNewlineCount(s);
    }
  }

  lemma SplitStepCount(s: string)
    requires '\n' in s
    ensures |SplitLines(s).lines| == 1 + |SplitLines(s[FirstNewline(s) + 1..]).lines|
  {
    SplitStep(s);
  }

  lemma {:induction false} NoNewlineCount(s: string)
    requires '\n' !in s
    ensures NewlineCount(s) == 0
  {
    if s != [] {
      assert forall c :: c in s[1..] ==> c in s;
      NoNewlineCount(s[1..]);
    }
  }

  /** A text without line feeds in front adds none to the count. */
  lemma {:induction false} CountAfterClean(buffer: string, incoming: string)
    requires '\n' !in buffer
    ensures NewlineCount(buffer + incoming) == NewlineCount(incoming)
  {
    if buffer != [] {
      assert (buffer + incoming)[0] == buffer[0];
      assert (buffer + incoming)[1..] == buffer[1..] + incoming;
      assert buffer[0] in buffer;
      assert forall c :: c in buffer[1..] ==> c in buffer;
      CountAfterClean(buffer[1..], incoming);
    } else {
      assert buffer + incoming == incoming;
    }
  }

  /** A remainder without line feeds adds none, so the lines counted are those of the incoming text. */
  lemma ReceivedLineCount(buffer: string, incoming: string)
    requires '\n' !in buffer
    ensures |SplitLines(buffer + incoming).lines| == NewlineCount(incoming)
  {
    SplitCount(buffer + incoming);
    CountAfterClean(buffer, incoming);
  }

  predicate IsLineEnd(c: char) {
    c == '\r' || c == '\n'
  }

  /** Every character of `s` from `lo` up to `hi` is a carriage return or a line feed. */
  predicate LineEndsBetween(s: string, lo: int, hi: int)
    requires 0 <= lo <= hi <= |s|
  {
    forall k :: lo <= k < hi ==> IsLineEnd(s[k])
  }

  /** `s` without its leading line ends: a suffix of `s`, and what it drops is all line ends. */
  function TrimStart(s: string): (r: string)
    ensures |r| <= |s| && r == s[|s| - |r|..]
    ensures LineEndsBetween(s, 0, |s| - |r|)
    ensures r == [] || !IsLineEnd(r[0])
  {
    if s != [] && IsLineEnd(s[0]) then
      var r := TrimStart(s[1..]);
      assert forall k :: 1 <= k < |s| - |r| ==> s[k] == s[1..][k - 1];
      r
    else s
  }

  /** `s` without its trailing line ends: a prefix of `s`, and what it drops is all line ends. */
  function TrimEnd(s: string): (r: string)
    ensures |r| <= |s| && r == s[..|r|]
    ensures LineEndsBetween(s, |r|, |s|)
    ensures r == [] || !IsLineEnd(r[|r| - 1])
  {
    if s != [] && IsLineEnd(s[|s| - 1]) then
      var r := TrimEnd(s[..|s| - 1]);
      assert forall k :: |r| <= k < |s| - 1 ==> s[k] == s[..|s| - 1][k];
      r
    else s
  }

  /**
   * string.Trim('\r', '\n'): carriage returns and line feeds at both ends
   * removed. The result is the infix of `s` that starts at `i`, everything
   * before and after it is a line end, and it neither starts nor ends with one.
   */
  function Trim(s: string): (r: string)
    ensures CutAtLineEnds(s, |s| - |TrimStart(s)|, r)
    ensures r != [] ==> !IsLineEnd(r[0]) && !IsLineEnd(r[|r| - 1])
  {
    var t := TrimStart(s);
    var r := TrimEnd(t);
    TrimParts(s, t, r);
    r
  }

  /** `r` is the infix of `s` that starts at `i`, and everything before and after it is a line end. */
  predicate CutAtLineEnds(s: string, i: int, r: string) {
    0 <= i && i + |r| <= |s| && r == s[i..i + |r|]
    && LineEndsBetween(s, 0, i) && LineEndsBetween(s, i + |r|, |s|)
  }

  /** A prefix `r` of a suffix `t` of `s`, each cut off at line ends only, is an infix of `s` cut off at line ends only. */
  lemma TrimParts(s: string, t: string, r: string)
    requires |t| <= |s| && t == s[|s| - |t|..] && LineEndsBetween(s, 0, |s| - |t|) && (t == [] || !IsLineEnd(t[0]))
    requires |r| <= |t| && r == t[..|r|] && LineEndsBetween(t, |r|, |t|) && (r == [] || !IsLineEnd(r[|r| - 1]))
    ensures CutAtLineEnds(s, |s| - |t|, r)
    ensures r != [] ==> !IsLineEnd(r[0]) && !IsLineEnd(r[|r| - 1])
  {
    var i := |s| - |t|;
    assert r == s[i..i + |r|];
    forall k | i + |r| <= k < |s| ensures IsLineEnd(s[k]) {
      assert s[k] == t[k - i];
    }
    assert r != [] ==> r[0] == t[0];
  }

  /**
   * Trim is the only cut of that kind: any infix of `s` whose outside is all
   * line ends and whose own ends are no line ends (or which is empty) is what Trim gives.
   */
  lemma TrimUnique(s: string, i: int, j: int)
    requires 0 <= i <= j <= |s| && LineEndsBetween(s, 0, i) && LineEndsBetween(s, j, |s|)
    requires i == j || (!IsLineEnd(s[i]) && !IsLineEnd(s[j - 1]))
    ensures Trim(s) == s[i..j]
  {
    var r := Trim(s);
    var i2 := |s| - |TrimStart(s)|;
    var j2 := i2 + |r|;
    if i != j && r != [] {
      assert r[0] == s[i2] && r[|r| - 1] == s[j2 - 1];
    }
  }

  /** A line that neither starts nor ends with a line end is kept as it is. */
  lemma TrimKeepsClean(s: string)
    requires s != [] && !IsLineEnd(s[0]) && !IsLineEnd(s[|s| - 1])
    ensures Trim(s) == s
  {
  }

  function TrimAll(lines: seq<string>): (r: seq<string>)
    ensures |r| == |lines| && forall k :: 0 <= k < |lines| ==> r[k] == Trim(lines[k])
  {
    if lines == [] then [] else [Trim(lines[0])] + TrimAll(lines[1..])
  }

  // ---------------------------------------------------------------- the card-id pattern

  predicate IsDigit(c: char) {
    '0' <= c <= '9'
  }

  /** The end of the run of digits that starts at `i`. */
  function DigitRun(s: string, i: nat): (j: nat)
    requires i <= |s|
    ensures i <= j <= |s| && (j == |s| || !IsDigit(s[j]))
    ensures forall k :: i <= k < j ==> IsDigit(s[k])
    decreases |s| - i
  {
    if i < |s| && IsDigit(s[i]) then DigitRun(s, i + 1) else i
  }

  /**
   * The end of a match of `\d{1,},\d+` starting at `i`. Both runs are greedy,
   * and a shorter first run would be followed by a digit, not a comma, so
   * only the full first run can succeed.
   */
  function MatchAt(s: string, i: nat): (r: Option<nat>)
    requires i <= |s|
    ensures r.Some? ==> i < r.value <= |s|
  {
    var j := DigitRun(s, i);
    if i < j < |s| && s[j] == ',' then
      var k := DigitRun(s, j + 1);
      if k > j + 1 then Some(k) else None
    else None
  }

  /** A card id: digits, a comma, digits. */
  predicate IsCardId(t: string) {
    exists j :: 0 < j < |t| - 1 && t[j] == ',' && AllDigits(t[..j]) && AllDigits(t[j + 1..])
  }

  predicate AllDigits(t: string) {
    forall k :: 0 <= k < |t| ==> IsDigit(t[k])
  }

  lemma MatchIsCardId(s: string, i: nat)
    requires i <= |s| && MatchAt(s, i).Some?
    ensures IsCardId(s[i..MatchAt(s, i).value])
    ensures MatchAt(s, i).value == |s| || !IsDigit(s[MatchAt(s, i).value])
  {
    var j := DigitRun(s, i);
    var e := DigitRun(s, j + 1);
    assert MatchAt(s, i).value == e;
    var t := s[i..e];
    var c := j - i;
    assert t[c] == ',';
    assert t[..c] == s[i..j];
    assert t[c + 1..] == s[j + 1..e];
    assert AllDigits(t[..c]) && AllDigits(t[c + 1..]);
    assert 0 < c < |t| - 1;
  }

  /** The leftmost match at or after `i`: its start and end. */
  function LeftmostMatch(s: string, i: nat): (r: Option<(nat, nat)>)
    requires i <= |s|
    ensures r.Some? ==> i <= r.value.0 < |s| && MatchAt(s, r.value.0) == Some(r.value.1)
    decreases |s| - i
  {
    if i == |s| then None
    else match MatchAt(s, i)
      case Some(k) => Some((i, k))
      case None => LeftmostMatch(s, i + 1)
  }

  /** No match starts before the leftmost one, and none at all when there is none. */
  lemma {:induction false} LeftmostIsFirst(s: string, i: nat)
    requires i <= |s|
    ensures LeftmostMatch(s, i).None? ==> forall k :: i <= k <= |s| ==> MatchAt(s, k).None?
    ensures LeftmostMatch(s, i).Some? ==> forall k :: i <= k < LeftmostMatch(s, i).value.0 ==> MatchAt(s, k).None?
    decreases |s| - i
  {
    if i == |s| {
      assert DigitRun(s, i) == i;
    } else if MatchAt(s, i).None? {
      LeftmostIsFirst(s, i + 1);
      assert LeftmostMatch(s, i) == LeftmostMatch(s, i + 1);
    }
  }

  /** Regex.Match(...).Value: the leftmost match, or the empty string. */
  function CardMatch(s: string): (r: string)
    ensures r != [] ==> IsCardId(r)
  {
    match LeftmostMatch(s, 0)
    case None => []
    case Some((a, b)) => MatchIsCardId(s, a); s[a..b]
  }

  /** The digit run from `i` reaches at least as far as any run of digits from `i`. */
  lemma RunAtLeast(s: string, i: nat, c: nat)
    requires i <= c <= |s| && forall k :: i <= k < c ==> IsDigit(s[k])
    ensures DigitRun(s, i) >= c
  {
  }

  /** Digits of a slice of the line, read back at their places in the line. */
  lemma SliceDigits(s: string, a: nat, c: nat, lo: nat, hi: nat)
    requires a <= c <= |s| && lo <= hi <= c - a
    requires forall k :: lo <= k < hi ==> IsDigit(s[a..c][k])
    ensures forall k :: a + lo <= k < a + hi ==> IsDigit(s[k])
  {
    forall k | a + lo <= k < a + hi ensures IsDigit(s[k]) { assert s[a..c][k - a] == s[k]; }
  }

  /** Digits from `a` to a comma at `j`, then digits up to `c`: the match at `a` runs to `c` or further. */
  lemma MatchAtRuns(s: string, a: nat, j: nat, c: nat)
    requires a < j && j + 1 < c <= |s| && s[j] == ','
    requires forall k :: a <= k < j ==> IsDigit(s[k])
    requires forall k :: j + 1 <= k < c ==> IsDigit(s[k])
    ensures MatchAt(s, a).Some? && MatchAt(s, a).value >= c
  {
    RunReaches(s, a, j);
    RunAtLeast(s, j + 1, c);
  }

  /** The comma of a card id, with digits on both sides of it. */
  lemma CardIdParts(t: string) returns (j: nat)
    requires IsCardId(t)
    ensures 0 < j < |t| - 1 && t[j] == ','
    ensures forall k :: 0 <= k < j ==> IsDigit(t[k])
    ensures forall k :: j + 1 <= k < |t| ==> IsDigit(t[k])
  {
    j :| 0 < j < |t| - 1 && t[j] == ',' && AllDigits(t[..j]) && AllDigits(t[j + 1..]);
    forall k | 0 <= k < j ensures IsDigit(t[k]) { assert t[..j][k] == t[k]; }
    forall k | j + 1 <= k < |t| ensures IsDigit(t[k]) { assert t[j + 1..][k - j - 1] == t[k]; }
  }

  /** A card id that starts at `a` and ends at `c` is matched at `a`, to `c` or further. */
  lemma MatchAtWhenPresent(s: string, a: nat, c: nat)
    requires a < c <= |s| && IsCardId(s[a..c])
    ensures MatchAt(s, a).Some? && MatchAt(s, a).value >= c
  {
    var j := CardIdParts(s[a..c]);
    SliceDigits(s, a, c, 0, j);
    SliceDigits(s, a, c, j + 1, c - a);
    assert s[a + j] == s[a..c][j];
    MatchAtRuns(s, a, a + j, c);
  }

  /**
   * A line that holds a card id anywhere gets a match, starting no later
   * than that card id: the match is never empty when the pattern occurs.
   */
  lemma CardMatchComplete(s: string, a: nat, c: nat)
    requires a < c <= |s| && IsCardId(s[a..c])
    ensures LeftmostMatch(s, 0).Some? && LeftmostMatch(s, 0).value.0 <= a
    ensures CardMatch(s) != []
  {
    MatchAtWhenPresent(s, a, c);
    LeftmostIsFirst(s, 0);
  }

  /** The match is non-empty exactly when some slice of the line is a card id. */
  lemma CardMatchFound(s: string)
    ensures CardMatch(s) != [] <==> exists a: nat, c: nat :: a < c <= |s| && IsCardId(s[a..c])
  {
    if exists a: nat, c: nat :: a < c <= |s| && IsCardId(s[a..c]) {
      var a: nat, c: nat :| a < c <= |s| && IsCardId(s[a..c]);
      CardMatchComplete(s, a, c);
    }
    if CardMatch(s) != [] {
      var m := LeftmostMatch(s, 0).value;
      MatchIsCardId(s, m.0);
      assert IsCardId(s[m.0..m.1]);
    }
  }

  /** A line that is exactly a card id matches as a whole. */
  lemma CardIdMatchesItself(t: string)
    requires IsCardId(t)
    ensures CardMatch(t) == t
  {
    var j :| 0 < j < |t| - 1 && t[j] == ',' && AllDigits(t[..j]) && AllDigits(t[j + 1..]);
    assert forall k :: 0 <= k < j ==> IsDigit(t[k]) by {
      forall k | 0 <= k < j ensures IsDigit(t[k]) { assert t[..j][k] == t[k]; }
    }
    assert forall k :: j < k < |t| ==> IsDigit(t[k]) by {
      forall k | j < k < |t| ensures IsDigit(t[k]) { assert t[j + 1..][k - j - 1] == t[k]; }
    }
    RunReaches(t, 0, j);
    RunReaches(t, j + 1, |t|);
    assert MatchAt(t, 0) == Some(|t|);
  }

  lemma {:induction false} RunReaches(s: string, i: nat, j: nat)
    requires i <= j <= |s| && (j == |s| || !IsDigit(s[j])) && forall k :: i <= k < j ==> IsDigit(s[k])
    ensures DigitRun(s, i) == j
    decreases j - i
  {
    if i < j {
      RunReaches(s, i + 1, j);
    }
  }

  /** A line with no digit at all matches nothing, whatever else it holds. */
  lemma NoDigitNoMatch(s: string)
    requires forall k :: 0 <= k < |s| ==> !IsDigit(s[k])
    ensures CardMatch(s) == []
  {
    forall k | 0 <= k <= |s| ensures MatchAt(s, k).None? {
      assert DigitRun(s, k) == k;
    }
  }

  // ---------------------------------------------------------------- the controller

  class Reader {
    var isReading: bool
    var portOpen: bool
    var buffer: string
    var queue: seq<string>
    /** The locals of the reading task: the last card id reported, and whether the port was lost. */
    var detected: Option<string>
    var connectionError: bool
    /** Every StateChanged event raised, in order. */
    var events: seq<ReaderEvent>

    /** The port is open only while reading; an idle reader holds no text; the buffer holds no complete line. */
    ghost predicate Valid()
      reads this
    {
      && (portOpen ==> isReading)
      && (!isReading ==> queue == [] && buffer == [])
      && '\n' !in buffer
    }

    constructor ()
      ensures Valid() && !isReading && !portOpen && queue == [] && buffer == [] && events == []
    {
      isReading, portOpen, buffer, queue := false, false, [], [];
      detected, connectionError, events := None, false, [];
    }

    /** Text arrives on the open port: the complete lines, trimmed, join the queue; the rest stays buffered. */
    method DataReceived(incoming: string)
      requires Valid()
      modifies this`buffer, this`queue
      ensures Valid()
      ensures !portOpen ==> buffer == old(buffer) && queue == old(queue)
      ensures portOpen ==>
        var split := SplitLines(old(buffer) + incoming);
        buffer == split.rest && queue == old(queue) + TrimAll(split.lines)
      ensures portOpen ==> |queue| == |old(queue)| + NewlineCount(incoming)
    {
      if !portOpen {
        return;
      }
      ReceivedLineCount(buffer, incoming);
      var q, rest := CutLines(queue, buffer + incoming);
      buffer := rest;
      queue := q;
    }

    /** Setting IsReading: starting opens the port or reports the failure, stopping closes it and drops all text. */
    method SetIsReading(value: bool, portOpens: bool)
      requires Valid()
      modifies this
      ensures Valid()
      ensures value == old(isReading) ==>
        isReading == old(isReading) && portOpen == old(portOpen) && buffer == old(buffer) && queue == old(queue)
        && events == old(events) && detected == old(detected) && connectionError == old(connectionError)
      ensures value != old(isReading) ==> queue == [] && buffer == []
      ensures value && !old(isReading) && !portOpens ==>
        !isReading && !portOpen && events == old(events) + [ConnectFailed]
      ensures value && !old(isReading) && portOpens ==>
        isReading && portOpen && events == old(events) && detected.None? && !connectionError
      ensures !value && old(isReading) ==> !isReading && !portOpen && events == old(events)
    {
      if isReading == value {
        return;
      }
      if value {
        if !portOpens {
          isReading, portOpen := false, false;
          queue, buffer := [], [];
          events := events + [ConnectFailed];
        } else {
          isReading, portOpen := true, true;
          detected, connectionError := None, false;
        }
      } else {
        isReading, portOpen := false, false;
        queue, buffer := [], [];
      }
    }

    /** The device goes away while reading. */
    method PortLost()
      requires Valid()
      modifies this`portOpen
      ensures Valid() && !portOpen
    {
      portOpen := false;
    }

    /** One pass of the reconnect loop: the loss is reported and flagged, and opening the port is tried again. */
    method Reconnect(opens: bool)
      requires Valid() && isReading && !portOpen
      modifies this`connectionError, this`events, this`portOpen
      ensures Valid()
      ensures connectionError && events == old(events) + [ConnectionLost] && portOpen == opens
    {
      connectionError := true;
      events := events + [ConnectionLost];
      portOpen := opens;
    }

    /**
     * One pass of the reading loop with the port open: a pending reconnection is
     * reported once with the remembered card id, then one queued line becomes
     * Detected (its card id is remembered) or Removed (the remembered id is forgotten).
     */
    method Poll()
      requires Valid() && isReading && portOpen
      modifies this`connectionError, this`events, this`queue, this`detected
      ensures Valid() && !connectionError
      ensures var reconnected := if old(connectionError)
                                 then [ReaderEvent(old(detected), ReaderConnecting, ComReaderConnecting, None)] else [];
        && (old(queue) == [] ==> queue == [] && events == old(events) + reconnected && detected == old(detected))
        && (old(queue) != [] ==>
              && queue == old(queue)[1..]
              && var m := CardMatch(old(queue)[0]);
                 if m != [] then
                   events == old(events) + reconnected + [ReaderEvent(Some(m), Detected, ComReadingSuccessful, None)]
                   && detected == Some(m)
                 else
                   events == old(events) + reconnected + [ReaderEvent(old(detected), Removed, ComReadingSuccessful, None)]
                   && detected.None?)
    {
      if connectionError {
        connectionError := false;
        events := events + [ReaderEvent(detected, ReaderConnecting, ComReaderConnecting, None)];
      }
      if queue != [] {
        var data := queue[0];
        queue := queue[1..];
        var cardId := CardMatch(data);
        if |cardId| > 0 {
          events := events + [ReaderEvent(Some(cardId), Detected, ComReadingSuccessful, None)];
          detected := Some(cardId);
        } else {
          events := events + [ReaderEvent(detected, Removed, ComReadingSuccessful, None)];
          detected := None;
        }
      }
    }
  }

  /** The framing loop: lines are cut one at a time at the first line feed, trimmed and queued. */
  method CutLines(queue: seq<string>, text: string) returns (q: seq<string>, rest: string)
    ensures q == queue + TrimAll(SplitLines(text).lines) && rest == SplitLines(text).rest
  {
    var b := text;
    q := queue;
    ghost var lines: seq<string> := [];
    while '\n' in b
      invariant CutSoFar(text, lines, b)
      invariant q == queue + TrimAll(lines)
      decreases |b|
    {
      var i := FirstNewline(b);
      var line := b[..i];
      CutOneMore(text, lines, b);
      TrimAllAppend(lines, line);
      var trimmed := Trim(line);
      SeqAssoc(queue, TrimAll(lines), [trimmed]);
      q := q + [trimmed];
      lines := lines + [line];
      b := b[i + 1..];
    }
    CutDone(text, lines, b);
    rest := b;
  }

  /** `lines` have been cut from `text` and `b` is what is left to cut. */
  ghost predicate CutSoFar(text: string, lines: seq<string>, b: string) {
    SplitLines(text) == Split(lines + SplitLines(b).lines, SplitLines(b).rest)
  }

  lemma CutOneMore(text: string, lines: seq<string>, b: string)
    requires CutSoFar(text, lines, b) && '\n' in b
    ensures var i := FirstNewline(b); CutSoFar(text, lines + [b[..i]], b[i + 1..])
  {
    var i := FirstNewline(b);
    SplitStep(b);
    var tail := SplitLines(b[i + 1..]);
    assert lines + ([b[..i]] + tail.lines) == (lines + [b[..i]]) + tail.lines;
  }

  lemma CutDone(text: string, lines: seq<string>, b: string)
    requires CutSoFar(text, lines, b) && '\n' !in b
    ensures SplitLines(text) == Split(lines, b)
  {
    assert lines + [] == lines;
  }

  lemma SeqAssoc(a: seq<string>, b: seq<string>, c: seq<string>)
    ensures a + b + c == a + (b + c)
  {
  }

  lemma TrimAllAppend(lines: seq<string>, line: string)
    ensures TrimAll(lines + [line]) == TrimAll(lines) + [Trim(line)]
  {
  }
}
