/**
 * Points in time as the application uses them: a `DateTime` is a whole number of
 * seconds since 0001-01-01 00:00 (the origin of .NET's calendar), `Date` is the
 * midnight that starts its day and `Hour` its hour of the day. The shift clock of
 * the kiosk is defined here too: day shifts start at 08:00, night shifts at 20:00.
 */
module Clock {
  type Time = int

  const SecondsPerHour: int := 3600
  const SecondsPerDay: int := 86400
  const ShiftLength: int := 12 * SecondsPerHour

  /** 1900-01-01 00:00, the "never executed" default of Execution.ExecutionTime. */
  const DefaultExecutionTime: Time := 693595 * SecondsPerDay
  /** 1753-01-01 00:00, the least date an SQL Server `datetime` column accepts. */
  const SqlMinDate: Time := 639905 * SecondsPerDay
  /** 10000-01-01 00:00: every `DateTime` lies strictly before this moment. */
  const TimeLimit: Time := 3652059 * SecondsPerDay

  /** `t.Date`: the midnight at or before `t`. */
  function Date(t: Time): (d: Time)
    ensures d <= t < d + SecondsPerDay
    ensures d % SecondsPerDay == 0
  {
    t - t % SecondsPerDay
  }

  /** `t.Hour`. */
  function Hour(t: Time): (h: int)
    ensures 0 <= h < 24
    ensures Date(t) + h * SecondsPerHour <= t < Date(t) + (h + 1) * SecondsPerHour
  {
    (t % SecondsPerDay) / SecondsPerHour
  }

  function AddDays(t: Time, days: int): Time { t + days * SecondsPerDay }

  function AddHours(t: Time, hours: int): Time { t + hours * SecondsPerHour }

  /** A moment at which a shift starts: 08:00 or 20:00 of some day. */
  predicate IsShiftBoundary(s: Time) {
    s % SecondsPerDay == 8 * SecondsPerHour || s % SecondsPerDay == 20 * SecondsPerHour
  }

  /** A midnight plus less than a day: its remainder and its date. */
  lemma OffsetInDay(d: Time, k: int)
    requires d % SecondsPerDay == 0 && 0 <= k < SecondsPerDay
    ensures (d + k) % SecondsPerDay == k && Date(d + k) == d
  {
    var q := d / SecondsPerDay;
    assert d == q * SecondsPerDay;
    var p, m := (d + k) / SecondsPerDay, (d + k) % SecondsPerDay;
    assert (q - p) * SecondsPerDay == m - k;
    assert q - p == 0;
  }

  /**
   * The start of the shift that contains `now`: today 08:00 between 08:00 and
   * 20:00, yesterday 20:00 before 08:00 and today 20:00 from 20:00 on.
   */
  function ShiftStart(now: Time): Time
  {
    var today := Date(now);
    var hour := Hour(now);
    if 8 <= hour < 20 then AddHours(today, 8)
    else if hour < 8 then AddHours(AddDays(today, -1), 20)
    else AddHours(today, 20)
  }

  /** The shift start is a shift boundary at most one shift before `now`. */
  lemma ShiftStartWindow(now: Time)
    ensures IsShiftBoundary(ShiftStart(now))
    ensures ShiftStart(now) <= now < ShiftStart(now) + ShiftLength
  {
    var today, hour := Date(now), Hour(now);
    if 8 <= hour < 20 {
      OffsetInDay(today, 8 * SecondsPerHour);
    } else if hour < 8 {
      assert (today - SecondsPerDay) % SecondsPerDay == 0;
      OffsetInDay(today - SecondsPerDay, 20 * SecondsPerHour);
    } else {
      OffsetInDay(today, 20 * SecondsPerHour);
    }
  }

  /** Two shift boundaries less than a shift apart are the same moment. */
  lemma BoundariesApart(s: Time, u: Time)
    requires IsShiftBoundary(s) && IsShiftBoundary(u)
    requires s <= u < s + ShiftLength
    ensures s == u
  {
    var ds, du := s / SecondsPerDay, u / SecondsPerDay;
    var z := du - ds;
    assert u - s == z * SecondsPerDay + (u % SecondsPerDay - s % SecondsPerDay);
    assert z <= 0;
    assert z >= 0;
  }

  /**
   * The shift start is the one and only shift boundary at most a shift before
   * `now`: both directions of the characterisation.
   */
  lemma ShiftStartUnique(now: Time, s: Time)
    ensures (IsShiftBoundary(s) && s <= now < s + ShiftLength) <==> s == ShiftStart(now)
  {
    var t := ShiftStart(now);
    ShiftStartWindow(now);
    if IsShiftBoundary(s) && s <= now < s + ShiftLength {
      if s <= t { BoundariesApart(s, t); } else { BoundariesApart(t, s); }
    }
  }

  /** Every moment of a shift maps to the same shift start. */
  lemma SameShift(now: Time, later: Time)
    requires ShiftStart(now) <= later < ShiftStart(now) + ShiftLength
    ensures ShiftStart(later) == ShiftStart(now)
  {
    var s := ShiftStart(now);
    ShiftStartWindow(now);
    assert IsShiftBoundary(s);
    ShiftStartUnique(later, s);
  }

  /** A shift start is its own shift start. */
  lemma ShiftStartIdempotent(now: Time)
    ensures ShiftStart(ShiftStart(now)) == ShiftStart(now)
  {
    SameShift(now, ShiftStart(now));
  }
}
