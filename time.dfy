/**
 * Instants, the caller's closed window, and the UTC calendar date that
 * becomes a record's `event_date` partition key.
 */
module Time {
  import opened Text

  /** An instant as microseconds since 1970-01-01T00:00:00Z, the resolution
      of Python's `datetime`. */
  type Instant = int

  const MicrosPerMilli: int := 1000
  const MicrosPerDay: int := 86_400_000_000

  /** The instant of a traffic alert's `pubMillis` (epoch milliseconds). */
  function FromMillis(ms: int): Instant {
    ms * MicrosPerMilli
  }

  /** The closed interval `[start, end]` given on the command line. */
  datatype Window = Window(start: Instant, end: Instant)

  /** `start_date <= data_evento <= end_date`: both bounds inclusive. */
  predicate InWindow(t: Instant, w: Window) {
    w.start <= t <= w.end
  }

  // ---------------------------------------------------------------------
  // The proleptic Gregorian calendar

  datatype Date = Date(year: int, month: int, day: int)

  predicate IsLeap(y: int) {
    y % 4 == 0 && (y % 100 != 0 || y % 400 == 0)
  }

  function DaysInYear(y: int): int {
    if IsLeap(y) then 366 else 365
  }

  function DaysInMonth(y: int, m: int): int
    requires 1 <= m <= 12
  {
    if m == 2 then (if IsLeap(y) then 29 else 28)
    else if m == 4 || m == 6 || m == 9 || m == 11 then 30
    else 31
  }

  predicate ValidDate(d: Date) {
    1 <= d.month <= 12 && 1 <= d.day <= DaysInMonth(d.year, d.month)
  }

  /** Days of year `y` before the first of month `m`. */
  function DaysBeforeMonth(y: int, m: int): int
    requires 1 <= m <= 12
  {
    var common :=
      if m == 1 then 0 else if m == 2 then 31 else if m == 3 then 59
      else if m == 4 then 90 else if m == 5 then 120 else if m == 6 then 151
      else if m == 7 then 181 else if m == 8 then 212 else if m == 9 then 243
      else if m == 10 then 273 else if m == 11 then 304 else 334;
    if m > 2 && IsLeap(y) then common + 1 else common
  }

  /** Leap years among the years 1..x (a count that extends to x <= 0). */
  function LeapsUpTo(x: int): int {
    x / 4 - x / 100 + x / 400
  }

  /** Days from 1970-01-01 to the first of January of year `y`. */
  function DaysBeforeYear(y: int): int {
    365 * (y - 1970) + LeapsUpTo(y - 1) - LeapsUpTo(1969)
  }

  /** Days from 1970-01-01 to `d`; negative before it. */
  function DayNumber(d: Date): int
    requires 1 <= d.month <= 12
  {
    DaysBeforeYear(d.year) + DaysBeforeMonth(d.year, d.month) + d.day - 1
  }

  /** Consecutive years are `DaysInYear` apart. */
  lemma {:induction false} YearStep(y: int)
    ensures DaysBeforeYear(y + 1) == DaysBeforeYear(y) + DaysInYear(y)
  {
    var a, b, c := Crossed4(y), Crossed100(y), Crossed400(y);
    assert LeapsUpTo(y) - LeapsUpTo(y - 1) == a - b + c;
    Multiples(y);
    assert a - b + c == DaysInYear(y) - 365;
  }

  /** A multiple of 400 is one of 100, and a multiple of 100 one of 4. */
  lemma {:induction false} Multiples(y: int)
    ensures y % 400 == 0 ==> y % 100 == 0
    ensures y % 100 == 0 ==> y % 4 == 0
  {
    if y % 400 == 0 {
      var q := y / 400;
      assert y == 100 * (4 * q);
    }
    if y % 100 == 0 {
      var q := y / 100;
      assert y == 4 * (25 * q);
    }
  }

  /** Whether a multiple of 4 is reached in going from `y - 1` to `y`. */
  function Crossed4(y: int): (r: int)
    ensures r == y / 4 - (y - 1) / 4
  {
    if y % 4 == 0 then 1 else 0
  }

  function Crossed100(y: int): (r: int)
    ensures r == y / 100 - (y - 1) / 100
  {
    if y % 100 == 0 then 1 else 0
  }

  function Crossed400(y: int): (r: int)
    ensures r == y / 400 - (y - 1) / 400
  {
    if y % 400 == 0 then 1 else 0
  }

  /** The date `d` days (from 0) after the first of month `m` of year `y`. */
  function MonthWalk(y: int, m: int, d: int): (r: Date)
    requires 1 <= m <= 12 && 0 <= d < DaysInYear(y) - DaysBeforeMonth(y, m)
    ensures ValidDate(r) && r.year == y
    ensures DaysBeforeMonth(y, r.month) + r.day - 1 == DaysBeforeMonth(y, m) + d
    decreases 12 - m
  {
    if d < DaysInMonth(y, m) then Date(y, m, d + 1)
    else MonthWalk(y, m + 1, d - DaysInMonth(y, m))
  }

  /** The date `n` days (from 0) after the first of January of year `y`. */
  function WalkForward(y: int, n: nat): (r: Date)
    ensures ValidDate(r) && DayNumber(r) == DaysBeforeYear(y) + n
    decreases n
  {
    if n < DaysInYear(y) then MonthWalk(y, 1, n)
    else
      YearStep(y);
      WalkForward(y + 1, n - DaysInYear(y))
  }

  /** The date `-n` days before the first of January of year `y`. */
  function WalkBackward(y: int, n: int): (r: Date)
    requires n < 0
    ensures ValidDate(r) && DayNumber(r) == DaysBeforeYear(y) + n
    decreases -n
  {
    YearStep(y - 1);
    var m := n + DaysInYear(y - 1);
    if m >= 0 then MonthWalk(y - 1, 1, m) else WalkBackward(y - 1, m)
  }

  /** The date `n` days after 1970-01-01 (before it when `n` is negative). */
  function DateOfDay(n: int): Date {
    if n >= 0 then WalkForward(1970, n) else WalkBackward(1970, n)
  }

  /** The UTC calendar date of an instant: `t.date()` of a UTC datetime. */
  function UtcDate(t: Instant): Date {
    DateOfDay(t / MicrosPerDay)
  }

  /**
   * The UTC date of an instant is a real calendar date, and it is the date
   * whose day count from 1970-01-01 is the number of whole days (rounded
   * down) elapsed at that instant: the date changes exactly at UTC midnight.
   */
  lemma {:induction false} UtcDateIsCalendarDay(t: Instant)
    ensures ValidDate(UtcDate(t))
    ensures DayNumber(UtcDate(t)) * MicrosPerDay <= t < (DayNumber(UtcDate(t)) + 1) * MicrosPerDay
  {
    var n := t / MicrosPerDay;
    assert ValidDate(DateOfDay(n)) && DayNumber(DateOfDay(n)) == n;
  }

  // ---------------------------------------------------------------------
  // Rendering: str(date) is "YYYY-MM-DD"

  /** `n` in decimal, left-padded with zeros to `width` digits. */
  function ZeroPad(n: nat, width: nat): (r: string)
    ensures AllDigits(r) && |r| >= width
    ensures |NatToText(n)| <= width ==> |r| == width
  {
    var digits := NatToText(n);
    if |digits| >= width then digits else seq(width - |digits|, _ => '0') + digits
  }

  /** Leading zeros do not change the value of a numeral. */
  lemma {:induction false} LeadingZeros(z: nat, s: string)
    requires AllDigits(s)
    ensures AllDigits(seq(z, _ => '0') + s) && DigitsValue(seq(z, _ => '0') + s) == DigitsValue(s)
    decreases |s|
  {
    var t := seq(z, _ => '0') + s;
    if s == [] {
      assert t == seq(z, _ => '0');
      ZerosValue(z);
    } else {
      assert t[..|t| - 1] == seq(z, _ => '0') + s[..|s| - 1];
      LeadingZeros(z, s[..|s| - 1]);
    }
  }

  lemma {:induction false} ZerosValue(z: nat)
    ensures AllDigits(seq(z, _ => '0')) && DigitsValue(seq(z, _ => '0')) == 0
    decreases z
  {
    if z > 0 {
      assert seq(z, _ => '0')[..z - 1] == seq(z - 1, _ => '0');
      ZerosValue(z - 1);
    }
  }

  /** Reading a zero-padded numeral gives the number back. */
  lemma {:induction false} ZeroPadValue(n: nat, width: nat)
    ensures DigitsValue(ZeroPad(n, width)) == n
  {
    var digits := NatToText(n);
    NatToTextRoundTrip(n);
    if |digits| < width {
      LeadingZeros(width - |digits|, digits);
    }
  }

  /** `str(date)`: the year zero-padded to four digits, month and day to two. */
  function FormatDate(d: Date): (r: string)
    ensures '=' !in r
  {
    var year := if d.year < 0 then "-" + ZeroPad(-d.year, 4) else ZeroPad(d.year, 4);
    var month := ZeroPad(if d.month < 0 then 0 else d.month, 2);
    var day := ZeroPad(if d.day < 0 then 0 else d.day, 2);
    var r := year + "-" + month + "-" + day;
    assert forall k :: 0 <= k < |r| ==> r[k] == '-' || IsDigit(r[k]);
    r
  }

  /**
   * For the years Python's `date` supports, the rendering is ten characters
   * "YYYY-MM-DD" whose three numeric fields read back as year, month and day.
   */
  lemma {:induction false} FormatDateFields(d: Date)
    requires ValidDate(d) && 0 <= d.year <= 9999
    ensures var r := FormatDate(d);
      && |r| == 10 && r[4] == '-' && r[7] == '-'
      && AllDigits(r[..4]) && DigitsValue(r[..4]) == d.year
      && AllDigits(r[5..7]) && DigitsValue(r[5..7]) == d.month
      && AllDigits(r[8..]) && DigitsValue(r[8..]) == d.day
  {
    NatToTextWidth(d.year, 4);
    NatToTextWidth(d.month, 2);
    NatToTextWidth(d.day, 2);
    ZeroPadValue(d.year, 4);
    ZeroPadValue(d.month, 2);
    ZeroPadValue(d.day, 2);
    JoinFields(ZeroPad(d.year, 4), ZeroPad(d.month, 2), ZeroPad(d.day, 2));
  }

  /** The three fields of "YYYY-MM-DD" are where they were put. */
  lemma {:induction false} JoinFields(y: string, m: string, d: string)
    requires |y| == 4 && |m| == 2 && |d| == 2
    ensures var r := y + "-" + m + "-" + d;
      |r| == 10 && r[4] == '-' && r[7] == '-' && r[..4] == y && r[5..7] == m && r[8..] == d
  {
    var r := y + "-" + m + "-" + d;
    assert r[..4] == y;
    assert r[5..7] == m;
    assert r[8..] == d;
  }
}
