/**
 * JavaScript's `Date` restricted to what the client does with it: the local
 * constructor `new Date(y, m, d)` and the getters `getFullYear`, `getMonth`,
 * `getDate`, `getDay`. A `Date` holds a time value; every date the client
 * builds is a local midnight, so its time value is fixed by its day number
 * and the getters read back the calendar date of that day. This is exact for
 * a host on UTC, and elsewhere away from the range limits and from days the
 * host's time zone skips.
 */
module JsDates {
  import opened CivilDates
  import opened Numbers
  import opened Strings

  /** Time values are limited to 8.64e15 ms either side of the epoch: 1e8 days. */
  const MaxDays: int := 100_000_000

  type ValidDate = d: Date | IsValid(d) witness Date(1970, 1, 1)

  /** A `Date` object: an invalid date (time value NaN), or local midnight of the day with number `day`. */
  datatype JsDate = InvalidDate | LocalDate(day: int)

  /** The `Date` object for local midnight of a valid date. */
  function DateOn(c: ValidDate): JsDate {
    LocalDate(Ordinal(c))
  }

  /** `getFullYear()`, `getMonth() + 1` and `getDate()` of a valid `Date` object, as one date. */
  function CalendarDate(v: JsDate): (c: ValidDate)
    requires v.LocalDate?
    ensures Ordinal(c) == v.day
  {
    FromOrdinal(v.day)
  }

  /** The getters of the `Date` object for a valid date read back that date. */
  lemma CalendarDateOn(c: ValidDate)
    ensures CalendarDate(DateOn(c)) == c
  {
    FromOrdinalOfOrdinal(c);
  }

  /** The constructor's two-digit-year rule: years 0..99 mean 1900..1999. */
  function FullYear(y: int): int {
    if 0 <= y <= 99 then 1900 + y else y
  }

  /**
   * ECMAScript's MakeDay: the month index is normalised first (floor division
   * by 12), then the day is counted from the first of that month, so any day
   * number, zero and negative ones included, rolls over into neighbouring months.
   */
  function MakeDay(y: int, monthIndex: int, day: int): int {
    DayNumber(y + monthIndex / 12, monthIndex % 12 + 1, day)
  }

  /** TimeClip on local midnight of day `n`, with the range taken on the local day as on a UTC host. */
  function FromDayNumber(n: int): JsDate {
    if -MaxDays <= n <= MaxDays then LocalDate(n) else InvalidDate
  }

  /** `new Date(y, monthIndex, day)` with integer arguments. */
  function NewDate(y: int, monthIndex: int, day: int): JsDate {
    FromDayNumber(MakeDay(FullYear(y), monthIndex, day))
  }

  /**
   * `new Date(y, monthIndex, day)` with number arguments: a non-finite
   * argument gives an invalid date, finite ones are truncated toward zero.
   */
  function NewDateOf(y: Number, monthIndex: Number, day: Number): JsDate {
    if y.Finite? && monthIndex.Finite? && day.Finite? then
      NewDate(Trunc(y.value), Trunc(monthIndex.value), Trunc(day.value))
    else InvalidDate
  }

  /** With finite arguments the constructor truncates each of them. */
  lemma NewDateOfFinite(y: Number, monthIndex: Number, day: Number)
    requires y.Finite? && monthIndex.Finite? && day.Finite?
    ensures NewDateOf(y, monthIndex, day) == NewDate(Trunc(y.value), Trunc(monthIndex.value), Trunc(day.value))
  {
  }

  /** Finite arguments that truncate to `monthIndex` and `day` build the date of those integers. */
  lemma NewDateOfTruncated(y: Number, m: Number, d: Number, monthIndex: int, day: int)
    requires y.Finite? && m.Finite? && d.Finite? && Trunc(m.value) == monthIndex && Trunc(d.value) == day
    ensures NewDateOf(y, m, d) == NewDate(Trunc(y.value), monthIndex, day)
  {
    NewDateCongruence(Trunc(y.value), Trunc(m.value), Trunc(d.value), Trunc(y.value), monthIndex, day);
  }

  lemma NewDateCongruence(y: int, mi: int, d: int, y': int, mi': int, d': int)
    requires y == y' && mi == mi' && d == d'
    ensures NewDate(y, mi, d) == NewDate(y', mi', d')
  {
  }

  /** Adding `i` to the day argument moves the date `i` days on. */
  lemma NewDateShift(y: int, monthIndex: int, day: int, i: int)
    ensures NewDate(y, monthIndex, day + i) == FromDayNumber(MakeDay(FullYear(y), monthIndex, day) + i)
  {
    MakeDayShift(FullYear(y), monthIndex, day, i);
  }

  /** The day argument of MakeDay counts days: adding `i` to it adds `i` to the day number. */
  lemma MakeDayShift(y: int, monthIndex: int, day: int, i: int)
    ensures MakeDay(y, monthIndex, day + i) == MakeDay(y, monthIndex, day) + i
  {
  }

  /** The constructor reads a two-digit year as a year of the 1900s. */
  lemma NewDateTwoDigitYear(y: int, monthIndex: int, day: int)
    requires 0 <= y <= 99
    ensures NewDate(y, monthIndex, day) == NewDate(1900 + y, monthIndex, day)
  {
  }

  /** A valid local date in the time-value range is found again from its own components. */
  lemma NewDateOfComponents(c: ValidDate)
    requires !(0 <= c.year <= 99) && -MaxDays <= Ordinal(c) <= MaxDays
    ensures NewDate(c.year, c.month - 1, c.day) == DateOn(c)
  {
    MakeDayOfDate(c);
  }

  /** The day number of a date is that of its components, month index 0-based. */
  lemma MakeDayOfDate(c: ValidDate)
    ensures MakeDay(c.year, c.month - 1, c.day) == Ordinal(c)
  {
    assert (c.month - 1) / 12 == 0 && (c.month - 1) % 12 == c.month - 1;
  }

  const MsPerDay: int := 86_400_000

  /** The year field of `toISOString()`: four digits for years 0..9999, otherwise a sign and six. */
  function IsoYear(y: int): (s: string)
    ensures s != [] && (IsDigit(s[0]) <==> 0 <= y <= 9999)
    ensures forall i :: 0 <= i < |s| ==> IsDigit(s[i]) || s[i] == '-' || s[i] == '+'
  {
    if 0 <= y <= 9999 then ZeroPad(y, 4)
    else (if y < 0 then "-" else "+") + ZeroPad(if y < 0 then -y else y, 6)
  }

  lemma IsoYearInjective(a: int, b: int)
    requires IsoYear(a) == IsoYear(b)
    ensures a == b
  {
    var s := IsoYear(a);
    if !(0 <= a <= 9999) {
      assert (s[0] == '-') == (a < 0) == (b < 0);
      assert s[1..] == ZeroPad(if a < 0 then -a else a, 6) == ZeroPad(if b < 0 then -b else b, 6);
    }
  }

  /** A valid date written as `toISOString()` writes its calendar part: year, month and day joined by `-`. */
  function IsoDate(c: Date): (s: string)
    requires IsValid(c)
    ensures |s| >= 7 && 'T' !in s
    ensures IsDigit(s[0]) || s[0] == '-' || s[0] == '+'
  {
    var y, m, d := IsoYear(c.year), ZeroPad(c.month, 2), ZeroPad(c.day, 2);
    var s := y + "-" + m + "-" + d;
    assert forall i :: 0 <= i < |s| ==> IsDigit(s[i]) || s[i] == '-' || s[i] == '+' by {
      forall i | 0 <= i < |s| ensures IsDigit(s[i]) || s[i] == '-' || s[i] == '+' {
        if i < |y| {
        } else if |y| < i < |y| + 3 {
          assert s[i] == m[i - |y| - 1];
        } else if i > |y| + 3 {
          assert s[i] == d[i - |y| - 4];
        }
      }
    }
    s
  }

  /** Distinct dates are written differently. */
  lemma IsoDateInjective(c1: Date, c2: Date)
    requires IsValid(c1) && IsValid(c2) && IsoDate(c1) == IsoDate(c2)
    ensures c1 == c2
  {
    IsoDateParts(c1);
    IsoDateParts(c2);
    assert DecimalValue(ZeroPad(c1.day, 2)) == DecimalValue(ZeroPad(c2.day, 2));
    assert DecimalValue(ZeroPad(c1.month, 2)) == DecimalValue(ZeroPad(c2.month, 2));
    IsoYearInjective(c1.year, c2.year);
  }

  /** Where the fields of a written date sit, counted from its end. */
  lemma IsoDateParts(c: Date)
    requires IsValid(c)
    ensures var s := IsoDate(c);
      && s[|s| - 2..] == ZeroPad(c.day, 2)
      && s[|s| - 5..|s| - 3] == ZeroPad(c.month, 2)
      && s[..|s| - 6] == IsoYear(c.year)
  {
    assert |ZeroPad(c.month, 2)| == 2 && |ZeroPad(c.day, 2)| == 2;
  }

  /** The calendar part of `toISOString()` for time value `t`: its UTC date. */
  function IsoDay(t: int): (s: string)
    ensures |s| >= 7 && 'T' !in s
    ensures IsDigit(s[0]) || s[0] == '-' || s[0] == '+'
  {
    IsoDate(FromOrdinal(t / MsPerDay))
  }

  /** The time part of `toISOString()`: UTC hours, minutes, seconds and milliseconds, then `Z`. */
  function IsoTime(t: int): string {
    var ms := t % MsPerDay;
    ZeroPad(ms / 3_600_000, 2) + ":" + ZeroPad(ms / 60_000 % 60, 2) + ":"
      + ZeroPad(ms / 1000 % 60, 2) + "." + ZeroPad(ms % 1000, 3) + "Z"
  }

  /** `toISOString()` for time value `t`. */
  function IsoString(t: int): string {
    IsoDay(t) + "T" + IsoTime(t)
  }

  /** `toISOString().split('T')[0]` is the calendar part. */
  lemma IsoDayOfIsoString(t: int)
    ensures Split(IsoString(t), 'T')[0] == IsoDay(t)
  {
    assert IsoString(t) == IsoDay(t) + ['T'] + IsoTime(t);
    SplitAfterPiece(IsoDay(t), IsoTime(t), 'T');
  }

  /** Two time values have the same calendar part exactly when they fall on the same UTC day. */
  lemma IsoDayInjective(t1: int, t2: int)
    ensures IsoDay(t1) == IsoDay(t2) <==> t1 / MsPerDay == t2 / MsPerDay
  {
    if IsoDay(t1) == IsoDay(t2) {
      IsoDateInjective(FromOrdinal(t1 / MsPerDay), FromOrdinal(t2 / MsPerDay));
    }
  }

  /** `getDay()`: Sunday = 0 .. Saturday = 6 for a valid date. */
  function GetDay(c: ValidDate): (w: nat)
    ensures w < 7
  {
    Weekday(c)
  }
}
