/**
 * The calendar page: the key of a date, the set of day keys highlighted as a
 * predicted period, the month grid, and month-by-month navigation.
 */
module Calendar {
  import opened Wrappers
  import opened Strings
  import opened Numbers
  import opened CivilDates
  import opened JsDates

  // ---------------------------------------------------------------- date keys

  /**
   * `dateKey(date)`: the full year, the 1-based month and the day of the
   * month, month and day padded to two digits, joined by '-'. An invalid
   * date gives NaN for every component.
   */
  function DateKey(d: JsDate): string {
    match d
    case InvalidDate => "NaN-NaN-NaN"
    case LocalDate(_) =>
      var c := CalendarDate(d);
      IntToString(c.year) + "-" + Pad2(c.month) + "-" + Pad2(c.day)
  }

  /** The key of a valid date's `Date` object is written from that date's own components. */
  lemma DateKeyOn(c: ValidDate)
    ensures DateKey(DateOn(c)) == IntToString(c.year) + "-" + Pad2(c.month) + "-" + Pad2(c.day)
  {
    CalendarDateOn(c);
  }

  /**
   * Reads a key back: the year before the third-last '-', then two-digit
   * month and day. Nothing else is accepted.
   */
  function ParseDateKey(k: string): Option<(int, int, int)> {
    if |k| < 7 || k[|k| - 6] != '-' || k[|k| - 3] != '-'
       || !AllDigits(k[|k| - 5..|k| - 3]) || !AllDigits(k[|k| - 2..]) then None
    else
      match ParseInt(k[..|k| - 6])
      case None => None
      case Some(y) => Some((y, DecimalValue(k[|k| - 5..|k| - 3]), DecimalValue(k[|k| - 2..])))
  }

  /**
   * The key of a valid date holds its year, 1-based month and day, padded to
   * two digits, and reads back to them; the invalid date's key reads back to nothing.
   */
  lemma DateKeyRoundTrip(d: JsDate)
    ensures d.LocalDate? ==> (var c := CalendarDate(d);
      |DateKey(d)| >= 7 && ParseDateKey(DateKey(d)) == Some((c.year, c.month, c.day)))
    ensures d.LocalDate? ==>
      (var k, c := DateKey(d), CalendarDate(d);
       && k[..|k| - 6] == IntToString(c.year)
       && k[|k| - 5..|k| - 3] == Pad2(c.month)
       && k[|k| - 2..] == Pad2(c.day))
    ensures d.InvalidDate? ==> ParseDateKey(DateKey(d)).None?
  {
    if d.LocalDate? {
      var c := CalendarDate(d);
      Pad2OfSmall(c.month);
      Pad2OfSmall(c.day);
      var k, ys := DateKey(d), IntToString(c.year);
      assert k[..|k| - 6] == ys;
      assert k[|k| - 5..|k| - 3] == Pad2(c.month);
      assert k[|k| - 2..] == Pad2(c.day);
      ParseIntOfIntToString(c.year);
    } else {
      assert ParseInt(DateKey(d)[..5]) == None;
    }
  }

  /** Different dates have different keys, and no valid date has the invalid date's key. */
  lemma DateKeyInjective(a: JsDate, b: JsDate)
    requires DateKey(a) == DateKey(b)
    ensures a == b
  {
    DateKeyRoundTrip(a);
    DateKeyRoundTrip(b);
  }

  // ---------------------------------------------------------- predicted dates

  /**
   * A prediction record as far as the calendar reads it. `estimnatedStart`
   * is the misspelled field the client also accepts; `estimatedEnd` is
   * carried but never read.
   */
  datatype Prediction = Prediction(
    periodNumber: Option<int>,
    estimatedStart: Option<string>,
    estimnatedStart: Option<string>,
    estimatedEnd: Option<string>)

  /** The `predictions` argument: something that is not an array, or an array of records (None: null entries). */
  datatype Predictions = NotAnArray | Items(records: seq<Option<Prediction>>)

  /** `p?.estimated_start ?? p?.estimnated_start`. */
  function StartString(p: Option<Prediction>): Option<string> {
    match p
    case None => None
    case Some(r) => Coalesce(r.estimatedStart, r.estimnatedStart)
  }

  /** `Number` of the i-th piece of a split string; a missing piece is `undefined`, which is NaN. */
  function Component(parts: seq<string>, i: nat): Number {
    if i < |parts| then StringToNumber(parts[i]) else NaN
  }

  /** `startStr.split('-').map(Number)`, kept only when none of the first three is NaN. */
  function Components(s: string): Option<(Number, Number, Number)> {
    var parts := Split(s, '-');
    NoneIfNaN(Component(parts, 0), Component(parts, 1), Component(parts, 2))
  }

  /** The three numbers, or None when one of them is NaN. */
  function NoneIfNaN(y: Number, m: Number, d: Number): Option<(Number, Number, Number)> {
    if y.NaN? || m.NaN? || d.NaN? then None else Some((y, m, d))
  }

  /** The pieces of a string split at '-' never convert to negative numbers. */
  lemma ComponentsNonNegative(s: string)
    requires Components(s).Some?
    ensures var (y, m, d) := Components(s).value;
      && (y.Finite? ==> y.value >= 0.0) && (m.Finite? ==> m.value >= 0.0) && (d.Finite? ==> d.value >= 0.0)
  {
    var parts := Split(s, '-');
    StringToNumberWithoutMinus(parts[0]);
    if 1 < |parts| { StringToNumberWithoutMinus(parts[1]); }
    if 2 < |parts| { StringToNumberWithoutMinus(parts[2]); }
  }

  /** The year, month and day numbers of a record that is not skipped. */
  function StartComponents(p: Option<Prediction>): Option<(Number, Number, Number)> {
    match StartString(p)
    case None => None
    case Some(s) => if s == "" then None else Components(s)
  }

  /** `new Date(y, m - 1, d + i)`: the i-th day of a record's window. */
  function WindowDay(y: Number, m: Number, d: Number, i: int): JsDate {
    NewDateOf(y, AddInt(m, -1), AddInt(d, i))
  }

  /** The keys `key(0)`, ..., `key(count - 1)`, added one after the other. */
  function FirstKeys<T>(key: int -> T, count: nat): set<T> {
    if count == 0 then {} else FirstKeys(key, count - 1) + {key(count - 1)}
  }

  lemma {:induction false} FirstKeysMember<T>(key: int -> T, count: nat, k: T)
    ensures k in FirstKeys(key, count) <==> exists i :: 0 <= i < count && key(i) == k
  {
    if count > 0 {
      FirstKeysMember(key, count - 1, k);
    }
  }

  /** Keys that are pairwise different make a set of `count` elements. */
  lemma {:induction false} FirstKeysCount<T>(key: int -> T, count: nat)
    requires forall i, j :: 0 <= i < j < count ==> key(i) != key(j)
    ensures |FirstKeys(key, count)| == count
  {
    if count > 0 {
      FirstKeysCount(key, count - 1);
      FirstKeysMember(key, count - 1, key(count - 1));
    }
  }

  /** The key of the i-th day of a window. */
  function WindowKey(y: Number, m: Number, d: Number): int -> string {
    i => DateKey(WindowDay(y, m, d, i))
  }

  /** The keys of the first `count` days of a window. */
  function WindowKeys(y: Number, m: Number, d: Number, count: nat): set<string> {
    FirstKeys(WindowKey(y, m, d), count)
  }

  lemma WindowKeysMember(y: Number, m: Number, d: Number, count: nat, k: string)
    ensures k in WindowKeys(y, m, d, count) <==> exists i :: 0 <= i < count && DateKey(WindowDay(y, m, d, i)) == k
  {
    var key := WindowKey(y, m, d);
    FirstKeysMember(key, count, k);
    if k in WindowKeys(y, m, d, count) {
      var i :| 0 <= i < count && key(i) == k;
      assert DateKey(WindowDay(y, m, d, i)) == k;
    }
    if exists i :: 0 <= i < count && DateKey(WindowDay(y, m, d, i)) == k {
      var i :| 0 <= i < count && DateKey(WindowDay(y, m, d, i)) == k;
      assert key(i) == k;
    }
  }

  /** The keys one record adds to the set: its start day and the five days after it. */
  function RecordKeys(p: Option<Prediction>): set<string> {
    match StartComponents(p)
    case None => {}
    case Some(c) => WindowKeys(c.0, c.1, c.2, 6)
  }

  /** The union of `f` over the elements of `xs`, taken left to right. */
  function UnionOf<T, U>(xs: seq<T>, f: T -> set<U>): set<U> {
    if xs == [] then {} else UnionOf(xs[..|xs| - 1], f) + f(xs[|xs| - 1])
  }

  lemma {:induction false} UnionOfMember<T, U>(xs: seq<T>, f: T -> set<U>, u: U)
    ensures u in UnionOf(xs, f) <==> exists j :: 0 <= j < |xs| && u in f(xs[j])
  {
    if xs != [] {
      var init := xs[..|xs| - 1];
      UnionOfMember(init, f, u);
      if u in UnionOf(init, f) {
        var j :| 0 <= j < |init| && u in f(init[j]);
        assert xs[j] == init[j];
      }
    }
  }

  /** The keys all records add. */
  function PredictedDates(ps: seq<Option<Prediction>>): set<string> {
    UnionOf(ps, RecordKeys)
  }

  function PredictedDateSet(predictions: Predictions): set<string> {
    match predictions
    case NotAnArray => {}
    case Items(ps) => PredictedDates(ps)
  }

  /** `getPredictedDateSet(predictions)`. */
  method GetPredictedDateSet(predictions: Predictions) returns (dates: set<string>)
    ensures dates == PredictedDateSet(predictions)
  {
    dates := {};
    if predictions.NotAnArray? {
      return;
    }
    var ps := predictions.records;
    var j := 0;
    while j < |ps|
      invariant 0 <= j <= |ps|
      invariant dates == PredictedDates(ps[..j])
    {
      PredictedDatesStep(ps, j);
      var startStr := StartString(ps[j]);
      if startStr.Some? && startStr.value != "" {
        var parts := Split(startStr.value, '-');
        var y, m, d := Component(parts, 0), Component(parts, 1), Component(parts, 2);
        if !(y.NaN? || m.NaN? || d.NaN?) {
          assert StartComponents(ps[j]) == Some((y, m, d));
          assert RecordKeys(ps[j]) == WindowKeys(y, m, d, 6);
          dates := AddWindow(dates, y, m, d);
        } else {
          assert RecordKeys(ps[j]) == {};
        }
      } else {
        assert RecordKeys(ps[j]) == {};
      }
      j := j + 1;
    }
    assert ps[..j] == ps;
  }

  /** One more record adds its window to the keys of the records before it. */
  lemma PredictedDatesStep(ps: seq<Option<Prediction>>, j: nat)
    requires j < |ps|
    ensures PredictedDates(ps[..j + 1]) == PredictedDates(ps[..j]) + RecordKeys(ps[j])
  {
    assert ps[..j + 1][..j] == ps[..j];
  }

  /** The body of the loop for one record: the start date, then the five days after it. */
  method AddWindow(dates: set<string>, y: Number, m: Number, d: Number) returns (r: set<string>)
    ensures r == dates + WindowKeys(y, m, d, 6)
  {
    AddWindowStep(dates, dates, y, m, d, 0);
    r := dates + {DateKey(WindowDay(y, m, d, 0))};
    var i := 1;
    while i <= 5
      invariant 1 <= i <= 6
      invariant r == dates + WindowKeys(y, m, d, i)
    {
      AddWindowStep(dates, r, y, m, d, i);
      r := r + {DateKey(WindowDay(y, m, d, i))};
      i := i + 1;
    }
  }

  /** Adding the key of day i to the keys of the days before it gives the keys of the first i + 1 days. */
  lemma AddWindowStep(dates: set<string>, r: set<string>, y: Number, m: Number, d: Number, i: nat)
    requires r == dates + WindowKeys(y, m, d, i)
    ensures r + {DateKey(WindowDay(y, m, d, i))} == dates + WindowKeys(y, m, d, i + 1)
  {
    assert WindowKey(y, m, d)(i) == DateKey(WindowDay(y, m, d, i));
  }

  /** A key is in the set exactly when some record's window holds it. */
  lemma PredictedDatesMember(ps: seq<Option<Prediction>>, k: string)
    ensures k in PredictedDates(ps) <==> exists j :: 0 <= j < |ps| && k in RecordKeys(ps[j])
  {
    UnionOfMember(ps, RecordKeys, k);
  }

  /**
   * The set depends only on which records occur: reordering the records,
   * repeating one, or dropping a repeat leaves it unchanged.
   */
  lemma PredictedDatesOrderFree(ps: seq<Option<Prediction>>, qs: seq<Option<Prediction>>)
    requires forall r :: r in ps <==> r in qs
    ensures PredictedDates(ps) == PredictedDates(qs)
  {
    forall k | k in PredictedDates(ps) ensures k in PredictedDates(qs) {
      PredictedDatesMember(ps, k);
      var j :| 0 <= j < |ps| && k in RecordKeys(ps[j]);
      assert ps[j] in qs;
      var j' :| 0 <= j' < |qs| && qs[j'] == ps[j];
      PredictedDatesMember(qs, k);
    }
    forall k | k in PredictedDates(qs) ensures k in PredictedDates(ps) {
      PredictedDatesMember(qs, k);
      var j :| 0 <= j < |qs| && k in RecordKeys(qs[j]);
      assert qs[j] in ps;
      var j' :| 0 <= j' < |ps| && ps[j'] == qs[j];
      PredictedDatesMember(ps, k);
    }
  }

  /** A null record, a record without a start, or one with an empty start adds nothing; the end date is never read. */
  lemma RecordWithoutStart(p: Option<Prediction>, end: Option<string>)
    ensures StartString(p).None? || StartString(p) == Some("") ==> RecordKeys(p) == {}
    ensures p.Some? ==> RecordKeys(Some(p.value.(estimatedEnd := end))) == RecordKeys(p)
  {
  }

  /** The day number `new Date(y, m - 1, d)` stands for, when all three are finite. */
  function WindowStart(y: Number, m: Number, d: Number): int
    requires y.Finite? && m.Finite? && d.Finite?
  {
    MakeDay(FullYear(Trunc(y.value)), Trunc(m.value - 1.0), Trunc(d.value))
  }

  /** The start of a record's window as a day number, when its components are finite. */
  function RecordStart(p: Option<Prediction>): Option<int> {
    match StartComponents(p)
    case Some((y, m, d)) =>
      if y.Finite? && m.Finite? && d.Finite? then Some(WindowStart(y, m, d)) else None
    case None => None
  }

  /**
   * The key of a date from the year 100 on splits back into its year, month
   * and day, so a record whose start is such a key starts its window on that
   * very date.
   */
  lemma ComponentsOfDateKey(c: ValidDate)
    requires c.year >= 100
    ensures Components(DateKey(DateOn(c))) == Some((Finite(c.year as real), Finite(c.month as real), Finite(c.day as real)))
  {
    DateKeyOn(c);
    ComponentsOfKeyText(c);
  }

  /** The same, stated on the text of the key. */
  lemma ComponentsOfKeyText(c: ValidDate)
    requires c.year >= 100
    ensures Components(IntToString(c.year) + "-" + Pad2(c.month) + "-" + Pad2(c.day))
         == Some((Finite(c.year as real), Finite(c.month as real), Finite(c.day as real)))
  {
    var ys, ms, ds := NatToString(c.year), Pad2(c.month), Pad2(c.day);
    Pad2OfSmall(c.month);
    Pad2OfSmall(c.day);
    DecimalValueOfNatToString(c.year);
    assert IntToString(c.year) + "-" + Pad2(c.month) + "-" + Pad2(c.day) == ys + "-" + ms + "-" + ds;
    ComponentsOfDigits(ys, ms, ds);
  }

  /** Three runs of digits joined by '-' give their three decimal values. */
  lemma ComponentsOfDigits(a: string, b: string, c: string)
    requires AllDigits(a) && AllDigits(b) && AllDigits(c) && a != [] && b != [] && c != []
    ensures Components(a + "-" + b + "-" + c)
      == Some((Finite(DecimalValue(a) as real), Finite(DecimalValue(b) as real), Finite(DecimalValue(c) as real)))
  {
    DigitsWithoutDash(a);
    DigitsWithoutDash(b);
    DigitsWithoutDash(c);
    ComponentsOfPieces(a, b, c);
    StringToNumberOfDigits(a);
    StringToNumberOfDigits(b);
    StringToNumberOfDigits(c);
  }

  /** Three pieces without '-' joined by '-' give the numbers of the three pieces. */
  lemma ComponentsOfPieces(a: string, b: string, c: string)
    requires '-' !in a && '-' !in b && '-' !in c
    ensures Components(a + "-" + b + "-" + c) == NoneIfNaN(StringToNumber(a), StringToNumber(b), StringToNumber(c))
  {
    SplitThree(a, b, c);
  }

  lemma DigitsWithoutDash(t: string)
    requires AllDigits(t)
    ensures '-' !in t
  {
  }

  lemma SplitThree(a: string, b: string, c: string)
    requires '-' !in a && '-' !in b && '-' !in c
    ensures Split(a + "-" + b + "-" + c, '-') == [a, b, c]
  {
    assert a + "-" + b + "-" + c == a + ['-'] + (b + ['-'] + c);
    SplitAfterPiece(a, b + ['-'] + c, '-');
    SplitAfterPiece(b, c, '-');
  }

  lemma RecordStartOfDateKey(p: Option<Prediction>, c: ValidDate)
    requires c.year >= 100 && StartString(p) == Some(DateKey(DateOn(c)))
    ensures RecordStart(p) == Some(Ordinal(c))
  {
    ComponentsOfDateKey(c);
    DateKeyRoundTrip(DateOn(c));
    RecordStartOfComponents(p, DateKey(DateOn(c)), c);
  }

  lemma RecordStartOfComponents(p: Option<Prediction>, k: string, c: ValidDate)
    requires c.year >= 100 && StartString(p) == Some(k) && k != ""
    requires Components(k) == Some((Finite(c.year as real), Finite(c.month as real), Finite(c.day as real)))
    ensures RecordStart(p) == Some(Ordinal(c))
  {
    var (y, m, d) := (Finite(c.year as real), Finite(c.month as real), Finite(c.day as real));
    assert StartComponents(p) == Some((y, m, d));
    WindowStartOfDate(c);
  }

  /** The window of a record whose components are a date's year, month and day starts on that date. */
  lemma WindowStartOfDate(c: ValidDate)
    requires c.year >= 100
    ensures WindowStart(Finite(c.year as real), Finite(c.month as real), Finite(c.day as real)) == Ordinal(c)
  {
    WindowStartOfIntegers(c.year, c.month, c.day);
    MakeDayOfDate(c);
  }

  /** Finite components that are whole numbers are taken as they are. */
  lemma WindowStartOfIntegers(y: int, m: int, d: int)
    ensures WindowStart(Finite(y as real), Finite(m as real), Finite(d as real)) == MakeDay(FullYear(y), m - 1, d)
  {
    assert m as real - 1.0 == (m - 1) as real;
    TruncOfInt(y);
    TruncOfInt(m - 1);
    TruncOfInt(d);
  }

  lemma TruncOfInt(n: int)
    ensures Trunc(n as real) == n
  {
  }

  lemma TruncShift(r: real, i: nat)
    requires r >= 0.0
    ensures Trunc(r + i as real) == Trunc(r) + i
  {
  }

  /** With a finite month and a non-negative day, the shifted arguments truncate to the shifted integers. */
  lemma WindowArguments(m: Number, d: Number, i: nat)
    requires m.Finite? && d.Finite? && d.value >= 0.0
    ensures AddInt(m, -1).Finite? && Trunc(AddInt(m, -1).value) == Trunc(m.value - 1.0)
    ensures AddInt(d, i).Finite? && Trunc(AddInt(d, i).value) == Trunc(d.value) + i
  {
    assert AddInt(m, -1).value == m.value - 1.0;
    TruncShift(d.value, i);
  }

  /** With finite components and a non-negative day, the i-th window day is the date i days after the start. */
  lemma WindowDayIsOffset(y: Number, m: Number, d: Number, i: nat)
    requires y.Finite? && m.Finite? && d.Finite? && d.value >= 0.0
    ensures WindowDay(y, m, d, i) == FromDayNumber(WindowStart(y, m, d) + i)
  {
    WindowDayTruncated(y, m, d, i);
    NewDateShift(Trunc(y.value), Trunc(m.value - 1.0), Trunc(d.value), i);
    WindowStartOfArguments(y, m, d);
  }

  /** With finite components and a non-negative day, the i-th window day is built from the truncated components. */
  lemma WindowDayTruncated(y: Number, m: Number, d: Number, i: nat)
    requires y.Finite? && m.Finite? && d.Finite? && d.value >= 0.0
    ensures WindowDay(y, m, d, i) == NewDate(Trunc(y.value), Trunc(m.value - 1.0), Trunc(d.value) + i)
  {
    WindowArguments(m, d, i);
    NewDateOfTruncated(y, AddInt(m, -1), AddInt(d, i), Trunc(m.value - 1.0), Trunc(d.value) + i);
    WindowDayOfArguments(y, m, d, i);
  }

  lemma WindowDayOfArguments(y: Number, m: Number, d: Number, i: int)
    ensures WindowDay(y, m, d, i) == NewDateOf(y, AddInt(m, -1), AddInt(d, i))
  {
  }

  lemma WindowStartOfArguments(y: Number, m: Number, d: Number)
    requires y.Finite? && m.Finite? && d.Finite?
    ensures WindowStart(y, m, d) == MakeDay(FullYear(Trunc(y.value)), Trunc(m.value - 1.0), Trunc(d.value))
  {
  }

  /** The date with day number `n`. */
  function DateAt(n: int): (c: ValidDate)
    ensures Ordinal(c) == n
  {
    FromOrdinal(n)
  }

  /** The i-th date of a window that starts at day number `n`. */
  function WindowDate(n: int, i: int): (c: ValidDate)
    ensures Ordinal(c) == n + i
  {
    DateAt(n + i)
  }

  /** The six days of a window are consecutive, each the day after the one before. */
  lemma WindowConsecutive(n: int)
    ensures forall i :: 0 <= i < 5 ==> WindowDate(n, i + 1) == NextDay(WindowDate(n, i))
  {
    forall i | 0 <= i < 5 ensures WindowDate(n, i + 1) == NextDay(WindowDate(n, i)) {
      NextDayOrdinal(WindowDate(n, i));
      OrdinalInjective(WindowDate(n, i + 1), NextDay(WindowDate(n, i)));
    }
  }

  /** In range, the i-th key of a finite window is the key of the i-th date from its start. */
  lemma WindowKeyAt(y: Number, m: Number, d: Number, i: nat)
    requires y.Finite? && m.Finite? && d.Finite? && d.value >= 0.0
    requires -MaxDays <= WindowStart(y, m, d) && WindowStart(y, m, d) + 5 <= MaxDays
    requires i < 6
    ensures WindowKey(y, m, d)(i) == DateKey(DateOn(WindowDate(WindowStart(y, m, d), i)))
  {
    var n := WindowStart(y, m, d);
    WindowDayIsOffset(y, m, d, i);
    assert WindowDay(y, m, d, i) == LocalDate(n + i) == DateOn(WindowDate(n, i));
  }

  /** In range, the keys of a finite window are the keys of its six dates. */
  lemma WindowKeysInRange(y: Number, m: Number, d: Number)
    requires y.Finite? && m.Finite? && d.Finite? && d.value >= 0.0
    requires -MaxDays <= WindowStart(y, m, d) && WindowStart(y, m, d) + 5 <= MaxDays
    ensures forall k :: k in WindowKeys(y, m, d, 6)
              <==> exists i :: 0 <= i < 6 && DateKey(DateOn(WindowDate(WindowStart(y, m, d), i))) == k
  {
    var n, key := WindowStart(y, m, d), WindowKey(y, m, d);
    forall k ensures k in WindowKeys(y, m, d, 6) <==> exists i :: 0 <= i < 6 && DateKey(DateOn(WindowDate(n, i))) == k {
      FirstKeysMember(key, 6, k);
      if k in WindowKeys(y, m, d, 6) {
        var i :| 0 <= i < 6 && key(i) == k;
        WindowKeyAt(y, m, d, i);
      }
      if exists i :: 0 <= i < 6 && DateKey(DateOn(WindowDate(n, i))) == k {
        var i :| 0 <= i < 6 && DateKey(DateOn(WindowDate(n, i))) == k;
        WindowKeyAt(y, m, d, i);
      }
    }
  }

  /** In range, a finite window has six different keys. */
  lemma WindowKeysCount(y: Number, m: Number, d: Number)
    requires y.Finite? && m.Finite? && d.Finite? && d.value >= 0.0
    requires -MaxDays <= WindowStart(y, m, d) && WindowStart(y, m, d) + 5 <= MaxDays
    ensures |WindowKeys(y, m, d, 6)| == 6
  {
    var n, key := WindowStart(y, m, d), WindowKey(y, m, d);
    forall i, j | 0 <= i < j < 6 ensures key(i) != key(j) {
      WindowKeyAt(y, m, d, i);
      WindowKeyAt(y, m, d, j);
      if key(i) == key(j) {
        DateKeyInjective(DateOn(WindowDate(n, i)), DateOn(WindowDate(n, j)));
      }
    }
    FirstKeysCount(key, 6);
  }

  /**
   * A record whose start converts to finite components adds the keys of the
   * six consecutive days from its start, rolling over month and year ends.
   */
  lemma RecordWindow(p: Option<Prediction>)
    requires RecordStart(p).Some?
    requires -MaxDays <= RecordStart(p).value && RecordStart(p).value + 5 <= MaxDays
    ensures forall k :: k in RecordKeys(p)
              <==> exists i :: 0 <= i < 6 && DateKey(DateOn(WindowDate(RecordStart(p).value, i))) == k
    ensures |RecordKeys(p)| == 6
  {
    var (y, m, d) := StartComponents(p).value;
    ComponentsNonNegative(StartString(p).value);
    WindowKeysInRange(y, m, d);
    WindowKeysCount(y, m, d);
  }

  /** A record with an infinite component (such as "Infinity") marks only the invalid date's key. */
  lemma RecordWithInfiniteComponent(p: Option<Prediction>)
    requires StartComponents(p).Some? && RecordStart(p).None?
    ensures RecordKeys(p) == {"NaN-NaN-NaN"}
  {
    var (y, m, d) := StartComponents(p).value;
    forall k ensures k in WindowKeys(y, m, d, 6) <==> k == "NaN-NaN-NaN" {
      WindowKeysMember(y, m, d, 6, k);
      assert DateKey(WindowDay(y, m, d, 0)) == "NaN-NaN-NaN";
    }
  }

  lemma WindowMarks(y: Number, m: Number, d: Number, c: ValidDate)
    requires y.Finite? && m.Finite? && d.Finite? && d.value >= 0.0
    requires -MaxDays <= Ordinal(c) <= MaxDays
    ensures DateKey(DateOn(c)) in WindowKeys(y, m, d, 6)
        <==> WindowStart(y, m, d) <= Ordinal(c) < WindowStart(y, m, d) + 6
  {
    var k, n := DateKey(DateOn(c)), WindowStart(y, m, d);
    WindowKeysMember(y, m, d, 6, k);
    if k in WindowKeys(y, m, d, 6) {
      var i :| 0 <= i < 6 && DateKey(WindowDay(y, m, d, i)) == k;
      DateKeyInjective(WindowDay(y, m, d, i), DateOn(c));
      WindowDayOn(y, m, d, i, c);
    }
    if n <= Ordinal(c) < n + 6 {
      var i := Ordinal(c) - n;
      WindowDayOn(y, m, d, i, c);
      assert DateKey(WindowDay(y, m, d, i)) == k;
    }
  }

  /** The i-th date of a finite window is a valid date in range exactly when it lies i days after the start. */
  lemma WindowDayOn(y: Number, m: Number, d: Number, i: nat, c: ValidDate)
    requires y.Finite? && m.Finite? && d.Finite? && d.value >= 0.0
    requires -MaxDays <= Ordinal(c) <= MaxDays
    ensures WindowDay(y, m, d, i) == DateOn(c) <==> WindowStart(y, m, d) + i == Ordinal(c)
  {
    WindowDayIsOffset(y, m, d, i);
  }

  /** A valid date's key is in one record's window exactly when the date is 0 to 5 days after its start. */
  lemma RecordMarks(p: Option<Prediction>, c: ValidDate)
    requires -MaxDays <= Ordinal(c) <= MaxDays
    ensures DateKey(DateOn(c)) in RecordKeys(p)
        <==> RecordStart(p).Some? && RecordStart(p).value <= Ordinal(c) < RecordStart(p).value + 6
  {
    if StartComponents(p).Some? {
      var (y, m, d) := StartComponents(p).value;
      if RecordStart(p).Some? {
        ComponentsNonNegative(StartString(p).value);
        WindowMarks(y, m, d, c);
      } else {
        RecordWithInfiniteComponent(p);
        if DateKey(DateOn(c)) == "NaN-NaN-NaN" {
          DateKeyInjective(DateOn(c), InvalidDate);
        }
      }
    }
  }

  /** Day number `n` lies 0 to 5 days after the start of some record of `ps`. */
  predicate InSomeWindow(ps: seq<Option<Prediction>>, n: int) {
    exists j :: 0 <= j < |ps| && RecordStart(ps[j]).Some? && RecordStart(ps[j]).value <= n < RecordStart(ps[j]).value + 6
  }

  /**
   * The calendar highlights a valid date exactly when some record's start lies
   * 0 to 5 days before it; a value that is not an array highlights nothing.
   */
  lemma MarkedIffInSomeWindow(predictions: Predictions, c: ValidDate)
    requires -MaxDays <= Ordinal(c) <= MaxDays
    ensures predictions.NotAnArray? ==> PredictedDateSet(predictions) == {}
    ensures predictions.Items? ==>
      (DateKey(DateOn(c)) in PredictedDateSet(predictions) <==> InSomeWindow(predictions.records, Ordinal(c)))
  {
    if predictions.Items? {
      var ps := predictions.records;
      PredictedDatesMember(ps, DateKey(DateOn(c)));
      forall j | 0 <= j < |ps| ensures DateKey(DateOn(c)) in RecordKeys(ps[j])
          <==> RecordStart(ps[j]).Some? && RecordStart(ps[j]).value <= Ordinal(c) < RecordStart(ps[j]).value + 6 {
        RecordMarks(ps[j], c);
      }
    }
  }

  // ----------------------------------------------------------- the month grid

  /** One cell of the grid: a blank before the first of the month, or a day with its date, key and number. */
  datatype Cell = Blank | DayCell(date: JsDate, key: string, day: int)

  /** `new Date(year, month, 1).getDay()`; an invalid date gives NaN, and no blanks. */
  function StartWeekday(year: int, monthIndex: int): nat {
    var first := NewDate(year, monthIndex, 1);
    if first.InvalidDate? then 0 else GetDay(CalendarDate(first))
  }

  /** `new Date(year, month + 1, 0).getDate()`; an invalid date gives NaN, and no days. */
  function MonthLength(year: int, monthIndex: int): nat {
    var last := NewDate(year, monthIndex + 1, 0);
    if last.InvalidDate? then 0 else CalendarDate(last).day
  }

  /** The cell of day `d`: `{ date, key: dateKey(date), day: d }` for `date = new Date(year, month, d)`. */
  function DayCellOf(year: int, monthIndex: int, d: int): Cell {
    var date := NewDate(year, monthIndex, d);
    DayCell(date, DateKey(date), d)
  }

  /** `[f(1), ..., f(n)]`. */
  function Tabulate<T>(f: int -> T, n: nat): (s: seq<T>)
    ensures |s| == n
  {
    if n == 0 then [] else Tabulate(f, n - 1) + [f(n)]
  }

  lemma {:induction false} TabulateAt<T>(f: int -> T, n: nat, i: nat)
    requires i < n
    ensures Tabulate(f, n)[i] == f(i + 1)
  {
    if i < n - 1 {
      TabulateAt(f, n - 1, i);
    }
  }

  lemma {:induction false} TabulateCongruence<T>(f: int -> T, h: int -> T, n: nat)
    requires forall d :: 1 <= d <= n ==> f(d) == h(d)
    ensures Tabulate(f, n) == Tabulate(h, n)
  {
    if n > 0 {
      TabulateCongruence(f, h, n - 1);
    }
  }

  /** `n` blank cells. */
  function Blanks(n: nat): seq<Cell> {
    Tabulate(_ => Blank, n)
  }

  /** The cells of days 1 to `n` of month `monthIndex` of `year`, in order. */
  function MonthCells(year: int, monthIndex: int, n: nat): seq<Cell> {
    Tabulate(d => DayCellOf(year, monthIndex, d), n)
  }

  /** The cells of month `monthIndex` of `year`, blanks first. */
  function Grid(year: int, monthIndex: int): seq<Cell> {
    Blanks(StartWeekday(year, monthIndex)) + MonthCells(year, monthIndex, MonthLength(year, monthIndex))
  }

  /** How `calendarDays` is built: the blanks, then one cell per day of the month. */
  method CalendarDays(year: int, monthIndex: int) returns (cells: seq<Cell>)
    ensures cells == Grid(year, monthIndex)
  {
    var startWeekday := StartWeekday(year, monthIndex);
    var daysInMonth := MonthLength(year, monthIndex);
    cells := BlankCells(startWeekday);
    cells := AppendDayCells(cells, year, monthIndex, daysInMonth);
  }

  /** The first loop: one blank per weekday before the first of the month. */
  method BlankCells(startWeekday: nat) returns (cells: seq<Cell>)
    ensures cells == Blanks(startWeekday)
  {
    cells := [];
    var i := 0;
    while i < startWeekday
      invariant 0 <= i <= startWeekday
      invariant cells == Blanks(i)
    {
      cells := cells + [Blank];
      i := i + 1;
    }
  }

  /** The second loop: the cell of each day 1 to `daysInMonth`, appended in order. */
  method AppendDayCells(start: seq<Cell>, year: int, monthIndex: int, daysInMonth: nat) returns (cells: seq<Cell>)
    ensures cells == start + MonthCells(year, monthIndex, daysInMonth)
  {
    cells := start;
    var d := 1;
    while d <= daysInMonth
      invariant 1 <= d <= daysInMonth + 1
      invariant cells == start + MonthCells(year, monthIndex, d - 1)
    {
      var date := NewDate(year, monthIndex, d);
      DayCellStep(start, year, monthIndex, d);
      cells := cells + [DayCell(date, DateKey(date), d)];
      d := d + 1;
    }
    assert d - 1 == daysInMonth;
  }

  /** Appending the cell of day `d` extends the cells of the days before it. */
  lemma DayCellStep(start: seq<Cell>, year: int, monthIndex: int, d: nat)
    requires d >= 1
    ensures var date := NewDate(year, monthIndex, d);
      start + MonthCells(year, monthIndex, d) == start + MonthCells(year, monthIndex, d - 1) + [DayCell(date, DateKey(date), d)]
  {
    assert MonthCells(year, monthIndex, d) == MonthCells(year, monthIndex, d - 1) + [DayCellOf(year, monthIndex, d)];
  }

  /**
   * The grid has one blank per weekday before the first, then the cell of
   * every day from 1 to the month length.
   */
  lemma GridAt(year: int, monthIndex: int, k: int)
    requires 0 <= k < |Grid(year, monthIndex)|
    ensures |Grid(year, monthIndex)| == StartWeekday(year, monthIndex) + MonthLength(year, monthIndex)
    ensures k < StartWeekday(year, monthIndex) ==> Grid(year, monthIndex)[k] == Blank
    ensures StartWeekday(year, monthIndex) <= k ==>
      Grid(year, monthIndex)[k] == DayCellOf(year, monthIndex, k - StartWeekday(year, monthIndex) + 1)
  {
    var sw, ml := StartWeekday(year, monthIndex), MonthLength(year, monthIndex);
    var a, b := Blanks(sw), MonthCells(year, monthIndex, ml);
    assert Grid(year, monthIndex) == a + b;
    if k < sw {
      TabulateAt(_ => Blank, sw, k);
      assert (a + b)[k] == a[k];
    } else {
      TabulateAt(d => DayCellOf(year, monthIndex, d), ml, k - sw);
      assert (a + b)[k] == b[k - sw];
    }
  }

  /** Day 0 of the month after `m` is the last day of `m`. */
  lemma MonthEnd(y: int, m: int)
    requires 1 <= m <= 12
    ensures MakeDay(y, m, 0) == DayNumber(y, m, DaysInMonth(y, m))
  {
    DaysBeforeMonthStep(y, m);
    if m == 12 {
      DaysBeforeYearStep(y);
    }
  }

  /** Every day of a month in range, the last one also as day 0 of the next month. */
  lemma DaysOfMonth(y: int, m: int)
    requires !(0 <= y <= 99) && 1 <= m <= 12
    requires -MaxDays <= DayNumber(y, m, 1) && DayNumber(y, m, DaysInMonth(y, m)) <= MaxDays
    ensures forall d :: 1 <= d <= DaysInMonth(y, m) ==> NewDate(y, m - 1, d) == DateOn(Date(y, m, d))
    ensures NewDate(y, m, 0) == DateOn(Date(y, m, DaysInMonth(y, m)))
  {
    forall d | 1 <= d <= DaysInMonth(y, m) ensures NewDate(y, m - 1, d) == DateOn(Date(y, m, d)) {
      NewDateOfComponents(Date(y, m, d));
    }
    LastOfMonth(y, m);
  }

  /** Day 0 of the month after `m` is the `Date` object of the last day of `m`. */
  lemma LastOfMonth(y: int, m: int)
    requires !(0 <= y <= 99) && 1 <= m <= 12
    requires DayNumber(y, m, DaysInMonth(y, m)) <= MaxDays && -MaxDays <= DayNumber(y, m, 1)
    ensures NewDate(y, m, 0) == DateOn(Date(y, m, DaysInMonth(y, m)))
  {
    MonthEnd(y, m);
  }

  /** For a month in range, the first's weekday and the last day as the component reads them. */
  lemma MonthOutline(y: int, m: int)
    requires !(0 <= y <= 99) && 1 <= m <= 12
    requires -MaxDays <= DayNumber(y, m, 1) && DayNumber(y, m, DaysInMonth(y, m)) <= MaxDays
    ensures StartWeekday(y, m - 1) == Weekday(Date(y, m, 1))
    ensures MonthLength(y, m - 1) == DaysInMonth(y, m)
  {
    var first: ValidDate, last: ValidDate := Date(y, m, 1), Date(y, m, DaysInMonth(y, m));
    NewDateOfComponents(first);
    CalendarDateOn(first);
    LastOfMonth(y, m);
    CalendarDateOn(last);
  }

  /**
   * For a month in range whose year is not a two-digit one, the grid starts
   * with as many blanks as the weekday of the first (Sunday = 0), then holds
   * every day of the Gregorian month in order, each with its own date and key.
   */
  lemma GridOfMonth(y: int, m: int)
    requires !(0 <= y <= 99) && 1 <= m <= 12
    requires -MaxDays <= DayNumber(y, m, 1) && DayNumber(y, m, DaysInMonth(y, m)) <= MaxDays
    ensures StartWeekday(y, m - 1) == Weekday(Date(y, m, 1))
    ensures MonthLength(y, m - 1) == DaysInMonth(y, m)
    ensures var g, sw := Grid(y, m - 1), Weekday(Date(y, m, 1));
      && |g| == sw + DaysInMonth(y, m)
      && (forall k :: 0 <= k < sw ==> g[k] == Blank)
      && (forall k :: sw <= k < |g| ==> g[k] == DayCellOf(y, m - 1, k - sw + 1))
  {
    MonthOutline(y, m);
    GridBlanks(y, m);
    GridDays(y, m);
  }

  lemma GridBlanks(y: int, m: int)
    requires !(0 <= y <= 99) && 1 <= m <= 12
    requires -MaxDays <= DayNumber(y, m, 1) && DayNumber(y, m, DaysInMonth(y, m)) <= MaxDays
    ensures var g, sw := Grid(y, m - 1), Weekday(Date(y, m, 1));
      |g| == sw + DaysInMonth(y, m) && forall k :: 0 <= k < sw ==> g[k] == Blank
  {
    MonthOutline(y, m);
    var g := Grid(y, m - 1);
    forall k | 0 <= k < Weekday(Date(y, m, 1)) ensures g[k] == Blank {
      GridAt(y, m - 1, k);
    }
  }

  lemma GridDays(y: int, m: int)
    requires !(0 <= y <= 99) && 1 <= m <= 12
    requires -MaxDays <= DayNumber(y, m, 1) && DayNumber(y, m, DaysInMonth(y, m)) <= MaxDays
    ensures var g, sw := Grid(y, m - 1), Weekday(Date(y, m, 1));
      forall k :: sw <= k < |g| ==> g[k] == DayCellOf(y, m - 1, k - sw + 1)
  {
    MonthOutline(y, m);
    var g := Grid(y, m - 1);
    forall k | Weekday(Date(y, m, 1)) <= k < |g| ensures g[k] == DayCellOf(y, m - 1, k - Weekday(Date(y, m, 1)) + 1) {
      GridAt(y, m - 1, k);
    }
  }

  /** February 2025 starts on a Saturday: six blanks, then 28 days. */
  lemma February2025()
    ensures StartWeekday(2025, 1) == 6 && MonthLength(2025, 1) == 28
  {
    assert Weekday(Date(2025, 2, 1)) == 6;
    GridOfMonth(2025, 2);
  }

  /** A two-digit year shows the grid of the same month 1900 years later. */
  lemma TwoDigitYearGrid(y: int, monthIndex: int)
    requires 0 <= y <= 99
    ensures Grid(y, monthIndex) == Grid(1900 + y, monthIndex)
  {
    NewDateTwoDigitYear(y, monthIndex, 1);
    NewDateTwoDigitYear(y, monthIndex + 1, 0);
    var f, h := d => DayCellOf(y, monthIndex, d), d => DayCellOf(1900 + y, monthIndex, d);
    var n := MonthLength(y, monthIndex);
    forall d | 1 <= d <= n ensures f(d) == h(d) {
      NewDateTwoDigitYear(y, monthIndex, d);
    }
    TabulateCongruence(f, h, n);
  }

  // --------------------------------------------------------- the rendered page

  /** What the page draws for a cell: an empty square, or a day with its highlighting. */
  datatype Tile = EmptyTile | DayTile(day: int, key: string, isPredicted: bool, isToday: bool)

  function TileOf(cell: Cell, predicted: set<string>, todayKey: string): Tile {
    match cell
    case Blank => EmptyTile
    case DayCell(_, key, day) => DayTile(day, key, key in predicted, key == todayKey)
  }

  /** The grid for the viewed month; an invalid view date has NaN year and month and no cells. */
  function ViewGrid(v: JsDate): seq<Cell> {
    match v
    case InvalidDate => []
    case LocalDate(_) => var c := CalendarDate(v); Grid(c.year, c.month - 1)
  }

  /** The grid of a valid date's `Date` object is the grid of that date's month. */
  lemma ViewGridOn(c: ValidDate)
    ensures ViewGrid(DateOn(c)) == Grid(c.year, c.month - 1)
  {
    CalendarDateOn(c);
  }

  /** `calendarDays.map(...)`: one tile per cell, in order. */
  function TilesOf(cells: seq<Cell>, predicted: set<string>, todayKey: string): (t: seq<Tile>)
    ensures |t| == |cells|
  {
    if cells == [] then []
    else TilesOf(cells[..|cells| - 1], predicted, todayKey) + [TileOf(cells[|cells| - 1], predicted, todayKey)]
  }

  lemma {:induction false} TilesOfAt(cells: seq<Cell>, predicted: set<string>, todayKey: string, i: nat)
    requires i < |cells|
    ensures TilesOf(cells, predicted, todayKey)[i] == TileOf(cells[i], predicted, todayKey)
  {
    var init := cells[..|cells| - 1];
    if i < |cells| - 1 {
      TilesOfAt(init, predicted, todayKey, i);
      assert init[i] == cells[i];
    }
  }

  function ViewTiles(v: JsDate, predicted: set<string>, todayKey: string): seq<Tile> {
    TilesOf(ViewGrid(v), predicted, todayKey)
  }

  /** `new Date(year, month - 1, 1)`. */
  function PrevMonthOf(v: JsDate): JsDate {
    match v
    case InvalidDate => InvalidDate
    case LocalDate(_) => var c := CalendarDate(v); NewDate(c.year, c.month - 2, 1)
  }

  /** `new Date(year, month + 1, 1)`. */
  function NextMonthOf(v: JsDate): JsDate {
    match v
    case InvalidDate => InvalidDate
    case LocalDate(_) => var c := CalendarDate(v); NewDate(c.year, c.month, 1)
  }

  /** The calendar page: the month in view is its only state. */
  class CalendarView {
    var viewDate: JsDate

    /** `useState(() => new Date())`, with the clock's date passed in. */
    constructor(now: ValidDate)
      ensures viewDate == DateOn(now)
    {
      viewDate := DateOn(now);
    }

    method PrevMonth()
      modifies this
      ensures viewDate == PrevMonthOf(old(viewDate))
    {
      match viewDate
      case InvalidDate =>
      case LocalDate(_) =>
        var c := CalendarDate(viewDate);
        viewDate := NewDate(c.year, c.month - 2, 1);
    }

    method NextMonth()
      modifies this
      ensures viewDate == NextMonthOf(old(viewDate))
    {
      match viewDate
      case InvalidDate =>
      case LocalDate(_) =>
        var c := CalendarDate(viewDate);
        viewDate := NewDate(c.year, c.month, 1);
    }

    /** The tiles of the page for the month in view; the page passes `PlaceholderPredictions` and today's date from the clock. */
    method Render(predictions: Predictions, today: ValidDate) returns (tiles: seq<Tile>)
      ensures tiles == ViewTiles(viewDate, PredictedDateSet(predictions), DateKey(DateOn(today)))
    {
      var predictedDates := GetPredictedDateSet(predictions);
      var todayKey := DateKey(DateOn(today));
      var cells: seq<Cell> := [];
      if viewDate.LocalDate? {
        var c := CalendarDate(viewDate);
        cells := CalendarDays(c.year, c.month - 1);
      }
      tiles := TilesOf(cells, predictedDates, todayKey);
    }
  }

  /**
   * In a month in range, the tile of day `d` is highlighted exactly when some
   * record's window covers that date, and ringed exactly when it is today.
   */
  lemma TileOfDay(y: int, m: int, d: int, predictions: Predictions, today: ValidDate)
    requires !(0 <= y <= 99) && 1 <= m <= 12 && 1 <= d <= DaysInMonth(y, m)
    requires -MaxDays <= DayNumber(y, m, 1) && DayNumber(y, m, DaysInMonth(y, m)) <= MaxDays
    ensures var first: ValidDate, c: ValidDate := Date(y, m, 1), Date(y, m, d);
      var t := ViewTiles(DateOn(first), PredictedDateSet(predictions), DateKey(DateOn(today)));
      var k := Weekday(first) + d - 1;
      k < |t| && t[k] == DayTile(d, DateKey(DateOn(c)),
        predictions.Items? && InSomeWindow(predictions.records, Ordinal(c)), c == today)
  {
    var c: ValidDate := Date(y, m, d);
    ViewGridOn(Date(y, m, 1));
    TileAt(y, m, d, PredictedDateSet(predictions), DateKey(DateOn(today)));
    assert -MaxDays <= Ordinal(c) <= MaxDays;
    MarkedIffInSomeWindow(predictions, c);
    if DateKey(DateOn(c)) == DateKey(DateOn(today)) {
      DateKeyInjective(DateOn(c), DateOn(today));
      OrdinalInjective(c, today);
    }
  }

  /** The tile of day `d` of a month in range shows that day's key, marked against any set of keys. */
  lemma TileAt(y: int, m: int, d: int, predicted: set<string>, todayKey: string)
    requires !(0 <= y <= 99) && 1 <= m <= 12 && 1 <= d <= DaysInMonth(y, m)
    requires -MaxDays <= DayNumber(y, m, 1) && DayNumber(y, m, DaysInMonth(y, m)) <= MaxDays
    ensures var t, k, key := TilesOf(Grid(y, m - 1), predicted, todayKey), Weekday(Date(y, m, 1)) + d - 1, DateKey(DateOn(Date(y, m, d)));
      k < |t| && t[k] == DayTile(d, key, key in predicted, key == todayKey)
  {
    GridDay(y, m, d);
    TilesOfAt(Grid(y, m - 1), predicted, todayKey, Weekday(Date(y, m, 1)) + d - 1);
  }

  /** Day `d` of a month in range sits after the blanks, at position `weekday of the first + d - 1`. */
  lemma GridDay(y: int, m: int, d: int)
    requires !(0 <= y <= 99) && 1 <= m <= 12 && 1 <= d <= DaysInMonth(y, m)
    requires -MaxDays <= DayNumber(y, m, 1) && DayNumber(y, m, DaysInMonth(y, m)) <= MaxDays
    ensures var k := Weekday(Date(y, m, 1)) + d - 1;
      k < |Grid(y, m - 1)| && Grid(y, m - 1)[k] == DayCell(DateOn(Date(y, m, d)), DateKey(DateOn(Date(y, m, d))), d)
  {
    MonthOutline(y, m);
    DaysOfMonth(y, m);
    GridAt(y, m - 1, Weekday(Date(y, m, 1)) + d - 1);
  }

  /** The first of the month before the month of `c`. */
  function FirstOfPrevMonth(c: ValidDate): ValidDate {
    if c.month == 1 then Date(c.year - 1, 12, 1) else Date(c.year, c.month - 1, 1)
  }

  /** The first of the month after the month of `c`. */
  function FirstOfNextMonth(c: ValidDate): ValidDate {
    if c.month == 12 then Date(c.year + 1, 1, 1) else Date(c.year, c.month + 1, 1)
  }

  /** `new Date(year, month - 1, 1)` for the `Date` object of a valid date reads that date's own year and month. */
  lemma PrevMonthOn(c: ValidDate)
    ensures PrevMonthOf(DateOn(c)) == NewDate(c.year, c.month - 2, 1)
  {
    CalendarDateOn(c);
  }

  /** Likewise `new Date(year, month + 1, 1)`. */
  lemma NextMonthOn(c: ValidDate)
    ensures NextMonthOf(DateOn(c)) == NewDate(c.year, c.month, 1)
  {
    CalendarDateOn(c);
  }

  /** Month index `month - 2` of the date's year is the first of the month before. */
  lemma MakeDayOfPrevMonth(c: ValidDate)
    ensures MakeDay(c.year, c.month - 2, 1) == Ordinal(FirstOfPrevMonth(c))
  {
    if c.month == 1 {
      assert (c.month - 2) / 12 == -1 && (c.month - 2) % 12 == 11;
    } else {
      assert (c.month - 2) / 12 == 0 && (c.month - 2) % 12 == c.month - 2;
    }
  }

  /** Month index `month` of the date's year is the first of the month after. */
  lemma MakeDayOfNextMonth(c: ValidDate)
    ensures MakeDay(c.year, c.month, 1) == Ordinal(FirstOfNextMonth(c))
  {
    if c.month == 12 {
      assert c.month / 12 == 1 && c.month % 12 == 0;
    } else {
      assert c.month / 12 == 0 && c.month % 12 == c.month;
    }
  }

  /**
   * Outside two-digit years, the previous month of any date is the first of
   * the month before, rolling back from January into December of the year
   * before, as long as that date is in range.
   */
  lemma PrevMonthRollover(c: ValidDate)
    requires !(0 <= c.year <= 99)
    requires -MaxDays <= Ordinal(FirstOfPrevMonth(c)) <= MaxDays
    ensures PrevMonthOf(DateOn(c)) == DateOn(FirstOfPrevMonth(c))
  {
    PrevMonthOn(c);
    MakeDayOfPrevMonth(c);
  }

  /** Likewise the next month is the first of the month after, rolling over from December into January. */
  lemma NextMonthRollover(c: ValidDate)
    requires !(0 <= c.year <= 99)
    requires -MaxDays <= Ordinal(FirstOfNextMonth(c)) <= MaxDays
    ensures NextMonthOf(DateOn(c)) == DateOn(FirstOfNextMonth(c))
  {
    NextMonthOn(c);
    MakeDayOfNextMonth(c);
  }

  /** Going back a month and forward again returns to the first of the month, when no two-digit year is involved. */
  lemma PrevThenNext(c: ValidDate)
    requires !(0 <= c.year <= 99) && !(0 <= FirstOfPrevMonth(c).year <= 99)
    requires -MaxDays <= Ordinal(FirstOfPrevMonth(c)) && Ordinal(Date(c.year, c.month, 1)) <= MaxDays
    ensures NextMonthOf(PrevMonthOf(DateOn(c))) == DateOn(Date(c.year, c.month, 1))
  {
    PrevMonthRollover(c);
    var p := FirstOfPrevMonth(c);
    assert FirstOfNextMonth(p) == Date(c.year, c.month, 1);
    NextMonthRollover(p);
  }

  /** Navigating back from January of year 100 gives December of year 99. */
  lemma CenturyBack()
    ensures PrevMonthOf(DateOn(Date(100, 1, 1))) == DateOn(Date(99, 12, 1))
  {
    PrevMonthRollover(Date(100, 1, 1));
  }

  /**
   * The month after December of a two-digit year `y` is January of
   * `1901 + y`, because `new Date` reads the year `y` as `1900 + y`: from
   * December 99 the calendar jumps to January 2000.
   */
  lemma TwoDigitYearNavigation(y: int)
    requires 0 <= y <= 99
    ensures NextMonthOf(DateOn(Date(y, 12, 1))) == DateOn(Date(1901 + y, 1, 1))
  {
    NextMonthOn(Date(y, 12, 1));
    NewDateTwoDigitYear(y, 12, 1);
    MakeDayOfNextMonth(Date(1900 + y, 12, 1));
  }
}
