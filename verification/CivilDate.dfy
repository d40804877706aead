/** UTC civil dates from epoch seconds (Hinnant's civil-from-days) against a
    naive Gregorian calendar that counts years, months and days one by one. */
module CivilDate {
  import Decimal

  datatype Date = Date(year: int, month: int, day: int)

  // ---- The naive calendar: the rule book, with no closed formula ----

  predicate IsLeap(y: int) {
    y % 4 == 0 && (y % 100 != 0 || y % 400 == 0)
  }

  function DaysInYear(y: int): int {
    if IsLeap(y) then 366 else 365
  }

  function DaysInMonth(y: int, m: int): int
    requires 1 <= m <= 12
  {
    if m == 2 then (if IsLeap(y) then 29 else 28)
    else if m == 4 || m == 6 || m == 9 || m == 11 then 30
    else 31
  }

  predicate ValidDate(d: Date) {
    && 1 <= d.month <= 12
    && 1 <= d.day <= DaysInMonth(d.year, d.month)
  }

  /** Days from 1970-01-01 to January 1st of `y`, counted year by year. */
  function DaysBeforeYear(y: int): int
    requires y >= 1970
  {
    if y == 1970 then 0 else DaysBeforeYear(y - 1) + DaysInYear(y - 1)
  }

  /** Days of year `y` before the first of month `m`, counted month by month. */
  function DaysBeforeMonth(y: int, m: int): int
    requires 1 <= m <= 12
  {
    if m == 1 then 0 else DaysBeforeMonth(y, m - 1) + DaysInMonth(y, m - 1)
  }

  function DayNumber(d: Date): int
    requires ValidDate(d) && d.year >= 1970
  {
    DaysBeforeYear(d.year) + DaysBeforeMonth(d.year, d.month) + d.day - 1
  }

  /** The day after `d` on a wall calendar. */
  function NextDay(d: Date): Date
    requires ValidDate(d)
  {
    if d.day < DaysInMonth(d.year, d.month) then Date(d.year, d.month, d.day + 1)
    else if d.month < 12 then Date(d.year, d.month + 1, 1)
    else Date(d.year + 1, 1, 1)
  }

  predicate Before(a: Date, b: Date) {
    || a.year < b.year
    || (a.year == b.year && a.month < b.month)
    || (a.year == b.year && a.month == b.month && a.day < b.day)
  }

  // ---- The program's arithmetic ----

  function YearOfEra(doe: int): int {
    (doe - doe / 1460 + doe / 36524 - doe / 146096) / 365
  }

  function CivilFromDays(days: nat): Date {
    var z := days + 719468;
    var era := z / 146097;
    var doe := z % 146097;
    var yoe := YearOfEra(doe);
    var y := yoe + era * 400;
    var doy := doe - (365 * yoe + yoe / 4 - yoe / 100);
    var mp := (5 * doy + 2) / 153;
    var d := doy - (153 * mp + 2) / 5 + 1;
    var m := if mp < 10 then mp + 3 else mp - 9;
    Date(if m <= 2 then y + 1 else y, m, d)
  }

  function CivilFromSeconds(secs: nat): Date {
    CivilFromDays(secs / 86400)
  }

  // ---- The formula's pieces ----

  /** Days from the start of a 400-year era (a March 1st) to its year `k`. */
  function EraYearStart(k: int): int {
    365 * k + k / 4 - k / 100
  }

  /** Numerator of the year-of-era formula; grows with the day. */
  function Compensated(doe: int): int {
    doe - doe / 1460 + doe / 36524 - doe / 146096
  }

  lemma CompensatedMonotone(a: int, b: int)
    requires 0 <= a <= b < 146097
    ensures Compensated(a) <= Compensated(b)
  {
  }

  lemma CompensatedAtYearStart(k: int)
    requires 0 <= k < 400
    ensures Compensated(EraYearStart(k)) == 365 * k
  {
    var p, q := k / 4, k % 4;
    var c, j := k / 100, k % 100;
    var doe := EraYearStart(k);
    assert k / 100 == p / 25;
    assert doe == 1460 * p + (365 * q + p - p / 25) && 0 <= 365 * q + p - p / 25 < 1460;
    assert doe / 1460 == p;
    assert k / 4 == 25 * c + j / 4;
    assert doe == 36524 * c + (365 * j + j / 4) && 0 <= 365 * j + j / 4 < 36524;
    assert doe / 36524 == c;
    assert doe / 146096 == 0;
  }

  lemma CompensatedAtYearEnd(k: int)
    requires 0 <= k < 399
    ensures Compensated(EraYearStart(k + 1) - 1) < 365 * (k + 1)
  {
    var n := k + 1;
    var p, q := n / 4, n % 4;
    var c, j := n / 100, n % 100;
    var doe := EraYearStart(n) - 1;
    assert c == p / 25;
    assert doe == 1460 * p + (365 * q + p - p / 25 - 1) && 0 <= 365 * q + p - p / 25 - 1 < 1460;
    assert doe / 1460 == p;
    assert p == 25 * c + j / 4;
    assert doe == 36524 * c + (365 * j + j / 4 - 1) && 365 * j + j / 4 - 1 < 36524;
    assert doe / 36524 <= c;
    assert doe / 146096 >= 0;
  }

  /** The division by 365 lands in exactly the year that contains the day. */
  lemma YearOfEraCorrect(doe: int)
    requires 0 <= doe < 146097
    ensures 0 <= YearOfEra(doe) < 400
    ensures EraYearStart(YearOfEra(doe)) <= doe
    ensures YearOfEra(doe) < 399 ==> doe < EraYearStart(YearOfEra(doe) + 1)
  {
    var y := YearOfEra(doe);
    assert Compensated(0) == 0 && Compensated(146096) == 145999;
    CompensatedMonotone(0, doe);
    CompensatedMonotone(doe, 146096);
    if doe < EraYearStart(y) {
      if y > 0 {
        CompensatedMonotone(doe, EraYearStart(y) - 1);
        CompensatedAtYearEnd(y - 1);
      }
      assert false;
    }
    if y < 399 && doe >= EraYearStart(y + 1) {
      CompensatedMonotone(EraYearStart(y + 1), doe);
      CompensatedAtYearStart(y + 1);
      assert false;
    }
  }

  /** Leap years in 1..n. */
  function LeapsThrough(n: int): int {
    n / 4 - n / 100 + n / 400
  }

  /** Quotient and remainder are unique. */
  lemma DivUnique(x: int, m: int, q: int, r: int)
    requires m > 0 && x == m * q + r && 0 <= r < m
    ensures x / m == q && x % m == r
  {
    var d := q - x / m;
    assert x == m * (x / m) + x % m;
    assert m * d == x % m - r by {
      assert m * d == m * q - m * (x / m);
    }
    assert d >= 1 ==> m * d >= m;
    assert d <= -1 ==> m * d <= -m;
  }

  lemma QuotientStep(y: int, m: int)
    requires m > 1
    ensures y / m - (y - 1) / m == if y % m == 0 then 1 else 0
  {
    if y % m == 0 {
      DivUnique(y - 1, m, y / m - 1, m - 1);
    } else {
      DivUnique(y - 1, m, y / m, y % m - 1);
    }
  }

  lemma LeapStep(y: int)
    requires y >= 1
    ensures LeapsThrough(y) == LeapsThrough(y - 1) + if IsLeap(y) then 1 else 0
  {
    QuotientStep(y, 4);
    QuotientStep(y, 100);
    QuotientStep(y, 400);
    LeapFlags(y);
  }

  lemma LeapFlags(y: int)
    ensures y % 400 == 0 ==> y % 100 == 0
    ensures y % 100 == 0 ==> y % 4 == 0
  {
    if y % 400 == 0 {
      DivUnique(y, 100, 4 * (y / 400), 0);
    }
    if y % 100 == 0 {
      DivUnique(y, 4, 25 * (y / 100), 0);
    }
  }

  lemma {:induction false} DaysBeforeYearClosed(y: int)
    requires y >= 1970
    ensures DaysBeforeYear(y) == 365 * (y - 1970) + LeapsThrough(y - 1) - 477
  {
    if y > 1970 {
      DaysBeforeYearClosed(y - 1);
      LeapStep(y - 1);
    }
  }

  /** Month and day of the March-based year, against the month table. */
  lemma MonthFromDayOfYear(y: int, doy: int)
    requires 0 <= doy < 366 && (doy == 365 ==> IsLeap(y + 1))
    ensures
      var mp := (5 * doy + 2) / 153;
      var d := doy - (153 * mp + 2) / 5 + 1;
      var date := Date(if mp < 10 then y else y + 1, if mp < 10 then mp + 3 else mp - 9, d);
      && 0 <= mp < 12
      && ValidDate(date)
      && (mp < 10 ==> DaysBeforeMonth(y, date.month) + d - 1 == doy + DaysInMonth(y, 1) + DaysInMonth(y, 2))
      && (mp >= 10 ==> DaysBeforeMonth(y + 1, date.month) + d - 1 == doy - 306)
  {
    var mp := (5 * doy + 2) / 153;
    assert 0 <= mp < 12;
    MonthTable(y);
    MonthTable(y + 1);
    assert mp in {0, 1, 2, 3, 4, 5, 6, 7, 8, 9, 10, 11};
  }

  lemma MonthTable(y: int)
    ensures DaysBeforeMonth(y, 1) == 0 && DaysBeforeMonth(y, 2) == 31
    ensures
      var f := DaysInMonth(y, 2);
      && DaysBeforeMonth(y, 3) == 31 + f && DaysBeforeMonth(y, 4) == 62 + f
      && DaysBeforeMonth(y, 5) == 92 + f && DaysBeforeMonth(y, 6) == 123 + f
      && DaysBeforeMonth(y, 7) == 153 + f && DaysBeforeMonth(y, 8) == 184 + f
      && DaysBeforeMonth(y, 9) == 215 + f && DaysBeforeMonth(y, 10) == 245 + f
      && DaysBeforeMonth(y, 11) == 276 + f && DaysBeforeMonth(y, 12) == 306 + f
  {
    assert DaysBeforeMonth(y, 2) == 31;
    assert DaysBeforeMonth(y, 3) == 31 + DaysInMonth(y, 2);
    assert DaysBeforeMonth(y, 5) == 92 + DaysInMonth(y, 2);
    assert DaysBeforeMonth(y, 7) == 153 + DaysInMonth(y, 2);
    assert DaysBeforeMonth(y, 9) == 215 + DaysInMonth(y, 2);
    assert DaysBeforeMonth(y, 11) == 276 + DaysInMonth(y, 2);
  }

  // ---- Main results ----

  lemma EraQuotients(k: int, e: int)
    requires 0 <= k < 400 && e >= 0
    ensures LeapsThrough(k + 400 * e) == k / 4 - k / 100 + 97 * e
  {
    var y := k + 400 * e;
    DivUnique(y, 4, k / 4 + 100 * e, k % 4);
    DivUnique(y, 100, k / 100 + 4 * e, k % 100);
    DivUnique(y, 400, e, k);
  }

  /** Leap years repeat from one 400-year era to the next. */
  lemma EraLeaps(y: int, e: int)
    ensures IsLeap(y + 400 * e) <==> IsLeap(y)
  {
    DivUnique(y + 400 * e, 4, y / 4 + 100 * e, y % 4);
    DivUnique(y + 400 * e, 100, y / 100 + 4 * e, y % 100);
    DivUnique(y + 400 * e, 400, y / 400 + e, y % 400);
  }

  /** Days left over inside the year: 366 only when its February is a leap one. */
  lemma EraYearLength(k: int, doy: int)
    requires 0 <= k < 400 && 0 <= doy
    requires k < 399 ==> EraYearStart(k) + doy < EraYearStart(k + 1)
    requires k == 399 ==> EraYearStart(k) + doy < 146097
    ensures doy < 366 && (doy == 365 ==> IsLeap(k + 1))
  {
    if k < 399 {
      LeapStep(k + 1);
      assert k / 400 == 0 && (k + 1) / 400 == 0;
    }
  }

  lemma YearFloor(y: int, doy: int)
    requires y >= 0 && 0 <= doy < 366
    requires 365 * y + LeapsThrough(y) + doy >= 719468
    ensures y >= 1969 && (doy < 306 ==> y >= 1970)
  {
  }

  /** The March-based (year, day) pair of a day, as a counted calendar date. */
  lemma MarchYearDay(y: int, doy: int, days: nat)
    requires y >= 0 && 0 <= doy < 366 && (doy == 365 ==> IsLeap(y + 1))
    requires days + 719468 == 365 * y + LeapsThrough(y) + doy
    ensures
      var mp := (5 * doy + 2) / 153;
      var m := if mp < 10 then mp + 3 else mp - 9;
      var date := Date(if m <= 2 then y + 1 else y, m, doy - (153 * mp + 2) / 5 + 1);
      ValidDate(date) && date.year >= 1970 && DayNumber(date) == days
  {
    MonthFromDayOfYear(y, doy);
    YearFloor(y, doy);
    var mp := (5 * doy + 2) / 153;
    if mp < 10 {
      assert doy < 306;
      DaysBeforeYearClosed(y);
      LeapStep(y);
    } else {
      DaysBeforeYearClosed(y + 1);
    }
  }

  /** The year and day-of-year steps of the formula, before months are read off. */
  lemma EraSplit(z: int, yoe: int, doy: int)
    requires z >= 719468
    requires yoe == YearOfEra(z % 146097) && doy == z % 146097 - EraYearStart(yoe)
    ensures 0 <= yoe < 400 && 0 <= doy < 366
    ensures
      var y := yoe + 400 * (z / 146097);
      z == 365 * y + LeapsThrough(y) + doy && (doy == 365 ==> IsLeap(y + 1))
  {
    YearOfEraCorrect(z % 146097);
    EraYearLength(yoe, doy);
    EraQuotients(yoe, z / 146097);
    EraLeaps(yoe + 1, z / 146097);
  }

  /** The formula gives a date of the real calendar, and counting days up to that
      date by the rule book gives back exactly the day number it came from. */
  lemma CivilFromDaysCorrect(days: nat)
    ensures ValidDate(CivilFromDays(days)) && CivilFromDays(days).year >= 1970
    ensures DayNumber(CivilFromDays(days)) == days
  {
    var z := days + 719468;
    var yoe := YearOfEra(z % 146097);
    var doy := z % 146097 - EraYearStart(yoe);
    EraSplit(z, yoe, doy);
    MarchYearDay(yoe + 400 * (z / 146097), doy, days);
    CivilUnfold(days, yoe + 400 * (z / 146097), doy);
  }

  lemma CivilUnfold(days: nat, y: int, doy: int)
    requires
      var z := days + 719468;
      var yoe := YearOfEra(z % 146097);
      y == yoe + 400 * (z / 146097) && doy == z % 146097 - EraYearStart(yoe)
    ensures
      var mp := (5 * doy + 2) / 153;
      var m := if mp < 10 then mp + 3 else mp - 9;
      CivilFromDays(days) == Date(if m <= 2 then y + 1 else y, m, doy - (153 * mp + 2) / 5 + 1)
  {
  }

  /** `DayNumber` tells valid dates apart and agrees with calendar order. */
  lemma {:induction false} DayNumberOrder(a: Date, b: Date)
    requires ValidDate(a) && ValidDate(b) && a.year >= 1970 && b.year >= 1970
    ensures Before(a, b) <==> DayNumber(a) < DayNumber(b)
    ensures a == b <==> DayNumber(a) == DayNumber(b)
  {
    DayNumberStrict(a, b);
    DayNumberStrict(b, a);
  }

  lemma DayNumberStrict(a: Date, b: Date)
    requires ValidDate(a) && ValidDate(b) && a.year >= 1970 && b.year >= 1970
    ensures Before(a, b) ==> DayNumber(a) < DayNumber(b)
  {
    MonthTable(a.year);
    MonthTable(b.year);
    if a.year < b.year {
      YearsAreLong(a.year, b.year);
    }
  }

  lemma {:induction false} YearsAreLong(y: int, z: int)
    requires 1970 <= y < z
    ensures DaysBeforeYear(y) + DaysInYear(y) <= DaysBeforeYear(z)
    decreases z
  {
    if y + 1 < z {
      YearsAreLong(y, z - 1);
    }
  }

  lemma NextDayCounts(d: Date)
    requires ValidDate(d) && d.year >= 1970
    ensures ValidDate(NextDay(d)) && DayNumber(NextDay(d)) == DayNumber(d) + 1
  {
    if d.month == 12 && d.day == 31 {
      MonthTable(d.year);
      assert DaysBeforeYear(d.year + 1) == DaysBeforeYear(d.year) + DaysInYear(d.year);
    }
  }

  lemma SuccessorByCount(d: Date, e: Date)
    requires ValidDate(d) && d.year >= 1970 && ValidDate(e) && e.year >= 1970
    requires DayNumber(e) == DayNumber(d) + 1
    ensures e == NextDay(d)
  {
    NextDayCounts(d);
    DayNumberOrder(NextDay(d), e);
  }

  /** One day later is the next square on the wall calendar. */
  lemma NextDaySucceeds(days: nat)
    ensures ValidDate(CivilFromDays(days))
    ensures CivilFromDays(days + 1) == NextDay(CivilFromDays(days))
  {
    CivilFromDaysCorrect(days);
    CivilFromDaysCorrect(days + 1);
    SuccessorByCount(CivilFromDays(days), CivilFromDays(days + 1));
  }

  lemma OnlyEpochIsDayZero(days: nat)
    ensures CivilFromDays(days) == Date(1970, 1, 1) <==> days == 0
  {
    CivilFromDaysCorrect(days);
    DayNumberOrder(CivilFromDays(days), Date(1970, 1, 1));
  }

  /** Seconds map to dates monotonically, and two instants share a date exactly
      when they lie in the same 86400-second day. */
  lemma SecondsToDateOrder(s: nat, t: nat)
    ensures ValidDate(CivilFromSeconds(s)) && CivilFromSeconds(s).year >= 1970
    ensures DayNumber(CivilFromSeconds(s)) == s / 86400
    ensures Before(CivilFromSeconds(s), CivilFromSeconds(t)) <==> s / 86400 < t / 86400
    ensures CivilFromSeconds(s) == CivilFromSeconds(t) <==> s / 86400 == t / 86400
  {
    CivilFromDaysCorrect(s / 86400);
    CivilFromDaysCorrect(t / 86400);
    DayNumberOrder(CivilFromSeconds(s), CivilFromSeconds(t));
  }

  // ---- The printed date ----

  function Format(d: Date): string
    requires d.year >= 0 && d.month >= 0 && d.day >= 0
  {
    Decimal.Padded(d.year, 4) + "-" + Decimal.Padded(d.month, 2) + "-" + Decimal.Padded(d.day, 2)
  }

  function DateText(secs: nat): string {
    CivilFromDaysCorrect(secs / 86400);
    Format(CivilFromSeconds(secs))
  }

  lemma FormatInjective(a: Date, b: Date)
    requires ValidDate(a) && ValidDate(b) && a.year >= 1970 && b.year >= 1970
    requires Format(a) == Format(b)
    ensures a == b
  {
    Decimal.TwoDigits(a.month);
    Decimal.TwoDigits(b.month);
    Decimal.TwoDigits(a.day);
    Decimal.TwoDigits(b.day);
    var s, k := Format(a), |Format(a)|;
    assert s[k - 2..] == Decimal.Padded(a.day, 2) == Decimal.Padded(b.day, 2);
    assert s[k - 5..k - 3] == Decimal.Padded(a.month, 2) == Decimal.Padded(b.month, 2);
    assert s[..k - 6] == Decimal.Padded(a.year, 4) == Decimal.Padded(b.year, 4);
    Decimal.PaddedRoundTrip(a.year, 4);
    Decimal.PaddedRoundTrip(b.year, 4);
    Decimal.PaddedRoundTrip(a.month, 2);
    Decimal.PaddedRoundTrip(b.month, 2);
    Decimal.PaddedRoundTrip(a.day, 2);
    Decimal.PaddedRoundTrip(b.day, 2);
  }

  /** The text reads year, month, day, in that order, with two digits each for month and
      day and four for any year before 10000. */
  lemma FormatReads(d: Date) returns (year: string, month: string, day: string)
    requires ValidDate(d) && d.year >= 0
    ensures Format(d) == year + "-" + month + "-" + day
    ensures AllDigits(year) && AllDigits(month) && AllDigits(day)
    ensures Decimal.Value(year) == d.year && Decimal.Value(month) == d.month && Decimal.Value(day) == d.day
    ensures |year| >= 4 && |month| == |day| == 2 && (d.year < 10000 ==> |year| == 4)
  {
    year, month, day := Decimal.Padded(d.year, 4), Decimal.Padded(d.month, 2), Decimal.Padded(d.day, 2);
    Decimal.PaddedRoundTrip(d.year, 4);
    Decimal.PaddedRoundTrip(d.month, 2);
    Decimal.PaddedRoundTrip(d.day, 2);
    Decimal.TwoDigits(d.month);
    Decimal.TwoDigits(d.day);
    if d.year < 10000 {
      assert Decimal.Power10(2) == 100 && Decimal.Power10(3) == 1000;
      Decimal.DigitsWidth(d.year, 4, 10000);
    }
  }

  predicate AllDigits(s: string) {
    forall i :: 0 <= i < |s| ==> Decimal.IsDigit(s[i])
  }

  /** The text comparison the budget ledger makes is a comparison of UTC days. */
  lemma SameDateTextIffSameDay(s: nat, t: nat)
    ensures DateText(s) == DateText(t) <==> s / 86400 == t / 86400
  {
    SecondsToDateOrder(s, t);
    SecondsToDateOrder(t, s);
    if DateText(s) == DateText(t) {
      FormatInjective(CivilFromSeconds(s), CivilFromSeconds(t));
    }
  }
}
