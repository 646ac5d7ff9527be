/** The proleptic Gregorian calendar, and the day-number arithmetic of cesp.rs.

The calendar itself is given by counting: month lengths, the leap rule, and the date after or before a
given one (section 5.7 and Appendix C of RFC 3339). `DateOfDay` numbers the dates by counting from
1970-01-01 one day at a time. Everything else is proved against that. */
module Calendar {

  datatype Date = Date(year: int, month: int, day: int)

  predicate Leap(y: int) {
    y % 4 == 0 && (y % 100 != 0 || y % 400 == 0)
  }

  /** Days of month `m` in a common year. */
  function CommonDays(m: int): (r: int) {
    if m == 2 then 28 else if m == 4 || m == 6 || m == 9 || m == 11 then 30 else 31
  }

  function DaysInMonth(y: int, m: int): (r: int) {
    if m == 2 && Leap(y) then 29 else CommonDays(m)
  }

  predicate ValidDate(d: Date) {
    1 <= d.month <= 12 && 1 <= d.day <= DaysInMonth(d.year, d.month)
  }

  /** The next date on the calendar. */
  function NextDate(d: Date): (r: Date) {
    if d.day < DaysInMonth(d.year, d.month) then Date(d.year, d.month, d.day + 1)
    else if d.month < 12 then Date(d.year, d.month + 1, 1)
    else Date(d.year + 1, 1, 1)
  }

  /** The previous date on the calendar. */
  function PreviousDate(d: Date): (r: Date) {
    if d.day > 1 then Date(d.year, d.month, d.day - 1)
    else if d.month > 1 then Date(d.year, d.month - 1, DaysInMonth(d.year, d.month - 1))
    else Date(d.year - 1, 12, 31)
  }

  const EPOCH := Date(1970, 1, 1)

  /** The date `n` days after 1970-01-01 (before it, for negative `n`), found by counting. */
  function DateOfDay(n: int): (d: Date)
    ensures ValidDate(d)
    decreases if n < 0 then -n else n
  {
    if n == 0 then EPOCH
    else if n > 0 then NextDate(DateOfDay(n - 1))
    else PreviousDate(DateOfDay(n + 1))
  }

  // ---------- A closed form for the number of a date ----------

  /** Leap years before year `y`, counted from year 1. */
  function LeapsBefore(y: int): int {
    (y - 1) / 4 - (y - 1) / 100 + (y - 1) / 400
  }

  /** The number of 1 January of year `y`. */
  function YearStart(y: int): int {
    365 * (y - 1970) + LeapsBefore(y) - 477
  }

  /** Days of a common year that precede month `m`. */
  function CommonDaysBefore(m: int): int
    requires 1 <= m <= 13
  {
    if m == 1 then 0 else CommonDaysBefore(m - 1) + CommonDays(m - 1)
  }

  function DaysBefore(y: int, m: int): int
    requires 1 <= m <= 13
  {
    CommonDaysBefore(m) + if m > 2 && Leap(y) then 1 else 0
  }

  function DayNumber(d: Date): int
    requires ValidDate(d)
  {
    YearStart(d.year) + DaysBefore(d.year, d.month) + d.day - 1
  }

  lemma MonthTable()
    ensures CommonDaysBefore(1) == 0 && CommonDaysBefore(2) == 31 && CommonDaysBefore(3) == 59
    ensures CommonDaysBefore(4) == 90 && CommonDaysBefore(5) == 120 && CommonDaysBefore(6) == 151
    ensures CommonDaysBefore(7) == 181 && CommonDaysBefore(8) == 212 && CommonDaysBefore(9) == 243
    ensures CommonDaysBefore(10) == 273 && CommonDaysBefore(11) == 304 && CommonDaysBefore(12) == 334
    ensures CommonDaysBefore(13) == 365
  {
    assert CommonDaysBefore(3) == 59;
    assert CommonDaysBefore(5) == 120;
    assert CommonDaysBefore(7) == 181;
    assert CommonDaysBefore(9) == 243;
    assert CommonDaysBefore(11) == 304;
  }

  /** A year is 365 days long, or 366 when it is a leap year. */
  lemma YearLength(y: int)
    ensures YearStart(y + 1) - YearStart(y) == if Leap(y) then 366 else 365
  {
    LeapsGrow(y);
  }

  lemma LeapsGrow(y: int)
    ensures LeapsBefore(y + 1) - LeapsBefore(y) == if Leap(y) then 1 else 0
  {
    var a, b, c := y / 4 - (y - 1) / 4, y / 100 - (y - 1) / 100, y / 400 - (y - 1) / 400;
    StepDiv4(y);
    StepDiv100(y);
    StepDiv400(y);
    Multiples(y);
    assert LeapsBefore(y + 1) - LeapsBefore(y) == a - b + c;
  }

  lemma StepDiv4(y: int)
    ensures y / 4 - (y - 1) / 4 == if y % 4 == 0 then 1 else 0
  {
  }

  lemma StepDiv100(y: int)
    ensures y / 100 - (y - 1) / 100 == if y % 100 == 0 then 1 else 0
  {
  }

  lemma StepDiv400(y: int)
    ensures y / 400 - (y - 1) / 400 == if y % 400 == 0 then 1 else 0
  {
  }

  lemma Multiples(y: int)
    ensures y % 100 == 0 ==> y % 4 == 0
    ensures y % 400 == 0 ==> y % 100 == 0
  {
  }

  lemma DayNumberOfNext(d: Date)
    requires ValidDate(d)
    ensures ValidDate(NextDate(d)) && DayNumber(NextDate(d)) == DayNumber(d) + 1
  {
    if d.day == DaysInMonth(d.year, d.month) {
      MonthTable();
      if d.month == 12 {
        YearLength(d.year);
      }
    }
  }

  lemma DayNumberOfPrevious(d: Date)
    requires ValidDate(d)
    ensures ValidDate(PreviousDate(d)) && DayNumber(PreviousDate(d)) == DayNumber(d) - 1
  {
    if d.day == 1 {
      MonthTable();
      if d.month == 1 {
        YearLength(d.year - 1);
      }
    }
  }

  lemma EpochIsZero()
    ensures DayNumber(EPOCH) == 0
  {
    assert 1969 / 4 == 492 && 1969 / 100 == 19 && 1969 / 400 == 4;
    assert YearStart(1970) == 0 && DaysBefore(1970, 1) == 0;
  }

  /** Counting days and the closed form agree. */
  lemma {:induction false} CountingIsDayNumber(n: int)
    ensures DayNumber(DateOfDay(n)) == n
    decreases if n < 0 then -n else n
  {
    if n == 0 {
      EpochIsZero();
    } else if n > 0 {
      CountingIsDayNumber(n - 1);
      DayNumberOfNext(DateOfDay(n - 1));
    } else {
      CountingIsDayNumber(n + 1);
      DayNumberOfPrevious(DateOfDay(n + 1));
    }
  }

  lemma {:induction false} YearStartsGrow(y: int, z: int)
    requires y <= z
    ensures YearStart(y) + 365 * (z - y) <= YearStart(z)
    decreases z - y
  {
    if y < z {
      YearStartsGrow(y, z - 1);
      YearLength(z - 1);
    }
  }

  lemma DayWithinYear(d: Date)
    requires ValidDate(d)
    ensures YearStart(d.year) <= DayNumber(d) < YearStart(d.year + 1)
  {
    MonthTable();
    YearLength(d.year);
  }

  lemma {:induction false} MonthsGrow(y: int, m: int, k: int)
    requires 1 <= m < k <= 13
    ensures DaysBefore(y, m) + DaysInMonth(y, m) <= DaysBefore(y, k)
  {
    if m + 1 < k {
      MonthsGrow(y, m, k - 1);
    }
  }

  lemma EarlierYear(a: Date, b: Date)
    requires ValidDate(a) && ValidDate(b) && a.year < b.year
    ensures DayNumber(a) < DayNumber(b)
  {
    DayWithinYear(a);
    DayWithinYear(b);
    YearStartsGrow(a.year + 1, b.year);
  }

  /** Distinct valid dates have distinct numbers. */
  lemma DayNumberInjective(a: Date, b: Date)
    requires ValidDate(a) && ValidDate(b) && DayNumber(a) == DayNumber(b)
    ensures a == b
  {
    if a.year < b.year {
      EarlierYear(a, b);
    } else if b.year < a.year {
      EarlierYear(b, a);
    } else if a.month < b.month {
      MonthsGrow(a.year, a.month, b.month);
    } else if b.month < a.month {
      MonthsGrow(a.year, b.month, a.month);
    }
  }

  /** Every valid date is reached by counting, and at its own number only. */
  lemma DateOfDayNumber(d: Date)
    requires ValidDate(d)
    ensures DateOfDay(DayNumber(d)) == d
  {
    CountingIsDayNumber(DayNumber(d));
    DayNumberInjective(DateOfDay(DayNumber(d)), d);
  }

  /** A day that every year has recurs within any 366 consecutive days. */
  lemma CommonDayRecurs(n: int, m: int, d: int) returns (k: int)
    requires 1 <= m <= 12 && 1 <= d <= CommonDays(m)
    ensures n <= k <= n + 365
    ensures DateOfDay(k).month == m && DateOfDay(k).day == d
  {
    var y := DateOfDay(n).year;
    CountingIsDayNumber(n);
    DayWithinYear(DateOfDay(n));
    var here, next := Date(y, m, d), Date(y + 1, m, d);
    DateOfDayNumber(here);
    DateOfDayNumber(next);
    SameDayNextYear(y, m, d);
    k := if DayNumber(here) >= n then DayNumber(here) else DayNumber(next);
  }

  lemma SameDayNextYear(y: int, m: int, d: int)
    requires 1 <= m <= 12 && 1 <= d <= CommonDays(m)
    ensures DayNumber(Date(y + 1, m, d)) <= DayNumber(Date(y, m, d)) + 366
    ensures YearStart(y) <= DayNumber(Date(y, m, d)) <= YearStart(y) + 365
    ensures YearStart(y + 1) <= DayNumber(Date(y + 1, m, d))
  {
    YearLength(y);
    DayWithinYear(Date(y, m, d));
    DayWithinYear(Date(y + 1, m, d));
  }

  // ---------- epoch_days_to_date ----------

  /** The date of epoch day `days`, by the arithmetic of cesp.rs. Every operand is a natural number
      there; the largest intermediate value is `days + 719468`. */
  function EpochDaysToDate(days: nat): (r: (nat, nat, nat)) {
    var z := days + 719468;
    var era := z / 146097;
    DateInEra(era, z - era * 146097)
  }

  /** Day `doe` of an era of 400 years that begins on 1 March. */
  function DateInEra(era: nat, doe: nat): (nat, nat, nat)
    requires doe < 146097
  {
    var yoe := YearOfEra(doe);
    DayOfEraYear(doe);
    DateFromMarch(yoe + era * 400, doe - (365 * yoe + yoe / 4 - yoe / 100))
  }

  /** Day `doy` of the year that begins on 1 March of year `y`. */
  function DateFromMarch(y: nat, doy: nat): (nat, nat, nat)
    requires doy < 366
  {
    var mp := (5 * doy + 2) / 153;
    var d := doy - (153 * mp + 2) / 5 + 1;
    var m := if mp < 10 then mp + 3 else mp - 9;
    (if m <= 2 then y + 1 else y, m, d)
  }

  function YearOfEra(doe: nat): nat
    requires doe < 146097
  {
    (doe - doe / 1460 + doe / 36524 - doe / 146096) / 365
  }

  /** Days of an era (400 years counted from 1 March) that precede its year `yoe`. */
  function EraDays(yoe: int): int {
    365 * yoe + yoe / 4 - yoe / 100 + yoe / 400
  }

  lemma DivIs(n: int, k: int, q: int)
    requires 0 < k && k * q <= n < k * q + k
    ensures n / k == q
  {
    if n / k > q {
      MultipleAtLeast(k, n / k - q);
    } else if n / k < q {
      MultipleAtLeast(k, q - n / k);
    }
  }

  lemma MultipleAtLeast(k: int, x: int)
    requires 0 < k && 1 <= x
    ensures k * x >= k
  {
  }

  /** A day of the era split into century, four-year cycle, year of the cycle and day of the year. */
  lemma YearOfEraSplit(c: nat, q: nat, s: nat, t: nat)
    requires c < 4 && q < 25 && s < 4
    requires t < 365 || (t == 365 && s == 3 && (q < 24 || c == 3))
    ensures var doe := 36524 * c + 1461 * q + 365 * s + t;
            doe < 146097 && YearOfEra(doe) == 100 * c + 4 * q + s
  {
    var doe := 36524 * c + 1461 * q + 365 * s + t;
    DivIs(doe, 146096, if doe == 146096 then 1 else 0);
    DivIs(doe, 36524, if doe == 146096 then 4 else c);
    var low := 24 * c + q + 365 * s + t;
    var f := if low < 1460 then 0 else 1;
    DivIs(doe, 1460, 25 * c + q + f);
    DivIs(365 * (100 * c + 4 * q + s) + t - f, 365, 100 * c + 4 * q + s);
  }

  /** Years of the era before the given one, split the same way. */
  lemma EraDaysSplit(c: nat, q: nat, s: nat)
    requires c < 4 && q < 25 && s <= 4
    ensures var y := 100 * c + 4 * q + s;
            EraDays(y) == 36524 * c + 1461 * q + 365 * s
                          + if s < 4 then 0 else if q < 24 || c == 3 then 1 else 0
  {
    var y := 100 * c + 4 * q + s;
    DivIs(y, 4, 25 * c + q + if s < 4 then 0 else 1);
    DivIs(y, 100, c + if s == 4 && q == 24 then 1 else 0);
    DivIs(y, 400, if y == 400 then 1 else 0);
  }

  lemma YearOfEraExact(doe: nat)
    requires doe < 146097
    ensures var yoe := YearOfEra(doe); yoe < 400 && EraDays(yoe) <= doe < EraDays(yoe + 1)
  {
    var c, q, s, t := EraSplit(doe);
    YearOfEraSplit(c, q, s, t);
    EraDaysSplit(c, q, s);
    EraDaysSplit(c, q, s + 1);
  }

  lemma EraSplit(doe: nat) returns (c: nat, q: nat, s: nat, t: nat)
    requires doe < 146097
    ensures c < 4 && q < 25 && s < 4 && doe == 36524 * c + 1461 * q + 365 * s + t
    ensures t < 365 || (t == 365 && s == 3 && (q < 24 || c == 3))
  {
    c := if doe == 146096 then 3 else doe / 36524;
    var r := doe - 36524 * c;
    q := r / 1461;
    var u := r - 1461 * q;
    s := if u == 1460 then 3 else u / 365;
    t := u - 365 * s;
  }

  /** The day of a year counted from 1 March, split into month and day. */
  lemma MarchMonth(doy: nat, mp: nat)
    requires doy < 366 && mp == (5 * doy + 2) / 153
    ensures mp < 12
    ensures var d := doy - (153 * mp + 2) / 5 + 1;
            var m := if mp < 10 then mp + 3 else mp - 9;
            && 1 <= d <= (if m == 2 then 29 else CommonDays(m))
            && (m == 2 && d == 29 <==> doy == 365)
            && CommonDaysBefore(m) + d - 1 == if m > 2 then doy + 59 else doy - 306
  {
    MonthTable();
  }

  /** The dates of the year that runs from March of `y` to February of `y + 1`. */
  lemma MarchYear(y: nat, doy: nat)
    requires doy < 366
    requires doy == 365 ==> Leap(y + 1)
    ensures var (year, m, d) := DateFromMarch(y, doy);
            ValidDate(Date(year, m, d)) && DayNumber(Date(year, m, d)) == YearStart(y + 1) + doy - 306
  {
    MarchMonth(doy, (5 * doy + 2) / 153);
    YearLength(y);
  }

  lemma EraYearStart(era: int, yoe: int)
    requires 0 <= yoe < 400
    ensures YearStart(yoe + 400 * era + 1) == 146097 * era + EraDays(yoe) - 719162
    ensures EraDays(yoe + 1) - EraDays(yoe) == if Leap(yoe + 400 * era + 1) then 366 else 365
    ensures EraDays(yoe) == 365 * yoe + yoe / 4 - yoe / 100
  {
    var y := yoe + 400 * era;
    DivIs(y, 4, yoe / 4 + 100 * era);
    DivIs(y, 100, yoe / 100 + 4 * era);
    DivIs(y, 400, era);
    YearLength(y + 1);
    DivIs(y + 1, 4, (yoe + 1) / 4 + 100 * era);
    DivIs(y + 1, 100, (yoe + 1) / 100 + 4 * era);
    DivIs(y + 1, 400, (yoe + 1) / 400 + era);
  }

  lemma DayOfEraYear(doe: nat)
    requires doe < 146097
    ensures var yoe := YearOfEra(doe);
            && 0 <= doe - (365 * yoe + yoe / 4 - yoe / 100) < 366
            && EraDays(yoe) == 365 * yoe + yoe / 4 - yoe / 100
  {
    YearOfEraExact(doe);
    EraYearStart(0, YearOfEra(doe));
  }

  lemma DateInEraIsCounting(era: nat, doe: nat, day: int)
    requires doe < 146097 && era * 146097 + doe == day + 719468
    ensures var (y, m, d) := DateInEra(era, doe); Date(y, m, d) == DateOfDay(day)
  {
    var yoe := YearOfEra(doe);
    YearOfEraExact(doe);
    EraYearStart(era, yoe);
    DayOfEraYear(doe);
    MarchYearCounted(yoe + era * 400, doe - EraDays(yoe), day);
  }

  lemma EpochDayInEra(days: nat) returns (era: nat, doe: nat)
    ensures doe < 146097 && era * 146097 + doe == days + 719468
    ensures EpochDaysToDate(days) == DateInEra(era, doe)
  {
    era := (days + 719468) / 146097;
    doe := days + 719468 - era * 146097;
  }

  /** The arithmetic is exact: for every day number it gives the date found by counting days. */
  lemma EpochDaysToDateIsCounting(days: nat)
    ensures var (y, m, d) := EpochDaysToDate(days); Date(y, m, d) == DateOfDay(days)
  {
    var era, doe := EpochDayInEra(days);
    DateInEraIsCounting(era, doe, days);
  }

  lemma MarchYearCounted(y: nat, doy: nat, day: int)
    requires doy < 366 && (doy == 365 ==> Leap(y + 1))
    requires YearStart(y + 1) + doy - 306 == day
    ensures var (year, m, d) := DateFromMarch(y, doy); Date(year, m, d) == DateOfDay(day)
  {
    MarchYear(y, doy);
    var (year, m, d) := DateFromMarch(y, doy);
    DateOfDayNumber(Date(year, m, d));
  }

  /** So consecutive day numbers give consecutive dates. */
  lemma EpochDaysConsecutive(days: nat)
    ensures var (y, m, d) := EpochDaysToDate(days);
            var (y', m', d') := EpochDaysToDate(days + 1);
            NextDate(Date(y, m, d)) == Date(y', m', d')
  {
    EpochDaysToDateIsCounting(days);
    EpochDaysToDateIsCounting(days + 1);
  }
}
