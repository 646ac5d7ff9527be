/** The search for the next run of a cron expression (scheduling.rs), and how far it has to look.

Instants are nanoseconds since the Unix epoch; local minutes are minutes since 1970-01-01T00:00 in a
zone that is a fixed number of whole minutes ahead of UTC. */
module Schedule {
  import opened Text
  import opened Collections
  import opened Calendar
  import opened Cron

  // ---------- Expressions ----------

  datatype CronFields = CronFields(
    minute: seq<nat>, hour: seq<nat>, dayOfMonth: seq<nat>, month: seq<nat>, dayOfWeek: seq<nat>)

  /** Rust's `split_whitespace`: the maximal runs of other characters. */
  function Words(s: string): (r: seq<string>)
    ensures forall w :: w in r ==> w != [] && forall i :: 0 <= i < |w| ==> !IsWhitespace(w[i])
    decreases |s|
  {
    if s == [] then []
    else if IsWhitespace(s[0]) then Words(s[1..])
    else
      var n := WordLength(s);
      [s[..n]] + Words(s[n..])
  }

  function WordLength(s: string): (n: nat)
    ensures n <= |s| && forall i :: 0 <= i < n ==> !IsWhitespace(s[i])
    ensures n < |s| ==> IsWhitespace(s[n])
  {
    if s == [] || IsWhitespace(s[0]) then 0 else 1 + WordLength(s[1..])
  }

  /** The fields an expression denotes; `None` unless it has five well-formed fields. */
  ghost function CronDenotation(expr: string): Option<CronFields> {
    var w := Words(expr);
    if |w| != 5 then None
    else
      match (FieldValues(w[0], MINUTES), FieldValues(w[1], HOURS), FieldValues(w[2], DAYS),
             FieldValues(w[3], MONTHS), FieldValues(w[4], WEEKDAYS))
      case (Some(mi), Some(h), Some(d), Some(mo), Some(dw)) => Some(CronFields(mi, h, d, mo, dw))
      case _ => None
  }

  /** Every list ascends strictly, stays in its range and is not empty. */
  ghost predicate WellFormed(f: CronFields) {
    && ProperField(f.minute, MINUTES) && ProperField(f.hour, HOURS) && ProperField(f.dayOfMonth, DAYS)
    && ProperField(f.month, MONTHS) && ProperField(f.dayOfWeek, WEEKDAYS)
  }

  ghost predicate ProperField(s: seq<nat>, range: FieldRange) {
    && s != []
    && (forall v :: v in s ==> range.Holds(v))
    && (forall i, j :: 0 <= i < j < |s| ==> s[i] < s[j])
  }

  method ParseCronExpression(expr: string) returns (r: Option<CronFields>)
    ensures r == CronDenotation(expr)
    ensures r.Some? ==> WellFormed(r.value)
  {
    var parts := Words(expr);
    if |parts| != 5 {
      return None;
    }
    var minute := ExpandField(parts[0], MINUTES);
    if minute.None? { return None; }
    var hour := ExpandField(parts[1], HOURS);
    if hour.None? { return None; }
    var dayOfMonth := ExpandField(parts[2], DAYS);
    if dayOfMonth.None? { return None; }
    var month := ExpandField(parts[3], MONTHS);
    if month.None? { return None; }
    var dayOfWeek := ExpandField(parts[4], WEEKDAYS);
    if dayOfWeek.None? { return None; }
    return Some(CronFields(minute.value, hour.value, dayOfMonth.value, month.value, dayOfWeek.value));
  }

  // ---------- Which minutes an expression selects ----------

  /** Days since Sunday; 1970-01-01 was a Thursday. */
  function Weekday(day: int): (w: nat)
    ensures w < 7
  {
    (day + 4) % 7
  }

  ghost predicate Covers(s: seq<nat>, range: FieldRange) {
    forall v: nat :: range.Holds(v) ==> v in s
  }

  /** A day is selected by the field that is not a wildcard; by either, when neither is one. */
  ghost predicate DaySelected(f: CronFields, day: int) {
    var dom, dow := DateOfDay(day).day in f.dayOfMonth, Weekday(day) in f.dayOfWeek;
    && DateOfDay(day).month in f.month
    && if Covers(f.dayOfMonth, DAYS) then dow
       else if Covers(f.dayOfWeek, WEEKDAYS) then dom
       else dom || dow
  }

  /** The expression selects local minute `t`. */
  ghost predicate Fires(f: CronFields, t: int) {
    DaySelected(f, t / 1440) && t % 1440 / 60 in f.hour && t % 60 in f.minute
  }

  const MINUTE: int := 60_000_000_000
  const WINDOW: int := 366 * 24 * 60 // minutes

  /** The expression selects instant `u`, in a zone `offset` minutes ahead of UTC. */
  ghost predicate FiresAt(f: CronFields, offset: int, u: int) {
    var local := u + offset * MINUTE;
    local % MINUTE == 0 && Fires(f, local / MINUTE)
  }

  /** Some instant of the 366 days after `from` is selected. */
  ghost predicate FiresWithinWindow(f: CronFields, offset: int, from: int) {
    exists u :: from < u <= from + WINDOW * MINUTE && FiresAt(f, offset, u)
  }

  // ---------- Wildcards are recognised by size ----------

  function Range(lo: nat, hi: nat): (s: set<nat>)
    ensures forall v :: v in s <==> lo <= v <= hi
    ensures |s| == if lo <= hi then hi + 1 - lo else 0
    decreases hi + 1 - lo
  {
    if lo > hi then {} else {lo} + Range(lo + 1, hi)
  }

  /** A field holds as many values as its range exactly when it holds all of them. */
  lemma FullBySize(s: seq<nat>, range: FieldRange)
    requires ProperField(s, range) && range.min <= range.max
    ensures |Elements(s)| == range.max + 1 - range.min <==> Covers(s, range)
  {
    var a, b := Elements(s), Range(range.min, range.max);
    SubsetSize(a, b);
    if Covers(s, range) {
      assert a == b;
    } else {
      var v: nat :| range.Holds(v) && v !in s;
      assert v in b && v !in a;
    }
  }

  // ---------- The scan ----------

  /** The test of the scan: wildcards are fields with as many values as their range. */
  predicate CandidateMatches(f: CronFields, candidate: int) {
    var date, dow := DateOfDay(candidate / 1440), Weekday(candidate / 1440);
    var domWild := |Elements(f.dayOfMonth)| == 31;
    var dowWild := |Elements(f.dayOfWeek)| == 7;
    var dayMatches :=
      if domWild && dowWild then true
      else if domWild then dow in f.dayOfWeek
      else if dowWild then date.day in f.dayOfMonth
      else date.day in f.dayOfMonth || dow in f.dayOfWeek;
    && date.month in f.month
    && dayMatches && candidate % 1440 / 60 in f.hour && candidate % 60 in f.minute
  }

  lemma CandidateMatchesIsFires(f: CronFields, t: int)
    requires WellFormed(f)
    ensures CandidateMatches(f, t) <==> Fires(f, t)
  {
    FullBySize(f.dayOfMonth, DAYS);
    FullBySize(f.dayOfWeek, WEEKDAYS);
    assert WEEKDAYS.Holds(Weekday(t / 1440));
  }

  /** The scan: the first of the next `WINDOW` minutes that is selected. */
  method FirstMatch(f: CronFields, first: int) returns (r: Option<int>)
    requires WellFormed(f)
    ensures match r
            case None => forall t :: first <= t < first + WINDOW ==> !Fires(f, t)
            case Some(m) => first <= m < first + WINDOW && Fires(f, m) && forall t :: first <= t < m ==> !Fires(f, t)
  {
    var candidate := first;
    for i := 0 to WINDOW
      invariant candidate == first + i
      invariant forall t :: first <= t < candidate ==> !Fires(f, t)
    {
      CandidateMatchesIsFires(f, candidate);
      if CandidateMatches(f, candidate) {
        return Some(candidate);
      }
      candidate := candidate + 1;
    }
    return None;
  }

  /** The next run is the first selected instant after `from`, and it is found exactly when the 366 days
      after `from` hold one. */
  method NextCronRun(expr: string, from: int, offset: int) returns (r: Option<int>)
    ensures CronDenotation(expr).None? ==> r == None
    ensures CronDenotation(expr).Some? ==> IsNextRun(CronDenotation(expr).value, offset, from, r)
    ensures CronDenotation(expr).Some? && SelectsEveryYear(CronDenotation(expr).value) ==> r.Some?
  {
    var parsed := ParseCronExpression(expr);
    if parsed.None? {
      return None;
    }
    var found := FirstMatch(parsed.value, FirstMinute(from, offset));
    if found.None? {
      NotInWindow(parsed.value, from, offset);
      return None;
    }
    FoundInWindow(parsed.value, from, offset, found.value);
    return Some(InstantOf(found.value, offset));
  }

  lemma NotInWindow(f: CronFields, from: int, offset: int)
    requires WellFormed(f)
    requires var first := FirstMinute(from, offset);
             forall s :: first <= s < first + WINDOW ==> !Fires(f, s)
    ensures IsNextRun(f, offset, from, None) && !SelectsEveryYear(f)
  {
    forall v | from < v <= from + WINDOW * MINUTE
      ensures !FiresAt(f, offset, v)
    {
    }
    if SelectsEveryYear(f) {
      WindowSuffices(f, offset, from);
    }
  }

  function InstantOf(t: int, offset: int): int {
    (t - offset) * MINUTE
  }

  /** The first whole local minute after `from`: one minute on, with the seconds cleared. */
  function FirstMinute(from: int, offset: int): int {
    (from + offset * MINUTE + MINUTE) / MINUTE
  }

  ghost predicate IsNextRun(f: CronFields, offset: int, from: int, r: Option<int>) {
    match r
    case None => !FiresWithinWindow(f, offset, from)
    case Some(u) =>
      && from < u <= from + WINDOW * MINUTE
      && FiresAt(f, offset, u)
      && forall v :: from < v < u ==> !FiresAt(f, offset, v)
  }

  lemma FoundInWindow(f: CronFields, from: int, offset: int, t: int)
    requires var first := FirstMinute(from, offset);
             first <= t < first + WINDOW && forall s :: first <= s < t ==> !Fires(f, s)
    requires Fires(f, t)
    ensures IsNextRun(f, offset, from, Some(InstantOf(t, offset)))
  {
    var u := (t - offset) * MINUTE;
    forall v | from < v < u
      ensures !FiresAt(f, offset, v)
    {
    }
  }

  // ---------- Is a year long enough? ----------

  /** The expression names a weekday, or a day of the month that every year has. */
  ghost predicate SelectsEveryYear(f: CronFields) {
    || !Covers(f.dayOfWeek, WEEKDAYS)
    || exists m, d :: m in f.month && d in f.dayOfMonth && d <= CommonDays(m)
  }

  /** Any 366 consecutive days hold seven consecutive days of each month. */
  lemma WeekOfMonth(n: int, m: int) returns (k: int)
    requires 1 <= m <= 12
    ensures n <= k && k + 6 <= n + 365
    ensures forall day :: k <= day < k + 7 ==> DateOfDay(day).month == m
  {
    var today := DateOfDay(n);
    CountingIsDayNumber(n);
    var start := WeekStart(today, m);
    WeekStartInWindow(today, m);
    k := DayNumber(start);
    forall day | k <= day < k + 7
      ensures DateOfDay(day).month == m
    {
      WeekFrom(start, day - k);
    }
  }

  /** The days of the week that begins on the given day lie in its month. */
  lemma WeekFrom(start: Date, i: nat)
    requires ValidDate(start) && start.day <= 22 && i < 7
    ensures DateOfDay(DayNumber(start) + i).month == start.month
  {
    DateOfDayNumber(Date(start.year, start.month, start.day + i));
  }

  /** The first day from `today` on that has six more days of month `m` after it. */
  function WeekStart(today: Date, m: int): Date {
    if today.month == m && today.day <= 22 then today
    else Date(if today.month < m then today.year else today.year + 1, m, 1)
  }

  lemma WeekStartInWindow(today: Date, m: int)
    requires ValidDate(today) && 1 <= m <= 12
    ensures ValidDate(WeekStart(today, m)) && WeekStart(today, m).day <= 22 && WeekStart(today, m).month == m
    ensures DayNumber(today) <= DayNumber(WeekStart(today, m)) <= DayNumber(today) + 359
  {
    if today.month < m {
      LaterThisYear(today, m);
    } else if today.month > m || today.day > 22 {
      NextYear(today, m);
    }
  }

  lemma LaterThisYear(today: Date, m: int)
    requires ValidDate(today) && today.month < m <= 12
    ensures DayNumber(today) <= DayNumber(Date(today.year, m, 1)) <= DayNumber(today) + 359
  {
    DaysBeforeBounds(today.year, m);
    DaysBeforeBounds(today.year, today.month);
    MonthsGrow(today.year, today.month, m);
  }

  lemma NextYear(today: Date, m: int)
    requires ValidDate(today) && 1 <= m <= today.month && (m == today.month ==> today.day > 22)
    ensures DayNumber(today) <= DayNumber(Date(today.year + 1, m, 1)) <= DayNumber(today) + 359
  {
    var y := today.year;
    var first, b := Date(y + 1, m, 1), DaysBefore(y + 1, m);
    YearLength(y);
    DaysApart(y, today.month, today.day, m);
    assert DayNumber(first) == YearStart(y + 1) + b;
  }

  lemma DaysApart(y: int, month: int, day: int, m: int)
    requires 1 <= m <= month <= 12 && 1 <= day <= DaysInMonth(y, month) && (m == month ==> day > 22)
    ensures 0 <= DaysBefore(y + 1, m) <= DaysBefore(y, month) + day - 8 <= 358
  {
    DaysBeforeBounds(y, m);
    DaysBeforeBounds(y + 1, m);
    DaysBeforeBounds(y, month);
    MonthTable();
    if m < month {
      MonthsGrow(y, m, month);
    }
  }

  lemma DaysBeforeBounds(y: int, m: int)
    requires 1 <= m <= 12
    ensures 0 <= CommonDaysBefore(m) <= DaysBefore(y, m) <= CommonDaysBefore(m) + 1 <= 335
  {
    MonthTable();
  }

  lemma WeekdayInWeek(k: int, w: nat) returns (i: nat)
    requires w < 7
    ensures i < 7 && Weekday(k + i) == w
  {
    i := (w - k - 4) % 7;
  }

  lemma SelectedDay(f: CronFields, n: int) returns (k: int)
    requires WellFormed(f) && SelectsEveryYear(f)
    ensures n <= k <= n + 365 && DaySelected(f, k)
  {
    if !Covers(f.dayOfWeek, WEEKDAYS) {
      var m, w := f.month[0], f.dayOfWeek[0];
      assert MONTHS.Holds(m) && WEEKDAYS.Holds(w);
      var start := WeekOfMonth(n, m);
      var i := WeekdayInWeek(start, w);
      k := start + i;
    } else {
      var m, d :| m in f.month && d in f.dayOfMonth && d <= CommonDays(m);
      assert MONTHS.Holds(m) && DAYS.Holds(d);
      k := CommonDayRecurs(n, m, d);
      assert WEEKDAYS.Holds(Weekday(k));
    }
  }

  /** The 366-day bound is long enough for every expression that selects a day of every year. */
  lemma WindowSuffices(f: CronFields, offset: int, from: int)
    requires WellFormed(f) && SelectsEveryYear(f)
    ensures FiresWithinWindow(f, offset, from)
  {
    var h, mi := f.hour[0], f.minute[0];
    assert HOURS.Holds(h) && MINUTES.Holds(mi);
    var tod := 60 * h + mi;
    var first := FirstMinute(from, offset);
    var k := SelectedDay(f, FirstDay(first, tod));
    var t := 1440 * k + tod;
    MinuteParts(k, h, mi);
    var u := (t - offset) * MINUTE;
    assert FiresAt(f, offset, u);
  }

  /** The first day on which time of day `tod` is not before minute `first`. */
  function FirstDay(first: int, tod: nat): int {
    if tod >= first % 1440 then first / 1440 else first / 1440 + 1
  }

  lemma MinuteParts(k: int, h: nat, mi: nat)
    requires h < 24 && mi < 60
    ensures var t := 1440 * k + (60 * h + mi); t / 1440 == k && t % 1440 / 60 == h && t % 60 == mi
  {
    var t := 1440 * k + (60 * h + mi);
    DivIs(t, 1440, k);
    DivIs(60 * h + mi, 60, h);
    DivIs(t, 60, 24 * k + h);
  }

  /** 2025-03-01: the next 29 February is three years away. */
  const AFTER_LEAP_DAY := 20148

  lemma NoLeapDayAhead(k: int)
    requires AFTER_LEAP_DAY <= k <= AFTER_LEAP_DAY + 366
    ensures DateOfDay(k).day <= CommonDays(DateOfDay(k).month)
  {
    var date := DateOfDay(k);
    CountingIsDayNumber(k);
    DayWithinYear(date);
    MonthTable();
    assert YearStart(2025) == 20089 && YearStart(2026) == 20454 && YearStart(2027) == 20819;
    if date.year < 2025 {
      YearStartsGrow(date.year + 1, 2025);
    } else if date.year > 2026 {
      YearStartsGrow(2027, date.year);
    }
  }

  lemma SomeStartMisses(f: CronFields, offset: int)
    requires WellFormed(f) && !SelectsEveryYear(f)
    ensures !FiresWithinWindow(f, offset, (1440 * AFTER_LEAP_DAY - offset) * MINUTE)
  {
    var from := (1440 * AFTER_LEAP_DAY - offset) * MINUTE;
    var first := FirstMinute(from, offset);
    forall t | first <= t < first + WINDOW
      ensures !Fires(f, t)
    {
      var day := t / 1440;
      NoLeapDayAhead(day);
      assert WEEKDAYS.Holds(Weekday(day));
      assert DateOfDay(day).month in f.month ==> DateOfDay(day).day !in f.dayOfMonth;
      assert DAYS.Holds(DateOfDay(day).day);
    }
  }

  /** The bound is exact: the search finds a run from every start if and only if the expression names a
      weekday or a day that every year has. Only leap days and impossible dates can be missed. */
  lemma SearchBoundExact(f: CronFields, offset: int)
    requires WellFormed(f)
    ensures (forall from :: FiresWithinWindow(f, offset, from)) <==> SelectsEveryYear(f)
  {
    if SelectsEveryYear(f) {
      forall from
        ensures FiresWithinWindow(f, offset, from)
      {
        WindowSuffices(f, offset, from);
      }
    } else {
      SomeStartMisses(f, offset);
    }
  }
}
