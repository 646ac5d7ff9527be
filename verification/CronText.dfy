/** What cron expressions mean, said on their text (scheduling.rs).

`Item` is a comma part as one writes it, with its text and the values it stands for. `ExpressionFiresExactly`
says of every expression built from items whether it is accepted, and at which civil dates and times it fires;
the weekday of a date is Zeller's congruence. */
module CronText {
  import opened Text
  import opened Collections
  import opened Calendar
  import opened Cron
  import opened Schedule

  // ---------- Words ----------

  ghost predicate IsWord(w: string) {
    w != [] && forall i :: 0 <= i < |w| ==> !IsWhitespace(w[i])
  }

  function Joined(words: seq<string>): string {
    if words == [] then "" else if |words| == 1 then words[0] else words[0] + " " + Joined(words[1..])
  }

  lemma {:induction false} WordLengthIs(w: string, rest: string)
    requires (forall i :: 0 <= i < |w| ==> !IsWhitespace(w[i])) && (rest == [] || IsWhitespace(rest[0]))
    ensures WordLength(w + rest) == |w|
  {
    if w == [] {
      assert w + rest == rest;
    } else {
      WordLengthIs(w[1..], rest);
      assert (w + rest)[1..] == w[1..] + rest;
    }
  }

  lemma FirstWord(w: string, rest: string)
    requires IsWord(w)
    ensures Words(w + " " + rest) == [w] + Words(rest)
    ensures Words(w) == [w]
  {
    WordLengthIs(w, " " + rest);
    WordLengthIs(w, "");
    assert w + "" == w && w + (" " + rest) == w + " " + rest;
    assert (w + " " + rest)[..|w|] == w && (w + " " + rest)[|w|..] == " " + rest;
    assert (" " + rest)[1..] == rest;
  }

  lemma {:induction false} WordsOfJoined(words: seq<string>)
    requires forall w :: w in words ==> IsWord(w)
    ensures Words(Joined(words)) == words
  {
    if words != [] {
      assert words[0] in words;
      FirstWord(words[0], Joined(words[1..]));
      WordsOfJoined(words[1..]);
    }
  }

  // ---------- Items ----------

  datatype Item =
    | Number(v: nat)
    | Span(lo: nat, hi: nat)
    | SpanStep(lo: nat, hi: nat, n: nat)
    | Star
    | StarStep(n: nat)
  {
    function Text(): string {
      match this
      case Number(v) => Decimal(v)
      case Span(lo, hi) => Decimal(lo) + "-" + Decimal(hi)
      case SpanStep(lo, hi, n) => Decimal(lo) + "-" + Decimal(hi) + "/" + Decimal(n)
      case Star => "*"
      case StarStep(n) => "*/" + Decimal(n)
    }

    /** Whether the item may stand in a field of the values `min` to `max`; weekdays may also be written as 7. */
    predicate Accepted(min: nat, max: nat, week: bool) {
      var top := if week then 7 else max;
      match this
      case Number(v) => min <= v <= top
      case Span(lo, hi) => min <= lo <= hi <= top
      case SpanStep(lo, hi, n) => min <= lo <= hi <= top && 1 <= n <= 0xFFFF_FFFF
      case Star => true
      case StarStep(n) => 1 <= n <= 0xFFFF_FFFF
    }

    /** Whether the item stands for `x`: Sunday is 0, also when it is written as 7. */
    ghost predicate Selects(x: nat, min: nat, max: nat, week: bool) {
      match this
      case Number(v) => x == Day(v, week)
      case Span(lo, hi) => InSpan(x, lo, hi, 1, week)
      case SpanStep(lo, hi, n) => n > 0 && InSpan(x, lo, hi, n, week)
      case Star => min <= x <= max
      case StarStep(n) => n > 0 && min <= x <= max && (x - min) % n == 0
    }
  }

  function Day(v: nat, week: bool): nat {
    if week && v == 7 then 0 else v
  }

  /** `x` is one of `lo`, `lo + n`, `lo + 2 * n`, ... up to `hi`. */
  ghost predicate InSpan(x: nat, lo: nat, hi: nat, n: nat, week: bool)
    requires n > 0
  {
    exists v: nat :: lo <= v <= hi && (v - lo) % n == 0 && x == Day(v, week)
  }

  predicate IsWeek(range: FieldRange) {
    range.min == 0 && range.max == 6
  }

  lemma ParseDecimal(n: nat)
    ensures ParseU32(Decimal(n)) == if n <= 0xFFFF_FFFF then Some(n) else None
  {
    assert IsDigit(Decimal(n)[0]);
  }

  lemma DecimalChars(n: nat, c: char)
    requires !IsDigit(c)
    ensures c !in Decimal(n)
  {
    assert forall i :: 0 <= i < |Decimal(n)| ==> IsDigit(Decimal(n)[i]);
  }

  lemma SplitOnceAt(a: string, sep: char, b: string)
    requires sep !in a
    ensures SplitOnce(a + [sep] + b, sep) == Some((a, b))
  {
    BeforeOfJoined(a, sep, b);
    assert (a + [sep] + b)[|a| + 1..] == b;
  }

  ghost predicate Means(part: string, range: FieldRange, item: Item) {
    var d := PartDenotation(part, range);
    && (d.Some? <==> item.Accepted(range.min, range.max, IsWeek(range)))
    && (d.Some? ==> forall x: nat :: x in d.value <==> item.Selects(x, range.min, range.max, IsWeek(range)))
  }

  lemma BoundsParsed(lo: nat, hi: nat, n: nat, range: FieldRange)
    requires n > 0 && range.max < U32_MAX
    ensures BoundsDenotation(Decimal(lo) + "-" + Decimal(hi), n, range)
         == if range.min <= lo <= hi <= (if IsWeek(range) then 7 else range.max)
            then Some(FoldedSet(range, Stepped(lo, hi, n))) else None
  {
    ParseDecimal(lo);
    ParseDecimal(hi);
    DecimalChars(lo, '-');
    SplitOnceAt(Decimal(lo), '-', Decimal(hi));
    assert Decimal(lo) + "-" + Decimal(hi) == Decimal(lo) + ['-'] + Decimal(hi);
  }

  lemma FoldedMeans(range: FieldRange, lo: nat, hi: nat, n: nat)
    requires n > 0
    ensures forall x: nat :: x in FoldedSet(range, Stepped(lo, hi, n)) <==> InSpan(x, lo, hi, n, IsWeek(range))
  {
    forall x: nat
      ensures x in FoldedSet(range, Stepped(lo, hi, n)) <==> InSpan(x, lo, hi, n, IsWeek(range))
    {
      if x in FoldedSet(range, Stepped(lo, hi, n)) {
        FoldedInSpan(range, lo, hi, n, x);
      }
      if InSpan(x, lo, hi, n, IsWeek(range)) {
        SpanInFolded(range, lo, hi, n, x);
      }
    }
  }

  lemma FoldedInSpan(range: FieldRange, lo: nat, hi: nat, n: nat, x: nat)
    requires n > 0 && x in FoldedSet(range, Stepped(lo, hi, n))
    ensures InSpan(x, lo, hi, n, IsWeek(range))
  {
    var v: nat :| v in Stepped(lo, hi, n) && x == Folded(range, v);
    assert x == Day(v, IsWeek(range));
  }

  lemma SpanInFolded(range: FieldRange, lo: nat, hi: nat, n: nat, x: nat)
    requires n > 0 && InSpan(x, lo, hi, n, IsWeek(range))
    ensures x in FoldedSet(range, Stepped(lo, hi, n))
  {
    var v: nat :| lo <= v <= hi && (v - lo) % n == 0 && x == Day(v, IsWeek(range));
    assert Reached(lo, n, v);
    assert v in Stepped(lo, hi, n) && Folded(range, v) == x;
  }

  lemma NumberMeans(v: nat, range: FieldRange)
    requires range.max < U32_MAX && range.min <= range.max
    ensures Means(Decimal(v), range, Number(v))
  {
    ParseDecimal(v);
    assert IsDigit(Decimal(v)[0]);
    DecimalChars(v, '/');
    DecimalChars(v, '-');
  }

  lemma SpanMeans(lo: nat, hi: nat, range: FieldRange)
    requires range.max < U32_MAX
    ensures Means(Span(lo, hi).Text(), range, Span(lo, hi))
  {
    var part := Span(lo, hi).Text();
    assert IsDigit(Decimal(lo)[0]) && part[0] == Decimal(lo)[0];
    DecimalChars(lo, '/');
    DecimalChars(hi, '/');
    assert part[|Decimal(lo)|] == '-';
    BoundsParsed(lo, hi, 1, range);
    FoldedMeans(range, lo, hi, 1);
  }

  lemma SpanStepParts(lo: nat, hi: nat, n: nat)
    ensures var part, bounds := SpanStep(lo, hi, n).Text(), Decimal(lo) + "-" + Decimal(hi);
            !("*/" <= part) && part != "*" && SplitOnce(part, '/') == Some((bounds, Decimal(n)))
  {
    var part, bounds := SpanStep(lo, hi, n).Text(), Decimal(lo) + "-" + Decimal(hi);
    assert IsDigit(Decimal(lo)[0]) && part[0] == Decimal(lo)[0];
    DecimalChars(lo, '/');
    DecimalChars(hi, '/');
    SplitOnceAt(bounds, '/', Decimal(n));
    assert part == bounds + ['/'] + Decimal(n);
  }

  lemma SpanStepMeans(lo: nat, hi: nat, n: nat, range: FieldRange)
    requires range.max < U32_MAX
    ensures Means(SpanStep(lo, hi, n).Text(), range, SpanStep(lo, hi, n))
  {
    SpanStepParts(lo, hi, n);
    ParseDecimal(n);
    if n > 0 {
      BoundsParsed(lo, hi, n, range);
      FoldedMeans(range, lo, hi, n);
    }
  }

  lemma StarMeans(range: FieldRange)
    ensures Means("*", range, Star)
  {
    assert !("*/" <= "*");
  }

  lemma StarStepMeans(n: nat, range: FieldRange)
    ensures Means(StarStep(n).Text(), range, StarStep(n))
  {
    var part := StarStep(n).Text();
    assert part[2..] == Decimal(n) && "*/" <= part;
    ParseDecimal(n);
  }

  lemma ItemMeans(item: Item, range: FieldRange)
    requires range.min <= range.max < U32_MAX
    ensures Means(item.Text(), range, item)
  {
    match item
    case Number(v) => NumberMeans(v, range);
    case Span(lo, hi) => SpanMeans(lo, hi, range);
    case SpanStep(lo, hi, n) => SpanStepMeans(lo, hi, n, range);
    case Star => StarMeans(range);
    case StarStep(n) => StarStepMeans(n, range);
  }

  lemma ItemChars(item: Item)
    ensures item.Text() != []
    ensures forall i :: 0 <= i < |item.Text()| ==> IsDigit(item.Text()[i]) || item.Text()[i] in "-/*"
  {
  }

  // ---------- Fields ----------

  function Commas(texts: seq<string>): string {
    if texts == [] then "" else if |texts| == 1 then texts[0] else texts[0] + [','] + Commas(texts[1..])
  }

  lemma {:induction false} SplitCommas(texts: seq<string>)
    requires texts != [] && forall i :: 0 <= i < |texts| ==> ',' !in texts[i]
    ensures Split(Commas(texts), ',') == texts
  {
    if |texts| == 1 {
      SplitPlain(texts[0], ',');
    } else {
      SplitCommas(texts[1..]);
      SplitPiece(texts[0], ',', Commas(texts[1..]));
    }
  }

  lemma {:induction false} CommasIsWord(texts: seq<string>)
    requires texts != [] && forall i :: 0 <= i < |texts| ==> IsWord(texts[i])
    ensures IsWord(Commas(texts))
  {
    if |texts| > 1 {
      CommasIsWord(texts[1..]);
    }
  }

  function Texts(items: seq<Item>): (r: seq<string>)
    ensures |r| == |items|
  {
    seq(|items|, i requires 0 <= i < |items| => items[i].Text())
  }

  function FieldText(items: seq<Item>): string {
    Commas(Texts(items))
  }

  predicate AllAccepted(items: seq<Item>, min: nat, max: nat, week: bool) {
    forall i :: 0 <= i < |items| ==> items[i].Accepted(min, max, week)
  }

  ghost predicate Selected(items: seq<Item>, x: nat, min: nat, max: nat, week: bool) {
    exists i :: 0 <= i < |items| && items[i].Selects(x, min, max, week)
  }

  lemma ItemText(item: Item)
    ensures ',' !in item.Text() && IsWord(item.Text())
  {
    ItemChars(item);
  }

  lemma SplitField(items: seq<Item>)
    requires items != []
    ensures Split(FieldText(items), ',') == Texts(items) && IsWord(FieldText(items))
  {
    forall i | 0 <= i < |items|
      ensures ',' !in Texts(items)[i] && IsWord(Texts(items)[i])
    {
      ItemText(items[i]);
    }
    SplitCommas(Texts(items));
    CommasIsWord(Texts(items));
  }

  ghost predicate FieldMeans(d: Option<set<nat>>, items: seq<Item>, range: FieldRange) {
    && (d.Some? <==> AllAccepted(items, range.min, range.max, IsWeek(range)))
    && (d.Some? ==> forall x: nat :: x in d.value <==> Selected(items, x, range.min, range.max, IsWeek(range)))
  }

  lemma SelectedPush(items: seq<Item>, item: Item, x: nat, min: nat, max: nat, week: bool)
    ensures Selected(items + [item], x, min, max, week)
       <==> Selected(items, x, min, max, week) || item.Selects(x, min, max, week)
  {
    var all := items + [item];
    assert all[|items|] == item;
    assert forall i :: 0 <= i < |items| ==> all[i] == items[i];
  }

  /** A field means the union of its items. */
  lemma {:induction false} FieldMeansItems(items: seq<Item>, range: FieldRange)
    requires range.min <= range.max < U32_MAX
    ensures FieldMeans(FieldDenotation(Texts(items), range), items, range)
  {
    if items != [] {
      var rest, item := items[..|items| - 1], items[|items| - 1];
      FieldMeansItems(rest, range);
      ItemMeans(item, range);
      assert items == rest + [item];
      DenotePush(rest, item, range);
      FieldMeansPush(FieldDenotation(Texts(rest), range), rest, item, range);
    }
  }

  lemma DenotePush(rest: seq<Item>, item: Item, range: FieldRange)
    ensures FieldDenotation(Texts(rest + [item]), range)
         == Union(FieldDenotation(Texts(rest), range), PartDenotation(item.Text(), range))
  {
    assert Texts(rest + [item]) == Texts(rest) + [item.Text()];
    assert (Texts(rest) + [item.Text()])[..|rest|] == Texts(rest);
  }

  function Union(a: Option<set<nat>>, b: Option<set<nat>>): Option<set<nat>> {
    if a.Some? && b.Some? then Some(a.value + b.value) else None
  }

  lemma FieldMeansPush(d: Option<set<nat>>, rest: seq<Item>, item: Item, range: FieldRange)
    ensures FieldMeans(d, rest, range) && Means(item.Text(), range, item) ==>
              FieldMeans(Union(d, PartDenotation(item.Text(), range)), rest + [item], range)
  {
    var min, max, week := range.min, range.max, IsWeek(range);
    forall x: nat
      ensures Selected(rest + [item], x, min, max, week) <==>
                Selected(rest, x, min, max, week) || item.Selects(x, min, max, week)
    {
      SelectedPush(rest, item, x, min, max, week);
    }
    AcceptedPush(rest, item, min, max, week);
  }

  lemma AcceptedPush(items: seq<Item>, item: Item, min: nat, max: nat, week: bool)
    ensures AllAccepted(items + [item], min, max, week)
       <==> AllAccepted(items, min, max, week) && item.Accepted(min, max, week)
  {
    var all := items + [item];
    assert all[|items|] == item;
    assert forall i :: 0 <= i < |items| ==> all[i] == items[i];
  }

  ghost predicate FieldReads(
    v: Option<seq<nat>>, items: seq<Item>, range: FieldRange, min: nat, max: nat, week: bool)
  {
    && (v.Some? <==> AllAccepted(items, min, max, week))
    && (v.Some? ==> ProperField(v.value, range))
    && (v.Some? ==> forall x: nat :: x in v.value <==> Selected(items, x, min, max, week))
  }

  /** A field of items is accepted exactly if each of them is, and selects what one of them selects. */
  lemma FieldExact(items: seq<Item>, range: FieldRange)
    requires items != [] && range.min <= range.max < U32_MAX
    ensures FieldReads(FieldValues(FieldText(items), range), items, range, range.min, range.max, IsWeek(range))
  {
    SplitField(items);
    FieldMeansItems(items, range);
    var d := FieldDenotation(Texts(items), range);
    if d.Some? {
      FieldInRange(Texts(items), range);
      var x :| x in d.value;
      assert x in Ascending(d.value, range.min, range.max);
    }
  }

  // ---------- Weekdays ----------

  /** Zeller's congruence, with Sunday as 0. January and February count as months of the year before. */
  function Zeller(d: Date): int {
    var m, y := if d.month <= 2 then d.month + 12 else d.month, if d.month <= 2 then d.year - 1 else d.year;
    (d.day + 13 * (m + 1) / 5 + y + y / 4 - y / 100 + y / 400 + 6) % 7
  }

  lemma SameRemainder(a: int, b: int, k: int)
    requires a == b + 7 * k
    ensures a % 7 == b % 7
  {
  }

  /** Days before month `m` of a year that begins in March, up to whole weeks. */
  lemma MonthResidue(m: int) returns (q: int)
    requires 1 <= m <= 12
    ensures CommonDaysBefore(m) + (if m <= 2 then 365 else 0) - 13 * ((if m <= 2 then m + 12 else m) + 1) / 5 == 7 * q
  {
    MonthTable();
    q := (CommonDaysBefore(m) + (if m <= 2 then 365 else 0) - 13 * ((if m <= 2 then m + 12 else m) + 1) / 5) / 7;
  }

  lemma MarchDayNumber(d: Date)
    requires ValidDate(d)
    ensures var y := if d.month <= 2 then d.year - 1 else d.year;
            DayNumber(d) == 365 * (y - 1970) + (y / 4 - y / 100 + y / 400) - 477
                            + CommonDaysBefore(d.month) + (if d.month <= 2 then 365 else 0) + d.day - 1
  {
    if d.month > 2 {
      LeapsGrow(d.year);
    }
  }

  /** The weekday found by counting days is that of Zeller's congruence, for every date. */
  lemma WeekdayIsZeller(d: Date)
    requires ValidDate(d)
    ensures Weekday(DayNumber(d)) == Zeller(d)
  {
    var y := if d.month <= 2 then d.year - 1 else d.year;
    MarchDayNumber(d);
    var q := MonthResidue(d.month);
    SameRemainder(DayNumber(d) + 4,
      d.day + 13 * ((if d.month <= 2 then d.month + 12 else d.month) + 1) / 5 + y + y / 4 - y / 100 + y / 400 + 6,
      52 * y - 102790 + q);
  }

  // ---------- Expressions ----------

  datatype Expression = Expression(
    minute: seq<Item>, hour: seq<Item>, day: seq<Item>, month: seq<Item>, weekday: seq<Item>)
  {
    function Fields(): seq<string> {
      [FieldText(minute), FieldText(hour), FieldText(day), FieldText(month), FieldText(weekday)]
    }

    function Text(): string {
      Joined(Fields())
    }

    predicate Complete() {
      minute != [] && hour != [] && day != [] && month != [] && weekday != []
    }

    predicate Accepted() {
      && AllAccepted(minute, 0, 59, false) && AllAccepted(hour, 0, 23, false) && AllAccepted(day, 1, 31, false)
      && AllAccepted(month, 1, 12, false) && AllAccepted(weekday, 0, 6, true)
    }

    ghost predicate OnDay(x: nat) {
      Selected(day, x, 1, 31, false)
    }

    ghost predicate OnWeekday(x: nat) {
      Selected(weekday, x, 0, 6, true)
    }

    /** A day field that selects everything leaves the choice to the other; otherwise either may choose. */
    ghost predicate OnDate(d: Date)
      requires ValidDate(d)
    {
      && Selected(month, d.month, 1, 12, false)
      && if forall x: nat :: 1 <= x <= 31 ==> OnDay(x) then OnWeekday(Zeller(d))
         else if forall x: nat :: x <= 6 ==> OnWeekday(x) then OnDay(d.day)
         else OnDay(d.day) || OnWeekday(Zeller(d))
    }

    ghost predicate FiresOn(d: Date, h: nat, mi: nat)
      requires ValidDate(d)
    {
      OnDate(d) && Selected(hour, h, 0, 23, false) && Selected(minute, mi, 0, 59, false)
    }
  }

  lemma ExpressionWords(e: Expression)
    requires e.Complete()
    ensures Words(e.Text()) == e.Fields()
  {
    SplitField(e.minute);
    SplitField(e.hour);
    SplitField(e.day);
    SplitField(e.month);
    SplitField(e.weekday);
    WordsOfJoined(e.Fields());
  }

  /** The fields hold what the items of the expression select. */
  ghost predicate Reads(f: CronFields, e: Expression) {
    && WellFormed(f)
    && (forall x: nat :: x in f.minute <==> Selected(e.minute, x, 0, 59, false))
    && (forall x: nat :: x in f.hour <==> Selected(e.hour, x, 0, 23, false))
    && (forall x: nat :: x in f.dayOfMonth <==> e.OnDay(x))
    && (forall x: nat :: x in f.month <==> Selected(e.month, x, 1, 12, false))
    && (forall x: nat :: x in f.dayOfWeek <==> e.OnWeekday(x))
  }

  lemma Denoted(expr: string, w: seq<string>)
    requires Words(expr) == w && |w| == 5
    ensures CronDenotation(expr)
         == Assembled(FieldValues(w[0], MINUTES), FieldValues(w[1], HOURS), FieldValues(w[2], DAYS),
                      FieldValues(w[3], MONTHS), FieldValues(w[4], WEEKDAYS))
  {
  }

  lemma FieldsRead(e: Expression)
    requires e.Complete()
    ensures FieldReads(FieldValues(FieldText(e.minute), MINUTES), e.minute, MINUTES, 0, 59, false)
    ensures FieldReads(FieldValues(FieldText(e.hour), HOURS), e.hour, HOURS, 0, 23, false)
    ensures FieldReads(FieldValues(FieldText(e.day), DAYS), e.day, DAYS, 1, 31, false)
    ensures FieldReads(FieldValues(FieldText(e.month), MONTHS), e.month, MONTHS, 1, 12, false)
    ensures FieldReads(FieldValues(FieldText(e.weekday), WEEKDAYS), e.weekday, WEEKDAYS, 0, 6, true)
  {
    FieldExact(e.minute, MINUTES);
    FieldExact(e.hour, HOURS);
    FieldExact(e.day, DAYS);
    FieldExact(e.month, MONTHS);
    FieldExact(e.weekday, WEEKDAYS);
  }

  function Assembled(
    mi: Option<seq<nat>>, h: Option<seq<nat>>, d: Option<seq<nat>>, mo: Option<seq<nat>>, dw: Option<seq<nat>>)
    : Option<CronFields>
  {
    if mi.Some? && h.Some? && d.Some? && mo.Some? && dw.Some?
    then Some(CronFields(mi.value, h.value, d.value, mo.value, dw.value)) else None
  }

  ghost predicate ReadExactly(denoted: Option<CronFields>, e: Expression) {
    (denoted.Some? <==> e.Accepted()) && (denoted.Some? ==> Reads(denoted.value, e))
  }

  lemma AssembledReads(
    e: Expression, mi: Option<seq<nat>>, h: Option<seq<nat>>, d: Option<seq<nat>>, mo: Option<seq<nat>>,
    dw: Option<seq<nat>>)
    requires FieldReads(mi, e.minute, MINUTES, 0, 59, false) && FieldReads(h, e.hour, HOURS, 0, 23, false)
    requires FieldReads(d, e.day, DAYS, 1, 31, false) && FieldReads(mo, e.month, MONTHS, 1, 12, false)
    requires FieldReads(dw, e.weekday, WEEKDAYS, 0, 6, true)
    ensures ReadExactly(Assembled(mi, h, d, mo, dw), e)
  {
  }

  lemma ExpressionAccepted(e: Expression)
    requires e.Complete()
    ensures ReadExactly(CronDenotation(e.Text()), e)
  {
    ExpressionWords(e);
    Denoted(e.Text(), e.Fields());
    FieldsRead(e);
    AssembledReads(e, FieldValues(FieldText(e.minute), MINUTES), FieldValues(FieldText(e.hour), HOURS),
      FieldValues(FieldText(e.day), DAYS), FieldValues(FieldText(e.month), MONTHS),
      FieldValues(FieldText(e.weekday), WEEKDAYS));
  }

  /** The local minute of a civil date and time. */
  function MinuteOf(d: Date, h: nat, mi: nat): int
    requires ValidDate(d)
  {
    1440 * DayNumber(d) + (60 * h + mi)
  }

  lemma ReadsFires(f: CronFields, e: Expression, d: Date, h: nat, mi: nat)
    requires Reads(f, e) && ValidDate(d) && h < 24 && mi < 60
    ensures Fires(f, MinuteOf(d, h, mi)) <==> e.FiresOn(d, h, mi)
  {
    MinuteParts(DayNumber(d), h, mi);
    DateOfDayNumber(d);
    WeekdayIsZeller(d);
    assert Covers(f.dayOfMonth, DAYS) <==> forall x: nat :: 1 <= x <= 31 ==> e.OnDay(x);
    assert Covers(f.dayOfWeek, WEEKDAYS) <==> forall x: nat :: x <= 6 ==> e.OnWeekday(x);
  }

  /** Every expression written from items is accepted exactly if each item fits its field, and then fires at exactly
      the civil dates and times that its items name. */
  lemma ExpressionFiresExactly(e: Expression, d: Date, h: nat, mi: nat)
    requires e.Complete() && ValidDate(d) && h < 24 && mi < 60
    ensures CronDenotation(e.Text()).Some? <==> e.Accepted()
    ensures e.Accepted() ==>
              (Fires(CronDenotation(e.Text()).value, MinuteOf(d, h, mi)) <==> e.FiresOn(d, h, mi))
  {
    ExpressionAccepted(e);
    if e.Accepted() {
      ReadsFires(CronDenotation(e.Text()).value, e, d, h, mi);
    }
  }

  // ---------- Two families of expressions ----------

  function WeekdayExpression(minute: nat, hour: nat, w: nat): Expression {
    Expression([Number(minute)], [Number(hour)], [Star], [Star], [Number(w)])
  }

  /** One time on one weekday, written as 0 to 7: it fires at that time on every date of that weekday, and at no
      other. */
  lemma WeekdayFiresExactly(minute: nat, hour: nat, w: nat, d: Date, h: nat, mi: nat)
    requires minute <= 59 && hour <= 23 && w <= 7 && ValidDate(d) && h < 24 && mi < 60
    ensures var denoted := CronDenotation(WeekdayExpression(minute, hour, w).Text());
            && denoted.Some?
            && (Fires(denoted.value, MinuteOf(d, h, mi)) <==> mi == minute && h == hour && Zeller(d) == w % 7)
  {
    ExpressionFiresExactly(WeekdayExpression(minute, hour, w), d, h, mi);
    WeekdayItems(minute, hour, w, d, h, mi);
  }

  lemma WeekdayItems(minute: nat, hour: nat, w: nat, d: Date, h: nat, mi: nat)
    requires w <= 7 && ValidDate(d)
    ensures WeekdayExpression(minute, hour, w).FiresOn(d, h, mi) <==> mi == minute && h == hour && Zeller(d) == w % 7
  {
    var e := WeekdayExpression(minute, hour, w);
    OneItem(e.minute, mi, 0, 59, false);
    OneItem(e.hour, h, 0, 23, false);
    OneItem(e.month, d.month, 1, 12, false);
    OneItem(e.weekday, Zeller(d), 0, 6, true);
    forall x: nat | 1 <= x <= 31
      ensures e.OnDay(x)
    {
      OneItem(e.day, x, 1, 31, false);
    }
  }

  lemma OneItem(items: seq<Item>, x: nat, min: nat, max: nat, week: bool)
    requires |items| == 1
    ensures Selected(items, x, min, max, week) <==> items[0].Selects(x, min, max, week)
  {
  }

  /** The expression for one time on one date of every year. */
  function DateExpression(minute: nat, hour: nat, day: nat, month: nat): Expression {
    Expression([Number(minute)], [Number(hour)], [Number(day)], [Number(month)], [Star])
  }

  /** It is accepted, and is found from every start exactly if the date exists in common years. */
  lemma DateFoundExactly(minute: nat, hour: nat, day: nat, month: nat)
    requires minute <= 59 && hour <= 23 && 1 <= day <= 31 && 1 <= month <= 12
    ensures var denoted := CronDenotation(DateExpression(minute, hour, day, month).Text());
            denoted.Some? && (SelectsEveryYear(denoted.value) <==> day <= CommonDays(month))
  {
    var e := DateExpression(minute, hour, day, month);
    ExpressionAccepted(e);
    OneDate(CronDenotation(e.Text()).value, e, day, month);
  }

  lemma OneDate(f: CronFields, e: Expression, day: nat, month: nat)
    requires Reads(f, e) && e.day == [Number(day)] && e.month == [Number(month)] && e.weekday == [Star]
    ensures SelectsEveryYear(f) <==> day <= CommonDays(month)
  {
    forall x: nat
      ensures e.OnDay(x) <==> x == day
      ensures Selected(e.month, x, 1, 12, false) <==> x == month
      ensures e.OnWeekday(x) <==> x <= 6
    {
      OneItem(e.day, x, 1, 31, false);
      OneItem(e.month, x, 1, 12, false);
      OneItem(e.weekday, x, 0, 6, true);
    }
    assert day in f.dayOfMonth && month in f.month;
  }

  /** Midnight on 29 February can be missed. */
  lemma LeapDayCanBeMissed(expr: string)
    requires expr == "0 0 29 2 *"
    ensures CronDenotation(expr).Some? && !SelectsEveryYear(CronDenotation(expr).value)
  {
    LeapDayText(expr);
    DateFoundExactly(0, 0, 29, 2);
  }

  lemma LeapDayText(expr: string)
    requires expr == "0 0 29 2 *"
    ensures expr == DateExpression(0, 0, 29, 2).Text()
  {
    assert Decimal(0) == "0" && Decimal(2) == "2" && Decimal(29) == "29";
    assert DateExpression(0, 0, 29, 2).Fields() == ["0", "0", "29", "2", "*"];
  }

  // ---------- Instants ----------

  /** In a zone `offset` minutes ahead of UTC, local time is `offset` minutes later than UTC; nothing fires between
      whole minutes. */
  lemma ExpressionFiresAt(e: Expression, f: CronFields, offset: int, d: Date, h: nat, mi: nat, nanos: nat)
    requires e.Complete() && CronDenotation(e.Text()) == Some(f)
    requires ValidDate(d) && h < 24 && mi < 60 && nanos < 60_000_000_000
    ensures FiresAt(f, offset, (MinuteOf(d, h, mi) - offset) * 60_000_000_000 + nanos)
       <==> nanos == 0 && e.FiresOn(d, h, mi)
  {
    ExpressionAccepted(e);
    ReadsFiresAt(f, e, offset, d, h, mi, nanos);
  }

  lemma ReadsFiresAt(f: CronFields, e: Expression, offset: int, d: Date, h: nat, mi: nat, nanos: nat)
    requires ValidDate(d) && h < 24 && mi < 60 && nanos < 60_000_000_000
    ensures Reads(f, e) ==>
              (FiresAt(f, offset, (MinuteOf(d, h, mi) - offset) * 60_000_000_000 + nanos)
               <==> nanos == 0 && e.FiresOn(d, h, mi))
  {
    if Reads(f, e) {
      ReadsFires(f, e, d, h, mi);
      LocalMinute(f, offset, MinuteOf(d, h, mi), nanos);
    }
  }

  lemma LocalMinute(f: CronFields, offset: int, t: int, nanos: nat)
    requires nanos < 60_000_000_000
    ensures FiresAt(f, offset, (t - offset) * 60_000_000_000 + nanos) <==> nanos == 0 && Fires(f, t)
  {
    var local := t * MINUTE + nanos;
    assert (t - offset) * 60_000_000_000 + nanos + offset * MINUTE == local;
    DivIs(local, MINUTE, t);
  }

  /** Fields may be separated by any white space, and surrounded by it. */
  lemma AnyGap(w: string, c: char, rest: string)
    requires IsWord(w) && c in " \t\r\n"
    ensures Words(w + [c] + rest) == [w] + Words(rest) && Words([c] + rest) == Words(rest)
  {
    WordLengthIs(w, [c] + rest);
    assert w + ([c] + rest) == w + [c] + rest;
    assert (w + [c] + rest)[..|w|] == w && (w + [c] + rest)[|w|..] == [c] + rest;
    assert ([c] + rest)[1..] == rest;
  }

  /** A number may be written with a plus sign. */
  lemma PlusSign(n: nat)
    ensures ParseU32("+" + Decimal(n)) == ParseU32(Decimal(n))
  {
    assert ("+" + Decimal(n))[1..] == Decimal(n) && IsDigit(Decimal(n)[0]);
  }
}
