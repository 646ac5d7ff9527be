/** The fields of a cron expression (scheduling.rs).

`PartDenotation` and `FieldDenotation` say which values a field selects, as sets; `ExpandField` computes
them with the loops of the source. */
module Cron {
  import opened Text
  import opened Calendar

  // ---------- Fields ----------

  datatype FieldRange = FieldRange(min: nat, max: nat) {
    predicate IsWeekday() {
      min == 0 && max == 6
    }

    predicate Holds(v: nat) {
      min <= v <= max
    }
  }

  const MINUTES := FieldRange(0, 59)
  const HOURS := FieldRange(0, 23)
  const DAYS := FieldRange(1, 31)
  const MONTHS := FieldRange(1, 12)
  const WEEKDAYS := FieldRange(0, 6)

  /** `v` is one of `lo`, `lo + step`, `lo + 2 * step`, ... */
  ghost predicate Reached(lo: nat, step: nat, v: nat)
    requires step > 0
  {
    lo <= v && (v - lo) % step == 0
  }

  ghost function Stepped(lo: nat, hi: nat, step: nat): set<nat>
    requires step > 0
  {
    set v: nat | lo <= v <= hi && Reached(lo, step, v)
  }

  /** A value of a weekday range: 7 is another name of Sunday. */
  function Folded(range: FieldRange, v: nat): nat {
    if range.IsWeekday() && v == 7 then 0 else v
  }

  ghost function FoldedSet(range: FieldRange, s: set<nat>): set<nat> {
    set v | v in s :: Folded(range, v)
  }

  ghost function BoundsDenotation(bounds: string, step: nat, range: FieldRange): (r: Option<set<nat>>)
    requires step > 0
  {
    match SplitOnce(bounds, '-')
    case None => None
    case Some((l, h)) =>
      match (ParseU32(l), ParseU32(h))
      case (Some(lo), Some(hi)) =>
        if lo > hi || lo < range.min || hi > (if range.IsWeekday() then 7 else range.max) then None
        else Some(FoldedSet(range, Stepped(lo, hi, step)))
      case _ => None
  }

  /** The values selected by one comma-separated part of a field; `None` when it is malformed. */
  ghost function PartDenotation(part: string, range: FieldRange): (r: Option<set<nat>>) {
    if StripPrefix(part, "*/").Some? then
      match ParseU32(part[2..])
      case Some(step) => if step == 0 then None else Some(Stepped(range.min, range.max, step))
      case None => None
    else if part == "*" then Some(Stepped(range.min, range.max, 1))
    else if SplitOnce(part, '/').Some? then
      var (bounds, step) := SplitOnce(part, '/').value;
      match ParseU32(step)
      case Some(n) => if n == 0 then None else BoundsDenotation(bounds, n, range)
      case None => None
    else if '-' in part then BoundsDenotation(part, 1, range)
    else
      match ParseU32(part)
      case Some(v) => if range.Holds(Folded(range, v)) then Some({Folded(range, v)}) else None
      case None => None
  }

  /** A field selects the union of its parts, and is malformed when one of them is. */
  ghost function FieldDenotation(parts: seq<string>, range: FieldRange): (r: Option<set<nat>>) {
    if parts == [] then Some({})
    else
      match (FieldDenotation(parts[..|parts| - 1], range), PartDenotation(parts[|parts| - 1], range))
      case (Some(a), Some(b)) => Some(a + b)
      case _ => None
  }

  /** The elements of `s` between `lo` and `hi`, in order: what iterating over a `BTreeSet` yields. */
  function Ascending(s: set<nat>, lo: nat, hi: nat): (r: seq<nat>)
    ensures forall v :: v in r <==> v in s && lo <= v <= hi
    ensures forall i, j :: 0 <= i < j < |r| ==> r[i] < r[j]
    decreases hi + 1 - lo
  {
    if lo > hi then []
    else
      var rest := Ascending(s, lo + 1, hi);
      if lo in s then
        assert forall i :: 0 <= i < |rest| ==> rest[i] in rest;
        [lo] + rest
      else rest
  }

  function SaturatingAdd(a: nat, b: nat): nat {
    if a + b > U32_MAX then U32_MAX else a + b
  }

  /** The next value that `step` reaches after a value it reaches is `step` further on. */
  lemma NextMultiple(a: nat, v: nat, step: nat)
    requires step > 0 && a % step == 0
    ensures (a + step) % step == 0
    ensures a <= v < a + step && v % step == 0 ==> v == a
  {
    assert (a + step) % step == 0 by {
      assert a + step == step * (a / step + 1);
      DivIs(a + step, step, a / step + 1);
    }
    if a <= v < a + step && v % step == 0 {
      DivIs(v, step, a / step);
    }
  }

  /** Taking one step selects exactly one more value. */
  lemma OneStep(lo: nat, value: nat, step: nat, next: nat)
    requires 0 < step && Reached(lo, step, value) && next <= value + step && value < next
    ensures Stepped(lo, next - 1, step)
         == (if value == 0 then {} else Stepped(lo, value - 1, step)) + {value}
    ensures Reached(lo, step, value + step)
  {
    NextMultiple(value - lo, value - lo, step);
    forall v: nat | value <= v < next && Reached(lo, step, v)
      ensures v == value
    {
      NextMultiple(value - lo, v - lo, step);
    }
  }

  lemma NothingToFold(range: FieldRange, a: set<nat>)
    requires forall v :: v in a ==> v <= range.max
    ensures FoldedSet(range, a) == a
  {
    assert forall v :: v in a ==> Folded(range, v) == v;
  }

  /** The stepping loop that a star with a step and a range with a step share. */
  method InsertSteps(lo: nat, hi: nat, step: nat, range: FieldRange, before: set<nat>) returns (out: set<nat>)
    requires 0 < step && lo <= hi < U32_MAX
    ensures out == before + FoldedSet(range, Stepped(lo, hi, step))
  {
    out := before;
    var value := lo;
    ghost var done: set<nat> := {};
    while value <= hi
      invariant value <= hi ==> Reached(lo, step, value)
      invariant done == if value == 0 then {} else Stepped(lo, if value <= hi then value - 1 else hi, step)
      invariant out == before + FoldedSet(range, done)
      decreases hi + 1 - value
    {
      ghost var next := if value + step <= hi then value + step else hi + 1;
      OneStep(lo, value, step, next);
      out := out + {Folded(range, value)};
      done := done + {value};
      value := SaturatingAdd(value, step);
      if value == U32_MAX {
        break;
      }
    }
  }

  method ExpandRange(bounds: string, step: nat, range: FieldRange, before: set<nat>) returns (r: Option<set<nat>>)
    requires 0 < step && range.max < U32_MAX
    ensures var d := BoundsDenotation(bounds, step, range);
            r == if d.Some? then Some(before + d.value) else None
  {
    var halves := SplitOnce(bounds, '-');
    if halves.None? {
      return None;
    }
    var lo, hi := ParseU32(halves.value.0), ParseU32(halves.value.1);
    if lo.None? || hi.None? {
      return None;
    }
    var effectiveMax := if range.IsWeekday() then 7 else range.max;
    if lo.value > hi.value || lo.value < range.min || hi.value > effectiveMax {
      return None;
    }
    var out := InsertSteps(lo.value, hi.value, step, range, before);
    return Some(out);
  }

  function NormalizeValue(value: nat, range: FieldRange): (r: Option<nat>)
    requires range.min <= range.max
    ensures r == if range.Holds(Folded(range, value)) then Some(Folded(range, value)) else None
  {
    if range.IsWeekday() && value == 7 then Some(0)
    else if value < range.min || value > range.max then None
    else Some(value)
  }

  lemma MalformedPart(parts: seq<string>, i: nat, range: FieldRange)
    requires i < |parts| && PartDenotation(parts[i], range).None?
    ensures FieldDenotation(parts, range).None?
  {
    if i < |parts| - 1 {
      MalformedPart(parts[..|parts| - 1], i, range);
    }
  }

  /** Every part that is well formed selects something, and only values of the range. */
  lemma PartInRange(part: string, range: FieldRange)
    requires range.min <= range.max
    requires PartDenotation(part, range).Some?
    ensures PartDenotation(part, range).value != {}
    ensures forall v :: v in PartDenotation(part, range).value ==> range.Holds(v)
  {
    if StripPrefix(part, "*/").Some? {
      assert range.min in PartDenotation(part, range).value;
    } else if part == "*" {
      assert range.min in PartDenotation(part, range).value;
    } else if SplitOnce(part, '/').Some? {
      var (bounds, step) := SplitOnce(part, '/').value;
      BoundsInRange(bounds, ParseU32(step).value, range);
    } else if '-' in part {
      BoundsInRange(part, 1, range);
    }
  }

  lemma BoundsInRange(bounds: string, step: nat, range: FieldRange)
    requires step > 0 && BoundsDenotation(bounds, step, range).Some?
    ensures BoundsDenotation(bounds, step, range).value != {}
    ensures forall v :: v in BoundsDenotation(bounds, step, range).value ==> range.Holds(v)
  {
    var (l, h) := SplitOnce(bounds, '-').value;
    var lo, hi := ParseU32(l).value, ParseU32(h).value;
    assert lo in Stepped(lo, hi, step);
    assert Folded(range, lo) in BoundsDenotation(bounds, step, range).value;
  }

  lemma {:induction false} FieldInRange(parts: seq<string>, range: FieldRange)
    requires range.min <= range.max
    requires FieldDenotation(parts, range).Some?
    ensures parts != [] ==> FieldDenotation(parts, range).value != {}
    ensures forall v :: v in FieldDenotation(parts, range).value ==> range.Holds(v)
  {
    if parts != [] {
      FieldInRange(parts[..|parts| - 1], range);
      PartInRange(parts[|parts| - 1], range);
    }
  }

  /** The ascending list of the values a field selects. */
  ghost function FieldValues(field: string, range: FieldRange): Option<seq<nat>> {
    match FieldDenotation(Split(field, ','), range)
    case Some(s) => Some(Ascending(s, range.min, range.max))
    case None => None
  }

  method ExpandField(field: string, range: FieldRange) returns (r: Option<seq<nat>>)
    requires range.min <= range.max < U32_MAX
    ensures r == FieldValues(field, range)
    ensures r.Some? ==>
              && r.value != []
              && (forall i, j :: 0 <= i < j < |r.value| ==> r.value[i] < r.value[j])
              && (forall v :: v in r.value <==> v in FieldDenotation(Split(field, ','), range).value)
              && (forall v :: v in r.value ==> range.Holds(v))
  {
    var out: set<nat> := {};
    var parts := Split(field, ',');
    for i := 0 to |parts|
      invariant FieldDenotation(parts[..i], range) == Some(out)
    {
      var part := parts[i];
      assert parts[..i + 1][..i] == parts[..i];
      assert PartDenotation(part, range).None? ==> FieldDenotation(parts, range).None? by {
        if PartDenotation(part, range).None? {
          MalformedPart(parts, i, range);
        }
      }
      if part == "" {
        return None;
      }
      if StripPrefix(part, "*/").Some? {
        var step := ParseU32(part[2..]);
        if step.None? || step.value == 0 {
          return None;
        }
        NothingToFold(range, Stepped(range.min, range.max, step.value));
        out := InsertSteps(range.min, range.max, step.value, range, out);
        continue;
      }
      if part == "*" {
        NothingToFold(range, Stepped(range.min, range.max, 1));
        out := InsertSteps(range.min, range.max, 1, range, out);
        continue;
      }
      var slash := SplitOnce(part, '/');
      if slash.Some? {
        var step := ParseU32(slash.value.1);
        if step.None? || step.value == 0 {
          return None;
        }
        var expanded := ExpandRange(slash.value.0, step.value, range, out);
        if expanded.None? {
          return None;
        }
        out := expanded.value;
        continue;
      }
      if '-' in part {
        var expanded := ExpandRange(part, 1, range, out);
        if expanded.None? {
          return None;
        }
        out := expanded.value;
        continue;
      }
      var parsed := ParseU32(part);
      if parsed.None? {
        return None;
      }
      var value := NormalizeValue(parsed.value, range);
      if value.None? {
        return None;
      }
      out := out + {value.value};
    }
    assert parts[..|parts|] == parts;
    FieldInRange(parts, range);
    if out == {} {
      return None;
    }
    var list := Ascending(out, range.min, range.max);
    return Some(list);
  }
}
