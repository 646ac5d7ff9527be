/** The string operations the parsers share: splitting, joining, prefixes, and decimal numbers. */
module Text {

  datatype Option<+T> = None | Some(value: T)

  const U32_MAX: nat := 0xFFFF_FFFF

  // ---------- Splitting on a separator ----------

  /** Everything up to the first `sep`; all of `s` when there is none. */
  function Before<T(==)>(s: seq<T>, sep: T): (r: seq<T>)
    ensures |r| <= |s| && r == s[..|r|] && sep !in r
    ensures |r| < |s| ==> s[|r|] == sep
  {
    if s == [] || s[0] == sep then [] else [s[0]] + Before(s[1..], sep)
  }

  /** The pieces of `s` between separators; always at least one. */
  function Split<T(==)>(s: seq<T>, sep: T): (r: seq<seq<T>>)
    ensures |r| >= 1
    ensures forall p :: p in r ==> sep !in p
    decreases |s|
  {
    var b := Before(s, sep);
    if |b| == |s| then [b] else [b] + Split(s[|b| + 1..], sep)
  }

  lemma BeforeOfJoined<T>(a: seq<T>, sep: T, rest: seq<T>)
    requires sep !in a
    ensures Before(a + [sep] + rest, sep) == a
  {
    var s := a + [sep] + rest;
    var b := Before(s, sep);
    assert s[|a|] == sep;
    assert forall i :: 0 <= i < |a| ==> s[i] == a[i];
    assert forall i :: 0 <= i < |b| ==> s[i] == b[i];
  }

  lemma BeforeOfPlain<T>(a: seq<T>, sep: T)
    requires sep !in a
    ensures Before(a, sep) == a
  {
    assert forall i :: 0 <= i < |a| ==> a[i] != sep;
  }

  /** A separator-free piece in front of a separator is the first piece. */
  lemma SplitPiece<T>(a: seq<T>, sep: T, rest: seq<T>)
    requires sep !in a
    ensures Split(a + [sep] + rest, sep) == [a] + Split(rest, sep)
  {
    BeforeOfJoined(a, sep, rest);
    assert (a + [sep] + rest)[|a| + 1..] == rest;
  }

  lemma SplitPlain<T>(a: seq<T>, sep: T)
    requires sep !in a
    ensures Split(a, sep) == [a]
  {
    BeforeOfPlain(a, sep);
  }

  // ---------- Prefixes and suffixes ----------

  predicate StartsWith(s: string, p: string) {
    p <= s
  }

  predicate EndsWith(s: string, p: string) {
    |p| <= |s| && s[|s| - |p|..] == p
  }

  /** Whether `p` occurs somewhere in `s`. */
  predicate Contains(s: string, p: string) {
    exists i :: 0 <= i <= |s| && StartsWith(s[i..], p)
  }

  function StripPrefix(s: string, p: string): (r: Option<string>)
    ensures r.Some? <==> p <= s
    ensures r.Some? ==> s == p + r.value
  {
    if p <= s then Some(s[|p|..]) else None
  }

  function StripSuffix(s: string, p: string): (r: Option<string>)
    ensures r.Some? <==> EndsWith(s, p)
    ensures r.Some? ==> s == r.value + p
  {
    if EndsWith(s, p) then Some(s[..|s| - |p|]) else None
  }

  /** The two sides of the first `sep`. */
  function SplitOnce(s: string, sep: char): (r: Option<(string, string)>)
    ensures r.Some? <==> sep in s
    ensures r.Some? ==> s == r.value.0 + [sep] + r.value.1 && sep !in r.value.0
  {
    var b := Before(s, sep);
    if |b| < |s| then Some((b, s[|b| + 1..])) else BeforeOfPlainConverse(s, sep); None
  }

  lemma BeforeOfPlainConverse(s: string, sep: char)
    requires |Before(s, sep)| == |s|
    ensures sep !in s
  {
    assert Before(s, sep) == s;
  }

  // ---------- White space ----------

  /** Unicode White_Space. */
  predicate IsWhitespace(c: char) {
    var v := c as int;
    || 0x09 <= v <= 0x0D || v == 0x20 || v == 0x85 || v == 0xA0 || v == 0x1680
    || 0x2000 <= v <= 0x200A || v == 0x2028 || v == 0x2029 || v == 0x202F || v == 0x205F || v == 0x3000
  }

  // ---------- Decimal numbers ----------

  predicate IsDigit(c: char) {
    '0' <= c <= '9'
  }

  predicate AllDigits(s: string) {
    forall i :: 0 <= i < |s| ==> IsDigit(s[i])
  }

  function DigitsValue(s: string): (n: nat)
    requires AllDigits(s)
  {
    if s == [] then 0
    else 10 * DigitsValue(s[..|s| - 1]) + (s[|s| - 1] as int - '0' as int)
  }

  /** Rust's `str::parse::<u32>`: an optional `+`, then digits whose value fits 32 bits. */
  function ParseU32(s: string): (r: Option<nat>)
    ensures r.Some? ==> r.value <= U32_MAX
  {
    var t := if |s| > 1 && s[0] == '+' then s[1..] else s;
    if t != [] && AllDigits(t) && DigitsValue(t) <= U32_MAX then Some(DigitsValue(t)) else None
  }

  /** The shortest decimal form of `n`. */
  function Decimal(n: nat): (s: string)
    ensures s != [] && AllDigits(s) && DigitsValue(s) == n
  {
    var d := [('0' as int + n % 10) as char];
    if n < 10 then
      d
    else
      var s := Decimal(n / 10) + d;
      assert s[..|s| - 1] == Decimal(n / 10);
      s
  }
}
