/** Expansion of `%VAR%` placeholders (env.rs): a loop over byte indices that must never cut a character. */
module EnvExpand {
  import opened Text
  import opened Codec
  import opened Utf8

  const PERCENT: byte := 0x25

  /** The expansion, from left to right, on characters. A percent sign opens a placeholder if another one
      follows; an unknown name stays as it is, and its closing percent sign opens nothing. */
  function Expand(text: string, lookup: string -> Option<string>): (r: string)
    decreases |text|
  {
    if text == [] then []
    else if text[0] == '%' && '%' in text[1..] then
      var name := Before(text[1..], '%');
      Value(name, lookup) + Expand(text[|name| + 2..], lookup)
    else [text[0]] + Expand(text[1..], lookup)
  }

  function Value(name: string, lookup: string -> Option<string>): string {
    match lookup(name)
    case Some(value) => value
    case None => "%" + name + "%"
  }

  lemma PlaceholderText(text: string)
    requires text != [] && text[0] == '%' && '%' in text[1..]
    ensures var name := Before(text[1..], '%');
            |name| + 2 <= |text| && text == "%" + name + "%" + text[|name| + 2..]
  {
  }

  /** With no known variables, expanding changes nothing. */
  lemma {:induction false} NothingKnown(text: string, lookup: string -> Option<string>)
    requires forall name :: lookup(name) == None
    ensures Expand(text, lookup) == text
    decreases |text|
  {
    if text != [] {
      if text[0] == '%' && '%' in text[1..] {
        PlaceholderText(text);
        NothingKnown(text[|Before(text[1..], '%')| + 2..], lookup);
      } else {
        NothingKnown(text[1..], lookup);
      }
    }
  }

  // ---------- Percent signs in encoded text ----------

  /** The first percent byte of an encoded text is the encoding of its first percent sign. */
  lemma {:induction false} BeforePercent(t: string)
    ensures Before(Encode(t), PERCENT) == Encode(Before(t, '%'))
    ensures PERCENT in Encode(t) <==> '%' in t
  {
    if t != [] {
      if t[0] != '%' {
        BeforePercent(t[1..]);
        var e, rest := EncodeChar(t[0]), Encode(t[1..]);
        BeforeSkips(e, rest, PERCENT);
        assert ([t[0]] + Before(t[1..], '%'))[1..] == Before(t[1..], '%');
      }
    }
  }

  lemma BeforeSkips<T>(a: seq<T>, rest: seq<T>, sep: T)
    requires sep !in a
    ensures Before(a + rest, sep) == a + Before(rest, sep)
  {
    var b := Before(rest, sep);
    if |b| < |rest| {
      assert a + rest == (a + b) + [sep] + rest[|b| + 1..];
      BeforeOfJoined(a + b, sep, rest[|b| + 1..]);
    } else {
      assert b == rest;
      BeforeOfPlain(a + rest, sep);
    }
  }

  /** Where encoded text begins, a character begins. */
  lemma BoundaryAt(input: seq<byte>, i: nat, rest: string)
    requires i <= |input| && input[i..] == Encode(rest)
    ensures IsBoundary(input, i)
  {
    if i < |input| {
      assert rest != [];
      assert input[i] == input[i..][0];
    }
  }

  /** A placeholder at the front of an encoded text. */
  lemma PlaceholderBytes(rest: string)
    requires rest != [] && rest[0] == '%' && '%' in rest[1..]
    ensures var name := Before(rest[1..], '%');
            && |name| + 2 <= |rest|
            && Encode(rest) == [PERCENT] + Encode(name) + [PERCENT] + Encode(rest[|name| + 2..])
  {
    var name := Before(rest[1..], '%');
    PlaceholderText(rest);
    var after := rest[|name| + 2..];
    WriteAppend(EncodeChar, "%" + name + "%", after);
    WriteAppend(EncodeChar, "%" + name, "%");
    WriteAppend(EncodeChar, "%", name);
    WriteOne(EncodeChar, '%');
  }

  // ---------- The loop ----------

  /** Where the name of the placeholder at `i` lies, and what follows it. */
  lemma PlaceholderAt(input: seq<byte>, i: nat, rest: string) returns (name: string, end: nat)
    requires i < |input| && input[i..] == Encode(rest)
    requires rest != [] && rest[0] == '%' && '%' in rest[1..]
    ensures name == Before(rest[1..], '%') && end == |Before(input[i + 1..], PERCENT)|
    ensures |name| + 2 <= |rest| && i + 2 + end <= |input|
    ensures input[i + 1..i + 1 + end] == Encode(name) && input[i + 2 + end..] == Encode(rest[|name| + 2..])
    ensures IsBoundary(input, i + 1) && IsBoundary(input, i + 1 + end)
  {
    name, end := Before(rest[1..], '%'), |Before(input[i + 1..], PERCENT)|;
    PlaceholderBytes(rest);
    BeforePercent(name);
    Bracketed(input, i, PERCENT, Encode(name), Encode(rest[|name| + 2..]));
  }

  lemma Bracketed<T>(input: seq<T>, i: nat, p: T, e: seq<T>, tail: seq<T>)
    requires i <= |input| && input[i..] == [p] + e + [p] + tail && p !in e
    ensures i + 2 + |e| <= |input| && Before(input[i + 1..], p) == e
    ensures input[i + 1..i + 1 + |e|] == e && input[i + 1 + |e|] == p && input[i + 2 + |e|..] == tail
    ensures input[i + 1..] == input[i..][1..]
  {
    var s := input[i..];
    assert input[i + 1..] == s[1..] == e + [p] + tail;
    BeforeOfJoined(e, p, tail);
    assert input[i + 1..i + 1 + |e|] == s[1..1 + |e|];
    assert input[i + 1 + |e|] == s[1 + |e|];
    assert input[i + 2 + |e|..] == s[2 + |e|..];
  }

  /** An unknown placeholder is written back. */
  lemma UnknownBytes(name: string)
    ensures Encode("%" + name + "%") == [PERCENT] + Encode(name) + [PERCENT]
  {
    WriteAppend(EncodeChar, "%" + name, "%");
    WriteAppend(EncodeChar, "%", name);
    WriteOne(EncodeChar, '%');
  }

  /** What a placeholder's name stands for. */
  method Resolve(slice: seq<byte>, lookup: string -> Option<string>, ghost name: string) returns (text: seq<byte>)
    requires slice == Encode(name)
    ensures text == Encode(Value(name, lookup))
  {
    DecodeEncode(name);
    match lookup(Decode(slice)) {
      case Some(value) =>
        text := Encode(value);
      case None =>
        UnknownBytes(name);
        text := [PERCENT] + slice + [PERCENT];
    }
  }

  /** One placeholder, cut out of the bytes at `i`. */
  method TakePlaceholder(input: seq<byte>, i: nat, lookup: string -> Option<string>, ghost rest: string)
    returns (text: seq<byte>, next: nat, ghost name: string)
    requires Valid(input) && i < |input| && input[i..] == Encode(rest)
    requires rest != [] && rest[0] == '%' && '%' in rest[1..]
    ensures name == Before(rest[1..], '%') && |name| + 2 <= |rest|
    ensures text == Encode(Value(name, lookup))
    ensures i < next <= |input| && input[next..] == Encode(rest[|name| + 2..])
  {
    ghost var length;
    name, length := PlaceholderAt(input, i, rest);
    var end := |Before(input[i + 1..], PERCENT)|;
    text := Resolve(Slice(input, i + 1, i + 1 + end), lookup, name);
    next := i + 1 + end + 1;
  }

  /** One character, cut out of the bytes at `i`. */
  method TakeChar(input: seq<byte>, i: nat, ghost rest: string) returns (text: seq<byte>, next: nat)
    requires Valid(input) && i < |input| && input[i..] == Encode(rest) && rest != []
    ensures text == Encode([rest[0]])
    ensures i < next <= |input| && input[next..] == Encode(rest[1..])
  {
    EncodeCharScalar(rest[0], Encode(rest[1..]));
    var length := ScalarLength(input[i..]);
    next := i + length;
    assert input[next..] == input[i..][length..];
    BoundaryAt(input, i, rest);
    BoundaryAt(input, next, rest[1..]);
    text := Slice(input, i, next);
    assert text == input[i..][..length] == EncodeChar(rest[0]);
    WriteOne(EncodeChar, rest[0]);
  }

  /** One turn of the loop: a placeholder or a character. */
  method TakePiece(input: seq<byte>, i: nat, lookup: string -> Option<string>, ghost rest: string)
    returns (piece: seq<byte>, next: nat, ghost value: string, ghost rest': string)
    requires Valid(input) && i < |input| && input[i..] == Encode(rest)
    ensures piece == Encode(value)
    ensures i < next <= |input| && input[next..] == Encode(rest')
    ensures Expand(rest, lookup) == value + Expand(rest', lookup)
  {
    PercentAhead(input, i, rest);
    if input[i] == PERCENT && |Before(input[i + 1..], PERCENT)| < |input[i + 1..]| {
      ghost var name;
      piece, next, name := TakePlaceholder(input, i, lookup, rest);
      value, rest' := Value(name, lookup), rest[|name| + 2..];
    } else {
      piece, next := TakeChar(input, i, rest);
      value, rest' := [rest[0]], rest[1..];
    }
    OnePiece(rest, lookup);
  }

  lemma OnePiece(text: string, lookup: string -> Option<string>)
    requires text != []
    ensures if text[0] == '%' && '%' in text[1..] then
              var name := Before(text[1..], '%');
              |name| + 2 <= |text| && Expand(text, lookup) == Value(name, lookup) + Expand(text[|name| + 2..], lookup)
            else Expand(text, lookup) == [text[0]] + Expand(text[1..], lookup)
  {
    if text[0] == '%' && '%' in text[1..] {
      PlaceholderText(text);
    }
  }

  /** The byte loop computes the expansion of the text that the bytes encode. */
  method ExpandEnvVarsWithLookup(input: seq<byte>, lookup: string -> Option<string>) returns (out: seq<byte>)
    requires Valid(input)
    ensures Valid(out) && Decode(out) == Expand(Decode(input), lookup)
    ensures (forall name :: lookup(name) == None) ==> out == input
  {
    ghost var text := Decode(input);
    EncodeDecode(input);
    out := [];
    var i := 0;
    ghost var rest, done := text, "";
    assert input[0..] == input;
    while i < |input|
      invariant i <= |input| && input[i..] == Encode(rest)
      invariant out == Encode(done) && done + Expand(rest, lookup) == Expand(text, lookup)
    {
      var piece;
      ghost var value, rest';
      piece, i, value, rest' := TakePiece(input, i, lookup, rest);
      OneMorePiece(done, value, Expand(rest', lookup));
      done, rest := done + value, rest';
      out := out + piece;
    }
    assert done + "" == done;
    Expanded(text, lookup);
  }

  lemma OneMorePiece(done: string, value: string, tail: string)
    ensures done + (value + tail) == (done + value) + tail
    ensures Encode(done + value) == Encode(done) + Encode(value)
  {
    WriteAppend(EncodeChar, done, value);
  }

  lemma Expanded(text: string, lookup: string -> Option<string>)
    ensures var out := Encode(Expand(text, lookup));
            && Valid(out) && Decode(out) == Expand(text, lookup)
            && ((forall name :: lookup(name) == None) ==> out == Encode(text))
  {
    DecodeEncode(Expand(text, lookup));
    if forall name :: lookup(name) == None {
      NothingKnown(text, lookup);
    }
  }

  /** A closing percent byte lies ahead exactly when a closing percent sign does. */
  lemma PercentAhead(input: seq<byte>, i: nat, rest: string)
    requires i < |input| && input[i..] == Encode(rest)
    ensures rest != [] && (input[i] == PERCENT <==> rest[0] == '%')
    ensures input[i] == PERCENT ==> (|Before(input[i + 1..], PERCENT)| < |input[i + 1..]| <==> '%' in rest[1..])
  {
    assert rest != [];
    assert input[i] == input[i..][0];
    if input[i..][0] == PERCENT {
      assert input[i + 1..] == input[i..][1..] == Encode(rest[1..]);
      BeforePercent(rest[1..]);
    }
  }

  // ---------- What placeholders become ----------

  lemma PlainChar(c: char, rest: string, lookup: string -> Option<string>)
    requires c != '%'
    ensures Expand([c] + rest, lookup) == [c] + Expand(rest, lookup)
  {
    assert ([c] + rest)[1..] == rest;
  }

  lemma {:induction false} PlainPrefix(a: string, rest: string, lookup: string -> Option<string>)
    requires '%' !in a
    ensures Expand(a + rest, lookup) == a + Expand(rest, lookup)
  {
    if a == [] {
      assert a + rest == rest;
    } else {
      var c, a' := a[0], a[1..];
      PlainPrefix(a', rest, lookup);
      PlainChar(c, a' + rest, lookup);
      assert a == [c] + a';
      assert a + rest == [c] + (a' + rest);
    }
  }

  lemma PlaceholderFirst(name: string, b: string, lookup: string -> Option<string>)
    requires '%' !in name
    ensures Expand("%" + name + "%" + b, lookup)
         == (if lookup(name).Some? then lookup(name).value else "%" + name + "%") + Expand(b, lookup)
  {
    var text := "%" + name + "%" + b;
    assert text[1..] == name + ['%'] + b;
    BeforeOfJoined(name, '%', b);
    assert text[|name| + 2..] == b;
  }

  /** The first placeholder of a text becomes its value if it is known and stays as it is if not; what precedes it is
      copied, and what follows it is expanded on its own. */
  lemma FirstPlaceholder(a: string, name: string, b: string, lookup: string -> Option<string>)
    requires '%' !in a && '%' !in name
    ensures Expand(a + ("%" + name + "%" + b), lookup)
         == a + ((if lookup(name).Some? then lookup(name).value else "%" + name + "%") + Expand(b, lookup))
  {
    PlainPrefix(a, "%" + name + "%" + b, lookup);
    PlaceholderFirst(name, b, lookup);
  }

  /** Text with fewer than two percent signs is copied. */
  lemma LonePercent(a: string, b: string, lookup: string -> Option<string>)
    requires '%' !in a && '%' !in b
    ensures Expand(a, lookup) == a && Expand(a + ("%" + b), lookup) == a + ("%" + b)
  {
    PlainPrefix(a, "", lookup);
    assert a + "" == a;
    PlainPrefix(a, "%" + b, lookup);
    PlainPrefix(b, "", lookup);
    assert b + "" == b;
    assert ("%" + b)[1..] == b;
  }
}
