/** UTF-8 (sections 3 and 4 of RFC 3629): the encoding of text as bytes, the byte strings that are valid, and
slicing at character boundaries. A Rust `&str` is a valid byte string. */
module Utf8 {
  import opened Codec

  type byte = b: int | 0 <= b < 256

  // ---------- Encoding ----------

  function EncodeChar(c: char): (r: seq<byte>) {
    var v := c as int;
    if v < 0x80 then [v]
    else if v < 0x800 then [0xC0 + v / 64, 0x80 + v % 64]
    else if v < 0x1_0000 then [0xE0 + v / 4096, 0x80 + v / 64 % 64, 0x80 + v % 64]
    else [0xF0 + v / 262144, 0x80 + v / 4096 % 64, 0x80 + v / 64 % 64, 0x80 + v % 64]
  }

  function Encode(s: string): seq<byte> {
    Write(EncodeChar, s)
  }

  // ---------- Valid byte strings, by the grammar ----------

  predicate Continuation(b: byte) {
    0x80 <= b <= 0xBF
  }

  /** The length of the well-formed sequence that `b` begins with; 0 when there is none. */
  function ScalarLength(b: seq<byte>): (n: nat)
    ensures n <= 4 && n <= |b|
    ensures forall i :: 0 < i < n ==> Continuation(b[i])
    ensures n > 0 ==> !Continuation(b[0])
  {
    if |b| >= 1 && b[0] <= 0x7F then 1
    else if |b| >= 2 && 0xC2 <= b[0] <= 0xDF && Continuation(b[1]) then 2
    else if |b| >= 3 && 0xE0 <= b[0] <= 0xEF && Continuation(b[1]) && Continuation(b[2])
         && (b[0] == 0xE0 ==> b[1] >= 0xA0) && (b[0] == 0xED ==> b[1] <= 0x9F) then 3
    else if |b| >= 4 && 0xF0 <= b[0] <= 0xF4 && Continuation(b[1]) && Continuation(b[2]) && Continuation(b[3])
         && (b[0] == 0xF0 ==> b[1] >= 0x90) && (b[0] == 0xF4 ==> b[1] <= 0x8F) then 4
    else 0
  }

  /** A sequence of well-formed scalars. */
  predicate Valid(b: seq<byte>) {
    Readable(ScalarLength, b)
  }

  /** Number written with the base-64 digits `h`, `i`, `j`, `k`. */
  function Number(h: int, i: int, j: int, k: int): int {
    h * 262144 + i * 4096 + j * 64 + k
  }

  function ScalarValue(b: seq<byte>): (v: int)
    requires ScalarLength(b) > 0
    ensures 0 <= v < 0xD800 || 0xE000 <= v <= 0x10_FFFF
  {
    var n := ScalarLength(b);
    if n == 1 then b[0]
    else if n == 2 then Number(0, 0, b[0] - 0xC0, b[1] - 0x80)
    else if n == 3 then Number(0, b[0] - 0xE0, b[1] - 0x80, b[2] - 0x80)
    else Number(b[0] - 0xF0, b[1] - 0x80, b[2] - 0x80, b[3] - 0x80)
  }

  function DecodeChar(b: seq<byte>): char {
    if ScalarLength(b) > 0 then ScalarValue(b) as char else '\0'
  }

  function Decode(b: seq<byte>): string
    requires Valid(b)
  {
    Read(ScalarLength, DecodeChar, b)
  }

  // ---------- The two agree ----------

  lemma NumberOfDigits(v: int)
    requires 0 <= v
    ensures v == Number(v / 262144, v / 4096 % 64, v / 64 % 64, v % 64)
    ensures v < 262144 ==> v == Number(0, v / 4096, v / 64 % 64, v % 64)
    ensures v < 4096 ==> v == Number(0, 0, v / 64, v % 64)
  {
    var a := v / 64;
    var b := a / 64;
    DivideTwice(v, 64);
    DivideTwice(v, 4096);
    assert v == a * 64 + v % 64 && a == b * 64 + a % 64 && b == b / 64 * 64 + b % 64;
  }

  lemma DivideTwice(v: int, k: int)
    requires 0 <= v && (k == 64 || k == 4096)
    ensures v / (k * 64) == v / k / 64
  {
  }

  lemma DigitsOfNumber(h: int, i: int, j: int, k: int)
    requires 0 <= h && 0 <= i < 64 && 0 <= j < 64 && 0 <= k < 64
    ensures var v := Number(h, i, j, k); v / 262144 == h && v / 4096 % 64 == i && v / 64 % 64 == j && v % 64 == k
    ensures h == 0 ==> Number(h, i, j, k) / 4096 == i
    ensures h == i == 0 ==> Number(h, i, j, k) / 64 == j
  {
    var v := Number(h, i, j, k);
    assert v / 64 == h * 4096 + i * 64 + j;
    assert v / 4096 == h * 64 + i;
  }

  lemma EncodedScalar(c: char)
    ensures ScalarLength(EncodeChar(c)) == |EncodeChar(c)| && ScalarValue(EncodeChar(c)) == c as int
  {
    NumberOfDigits(c as int);
  }

  lemma EncodeCharScalar(c: char, rest: seq<byte>)
    ensures var b := EncodeChar(c) + rest;
            && ScalarLength(b) == |EncodeChar(c)| && DecodeChar(b) == c
            && b[ScalarLength(b)..] == rest
  {
    EncodedScalar(c);
  }

  lemma EncodeTwo(j: int, k: int)
    requires 2 <= j < 32 && 0 <= k < 64
    ensures EncodeChar(Number(0, 0, j, k) as char) == [0xC0 + j, 0x80 + k]
  {
    DigitsOfNumber(0, 0, j, k);
  }

  lemma EncodeThree(i: int, j: int, k: int)
    requires 0 <= i < 16 && 0 <= j < 64 && 0 <= k < 64 && (i == 0 ==> j >= 32) && (i == 13 ==> j < 32)
    ensures EncodeChar(Number(0, i, j, k) as char) == [0xE0 + i, 0x80 + j, 0x80 + k]
  {
    DigitsOfNumber(0, i, j, k);
  }

  lemma EncodeFour(h: int, i: int, j: int, k: int)
    requires 0 <= h <= 4 && 0 <= i < 64 && 0 <= j < 64 && 0 <= k < 64 && (h == 0 ==> i >= 16) && (h == 4 ==> i < 16)
    ensures EncodeChar(Number(h, i, j, k) as char) == [0xF0 + h, 0x80 + i, 0x80 + j, 0x80 + k]
  {
    DigitsOfNumber(h, i, j, k);
  }

  lemma DecodeCharEncodes(b: seq<byte>)
    requires ScalarLength(b) > 0
    ensures EncodeChar(DecodeChar(b)) == b[..ScalarLength(b)]
  {
    var n := ScalarLength(b);
    if n == 2 {
      EncodeTwo(b[0] - 0xC0, b[1] - 0x80);
    } else if n == 3 {
      EncodeThree(b[0] - 0xE0, b[1] - 0x80, b[2] - 0x80);
    } else if n == 4 {
      EncodeFour(b[0] - 0xF0, b[1] - 0x80, b[2] - 0x80, b[3] - 0x80);
    }
  }

  /** Every text has a valid encoding, from which it is recovered. */
  lemma DecodeEncode(s: string)
    ensures Valid(Encode(s)) && Decode(Encode(s)) == s
  {
    forall c, rest
      ensures EncodeChar(c) != [] && ScalarLength(EncodeChar(c) + rest) == |EncodeChar(c)|
              && DecodeChar(EncodeChar(c) + rest) == c
    {
      EncodeCharScalar(c, rest);
    }
    assert Prefixes(EncodeChar, ScalarLength, DecodeChar);
    ReadWrite(EncodeChar, ScalarLength, DecodeChar, s);
  }

  /** Every valid byte string is the encoding of a text. */
  lemma EncodeDecode(b: seq<byte>)
    requires Valid(b)
    ensures Encode(Decode(b)) == b
  {
    forall x | 0 < ScalarLength(x)
      ensures EncodeChar(DecodeChar(x)) == x[..ScalarLength(x)]
    {
      DecodeCharEncodes(x);
    }
    WriteRead(EncodeChar, ScalarLength, DecodeChar, b);
  }

  // ---------- Slices ----------

  /** Rust's `is_char_boundary`. */
  predicate IsBoundary(b: seq<byte>, i: int) {
    i == 0 || i == |b| || (0 < i < |b| && !Continuation(b[i]))
  }

  /** `&s[i..j]`, which panics off a boundary: those are its preconditions. */
  function Slice(b: seq<byte>, i: nat, j: nat): seq<byte>
    requires i <= j <= |b| && IsBoundary(b, i) && IsBoundary(b, j)
  {
    b[i..j]
  }

  /** How many bytes a character takes, and one character of each kind: A, e with acute, the euro sign, U+1F600. */
  lemma EncodingsByKind(c: char)
    ensures |EncodeChar(c)| == if c as int <= 0x7F then 1 else if c as int <= 0x7FF then 2
                               else if c as int <= 0xFFFF then 3 else 4
    ensures EncodeChar(0x41 as char) == [0x41] && EncodeChar(0xE9 as char) == [0xC3, 0xA9]
    ensures EncodeChar(0x20AC as char) == [0xE2, 0x82, 0xAC] && EncodeChar(0x1F600 as char) == [0xF0, 0x9F, 0x98, 0x80]
  {
  }
}
