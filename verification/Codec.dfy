/** Codes that write each symbol as a word and read words back from the front. */
module Codec {

  /** The words of the symbols, one after the other. */
  function Write<A, B>(word: A -> seq<B>, s: seq<A>): (r: seq<B>) {
    if s == [] then [] else word(s[0]) + Write(word, s[1..])
  }

  /** `b` can be cut into words from the front; `length` gives the length of its first word, or 0. */
  predicate Readable<B(==)>(length: seq<B> -> nat, b: seq<B>)
    decreases |b|
  {
    b == [] || (0 < length(b) <= |b| && Readable(length, b[length(b)..]))
  }

  function Read<A, B(==)>(length: seq<B> -> nat, symbol: seq<B> -> A, b: seq<B>): (r: seq<A>)
    requires Readable(length, b)
    decreases |b|
  {
    if b == [] then [] else [symbol(b)] + Read(length, symbol, b[length(b)..])
  }

  lemma {:induction false} WriteAppend<A, B>(word: A -> seq<B>, s: seq<A>, t: seq<A>)
    ensures Write(word, s + t) == Write(word, s) + Write(word, t)
  {
    if s == [] {
      assert s + t == t;
    } else {
      var x, rest := s[0], s[1..];
      WriteAppend(word, rest, t);
      WriteCons(word, x, rest);
      WriteCons(word, x, rest + t);
      assert s == [x] + rest;
      assert s + t == [x] + (rest + t);
    }
  }

  lemma WriteCons<A, B>(word: A -> seq<B>, x: A, s: seq<A>)
    ensures Write(word, [x] + s) == word(x) + Write(word, s)
  {
    assert ([x] + s)[1..] == s;
  }

  lemma WriteOne<A, B>(word: A -> seq<B>, x: A)
    ensures Write(word, [x]) == word(x)
  {
    assert [x][1..] == [];
  }

  /** Reading a word gives the symbol that was written, whatever follows. */
  ghost predicate Prefixes<A(!new), B(!new)>(word: A -> seq<B>, length: seq<B> -> nat, symbol: seq<B> -> A) {
    forall x, rest :: word(x) != [] && length(word(x) + rest) == |word(x)| && symbol(word(x) + rest) == x
  }

  /** Every first word is the word of its symbol. */
  ghost predicate Canonical<A, B(!new)>(word: A -> seq<B>, length: seq<B> -> nat, symbol: seq<B> -> A) {
    forall b {:trigger word(symbol(b))} :: 0 < length(b) ==> length(b) <= |b| && word(symbol(b)) == b[..length(b)]
  }

  lemma {:induction false} ReadWrite<A(!new), B(!new)>(
    word: A -> seq<B>, length: seq<B> -> nat, symbol: seq<B> -> A, s: seq<A>)
    requires Prefixes(word, length, symbol)
    ensures Readable(length, Write(word, s)) && Read(length, symbol, Write(word, s)) == s
  {
    if s != [] {
      var w, rest := word(s[0]), Write(word, s[1..]);
      ReadWrite(word, length, symbol, s[1..]);
      assert length(w + rest) == |w| && (w + rest)[|w|..] == rest;
      assert s == [s[0]] + s[1..];
    }
  }

  lemma {:induction false} WriteRead<A, B(!new)>(
    word: A -> seq<B>, length: seq<B> -> nat, symbol: seq<B> -> A, b: seq<B>)
    requires Canonical(word, length, symbol) && Readable(length, b)
    ensures Write(word, Read(length, symbol, b)) == b
    decreases |b|
  {
    if b != [] {
      var n := length(b);
      WriteRead(word, length, symbol, b[n..]);
      WriteCons(word, symbol(b), Read(length, symbol, b[n..]));
      assert b == b[..n] + b[n..];
    }
  }
}
