/** The order of strings, by character; that of their UTF-8 bytes is the same. */
module Lexicographic {
  import opened Collections

  predicate Less(a: string, b: string) {
    b != [] && (a == [] || a[0] < b[0] || (a[0] == b[0] && Less(a[1..], b[1..])))
  }

  lemma {:induction false} LessTotal(a: string, b: string)
    ensures Less(a, b) || Less(b, a) || a == b
    ensures !(Less(a, b) && Less(b, a)) && !Less(a, a)
  {
    if a != [] && b != [] && a[0] == b[0] {
      LessTotal(a[1..], b[1..]);
      assert a == [a[0]] + a[1..] && b == [b[0]] + b[1..];
    }
    if a != [] {
      LessTotal(a[1..], a[1..]);
    }
  }

  lemma {:induction false} LessTransitive(a: string, b: string, c: string)
    requires Less(a, b) && Less(b, c)
    ensures Less(a, c)
  {
    if a != [] && a[0] == b[0] == c[0] {
      LessTransitive(a[1..], b[1..], c[1..]);
    }
  }

  predicate IsLeast(p: string, s: set<string>) {
    p in s && forall q :: q in s ==> q == p || Less(p, q)
  }

  lemma {:induction false} LeastExists(s: set<string>) returns (p: string)
    requires s != {}
    ensures IsLeast(p, s)
    decreases s
  {
    var x :| x in s;
    if s == {x} {
      p := x;
    } else {
      var y := LeastExists(s - {x});
      LessTotal(x, y);
      p := if Less(x, y) then x else y;
      forall q | q in s
        ensures q == p || Less(p, q)
      {
        if p == x && q != x && q != y {
          LessTransitive(x, y, q);
        }
      }
    }
  }

  predicate Ascending(s: seq<string>) {
    forall i, j :: 0 <= i < j < |s| ==> Less(s[i], s[j])
  }

  /** Strings from the front of an ascending sequence, and then its next one, ascend. */
  lemma AscendingPush(s: seq<string>, i: nat, picked: seq<string>)
    requires Ascending(s) && i < |s| && Ascending(picked) && forall x :: x in picked ==> x in s[..i]
    ensures Ascending(picked + [s[i]])
  {
    forall k | 0 <= k < |picked|
      ensures Less(picked[k], s[i])
    {
      assert picked[k] in s[..i];
    }
  }

  /** The strings, each once, in order. */
  method Sorted(strings: set<string>) returns (r: seq<string>)
    ensures Ascending(r)
    ensures forall p :: p in r <==> p in strings
  {
    r := [];
    var todo := strings;
    while todo != {}
      invariant todo <= strings && Ascending(r)
      invariant forall p :: p in r <==> p in strings && p !in todo
      invariant forall p, q :: p in r && q in todo ==> Less(p, q)
      decreases todo
    {
      ghost var least := LeastExists(todo);
      var p :| p in todo && IsLeast(p, todo);
      assert IsLeast(p, todo);
      r := r + [p];
      todo := todo - {p};
    }
  }

  lemma AscendingDistinct(s: seq<string>)
    requires Ascending(s)
    ensures Distinct(s)
  {
    forall i, j | 0 <= i < j < |s|
      ensures s[i] != s[j]
    {
      LessTotal(s[i], s[i]);
    }
  }

  /** The first difference decides, and a string comes before its continuations. */
  lemma {:induction false} FirstDifference(p: string, x: char, y: char, a: string, b: string)
    requires x < y
    ensures Less(p + ([x] + a), p + ([y] + b)) && Less(p, p + ([x] + a))
  {
    if p == [] {
      assert p + ([x] + a) == [x] + a && p + ([y] + b) == [y] + b;
    } else {
      FirstDifference(p[1..], x, y, a, b);
      assert (p + ([x] + a))[1..] == p[1..] + ([x] + a);
      assert (p + ([y] + b))[1..] == p[1..] + ([y] + b);
    }
  }
}
