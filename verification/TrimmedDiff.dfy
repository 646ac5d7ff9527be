/** Unified diffs as they reach the parser (diff.rs): what git prints for tracked files is trimmed first, so the last
line has no newline, and what is white space at the end is lost.

`TrimPatch` says what is left of a patch. `TrimmedRoundTripExact` says for which patches that is everything. */
module TrimmedDiff {
  import opened Text
  import opened UnifiedDiff

  // ---------- Trimming ----------

  function TrimEnd(s: string): (r: string)
    ensures r <= s
    ensures r != [] ==> !IsWhitespace(r[|r| - 1])
    ensures forall i :: |r| <= i < |s| ==> IsWhitespace(s[i])
  {
    if s == [] || !IsWhitespace(s[|s| - 1]) then s else TrimEnd(s[..|s| - 1])
  }

  function TrimStart(s: string): string {
    if s == [] || !IsWhitespace(s[0]) then s else TrimStart(s[1..])
  }

  /** Rust's `trim`. */
  function Trim(s: string): string {
    TrimEnd(TrimStart(s))
  }

  lemma TrimEndAppend(a: string, b: string)
    ensures TrimEnd(a + b) == if TrimEnd(b) == [] then TrimEnd(a) else a + TrimEnd(b)
  {
    var r := if TrimEnd(b) == [] then TrimEnd(a) else a + TrimEnd(b);
    assert r <= a + b;
    forall i | |r| <= i < |a + b|
      ensures IsWhitespace((a + b)[i])
    {
      if i >= |a| {
        assert (a + b)[i] == b[i - |a|];
      }
    }
    TrimEndIs(a + b, r);
  }

  lemma TrimEndIs(s: string, r: string)
    requires r <= s && (r != [] ==> !IsWhitespace(r[|r| - 1])) && forall i :: |r| <= i < |s| ==> IsWhitespace(s[i])
    ensures TrimEnd(s) == r
  {
    var t := TrimEnd(s);
    assert r != [] ==> s[|r| - 1] == r[|r| - 1];
    assert t != [] ==> s[|t| - 1] == t[|t| - 1];
  }

  // ---------- Lines without a final newline ----------

  /** The lines as text, the last one without a newline. */
  function Open(lines: seq<string>): string {
    if lines == [] then "" else if |lines| == 1 then lines[0] else lines[0] + ['\n'] + Open(lines[1..])
  }

  lemma {:induction false} OpenPush(lines: seq<string>, l: string)
    ensures Open(lines + [l]) == Unlines(lines) + l
  {
    if lines != [] {
      OpenPush(lines[1..], l);
      assert (lines + [l])[1..] == lines[1..] + [l];
      assert lines[0] + ['\n'] + (Unlines(lines[1..]) + l) == lines[0] + "\n" + Unlines(lines[1..]) + l;
    }
  }

  lemma {:induction false} UnlinesPush(lines: seq<string>, l: string)
    ensures Unlines(lines + [l]) == Unlines(lines) + l + "\n"
  {
    if lines == [] {
      assert [l][1..] == [];
    } else {
      UnlinesPush(lines[1..], l);
      assert (lines + [l])[1..] == lines[1..] + [l];
    }
  }

  lemma FirstLine(first: string, rest: string)
    requires OneLine(first)
    ensures Lines(first + ['\n'] + rest) == [StripCR(first)] + Lines(rest)
  {
    BeforeOfJoined(first, '\n', rest);
    assert (first + ['\n'] + rest)[|first| + 1..] == rest;
  }

  /** The lines as they are read: all but the last lose a final carriage return. */
  function LinesRead(lines: seq<string>): (r: seq<string>)
    ensures |r| == |lines|
  {
    seq(|lines|, i requires 0 <= i < |lines| => if i < |lines| - 1 then StripCR(lines[i]) else lines[i])
  }

  /** Splitting text whose last line has no newline gives back all its lines, the last one as it is. */
  lemma {:induction false} LinesOfOpen(lines: seq<string>)
    requires lines != [] && lines[|lines| - 1] != [] && forall i :: 0 <= i < |lines| ==> OneLine(lines[i])
    ensures Lines(Open(lines)) == LinesRead(lines)
    decreases |lines|
  {
    if |lines| == 1 {
      BeforeOfPlain(lines[0], '\n');
    } else {
      LinesOfOpen(lines[1..]);
      LinesOfOpenStep(lines);
    }
  }

  lemma LinesOfOpenStep(lines: seq<string>)
    requires |lines| > 1 && OneLine(lines[0]) && Lines(Open(lines[1..])) == LinesRead(lines[1..])
    ensures Lines(Open(lines)) == LinesRead(lines)
  {
    var rest := Open(lines[1..]);
    FirstLine(lines[0], rest);
    assert Open(lines) == lines[0] + ['\n'] + rest;
    LinesReadCons(lines);
  }

  lemma LinesReadCons(lines: seq<string>)
    requires |lines| > 1
    ensures LinesRead(lines) == [StripCR(lines[0])] + LinesRead(lines[1..])
  {
  }

  /** What trimming leaves of lines: the last ones go while they are blank, and the next is trimmed. */
  function TrimAll(lines: seq<string>): seq<string> {
    if lines == [] then []
    else
      var rest, last := lines[..|lines| - 1], TrimEnd(lines[|lines| - 1]);
      if last == [] then TrimAll(rest) else rest + [last]
  }

  lemma TrimPushed(rest: seq<string>, l: string)
    ensures TrimEnd(Unlines(rest + [l]))
         == if TrimEnd(l) == [] then TrimEnd(Unlines(rest)) else Unlines(rest) + TrimEnd(l)
  {
    UnlinesPush(rest, l);
    TrimNewline(Unlines(rest), l);
  }

  lemma TrimNewline(a: string, b: string)
    ensures TrimEnd(a + b + "\n") == if TrimEnd(b) == [] then TrimEnd(a) else a + TrimEnd(b)
  {
    TrimEndAppend(a + b, "\n");
    TrimEndAppend(a, b);
    assert TrimEnd("\n") == "";
  }

  lemma {:induction false} TrimUnlines(lines: seq<string>)
    ensures TrimEnd(Unlines(lines)) == Open(TrimAll(lines))
  {
    if lines != [] {
      var rest, l := lines[..|lines| - 1], lines[|lines| - 1];
      TrimUnlines(rest);
      TrimPushed(rest, l);
      assert lines == rest + [l];
      OpenPush(rest, TrimEnd(l));
    }
  }

  lemma {:induction false} TrimAllLines(lines: seq<string>)
    ensures TrimAll(lines) != [] ==>
              var last := TrimAll(lines)[|TrimAll(lines)| - 1]; last != [] && !IsWhitespace(last[|last| - 1])
    ensures forall i :: 0 <= i < |TrimAll(lines)| ==> i < |lines| && TrimAll(lines)[i] <= lines[i]
  {
    if lines != [] {
      TrimAllLines(lines[..|lines| - 1]);
    }
  }

  // ---------- Trimmed patches ----------

  function TrimLines(lines: seq<PatchLine>): (r: seq<PatchLine>)
    ensures |r| <= |lines|
  {
    if lines == [] then []
    else
      var rest, l := lines[..|lines| - 1], lines[|lines| - 1];
      if l.noNewline then lines
      else if l.lineType == Context && TrimEnd(l.content) == [] then TrimLines(rest)
      else rest + [l.(content := TrimEnd(l.content))]
  }

  function TrimHunk(h: PatchHunk): PatchHunk {
    var lines := TrimLines(h.lines);
    if lines == [] then h.(lines := [], context := TrimEnd(h.context)) else h.(lines := lines)
  }

  function TrimPatch(hunks: seq<PatchHunk>): (r: seq<PatchHunk>)
    ensures |r| == |hunks|
  {
    if hunks == [] then [] else hunks[..|hunks| - 1] + [TrimHunk(hunks[|hunks| - 1])]
  }

  lemma TrimPrinted(l: PatchLine)
    ensures TrimEnd([l.Prefix()] + l.content)
         == if l.lineType == Context && TrimEnd(l.content) == [] then [] else [l.Prefix()] + TrimEnd(l.content)
  {
    TrimEndAppend([l.Prefix()], l.content);
    TrimEndIs([l.Prefix()], if l.lineType == Context then [] else [l.Prefix()]);
  }

  lemma TrimHeader(h: PatchHunk)
    ensures TrimEnd(h.Header()) == h.(context := TrimEnd(h.context)).Header()
  {
    var front := "@@ " + h.Ranges() + " @@";
    TrimEndAppend(front, h.context);
    TrimEndIs(front, front);
  }

  lemma TrimAllPush(front: seq<string>, last: string)
    ensures TrimAll(front + [last]) == if TrimEnd(last) == [] then TrimAll(front) else front + [TrimEnd(last)]
  {
    assert (front + [last])[..|front|] == front;
  }

  /** Trimming a printed line that ends the text. */
  lemma TrimLastLine(before: seq<string>, l: PatchLine)
    ensures TrimAll(before + l.Text())
         == if l.noNewline then before + l.Text()
            else if l.lineType == Context && TrimEnd(l.content) == [] then TrimAll(before)
            else before + l.(content := TrimEnd(l.content)).Text()
  {
    var text := [l.Prefix()] + l.content;
    if l.noNewline {
      assert before + l.Text() == (before + [text]) + [NO_NEWLINE];
      TrimEndIs(NO_NEWLINE, NO_NEWLINE);
      TrimAllPush(before + [text], NO_NEWLINE);
    } else {
      assert before + l.Text() == before + [text];
      TrimAllPush(before, text);
      TrimPrinted(l);
    }
  }

  lemma BodyPush(lines: seq<PatchLine>, l: PatchLine)
    ensures BodyText(lines + [l]) == BodyText(lines) + l.Text()
  {
    assert (lines + [l])[..|lines|] == lines;
  }

  lemma TrimLinesPush(rest: seq<PatchLine>, l: PatchLine)
    ensures TrimLines(rest + [l])
         == if l.noNewline then rest + [l]
            else if l.lineType == Context && TrimEnd(l.content) == [] then TrimLines(rest)
            else rest + [l.(content := TrimEnd(l.content))]
  {
    assert (rest + [l])[..|rest|] == rest;
  }

  /** What trimming leaves of a hunk that ends the text: its header, and what is left of its body. */
  function HunkLeft(front: seq<string>, header: string, t: seq<PatchLine>): seq<string> {
    if t == [] then front + [TrimEnd(header)] else front + [header] + BodyText(t)
  }

  /** Trimming reaches into the body of the last hunk, and no further than its header. */
  lemma {:induction false} TrimBody(front: seq<string>, header: string, lines: seq<PatchLine>)
    requires TrimEnd(header) != []
    ensures TrimAll(front + [header] + BodyText(lines)) == HunkLeft(front, header, TrimLines(lines))
  {
    if lines == [] {
      assert front + [header] + BodyText(lines) == front + [header];
      TrimAllPush(front, header);
    } else {
      var rest, l := lines[..|lines| - 1], lines[|lines| - 1];
      TrimBody(front, header, rest);
      TrimBodyStep(front, header, rest, l);
      assert lines == rest + [l];
    }
  }

  lemma TrimBodyStep(front: seq<string>, header: string, rest: seq<PatchLine>, l: PatchLine)
    requires TrimAll(front + [header] + BodyText(rest)) == HunkLeft(front, header, TrimLines(rest))
    ensures TrimAll(front + [header] + BodyText(rest + [l])) == HunkLeft(front, header, TrimLines(rest + [l]))
  {
    TrimBodyLine(front + [header], rest, l);
    TrimLinesPush(rest, l);
  }

  lemma TrimBodyLine(head: seq<string>, rest: seq<PatchLine>, l: PatchLine)
    ensures TrimAll(head + BodyText(rest + [l]))
         == if l.noNewline then head + BodyText(rest + [l])
            else if l.lineType == Context && TrimEnd(l.content) == [] then TrimAll(head + BodyText(rest))
            else head + BodyText(rest + [l.(content := TrimEnd(l.content))])
  {
    BodyPush(rest, l);
    BodyPush(rest, l.(content := TrimEnd(l.content)));
    TrimLastLine(head + BodyText(rest), l);
    assert head + BodyText(rest + [l]) == head + BodyText(rest) + l.Text();
  }

  // ---------- Reading a trimmed patch ----------

  /** What is printed begins with something other than white space, as git's headers do. */
  predicate BeginsPlain(preamble: seq<string>) {
    preamble != [] ==> preamble[0] != [] && !IsWhitespace(preamble[0][0])
  }

  lemma TrimOfPatch(preamble: seq<string>, hunks: seq<PatchHunk>)
    requires BeginsPlain(preamble)
    ensures Trim(PatchText(preamble, hunks)) == Open(TrimAll(preamble + HunksText(hunks)))
  {
    var lines := preamble + HunksText(hunks);
    if lines != [] {
      PlainStart(preamble, hunks);
      assert PatchText(preamble, hunks)[0] == lines[0][0];
    }
    TrimUnlines(lines);
  }

  lemma {:induction false} PlainStart(preamble: seq<string>, hunks: seq<PatchHunk>)
    requires BeginsPlain(preamble) && preamble + HunksText(hunks) != []
    ensures var first := (preamble + HunksText(hunks))[0]; first != [] && !IsWhitespace(first[0])
  {
    if preamble == [] {
      if |hunks| == 1 {
        assert hunks[..0] == [] && HunksText(hunks) == hunks[0].Text();
      } else {
        PlainStart(preamble, hunks[..|hunks| - 1]);
      }
    }
  }

  lemma TrimLastHunk(front: seq<string>, h: PatchHunk)
    ensures TrimAll(front + h.Text()) == front + TrimHunk(h).Text()
  {
    TrimHeader(h);
    TrimBody(front, h.Header(), h.lines);
    TrimmedHunkText(front, h);
    Regroup(front, h.Header(), BodyText(h.lines));
  }

  lemma Regroup(front: seq<string>, x: string, back: seq<string>)
    ensures front + ([x] + back) == front + [x] + back
  {
  }

  lemma HunksPush(rest: seq<PatchHunk>, h: PatchHunk, preamble: seq<string>)
    ensures preamble + HunksText(rest + [h]) == (preamble + HunksText(rest)) + h.Text()
  {
    assert (rest + [h])[..|rest|] == rest;
  }

  /** What trimming leaves of a patch is a patch, printed without its last newline. */
  lemma TrimAllOfPatch(preamble: seq<string>, hunks: seq<PatchHunk>)
    requires hunks != []
    ensures TrimAll(preamble + HunksText(hunks)) == preamble + HunksText(TrimPatch(hunks))
  {
    var rest, h := hunks[..|hunks| - 1], hunks[|hunks| - 1];
    assert hunks == rest + [h];
    HunksPush(rest, h, preamble);
    HunksPush(rest, TrimHunk(h), preamble);
    TrimLastHunk(preamble + HunksText(rest), h);
  }

  lemma TrimmedHunkText(front: seq<string>, h: PatchHunk)
    ensures HunkLeft(front, h.Header(), TrimLines(h.lines)) == front + TrimHunk(h).Text()
  {
    var t := TrimLines(h.lines);
    TrimHeader(h);
    if t == [] {
      assert TrimHunk(h).Text() == [TrimHunk(h).Header()];
    } else {
      Regroup(front, h.Header(), BodyText(t));
    }
  }

  lemma PrefixOneLine(a: string, b: string)
    requires a <= b && OneLine(b)
    ensures OneLine(a)
  {
  }

  lemma {:induction false} TrimLinesProper(lines: seq<PatchLine>)
    requires forall i :: 0 <= i < |lines| ==> OneLine(lines[i].content)
    ensures forall i :: 0 <= i < |TrimLines(lines)| ==> OneLine(TrimLines(lines)[i].content)
  {
    if lines != [] {
      TrimLinesProper(lines[..|lines| - 1]);
      PrefixOneLine(TrimEnd(lines[|lines| - 1].content), lines[|lines| - 1].content);
    }
  }

  lemma TrimPatchProper(preamble: seq<string>, hunks: seq<PatchHunk>)
    requires ProperPatch(preamble, hunks)
    ensures ProperPatch(preamble, TrimPatch(hunks))
  {
    if hunks != [] {
      var h := hunks[|hunks| - 1];
      TrimLinesProper(h.lines);
      PrefixOneLine(TrimEnd(h.context), h.context);
    }
  }

  /** Lines of which the last is not blank and has no carriage return to lose. */
  predicate PlainLines(t: seq<string>) {
    && (forall i :: 0 <= i < |t| ==> OneLine(t[i]))
    && (t != [] ==> t[|t| - 1] != [] && !EndsInCR(t[|t| - 1]))
  }

  lemma {:induction false} TrimAllPlain(lines: seq<string>)
    requires forall i :: 0 <= i < |lines| ==> OneLine(lines[i])
    ensures PlainLines(TrimAll(lines))
  {
    if lines != [] {
      var rest, l := lines[..|lines| - 1], lines[|lines| - 1];
      TrimAllPlain(rest);
      PrefixOneLine(TrimEnd(l), l);
      PlainPush(rest, TrimEnd(l));
    }
  }

  lemma PlainPush(rest: seq<string>, last: string)
    ensures (forall i :: 0 <= i < |rest| ==> OneLine(rest[i])) && OneLine(last) && last != [] && !EndsInCR(last) ==>
              PlainLines(rest + [last])
  {
  }

  lemma LinesOfPlain(t: seq<string>)
    ensures PlainLines(t) ==> Lines(Open(t)) == Stripped(t)
  {
    if PlainLines(t) && t != [] {
      LinesOfOpen(t);
      LinesReadPlain(t);
    }
  }

  /** The lines of trimmed text, read. */
  lemma LinesOfTrimmed(lines: seq<string>)
    requires forall i :: 0 <= i < |lines| ==> OneLine(lines[i])
    ensures Lines(Open(TrimAll(lines))) == Stripped(TrimAll(lines))
  {
    TrimAllPlain(lines);
    LinesOfPlain(TrimAll(lines));
  }

  lemma LinesReadPlain(t: seq<string>)
    requires t != [] && !EndsInCR(t[|t| - 1])
    ensures LinesRead(t) == Stripped(t)
  {
    assert StripCR(t[|t| - 1]) == t[|t| - 1];
    assert forall i :: 0 <= i < |t| ==> LinesRead(t)[i] == Stripped(t)[i];
  }

  lemma TrimmedPreamble(preamble: seq<string>)
    requires forall l :: l in preamble ==> !("@@" <= StripCR(l))
    ensures forall l :: l in TrimAll(preamble) ==> !("@@" <= StripCR(l))
  {
    TrimAllLines(preamble);
    var t := TrimAll(preamble);
    forall l | l in t
      ensures !("@@" <= StripCR(l))
    {
      var i :| 0 <= i < |t| && t[i] == l;
      assert preamble[i] in preamble && l <= preamble[i];
      ShorterStart(l, preamble[i]);
    }
  }

  lemma ShorterStart(a: string, b: string)
    requires a <= b && !("@@" <= StripCR(b))
    ensures !("@@" <= StripCR(a))
  {
  }

  /** What the parser makes of any printed and trimmed patch that does not look binary: what is left of it is read
      as it would be without trimming. */
  lemma ParseOfTrimmed(preamble: seq<string>, hunks: seq<PatchHunk>, path: string)
    requires ProperPatch(preamble, hunks) && BeginsPlain(preamble) && !LooksBinary(Trim(PatchText(preamble, hunks)))
    ensures Parsed(Trim(PatchText(preamble, hunks)), path) == FileDiff(path, ReadBack(TrimPatch(hunks)), false)
  {
    var lines := preamble + HunksText(hunks);
    TrimOfPatch(preamble, hunks);
    HunksTextOneLine(hunks);
    LinesOfTrimmed(lines);
    if hunks == [] {
      assert lines == preamble;
      TrimmedPreamble(preamble);
      FeedPreamble(TrimAll(preamble));
    } else {
      TrimAllOfPatch(preamble, hunks);
      TrimPatchProper(preamble, hunks);
      FeedPatch(preamble, TrimPatch(hunks));
    }
  }

  // ---------- When nothing is lost ----------

  predicate EndsBlank(s: string) {
    s != [] && IsWhitespace(s[|s| - 1])
  }

  /** The last line that is printed of the hunk ends in something other than white space. */
  predicate EndsPlain(h: PatchHunk) {
    if h.lines == [] then !EndsBlank(h.context)
    else
      var l := h.lines[|h.lines| - 1];
      l.noNewline || (if l.content == [] then l.lineType != Context else !EndsBlank(l.content))
  }

  lemma TrimHunkSame(h: PatchHunk)
    requires EndsPlain(h)
    ensures TrimHunk(h) == h
  {
    if h.lines != [] {
      var rest, l := h.lines[..|h.lines| - 1], h.lines[|h.lines| - 1];
      assert h.lines == rest + [l];
      TrimLinesPush(rest, l);
      if !l.noNewline {
        TrimEndIs(l.content, l.content);
      }
    } else {
      TrimEndIs(h.context, h.context);
    }
  }

  /** A hunk that loses something by trimming is not read as it was printed. */
  lemma TrimHunkLoses(h: PatchHunk)
    requires !EndsPlain(h)
    ensures ExpectedHunk(TrimHunk(h), StripCR(TrimHunk(h).Header()), Surviving(TrimHunk(h).lines))
         != ExpectedHunk(h, h.Header(), h.lines)
  {
    var t := TrimHunk(h);
    if h.lines == [] {
      assert |t.context| < |h.context|;
      assert |StripCR(t.Header())| <= |t.Header()| < |h.Header()|;
    } else if |t.lines| == |h.lines| == |Surviving(t.lines)| {
      var k := |h.lines| - 1;
      SurvivingOrder(t.lines);
      assert |t.lines[k].content| < |h.lines[k].content|;
      var found := ExpectedLines(Surviving(t.lines), h.oldStart, h.newStart);
      var exact := ExpectedLines(h.lines, h.oldStart, h.newStart);
      assert found[k].content != exact[k].content;
    }
  }

  /** Parsing a printed and trimmed patch gives back its hunks if and only if the text does not look binary, every
      hunk is faithful, and the last printed line ends in something other than white space. */
  lemma TrimmedRoundTripExact(preamble: seq<string>, hunks: seq<PatchHunk>, path: string)
    requires ProperPatch(preamble, hunks) && BeginsPlain(preamble)
    ensures Parsed(Trim(PatchText(preamble, hunks)), path) == FileDiff(path, Exact(hunks), false)
       <==> && !LooksBinary(Trim(PatchText(preamble, hunks)))
            && (forall i :: 0 <= i < |hunks| ==> Faithful(hunks[i]))
            && (hunks != [] ==> EndsPlain(hunks[|hunks| - 1]))
  {
    if !LooksBinary(Trim(PatchText(preamble, hunks))) {
      ParseOfTrimmed(preamble, hunks, path);
      var found, exact := ReadBack(TrimPatch(hunks)), Exact(hunks);
      forall i | 0 <= i < |hunks|
        ensures found[i] == exact[i] <==> Faithful(hunks[i]) && (i == |hunks| - 1 ==> EndsPlain(hunks[i]))
      {
        HunkFaithful(hunks[i]);
        if i == |hunks| - 1 {
          if EndsPlain(hunks[i]) {
            TrimHunkSame(hunks[i]);
          } else {
            TrimHunkLoses(hunks[i]);
          }
        }
      }
      assert found == exact <==> forall i :: 0 <= i < |hunks| ==> found[i] == exact[i];
    }
  }

  /** A blank line that ends the context of the last hunk is lost. */
  lemma BlankEndIsLost(h: PatchHunk)
    ensures var h' := h.(lines := h.lines + [PatchLine(Context, "", false)]);
            !EndsPlain(h') && TrimHunk(h') == TrimHunk(h)
  {
    TrimLinesPush(h.lines, PatchLine(Context, "", false));
  }
}
