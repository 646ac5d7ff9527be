/** Parsing a unified diff (diff.rs), and how it relates to the patch that was printed.

`ParseUnifiedDiff` is the parser, `Feed` its treatment of one line. `PatchText` prints a patch the way git
does. Reading back what was printed gives `ReadBack`, which drops and alters some lines; `RoundTripExact`
says for which patches nothing is lost. Line numbers are 32-bit and wrap around. */
module UnifiedDiff {
  import opened Text

  datatype LineType = Added | Removed | Context

  datatype DiffLine = DiffLine(
    lineType: LineType, content: string, oldLineNumber: Option<nat>, newLineNumber: Option<nat>)

  datatype DiffHunk = DiffHunk(oldStart: nat, newStart: nat, header: string, lines: seq<DiffLine>)

  datatype FileDiff = FileDiff(path: string, hunks: seq<DiffHunk>, isBinary: bool)

  datatype HunkBuilder = HunkBuilder(
    oldStart: nat, newStart: nat, header: string, oldLine: nat, newLine: nat, lines: seq<DiffLine>)
  {
    function Build(): DiffHunk {
      DiffHunk(oldStart, newStart, header, lines)
    }
  }

  function Inc(n: nat): nat {
    (n + 1) % (U32_MAX + 1)
  }

  // ---------- Lines of text ----------

  function StripCR(s: string): string {
    if s != [] && s[|s| - 1] == '\r' then s[..|s| - 1] else s
  }

  /** Rust's `str::lines`: a carriage return before a newline belongs to the line ending. */
  function Lines(s: string): (r: seq<string>)
    decreases |s|
  {
    if s == [] then []
    else
      var b := Before(s, '\n');
      if |b| == |s| then [b] else [StripCR(b)] + Lines(s[|b| + 1..])
  }

  // ---------- The parser ----------

  const FILE_HEADERS := ["diff --git", "index ", "---", "+++", "new file mode", "deleted file mode",
                         "old mode", "new mode", "similarity index", "rename from", "rename to"]
  const NO_NEWLINE := "\\ No newline at end of file"

  predicate IsFileHeader(line: string) {
    exists i :: 0 <= i < |FILE_HEADERS| && FILE_HEADERS[i] <= line
  }

  predicate LooksBinary(raw: string) {
    Contains(raw, "Binary files") && Contains(raw, "differ")
  }

  /** The index of the first occurrence of `p`. */
  function Find(s: string, p: string): (r: Option<nat>)
    ensures r.Some? ==> r.value + |p| <= |s| && p <= s[r.value..]
  {
    if p <= s then Some(0)
    else if s == [] then None
    else match Find(s[1..], p)
      case Some(i) => Some(i + 1)
      case None => None
  }

  function ParseRange(part: string, sign: char): (r: Option<nat>)
    ensures r.Some? ==> r.value <= U32_MAX
  {
    match StripPrefix(part, [sign])
    case Some(range) => ParseU32(Split(range, ',')[0])
    case None => None
  }

  function ParseHunkHeader(line: string): (r: Option<HunkBuilder>) {
    match StripPrefix(line, "@@ ")
    case None => None
    case Some(afterAt) =>
      match Find(afterAt, " @@")
      case None => None
      case Some(end) =>
        var parts := Split(afterAt[..end], ' ');
        match (ParseRange(parts[0], '-'), if |parts| > 1 then ParseRange(parts[1], '+') else None)
        case (Some(o), Some(n)) => Some(HunkBuilder(o, n, line, o, n, []))
        case _ => None
  }

  datatype ParseState = ParseState(hunks: seq<DiffHunk>, current: Option<HunkBuilder>) {
    /** The hunks so far, the unfinished one included. */
    function Flushed(): seq<DiffHunk> {
      if current.Some? then hunks + [current.value.Build()] else hunks
    }
  }

  /** One line inside a hunk. */
  function AddLine(b: HunkBuilder, line: string): HunkBuilder {
    if line == [] then b
    else if line[0] == '+' then
      b.(lines := b.lines + [DiffLine(Added, line[1..], None, Some(b.newLine))], newLine := Inc(b.newLine))
    else if line[0] == '-' then
      b.(lines := b.lines + [DiffLine(Removed, line[1..], Some(b.oldLine), None)], oldLine := Inc(b.oldLine))
    else if line[0] == ' ' then
      b.(lines := b.lines + [DiffLine(Context, line[1..], Some(b.oldLine), Some(b.newLine))],
         oldLine := Inc(b.oldLine), newLine := Inc(b.newLine))
    else b
  }

  function Feed(st: ParseState, line: string): ParseState {
    if IsFileHeader(line) then st
    else if "@@" <= line then ParseState(st.Flushed(), ParseHunkHeader(line))
    else if NO_NEWLINE <= line then st
    else if st.current.Some? then st.(current := Some(AddLine(st.current.value, line)))
    else st
  }

  function FeedAll(st: ParseState, lines: seq<string>): ParseState
    decreases |lines|
  {
    if lines == [] then st else FeedAll(Feed(st, lines[0]), lines[1..])
  }

  lemma {:induction false} FeedAllAppend(st: ParseState, a: seq<string>, b: seq<string>)
    ensures FeedAll(st, a + b) == FeedAll(FeedAll(st, a), b)
    decreases |a|
  {
    if a == [] {
      assert a + b == b;
    } else {
      FeedAllAppend(Feed(st, a[0]), a[1..], b);
      assert (a + b)[1..] == a[1..] + b;
    }
  }

  const START := ParseState([], None)

  ghost function Parsed(raw: string, path: string): FileDiff {
    if LooksBinary(raw) then FileDiff(path, [], true)
    else FileDiff(path, FeedAll(START, Lines(raw)).Flushed(), false)
  }

  method ParseUnifiedDiff(raw: string, path: string) returns (r: FileDiff)
    ensures r == Parsed(raw, path)
  {
    if LooksBinary(raw) {
      return FileDiff(path, [], true);
    }
    var hunks: seq<DiffHunk> := [];
    var current: Option<HunkBuilder> := None;
    var lines := Lines(raw);
    for i := 0 to |lines|
      invariant ParseState(hunks, current) == FeedAll(START, lines[..i])
    {
      var line := lines[i];
      assert lines[..i + 1] == lines[..i] + [line];
      FeedAllAppend(START, lines[..i], [line]);
      if IsFileHeader(line) {
        continue;
      }
      if "@@" <= line {
        if current.Some? {
          hunks := hunks + [current.value.Build()];
        }
        current := ParseHunkHeader(line);
        continue;
      }
      if NO_NEWLINE <= line {
        continue;
      }
      if current.Some? {
        current := Some(AddLine(current.value, line));
      }
    }
    assert lines[..|lines|] == lines;
    if current.Some? {
      hunks := hunks + [current.value.Build()];
    }
    return FileDiff(path, hunks, false);
  }

  ghost predicate OccursIn(raw: string, p: string) {
    exists a: string :: a + p <= raw
  }

  lemma ContainsIsOccurs(raw: string, p: string)
    ensures Contains(raw, p) <==> OccursIn(raw, p)
  {
    if Contains(raw, p) {
      var i :| 0 <= i <= |raw| && StartsWith(raw[i..], p);
      assert raw[..i] + p <= raw;
    }
    if OccursIn(raw, p) {
      var a: string :| a + p <= raw;
      assert StartsWith(raw[|a|..], p);
    }
  }

  /** Text is taken for a binary diff, and read no further, exactly if it holds both halves of git's notice. */
  lemma BinaryExactly(raw: string, path: string)
    ensures Parsed(raw, path).isBinary <==> OccursIn(raw, "Binary files") && OccursIn(raw, "differ")
    ensures Parsed(raw, path).isBinary ==> Parsed(raw, path).hunks == []
  {
    ContainsIsOccurs(raw, "Binary files");
    ContainsIsOccurs(raw, "differ");
  }

  /** So git's notice is recognised, whatever the files are called. */
  lemma NoticeIsBinary(before: string, a: string, b: string, after: string, path: string)
    ensures Parsed(before + "Binary files " + a + " and " + b + " differ" + after, path) == FileDiff(path, [], true)
  {
    var raw := before + "Binary files " + a + " and " + b + " differ" + after;
    var front := before + "Binary files " + a + " and " + b + " ";
    assert before + "Binary files" <= raw;
    assert front + "differ" <= raw;
    BinaryExactly(raw, path);
  }

  // ---------- The printer ----------

  datatype PatchLine = PatchLine(lineType: LineType, content: string, noNewline: bool) {
    function Prefix(): char {
      match lineType
      case Added => '+'
      case Removed => '-'
      case Context => ' '
    }

    /** The line as printed, and the marker that may follow it. */
    function Text(): seq<string> {
      [[Prefix()] + content] + if noNewline then [NO_NEWLINE] else []
    }

    /** A printed line that would pass for a file header. */
    predicate LooksLikeHeader() {
      (lineType == Added && "++" <= content) || (lineType == Removed && "--" <= content)
    }
  }

  datatype PatchHunk = PatchHunk(
    oldStart: nat, oldCount: Option<nat>, newStart: nat, newCount: Option<nat>, context: string,
    lines: seq<PatchLine>)
  {
    function Range(start: nat, count: Option<nat>): string {
      Decimal(start) + if count.Some? then "," + Decimal(count.value) else ""
    }

    function Ranges(): string {
      "-" + Range(oldStart, oldCount) + " +" + Range(newStart, newCount)
    }

    function Header(): string {
      "@@ " + Ranges() + " @@" + context
    }

    function Text(): seq<string> {
      [Header()] + BodyText(lines)
    }
  }

  function BodyText(lines: seq<PatchLine>): seq<string> {
    if lines == [] then [] else BodyText(lines[..|lines| - 1]) + lines[|lines| - 1].Text()
  }

  function HunksText(hunks: seq<PatchHunk>): seq<string> {
    if hunks == [] then [] else HunksText(hunks[..|hunks| - 1]) + hunks[|hunks| - 1].Text()
  }

  function Unlines(lines: seq<string>): string {
    if lines == [] then "" else lines[0] + "\n" + Unlines(lines[1..])
  }

  /** The whole patch: file headers and whatever else comes before the first hunk, then the hunks. */
  function PatchText(preamble: seq<string>, hunks: seq<PatchHunk>): string {
    Unlines(preamble + HunksText(hunks))
  }

  predicate OneLine(s: string) {
    '\n' !in s
  }

  predicate ProperHunk(h: PatchHunk) {
    && h.oldStart <= U32_MAX && h.newStart <= U32_MAX && OneLine(h.context)
    && forall i :: 0 <= i < |h.lines| ==> OneLine(h.lines[i].content)
  }

  ghost predicate ProperPatch(preamble: seq<string>, hunks: seq<PatchHunk>) {
    && (forall l :: l in preamble ==> OneLine(l) && !("@@" <= StripCR(l)))
    && (forall i :: 0 <= i < |hunks| ==> ProperHunk(hunks[i]))
  }

  // ---------- What the parser should find, by counting ----------

  /** Lines of the old file among `lines`; the new file's lines are the ones not removed. */
  function OldLines(lines: seq<PatchLine>): nat {
    if lines == [] then 0
    else OldLines(lines[..|lines| - 1]) + if lines[|lines| - 1].lineType == Added then 0 else 1
  }

  function NewLines(lines: seq<PatchLine>): nat {
    if lines == [] then 0
    else NewLines(lines[..|lines| - 1]) + if lines[|lines| - 1].lineType == Removed then 0 else 1
  }

  function Numbered(n: nat): nat {
    n % (U32_MAX + 1)
  }

  /** Line `i` of a hunk: its numbers are the start plus the earlier lines on each side. */
  function ExpectedLine(lines: seq<PatchLine>, i: nat, oldStart: nat, newStart: nat): DiffLine
    requires i < |lines|
  {
    var l := lines[i];
    DiffLine(l.lineType, l.content,
      if l.lineType == Added then None else Some(Numbered(oldStart + OldLines(lines[..i]))),
      if l.lineType == Removed then None else Some(Numbered(newStart + NewLines(lines[..i]))))
  }

  function ExpectedLines(lines: seq<PatchLine>, oldStart: nat, newStart: nat): (r: seq<DiffLine>)
    ensures |r| == |lines|
    ensures forall i :: 0 <= i < |r| ==> r[i] == ExpectedLine(lines, i, oldStart, newStart)
  {
    seq(|lines|, i requires 0 <= i < |lines| => ExpectedLine(lines, i, oldStart, newStart))
  }

  function ExpectedHunk(h: PatchHunk, header: string, lines: seq<PatchLine>): DiffHunk {
    DiffHunk(h.oldStart, h.newStart, header, ExpectedLines(lines, h.oldStart, h.newStart))
  }

  function Exact(hunks: seq<PatchHunk>): (r: seq<DiffHunk>)
    ensures |r| == |hunks|
  {
    seq(|hunks|, i requires 0 <= i < |hunks| => ExpectedHunk(hunks[i], hunks[i].Header(), hunks[i].lines))
  }

  /** The lines that reading back leaves: header look-alikes are dropped, final carriage returns lost. */
  function Surviving(lines: seq<PatchLine>): (r: seq<PatchLine>)
    ensures |r| <= |lines|
  {
    if lines == [] then []
    else
      var l := lines[|lines| - 1];
      Surviving(lines[..|lines| - 1]) + if l.LooksLikeHeader() then [] else [l.(content := StripCR(l.content))]
  }

  function ReadBack(hunks: seq<PatchHunk>): (r: seq<DiffHunk>)
    ensures |r| == |hunks|
  {
    seq(|hunks|, i requires 0 <= i < |hunks| =>
      ExpectedHunk(hunks[i], StripCR(hunks[i].Header()), Surviving(hunks[i].lines)))
  }

  // ---------- Lines survive printing and splitting ----------

  function Stripped(lines: seq<string>): (r: seq<string>)
    ensures |r| == |lines|
  {
    seq(|lines|, i requires 0 <= i < |lines| => StripCR(lines[i]))
  }

  lemma StrippedAppend(a: seq<string>, b: seq<string>)
    ensures Stripped(a + b) == Stripped(a) + Stripped(b)
  {
  }

  lemma {:induction false} LinesOfUnlines(lines: seq<string>)
    requires forall i :: 0 <= i < |lines| ==> OneLine(lines[i])
    ensures Lines(Unlines(lines)) == Stripped(lines)
  {
    if lines != [] {
      var rest := Unlines(lines[1..]);
      LinesOfUnlines(lines[1..]);
      BeforeOfJoined(lines[0], '\n', rest);
      assert Unlines(lines) == lines[0] + ['\n'] + rest;
      assert Unlines(lines)[|lines[0]| + 1..] == rest;
      assert Stripped(lines) == [StripCR(lines[0])] + Stripped(lines[1..]);
    }
  }

  // ---------- Hunk headers ----------

  lemma {:induction false} FindAt(s: string, p: string, k: nat)
    requires k <= |s| && p <= s[k..] && forall j :: 0 <= j < k ==> !(p <= s[j..])
    ensures Find(s, p) == Some(k)
  {
    if k == 0 {
      assert s[0..] == s;
    } else {
      assert s[0..] == s;
      forall j | 0 <= j < k - 1
        ensures !(p <= s[1..][j..])
      {
        assert s[1..][j..] == s[j + 1..];
      }
      assert s[1..][k - 1..] == s[k..];
      FindAt(s[1..], p, k - 1);
    }
  }

  predicate DigitsAndCommas(s: string) {
    forall i :: 0 <= i < |s| ==> IsDigit(s[i]) || s[i] == ','
  }

  lemma RangeChars(h: PatchHunk, start: nat, count: Option<nat>)
    ensures DigitsAndCommas(h.Range(start, count))
    ensures Split(h.Range(start, count), ',')[0] == Decimal(start)
  {
    var d := Decimal(start);
    assert ',' !in d;
    if count.Some? {
      var c := Decimal(count.value);
      var r := d + [','] + c;
      assert h.Range(start, count) == r;
      SplitPiece(d, ',', c);
      forall i | 0 <= i < |r|
        ensures IsDigit(r[i]) || r[i] == ','
      {
        if i < |d| {
          assert r[i] == d[i];
        } else if i > |d| {
          assert r[i] == c[i - |d| - 1];
        }
      }
    } else {
      SplitPlain(d, ',');
      assert h.Range(start, count) == d;
    }
  }

  lemma ParseRangeOf(h: PatchHunk, start: nat, count: Option<nat>, sign: char)
    requires start <= U32_MAX
    ensures ParseRange([sign] + h.Range(start, count), sign) == Some(start)
  {
    RangeChars(h, start, count);
  }

  /** The first closing marker is the one after the ranges. */
  lemma RangesEnd(o: string, n: string, context: string)
    requires DigitsAndCommas(o) && DigitsAndCommas(n)
    ensures var ranges := "-" + o + " +" + n;
            Find(ranges + " @@" + context, " @@") == Some(|ranges|)
  {
    var ranges := "-" + o + " +" + n;
    var s := ranges + " @@" + context;
    assert s[|ranges|..] == " @@" + context;
    forall j | 0 <= j < |ranges|
      ensures !(" @@" <= s[j..])
    {
      assert s[j..][0] == ranges[j];
      if 1 <= j <= |o| {
        assert ranges[j] == o[j - 1];
      } else if j == |o| + 1 {
        assert s[j..][1] == '+';
      } else if j > |o| + 2 {
        assert ranges[j] == n[j - |o| - 3];
      }
    }
    FindAt(s, " @@", |ranges|);
  }

  lemma RangesSplit(o: string, n: string)
    requires DigitsAndCommas(o) && DigitsAndCommas(n)
    ensures Split("-" + o + " +" + n, ' ') == ["-" + o, "+" + n]
  {
    var a, b := "-" + o, "+" + n;
    assert "-" + o + " +" + n == a + [' '] + b;
    assert ' ' !in a && ' ' !in b;
    SplitPiece(a, ' ', b);
    SplitPlain(b, ' ');
  }

  lemma HeaderFromParts(line: string, after: string, end: nat, a: string, b: string, o: nat, n: nat)
    requires StripPrefix(line, "@@ ") == Some(after) && Find(after, " @@") == Some(end)
    requires Split(after[..end], ' ') == [a, b]
    requires ParseRange(a, '-') == Some(o) && ParseRange(b, '+') == Some(n)
    ensures ParseHunkHeader(line) == Some(HunkBuilder(o, n, line, o, n, []))
  {
  }

  /** A printed header is read back as its two starts, whatever follows it on the line. */
  lemma HeaderRoundTrip(h: PatchHunk, context: string)
    requires h.oldStart <= U32_MAX && h.newStart <= U32_MAX
    ensures var line := "@@ " + h.Ranges() + " @@" + context;
            ParseHunkHeader(line) == Some(HunkBuilder(h.oldStart, h.newStart, line, h.oldStart, h.newStart, []))
  {
    var o, n := h.Range(h.oldStart, h.oldCount), h.Range(h.newStart, h.newCount);
    var ranges := "-" + o + " +" + n;
    var line := "@@ " + ranges + " @@" + context;
    var after := ranges + " @@" + context;
    RangeChars(h, h.oldStart, h.oldCount);
    RangeChars(h, h.newStart, h.newCount);
    assert line == "@@ " + after;
    RangesEnd(o, n, context);
    assert after[..|ranges|] == ranges;
    RangesSplit(o, n);
    ParseRangeOf(h, h.oldStart, h.oldCount, '-');
    ParseRangeOf(h, h.newStart, h.newCount, '+');
    HeaderFromParts(line, after, |ranges|, "-" + o, "+" + n, h.oldStart, h.newStart);
  }

  // ---------- Reading back what was printed ----------

  lemma FileHeaderStart(line: string)
    ensures IsFileHeader(line) ==> line != [] && line[0] !in ['@', '\\', ' ']
    ensures line != [] && line[0] == '+' ==> (IsFileHeader(line) <==> "+++" <= line)
    ensures line != [] && line[0] == '-' ==> (IsFileHeader(line) <==> "---" <= line)
  {
    assert FILE_HEADERS[2] == "---" && FILE_HEADERS[3] == "+++";
    if IsFileHeader(line) {
      var i :| 0 <= i < |FILE_HEADERS| && FILE_HEADERS[i] <= line;
      assert line[0] == FILE_HEADERS[i][0];
    }
  }

  /** The builder after reading back `lines` under the header of `h`. */
  function BuilderAfter(h: PatchHunk, header: string, lines: seq<PatchLine>): HunkBuilder {
    HunkBuilder(h.oldStart, h.newStart, header,
      Numbered(h.oldStart + OldLines(lines)), Numbered(h.newStart + NewLines(lines)),
      ExpectedLines(lines, h.oldStart, h.newStart))
  }

  lemma ExpectedLinesPush(lines: seq<PatchLine>, l: PatchLine, o: nat, n: nat)
    ensures ExpectedLines(lines + [l], o, n)
         == ExpectedLines(lines, o, n) + [ExpectedLine(lines + [l], |lines|, o, n)]
    ensures (lines + [l])[..|lines|] == lines
  {
    forall i | 0 <= i < |lines|
      ensures ExpectedLine(lines + [l], i, o, n) == ExpectedLine(lines, i, o, n)
    {
      assert (lines + [l])[..i] == lines[..i];
    }
    assert (lines + [l])[..|lines|] == lines;
  }

  lemma IncNumbered(n: nat)
    ensures Inc(Numbered(n)) == Numbered(n + 1)
  {
  }

  lemma AddLineExpected(h: PatchHunk, header: string, lines: seq<PatchLine>, l: PatchLine)
    ensures AddLine(BuilderAfter(h, header, lines), [l.Prefix()] + l.content)
         == BuilderAfter(h, header, lines + [l])
  {
    ExpectedLinesPush(lines, l, h.oldStart, h.newStart);
    IncNumbered(h.oldStart + OldLines(lines));
    IncNumbered(h.newStart + NewLines(lines));
    assert ([l.Prefix()] + l.content)[1..] == l.content;
  }

  lemma StripCRAfterPrefix(c: char, s: string)
    requires c != '\r'
    ensures StripCR([c] + s) == [c] + StripCR(s)
  {
    if s != [] && s[|s| - 1] == '\r' {
      assert ([c] + s)[..|s|] == [c] + s[..|s| - 1];
    }
  }

  lemma StripCRKeepsLookAlike(l: PatchLine)
    ensures l.(content := StripCR(l.content)).LooksLikeHeader() <==> l.LooksLikeHeader()
  {
  }

  /** A printed line passes for a file header exactly when its content repeats the prefix twice. */
  lemma PrintedLookAlike(l: PatchLine)
    ensures var line := [l.Prefix()] + l.content;
            && (IsFileHeader(line) <==> l.LooksLikeHeader())
            && !("@@" <= line) && !(NO_NEWLINE <= line)
  {
    var line := [l.Prefix()] + l.content;
    FileHeaderStart(line);
    assert line[1..] == l.content;
    assert "+++"[1..] == "++" && "---"[1..] == "--";
    assert NO_NEWLINE[0] == '\\';
  }

  lemma FeedPrinted(st: ParseState, h: PatchHunk, header: string, lines: seq<PatchLine>, l: PatchLine)
    requires st.current == Some(BuilderAfter(h, header, Surviving(lines)))
    ensures Feed(st, StripCR([l.Prefix()] + l.content))
         == st.(current := Some(BuilderAfter(h, header, Surviving(lines + [l]))))
  {
    var kept := l.(content := StripCR(l.content));
    StripCRAfterPrefix(l.Prefix(), l.content);
    StripCRKeepsLookAlike(l);
    PrintedLookAlike(kept);
    AddLineExpected(h, header, Surviving(lines), kept);
    assert (lines + [l])[..|lines|] == lines;
    assert l.LooksLikeHeader() ==> Surviving(lines + [l]) == Surviving(lines);
  }

  /** One printed line, the marker after it included, read inside a hunk. */
  lemma FeedPatchLine(st: ParseState, h: PatchHunk, header: string, lines: seq<PatchLine>, l: PatchLine)
    requires st.current == Some(BuilderAfter(h, header, Surviving(lines)))
    ensures FeedAll(st, Stripped(l.Text())) == st.(current := Some(BuilderAfter(h, header, Surviving(lines + [l]))))
  {
    var line := StripCR([l.Prefix()] + l.content);
    FeedPrinted(st, h, header, lines, l);
    if l.noNewline {
      FeedMarker(Feed(st, line));
      FeedAllAppend(st, [line], [NO_NEWLINE]);
      assert Stripped(l.Text()) == [line] + [NO_NEWLINE];
    } else {
      assert Stripped(l.Text()) == [line];
    }
  }

  lemma FeedMarker(st: ParseState)
    ensures StripCR(NO_NEWLINE) == NO_NEWLINE && Feed(st, NO_NEWLINE) == st
  {
    FileHeaderStart(NO_NEWLINE);
  }

  lemma {:induction false} FeedBody(st: ParseState, h: PatchHunk, header: string, lines: seq<PatchLine>)
    requires st.current == Some(BuilderAfter(h, header, []))
    ensures FeedAll(st, Stripped(BodyText(lines))) == st.(current := Some(BuilderAfter(h, header, Surviving(lines))))
  {
    if lines != [] {
      var rest, l := lines[..|lines| - 1], lines[|lines| - 1];
      FeedBody(st, h, header, rest);
      StrippedAppend(BodyText(rest), l.Text());
      FeedAllAppend(st, Stripped(BodyText(rest)), Stripped(l.Text()));
      FeedPatchLine(FeedAll(st, Stripped(BodyText(rest))), h, header, rest, l);
      assert rest + [l] == lines;
    }
  }

  lemma HeaderStripped(h: PatchHunk)
    ensures StripCR(h.Header()) == "@@ " + h.Ranges() + " @@" + StripCR(h.context)
  {
  }

  lemma FeedHeader(st: ParseState, h: PatchHunk)
    requires ProperHunk(h)
    ensures var header := StripCR(h.Header());
            Feed(st, header) == ParseState(st.Flushed(), Some(BuilderAfter(h, header, [])))
  {
    HeaderStripped(h);
    HeaderRoundTrip(h, StripCR(h.context));
    StartsLikeHunk(h.Ranges(), " @@", StripCR(h.context));
    var header := StripCR(h.Header());
    BuilderStart(h, header);
  }

  lemma BuilderStart(h: PatchHunk, header: string)
    requires ProperHunk(h)
    ensures BuilderAfter(h, header, []) == HunkBuilder(h.oldStart, h.newStart, header, h.oldStart, h.newStart, [])
  {
  }

  lemma StartsLikeHunk(a: string, b: string, c: string)
    ensures var line := "@@ " + a + b + c; "@@" <= line && !IsFileHeader(line)
  {
    FileHeaderStart("@@ " + a + b + c);
  }

  lemma FeedHunk(st: ParseState, h: PatchHunk)
    requires ProperHunk(h)
    ensures FeedAll(st, Stripped(h.Text())).Flushed()
         == st.Flushed() + [ExpectedHunk(h, StripCR(h.Header()), Surviving(h.lines))]
  {
    var header := StripCR(h.Header());
    StrippedAppend([h.Header()], BodyText(h.lines));
    assert Stripped([h.Header()]) == [header];
    FeedAllAppend(st, [header], Stripped(BodyText(h.lines)));
    FeedHeader(st, h);
    FeedBody(Feed(st, header), h, header, h.lines);
  }

  lemma ReadBackPush(hunks: seq<PatchHunk>)
    requires hunks != []
    ensures var h := hunks[|hunks| - 1];
            ReadBack(hunks)
            == ReadBack(hunks[..|hunks| - 1]) + [ExpectedHunk(h, StripCR(h.Header()), Surviving(h.lines))]
  {
  }

  lemma {:induction false} FeedHunks(st: ParseState, hunks: seq<PatchHunk>)
    requires st.Flushed() == [] && forall i :: 0 <= i < |hunks| ==> ProperHunk(hunks[i])
    ensures FeedAll(st, Stripped(HunksText(hunks))).Flushed() == ReadBack(hunks)
  {
    if hunks != [] {
      var rest, h := hunks[..|hunks| - 1], hunks[|hunks| - 1];
      FeedHunks(st, rest);
      StrippedAppend(HunksText(rest), h.Text());
      var before, text := Stripped(HunksText(rest)), Stripped(h.Text());
      assert Stripped(HunksText(hunks)) == before + text;
      FeedAllAppend(st, before, text);
      FeedHunk(FeedAll(st, before), h);
      ReadBackPush(hunks);
    }
  }

  lemma {:induction false} FeedPreamble(preamble: seq<string>)
    requires forall l :: l in preamble ==> !("@@" <= StripCR(l))
    ensures FeedAll(START, Stripped(preamble)) == START
  {
    if preamble != [] {
      assert Stripped(preamble)[1..] == Stripped(preamble[1..]);
      assert preamble[0] in preamble;
      FeedPreamble(preamble[1..]);
    }
  }

  lemma {:induction false} BodyTextOneLine(lines: seq<PatchLine>)
    requires forall i :: 0 <= i < |lines| ==> OneLine(lines[i].content)
    ensures forall i :: 0 <= i < |BodyText(lines)| ==> OneLine(BodyText(lines)[i])
  {
    if lines != [] {
      BodyTextOneLine(lines[..|lines| - 1]);
    }
  }

  lemma {:induction false} HunksTextOneLine(hunks: seq<PatchHunk>)
    requires forall i :: 0 <= i < |hunks| ==> ProperHunk(hunks[i])
    ensures forall i :: 0 <= i < |HunksText(hunks)| ==> OneLine(HunksText(hunks)[i])
  {
    if hunks != [] {
      var h := hunks[|hunks| - 1];
      HunksTextOneLine(hunks[..|hunks| - 1]);
      BodyTextOneLine(h.lines);
    }
  }

  /** The lines of a printed patch, read one after the other. */
  lemma FeedPatch(preamble: seq<string>, hunks: seq<PatchHunk>)
    requires ProperPatch(preamble, hunks)
    ensures FeedAll(START, Stripped(preamble + HunksText(hunks))).Flushed() == ReadBack(hunks)
  {
    var text := HunksText(hunks);
    StrippedAppend(preamble, text);
    FeedAllAppend(START, Stripped(preamble), Stripped(text));
    FeedPreamble(preamble);
    FeedHunks(START, hunks);
  }

  /** What the parser makes of any printed patch that does not look binary. */
  lemma ParseOfPrinted(preamble: seq<string>, hunks: seq<PatchHunk>, path: string)
    requires ProperPatch(preamble, hunks) && !LooksBinary(PatchText(preamble, hunks))
    ensures Parsed(PatchText(preamble, hunks), path) == FileDiff(path, ReadBack(hunks), false)
  {
    HunksTextOneLine(hunks);
    LinesOfUnlines(preamble + HunksText(hunks));
    FeedPatch(preamble, hunks);
  }

  /** Lines of other kinds are passed over, in a hunk or not. */
  lemma OtherLinesIgnored(st: ParseState, line: string)
    requires line == "" || (line[0] !in "+- " && !("@@" <= line))
    ensures Feed(st, line) == st
  {
  }

  /** A line that begins like a hunk header and is none ends the hunk before it, and begins none. */
  lemma BrokenHeaderEndsHunk(st: ParseState, line: string)
    requires "@@" <= line && (!("@@ " <= line) || !OccursIn(line[3..], " @@"))
    ensures Feed(st, line) == ParseState(st.Flushed(), None)
  {
    FileHeaderStart(line);
    if "@@ " <= line {
      var rest := StripPrefix(line, "@@ ").value;
      assert rest == line[3..];
      FindOccurs(rest, " @@");
    }
  }

  lemma FindOccurs(s: string, p: string)
    ensures Find(s, p).Some? ==> OccursIn(s, p)
  {
    if Find(s, p).Some? {
      assert s[..Find(s, p).value] + p <= s;
    }
  }

  // ---------- When nothing is lost ----------

  predicate EndsInCR(s: string) {
    s != [] && s[|s| - 1] == '\r'
  }

  /** No added line begins with two more pluses, no removed line with two more minuses, and no line or
      section heading ends in a carriage return. */
  predicate Faithful(h: PatchHunk) {
    && !EndsInCR(h.context)
    && forall i :: 0 <= i < |h.lines| ==> !h.lines[i].LooksLikeHeader() && !EndsInCR(h.lines[i].content)
  }

  lemma {:induction false} SurvivingAll(lines: seq<PatchLine>)
    requires forall i :: 0 <= i < |lines| ==> !lines[i].LooksLikeHeader() && !EndsInCR(lines[i].content)
    ensures Surviving(lines) == lines
  {
    if lines != [] {
      var rest, l := lines[..|lines| - 1], lines[|lines| - 1];
      SurvivingAll(rest);
      assert lines == rest + [l];
      assert l.(content := StripCR(l.content)) == l;
    }
  }

  lemma ExpectedLinesDetermine(a: seq<PatchLine>, b: seq<PatchLine>, o: nat, n: nat)
    requires ExpectedLines(a, o, n) == ExpectedLines(b, o, n)
    ensures |a| == |b| && forall i :: 0 <= i < |a| ==> a[i].lineType == b[i].lineType && a[i].content == b[i].content
  {
    forall i | 0 <= i < |a|
      ensures a[i].lineType == b[i].lineType && a[i].content == b[i].content
    {
      assert ExpectedLine(a, i, o, n) == ExpectedLine(b, i, o, n);
    }
  }

  lemma {:induction false} SurvivingOrder(lines: seq<PatchLine>)
    requires |Surviving(lines)| == |lines|
    ensures forall i :: 0 <= i < |lines| ==>
              !lines[i].LooksLikeHeader() && Surviving(lines)[i] == lines[i].(content := StripCR(lines[i].content))
  {
    if lines != [] {
      SurvivingOrder(lines[..|lines| - 1]);
    }
  }

  lemma HunkFaithful(h: PatchHunk)
    ensures ExpectedHunk(h, StripCR(h.Header()), Surviving(h.lines)) == ExpectedHunk(h, h.Header(), h.lines)
       <==> Faithful(h)
  {
    HeaderStripped(h);
    assert StripCR(h.Header()) == h.Header() <==> !EndsInCR(h.context) by {
      assert |h.Header()| - |StripCR(h.Header())| == |h.context| - |StripCR(h.context)|;
    }
    if Faithful(h) {
      SurvivingAll(h.lines);
    }
    if ExpectedHunk(h, StripCR(h.Header()), Surviving(h.lines)) == ExpectedHunk(h, h.Header(), h.lines) {
      ExpectedLinesDetermine(Surviving(h.lines), h.lines, h.oldStart, h.newStart);
      SurvivingOrder(h.lines);
    }
  }

  /** Parsing a printed patch gives back its hunks, each line numbered by counting, if and only if the text
      does not look binary and every hunk is faithful. */
  lemma RoundTripExact(preamble: seq<string>, hunks: seq<PatchHunk>, path: string)
    requires ProperPatch(preamble, hunks)
    ensures Parsed(PatchText(preamble, hunks), path) == FileDiff(path, Exact(hunks), false)
       <==> !LooksBinary(PatchText(preamble, hunks)) && forall i :: 0 <= i < |hunks| ==> Faithful(hunks[i])
  {
    if !LooksBinary(PatchText(preamble, hunks)) {
      ParseOfPrinted(preamble, hunks, path);
      var found, exact := ReadBack(hunks), Exact(hunks);
      forall i | 0 <= i < |hunks|
        ensures found[i] == exact[i] <==> Faithful(hunks[i])
      {
        HunkFaithful(hunks[i]);
      }
      assert found == exact <==> forall i :: 0 <= i < |hunks| ==> found[i] == exact[i];
    }
  }

  /** The failing inputs, directly: such a line changes nothing, whatever was read before it. */
  lemma HeaderLookAlikeIsSkipped(st: ParseState, l: PatchLine)
    requires l.LooksLikeHeader()
    ensures Feed(st, [l.Prefix()] + l.content) == st
    ensures PatchLine(Removed, "-- an SQL comment", false).LooksLikeHeader()
  {
    PrintedLookAlike(l);
  }
}
