/** The file tree's git status (diff.rs): parsing `git status --porcelain=v2 -z`, and hiding the deletions
that are really unstaged renames.

Whether a path exists in the worktree, and what it hashes to, are given as functions. */
module GitStatus {
  import opened Text
  import opened Collections
  import opened Lexicographic

  datatype FileStatus = Added | Modified | Deleted | Renamed(from: string)

  datatype Layer = Staged | Unstaged | Mixed | Untracked

  datatype Entry = Entry(status: FileStatus, layer: Layer)

  // ---------- The parser ----------

  const NUL: char := '\0'

  /** Rust's `splitn`: at most `n` pieces, the last one holding the rest. */
  function SplitN(s: string, sep: char, n: nat): (r: seq<string>)
    requires n >= 1
    ensures 1 <= |r| <= n
  {
    var b := Before(s, sep);
    if n == 1 then [s]
    else if |b| == |s| then [b]
    else [b] + SplitN(s[|b| + 1..], sep, n - 1)
  }

  function LayerFromXY(xy: string): Layer {
    var staged := |xy| > 0 && xy[0] != '.';
    var unstaged := |xy| > 1 && xy[1] != '.';
    if staged && unstaged then Mixed else if staged then Staged else Unstaged
  }

  /** A path that is gone counts as deleted, whatever the index says. */
  function StatusFromXY(xy: string, onDisk: bool, renameFrom: Option<string>): FileStatus {
    if !onDisk then Deleted
    else if renameFrom.Some? then Renamed(renameFrom.value)
    else if 'A' in xy then Added
    else if 'D' in xy then Deleted
    else Modified
  }

  datatype TreeStatus = TreeStatus(
    statuses: map<string, Entry>, deletedHeadOids: map<string, string>, untracked: seq<string>)
  {
    function AddUntracked(path: string): TreeStatus {
      TreeStatus(statuses[path := Entry(Added, Untracked)], deletedHeadOids, untracked + [path])
    }

    function AddOrdinary(xy: string, headOid: string, path: string, onDisk: bool): TreeStatus {
      var entry := Entry(StatusFromXY(xy, onDisk, None), LayerFromXY(xy));
      TreeStatus(statuses[path := entry],
        if entry == Entry(Deleted, Unstaged) then deletedHeadOids[path := headOid] else deletedHeadOids,
        untracked)
    }

    function AddRenamed(xy: string, path: string, from: string, onDisk: bool): TreeStatus {
      this.(statuses := statuses[path := Entry(StatusFromXY(xy, onDisk, Some(from)), LayerFromXY(xy))])
    }
  }

  const EMPTY := TreeStatus(map[], map[], [])

  /** One record, with the field that follows it (empty at the end); and whether that field was used up. */
  function ParseRecord(st: TreeStatus, record: string, next: string, onDisk: string -> bool): (TreeStatus, bool) {
    if record == "" then (st, false)
    else if "? " <= record then (st.AddUntracked(record[2..]), false)
    else if record[0] == '1' then
      var fields := SplitN(record, ' ', 9);
      if |fields| < 9 then (st, false)
      else (st.AddOrdinary(fields[1], fields[6], fields[8], onDisk(fields[8])), false)
    else if record[0] == '2' then
      var fields := SplitN(record, ' ', 10);
      if |fields| < 10 then (st, false)
      else (st.AddRenamed(fields[1], fields[9], next, onDisk(fields[9])), true)
    else (st, false)
  }

  function ParseRecords(st: TreeStatus, records: seq<string>, onDisk: string -> bool): TreeStatus
    decreases |records|
  {
    if records == [] then st
    else
      var next := if |records| > 1 then records[1] else "";
      var (st', used) := ParseRecord(st, records[0], next, onDisk);
      ParseRecords(st', if used && |records| > 1 then records[2..] else records[1..], onDisk)
  }

  method ParseFileTreeGitStatus(output: string, onDisk: string -> bool) returns (r: TreeStatus)
    ensures r == ParseRecords(EMPTY, Split(output, NUL), onDisk)
  {
    var records := Split(output, NUL);
    r := EMPTY;
    var i := 0;
    while i < |records|
      invariant 0 <= i <= |records|
      invariant ParseRecords(r, records[i..], onDisk) == ParseRecords(EMPTY, records, onDisk)
    {
      var next := if i + 1 < |records| then records[i + 1] else "";
      var (st, used) := ParseRecord(r, records[i], next, onDisk);
      assert records[i..][1..] == records[i + 1..];
      assert i + 1 < |records| ==> records[i..][2..] == records[i + 2..];
      r := st;
      i := if used && i + 1 < |records| then i + 2 else i + 1;
    }
  }

  // ---------- The printer ----------

  /** The records git prints. `fields` are the columns between the state and the path. */
  datatype Record =
    | Ordinary(xy: string, fields: seq<string>, path: string)
    | RenamedRecord(xy: string, fields: seq<string>, path: string, from: string)
    | UntrackedRecord(path: string)
    | Ignored(text: string)
  {
    predicate Proper() {
      match this
      case Ordinary(xy, fields, path) =>
        Column(xy) && |fields| == 6 && (forall f :: f in fields ==> Column(f)) && NUL !in path
      case RenamedRecord(xy, fields, path, from) =>
        Column(xy) && |fields| == 7 && (forall f :: f in fields ==> Column(f)) && NUL !in path && NUL !in from
      case UntrackedRecord(path) => NUL !in path
      case Ignored(text) => text != "" && NUL !in text && text[0] !in "12" && !("? " <= text)
    }

    /** The NUL-terminated fields of the record; a rename takes two. */
    function Text(): seq<string> {
      match this
      case Ordinary(xy, fields, path) => [Spaced(["1", xy] + fields, path)]
      case RenamedRecord(xy, fields, path, from) => [Spaced(["2", xy] + fields, path), from]
      case UntrackedRecord(path) => ["? " + path]
      case Ignored(text) => [text]
    }

    /** What the record says about the tree. */
    function Meaning(st: TreeStatus, onDisk: string -> bool): TreeStatus
      requires Proper()
    {
      match this
      case Ordinary(xy, fields, path) => st.AddOrdinary(xy, fields[4], path, onDisk(path))
      case RenamedRecord(xy, _, path, from) => st.AddRenamed(xy, path, from, onDisk(path))
      case UntrackedRecord(path) => st.AddUntracked(path)
      case Ignored(_) => st
    }
  }

  predicate Column(s: string) {
    ' ' !in s && NUL !in s
  }

  function Spaced(columns: seq<string>, path: string): string {
    if columns == [] then path else columns[0] + [' '] + Spaced(columns[1..], path)
  }

  function Terminated(fields: seq<string>): string {
    if fields == [] then "" else fields[0] + [NUL] + Terminated(fields[1..])
  }

  function Fields(records: seq<Record>): seq<string> {
    if records == [] then [] else records[0].Text() + Fields(records[1..])
  }

  function Printed(records: seq<Record>): string {
    Terminated(Fields(records))
  }

  function Meanings(st: TreeStatus, records: seq<Record>, onDisk: string -> bool): TreeStatus
    requires forall r :: r in records ==> r.Proper()
    decreases |records|
  {
    if records == [] then st else Meanings(records[0].Meaning(st, onDisk), records[1..], onDisk)
  }

  // ---------- Round trip ----------

  lemma SplitNPiece(a: string, sep: char, rest: string, n: nat)
    requires sep !in a && n >= 2
    ensures SplitN(a + [sep] + rest, sep, n) == [a] + SplitN(rest, sep, n - 1)
  {
    BeforeOfJoined(a, sep, rest);
    assert (a + [sep] + rest)[|a| + 1..] == rest;
  }

  lemma {:induction false} SplitNSpaced(columns: seq<string>, path: string)
    requires forall c :: c in columns ==> ' ' !in c
    ensures SplitN(Spaced(columns, path), ' ', |columns| + 1) == columns + [path]
  {
    if columns != [] {
      var rest := Spaced(columns[1..], path);
      assert columns[0] in columns;
      SplitNPiece(columns[0], ' ', rest, |columns| + 1);
      SplitNSpaced(columns[1..], path);
      assert columns == [columns[0]] + columns[1..];
    }
  }

  lemma {:induction false} SplitTerminated(fields: seq<string>)
    requires forall f :: f in fields ==> NUL !in f
    ensures Split(Terminated(fields), NUL) == fields + [""]
  {
    if fields == [] {
      SplitPlain("", NUL);
    } else {
      assert fields[0] in fields;
      SplitPiece(fields[0], NUL, Terminated(fields[1..]));
      SplitTerminated(fields[1..]);
      assert fields == [fields[0]] + fields[1..];
    }
  }

  lemma {:induction false} SpacedNoNul(columns: seq<string>, path: string)
    requires NUL !in path && forall c :: c in columns ==> Column(c)
    ensures NUL !in Spaced(columns, path)
    ensures columns != [] ==> columns[0] <= Spaced(columns, path)
  {
    if columns != [] {
      assert columns[0] in columns;
      SpacedNoNul(columns[1..], path);
    }
  }

  lemma RecordText(r: Record)
    requires r.Proper()
    ensures forall f :: f in r.Text() ==> NUL !in f
  {
    match r
    case Ordinary(xy, fields, path) => SpacedNoNul(["1", xy] + fields, path);
    case RenamedRecord(xy, fields, path, from) => SpacedNoNul(["2", xy] + fields, path);
    case _ =>
  }

  lemma {:induction false} FieldsNoNul(records: seq<Record>)
    requires forall r :: r in records ==> r.Proper()
    ensures forall f :: f in Fields(records) ==> NUL !in f
  {
    if records != [] {
      assert records[0] in records;
      RecordText(records[0]);
      FieldsNoNul(records[1..]);
    }
  }

  /** A printed record is read as what it means, and uses up exactly its own fields. */
  lemma ParsePrinted(st: TreeStatus, r: Record, next: string, onDisk: string -> bool)
    requires r.Proper() && (r.RenamedRecord? ==> next == r.from)
    ensures ParseRecord(st, r.Text()[0], next, onDisk) == (r.Meaning(st, onDisk), r.RenamedRecord?)
  {
    match r
    case Ordinary(xy, fields, path) => ParseOrdinary(st, xy, fields, path, next, onDisk);
    case RenamedRecord(xy, fields, path, from) => ParseRenamed(st, xy, fields, path, from, onDisk);
    case UntrackedRecord(path) =>
      assert ("? " + path)[2..] == path;
    case Ignored(_) =>
  }

  lemma ParseOrdinary(
    st: TreeStatus, xy: string, fields: seq<string>, path: string, next: string, onDisk: string -> bool)
    requires Ordinary(xy, fields, path).Proper()
    ensures ParseRecord(st, Spaced(["1", xy] + fields, path), next, onDisk)
         == (st.AddOrdinary(xy, fields[4], path, onDisk(path)), false)
  {
    var columns := ["1", xy] + fields;
    SplitNSpaced(columns, path);
    SpacedNoNul(columns, path);
  }

  lemma ParseRenamed(
    st: TreeStatus, xy: string, fields: seq<string>, path: string, from: string, onDisk: string -> bool)
    requires RenamedRecord(xy, fields, path, from).Proper()
    ensures ParseRecord(st, Spaced(["2", xy] + fields, path), from, onDisk)
         == (st.AddRenamed(xy, path, from, onDisk(path)), true)
  {
    var columns := ["2", xy] + fields;
    SplitNSpaced(columns, path);
    SpacedNoNul(columns, path);
  }

  lemma {:induction false} ParseFields(st: TreeStatus, records: seq<Record>, onDisk: string -> bool)
    requires forall r :: r in records ==> r.Proper()
    ensures ParseRecords(st, Fields(records) + [""], onDisk) == Meanings(st, records, onDisk)
    decreases |records|
  {
    if records == [] {
      assert [""][1..] == [];
    } else {
      var r, rest := records[0], records[1..];
      assert r in records;
      var all := Fields(records) + [""];
      var tail := Fields(rest) + [""];
      assert all == r.Text() + tail;
      ParsePrinted(st, r, all[1], onDisk);
      assert all[|r.Text()|..] == tail;
      ParseFields(r.Meaning(st, onDisk), rest, onDisk);
    }
  }

  /** Parsing what git prints recovers what each record says, in order. Paths may hold spaces or look like
      records; the source of a rename is used up and never read as a record of its own. */
  lemma StatusRoundTrip(records: seq<Record>, onDisk: string -> bool)
    requires forall r :: r in records ==> r.Proper()
    ensures ParseRecords(EMPTY, Split(Printed(records), NUL), onDisk) == Meanings(EMPTY, records, onDisk)
  {
    FieldsNoNul(records);
    SplitTerminated(Fields(records));
    ParseFields(EMPTY, records, onDisk);
  }

  /** Which column of the state is set decides the layer: the first is the index, the second the worktree. */
  predicate LayerOf(xy: string, layer: Layer) {
    var index, worktree := |xy| > 0 && xy[0] != '.', |xy| > 1 && xy[1] != '.';
    && (layer == Mixed <==> index && worktree)
    && (layer == Staged <==> index && !worktree)
    && (layer == Unstaged <==> !index)
  }

  /** The entry a record asks for, stated field by field: where it is, and what became of it. */
  predicate EntryOf(r: Record, onDisk: bool, e: Entry) {
    match r
    case Ordinary(xy, _, _) =>
      && LayerOf(xy, e.layer) && !e.status.Renamed?
      && (e.status == Deleted <==> !onDisk || ('D' in xy && 'A' !in xy))
      && (e.status == Added <==> onDisk && 'A' in xy)
    case RenamedRecord(xy, _, _, from) =>
      LayerOf(xy, e.layer) && e.status == if onDisk then Renamed(from) else Deleted
    case UntrackedRecord(_) => e == Entry(Added, Untracked)
    case Ignored(_) => true
  }

  lemma {:induction false} MeaningsKeep(st: TreeStatus, records: seq<Record>, path: string, onDisk: string -> bool)
    requires forall r :: r in records ==> r.Proper()
    requires forall r :: r in records && !r.Ignored? ==> r.path != path
    ensures path in Meanings(st, records, onDisk).statuses <==> path in st.statuses
    ensures path in st.statuses ==> Meanings(st, records, onDisk).statuses[path] == st.statuses[path]
    decreases |records|
  {
    if records != [] {
      assert records[0] in records;
      MeaningsKeep(records[0].Meaning(st, onDisk), records[1..], path, onDisk);
    }
  }

  /** Each path has the entry of the last record that names it; a path no record names has none. */
  lemma {:induction false} EntryRecovered(st: TreeStatus, records: seq<Record>, i: nat, onDisk: string -> bool)
    requires forall r :: r in records ==> r.Proper()
    requires i < |records| && !records[i].Ignored?
    requires forall j :: i < j < |records| && !records[j].Ignored? ==> records[j].path != records[i].path
    ensures var found := Meanings(st, records, onDisk).statuses;
            records[i].path in found && EntryOf(records[i], onDisk(records[i].path), found[records[i].path])
    decreases |records|
  {
    var r, rest := records[0], records[1..];
    assert r in records;
    if i == 0 {
      MeaningsKeep(r.Meaning(st, onDisk), rest, r.path, onDisk);
    } else {
      EntryRecovered(r.Meaning(st, onDisk), rest, i - 1, onDisk);
    }
  }

  /** The record reports a deletion that is not staged: one that may be half of a rename. */
  predicate UnstagedDeletion(r: Record, onDisk: string -> bool) {
    && r.Ordinary? && LayerOf(r.xy, Unstaged)
    && (!onDisk(r.path) || ('D' in r.xy && 'A' !in r.xy))
  }

  lemma {:induction false} OidsKeep(st: TreeStatus, records: seq<Record>, path: string, onDisk: string -> bool)
    requires forall r :: r in records ==> r.Proper()
    requires forall r :: r in records && UnstagedDeletion(r, onDisk) ==> r.path != path
    ensures path in Meanings(st, records, onDisk).deletedHeadOids <==> path in st.deletedHeadOids
    ensures path in st.deletedHeadOids ==>
              Meanings(st, records, onDisk).deletedHeadOids[path] == st.deletedHeadOids[path]
    decreases |records|
  {
    if records != [] {
      assert records[0] in records;
      OidsKeep(records[0].Meaning(st, onDisk), records[1..], path, onDisk);
    }
  }

  /** An unstaged deletion is remembered with the object id of HEAD, its seventh column. */
  lemma {:induction false} DeletedOidRecovered(st: TreeStatus, records: seq<Record>, i: nat, onDisk: string -> bool)
    requires forall r :: r in records ==> r.Proper()
    requires i < |records| && records[i].Proper() && UnstagedDeletion(records[i], onDisk)
    requires forall j :: i < j < |records| && UnstagedDeletion(records[j], onDisk) ==>
               records[j].path != records[i].path
    ensures var oids := Meanings(st, records, onDisk).deletedHeadOids;
            records[i].path in oids && oids[records[i].path] == records[i].fields[4]
    decreases |records|
  {
    var r, rest := records[0], records[1..];
    assert r in records;
    if i == 0 {
      OidsKeep(r.Meaning(st, onDisk), rest, r.path, onDisk);
    } else {
      DeletedOidRecovered(r.Meaning(st, onDisk), rest, i - 1, onDisk);
    }
  }

  function UntrackedPaths(records: seq<Record>): seq<string> {
    if records == [] then []
    else UntrackedPathOf(records[0]) + UntrackedPaths(records[1..])
  }

  function UntrackedPathOf(r: Record): seq<string> {
    if r.UntrackedRecord? then [r.path] else []
  }

  /** The untracked files are listed in the order of their records. */
  lemma {:induction false} UntrackedRecovered(st: TreeStatus, records: seq<Record>, onDisk: string -> bool)
    requires forall r :: r in records ==> r.Proper()
    ensures Meanings(st, records, onDisk).untracked == st.untracked + UntrackedPaths(records)
    decreases |records|
  {
    if records != [] {
      var r := records[0];
      assert r in records;
      var st1, a, b := r.Meaning(st, onDisk), UntrackedPathOf(r), UntrackedPaths(records[1..]);
      UntrackedRecovered(st1, records[1..], onDisk);
      assert UntrackedPaths(records) == a + b;
      assert st.untracked + (a + b) == st1.untracked + b;
    }
  }

  // ---------- Deletions that are renames ----------

  predicate IsUntracked(statuses: map<string, Entry>, path: string) {
    path in statuses && statuses[path] == Entry(Added, Untracked)
  }

  /** Untracked files whose content hashes to `oid`. */
  function Matching(
    statuses: map<string, Entry>, untracked: seq<string>, hash: string -> Option<string>, oid: string): nat
  {
    if untracked == [] then 0
    else
      var p := untracked[|untracked| - 1];
      Matching(statuses, untracked[..|untracked| - 1], hash, oid)
      + if IsUntracked(statuses, p) && hash(p) == Some(oid) then 1 else 0
  }

  function WithOid(paths: set<string>, oids: map<string, string>, oid: string): set<string> {
    set p | p in paths && p in oids && oids[p] == oid
  }

  function Min(a: nat, b: nat): nat {
    if a < b then a else b
  }

  function Count(counts: map<string, nat>, oid: string): nat {
    if oid in counts then counts[oid] else 0
  }

  method CountOids(statuses: map<string, Entry>, untracked: seq<string>, hash: string -> Option<string>)
    returns (counts: map<string, nat>)
    ensures forall oid :: Count(counts, oid) == Matching(statuses, untracked, hash, oid)
  {
    counts := map[];
    for i := 0 to |untracked|
      invariant forall oid :: Count(counts, oid) == Matching(statuses, untracked[..i], hash, oid)
    {
      var path := untracked[i];
      assert untracked[..i + 1][..i] == untracked[..i];
      if !IsUntracked(statuses, path) {
        continue;
      }
      var oid := hash(path);
      if oid.Some? {
        counts := counts[oid.value := Count(counts, oid.value) + 1];
      }
    }
    assert untracked[..|untracked|] == untracked;
  }

  /** What is left of each count is what has not been used up. */
  ghost predicate Balanced(
    oids: map<string, string>, suppressed: set<string>, counts: map<string, nat>, initial: map<string, nat>)
  {
    forall oid :: Count(counts, oid) + |WithOid(suppressed, oids, oid)| == Count(initial, oid)
  }

  /** Of the deletions seen so far, one is kept only once its count is used up. */
  ghost predicate Greedy(
    oids: map<string, string>, seen: seq<string>, suppressed: set<string>, counts: map<string, nat>)
  {
    && (forall p :: p in seen ==> p in oids)
    && (forall p :: p in suppressed ==> p in seen)
    && (forall p :: p in seen && p !in suppressed ==> Count(counts, oids[p]) == 0)
    && (forall a, b :: 0 <= a < b < |seen| && seen[b] in suppressed && oids[seen[a]] == oids[seen[b]]
                       ==> seen[a] in suppressed)
  }

  lemma TakeOne(oids: map<string, string>, seen: seq<string>, suppressed: set<string>, counts: map<string, nat>,
                initial: map<string, nat>, path: string)
    requires Greedy(oids, seen, suppressed, counts) && path in oids && path !in seen
    requires Balanced(oids, suppressed, counts, initial)
    requires oids[path] in counts && counts[oids[path]] > 0
    ensures var counts' := counts[oids[path] := (counts[oids[path]] - 1) as nat];
            && Greedy(oids, seen + [path], suppressed + {path}, counts')
            && Balanced(oids, suppressed + {path}, counts', initial)
  {
    SuppressOne(suppressed, oids, path);
    assert forall a :: 0 <= a < |seen| ==> seen[a] in seen;
  }

  /** Each untracked file stands for at most one deletion with its content: for every object id as many
      deletions are hidden as both sides allow, they are the lexicographically first, and nothing else
      changes. */
  method SuppressRenameGhosts(
    statuses: map<string, Entry>, oids: map<string, string>, untracked: seq<string>, hash: string -> Option<string>)
    returns (statuses': map<string, Entry>, suppressed: set<string>)
    ensures suppressed <= oids.Keys && statuses' == statuses - suppressed
    ensures forall oid :: |WithOid(suppressed, oids, oid)|
                       == Min(|WithOid(oids.Keys, oids, oid)|, Matching(statuses, untracked, hash, oid))
    ensures forall p, q :: p in suppressed && q in oids && q !in suppressed && oids[p] == oids[q] ==> Less(p, q)
  {
    if oids == map[] || untracked == [] {
      return statuses, {};
    }
    var counts := CountOids(statuses, untracked, hash);
    if counts == map[] {
      return statuses, {};
    }
    var deleted := Sorted(oids.Keys);
    AscendingDistinct(deleted);
    ghost var left;
    statuses', suppressed, left := SuppressInOrder(statuses, oids, deleted, counts);
    OptimalCounts(oids, deleted, suppressed, left, counts);
  }

  lemma DropOneMore(statuses: map<string, Entry>, suppressed: set<string>, path: string)
    ensures statuses - (suppressed + {path}) == statuses - suppressed - {path}
  {
  }

  /** The loop over the sorted deletions. */
  method SuppressInOrder(
    statuses: map<string, Entry>, oids: map<string, string>, deleted: seq<string>, initial: map<string, nat>)
    returns (statuses': map<string, Entry>, suppressed: set<string>, ghost left: map<string, nat>)
    requires Distinct(deleted) && forall p :: p in deleted <==> p in oids
    ensures suppressed <= oids.Keys && statuses' == statuses - suppressed
    ensures Greedy(oids, deleted, suppressed, left) && Balanced(oids, suppressed, left, initial)
  {
    var counts := initial;
    statuses', suppressed := statuses, {};
    for i := 0 to |deleted|
      invariant suppressed <= oids.Keys && statuses' == statuses - suppressed
      invariant Greedy(oids, deleted[..i], suppressed, counts)
      invariant Balanced(oids, suppressed, counts, initial)
    {
      var path := deleted[i];
      var oid := oids[path];
      SeenPrefix(deleted, i);
      if Count(counts, oid) == 0 {
        continue;
      }
      TakeOne(oids, deleted[..i], suppressed, counts, initial, path);
      DropOneMore(statuses, suppressed, path);
      counts := counts[oid := counts[oid] - 1];
      statuses' := statuses' - {path};
      suppressed := suppressed + {path};
    }
    assert deleted[..|deleted|] == deleted;
    left := counts;
  }

  /** The whole status of the file tree, for whatever git prints: the parsed statuses without the deletions
      that untracked files stand for. */
  method FileTreeGitStatus(output: string, onDisk: string -> bool, hash: string -> Option<string>)
    returns (statuses: map<string, Entry>, suppressed: set<string>)
    ensures var tree := ParseRecords(EMPTY, Split(output, NUL), onDisk);
            var oids := tree.deletedHeadOids;
            && suppressed <= oids.Keys && statuses == tree.statuses - suppressed
            && (forall oid :: |WithOid(suppressed, oids, oid)|
                           == Min(|WithOid(oids.Keys, oids, oid)|, Matching(tree.statuses, tree.untracked, hash, oid)))
            && forall p, q :: p in suppressed && q in oids && q !in suppressed && oids[p] == oids[q] ==> Less(p, q)
  {
    var parsed := ParseFileTreeGitStatus(output, onDisk);
    statuses, suppressed := SuppressRenameGhosts(parsed.statuses, parsed.deletedHeadOids, parsed.untracked, hash);
  }

  lemma SeenPrefix(s: seq<string>, i: nat)
    requires Distinct(s) && i < |s|
    ensures s[i] !in s[..i] && s[..i + 1] == s[..i] + [s[i]]
  {
  }

  lemma OptimalCounts(oids: map<string, string>, deleted: seq<string>, suppressed: set<string>,
                      counts: map<string, nat>, initial: map<string, nat>)
    requires Greedy(oids, deleted, suppressed, counts) && Balanced(oids, suppressed, counts, initial)
    requires forall p :: p in deleted <==> p in oids
    ensures forall oid :: |WithOid(suppressed, oids, oid)| == Min(|WithOid(oids.Keys, oids, oid)|, Count(initial, oid))
  {
    forall oid
      ensures |WithOid(suppressed, oids, oid)| == Min(|WithOid(oids.Keys, oids, oid)|, Count(initial, oid))
    {
      OptimalCount(oids, suppressed, oid, Count(counts, oid), Count(initial, oid));
    }
  }

  lemma SuppressOne(suppressed: set<string>, oids: map<string, string>, path: string)
    requires path in oids && path !in suppressed
    ensures forall oid :: |WithOid(suppressed + {path}, oids, oid)|
                       == |WithOid(suppressed, oids, oid)| + if oid == oids[path] then 1 else 0
  {
    forall oid
      ensures |WithOid(suppressed + {path}, oids, oid)|
           == |WithOid(suppressed, oids, oid)| + if oid == oids[path] then 1 else 0
    {
      if oid == oids[path] {
        assert WithOid(suppressed + {path}, oids, oid) == WithOid(suppressed, oids, oid) + {path};
      } else {
        assert WithOid(suppressed + {path}, oids, oid) == WithOid(suppressed, oids, oid);
      }
    }
  }

  lemma OptimalCount(oids: map<string, string>, suppressed: set<string>, oid: string, left: nat, available: nat)
    requires suppressed <= oids.Keys
    requires left + |WithOid(suppressed, oids, oid)| == available
    requires (exists p :: p in oids && p !in suppressed && oids[p] == oid) ==> left == 0
    ensures |WithOid(suppressed, oids, oid)| == Min(|WithOid(oids.Keys, oids, oid)|, available)
  {
    var some, all := WithOid(suppressed, oids, oid), WithOid(oids.Keys, oids, oid);
    assert all == some + (all - some);
    if all - some != {} {
      var p :| p in all - some;
      assert p in oids && p !in suppressed && oids[p] == oid;
    }
  }

  // ---------- Untracked records and untracked files ----------

  /** How many of the paths have content with the object id. */
  function Hashed(paths: seq<string>, hash: string -> Option<string>, oid: string): nat {
    if paths == [] then 0
    else
      var p := paths[|paths| - 1];
      Hashed(paths[..|paths| - 1], hash, oid) + if hash(p) == Some(oid) then 1 else 0
  }

  lemma {:induction false} MatchingIsHashed(
    statuses: map<string, Entry>, untracked: seq<string>, hash: string -> Option<string>, oid: string)
    requires forall p :: p in untracked ==> p in statuses && statuses[p] == Entry(Added, Untracked)
    ensures Matching(statuses, untracked, hash, oid) == Hashed(untracked, hash, oid)
  {
    if untracked != [] {
      assert untracked[|untracked| - 1] in untracked;
      MatchingIsHashed(statuses, untracked[..|untracked| - 1], hash, oid);
    }
  }

  /** No two records are about the same path, as git prints them. */
  predicate DistinctPaths(records: seq<Record>) {
    forall i, j :: 0 <= i < j < |records| && !records[i].Ignored? && !records[j].Ignored? ==>
      records[i].path != records[j].path
  }

  lemma {:induction false} UntrackedPathIsRecord(records: seq<Record>, p: string) returns (i: nat)
    requires p in UntrackedPaths(records)
    ensures i < |records| && records[i] == UntrackedRecord(p)
  {
    if p in UntrackedPathOf(records[0]) {
      i := 0;
    } else {
      i := UntrackedPathIsRecord(records[1..], p);
      i := i + 1;
    }
  }

  /** For what git prints, the untracked files that may stand for a deletion are those of the untracked records whose
      content has its object id. */
  lemma PrintedMatching(records: seq<Record>, onDisk: string -> bool, hash: string -> Option<string>, oid: string)
    requires (forall r :: r in records ==> r.Proper()) && DistinctPaths(records)
    ensures var tree := ParseRecords(EMPTY, Split(Printed(records), NUL), onDisk);
            Matching(tree.statuses, tree.untracked, hash, oid) == Hashed(UntrackedPaths(records), hash, oid)
  {
    var tree := Meanings(EMPTY, records, onDisk);
    StatusRoundTrip(records, onDisk);
    UntrackedRecovered(EMPTY, records, onDisk);
    assert tree.untracked == UntrackedPaths(records);
    forall p | p in UntrackedPaths(records)
      ensures p in tree.statuses && tree.statuses[p] == Entry(Added, Untracked)
    {
      var i := UntrackedPathIsRecord(records, p);
      EntryRecovered(EMPTY, records, i, onDisk);
    }
    MatchingIsHashed(tree.statuses, tree.untracked, hash, oid);
  }

  // ---------- Records that git does not print ----------

  /** A record with too few columns says nothing, and uses up nothing. */
  lemma ShortRecordIgnored(st: TreeStatus, record: string, next: string, onDisk: string -> bool)
    requires record != "" && record[0] in "12"
    requires var columns := if record[0] == '1' then 9 else 10; |SplitN(record, ' ', columns)| < columns
    ensures ParseRecord(st, record, next, onDisk) == (st, false)
  {
  }

  /** A rename whose source is missing at the end has an empty one. */
  lemma RenameAtEnd(st: TreeStatus, r: Record, onDisk: string -> bool)
    requires r.Proper() && r.RenamedRecord?
    ensures ParseRecords(st, [r.Text()[0]], onDisk) == st.AddRenamed(r.xy, r.path, "", onDisk(r.path))
  {
    ParseRenamed(st, r.xy, r.fields, r.path, "", onDisk);
    assert [r.Text()[0]][1..] == [];
  }
}
