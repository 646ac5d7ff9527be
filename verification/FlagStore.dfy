/** Persistence of CLI flags in a flat key-value table (claude_flags_store.rs).

The table maps text keys to text values. It stands for two structured maps: the global flags by name, and
the overrides by repository and name. */
module FlagStore {
  import opened Text

  datatype FlagValue = FlagValue(enabled: bool, value: Option<string>)

  type Settings = map<string, string>

  // ---------- Keys ----------

  const GLOBAL_PREFIX := "claude_flag:"
  const ENABLED := ":enabled"
  const VALUE := ":value"
  const OVERRIDE := ":override"

  function RepoPrefix(repo: string): string {
    "repo:" + repo + ":claude_flag:"
  }

  /** The key of one aspect of a flag: everything between prefix and suffix is the name. */
  function KeyOf(prefix: string, name: string, suffix: string): string {
    prefix + name + suffix
  }

  /** The name in a key with the given prefix and suffix. */
  function StripKey(key: string, prefix: string, suffix: string): (r: Option<string>)
    ensures r.Some? ==> key == KeyOf(prefix, r.value, suffix)
  {
    match StripPrefix(key, prefix)
    case Some(rest) => StripSuffix(rest, suffix)
    case None => None
  }

  lemma StripKeyOf(prefix: string, name: string, suffix: string)
    ensures StripKey(KeyOf(prefix, name, suffix), prefix, suffix) == Some(name)
  {
    var key := KeyOf(prefix, name, suffix);
    assert key[|prefix|..] == name + suffix;
    assert (name + suffix)[|name|..] == suffix && (name + suffix)[..|name|] == name;
  }

  predicate IsSuffix(s: string) {
    s == ENABLED || s == VALUE || s == OVERRIDE
  }

  /** Under one prefix, a key determines its name and its aspect. */
  lemma KeyInjective(prefix: string, n: string, s: string, n': string, s': string)
    requires IsSuffix(s) && IsSuffix(s') && KeyOf(prefix, n, s) == KeyOf(prefix, n', s')
    ensures n == n' && s == s'
  {
    var k := KeyOf(prefix, n, s);
    assert k[|k| - 1] == s[|s| - 1] == s'[|s'| - 1];
    assert k[|k| - 2] == s[|s| - 2] == s'[|s'| - 2];
    StripKeyOf(prefix, n, s);
    StripKeyOf(prefix, n', s');
  }

  // ---------- What the table says ----------

  function Get(m: map<string, string>, key: string): Option<string> {
    if key in m then Some(m[key]) else None
  }

  /** One aspect of all flags under a prefix, by name. */
  function Aspect(m: Settings, prefix: string, suffix: string): (r: map<string, string>)
    ensures forall n :: n in r <==> KeyOf(prefix, n, suffix) in m
    ensures forall n :: n in r ==> r[n] == m[KeyOf(prefix, n, suffix)]
  {
    var names := set k | k in m && StripKey(k, prefix, suffix).Some? :: StripKey(k, prefix, suffix).value;
    assert forall n :: KeyOf(prefix, n, suffix) in m ==> n in names by {
      forall n | KeyOf(prefix, n, suffix) in m
        ensures n in names
      {
        StripKeyOf(prefix, n, suffix);
      }
    }
    map n | n in names :: m[KeyOf(prefix, n, suffix)]
  }

  predicate IsBool(v: string) {
    v == "true" || v == "false"
  }

  /** A flag from its two aspects: off and without value unless they say otherwise. */
  function FlagOf(enabled: map<string, string>, value: map<string, string>, n: string): FlagValue {
    FlagValue(Get(enabled, n) == Some("true"), Get(value, n))
  }

  /** The global flags: those with a well-formed `enabled` entry. */
  function GlobalFlags(m: Settings): map<string, FlagValue> {
    var enabled, value := Aspect(m, GLOBAL_PREFIX, ENABLED), Aspect(m, GLOBAL_PREFIX, VALUE);
    map n | n in enabled && IsBool(enabled[n]) :: FlagOf(enabled, value, n)
  }

  /** The overrides of a repository: those with the sentinel, if they hold anything. */
  function RepoFlags(m: Settings, repo: string): map<string, FlagValue> {
    var enabled, value := Aspect(m, RepoPrefix(repo), ENABLED), Aspect(m, RepoPrefix(repo), VALUE);
    var sentinel := Aspect(m, RepoPrefix(repo), OVERRIDE);
    map n | n in enabled.Keys + value.Keys && Get(sentinel, n) == Some("true") :: FlagOf(enabled, value, n)
  }

  // ---------- Loading ----------

  /** The table's rows in some order, at least those with the prefix. */
  ghost predicate RowsOf(m: Settings, prefix: string, rows: seq<(string, string)>) {
    && (forall i :: 0 <= i < |rows| ==> rows[i].0 in m && m[rows[i].0] == rows[i].1)
    && (forall i, j :: 0 <= i < j < |rows| ==> rows[i].0 != rows[j].0)
    && (forall k :: k in m && prefix <= k ==> exists i :: 0 <= i < |rows| && rows[i].0 == k)
  }

  /** What a row says, once its key is taken apart. */
  datatype Row =
    | EnabledRow(name: string, val: string)
    | ValueRow(name: string, val: string)
    | OverrideRow(name: string, val: string)
    | OtherRow

  function ReadRow(key: string, val: string, prefix: string): Row {
    if StripKey(key, prefix, OVERRIDE).Some? then OverrideRow(StripKey(key, prefix, OVERRIDE).value, val)
    else if StripKey(key, prefix, ENABLED).Some? then EnabledRow(StripKey(key, prefix, ENABLED).value, val)
    else if StripKey(key, prefix, VALUE).Some? then ValueRow(StripKey(key, prefix, VALUE).value, val)
    else OtherRow
  }

  function ReadRows(rows: seq<(string, string)>, prefix: string): (r: seq<Row>)
    ensures |r| == |rows|
  {
    seq(|rows|, i requires 0 <= i < |rows| => ReadRow(rows[i].0, rows[i].1, prefix))
  }

  /** No two rows speak of the same aspect of the same flag. */
  ghost predicate Unambiguous(rows: seq<Row>) {
    forall i, j :: 0 <= i < j < |rows| && !rows[i].OtherRow? ==> !SameKey(rows[i], rows[j])
  }

  predicate SameKey(a: Row, b: Row)
    requires !a.OtherRow?
  {
    && (a.EnabledRow? <==> b.EnabledRow?) && (a.ValueRow? <==> b.ValueRow?)
    && (a.OverrideRow? <==> b.OverrideRow?) && !b.OtherRow? && a.name == b.name
  }

  /** The three aspects, as far as the rows tell them. */
  datatype Aspects = Aspects(enabled: map<string, string>, value: map<string, string>, sentinel: map<string, string>)

  function Told(rows: seq<Row>): Aspects {
    if rows == [] then Aspects(map[], map[], map[])
    else
      var a, row := Told(rows[..|rows| - 1]), rows[|rows| - 1];
      match row
      case EnabledRow(n, v) => a.(enabled := a.enabled[n := v])
      case ValueRow(n, v) => a.(value := a.value[n := v])
      case OverrideRow(n, v) => a.(sentinel := a.sentinel[n := v])
      case OtherRow => a
  }

  lemma ToldPush(rows: seq<Row>, i: nat)
    requires i < |rows|
    ensures var a, a' := Told(rows[..i]), Told(rows[..i + 1]);
            match rows[i]
            case EnabledRow(n, v) => a' == a.(enabled := a.enabled[n := v])
            case ValueRow(n, v) => a' == a.(value := a.value[n := v])
            case OverrideRow(n, v) => a' == a.(sentinel := a.sentinel[n := v])
            case OtherRow => a' == a
  {
    assert rows[..i + 1][..i] == rows[..i];
  }

  /** What has been told is what some row told. */
  lemma {:induction false} ToldIsARow(rows: seq<Row>, n: string)
    ensures n in Told(rows).enabled ==> EnabledRow(n, Told(rows).enabled[n]) in rows
    ensures n in Told(rows).value ==> ValueRow(n, Told(rows).value[n]) in rows
    ensures n in Told(rows).sentinel ==> OverrideRow(n, Told(rows).sentinel[n]) in rows
  {
    if rows != [] {
      ToldIsARow(rows[..|rows| - 1], n);
    }
  }

  /** And every row is told, when no other row speaks of the same aspect. */
  lemma {:induction false} RowIsTold(rows: seq<Row>, row: Row)
    requires Unambiguous(rows) && row in rows
    ensures match row
            case EnabledRow(n, v) => Get(Told(rows).enabled, n) == Some(v)
            case ValueRow(n, v) => Get(Told(rows).value, n) == Some(v)
            case OverrideRow(n, v) => Get(Told(rows).sentinel, n) == Some(v)
            case OtherRow => true
  {
    var rest, last := rows[..|rows| - 1], rows[|rows| - 1];
    if row != last {
      var i :| 0 <= i < |rows| && rows[i] == row;
      assert rest[i] == row;
      RowIsTold(rest, row);
    }
  }

  lemma NewRow(rows: seq<Row>, i: nat)
    requires Unambiguous(rows) && i < |rows|
    ensures var a := Told(rows[..i]);
            match rows[i]
            case EnabledRow(n, _) => n !in a.enabled
            case ValueRow(n, _) => n !in a.value
            case OverrideRow(n, _) => n !in a.sentinel
            case OtherRow => true
  {
    if !rows[i].OtherRow? {
      ToldIsARow(rows[..i], rows[i].name);
    }
  }

  const UNSET := FlagValue(false, None)

  function EntryOr(m: map<string, FlagValue>, name: string): FlagValue {
    if name in m then m[name] else UNSET
  }

  /** What the loaders have gathered from the aspects told so far. A strict loader has skipped `enabled`
      entries that are neither true nor false. */
  ghost predicate Gathered(flags: map<string, FlagValue>, a: Aspects, strict: bool) {
    && (forall n :: n in flags <==> (n in a.enabled && (strict ==> IsBool(a.enabled[n]))) || n in a.value)
    && (forall n :: n in flags ==> flags[n] == FlagOf(a.enabled, a.value, n))
  }

  /** Gather one row of either kind. */
  method Gather(flags: map<string, FlagValue>, row: Row, strict: bool, ghost a: Aspects, ghost a': Aspects)
    returns (flags': map<string, FlagValue>)
    requires Gathered(flags, a, strict)
    requires row.EnabledRow? ==> row.name !in a.enabled && a' == a.(enabled := a.enabled[row.name := row.val])
    requires row.ValueRow? ==> row.name !in a.value && a' == a.(value := a.value[row.name := row.val])
    requires row.OverrideRow? || row.OtherRow? ==> a'.enabled == a.enabled && a'.value == a.value
    ensures Gathered(flags', a', strict)
  {
    flags' := flags;
    match row {
      case EnabledRow(n, val) =>
        if !strict || val == "true" || val == "false" {
          flags' := flags[n := EntryOr(flags, n).(enabled := val == "true")];
        }
      case ValueRow(n, val) =>
        flags' := flags[n := EntryOr(flags, n).(value := Some(val))];
      case _ =>
    }
  }

  /** The loop of the global loader. */
  method GatherGlobal(rows: seq<Row>) returns (flags: map<string, FlagValue>)
    requires Unambiguous(rows)
    ensures var a := Told(rows);
            flags == map n | n in a.enabled && IsBool(a.enabled[n]) :: FlagOf(a.enabled, a.value, n)
  {
    var gathered: map<string, FlagValue> := map[];
    var hasValidEnabled: set<string> := {};
    for i := 0 to |rows|
      invariant Gathered(gathered, Told(rows[..i]), true)
      invariant forall n :: n in hasValidEnabled <==>
                  n in Told(rows[..i]).enabled && IsBool(Told(rows[..i]).enabled[n])
    {
      ToldPush(rows, i);
      NewRow(rows, i);
      gathered := Gather(gathered, rows[i], true, Told(rows[..i]), Told(rows[..i + 1]));
      if rows[i].EnabledRow? && IsBool(rows[i].val) {
        hasValidEnabled := hasValidEnabled + {rows[i].name};
      }
    }
    assert rows[..|rows|] == rows;
    flags := map n | n in gathered && n in hasValidEnabled :: gathered[n];
  }

  /** The loop of the override loader. */
  method GatherOverrides(rows: seq<Row>) returns (flags: map<string, FlagValue>)
    requires Unambiguous(rows)
    ensures var a := Told(rows);
            flags == map n | n in a.enabled.Keys + a.value.Keys && Get(a.sentinel, n) == Some("true")
                       :: FlagOf(a.enabled, a.value, n)
  {
    var gathered: map<string, FlagValue> := map[];
    var hasSentinel: set<string> := {};
    for i := 0 to |rows|
      invariant Gathered(gathered, Told(rows[..i]), false)
      invariant forall n :: n in hasSentinel <==> Get(Told(rows[..i]).sentinel, n) == Some("true")
    {
      ToldPush(rows, i);
      NewRow(rows, i);
      gathered := Gather(gathered, rows[i], false, Told(rows[..i]), Told(rows[..i + 1]));
      if rows[i].OverrideRow? && rows[i].val == "true" {
        hasSentinel := hasSentinel + {rows[i].name};
      }
    }
    assert rows[..|rows|] == rows;
    flags := map n | n in gathered && n in hasSentinel :: gathered[n];
  }

  function RowFor(s: string, n: string, v: string): Row
    requires IsSuffix(s)
  {
    if s == ENABLED then EnabledRow(n, v) else if s == VALUE then ValueRow(n, v) else OverrideRow(n, v)
  }

  function Told1(a: Aspects, s: string): map<string, string>
    requires IsSuffix(s)
  {
    if s == ENABLED then a.enabled else if s == VALUE then a.value else a.sentinel
  }

  /** Taking a key apart finds the name and aspect it was built from, and nothing else. */
  lemma ReadRowExact(prefix: string, n: string, s: string, v: string, key: string, val: string)
    requires IsSuffix(s)
    ensures ReadRow(key, val, prefix) == RowFor(s, n, v) <==> key == KeyOf(prefix, n, s) && val == v
  {
    StripKeyOf(prefix, n, s);
    if key == KeyOf(prefix, n, s) {
      forall s' | IsSuffix(s') && StripKey(key, prefix, s').Some?
        ensures s' == s
      {
        KeyInjective(prefix, StripKey(key, prefix, s').value, s', n, s);
      }
    }
  }

  lemma ReadRowsUnambiguous(m: Settings, prefix: string, rows: seq<(string, string)>)
    requires RowsOf(m, prefix, rows)
    ensures Unambiguous(ReadRows(rows, prefix))
  {
    var read := ReadRows(rows, prefix);
    forall i, j | 0 <= i < j < |read| && !read[i].OtherRow?
      ensures !SameKey(read[i], read[j])
    {
      if SameKey(read[i], read[j]) {
        var s := if read[i].EnabledRow? then ENABLED else if read[i].ValueRow? then VALUE else OVERRIDE;
        ReadRowExact(prefix, read[i].name, s, read[i].val, rows[i].0, rows[i].1);
        ReadRowExact(prefix, read[j].name, s, read[j].val, rows[j].0, rows[j].1);
      }
    }
  }

  lemma ToldMatches(m: Settings, prefix: string, rows: seq<(string, string)>, s: string, n: string)
    requires RowsOf(m, prefix, rows) && IsSuffix(s)
    ensures Get(Told1(Told(ReadRows(rows, prefix)), s), n) == Get(m, KeyOf(prefix, n, s))
  {
    var read := ReadRows(rows, prefix);
    var told, key := Told1(Told(read), s), KeyOf(prefix, n, s);
    ReadRowsUnambiguous(m, prefix, rows);
    ToldIsARow(read, n);
    if n in told {
      assert RowFor(s, n, told[n]) in read;
      var i :| 0 <= i < |read| && read[i] == RowFor(s, n, told[n]);
      ReadRowExact(prefix, n, s, told[n], rows[i].0, rows[i].1);
    }
    if key in m {
      assert prefix <= key;
      var i :| 0 <= i < |rows| && rows[i].0 == key;
      ReadRowExact(prefix, n, s, m[key], rows[i].0, rows[i].1);
      assert read[i] == RowFor(s, n, m[key]);
      RowIsTold(read, RowFor(s, n, m[key]));
    }
  }

  lemma ToldAspect(m: Settings, prefix: string, rows: seq<(string, string)>, s: string)
    requires RowsOf(m, prefix, rows) && IsSuffix(s)
    ensures Told1(Told(ReadRows(rows, prefix)), s) == Aspect(m, prefix, s)
  {
    var told := Told1(Told(ReadRows(rows, prefix)), s);
    forall n
      ensures Get(told, n) == Get(Aspect(m, prefix, s), n)
    {
      ToldMatches(m, prefix, rows, s, n);
    }
    SameByGet(told, Aspect(m, prefix, s));
  }

  lemma SameByGet(a: map<string, string>, b: map<string, string>)
    requires forall n :: Get(a, n) == Get(b, n)
    ensures a == b
  {
    assert forall n :: n in a <==> Get(a, n).Some?;
    assert forall n :: n in b <==> Get(b, n).Some?;
  }

  /** The global flags, loaded from rows in any order. */
  method LoadGlobal(ghost m: Settings, rows: seq<(string, string)>) returns (flags: map<string, FlagValue>)
    requires RowsOf(m, GLOBAL_PREFIX, rows)
    ensures flags == GlobalFlags(m)
  {
    ReadRowsUnambiguous(m, GLOBAL_PREFIX, rows);
    ToldAspect(m, GLOBAL_PREFIX, rows, ENABLED);
    ToldAspect(m, GLOBAL_PREFIX, rows, VALUE);
    flags := GatherGlobal(ReadRows(rows, GLOBAL_PREFIX));
  }

  /** The overrides of a repository, loaded from rows in any order. */
  method LoadRepoOverrides(
    ghost m: Settings, repo: string, rows: seq<(string, string)>)
    returns (flags: map<string, FlagValue>)
    requires RowsOf(m, RepoPrefix(repo), rows)
    ensures flags == RepoFlags(m, repo)
  {
    ReadRowsUnambiguous(m, RepoPrefix(repo), rows);
    ToldAspect(m, RepoPrefix(repo), rows, ENABLED);
    ToldAspect(m, RepoPrefix(repo), rows, VALUE);
    ToldAspect(m, RepoPrefix(repo), rows, OVERRIDE);
    flags := GatherOverrides(ReadRows(rows, RepoPrefix(repo)));
  }
}
