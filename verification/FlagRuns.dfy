/** The setters and clearers of the flag table (claude_flags_store.rs), and what every run of them means.

`Flags` are the structured maps that the flat table stands for. `RunsExactIffPrefixFree` says for which sets
of repository ids the table always loads back to exactly those maps. */
module FlagRuns {
  import opened Text
  import opened FlagStore

  datatype Operation =
    | SetGlobal(name: string, enabled: bool, value: Option<string>)
    | ClearGlobal(name: string)
    | SetOverride(repo: string, name: string, enabled: bool, value: Option<string>)
    | ClearOverride(repo: string, name: string)

  // ---------- On the table ----------

  /** An empty value is stored as no value. */
  function Kept(value: Option<string>): Option<string> {
    if value == Some("") then None else value
  }

  function BoolText(b: bool): string {
    if b then "true" else "false"
  }

  function WithFlag(m: Settings, prefix: string, name: string, enabled: bool, value: Option<string>): Settings {
    var m1 := m[KeyOf(prefix, name, ENABLED) := BoolText(enabled)];
    match Kept(value)
    case Some(v) => m1[KeyOf(prefix, name, VALUE) := v]
    case None => m1 - {KeyOf(prefix, name, VALUE)}
  }

  function Performed(m: Settings, op: Operation): Settings {
    match op
    case SetGlobal(n, e, v) => WithFlag(m, GLOBAL_PREFIX, n, e, v)
    case ClearGlobal(n) => m - {KeyOf(GLOBAL_PREFIX, n, ENABLED), KeyOf(GLOBAL_PREFIX, n, VALUE)}
    case SetOverride(r, n, e, v) => WithFlag(m[KeyOf(RepoPrefix(r), n, OVERRIDE) := "true"], RepoPrefix(r), n, e, v)
    case ClearOverride(r, n) =>
      var p := RepoPrefix(r);
      m - {KeyOf(p, n, OVERRIDE), KeyOf(p, n, ENABLED), KeyOf(p, n, VALUE)}
  }

  /** One cell says whether the flag is on, the other holds its value, if there is one and it is not empty; no other
      cell has changed. */
  ghost predicate Stores(m: Settings, m': Settings, enabledKey: string, valueKey: string, enabled: bool,
                         value: Option<string>) {
    && Get(m', enabledKey) == Some(if enabled then "true" else "false")
    && Get(m', valueKey) == (if value == Some("") then None else value)
    && forall k :: k != enabledKey && k != valueKey ==> Get(m', k) == Get(m, k)
  }

  lemma KeysDiffer(prefix: string, name: string)
    ensures KeyOf(prefix, name, ENABLED) != KeyOf(prefix, name, VALUE)
    ensures KeyOf(prefix, name, ENABLED) == prefix + name + ":enabled"
    ensures KeyOf(prefix, name, VALUE) == prefix + name + ":value"
  {
    if KeyOf(prefix, name, ENABLED) == KeyOf(prefix, name, VALUE) {
      KeyInjective(prefix, name, ENABLED, name, VALUE);
    }
  }

  class FlagTable {
    var settings: Settings

    constructor ()
      ensures settings == map[]
    {
      settings := map[];
    }

    method SetFlag(prefix: string, name: string, enabled: bool, value: Option<string>)
      modifies this
      ensures settings == WithFlag(old(settings), prefix, name, enabled, value)
      ensures Stores(old(settings), settings, prefix + name + ":enabled", prefix + name + ":value", enabled, value)
    {
      KeysDiffer(prefix, name);
      settings := settings[KeyOf(prefix, name, ENABLED) := if enabled then "true" else "false"];
      if value.Some? && value.value != "" {
        settings := settings[KeyOf(prefix, name, VALUE) := value.value];
      } else {
        settings := settings - {KeyOf(prefix, name, VALUE)};
      }
    }

    method SetGlobalFlag(name: string, enabled: bool, value: Option<string>)
      modifies this
      ensures settings == Performed(old(settings), SetGlobal(name, enabled, value))
      ensures Stores(old(settings), settings, "claude_flag:" + name + ":enabled", "claude_flag:" + name + ":value",
                     enabled, value)
    {
      SetFlag(GLOBAL_PREFIX, name, enabled, value);
    }

    method SetRepoOverride(repo: string, name: string, enabled: bool, value: Option<string>)
      modifies this
      ensures settings == Performed(old(settings), SetOverride(repo, name, enabled, value))
      ensures var flag := "repo:" + repo + ":claude_flag:" + name;
              Stores(old(settings)[flag + ":override" := "true"], settings, flag + ":enabled", flag + ":value",
                     enabled, value)
    {
      settings := settings[KeyOf(RepoPrefix(repo), name, OVERRIDE) := "true"];
      SetFlag(RepoPrefix(repo), name, enabled, value);
    }

    method ClearRepoOverride(repo: string, name: string)
      modifies this
      ensures settings == Performed(old(settings), ClearOverride(repo, name))
      ensures var flag := "repo:" + repo + ":claude_flag:" + name;
              settings == old(settings) - {flag + ":override", flag + ":enabled", flag + ":value"}
    {
      settings := settings - {KeyOf(RepoPrefix(repo), name, OVERRIDE)};
      settings := settings - {KeyOf(RepoPrefix(repo), name, ENABLED)};
      settings := settings - {KeyOf(RepoPrefix(repo), name, VALUE)};
    }

    method ClearGlobalFlag(name: string)
      modifies this
      ensures settings == Performed(old(settings), ClearGlobal(name))
      ensures settings == old(settings) - {"claude_flag:" + name + ":enabled", "claude_flag:" + name + ":value"}
    {
      settings := settings - {KeyOf(GLOBAL_PREFIX, name, ENABLED)};
      settings := settings - {KeyOf(GLOBAL_PREFIX, name, VALUE)};
    }
  }

  // ---------- On the structured maps ----------

  datatype Flags = Flags(global: map<string, FlagValue>, overrides: map<(string, string), FlagValue>)

  function Meant(f: Flags, op: Operation): Flags {
    match op
    case SetGlobal(n, e, v) => f.(global := f.global[n := FlagValue(e, Kept(v))])
    case ClearGlobal(n) => f.(global := f.global - {n})
    case SetOverride(r, n, e, v) => f.(overrides := f.overrides[(r, n) := FlagValue(e, Kept(v))])
    case ClearOverride(r, n) => f.(overrides := f.overrides - {(r, n)})
  }

  function OverridesOf(f: Flags, repo: string): (r: map<string, FlagValue>)
    ensures forall n :: n in r <==> (repo, n) in f.overrides
    ensures forall n :: n in r ==> r[n] == f.overrides[(repo, n)]
  {
    var names := set k | k in f.overrides && k.0 == repo :: k.1;
    assert forall n :: (repo, n) in f.overrides ==> n in names by {
      forall n | (repo, n) in f.overrides
        ensures n in names
      {
        assert (repo, n).1 == n;
      }
    }
    map n | n in names :: f.overrides[(repo, n)]
  }

  function Table(ops: seq<Operation>): Settings {
    if ops == [] then map[] else Performed(Table(ops[..|ops| - 1]), ops[|ops| - 1])
  }

  function Intended(ops: seq<Operation>): Flags {
    if ops == [] then Flags(map[], map[]) else Meant(Intended(ops[..|ops| - 1]), ops[|ops| - 1])
  }

  // ---------- Keys of different repositories ----------

  /** No repository's prefix continues another's. */
  ghost predicate PrefixFree(repos: set<string>) {
    forall r, r' :: r in repos && r' in repos && r != r' ==> !(RepoPrefix(r) <= RepoPrefix(r'))
  }

  /** Ids without colons are prefix-free. */
  lemma ColonFreeIsPrefixFree(repos: set<string>)
    requires forall r :: r in repos ==> ':' !in r
    ensures PrefixFree(repos)
  {
    forall r, r' | r in repos && r' in repos && RepoPrefix(r) <= RepoPrefix(r')
      ensures r == r'
    {
      var p, q := RepoPrefix(r), RepoPrefix(r');
      assert p[5..5 + |r|] == r && q[5..5 + |r'|] == r';
      assert p[5 + |r|] == ':' && q[5 + |r'|] == ':';
      assert forall i :: 0 <= i < |r| ==> p[5 + i] == r[i];
      assert forall i :: 0 <= i < |r'| ==> q[5 + i] == r'[i];
      assert |r| == |r'|;
    }
  }

  ghost predicate IsPrefix(p: string, repos: set<string>) {
    p == GLOBAL_PREFIX || exists r :: r in repos && p == RepoPrefix(r)
  }

  lemma KeysApart(p: string, n: string, s: string, p': string, n': string, s': string, repos: set<string>)
    requires PrefixFree(repos) && IsPrefix(p, repos) && IsPrefix(p', repos) && IsSuffix(s) && IsSuffix(s')
    requires KeyOf(p, n, s) == KeyOf(p', n', s')
    ensures p == p' && n == n' && s == s'
  {
    var k := KeyOf(p, n, s);
    assert k[..|p|] == p && k[..|p'|] == p';
    assert p <= p' || p' <= p;
    assert GLOBAL_PREFIX[0] == 'c' && forall r :: RepoPrefix(r)[0] == 'r';
    KeyInjective(p, n, s, n', s');
  }

  // ---------- The table represents the maps ----------

  function Found<K>(m: map<K, FlagValue>, k: K): Option<FlagValue> {
    if k in m then Some(m[k]) else None
  }

  /** What the table should hold for a flag, aspect by aspect. */
  function CellOf(flag: Option<FlagValue>, s: string): Option<string> {
    match flag
    case None => None
    case Some(f) => if s == ENABLED then Some(BoolText(f.enabled)) else if s == VALUE then f.value else Some("true")
  }

  ghost predicate RepresentsGlobal(m: Settings, f: Flags) {
    forall n, s :: s == ENABLED || s == VALUE ==> Get(m, KeyOf(GLOBAL_PREFIX, n, s)) == CellOf(Found(f.global, n), s)
  }

  ghost predicate RepresentsRepo(m: Settings, f: Flags, r: string) {
    forall n, s :: IsSuffix(s) ==> Get(m, KeyOf(RepoPrefix(r), n, s)) == CellOf(Found(f.overrides, (r, n)), s)
  }

  ghost predicate Represents(m: Settings, f: Flags, repos: set<string>) {
    RepresentsGlobal(m, f) && forall r :: r in repos ==> RepresentsRepo(m, f, r)
  }

  /** An operation speaks of repositories in the set only. */
  predicate Within(op: Operation, repos: set<string>) {
    op.SetOverride? || op.ClearOverride? ==> op.repo in repos
  }

  function PrefixOf(op: Operation): string {
    if op.SetOverride? || op.ClearOverride? then RepoPrefix(op.repo) else GLOBAL_PREFIX
  }

  /** The flag an operation leaves under its name. */
  function Left(op: Operation): Option<FlagValue> {
    match op
    case SetGlobal(_, e, v) => Some(FlagValue(e, Kept(v)))
    case SetOverride(_, _, e, v) => Some(FlagValue(e, Kept(v)))
    case _ => None
  }

  /** The cells an operation writes. */
  lemma WrittenCells(m: Settings, op: Operation, s: string)
    requires s == ENABLED || s == VALUE || (s == OVERRIDE && (op.SetOverride? || op.ClearOverride?))
    ensures Get(Performed(m, op), KeyOf(PrefixOf(op), op.name, s)) == CellOf(Left(op), s)
  {
  }

  lemma OtherCells(m: Settings, op: Operation, p: string, n: string, s: string, repos: set<string>)
    requires PrefixFree(repos) && Within(op, repos) && IsPrefix(p, repos) && IsSuffix(s)
    requires p != PrefixOf(op) || n != op.name
    ensures Get(Performed(m, op), KeyOf(p, n, s)) == Get(m, KeyOf(p, n, s))
  {
    forall s' | IsSuffix(s')
      ensures KeyOf(p, n, s) != KeyOf(PrefixOf(op), op.name, s')
    {
      if KeyOf(p, n, s) == KeyOf(PrefixOf(op), op.name, s') {
        KeysApart(p, n, s, PrefixOf(op), op.name, s', repos);
      }
    }
  }

  lemma RepoPrefixInjective(r: string, r': string)
    requires RepoPrefix(r) == RepoPrefix(r')
    ensures r == r'
  {
    assert RepoPrefix(r)[5..5 + |r|] == r && RepoPrefix(r')[5..5 + |r'|] == r';
  }

  lemma StepGlobal(m: Settings, f: Flags, op: Operation, repos: set<string>)
    requires PrefixFree(repos) && Within(op, repos) && RepresentsGlobal(m, f)
    ensures RepresentsGlobal(Performed(m, op), Meant(f, op))
  {
    forall n, s | s == ENABLED || s == VALUE
      ensures Get(Performed(m, op), KeyOf(GLOBAL_PREFIX, n, s)) == CellOf(Found(Meant(f, op).global, n), s)
    {
      var mine := op.SetGlobal? || op.ClearGlobal?;
      assert mine <==> PrefixOf(op) == GLOBAL_PREFIX by {
        assert PrefixOf(op)[0] == (if mine then 'c' else 'r');
      }
      if mine && n == op.name {
        WrittenCells(m, op, s);
      } else {
        OtherCells(m, op, GLOBAL_PREFIX, n, s, repos);
      }
    }
  }

  lemma StepRepo(m: Settings, f: Flags, op: Operation, repos: set<string>, r: string)
    requires PrefixFree(repos) && Within(op, repos) && r in repos && RepresentsRepo(m, f, r)
    ensures RepresentsRepo(Performed(m, op), Meant(f, op), r)
  {
    forall n, s | IsSuffix(s)
      ensures Get(Performed(m, op), KeyOf(RepoPrefix(r), n, s)) == CellOf(Found(Meant(f, op).overrides, (r, n)), s)
    {
      var mine := (op.SetOverride? || op.ClearOverride?) && op.repo == r;
      if mine && n == op.name {
        WrittenCells(m, op, s);
      } else {
        if PrefixOf(op) == RepoPrefix(r) {
          assert PrefixOf(op)[0] == 'r';
          assert op.SetOverride? || op.ClearOverride?;
          RepoPrefixInjective(r, op.repo);
        }
        OtherCells(m, op, RepoPrefix(r), n, s, repos);
      }
    }
  }

  lemma {:induction false} TableRepresents(ops: seq<Operation>, repos: set<string>)
    requires PrefixFree(repos) && forall i :: 0 <= i < |ops| ==> Within(ops[i], repos)
    ensures Represents(Table(ops), Intended(ops), repos)
  {
    if ops != [] {
      var before, op := ops[..|ops| - 1], ops[|ops| - 1];
      TableRepresents(before, repos);
      StepGlobal(Table(before), Intended(before), op, repos);
      forall r | r in repos
        ensures RepresentsRepo(Table(ops), Intended(ops), r)
      {
        StepRepo(Table(before), Intended(before), op, repos, r);
      }
    }
  }

  // ---------- Loading gives back the maps ----------

  ghost predicate LoadsExactly(m: Settings, f: Flags, repos: set<string>) {
    GlobalFlags(m) == f.global && forall r :: r in repos ==> RepoFlags(m, r) == OverridesOf(f, r)
  }

  /** An override, from its three cells. */
  lemma OverrideFromCells(m: Settings, r: string, n: string)
    ensures var p := RepoPrefix(r);
            var e, v, o := Get(m, KeyOf(p, n, ENABLED)), Get(m, KeyOf(p, n, VALUE)), Get(m, KeyOf(p, n, OVERRIDE));
            Found(RepoFlags(m, r), n)
              == if o == Some("true") && (e.Some? || v.Some?) then Some(FlagValue(e == Some("true"), v)) else None
  {
  }

  lemma GlobalLoads(m: Settings, f: Flags, n: string)
    requires RepresentsGlobal(m, f)
    ensures Found(GlobalFlags(m), n) == Found(f.global, n)
  {
    CellsRoundTrip(Found(f.global, n));
  }

  lemma RepoLoads(m: Settings, f: Flags, r: string, n: string)
    requires RepresentsRepo(m, f, r)
    ensures Found(RepoFlags(m, r), n) == Found(f.overrides, (r, n))
  {
    OverrideFromCells(m, r, n);
    CellsRoundTrip(Found(f.overrides, (r, n)));
  }

  /** A flag is recovered from its cells. */
  lemma CellsRoundTrip(flag: Option<FlagValue>)
    ensures var e, v, o := CellOf(flag, ENABLED), CellOf(flag, VALUE), CellOf(flag, OVERRIDE);
            && flag == (if e.Some? && IsBool(e.value) then Some(FlagValue(e == Some("true"), v)) else None)
            && flag == (if o == Some("true") && (e.Some? || v.Some?)
                        then Some(FlagValue(e == Some("true"), v)) else None)
  {
    assert ENABLED != VALUE && ENABLED != OVERRIDE && VALUE != OVERRIDE;
  }

  lemma SameByFound(a: map<string, FlagValue>, b: map<string, FlagValue>)
    requires forall n :: Found(a, n) == Found(b, n)
    ensures a == b
  {
    assert forall n :: n in a <==> Found(a, n).Some?;
    assert forall n :: n in b <==> Found(b, n).Some?;
  }

  lemma RepresentedLoads(m: Settings, f: Flags, repos: set<string>)
    requires Represents(m, f, repos)
    ensures LoadsExactly(m, f, repos)
  {
    forall n
      ensures Found(GlobalFlags(m), n) == Found(f.global, n)
    {
      GlobalLoads(m, f, n);
    }
    SameByFound(GlobalFlags(m), f.global);
    forall r | r in repos
      ensures RepoFlags(m, r) == OverridesOf(f, r)
    {
      forall n
        ensures Found(RepoFlags(m, r), n) == Found(OverridesOf(f, r), n)
      {
        RepoLoads(m, f, r, n);
      }
      SameByFound(RepoFlags(m, r), OverridesOf(f, r));
    }
  }

  ghost predicate RunsExact(repos: set<string>) {
    forall ops: seq<Operation> :: (forall op :: op in ops ==> Within(op, repos))
                                  ==> LoadsExactly(Table(ops), Intended(ops), repos)
  }

  /** One repository's override shows up as a phantom of another whose prefix it continues. */
  lemma PhantomOverride(r: string, r': string)
    requires r != r' && RepoPrefix(r) <= RepoPrefix(r')
    ensures var op := SetOverride(r', "n", true, None);
            RepoFlags(Table([op]), r) != OverridesOf(Intended([op]), r)
  {
    var op := SetOverride(r', "n", true, None);
    var m, p := Table([op]), RepoPrefix(r);
    assert [op][..0] == [];
    var name := RepoPrefix(r')[|p|..] + "n";
    assert p + RepoPrefix(r')[|p|..] == RepoPrefix(r');
    assert KeyOf(p, name, ENABLED) == KeyOf(RepoPrefix(r'), "n", ENABLED);
    assert KeyOf(p, name, OVERRIDE) == KeyOf(RepoPrefix(r'), "n", OVERRIDE);
    WrittenCells(map[], op, ENABLED);
    WrittenCells(map[], op, OVERRIDE);
    assert name in RepoFlags(m, r);
    assert name !in OverridesOf(Intended([op]), r);
  }

  lemma PrefixFreeRunsExact(ops: seq<Operation>, repos: set<string>)
    requires PrefixFree(repos) && forall op :: op in ops ==> Within(op, repos)
    ensures LoadsExactly(Table(ops), Intended(ops), repos)
  {
    TableRepresents(ops, repos);
    RepresentedLoads(Table(ops), Intended(ops), repos);
  }

  lemma OneRunFails(ops: seq<Operation>, r: string, repos: set<string>)
    ensures r in repos && (forall i :: 0 <= i < |ops| ==> Within(ops[i], repos)) ==>
              (RepoFlags(Table(ops), r) != OverridesOf(Intended(ops), r) ==> !RunsExact(repos))
  {
    if forall i :: 0 <= i < |ops| ==> Within(ops[i], repos) {
      assert forall op :: op in ops ==> Within(op, repos);
      assert RunsExact(repos) ==> LoadsExactly(Table(ops), Intended(ops), repos);
    }
  }

  /** The flat table always loads back to exactly the intended maps if and only if no repository's prefix
      continues another's. */
  lemma RunsExactIffPrefixFree(repos: set<string>)
    ensures RunsExact(repos) <==> PrefixFree(repos)
  {
    if PrefixFree(repos) {
      AllRunsExact(repos);
    } else {
      var r, r' :| r in repos && r' in repos && r != r' && RepoPrefix(r) <= RepoPrefix(r');
      SomeRunFails(r, r', repos);
    }
  }

  lemma AllRunsExact(repos: set<string>)
    requires PrefixFree(repos)
    ensures RunsExact(repos)
  {
    forall ops: seq<Operation> | forall op :: op in ops ==> Within(op, repos)
      ensures LoadsExactly(Table(ops), Intended(ops), repos)
    {
      PrefixFreeRunsExact(ops, repos);
    }
  }

  lemma SomeRunFails(r: string, r': string, repos: set<string>)
    requires r in repos && r' in repos && r != r' && RepoPrefix(r) <= RepoPrefix(r')
    ensures !RunsExact(repos)
  {
    PhantomOverride(r, r');
    OneRunFails([SetOverride(r', "n", true, None)], r, repos);
  }

  // ---------- Resolution ----------

  datatype FlagDef = FlagDef(name: string, takesValue: bool)

  /** An override wins over the global value; what is off or unknown is left out. */
  function Chosen(
    def: FlagDef, global: map<string, FlagValue>, repo: map<string, FlagValue>): Option<(string, Option<string>)>
  {
    var chosen := if def.name in repo then Some(repo[def.name]) else Found(global, def.name);
    if chosen.Some? && chosen.value.enabled then
      Some((def.name, if def.takesValue then chosen.value.value else None))
    else None
  }

  function Resolved(
    defs: seq<FlagDef>, global: map<string, FlagValue>, repo: map<string, FlagValue>): seq<(string, Option<string>)>
  {
    if defs == [] then []
    else
      var last := Chosen(defs[|defs| - 1], global, repo);
      Resolved(defs[..|defs| - 1], global, repo) + if last.Some? then [last.value] else []
  }

  method ResolveForRepo(defs: seq<FlagDef>, global: map<string, FlagValue>, repo: map<string, FlagValue>)
    returns (out: seq<(string, Option<string>)>)
    ensures out == Resolved(defs, global, repo)
  {
    out := [];
    for i := 0 to |defs|
      invariant out == Resolved(defs[..i], global, repo)
    {
      assert defs[..i + 1][..i] == defs[..i];
      var def := defs[i];
      var chosen := if def.name in repo then Some(repo[def.name]) else Found(global, def.name);
      if chosen.None? || !chosen.value.enabled {
        continue;
      }
      out := out + [(def.name, if def.takesValue then chosen.value.value else None)];
    }
    assert defs[..|defs|] == defs;
  }

  /** The operations, without those on one override. */
  function WithoutOverride(ops: seq<Operation>, r: string, n: string): seq<Operation> {
    if ops == [] then []
    else
      var rest, op := WithoutOverride(ops[..|ops| - 1], r, n), ops[|ops| - 1];
      if (op.SetOverride? || op.ClearOverride?) && op.repo == r && op.name == n then rest else rest + [op]
  }

  ghost predicate SameBut(g: Flags, f: Flags, r: string, n: string) {
    g.global == f.global && g.overrides == f.overrides - {(r, n)}
  }

  lemma MeantBoth(g: Flags, f: Flags, op: Operation, r: string, n: string)
    requires SameBut(g, f, r, n)
    ensures if (op.SetOverride? || op.ClearOverride?) && op.repo == r && op.name == n
            then SameBut(g, Meant(f, op), r, n) else SameBut(Meant(g, op), Meant(f, op), r, n)
  {
  }

  lemma {:induction false} OneOverrideOnly(ops: seq<Operation>, r: string, n: string)
    ensures SameBut(Intended(WithoutOverride(ops, r, n)), Intended(ops), r, n)
    ensures forall op :: op in WithoutOverride(ops, r, n) ==> op in ops
  {
    if ops != [] {
      var before, op := ops[..|ops| - 1], ops[|ops| - 1];
      OneOverrideOnly(before, r, n);
      var rest := WithoutOverride(before, r, n);
      assert (rest + [op])[..|rest|] == rest;
      MeantBoth(Intended(rest), Intended(before), op, r, n);
    }
  }

  function ResolvedAt(m: Settings, repo: string, defs: seq<FlagDef>): seq<(string, Option<string>)> {
    Resolved(defs, GlobalFlags(m), RepoFlags(m, repo))
  }

  /** Clearing an override restores, for every repository and every list of flags, the resolution that would
      hold had the override never been touched. */
  lemma ClearRestoresResolution(
    ops: seq<Operation>, r: string, n: string, repos: set<string>, at: string, defs: seq<FlagDef>)
    requires PrefixFree(repos) && r in repos && at in repos && forall op :: op in ops ==> Within(op, repos)
    ensures ResolvedAt(Table(ops + [ClearOverride(r, n)]), at, defs)
        == ResolvedAt(Table(WithoutOverride(ops, r, n)), at, defs)
  {
    var all, without := ops + [ClearOverride(r, n)], WithoutOverride(ops, r, n);
    assert all[..|ops|] == ops;
    OneOverrideOnly(ops, r, n);
    PrefixFreeRunsExact(all, repos);
    PrefixFreeRunsExact(without, repos);
    assert Intended(all) == Intended(without);
  }

  // ---------- What is set is what is loaded ----------

  /** After any operations at all, a flag that is set is loaded with the value it was given, an empty value counting
      as none; and one that is cleared is not loaded. */
  lemma SetIsLoaded(ops: seq<Operation>, n: string, e: bool, v: Option<string>)
    ensures var loaded := GlobalFlags(Table(ops + [SetGlobal(n, e, v)]));
            n in loaded && loaded[n].enabled == e && loaded[n].value == if v == Some("") then None else v
    ensures n !in GlobalFlags(Table(ops + [ClearGlobal(n)]))
  {
    LastOperation(ops, SetGlobal(n, e, v));
    LastOperation(ops, ClearGlobal(n));
    WrittenCells(Table(ops), SetGlobal(n, e, v), ENABLED);
    WrittenCells(Table(ops), SetGlobal(n, e, v), VALUE);
    WrittenCells(Table(ops), ClearGlobal(n), ENABLED);
  }

  lemma OverrideIsLoaded(ops: seq<Operation>, r: string, n: string, e: bool, v: Option<string>)
    ensures var loaded := RepoFlags(Table(ops + [SetOverride(r, n, e, v)]), r);
            n in loaded && loaded[n].enabled == e && loaded[n].value == if v == Some("") then None else v
    ensures n !in RepoFlags(Table(ops + [ClearOverride(r, n)]), r)
  {
    var op := SetOverride(r, n, e, v);
    LastOperation(ops, op);
    LastOperation(ops, ClearOverride(r, n));
    WrittenCells(Table(ops), op, ENABLED);
    WrittenCells(Table(ops), op, VALUE);
    WrittenCells(Table(ops), op, OVERRIDE);
    WrittenCells(Table(ops), ClearOverride(r, n), OVERRIDE);
    OverrideFromCells(Table(ops + [op]), r, n);
    OverrideFromCells(Table(ops + [ClearOverride(r, n)]), r, n);
  }

  lemma LastOperation(ops: seq<Operation>, op: Operation)
    ensures Table(ops + [op]) == Performed(Table(ops), op)
  {
    assert (ops + [op])[..|ops|] == ops;
  }

  /** The flag that applies to a repository: its override if it has one, whatever the global value is. */
  ghost predicate Applies(name: string, flag: FlagValue, global: map<string, FlagValue>, repo: map<string, FlagValue>) {
    if name in repo then flag == repo[name] else name in global && flag == global[name]
  }

  /** A flag is passed on, with a value, exactly if it is known, applies and is on; its value is passed on exactly if
      it takes one. */
  lemma {:induction false} ResolvedExactly(
    defs: seq<FlagDef>, global: map<string, FlagValue>, repo: map<string, FlagValue>, name: string,
    value: Option<string>)
    ensures (name, value) in Resolved(defs, global, repo) <==>
              exists i, flag :: 0 <= i < |defs| && defs[i].name == name && Applies(name, flag, global, repo)
                && flag.enabled && value == if defs[i].takesValue then flag.value else None
  {
    if defs != [] {
      var rest, def := defs[..|defs| - 1], defs[|defs| - 1];
      ResolvedExactly(rest, global, repo, name, value);
      if def.name == name && name in repo {
        assert Applies(name, repo[name], global, repo);
      } else if def.name == name && name in global {
        assert Applies(name, global[name], global, repo);
      }
    }
  }

  /** Which cells make a global flag: it needs to be said to be on or off. */
  lemma GlobalLoadedExactly(m: Settings, n: string)
    ensures var e, v := Get(m, "claude_flag:" + n + ":enabled"), Get(m, "claude_flag:" + n + ":value");
            && (n in GlobalFlags(m) <==> e == Some("true") || e == Some("false"))
            && (n in GlobalFlags(m) ==> GlobalFlags(m)[n] == FlagValue(e == Some("true"), v))
  {
  }

  /** Which cells make an override: it needs its sentinel, and something to hold; what is not said to be on is off. */
  lemma OverrideLoadedExactly(m: Settings, r: string, n: string)
    ensures var flag := "repo:" + r + ":claude_flag:" + n;
            var o, e, v := Get(m, flag + ":override"), Get(m, flag + ":enabled"), Get(m, flag + ":value");
            && (n in RepoFlags(m, r) <==> o == Some("true") && (e.Some? || v.Some?))
            && (n in RepoFlags(m, r) ==> RepoFlags(m, r)[n] == FlagValue(e == Some("true"), v))
  {
    OverrideFromCells(m, r, n);
  }
}
