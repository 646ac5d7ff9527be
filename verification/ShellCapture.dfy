/** Capturing the shell's environment (env.rs): parsing the NUL-delimited dump, comparing it with the
environment the application was started in, and filtering denied names.

User-configured deny patterns are given as a predicate on names. */
module ShellCapture {
  import opened Text
  import opened Lexicographic
  import opened Utf8

  const EQUALS: byte := 0x3D
  const ZERO: byte := 0

  type Vars = map<string, string>

  // ---------- Parsing the dump ----------

  /** One chunk of the dump: a nonempty name, an equals sign, a value, both valid UTF-8. */
  function ParseChunk(chunk: seq<byte>): Option<(string, string)> {
    var eq := |Before(chunk, EQUALS)|;
    if eq == |chunk| || eq == 0 then None
    else if !Valid(chunk[..eq]) || !Valid(chunk[eq + 1..]) then None
    else Some((Decode(chunk[..eq]), Decode(chunk[eq + 1..])))
  }

  function Insert(vars: Vars, entry: Option<(string, string)>): Vars {
    if entry.Some? then vars[entry.value.0 := entry.value.1] else vars
  }

  function ParseChunks(vars: Vars, chunks: seq<seq<byte>>): Vars
    decreases |chunks|
  {
    if chunks == [] then vars else ParseChunks(Insert(vars, ParseChunk(chunks[0])), chunks[1..])
  }

  method ParseEnvDump(bytes: seq<byte>) returns (out: Vars)
    ensures out == ParseChunks(map[], Split(bytes, ZERO))
  {
    out := map[];
    var chunks := Split(bytes, ZERO);
    for i := 0 to |chunks|
      invariant ParseChunks(out, chunks[i..]) == ParseChunks(map[], chunks)
    {
      var chunk := chunks[i];
      assert chunks[i..][1..] == chunks[i + 1..];
      if chunk == [] {
        continue;
      }
      var eq := |Before(chunk, EQUALS)|;
      if eq == |chunk| || eq == 0 {
        continue;
      }
      var key, value := chunk[..eq], chunk[eq + 1..];
      if !Valid(key) || !Valid(value) {
        continue;
      }
      out := out[Decode(key) := Decode(value)];
    }
  }

  // ---------- Printing an environment ----------

  /** A variable as the operating system has it: bytes, not necessarily text. */
  datatype Variable = Variable(name: seq<byte>, value: seq<byte>) {
    predicate Proper() {
      name != [] && EQUALS !in name && ZERO !in name && ZERO !in value
    }

    function Text(): seq<byte> {
      name + [EQUALS] + value
    }

    /** The variable as text, if it is text. */
    function AsText(): Option<(string, string)> {
      if Valid(name) && Valid(value) then Some((Decode(name), Decode(value))) else None
    }
  }

  function PrintVariables(env: seq<Variable>): seq<byte> {
    if env == [] then [] else env[0].Text() + [ZERO] + PrintVariables(env[1..])
  }

  /** What the probe script prints: whatever the start-up files print, a NUL, then `env -0`. */
  function Printed(banner: seq<byte>, env: seq<Variable>): seq<byte> {
    banner + [ZERO] + PrintVariables(env)
  }

  function EnvironmentOnto(vars: Vars, env: seq<Variable>): Vars
    decreases |env|
  {
    if env == [] then vars else EnvironmentOnto(Insert(vars, env[0].AsText()), env[1..])
  }

  /** The text variables of an environment. */
  function Environment(env: seq<Variable>): Vars {
    EnvironmentOnto(map[], env)
  }

  lemma ParseVariable(v: Variable)
    requires v.Proper()
    ensures ParseChunk(v.Text()) == v.AsText()
  {
    BeforeOfJoined(v.name, EQUALS, v.value);
    assert v.Text()[..|v.name|] == v.name && v.Text()[|v.name| + 1..] == v.value;
  }

  lemma {:induction false} ParsePrintedVariables(vars: Vars, env: seq<Variable>)
    requires forall v :: v in env ==> v.Proper()
    ensures ParseChunks(vars, Split(PrintVariables(env), ZERO)) == EnvironmentOnto(vars, env)
    decreases |env|
  {
    if env == [] {
      SplitPlain<byte>([], ZERO);
      var chunks: seq<seq<byte>> := [[]];
      assert ParseChunk([]) == None && chunks[1..] == [];
    } else {
      var v, rest := env[0], PrintVariables(env[1..]);
      assert v in env;
      assert ZERO !in v.Text();
      SplitPiece(v.Text(), ZERO, rest);
      ParseVariable(v);
      var chunks := [v.Text()] + Split(rest, ZERO);
      assert chunks[0] == v.Text() && chunks[1..] == Split(rest, ZERO);
      ParsePrintedVariables(Insert(vars, v.AsText()), env[1..]);
    }
  }

  /** At most one stray entry, from a banner that itself reads as a variable. */
  function Stray(banner: seq<byte>): (r: Vars)
    ensures |r| <= 1
  {
    match ParseChunk(banner)
    case Some((k, v)) => map[k := v]
    case None => map[]
  }

  lemma {:induction false} EnvironmentOver(vars: Vars, env: seq<Variable>)
    ensures EnvironmentOnto(vars, env) == vars + Environment(env)
    decreases |env|
  {
    if env == [] {
      assert vars + map[] == vars;
    } else {
      var e := env[0].AsText();
      EnvironmentOver(Insert(vars, e), env[1..]);
      EnvironmentOver(Insert(map[], e), env[1..]);
      assert Insert(vars, e) == vars + Insert(map[], e);
    }
  }

  /** Any environment printed after any NUL-free banner is recovered, with at most the banner's stray entry,
      which a real variable of the same name overrides. */
  lemma DumpRoundTrip(banner: seq<byte>, env: seq<Variable>)
    requires ZERO !in banner && forall v :: v in env ==> v.Proper()
    ensures ParseChunks(map[], Split(Printed(banner, env), ZERO)) == Stray(banner) + Environment(env)
  {
    var rest := PrintVariables(env);
    SplitPiece(banner, ZERO, rest);
    var chunks := [banner] + Split(rest, ZERO);
    assert chunks[0] == banner && chunks[1..] == Split(rest, ZERO);
    assert Insert(map[], ParseChunk(banner)) == Stray(banner);
    ParsePrintedVariables(Stray(banner), env);
    EnvironmentOver(Stray(banner), env);
  }

  /** In an environment without duplicate names, every text variable has its own value. */
  lemma {:induction false} EnvironmentLookup(env: seq<Variable>, i: nat)
    requires i < |env| && env[i].AsText().Some?
    requires forall j :: i < j < |env| && env[j].AsText().Some? ==> env[j].AsText().value.0 != env[i].AsText().value.0
    ensures var (k, v) := env[i].AsText().value; k in Environment(env) && Environment(env)[k] == v
    decreases |env|
  {
    EnvironmentOver(Insert(map[], env[0].AsText()), env[1..]);
    if i > 0 {
      EnvironmentLookup(env[1..], i - 1);
    } else {
      NotNamed(env[1..], env[0].AsText().value.0);
    }
  }

  lemma {:induction false} NotNamed(env: seq<Variable>, k: string)
    requires forall j :: 0 <= j < |env| && env[j].AsText().Some? ==> env[j].AsText().value.0 != k
    ensures k !in Environment(env)
  {
    if env != [] {
      EnvironmentOver(Insert(map[], env[0].AsText()), env[1..]);
      NotNamed(env[1..], k);
    }
  }

  // ---------- Comparing and filtering ----------

  const BUILT_IN_DENY := [
    "LD_PRELOAD", "LD_LIBRARY_PATH", "DYLD_INSERT_LIBRARIES", "DYLD_LIBRARY_PATH", "DYLD_FALLBACK_LIBRARY_PATH",
    "DYLD_FRAMEWORK_PATH", "DYLD_FALLBACK_FRAMEWORK_PATH", "TMPDIR", "_", "PS1", "PS2", "RPROMPT", "PROMPT",
    "PROMPT_COMMAND", "OLDPWD", "PWD", "SHLVL"]
  const BUILT_IN_DENY_PREFIX := "STARSHIP_"

  /** The names that are denied: the built-in ones, and those the user's patterns match. */
  function Denied(userDenied: string -> bool): string -> bool {
    (name: string) => name in BUILT_IN_DENY || BUILT_IN_DENY_PREFIX <= name || userDenied(name)
  }

  function Without(vars: Vars, denied: string -> bool): Vars {
    map n | n in vars && !denied(n) :: vars[n]
  }

  method ApplyDenylist(vars: Vars, userDenied: string -> bool) returns (kept: Vars, dropped: seq<string>)
    ensures kept == Without(vars, Denied(userDenied))
    ensures Ascending(dropped) && forall n :: n in dropped <==> n in vars && Denied(userDenied)(n)
  {
    kept, dropped := Divide(vars, Denied(userDenied));
  }

  /** The map is walked in the order of its names, so the dropped ones are listed in order. */
  method Divide(vars: Vars, denied: string -> bool) returns (kept: Vars, dropped: seq<string>)
    ensures kept == Without(vars, denied)
    ensures Ascending(dropped) && forall n :: n in dropped <==> n in vars && denied(n)
  {
    kept, dropped := map[], [];
    var names := Sorted(vars.Keys);
    for i := 0 to |names|
      invariant forall n :: n in kept <==> n in names[..i] && !denied(n)
      invariant forall n :: n in kept ==> n in vars && kept[n] == vars[n]
      invariant Ascending(dropped)
      invariant forall n :: n in dropped <==> n in names[..i] && denied(n)
    {
      var name := names[i];
      assert names[..i + 1] == names[..i] + [name];
      if denied(name) {
        AscendingPush(names, i, dropped);
        dropped := dropped + [name];
      } else {
        kept := kept[name := vars[name]];
      }
    }
    assert names[..|names|] == names;
  }

  method PartitionAgainstBaseline(shell: Vars, baseline: Vars) returns (added: Vars, inherited: Vars)
    ensures inherited == map n | n in shell && n in baseline && baseline[n] == shell[n] :: shell[n]
    ensures added == shell - inherited.Keys
  {
    added, inherited := map[], map[];
    var todo := shell.Keys;
    while todo != {}
      invariant todo <= shell.Keys
      invariant inherited == map n | n in shell && n !in todo && n in baseline && baseline[n] == shell[n] :: shell[n]
      invariant added == shell - todo - inherited.Keys
      decreases todo
    {
      var n :| n in todo;
      todo := todo - {n};
      if n in baseline && baseline[n] == shell[n] {
        inherited := inherited[n := shell[n]];
      } else {
        added := added[n := shell[n]];
      }
    }
  }

  /** The captured environment: what the shell adds, and what it merely passes on. */
  datatype ShellEnv = ShellEnv(vars: Vars, inherited: Vars)

  /** A kept name goes to `inherited` when the baseline already has it with the same value. */
  function Captured(dump: Vars, baseline: Vars, denied: string -> bool): ShellEnv {
    var kept := Without(dump, denied);
    var same := map n | n in kept && n in baseline && baseline[n] == kept[n] :: kept[n];
    ShellEnv(kept - same.Keys, same)
  }

  method CaptureShellEnv(dump: Vars, baseline: Vars, userDenied: string -> bool) returns (env: ShellEnv)
    ensures env == Captured(dump, baseline, Denied(userDenied))
  {
    var added, inheritedRaw := PartitionAgainstBaseline(dump, baseline);
    var keptAdded, droppedAdded := ApplyDenylist(added, userDenied);
    var keptInherited, droppedInherited := ApplyDenylist(inheritedRaw, userDenied);
    DenyAfterPartition(dump, baseline, inheritedRaw, Denied(userDenied));
    env := ShellEnv(keptAdded, keptInherited);
  }

  /** It makes no difference whether names are denied before or after the comparison. */
  lemma DenyAfterPartition(dump: Vars, baseline: Vars, inherited: Vars, denied: string -> bool)
    requires inherited == map n | n in dump && n in baseline && baseline[n] == dump[n] :: dump[n]
    ensures ShellEnv(Without(dump - inherited.Keys, denied), Without(inherited, denied))
         == Captured(dump, baseline, denied)
  {
  }

  /** Overlaying the captured variables on the baseline gives every name of the dump the dump's value, except
      denied names, which keep the baseline's; and the dump's names fall into three disjoint groups. */
  lemma OverlayReproducesDump(dump: Vars, baseline: Vars, denied: string -> bool)
    ensures var env := Captured(dump, baseline, denied);
            var seen, gone := baseline + env.vars, set n | n in dump && denied(n);
            && (forall n :: n in dump && n !in gone ==> n in seen && seen[n] == dump[n])
            && (forall n :: n !in dump || n in gone ==>
                  (n in seen <==> n in baseline) && (n in baseline ==> seen[n] == baseline[n]))
            && env.vars.Keys !! env.inherited.Keys !! gone
            && env.vars.Keys + env.inherited.Keys + gone == dump.Keys
  {
  }

  /** End to end: every variable of the shell's environment that is text and not denied reaches child
      processes with the shell's value, whatever banner the start-up files print. */
  lemma ShellValueReachesChildren(
    banner: seq<byte>, env: seq<Variable>, baseline: Vars, userDenied: string -> bool, i: nat)
    requires ZERO !in banner && forall v :: v in env ==> v.Proper()
    requires i < |env| && env[i].AsText().Some?
    requires forall j :: i < j < |env| && env[j].AsText().Some? ==> env[j].AsText().value.0 != env[i].AsText().value.0
    ensures var (k, v) := env[i].AsText().value;
            var dump := ParseChunks(map[], Split(Printed(banner, env), ZERO));
            var seen := baseline + Captured(dump, baseline, Denied(userDenied)).vars;
            !Denied(userDenied)(k) ==> k in seen && seen[k] == v
  {
    var dump := ParseChunks(map[], Split(Printed(banner, env), ZERO));
    DumpRoundTrip(banner, env);
    EnvironmentLookup(env, i);
    OverlayReproducesDump(dump, baseline, Denied(userDenied));
    assert env[i].AsText().value.0 in dump;
  }

  /** A name on the built-in list, a name with the denied prefix and a name that the user denies are not kept; every
      other variable is, with its value. */
  lemma DeniedExactly(vars: Vars, userDenied: string -> bool, n: string)
    requires n in vars
    ensures n in Without(vars, Denied(userDenied)) <==>
              && (forall i :: 0 <= i < |BUILT_IN_DENY| ==> n != BUILT_IN_DENY[i])
              && !("STARSHIP_" <= n) && !userDenied(n)
    ensures n in Without(vars, Denied(userDenied)) ==> Without(vars, Denied(userDenied))[n] == vars[n]
  {
    assert n in BUILT_IN_DENY <==> exists i :: 0 <= i < |BUILT_IN_DENY| && BUILT_IN_DENY[i] == n;
  }

  /** A chunk is a variable exactly if it is text: a nonempty name without an equals sign, an equals sign, and a
      value. Everything else is dropped. */
  lemma ChunkExactly(chunk: seq<byte>, k: string, v: string)
    ensures ParseChunk(chunk) == Some((k, v)) <==>
              k != "" && EQUALS !in Encode(k) && chunk == Encode(k) + [EQUALS] + Encode(v)
  {
    var eq := |Before(chunk, EQUALS)|;
    if ParseChunk(chunk) == Some((k, v)) {
      EncodeDecode(chunk[..eq]);
      EncodeDecode(chunk[eq + 1..]);
      assert chunk == chunk[..eq] + [EQUALS] + chunk[eq + 1..];
    }
    if k != "" && EQUALS !in Encode(k) && chunk == Encode(k) + [EQUALS] + Encode(v) {
      BeforeOfJoined(Encode(k), EQUALS, Encode(v));
      DecodeEncode(k);
      DecodeEncode(v);
      NonemptyEncoding(k);
      assert chunk[..eq] == Encode(k) && chunk[eq + 1..] == Encode(v);
    }
  }

  lemma NonemptyEncoding(k: string)
    ensures k != "" ==> Encode(k) != []
  {
    DecodeEncode(k);
  }
}
