/** When the enabled flag and the Disabled state of a server agree (mcp_supervisor.rs), and runs that show what
cannot be relied on. */
module SupervisorRuns {
  import opened Text
  import opened Runs
  import opened Supervisor

  predicate Agrees(s: Server) {
    s.state == Disabled <==> !s.enabled
  }

  /** Two changes part a flag and a state that agree, and no other: configuring the opposite flag, and marking
      a disabled server as reconnecting. */
  lemma AgreementStep(s: Server, c: Change)
    requires Agrees(s)
    ensures Agrees(Changed(s, c)) <==>
              !(c.Configure? && c.setEnabled == Some(!s.enabled)) && !(c.MarkPending? && !s.enabled)
  {
  }

  // ---------- Histories of changes ----------

  /** The repositories after each of the changes, and before the first. */
  ghost predicate History(h: seq<Repos>, changes: seq<Change>) {
    IsRun(map[], Did, h, changes)
  }

  ghost predicate Did(repos: Repos, c: Change, repos': Repos) {
    repos' == Do(repos, c)
  }

  /** More changes make a longer history. */
  lemma {:induction false} HistoryGoesOn(h: seq<Repos>, a: seq<Change>, b: seq<Change>) returns (h': seq<Repos>)
    requires History(h, a)
    ensures History(h', a + b) && h'[|a + b|] == DoAll(h[|a|], b)
  {
    if b == [] {
      assert a + b == a;
      h' := h;
    } else {
      var rest, c := b[..|b| - 1], b[|b| - 1];
      h' := HistoryGoesOn(h, a, rest);
      RunGoesOn(map[], Did, h', a + rest, c, Do(h'[|a + rest|], c));
      h' := h' + [Do(h'[|a + rest|], c)];
      assert a + rest + [c] == a + b;
    }
  }

  /** The change inserts the server, or switches it on or off. */
  predicate Settles(repos: Repos, c: Change, r: string, n: string) {
    Names(c, r, n) && if Has(repos, r, n) then c.Switch? else Has(Do(repos, c), r, n)
  }

  /** The change takes the server out of the Disabled state without switching it on. */
  predicate Opens(repos: Repos, c: Change, r: string, n: string) {
    Names(c, r, n) && Has(repos, r, n) && (c.MarkPending? || (c.Outcome? && repos[r][n].enabled))
  }

  /** Change `j` is the last before `m` that settles the server. */
  predicate SettledAt(h: seq<Repos>, changes: seq<Change>, j: nat, m: nat, r: string, n: string)
    requires j < m <= |changes| < |h|
  {
    && Settles(h[j], changes[j], r, n)
    && forall k: nat :: j < k < m ==> !Settles(h[k], changes[k], r, n)
  }

  predicate Opened(h: seq<Repos>, changes: seq<Change>, j: nat, m: nat, r: string, n: string)
    requires j < m <= |changes| < |h|
  {
    exists k: nat :: j < k < m && Opens(h[k], changes[k], r, n)
  }

  /** The last flag that configurations between `j` and `m` give. */
  function FlagSince(changes: seq<Change>, j: nat, m: nat, r: string, n: string): Option<bool>
    requires j < m <= |changes|
  {
    if m == j + 1 then None else FlagAfter(FlagSince(changes, j, m - 1, r, n), changes[m - 1], r, n)
  }

  function FlagAfter(given: Option<bool>, c: Change, r: string, n: string): Option<bool> {
    if Names(c, r, n) && c.Configure? && c.setEnabled.Some? then c.setEnabled else given
  }

  /** Every server has been settled once. */
  lemma {:induction false} LastSettled(h: seq<Repos>, changes: seq<Change>, m: nat, r: string, n: string)
    returns (j: nat)
    requires History(h, changes) && m <= |changes| && Has(h[m], r, n)
    ensures j < m && SettledAt(h, changes, j, m, r, n)
  {
    assert m > 0;
    j := m - 1;
    assert Did(h[j], changes[j], h[m]);
    if !Settles(h[j], changes[j], r, n) {
      j := LastSettled(h, changes, m - 1, r, n);
    }
  }

  /** State and flag since the server was last settled, when it was enabled or not. */
  predicate Settled(s: Server, was: bool, left: bool, given: Option<bool>) {
    && (s.state == Disabled <==> !was && !left)
    && s.enabled == if given.Some? then given.value else was
  }

  lemma SettledStep(repos: Repos, c: Change, repos': Repos, r: string, n: string, was: bool, left: bool,
                    given: Option<bool>)
    ensures Did(repos, c, repos') && Has(repos', r, n) && !Settles(repos, c, r, n)
        ==> Has(repos, r, n)
            && (Settled(repos[r][n], was, left, given)
                ==> Settled(repos'[r][n], was, left || Opens(repos, c, r, n), FlagAfter(given, c, r, n)))
  {
  }

  predicate SettledSince(h: seq<Repos>, changes: seq<Change>, j: nat, m: nat, r: string, n: string)
    requires j < m <= |changes| < |h|
  {
    && Has(h[j + 1], r, n) && Has(h[m], r, n)
    && Settled(h[m][r][n], h[j + 1][r][n].enabled, Opened(h, changes, j, m, r, n), FlagSince(changes, j, m, r, n))
  }

  lemma SettledSinceStep(h: seq<Repos>, changes: seq<Change>, j: nat, m: nat, r: string, n: string)
    requires History(h, changes) && j < m < |changes|
    ensures SettledAt(h, changes, j, m + 1, r, n) && Has(h[m + 1], r, n) ==>
              && SettledAt(h, changes, j, m, r, n) && Has(h[m], r, n)
              && (SettledSince(h, changes, j, m, r, n) ==> SettledSince(h, changes, j, m + 1, r, n))
  {
    var was := Has(h[j + 1], r, n) && h[j + 1][r][n].enabled;
    SettledStep(h[m], changes[m], h[m + 1], r, n, was, Opened(h, changes, j, m, r, n), FlagSince(changes, j, m, r, n));
  }

  lemma SettledSinceStart(h: seq<Repos>, changes: seq<Change>, j: nat, r: string, n: string)
    requires History(h, changes) && j < |changes|
    ensures SettledAt(h, changes, j, j + 1, r, n) ==> SettledSince(h, changes, j, j + 1, r, n)
  {
  }

  lemma {:induction false} SinceSettled(h: seq<Repos>, changes: seq<Change>, j: nat, m: nat, r: string, n: string)
    requires History(h, changes) && j < m <= |changes|
    ensures SettledAt(h, changes, j, m, r, n) && Has(h[m], r, n) ==> SettledSince(h, changes, j, m, r, n)
  {
    if m == j + 1 {
      SettledSinceStart(h, changes, j, r, n);
    } else {
      SinceSettled(h, changes, j, m - 1, r, n);
      SettledSinceStep(h, changes, j, m - 1, r, n);
    }
  }

  // ---------- Runs ----------

  ghost function StepChanges(s: State, step: Step): seq<Change> {
    if Enabled(s, step) then ChangesOf(s, step) else []
  }

  function Flat(parts: seq<seq<Change>>): seq<Change> {
    if parts == [] then [] else Flat(parts[..|parts| - 1]) + parts[|parts| - 1]
  }

  /** All changes that the first `i` steps make. */
  ghost function ChangesSoFar(states: seq<State>, steps: seq<Step>, i: nat): seq<Change>
    requires i <= |steps| < |states|
  {
    Flat(seq(i, k requires 0 <= k < i => StepChanges(states[k], steps[k])))
  }

  /** Changes made in parts make a history of them all. */
  lemma {:induction false} HistoryOfParts(repos: seq<Repos>, parts: seq<seq<Change>>) returns (h: seq<Repos>)
    requires |repos| == |parts| + 1 && repos[0] == map[]
    requires forall k :: 0 <= k < |parts| ==> repos[k + 1] == DoAll(repos[k], parts[k])
    ensures History(h, Flat(parts)) && h[|Flat(parts)|] == repos[|parts|]
    decreases |parts|
  {
    if parts == [] {
      h := [map[]];
    } else {
      var m := |parts| - 1;
      h := HistoryOfParts(repos[..m + 1], parts[..m]);
      h := HistoryGoesOn(h, Flat(parts[..m]), parts[m]);
    }
  }

  lemma RunHistory(states: seq<State>, steps: seq<Step>, i: nat) returns (h: seq<Repos>)
    requires Run(states, steps) && i <= |steps|
    ensures var changes := ChangesSoFar(states, steps, i);
            History(h, changes) && h[|changes|] == states[i].repos
  {
    var parts := seq(i, k requires 0 <= k < i => StepChanges(states[k], steps[k]));
    var repos := seq(i + 1, k requires 0 <= k <= i => states[k].repos);
    forall k | 0 <= k < i
      ensures repos[k + 1] == DoAll(repos[k], parts[k])
    {
    }
    h := HistoryOfParts(repos, parts);
  }

  /** In every run, flag and state of a server agree if and only if, since it was last inserted or switched, the
      flag it has been given matches whether it is out of the Disabled state: because it was enabled then, or
      because it has been marked as reconnecting or has had a validation applied. */
  lemma EveryRunAgreesExactly(states: seq<State>, steps: seq<Step>, i: nat, r: string, n: string)
    returns (h: seq<Repos>, j: nat)
    requires Run(states, steps) && i <= |steps| && Has(states[i].repos, r, n)
    ensures var changes := ChangesSoFar(states, steps, i);
            && History(h, changes) && h[|changes|] == states[i].repos
            && j < |changes| && SettledAt(h, changes, j, |changes|, r, n) && Has(h[j + 1], r, n)
            && var was, given := h[j + 1][r][n].enabled, FlagSince(changes, j, |changes|, r, n);
               Agrees(states[i].repos[r][n]) <==>
                 ((if given.Some? then given.value else was) <==> was || Opened(h, changes, j, |changes|, r, n))
  {
    var changes := ChangesSoFar(states, steps, i);
    h := RunHistory(states, steps, i);
    j := LastSettled(h, changes, |changes|, r, n);
    SinceSettled(h, changes, j, |changes|, r, n);
  }

  // ---------- Runs that show what cannot be relied on ----------

  lemma Extend(s: State, step: Step) returns (s': State)
    requires Reachable(s) && Enabled(s, step)
    ensures s' == Apply(s, step) && Reachable(s')
  {
    s' := Apply(s, step);
    ReachesNext(INITIAL, Next, s, step, s');
  }

  /** One supervised server and nothing else. */
  ghost predicate Only(s: State, server: Server, flights: map<nat, Flight>) {
    s.repos == map["r" := map["n" := server]] && s.flights == flights
  }

  lemma MapOfOne<V>(m: map<string, V>, k: string)
    requires k in m && m - {k} == map[]
    ensures m == map[k := m[k]]
  {
    assert forall x :: x in m && x != k ==> x in m - {k};
  }

  /** Listing the one server again, or for the first time. */
  lemma InitOne(s: State, flag: Option<bool>) returns (s': State)
    requires Reachable(s) && (s.repos == map[] || exists server :: Only(s, server, s.flights))
    ensures Reachable(s') && "r" in s'.repos && "n" in s'.repos["r"]
    ensures var server := s'.repos["r"]["n"];
            && Only(s', server, s.flights)
            && (s.repos == map[] ==> server == NewServer("c", flag))
            && (s.repos != map[] ==> server == Configured(s.repos["r"]["n"], "c", flag))
  {
    var servers := [Incoming("n", "c", flag)];
    s' := Extend(s, Init("r", servers));
    assert s.repos - {"r"} == map[];
    OneServer(s.repos, flag);
    MapOfOne(s'.repos, "r");
  }

  lemma OneServer(repos: Repos, flag: Option<bool>)
    requires repos != map[] ==> "r" in repos && repos["r"].Keys == {"n"}
    requires repos - {"r"} == map[]
    ensures var after := DoAll(repos, InitChanges("r", [Incoming("n", "c", flag)]));
            && "r" in after && after - {"r"} == map[]
            && after["r"] == map["n" := if repos == map[] then NewServer("c", flag)
                                        else Configured(repos["r"]["n"], "c", flag)]
  {
    var servers := [Incoming("n", "c", flag)];
    InitRepoExact(repos, "r", servers);
    var after := DoAll(repos, InitChanges("r", servers));
    forall n
      ensures n in after["r"] <==> n == "n"
    {
    }
    assert IsFirst(servers, 0) && IsLatest(servers, 0, 1);
    assert HasConfig(after["r"], servers[0]);
    assert FlagGiven(servers, 0, "n") == None;
    assert FlagGiven(servers, 1, "n") == flag;
    assert after["r"] - {"n"} == map[];
    MapOfOne(after["r"], "n");
  }

  lemma DoOne(server: Server, c: Change)
    requires Names(c, "r", "n")
    ensures DoAll(map["r" := map["n" := server]], [c]) == map["r" := map["n" := Changed(server, c)]]
  {
    var repos: Repos := map["r" := map["n" := server]];
    assert repos["r"]["n" := Changed(server, c)] == map["n" := Changed(server, c)];
  }

  /** A step that makes one change to the one server. */
  lemma ChangeOne(s: State, server: Server, step: Step, c: Change) returns (s': State)
    requires Reachable(s) && Only(s, server, s.flights) && Enabled(s, step)
    requires Names(c, "r", "n") && ChangesOf(s, step) == [c]
    ensures Reachable(s') && Only(s', Changed(server, c), FlightsAfter(s, step))
  {
    s' := Extend(s, step);
    DoOne(server, c);
  }

  /** A step that only notes what is in flight. */
  lemma LaunchOne(s: State, server: Server, step: Step) returns (s': State)
    requires Reachable(s) && Only(s, server, s.flights) && Enabled(s, step) && ChangesOf(s, step) == []
    ensures Reachable(s') && Only(s', server, FlightsAfter(s, step))
  {
    s' := Extend(s, step);
  }

  /** A validation from start to end. */
  lemma ValidateOne(s: State, server: Server, error: Option<string>) returns (s': State)
    requires Reachable(s) && Only(s, server, map[]) && server.enabled
    ensures Reachable(s') && Only(s', server.Validated(error), map[])
  {
    s' := LaunchOne(s, server, StartValidate(0, "r", ["n"]));
    assert s'.flights == map[0 := Validating("r", ["n"])];
    assert Outcomes("r", ["n"], [error]) == [Outcome("r", "n", error)];
    s' := ChangeOne(s', server, FinishValidate(0, [error]), Outcome("r", "n", error));
  }

  lemma FirstServer(flag: Option<bool>) returns (s: State)
    ensures Reachable(s) && Only(s, NewServer("c", flag), map[])
  {
    ReachesInit<State, Step>(INITIAL, Next);
    s := InitOne(INITIAL, flag);
  }

  /** A connected server whose flag is off: it was configured off after it connected. */
  lemma ConnectedButOff() returns (s: State, server: Server)
    ensures Reachable(s) && Only(s, server, map[]) && server.state == Connected && !server.enabled
  {
    s := FirstServer(None);
    s := ValidateOne(s, NewServer("c", None), None);
    server := Configured(NewServer("c", None).Validated(None), "c", Some(false));
    s := InitOne(s, Some(false));
  }

  /** A server in state Disabled whose flag is on: it was configured off first and then on. */
  lemma DisabledButOn() returns (s: State, server: Server)
    ensures Reachable(s) && Only(s, server, map[]) && server.state == Disabled && server.enabled
  {
    s := FirstServer(Some(false));
    server := Configured(NewServer("c", Some(false)), "c", Some(true));
    s := InitOne(s, Some(true));
  }

  /** A pending server whose flag is off: it was switched off between the two first sections of a reconnection. */
  lemma PendingButOff() returns (s: State, server: Server)
    ensures Reachable(s) && Only(s, server, s.flights) && server.state == Pending && !server.enabled
  {
    server := NewServer("c", None);
    s := FirstServer(None);
    s := LaunchOne(s, server, StartReconnect(0, "r", "n"));
    assert s.flights == map[0 := Reconnecting("r", "n", false)];
    s := ChangeOne(s, server, SetEnabled("r", "n", false), Switch("r", "n", false));
    server := server.Switched(false);
    s := ChangeOne(s, server, MarkReconnecting(0), MarkPending("r", "n"));
    server := Changed(server, MarkPending("r", "n"));
  }

  /** `n` failed validations in a row. */
  lemma {:induction false} FailTimes(n: nat) returns (s: State, server: Server)
    ensures Reachable(s) && Only(s, server, map[]) && server.enabled
    ensures server.failureCount == n % (U32_MAX + 1) && (n > 0 ==> server.lastError == Some("e"))
  {
    if n == 0 {
      server := NewServer("c", None);
      s := FirstServer(None);
    } else {
      s, server := FailTimes(n - 1);
      s := ValidateOne(s, server, Some("e"));
      server := server.Validated(Some("e"));
    }
  }

  /** After 2^32 failures in a row the count is zero again, with an error to show. */
  lemma CountWrapsToZero() returns (s: State, server: Server)
    ensures Reachable(s) && Only(s, server, map[])
    ensures server.failureCount == 0 && server.lastError == Some("e")
  {
    s, server := FailTimes(U32_MAX + 1);
  }
}
