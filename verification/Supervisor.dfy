/** Supervision of MCP servers (mcp_supervisor.rs).

Every operation is one or more sections under a lock, and validation runs between them. A section is a
sequence of small changes, `Change`; `Step` says which sections there are and `Run` interleaves them.
`failure_count` is 32 bits wide and wraps around. */
module Supervisor {
  import opened Text
  import opened Runs

  datatype ConnectionState = Connected | Pending | Failed | Disabled

  datatype Server = Server(
    state: ConnectionState, config: string, enabled: bool, failureCount: nat, lastError: Option<string>)
  {
    function Succeeded(): Server {
      this.(state := Connected, failureCount := 0, lastError := None)
    }

    function FailedWith(error: string): Server {
      this.(state := Failed, failureCount := (failureCount + 1) % (U32_MAX + 1), lastError := Some(error))
    }

    /** A validation result; ignored if the server has been disabled meanwhile. */
    function Validated(error: Option<string>): Server {
      if !enabled then this else if error.Some? then FailedWith(error.value) else Succeeded()
    }

    /** A tool failure counts only against a connected server. */
    function ToolFailed(error: string): Server {
      if state == Connected then FailedWith(error) else this
    }

    function Switched(on: bool): Server {
      if !on then this.(enabled := false, state := Disabled)
      else if state == Disabled then Server(Pending, config, true, 0, None)
      else this.(enabled := true)
    }
  }

  type Servers = map<string, Server>
  type Repos = map<string, Servers>

  // ---------- Changes ----------

  datatype Change =
    | Outcome(repo: string, name: string, error: Option<string>)
    | ToolFailure(repo: string, name: string, failure: string)
    | MarkPending(repo: string, name: string)
    | Switch(repo: string, name: string, on: bool)
    | Supervise(repo: string)
    | Retain(repo: string, names: set<string>)
    | Configure(repo: string, name: string, config: string, setEnabled: Option<bool>)
    | Remove(repo: string)

  predicate Has(repos: Repos, repo: string, name: string) {
    repo in repos && name in repos[repo]
  }

  function Put(repos: Repos, repo: string, name: string, server: Server): Repos
    requires repo in repos
  {
    repos[repo := repos[repo][name := server]]
  }

  /** A new server: enabled unless the caller says otherwise. */
  function NewServer(config: string, setEnabled: Option<bool>): Server {
    if setEnabled == Some(false) then Server(Disabled, config, false, 0, None)
    else Server(Pending, config, true, 0, None)
  }

  /** An existing server keeps its state when it is configured again. */
  function Configured(s: Server, config: string, setEnabled: Option<bool>): Server {
    Server(s.state, config, if setEnabled.Some? then setEnabled.value else s.enabled, s.failureCount, s.lastError)
  }

  /** What a change makes of the server it names. */
  function Changed(s: Server, c: Change): Server {
    match c
    case Outcome(_, _, error) => s.Validated(error)
    case ToolFailure(_, _, failure) => s.ToolFailed(failure)
    case MarkPending(_, _) => s.(state := Pending)
    case Switch(_, _, on) => s.Switched(on)
    case Configure(_, _, config, setEnabled) => Configured(s, config, setEnabled)
    case _ => s
  }

  function Do(repos: Repos, c: Change): Repos {
    match c
    case Supervise(r) => if r in repos then repos else repos[r := map[]]
    case Retain(r, names) =>
      if r in repos then repos[r := map n | n in repos[r] && n in names :: repos[r][n]] else repos
    case Remove(r) => repos - {r}
    case Configure(r, n, config, setEnabled) =>
      if r !in repos then repos
      else if n in repos[r] then Put(repos, r, n, Changed(repos[r][n], c))
      else Put(repos, r, n, NewServer(config, setEnabled))
    case _ =>
      if Has(repos, c.repo, c.name) then Put(repos, c.repo, c.name, Changed(repos[c.repo][c.name], c)) else repos
  }

  function DoAll(repos: Repos, changes: seq<Change>): Repos {
    if changes == [] then repos else Do(DoAll(repos, changes[..|changes| - 1]), changes[|changes| - 1])
  }

  // ---------- History ----------

  /** What is recorded of a server. */
  datatype Event =
    | Inserted(repo: string, name: string, off: bool)
    | Reenabled(repo: string, name: string)
    | SwitchedOff(repo: string, name: string)
    | Marked(repo: string, name: string)
    | Success(repo: string, name: string)
    | Failure(repo: string, name: string, error: string)

  function EventOf(repos: Repos, c: Change): seq<Event> {
    match c
    case Outcome(r, n, error) =>
      if !Has(repos, r, n) || !repos[r][n].enabled then []
      else if error.Some? then [Failure(r, n, error.value)] else [Success(r, n)]
    case ToolFailure(r, n, failure) =>
      if Has(repos, r, n) && repos[r][n].state == Connected then [Failure(r, n, failure)] else []
    case MarkPending(r, n) => if Has(repos, r, n) then [Marked(r, n)] else []
    case Switch(r, n, on) =>
      if !Has(repos, r, n) then []
      else if !on then [SwitchedOff(r, n)]
      else if repos[r][n].state == Disabled then [Reenabled(r, n)] else []
    case Configure(r, n, _, flag) => if r in repos && n !in repos[r] then [Inserted(r, n, flag == Some(false))] else []
    case _ => []
  }

  function EventsOf(repos: Repos, changes: seq<Change>): seq<Event> {
    if changes == [] then []
    else
      var before := changes[..|changes| - 1];
      EventsOf(repos, before) + EventOf(DoAll(repos, before), changes[|changes| - 1])
  }

  predicate Concerns(e: Event, r: string, n: string) {
    e.repo == r && e.name == n
  }

  /** The errors recorded of a server since its last success, re-enabling or insertion. */
  function FailuresSince(log: seq<Event>, r: string, n: string): seq<string> {
    if log == [] then []
    else
      var rest, e := log[..|log| - 1], log[|log| - 1];
      if !Concerns(e, r, n) then FailuresSince(rest, r, n)
      else if e.Failure? then FailuresSince(rest, r, n) + [e.error]
      else if e.Marked? || e.SwitchedOff? then FailuresSince(rest, r, n)
      else []
  }

  /** The latest that is recorded of a server. */
  function Latest(log: seq<Event>, r: string, n: string): (last: Option<Event>)
    ensures last.Some? ==> last.value in log && Concerns(last.value, r, n)
  {
    if log == [] then None
    else if Concerns(log[|log| - 1], r, n) then Some(log[|log| - 1])
    else Latest(log[..|log| - 1], r, n)
  }

  /** The server's fields tell its history: the count of the failures, the last of them, and its state. */
  predicate Tells(s: Server, failures: seq<string>, last: Option<Event>) {
    && s.failureCount == |failures| % (U32_MAX + 1)
    && s.lastError == (if failures == [] then None else Some(failures[|failures| - 1]))
    && (s.state == Connected ==> failures == [])
    && (s.state == Failed ==> failures != [])
    && last.Some? && Shows(s.state, last.value)
  }

  /** A server is failed exactly after a failure, connected exactly after a success, disabled exactly after it was
      switched off or inserted as off, and otherwise pending. */
  predicate Shows(state: ConnectionState, last: Event) {
    && (state == Failed <==> last.Failure?)
    && (state == Connected <==> last.Success?)
    && (state == Disabled <==> last.SwitchedOff? || (last.Inserted? && last.off))
  }

  ghost predicate Inv(repos: Repos, log: seq<Event>) {
    forall r, n :: Has(repos, r, n) ==> Tells(repos[r][n], FailuresSince(log, r, n), Latest(log, r, n))
  }

  lemma SinceEvents(log: seq<Event>, events: seq<Event>, r: string, n: string)
    requires |events| <= 1
    ensures FailuresSince(log + events, r, n)
         == if events == [] || !Concerns(events[0], r, n) || events[0].Marked? || events[0].SwitchedOff?
            then FailuresSince(log, r, n)
            else if events[0].Failure? then FailuresSince(log, r, n) + [events[0].error] else []
    ensures Latest(log + events, r, n)
         == if events == [] || !Concerns(events[0], r, n) then Latest(log, r, n) else Some(events[0])
  {
    if events == [] {
      assert log + events == log;
    } else {
      assert events == [events[0]];
      assert (log + events)[..|log|] == log;
    }
  }

  predicate Names(c: Change, r: string, n: string) {
    !c.Supervise? && !c.Retain? && !c.Remove? && c.repo == r && c.name == n
  }

  /** The change removes the server. */
  predicate Drops(c: Change, r: string, n: string) {
    (c.Remove? && c.repo == r) || (c.Retain? && c.repo == r && n !in c.names)
  }

  /** A change leaves every server alone that it does not name, unless it removes it, and records nothing of it. */
  lemma OthersUnchanged(repos: Repos, c: Change, r: string, n: string)
    requires !Names(c, r, n)
    ensures Has(Do(repos, c), r, n) <==> Has(repos, r, n) && !Drops(c, r, n)
    ensures Has(Do(repos, c), r, n) ==> Do(repos, c)[r][n] == repos[r][n]
    ensures forall e :: e in EventOf(repos, c) ==> !Concerns(e, r, n)
  {
  }

  /** The history of a server after a change that names it. */
  function FailuresAfter(s: Server, c: Change, failures: seq<string>): seq<string> {
    match c
    case Outcome(_, _, error) => if !s.enabled then failures else if error.Some? then failures + [error.value] else []
    case ToolFailure(_, _, failure) => if s.state == Connected then failures + [failure] else failures
    case Switch(_, _, on) => if on && s.state == Disabled then [] else failures
    case _ => failures
  }

  /** The latest event after a change that names the server. */
  function LatestAfter(s: Server, c: Change, r: string, n: string, last: Option<Event>): Option<Event> {
    match c
    case Outcome(_, _, error) =>
      if !s.enabled then last else if error.Some? then Some(Failure(r, n, error.value)) else Some(Success(r, n))
    case ToolFailure(_, _, failure) => if s.state == Connected then Some(Failure(r, n, failure)) else last
    case MarkPending(_, _) => Some(Marked(r, n))
    case Switch(_, _, on) =>
      if !on then Some(SwitchedOff(r, n)) else if s.state == Disabled then Some(Reenabled(r, n)) else last
    case _ => last
  }

  lemma ChangedTells(s: Server, c: Change, r: string, n: string, failures: seq<string>, last: Option<Event>)
    requires Tells(s, failures, last)
    ensures Tells(Changed(s, c), FailuresAfter(s, c, failures), LatestAfter(s, c, r, n, last))
  {
  }

  lemma NamedChange(repos: Repos, c: Change, log: seq<Event>, r: string, n: string)
    requires Names(c, r, n) && Has(repos, r, n)
    ensures Has(Do(repos, c), r, n) && Do(repos, c)[r][n] == Changed(repos[r][n], c)
    ensures FailuresSince(log + EventOf(repos, c), r, n) == FailuresAfter(repos[r][n], c, FailuresSince(log, r, n))
    ensures Latest(log + EventOf(repos, c), r, n) == LatestAfter(repos[r][n], c, r, n, Latest(log, r, n))
  {
    SinceEvents(log, EventOf(repos, c), r, n);
  }

  lemma NewChange(repos: Repos, c: Change, log: seq<Event>, r: string, n: string)
    requires Names(c, r, n) && !Has(repos, r, n) && Has(Do(repos, c), r, n)
    ensures var log' := log + EventOf(repos, c);
            Tells(Do(repos, c)[r][n], FailuresSince(log', r, n), Latest(log', r, n))
  {
    SinceEvents(log, EventOf(repos, c), r, n);
  }

  lemma ChangeKeepsInv(repos: Repos, log: seq<Event>, c: Change)
    requires Inv(repos, log)
    ensures Inv(Do(repos, c), log + EventOf(repos, c))
  {
    var log' := log + EventOf(repos, c);
    forall r, n | Has(Do(repos, c), r, n)
      ensures Tells(Do(repos, c)[r][n], FailuresSince(log', r, n), Latest(log', r, n))
    {
      if !Names(c, r, n) {
        OthersUnchanged(repos, c, r, n);
        SinceEvents(log, EventOf(repos, c), r, n);
      } else if Has(repos, r, n) {
        NamedChange(repos, c, log, r, n);
        ChangedTells(repos[r][n], c, r, n, FailuresSince(log, r, n), Latest(log, r, n));
      } else {
        NewChange(repos, c, log, r, n);
      }
    }
  }

  lemma {:induction false} ChangesKeepInv(repos: Repos, log: seq<Event>, changes: seq<Change>)
    requires Inv(repos, log)
    ensures Inv(DoAll(repos, changes), log + EventsOf(repos, changes))
  {
    if changes == [] {
      assert log + [] == log;
    } else {
      var before := changes[..|changes| - 1];
      ChangesKeepInv(repos, log, before);
      var log' := log + EventsOf(repos, before);
      ChangeKeepsInv(DoAll(repos, before), log', changes[|changes| - 1]);
      assert log + EventsOf(repos, changes) == log' + EventOf(DoAll(repos, before), changes[|changes| - 1]);
    }
  }

  // ---------- The sections, in place ----------

  datatype Incoming = Incoming(name: string, config: string, setEnabled: Option<bool>)

  /** The section of `init_repo`, and of `init_repo_with_enabled`, which also sets the enabled flags. */
  function InitChanges(repo: string, servers: seq<Incoming>): seq<Change> {
    [Supervise(repo), Retain(repo, set s | s in servers :: s.name)] + Configures(repo, servers)
  }

  function Configures(repo: string, servers: seq<Incoming>): (r: seq<Change>)
    ensures |r| == |servers|
  {
    seq(|servers|, i requires 0 <= i < |servers| =>
      Configure(repo, servers[i].name, servers[i].config, servers[i].setEnabled))
  }

  /** The applying section of `validate_servers`. */
  function Outcomes(repo: string, names: seq<string>, errors: seq<Option<string>>): (r: seq<Change>)
    requires |names| == |errors|
    ensures |r| == |names|
  {
    seq(|names|, i requires 0 <= i < |names| => Outcome(repo, names[i], errors[i]))
  }

  lemma DoOneMore(repos: Repos, changes: seq<Change>, i: nat)
    requires i < |changes|
    ensures DoAll(repos, changes[..i + 1]) == Do(DoAll(repos, changes[..i]), changes[i])
  {
    assert changes[..i + 1][..i] == changes[..i];
  }

  lemma {:induction false} DoAllAppend(repos: Repos, a: seq<Change>, b: seq<Change>)
    ensures DoAll(repos, a + b) == DoAll(DoAll(repos, a), b)
  {
    if b == [] {
      assert a + b == a;
    } else {
      var rest := b[..|b| - 1];
      DoAllAppend(repos, a, rest);
      assert (a + b)[..|a + b| - 1] == a + rest;
    }
  }

  // ---------- What initialising a repository leaves ----------

  predicate Listed(servers: seq<Incoming>, k: nat, n: string)
    requires k <= |servers|
  {
    exists i :: 0 <= i < k && servers[i].name == n
  }

  /** The servers there are, when those no longer listed are gone and `k` of the listed ones are entered. */
  ghost predicate Present(before: Servers, after: Servers, servers: seq<Incoming>, k: nat)
    requires k <= |servers|
  {
    forall n :: n in after <==> (n in before && Listed(servers, |servers|, n)) || Listed(servers, k, n)
  }

  /** What the old servers keep, and how new ones start. */
  ghost predicate HistoryKept(before: Servers, after: Servers) {
    && (forall n :: n in after && n in before ==>
          && after[n].state == before[n].state && after[n].failureCount == before[n].failureCount
          && after[n].lastError == before[n].lastError)
    && (forall n :: n in after && n !in before ==>
          && after[n].failureCount == 0 && after[n].lastError == None
          && (after[n].state == Pending || after[n].state == Disabled))
  }

  /** Entry `i` is the last of its name among the first `k`. */
  predicate IsLatest(servers: seq<Incoming>, i: nat, k: nat)
    requires i < k <= |servers|
  {
    forall j :: i < j < k ==> servers[j].name != servers[i].name
  }

  predicate HasConfig(after: Servers, s: Incoming) {
    && s.name in after && after[s.name].config == s.config
    && (s.setEnabled.Some? ==> after[s.name].enabled == s.setEnabled.value)
  }

  /** Each server has the configuration of its last listing. */
  ghost predicate LatestConfig(after: Servers, servers: seq<Incoming>, k: nat)
    requires k <= |servers|
  {
    forall i: nat :: i < k && IsLatest(servers, i, k) ==> HasConfig(after, servers[i])
  }

  /** The last flag given for a name among the first `k` entries. */
  function FlagGiven(servers: seq<Incoming>, k: nat, n: string): Option<bool>
    requires k <= |servers|
  {
    if k == 0 then None
    else if servers[k - 1].name == n && servers[k - 1].setEnabled.Some? then servers[k - 1].setEnabled
    else FlagGiven(servers, k - 1, n)
  }

  /** Each flag is the last one given; without one, an old server keeps its flag and a new one is enabled. */
  ghost predicate FlagsGiven(before: Servers, after: Servers, servers: seq<Incoming>, k: nat)
    requires k <= |servers|
  {
    forall n :: n in after ==>
      after[n].enabled == match FlagGiven(servers, k, n)
                          case Some(b) => b
                          case None => n in before ==> before[n].enabled
  }

  /** Entry `i` is the first of its name. */
  predicate IsFirst(servers: seq<Incoming>, i: nat)
    requires i < |servers|
  {
    forall j :: 0 <= j < i ==> servers[j].name != servers[i].name
  }

  predicate StartsAs(after: Servers, s: Incoming) {
    s.name in after && after[s.name].state == if s.setEnabled == Some(false) then Disabled else Pending
  }

  /** A new server starts Disabled if its first listing says it is off, and Pending otherwise. */
  ghost predicate NewStates(before: Servers, after: Servers, servers: seq<Incoming>, k: nat)
    requires k <= |servers|
  {
    forall i: nat :: i < k && IsFirst(servers, i) && servers[i].name !in before ==> StartsAs(after, servers[i])
  }

  ghost predicate Initialised(before: Servers, after: Servers, servers: seq<Incoming>, k: nat)
    requires k <= |servers|
  {
    && Present(before, after, servers, k) && HistoryKept(before, after) && LatestConfig(after, servers, k)
    && FlagsGiven(before, after, servers, k) && NewStates(before, after, servers, k)
  }

  function WithConfig(after: Servers, s: Incoming): Servers {
    after[s.name := if s.name in after then Configured(after[s.name], s.config, s.setEnabled)
                    else NewServer(s.config, s.setEnabled)]
  }

  lemma ConfigKeepsHistory(before: Servers, after: Servers, s: Incoming)
    requires HistoryKept(before, after) && (s.name in before ==> s.name in after)
    ensures HistoryKept(before, WithConfig(after, s))
  {
  }

  lemma OneMoreConfig(after: Servers, servers: seq<Incoming>, k: nat)
    requires k < |servers| && LatestConfig(after, servers, k)
    ensures LatestConfig(WithConfig(after, servers[k]), servers, k + 1)
  {
    var after' := WithConfig(after, servers[k]);
    forall i: nat | i < k + 1 && IsLatest(servers, i, k + 1)
      ensures HasConfig(after', servers[i])
    {
      if i < k {
        assert IsLatest(servers, i, k);
        assert servers[i].name != servers[k].name;
      }
    }
  }

  lemma OneMoreFlag(before: Servers, after: Servers, servers: seq<Incoming>, k: nat)
    requires k < |servers| && FlagsGiven(before, after, servers, k)
    requires servers[k].name in after || (servers[k].name !in before && FlagGiven(servers, k, servers[k].name) == None)
    ensures FlagsGiven(before, WithConfig(after, servers[k]), servers, k + 1)
  {
  }

  lemma {:induction false} UnlistedHasNoFlag(servers: seq<Incoming>, k: nat, n: string)
    requires k <= |servers| && !Listed(servers, k, n)
    ensures FlagGiven(servers, k, n) == None
  {
    if k > 0 {
      UnlistedHasNoFlag(servers, k - 1, n);
    }
  }

  lemma OneMoreState(before: Servers, after: Servers, servers: seq<Incoming>, k: nat)
    requires k < |servers| && NewStates(before, after, servers, k) && Present(before, after, servers, k)
    ensures NewStates(before, WithConfig(after, servers[k]), servers, k + 1)
  {
    var after' := WithConfig(after, servers[k]);
    forall i: nat | i < k + 1 && IsFirst(servers, i) && servers[i].name !in before
      ensures StartsAs(after', servers[i])
    {
      if i < k {
        assert StartsAs(after, servers[i]);
      } else {
        assert !Listed(servers, k, servers[k].name);
      }
    }
  }

  lemma OneMoreInitialised(before: Servers, after: Servers, servers: seq<Incoming>, k: nat)
    requires k < |servers| && Initialised(before, after, servers, k)
    ensures Initialised(before, WithConfig(after, servers[k]), servers, k + 1)
  {
    assert Listed(servers, |servers|, servers[k].name);
    ConfigKeepsHistory(before, after, servers[k]);
    if servers[k].name !in after {
      UnlistedHasNoFlag(servers, k, servers[k].name);
    }
    OneMoreFlag(before, after, servers, k);
    OneMoreState(before, after, servers, k);
    OneMoreConfig(after, servers, k);
  }

  lemma NoneListed(before: Servers, names: set<string>, servers: seq<Incoming>)
    requires names == set s | s in servers :: s.name
    ensures Initialised(before, map n | n in before && n in names :: before[n], servers, 0)
  {
    forall n
      ensures n in names <==> Listed(servers, |servers|, n)
    {
      if n in names {
        var s :| s in servers && s.name == n;
        var i :| 0 <= i < |servers| && servers[i] == s;
      }
    }
  }

  function ServersOf(repos: Repos, repo: string): Servers {
    if repo in repos then repos[repo] else map[]
  }

  /** The repository is initialised as far as `k`, and no other is touched. */
  ghost predicate InitialisedTo(repos: Repos, after: Repos, repo: string, servers: seq<Incoming>, k: nat)
    requires k <= |servers|
  {
    && repo in after && Initialised(ServersOf(repos, repo), after[repo], servers, k)
    && after - {repo} == repos - {repo}
  }

  lemma InitStart(repos: Repos, repo: string, servers: seq<Incoming>)
    ensures InitialisedTo(repos, DoAll(repos, InitChanges(repo, servers)[..2]), repo, servers, 0)
  {
    var changes := InitChanges(repo, servers);
    assert changes[..0] == [];
    DoOneMore(repos, changes, 0);
    DoOneMore(repos, changes, 1);
    NoneListed(ServersOf(repos, repo), (set s | s in servers :: s.name), servers);
  }

  lemma ConfigureOne(repos: Repos, repo: string, s: Incoming)
    requires repo in repos
    ensures var after := Do(repos, Configure(repo, s.name, s.config, s.setEnabled));
            repo in after && after[repo] == WithConfig(repos[repo], s) && after - {repo} == repos - {repo}
  {
  }

  lemma InitOneMore(repos: Repos, mid: Repos, repo: string, servers: seq<Incoming>, k: nat)
    requires k < |servers|
    ensures InitialisedTo(repos, mid, repo, servers, k)
        ==> InitialisedTo(repos, Do(mid, InitChanges(repo, servers)[k + 2]), repo, servers, k + 1)
  {
    if InitialisedTo(repos, mid, repo, servers, k) {
      ConfigureOne(mid, repo, servers[k]);
      OneMoreInitialised(ServersOf(repos, repo), mid[repo], servers, k);
    }
  }

  lemma InitAlong(repos: Repos, repo: string, servers: seq<Incoming>, h: seq<Repos>, k: nat)
    requires k <= |servers| < |h| && InitialisedTo(repos, h[0], repo, servers, 0)
    requires forall i :: 0 <= i < |servers| ==> h[i + 1] == Do(h[i], InitChanges(repo, servers)[i + 2])
    ensures InitialisedTo(repos, h[k], repo, servers, k)
  {
    var done := (i: nat) => i <= |servers| && InitialisedTo(repos, h[i], repo, servers, i);
    forall i: nat | i < k && done(i)
      ensures done(i + 1)
    {
      InitOneMore(repos, h[i], repo, servers, i);
    }
    Along(done, k);
  }

  lemma InitPrefix(repos: Repos, repo: string, servers: seq<Incoming>, k: nat)
    requires k <= |servers|
    ensures InitialisedTo(repos, DoAll(repos, InitChanges(repo, servers)[..k + 2]), repo, servers, k)
  {
    var changes := InitChanges(repo, servers);
    var h := seq(|servers| + 1, i requires 0 <= i <= |servers| => DoAll(repos, changes[..i + 2]));
    InitStart(repos, repo, servers);
    forall i | 0 <= i < |servers|
      ensures h[i + 1] == Do(h[i], changes[i + 2])
    {
      DoOneMore(repos, changes, i + 2);
    }
    InitAlong(repos, repo, servers, h, k);
  }

  /** Initialising a repository leaves exactly the listed servers, under their latest configuration; those it had
      keep state, failure count and last error, and their flag if none is given; new ones start without failures,
      enabled unless a flag is given, and Disabled exactly if first listed as off; no other repository changes. */
  lemma InitRepoExact(repos: Repos, repo: string, servers: seq<Incoming>)
    ensures var after := DoAll(repos, InitChanges(repo, servers));
            && repo in after && Initialised(ServersOf(repos, repo), after[repo], servers, |servers|)
            && (forall n :: n in after[repo] <==> Listed(servers, |servers|, n))
            && after - {repo} == repos - {repo}
  {
    var changes := InitChanges(repo, servers);
    assert changes[..|servers| + 2] == changes;
    InitPrefix(repos, repo, servers, |servers|);
  }

  class McpSupervisor {
    var repos: Repos

    constructor ()
      ensures repos == map[]
    {
      repos := map[];
    }

    method InitRepo(repo: string, servers: seq<Incoming>)
      modifies this
      ensures repos == DoAll(old(repos), InitChanges(repo, servers))
    {
      var names := set s | s in servers :: s.name;
      EnterRepo(repo, names);
      ConfigureServers(repo, servers);
      DoAllAppend(old(repos), [Supervise(repo), Retain(repo, names)], Configures(repo, servers));
    }

    /** Enter the repository if it is new, and drop its servers that are not listed. */
    method EnterRepo(repo: string, names: set<string>)
      modifies this
      ensures repo in repos && repos == DoAll(old(repos), [Supervise(repo), Retain(repo, names)])
    {
      ghost var changes := [Supervise(repo), Retain(repo, names)];
      assert changes[..0] == [] && changes[..2] == changes;
      DoOneMore(old(repos), changes, 0);
      DoOneMore(old(repos), changes, 1);
      if repo !in repos {
        repos := repos[repo := map[]];
      }
      repos := repos[repo := map n | n in repos[repo] && n in names :: repos[repo][n]];
    }

    method ConfigureServers(repo: string, servers: seq<Incoming>)
      requires repo in repos
      modifies this
      ensures repos == DoAll(old(repos), Configures(repo, servers))
    {
      ghost var changes := Configures(repo, servers);
      for i := 0 to |servers|
        invariant repo in repos
        invariant repos == DoAll(old(repos), changes[..i])
      {
        var server := servers[i];
        DoOneMore(old(repos), changes, i);
        if server.name in repos[repo] {
          var existing := repos[repo][server.name];
          repos := Put(repos, repo, server.name, Configured(existing, server.config, server.setEnabled));
        } else {
          repos := Put(repos, repo, server.name, NewServer(server.config, server.setEnabled));
        }
      }
      assert changes[..|servers|] == changes;
    }

    method ApplyValidation(repo: string, names: seq<string>, errors: seq<Option<string>>)
      requires |names| == |errors|
      modifies this
      ensures repos == DoAll(old(repos), Outcomes(repo, names, errors))
      ensures forall i: nat :: i < |names| && LastOfName(names, i) ==>
                ShowsOutcome(old(repos), repos, repo, names[i], errors[i])
    {
      ghost var changes := Outcomes(repo, names, errors);
      OutcomesShown(repos, repo, names, errors);
      for i := 0 to |names|
        invariant repos == DoAll(old(repos), changes[..i])
      {
        DoOneMore(old(repos), changes, i);
        if Has(repos, repo, names[i]) {
          var server := repos[repo][names[i]];
          if !server.enabled {
            PutSame(repos, repo, names[i]);
            continue;
          }
          if errors[i].None? {
            server := server.(state := Connected, failureCount := 0, lastError := None);
          } else {
            server := server.(state := Failed, failureCount := (server.failureCount + 1) % (U32_MAX + 1),
                              lastError := errors[i]);
          }
          repos := Put(repos, repo, names[i], server);
        }
      }
      assert changes[..|names|] == changes;
    }

    method ReportToolFailure(repo: string, name: string, error: string)
      modifies this
      ensures repos == Do(old(repos), ToolFailure(repo, name, error))
      ensures IsConnected(old(repos), repo, name) ==>
                var s, s' := old(repos)[repo][name], repos[repo][name];
                && s'.state == Failed && s'.lastError == Some(error) && s'.enabled == s.enabled && s'.config == s.config
                && s'.failureCount == (s.failureCount + 1) % 0x1_0000_0000
      ensures !IsConnected(old(repos), repo, name) ==> repos == old(repos)
    {
      if Has(repos, repo, name) {
        PutSame(repos, repo, name);
        var server := repos[repo][name];
        if server.state == Connected {
          repos := Put(repos, repo, name, server.FailedWith(error));
        }
      }
    }

    method SetServerEnabled(repo: string, name: string, enabled: bool)
      modifies this
      ensures repos == Do(old(repos), Switch(repo, name, enabled))
      ensures Has(old(repos), repo, name) ==>
                var s, s' := old(repos)[repo][name], repos[repo][name];
                && s'.enabled == enabled && s'.config == s.config
                && (!enabled ==>
                      s'.state == Disabled && s'.failureCount == s.failureCount && s'.lastError == s.lastError)
                && (enabled && s.state == Disabled ==>
                      s'.state == Pending && s'.failureCount == 0 && s'.lastError == None)
                && (enabled && s.state != Disabled ==> s' == s.(enabled := true))
    {
      if Has(repos, repo, name) {
        var server := repos[repo][name].(enabled := enabled);
        if enabled {
          if server.state == Disabled {
            server := server.(state := Pending, failureCount := 0, lastError := None);
          }
        } else {
          server := server.(state := Disabled);
        }
        repos := Put(repos, repo, name, server);
      }
    }
  }

  predicate LastOfName(names: seq<string>, i: nat)
    requires i < |names|
  {
    forall j :: i < j < |names| ==> names[j] != names[i]
  }

  /** An enabled server shows the outcome of its validation; others stay as they were. */
  predicate ShowsOutcome(repos: Repos, repos': Repos, r: string, n: string, error: Option<string>) {
    Has(repos, r, n) ==>
      && Has(repos', r, n)
      && var s, s' := repos[r][n], repos'[r][n];
         if !s.enabled then s' == s
         else
           && s'.enabled && s'.config == s.config && s'.lastError == error
           && s'.state == (if error.Some? then Failed else Connected)
           && (error.None? ==> s'.failureCount == 0)
  }

  /** Outcomes for other servers leave a server as it is, and any outcomes leave a disabled one. */
  lemma {:induction false} OtherOutcomes(repos: Repos, changes: seq<Change>, r: string, n: string)
    requires forall i :: 0 <= i < |changes| ==> changes[i].Outcome?
    ensures Has(DoAll(repos, changes), r, n) <==> Has(repos, r, n)
    ensures Has(repos, r, n) ==>
              var s, s' := repos[r][n], DoAll(repos, changes)[r][n];
              && s'.enabled == s.enabled && s'.config == s.config
              && (!s.enabled || (forall i :: 0 <= i < |changes| ==> !Names(changes[i], r, n)) ==> s' == s)
  {
    if changes != [] {
      var before, c := changes[..|changes| - 1], changes[|changes| - 1];
      OtherOutcomes(repos, before, r, n);
      if Names(c, r, n) {
        if Has(repos, r, n) {
          NamedChange(DoAll(repos, before), c, [], r, n);
        }
      } else {
        OthersUnchanged(DoAll(repos, before), c, r, n);
      }
    }
  }

  lemma OutcomesShown(repos: Repos, repo: string, names: seq<string>, errors: seq<Option<string>>)
    requires |names| == |errors|
    ensures forall i: nat :: i < |names| && LastOfName(names, i) ==>
              ShowsOutcome(repos, DoAll(repos, Outcomes(repo, names, errors)), repo, names[i], errors[i])
  {
    var changes := Outcomes(repo, names, errors);
    forall i: nat | i < |names| && LastOfName(names, i)
      ensures ShowsOutcome(repos, DoAll(repos, changes), repo, names[i], errors[i])
    {
      var before, after := changes[..i], changes[i + 1..];
      assert changes == changes[..i + 1] + after;
      DoAllAppend(repos, changes[..i + 1], after);
      DoOneMore(repos, changes, i);
      OneOutcomeShown(repos, before, changes[i], after, repo, names[i], errors[i]);
    }
  }

  lemma OneOutcomeShown(repos: Repos, before: seq<Change>, c: Change, after: seq<Change>, r: string, n: string,
                        error: Option<string>)
    requires c == Outcome(r, n, error)
    requires forall i :: 0 <= i < |before| ==> before[i].Outcome?
    requires forall i :: 0 <= i < |after| ==> after[i].Outcome? && !Names(after[i], r, n)
    ensures ShowsOutcome(repos, DoAll(Do(DoAll(repos, before), c), after), r, n, error)
  {
    var mid := DoAll(repos, before);
    OtherOutcomes(repos, before, r, n);
    OtherOutcomes(Do(mid, c), after, r, n);
    if Has(repos, r, n) {
      NamedChange(mid, c, [], r, n);
    }
  }

  lemma PutSame(repos: Repos, repo: string, name: string)
    requires Has(repos, repo, name)
    ensures Put(repos, repo, name, repos[repo][name]) == repos
  {
    assert repos[repo][name := repos[repo][name]] == repos[repo];
  }

  // ---------- Interleavings ----------

  /** A validation that runs without a lock. */
  datatype Flight =
    | Validating(repo: string, names: seq<string>)
    | Reconnecting(repo: string, name: string, marked: bool)

  datatype State = State(repos: Repos, flights: map<nat, Flight>, log: seq<Event>)

  const INITIAL := State(map[], map[], [])

  datatype Step =
    | Init(repo: string, servers: seq<Incoming>)
    | RemoveRepo(repo: string)
    | StartValidate(id: nat, repo: string, names: seq<string>)
    | FinishValidate(id: nat, errors: seq<Option<string>>)
    | ReportFailure(repo: string, name: string, failure: string)
    | StartReconnect(id: nat, repo: string, name: string)
    | MarkReconnecting(id: nat)
    | FinishReconnect(id: nat, error: Option<string>)
    | SetEnabled(repo: string, name: string, on: bool)

  ghost predicate Enabled(s: State, step: Step) {
    match step
    case StartValidate(id, repo, names) =>
      id !in s.flights && repo in s.repos && forall n :: n in names <==> n in s.repos[repo] && s.repos[repo][n].enabled
    case FinishValidate(id, errors) =>
      id in s.flights && s.flights[id].Validating? && |errors| == |s.flights[id].names|
    case StartReconnect(id, repo, name) => id !in s.flights && Has(s.repos, repo, name) && s.repos[repo][name].enabled
    case MarkReconnecting(id) => id in s.flights && s.flights[id].Reconnecting? && !s.flights[id].marked
    case FinishReconnect(id, _) => id in s.flights && s.flights[id].Reconnecting? && s.flights[id].marked
    case _ => true
  }

  /** The changes of the section a step runs. */
  ghost function ChangesOf(s: State, step: Step): seq<Change>
    requires Enabled(s, step)
  {
    match step
    case Init(repo, servers) => InitChanges(repo, servers)
    case RemoveRepo(repo) => [Remove(repo)]
    case FinishValidate(id, errors) => Outcomes(s.flights[id].repo, s.flights[id].names, errors)
    case ReportFailure(repo, name, failure) => [ToolFailure(repo, name, failure)]
    case MarkReconnecting(id) => [MarkPending(s.flights[id].repo, s.flights[id].name)]
    case FinishReconnect(id, error) => [Outcome(s.flights[id].repo, s.flights[id].name, error)]
    case SetEnabled(repo, name, on) => [Switch(repo, name, on)]
    case _ => []
  }

  ghost function FlightsAfter(s: State, step: Step): map<nat, Flight>
    requires Enabled(s, step)
  {
    match step
    case StartValidate(id, repo, names) => s.flights[id := Validating(repo, names)]
    case StartReconnect(id, repo, name) => s.flights[id := Reconnecting(repo, name, false)]
    case MarkReconnecting(id) => s.flights[id := s.flights[id].(marked := true)]
    case FinishValidate(id, _) => s.flights - {id}
    case FinishReconnect(id, _) => s.flights - {id}
    case _ => s.flights
  }

  ghost function Apply(s: State, step: Step): State
    requires Enabled(s, step)
  {
    var changes := ChangesOf(s, step);
    State(DoAll(s.repos, changes), FlightsAfter(s, step), s.log + EventsOf(s.repos, changes))
  }

  ghost predicate Next(s: State, step: Step, s': State) {
    Enabled(s, step) && s' == Apply(s, step)
  }

  ghost predicate Run(states: seq<State>, steps: seq<Step>) {
    IsRun(INITIAL, Next, states, steps)
  }

  /** Some run ends in the state. */
  ghost predicate Reachable(s: State) {
    Reaches<State, Step>(INITIAL, Next, s)
  }

  /** In every run, with any validations in flight, each server's failure count, last error and state tell
      the failures recorded since its last success, re-enabling or insertion. */
  lemma {:induction false} EveryRunTellsHistory(states: seq<State>, steps: seq<Step>, i: nat)
    requires Run(states, steps) && i <= |steps|
    ensures Inv(states[i].repos, states[i].log)
  {
    if i > 0 {
      assert Next(states[i - 1], steps[i - 1], states[i]);
      EveryRunTellsHistory(states, steps, i - 1);
      ChangesKeepInv(states[i - 1].repos, states[i - 1].log, ChangesOf(states[i - 1], steps[i - 1]));
    }
  }

  /** So the count is zero exactly when there is no error to show, unless it has just wrapped around; a
      connected server has neither, and a failed one has an error. */
  lemma CountAndErrorAgree(states: seq<State>, steps: seq<Step>, i: nat, r: string, n: string)
    requires Run(states, steps) && i <= |steps| && Has(states[i].repos, r, n)
    ensures var s, failures := states[i].repos[r][n], |FailuresSince(states[i].log, r, n)|;
            && ((s.failureCount == 0 <==> s.lastError == None) <==> (failures == 0 || failures % (U32_MAX + 1) != 0))
            && (s.state == Connected ==> s.failureCount == 0 && s.lastError == None)
            && (s.state == Failed ==> s.lastError.Some? && (failures <= U32_MAX ==> s.failureCount > 0))
  {
    EveryRunTellsHistory(states, steps, i);
  }

  /** In every run the state of a server is what the latest recorded event says. */
  lemma EveryRunShowsLatest(states: seq<State>, steps: seq<Step>, i: nat, r: string, n: string)
    requires Run(states, steps) && i <= |steps| && Has(states[i].repos, r, n)
    ensures var last := Latest(states[i].log, r, n); last.Some? && Shows(states[i].repos[r][n].state, last.value)
  {
    EveryRunTellsHistory(states, steps, i);
  }

  /** What the sections of a validation and of a reconnection leave to see: a reconnection first marks the server
      as pending, whether it is enabled or not, and both end with their outcomes. */
  lemma FlightsShow(s: State, step: Step)
    requires Enabled(s, step)
    ensures step.FinishReconnect? ==>
              ShowsOutcome(s.repos, Apply(s, step).repos, s.flights[step.id].repo, s.flights[step.id].name, step.error)
    ensures step.FinishValidate? ==> forall i: nat :: i < |step.errors| && LastOfName(s.flights[step.id].names, i) ==>
              ShowsOutcome(s.repos, Apply(s, step).repos, s.flights[step.id].repo, s.flights[step.id].names[i],
                           step.errors[i])
    ensures step.MarkReconnecting? ==>
              var r, n := s.flights[step.id].repo, s.flights[step.id].name;
              Has(s.repos, r, n) ==>
                Has(Apply(s, step).repos, r, n) && Apply(s, step).repos[r][n] == s.repos[r][n].(state := Pending)
  {
    if step.FinishReconnect? {
      var r, n := s.flights[step.id].repo, s.flights[step.id].name;
      assert Outcomes(r, [n], [step.error]) == [Outcome(r, n, step.error)];
      OutcomesShown(s.repos, r, [n], [step.error]);
      assert LastOfName([n], 0);
    } else if step.FinishValidate? {
      OutcomesShown(s.repos, s.flights[step.id].repo, s.flights[step.id].names, step.errors);
    } else if step.MarkReconnecting? {
      var r, n := s.flights[step.id].repo, s.flights[step.id].name;
      assert [MarkPending(r, n)][..0] == [];
      if Has(s.repos, r, n) {
        NamedChange(s.repos, MarkPending(r, n), [], r, n);
      }
    }
  }

  // ---------- Disabled servers do not connect ----------

  predicate IsConnected(repos: Repos, r: string, n: string) {
    Has(repos, r, n) && repos[r][n].state == Connected
  }

  predicate IsEnabled(repos: Repos, r: string, n: string) {
    Has(repos, r, n) && repos[r][n].enabled
  }

  /** Without validation outcomes, nothing becomes connected. */
  lemma {:induction false} NoOutcomeNoConnection(repos: Repos, changes: seq<Change>, r: string, n: string)
    requires forall i :: 0 <= i < |changes| ==> !changes[i].Outcome?
    ensures IsConnected(DoAll(repos, changes), r, n) ==> IsConnected(repos, r, n)
  {
    if changes != [] {
      NoOutcomeNoConnection(repos, changes[..|changes| - 1], r, n);
      ChangeConnects(DoAll(repos, changes[..|changes| - 1]), changes[|changes| - 1], r, n);
    }
  }

  lemma ChangeConnects(repos: Repos, c: Change, r: string, n: string)
    ensures IsConnected(Do(repos, c), r, n) && !IsConnected(repos, r, n) ==>
              c.Outcome? && IsEnabled(repos, r, n) && IsEnabled(Do(repos, c), r, n)
    ensures c.Outcome? ==> (IsEnabled(Do(repos, c), r, n) <==> IsEnabled(repos, r, n))
  {
    if Names(c, r, n) {
      if Has(repos, r, n) {
        NamedChange(repos, c, [], r, n);
      }
    } else {
      OthersUnchanged(repos, c, r, n);
    }
  }

  /** Outcomes connect enabled servers only, and change no enabled flag. */
  lemma {:induction false} OutcomesConnectEnabled(repos: Repos, changes: seq<Change>, r: string, n: string)
    requires forall i :: 0 <= i < |changes| ==> changes[i].Outcome?
    ensures IsEnabled(DoAll(repos, changes), r, n) <==> IsEnabled(repos, r, n)
    ensures IsConnected(DoAll(repos, changes), r, n) && !IsConnected(repos, r, n) ==> IsEnabled(repos, r, n)
  {
    if changes != [] {
      OutcomesConnectEnabled(repos, changes[..|changes| - 1], r, n);
      ChangeConnects(DoAll(repos, changes[..|changes| - 1]), changes[|changes| - 1], r, n);
    }
  }

  /** No step of any run makes a disabled server connected: a server that becomes connected is enabled before
      and after. */
  lemma OnlyEnabledServersConnect(states: seq<State>, steps: seq<Step>, i: nat, r: string, n: string)
    requires Run(states, steps) && i < |steps|
    requires IsConnected(states[i + 1].repos, r, n) && !IsConnected(states[i].repos, r, n)
    ensures IsEnabled(states[i].repos, r, n) && IsEnabled(states[i + 1].repos, r, n)
    ensures steps[i].FinishValidate? || steps[i].FinishReconnect?
  {
    var s, step := states[i], steps[i];
    var changes := ChangesOf(s, step);
    if step.FinishValidate? || step.FinishReconnect? {
      OutcomesConnectEnabled(s.repos, changes, r, n);
    } else {
      NoOutcomeNoConnection(s.repos, changes, r, n);
    }
  }
}
