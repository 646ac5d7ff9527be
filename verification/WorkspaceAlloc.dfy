/** Choosing a free workspace name (workspace_alloc.rs).

The file system is what exists and what canonicalises to what; git's branches and worktrees are listings
that may fail. Paths are Unix paths in text form. */
module WorkspaceAlloc {
  import opened Text
  import opened Collections

  datatype Workspace = Workspace(
    repositoryId: string, name: string, branchName: string, worktreePath: Option<string>)

  datatype WorkspaceAllocation = WorkspaceAllocation(name: string, branchName: string, worktreePath: string)

  datatype AllocationResult = Allocated(value: WorkspaceAllocation) | GitError(error: string) | Exhausted

  datatype Listing = Listed(items: seq<string>) | Failed(error: string)

  /** The existing paths, and the canonical form of those that can be resolved. */
  datatype Disk = Disk(entries: set<string>, canonical: map<string, string>) {
    /** Only an existing path has a canonical form. */
    ghost predicate Valid() {
      canonical.Keys <= entries
    }
  }

  const MAX_ALLOCATION_ATTEMPTS: nat := 10_000

  predicate IsNameChar(c: char) {
    'a' <= c <= 'z' || 'A' <= c <= 'Z' || '0' <= c <= '9' || c == '-'
  }

  predicate IsValidWorkspaceName(name: string) {
    && name != []
    && (forall i :: 0 <= i < |name| ==> IsNameChar(name[i]))
    && name[0] != '-' && name[|name| - 1] != '-'
  }

  function PathKey(disk: Disk, path: string): string {
    if path in disk.canonical then disk.canonical[path] else path
  }

  /** `Path::join`: an absolute second part replaces the first. */
  function Join(base: string, part: string): string {
    if part != [] && part[0] == '/' then part
    else if base == [] || base[|base| - 1] == '/' then base + part
    else base + "/" + part
  }

  function Candidate(requested: string, attempt: nat): string {
    if attempt == 0 then requested else requested + "-" + Decimal(attempt + 1)
  }

  /** Everything one allocation looks at. */
  datatype Request = Request(
    repositoryId: string, workspaces: seq<Workspace>, requested: string, branchPrefix: string, directory: string,
    disk: Disk, gitBranches: seq<string>, gitWorktrees: seq<string>)
  {
    function Mine(): seq<Workspace> {
      Filtered(workspaces, repositoryId)
    }

    function Names(): set<string> {
      set w | w in Mine() :: w.name
    }

    function Branches(): set<string> {
      set w | w in Mine() :: w.branchName
    }

    function PathKeys(): set<string> {
      set w | w in Mine() && w.worktreePath.Some? :: PathKey(disk, w.worktreePath.value)
    }

    function GitWorktreeKeys(): set<string> {
      set p | p in gitWorktrees :: PathKey(disk, p)
    }

    function Allocation(attempt: nat): WorkspaceAllocation {
      var name := Candidate(requested, attempt);
      WorkspaceAllocation(name, branchPrefix + name, Join(directory, name))
    }

    predicate Blocked(attempt: nat) {
      var a := Allocation(attempt);
      || a.name in Names() || a.branchName in Branches() || PathKey(disk, a.worktreePath) in PathKeys()
      || a.branchName in gitBranches || PathKey(disk, a.worktreePath) in GitWorktreeKeys()
      || a.worktreePath in disk.entries
    }
  }

  function Filtered(workspaces: seq<Workspace>, repositoryId: string): (r: seq<Workspace>)
    ensures forall w :: w in r <==> w in workspaces && w.repositoryId == repositoryId
  {
    if workspaces == [] then []
    else (if workspaces[0].repositoryId == repositoryId then [workspaces[0]] else [])
         + Filtered(workspaces[1..], repositoryId)
  }

  /** The first attempt from `i` on that nothing blocks. */
  function FirstFree(q: Request, i: nat): (r: Option<nat>)
    ensures r.Some? ==> i <= r.value < MAX_ALLOCATION_ATTEMPTS && !q.Blocked(r.value)
                        && forall j :: i <= j < r.value ==> q.Blocked(j)
    ensures r.None? ==> forall j :: i <= j < MAX_ALLOCATION_ATTEMPTS ==> q.Blocked(j)
    decreases MAX_ALLOCATION_ATTEMPTS - i
  {
    if i >= MAX_ALLOCATION_ATTEMPTS then None
    else if q.Blocked(i) then FirstFree(q, i + 1)
    else Some(i)
  }

  function Outcome(q: Request): AllocationResult {
    match FirstFree(q, 0)
    case Some(i) => Allocated(q.Allocation(i))
    case None => Exhausted
  }

  method AllocateWorkspaceName(
    repositoryId: string, pathSlug: string, workspaces: seq<Workspace>, requested: string, branchPrefix: string,
    worktreeBase: string, disk: Disk, gitBranches: Listing, gitWorktrees: Listing) returns (r: AllocationResult)
    requires disk.Valid()
    ensures gitBranches.Failed? ==> r == GitError(gitBranches.error)
    ensures gitBranches.Listed? && gitWorktrees.Failed? ==> r == GitError(gitWorktrees.error)
    ensures gitBranches.Listed? && gitWorktrees.Listed? ==>
              var q := Request(repositoryId, workspaces, requested, branchPrefix, Join(worktreeBase, pathSlug), disk,
                               gitBranches.items, gitWorktrees.items);
              && r == Outcome(q)
              && (r.Exhausted? ==> |Obstacles(q)| >= MAX_ALLOCATION_ATTEMPTS)
              && (r.Allocated? && IsValidWorkspaceName(requested) ==> IsValidWorkspaceName(r.value.name))
  {
    if gitBranches.Failed? {
      return GitError(gitBranches.error);
    }
    if gitWorktrees.Failed? {
      return GitError(gitWorktrees.error);
    }
    var q := Request(repositoryId, workspaces, requested, branchPrefix, Join(worktreeBase, pathSlug), disk,
                     gitBranches.items, gitWorktrees.items);
    r := TryCandidates(q);
    OutcomeGuarantees(q);
  }

  /** The attempt loop, over sets built once. */
  method TryCandidates(q: Request) returns (r: AllocationResult)
    ensures r == Outcome(q)
  {
    var existingNames, existingBranches, existingPaths := q.Names(), q.Branches(), q.PathKeys();
    var existingGitWorktrees := q.GitWorktreeKeys();
    for attempt := 0 to MAX_ALLOCATION_ATTEMPTS
      invariant FirstFree(q, attempt) == FirstFree(q, 0)
    {
      var name := if attempt == 0 then q.requested else q.requested + "-" + Decimal(attempt + 1);
      var branchName := q.branchPrefix + name;
      var worktreePath := Join(q.directory, name);
      var worktreeKey := PathKey(q.disk, worktreePath);
      if || name in existingNames || branchName in existingBranches || worktreeKey in existingPaths
         || branchName in q.gitBranches || worktreeKey in existingGitWorktrees
         || worktreePath in q.disk.entries
      {
        continue;
      }
      return Allocated(WorkspaceAllocation(name, branchName, worktreePath));
    }
    return Exhausted;
  }

  lemma OutcomeGuarantees(q: Request)
    requires q.disk.Valid()
    ensures Outcome(q).Exhausted? ==> |Obstacles(q)| >= MAX_ALLOCATION_ATTEMPTS
    ensures Outcome(q).Allocated? && IsValidWorkspaceName(q.requested) ==> IsValidWorkspaceName(Outcome(q).value.name)
  {
    if Outcome(q).Exhausted? {
      ExhaustedNeedsObstacles(q);
    } else {
      CandidateValid(q.requested, FirstFree(q, 0).value);
    }
  }

  /** A suffix keeps a valid name valid. */
  lemma CandidateValid(requested: string, attempt: nat)
    ensures IsValidWorkspaceName(requested) ==> IsValidWorkspaceName(Candidate(requested, attempt))
  {
    var d := Decimal(attempt + 1);
    var name := Candidate(requested, attempt);
    if attempt > 0 {
      assert name[|name| - 1] == d[|d| - 1] && IsDigit(d[|d| - 1]);
      forall i | 0 <= i < |name| && IsValidWorkspaceName(requested)
        ensures IsNameChar(name[i])
      {
        if i > |requested| {
          assert name[i] == d[i - |requested| - 1];
        }
      }
    }
  }

  // ---------- Ten thousand obstacles ----------

  datatype Obstacle =
    | NameTaken(text: string)
    | BranchTaken(text: string)
    | PathTaken(text: string)
    | GitBranch(text: string)
    | GitWorktree(text: string)
    | OnDisk(text: string)

  /** Everything that can stand in the way of a candidate, each thing once. */
  ghost function Obstacles(q: Request): set<Obstacle> {
    (set s | s in q.Names() :: NameTaken(s)) + (set s | s in q.Branches() :: BranchTaken(s))
    + (set s | s in q.PathKeys() :: PathTaken(s)) + (set s | s in q.gitBranches :: GitBranch(s))
    + (set s | s in q.GitWorktreeKeys() :: GitWorktree(s)) + (set s | s in q.disk.entries :: OnDisk(s))
  }

  /** An obstacle in the way of a blocked attempt that no other attempt runs into. A path that is not on
      disk has no canonical form, so it is its own key. */
  ghost function ObstacleOf(q: Request, attempt: nat): Obstacle
    requires q.disk.Valid() && q.Blocked(attempt)
    ensures ObstacleOf(q, attempt) in Obstacles(q)
  {
    var a := q.Allocation(attempt);
    if a.name in q.Names() then NameTaken(a.name)
    else if a.branchName in q.Branches() then BranchTaken(a.branchName)
    else if a.branchName in q.gitBranches then GitBranch(a.branchName)
    else if a.worktreePath in q.disk.entries then OnDisk(a.worktreePath)
    else if PathKey(q.disk, a.worktreePath) in q.PathKeys() then PathTaken(a.worktreePath)
    else GitWorktree(a.worktreePath)
  }

  lemma CandidateInjective(requested: string, i: nat, j: nat)
    requires Candidate(requested, i) == Candidate(requested, j)
    ensures i == j
  {
    var a, b := Candidate(requested, i), Candidate(requested, j);
    assert (|a| > |requested| <==> i > 0) && (|b| > |requested| <==> j > 0);
    if i > 0 && j > 0 {
      assert a[|requested| + 1..] == Decimal(i + 1) && b[|requested| + 1..] == Decimal(j + 1);
    }
  }

  lemma PathInjective(q: Request, i: nat, j: nat)
    requires q.Allocation(i).worktreePath == q.Allocation(j).worktreePath
    ensures i == j
  {
    var a, b := Candidate(q.requested, i), Candidate(q.requested, j);
    var d := if q.directory == [] || q.directory[|q.directory| - 1] == '/' then q.directory else q.directory + "/";
    if a != [] && a[0] == '/' {
      assert b[0] == '/';
    } else {
      assert Join(q.directory, a) == d + a && Join(q.directory, b) == d + b;
      assert (d + a)[|d|..] == a && (d + b)[|d|..] == b;
    }
    CandidateInjective(q.requested, i, j);
  }

  lemma ObstaclesDiffer(q: Request, i: nat, j: nat)
    requires q.disk.Valid() && q.Blocked(i) && q.Blocked(j)
    requires ObstacleOf(q, i) == ObstacleOf(q, j)
    ensures i == j
  {
    var a, b := q.Allocation(i), q.Allocation(j);
    assert a.branchName[|q.branchPrefix|..] == a.name && b.branchName[|q.branchPrefix|..] == b.name;
    if a.name == b.name || a.branchName == b.branchName {
      CandidateInjective(q.requested, i, j);
    } else {
      PathInjective(q, i, j);
    }
  }

  lemma ObstaclesApart(q: Request, i: nat, j: nat)
    requires q.disk.Valid() && q.Blocked(i) && q.Blocked(j) && i != j
    ensures ObstacleOf(q, i) != ObstacleOf(q, j)
  {
    if ObstacleOf(q, i) == ObstacleOf(q, j) {
      ObstaclesDiffer(q, i, j);
    }
  }

  lemma ExhaustedNeedsObstacles(q: Request)
    requires q.disk.Valid() && Outcome(q).Exhausted?
    ensures |Obstacles(q)| >= MAX_ALLOCATION_ATTEMPTS
  {
    var met := (i: nat) => if q.disk.Valid() && q.Blocked(i) then ObstacleOf(q, i) else NameTaken("");
    forall i: nat, j: nat | i < j < MAX_ALLOCATION_ATTEMPTS
      ensures met(i) != met(j)
    {
      ObstaclesApart(q, i, j);
    }
    Pigeonhole(met, MAX_ALLOCATION_ATTEMPTS, Obstacles(q));
  }

  // ---------- Allocating again and again ----------

  /** Within a repository no two workspaces share a name, a branch or a path. */
  ghost predicate DistinctPerRepository(workspaces: seq<Workspace>) {
    forall i, j :: 0 <= i < j < |workspaces| ==> Apart(workspaces[i], workspaces[j])
  }

  predicate Apart(a: Workspace, b: Workspace) {
    a.repositoryId == b.repositoryId ==>
      && a.name != b.name && a.branchName != b.branchName
      && (a.worktreePath.Some? && b.worktreePath.Some? ==> a.worktreePath != b.worktreePath)
  }

  /** Creating a workspace, in whatever state disk and git are by then; or deleting one. */
  datatype Operation =
    | Create(repositoryId: string, requested: string, branchPrefix: string, directory: string,
             disk: Disk, gitBranches: seq<string>, gitWorktrees: seq<string>)
    | Delete(index: nat)

  function Perform(workspaces: seq<Workspace>, op: Operation): seq<Workspace> {
    match op
    case Create(repo, requested, prefix, directory, disk, branches, worktrees) =>
      (match Outcome(Request(repo, workspaces, requested, prefix, directory, disk, branches, worktrees))
       case Allocated(a) => workspaces + [Workspace(repo, a.name, a.branchName, Some(a.worktreePath))]
       case _ => workspaces)
    case Delete(i) => if i < |workspaces| then workspaces[..i] + workspaces[i + 1..] else workspaces
  }

  function PerformAll(workspaces: seq<Workspace>, ops: seq<Operation>): seq<Workspace> {
    if ops == [] then workspaces else Perform(PerformAll(workspaces, ops[..|ops| - 1]), ops[|ops| - 1])
  }

  /** However often workspaces are created and deleted, they stay apart. */
  lemma {:induction false} EveryRunKeepsDistinct(workspaces: seq<Workspace>, ops: seq<Operation>)
    requires DistinctPerRepository(workspaces)
    ensures DistinctPerRepository(PerformAll(workspaces, ops))
  {
    if ops != [] {
      EveryRunKeepsDistinct(workspaces, ops[..|ops| - 1]);
    }
  }

  // ---------- What an allocation avoids ----------

  /** Two paths that lead to the same place, as far as they can be resolved. */
  predicate SamePlace(disk: Disk, a: string, b: string) {
    (if a in disk.canonical then disk.canonical[a] else a) == (if b in disk.canonical then disk.canonical[b] else b)
  }

  /** A workspace of the repository has the name, its branch or its path; or git has its branch or a worktree at its
      path; or something is at its path. */
  ghost predicate InUse(q: Request, name: string) {
    var branch, path := q.branchPrefix + name, Join(q.directory, name);
    || (exists w :: w in q.workspaces && w.repositoryId == q.repositoryId
                    && (w.name == name || w.branchName == branch
                        || (w.worktreePath.Some? && SamePlace(q.disk, w.worktreePath.value, path))))
    || branch in q.gitBranches
    || (exists p :: p in q.gitWorktrees && SamePlace(q.disk, p, path))
    || path in q.disk.entries
  }

  /** The requested name, then the name with 2, 3, ... after it. */
  function Suffixed(requested: string, k: nat): string {
    if k == 1 then requested else requested + "-" + Decimal(k)
  }

  lemma BlockedIsInUse(q: Request, attempt: nat)
    ensures q.Blocked(attempt) <==> InUse(q, Suffixed(q.requested, attempt + 1))
    ensures q.Allocation(attempt).name == Suffixed(q.requested, attempt + 1)
  {
    var a := q.Allocation(attempt);
    assert forall w :: w in q.Mine() <==> w in q.workspaces && w.repositoryId == q.repositoryId;
    assert forall x, y :: PathKey(q.disk, x) == PathKey(q.disk, y) <==> SamePlace(q.disk, x, y);
  }

  /** The allocation is the requested name with the lowest number from 1 to 10,000 that is not in use, its branch and
      its path; there is none exactly if all are in use. */
  lemma AllocationExact(q: Request)
    ensures match Outcome(q)
            case Allocated(a) =>
              && a.branchName == q.branchPrefix + a.name && a.worktreePath == Join(q.directory, a.name)
              && !InUse(q, a.name)
              && exists k: nat :: 1 <= k <= 10_000 && a.name == Suffixed(q.requested, k)
                   && forall j: nat :: 1 <= j < k ==> InUse(q, Suffixed(q.requested, j))
            case Exhausted => forall j: nat :: 1 <= j <= 10_000 ==> InUse(q, Suffixed(q.requested, j))
            case GitError(_) => false
  {
    forall j: nat | 1 <= j
      ensures q.Blocked(j - 1) <==> InUse(q, Suffixed(q.requested, j))
    {
      BlockedIsInUse(q, j - 1);
    }
    var first := FirstFree(q, 0);
    if first.Some? {
      BlockedIsInUse(q, first.value);
      var k := first.value + 1;
      assert Outcome(q).value.name == Suffixed(q.requested, k);
    }
  }

  /** A valid name is one directory below the repository's: it can neither leave it nor nest in it. */
  lemma ValidNameIsOneLevel(directory: string, name: string)
    requires IsValidWorkspaceName(name)
    ensures '/' !in name && '.' !in name && ' ' !in name && name != ""
    ensures directory != "" && directory[|directory| - 1] != '/' ==> Join(directory, name) == directory + "/" + name
    ensures Join(directory + "/", name) == directory + "/" + name && Join(directory, "/" + name) == "/" + name
  {
    assert IsNameChar(name[0]);
  }
}
