/** The whole `register` and `unregister_workspace` operations of file_watcher.rs, called one at a time
(`FileWatcher`) and interleaved at their lock boundaries (`State`, `Step`, `Run`).

The operating system's watches are the set `backend`. Installing a watch may fail; removing one always
leaves the path unwatched. */
module WatchProtocol {
  import opened Text
  import opened Collections
  import opened Runs
  import opened W = FileWatcher

  // ---------- Serialised calls ----------

  class FileWatcher {
    const state: WatcherState
    var backend: set<Path>

    /** The books are right: the recorded watches are the real ones, and each has a subscriber. */
    ghost predicate Valid()
      reads this, state
    {
      && Consistent(state.View())
      && state.osWatched == backend
      && state.osWatched <= state.subscribers.Keys
    }

    constructor ()
      ensures Valid() && fresh(state) && state.keyPaths == map[]
    {
      state := new WatcherState();
      backend := {};
    }

    /** Remove the watches of `toRemove` that nobody needs any more. */
    method Sweep(toRemove: seq<Path>)
      requires state.osWatched == backend
      modifies this`backend, state`osWatched
      ensures state.osWatched == backend
      ensures backend == old(backend) - (Elements(toRemove) - state.subscribers.Keys)
    {
      for i := 0 to |toRemove|
        invariant state.osWatched == backend
        invariant backend == old(backend) - (Elements(toRemove[..i]) - state.subscribers.Keys)
      {
        var path := toRemove[i];
        assert Elements(toRemove[..i + 1]) == Elements(toRemove[..i]) + {path};
        var stillNeeded := path in state.subscribers;
        if !stillNeeded {
          backend := backend - {path};
          state.osWatched := state.osWatched - {path};
        }
      }
      assert toRemove[..|toRemove|] == toRemove;
    }

    /** Install the watches that the system allows. */
    method Install(toTryWatch: seq<Path>, watchable: set<Path>)
      requires state.osWatched == backend
      modifies this`backend, state`osWatched
      ensures state.osWatched == backend == old(backend) + Elements(toTryWatch) * watchable
    {
      for i := 0 to |toTryWatch|
        invariant state.osWatched == backend == old(backend) + Elements(toTryWatch[..i]) * watchable
      {
        var path := toTryWatch[i];
        assert Elements(toTryWatch[..i + 1]) == Elements(toTryWatch[..i]) + {path};
        if path in watchable {
          backend := backend + {path};
          state.osWatched := state.osWatched + {path};
        }
      }
      assert toTryWatch[..|toTryWatch|] == toTryWatch;
    }

    /** Replace the watch set of workspace `w`. `watchable` are the paths the system lets us watch. */
    method Register(w: string, desired: Table, watchable: set<Path>)
      requires Valid() && ForWorkspace(w, desired)
      modifies this`backend, state
      ensures Valid() && state.View() == RegisteredIndices(old(state.View()), w, desired)
      ensures backend == old(backend) * state.subscribers.Keys + desired.Values * watchable
      ensures forall p :: p in desired.Values ==> p in backend || p !in watchable
    {
      var toTryWatch, toRemove := state.RegisterSection(w, desired);
      Sweep(toRemove);
      Install(toTryWatch, watchable);
    }

    /** Drop every watch of workspace `w` that no other workspace needs. */
    method UnregisterWorkspace(w: string)
      requires Valid()
      modifies this`backend, state
      ensures Valid() && state.View() == UnregisteredIndices(old(state.View()), w)
      ensures backend == old(backend) * state.subscribers.Keys
    {
      var freed := state.UnregisterSection(w);
      Sweep(freed);
    }
  }

  // ---------- Interleaved calls ----------

  /** Where a thread is in its call. All but the first two hold the watcher lock. */
  datatype Thread =
    | Idle
    | Waiting(toRemove: seq<Path>, toTry: seq<Path>)                // left the state lock
    | Holding(toRemove: seq<Path>, toTry: seq<Path>)                // works through the two lists
    | Unwatching(path: Path, toRemove: seq<Path>, toTry: seq<Path>) // rechecked: no subscriber
    | Forgetting(path: Path, toRemove: seq<Path>, toTry: seq<Path>) // unwatched, still recorded
    | Recording(path: Path, toTry: seq<Path>)                       // watched, not yet recorded

  datatype State = State(
    indices: Indices, osWatched: set<Path>, backend: set<Path>, lock: Option<nat>, threads: map<nat, Thread>)
  {
    function At(t: nat): Thread {
      if t in threads then threads[t] else Idle
    }

    ghost predicate Quiet() {
      forall t: nat :: At(t) == Idle
    }

    function With(t: nat, thread: Thread): State {
      this.(threads := threads[t := thread])
    }
  }

  const INITIAL := State(Indices(map[], map[], map[]), {}, {}, None, map[])

  /** The lock sections, and the calls into the backend between them. The lists come in any order. */
  datatype Step =
    | Register(t: nat, w: string, desired: Table, toRemove: seq<Path>, toTry: seq<Path>)
    | Unregister(t: nat, w: string, toRemove: seq<Path>)
    | Acquire(t: nat)
    | Recheck(t: nat)
    | Unwatch(t: nat)
    | Forget(t: nat)
    | TryWatch(t: nat, ok: bool)
    | Record(t: nat)
    | Release(t: nat)

  ghost predicate Enabled(s: State, step: Step) {
    var me := s.At(step.t);
    match step
    case Register(_, w, desired, toRemove, toTry) =>
      var after := RegisteredIndices(s.indices, w, desired);
      && me == Idle && ForWorkspace(w, desired)
      && Elements(toTry) == desired.Values - s.osWatched
      && Elements(toRemove) == s.indices.subscribers.Keys - after.subscribers.Keys
    case Unregister(_, w, toRemove) =>
      var after := UnregisteredIndices(s.indices, w);
      me == Idle && Elements(toRemove) == s.indices.subscribers.Keys - after.subscribers.Keys
    case Acquire(_) => me.Waiting? && s.lock == None
    case Recheck(_) => me.Holding? && me.toRemove != []
    case Unwatch(_) => me.Unwatching?
    case Forget(_) => me.Forgetting?
    case TryWatch(_, _) => me.Holding? && me.toRemove == [] && me.toTry != []
    case Record(_) => me.Recording?
    case Release(_) => me == Holding([], [])
  }

  ghost function Apply(s: State, step: Step): State
    requires Enabled(s, step)
  {
    var t := step.t;
    match step
    case Register(_, w, desired, toRemove, toTry) =>
      s.(indices := RegisteredIndices(s.indices, w, desired)).With(t, Waiting(toRemove, toTry))
    case Unregister(_, w, toRemove) =>
      s.(indices := UnregisteredIndices(s.indices, w)).With(t, Waiting(toRemove, []))
    case Acquire(_) =>
      var Waiting(r, a) := s.At(t);
      s.(lock := Some(t)).With(t, Holding(r, a))
    case Recheck(_) =>
      var Holding(r, a) := s.At(t);
      if r[0] in s.indices.subscribers then s.With(t, Holding(r[1..], a))
      else s.With(t, Unwatching(r[0], r[1..], a))
    case Unwatch(_) =>
      var Unwatching(p, r, a) := s.At(t);
      s.(backend := s.backend - {p}).With(t, Forgetting(p, r, a))
    case Forget(_) =>
      var Forgetting(p, r, a) := s.At(t);
      s.(osWatched := s.osWatched - {p}).With(t, Holding(r, a))
    case TryWatch(_, ok) =>
      var Holding(_, a) := s.At(t);
      if ok then s.(backend := s.backend + {a[0]}).With(t, Recording(a[0], a[1..]))
      else s.With(t, Holding([], a[1..]))
    case Record(_) =>
      var Recording(p, a) := s.At(t);
      s.(osWatched := s.osWatched + {p}).With(t, Holding([], a))
    case Release(_) => s.(lock := None).With(t, Idle)
  }

  /** A run: the states that the steps lead through. */
  ghost predicate Next(s: State, step: Step, s': State) {
    Enabled(s, step) && s' == Apply(s, step)
  }

  ghost predicate Run(states: seq<State>, steps: seq<Step>) {
    IsRun(INITIAL, Next, states, steps)
  }

  /** Some run ends in the state. */
  ghost predicate Reachable(s: State) {
    Reaches<State, Step>(INITIAL, Next, s)
  }

  // ---------- What every interleaving keeps ----------

  predicate HoldsLock(thread: Thread) {
    !thread.Idle? && !thread.Waiting?
  }

  /** The recorded watches and the real ones differ at most in the path that is being changed. */
  predicate Recorded(s: State, thread: Thread) {
    match thread
    case Forgetting(p, _, _) => s.backend == s.osWatched - {p}
    case Recording(p, _) => s.backend == s.osWatched + {p}
    case _ => s.backend == s.osWatched
  }

  ghost predicate Inv(s: State) {
    && Consistent(s.indices)
    && (forall t: nat :: HoldsLock(s.At(t)) ==> s.lock == Some(t))
    && (s.lock.Some? ==> HoldsLock(s.At(s.lock.value)))
    && Recorded(s, if s.lock.Some? then s.At(s.lock.value) else Idle)
  }

  lemma UnregisteringConsistent(s: Indices, w: string)
    requires Consistent(s)
    ensures Consistent(UnregisteredIndices(s, w))
  {
    ConsistentIsIndicesOf(UnregisteredIndices(s, w));
  }

  lemma StepKeepsInv(s: State, step: Step)
    requires Inv(s) && Enabled(s, step)
    ensures Inv(Apply(s, step))
  {
    var s' := Apply(s, step);
    assert forall u: nat :: u != step.t ==> s'.At(u) == s.At(u);
    match step
    case Unregister(_, w, _) => UnregisteringConsistent(s.indices, w);
    case _ =>
  }

  /** In every interleaving the indices agree, and the recorded watches are the real ones whenever the
      watcher lock is free. */
  lemma {:induction false} EveryInterleavingKeepsInv(states: seq<State>, steps: seq<Step>, i: nat)
    requires Run(states, steps) && i <= |steps|
    ensures Inv(states[i])
    ensures states[i].lock == None ==> states[i].osWatched == states[i].backend
  {
    if i > 0 {
      assert Next(states[i - 1], steps[i - 1], states[i]);
      EveryInterleavingKeepsInv(states, steps, i - 1);
      StepKeepsInv(states[i - 1], steps[i - 1]);
    }
  }

  // ---------- What only calls that do not overlap keep ----------

  predicate IsCall(step: Step) {
    step.Register? || step.Unregister?
  }

  /** No call starts before the previous one is done. */
  ghost predicate Serial(states: seq<State>, steps: seq<Step>)
    requires Run(states, steps)
  {
    forall i :: 0 <= i < |steps| && IsCall(steps[i]) ==> states[i].Quiet()
  }

  /** The paths a thread is still going to unwatch. */
  function PendingRemoval(thread: Thread): set<Path> {
    match thread
    case Idle => {}
    case Waiting(r, _) => Elements(r)
    case Holding(r, _) => Elements(r)
    case Unwatching(p, r, _) => {p} + Elements(r)
    case Forgetting(p, r, _) => {p} + Elements(r)
    case Recording(_, _) => {}
  }

  /** The paths a thread is still going to watch. */
  function PendingWatch(thread: Thread): set<Path> {
    match thread
    case Idle => {}
    case Recording(p, a) => {p} + Elements(a)
    case _ => Elements(thread.toTry)
  }

  /** Only thread `a` is inside a call; every watch without a subscriber is one it is about to remove. */
  ghost predicate SerialInv(s: State, a: nat) {
    && (forall t: nat :: t != a ==> s.At(t) == Idle)
    && s.osWatched - s.indices.subscribers.Keys <= PendingRemoval(s.At(a))
    && PendingWatch(s.At(a)) <= s.indices.subscribers.Keys
  }

  lemma ElementsHead(p: seq<Path>)
    requires p != []
    ensures Elements(p) == {p[0]} + Elements(p[1..])
  {
  }

  lemma SerialCallStarts(s: State, a: nat, step: Step)
    requires Inv(s) && SerialInv(s, a) && Enabled(s, step) && s.Quiet()
    requires IsCall(step)
    ensures SerialInv(Apply(s, step), step.t)
  {
    var s' := Apply(s, step);
    assert s.At(a) == Idle;
    assert s.osWatched <= s.indices.subscribers.Keys;
    assert forall t: nat :: t != step.t ==> s'.At(t) == s.At(t);
    assert s'.At(step.t) == Waiting(step.toRemove, if step.Register? then step.toTry else []);
    assert Elements(step.toRemove) == s.indices.subscribers.Keys - s'.indices.subscribers.Keys;
  }

  lemma SerialCallContinues(s: State, a: nat, step: Step)
    requires Inv(s) && SerialInv(s, a) && Enabled(s, step)
    requires !IsCall(step)
    ensures SerialInv(Apply(s, step), a)
  {
    var me, s' := s.At(step.t), Apply(s, step);
    assert step.t == a;
    assert forall t: nat :: t != a ==> s'.At(t) == s.At(t);
    var now := s'.At(a);
    assert Elements<Path>([]) == {};
    match step
    case Recheck(_) =>
      ElementsHead(me.toRemove);
      assert PendingRemoval(me) <= PendingRemoval(now) + s.indices.subscribers.Keys;
    case TryWatch(_, _) =>
      ElementsHead(me.toTry);
      assert PendingRemoval(me) == {} == PendingRemoval(now);
      assert PendingWatch(now) <= PendingWatch(me);
    case Forget(_) =>
      assert PendingRemoval(me) == PendingRemoval(now) + {me.path};
    case Acquire(_) => assert PendingRemoval(me) == PendingRemoval(now);
    case Unwatch(_) => assert PendingRemoval(me) == PendingRemoval(now);
    case Record(_) => assert PendingRemoval(me) == PendingRemoval(now);
    case Release(_) => assert PendingRemoval(me) == PendingRemoval(now);
    case _ =>
  }

  lemma {:induction false} SerialRunKeepsInv(states: seq<State>, steps: seq<Step>, i: nat) returns (a: nat)
    requires Run(states, steps) && Serial(states, steps) && i <= |steps|
    ensures SerialInv(states[i], a)
  {
    if i == 0 {
      a := 0;
    } else {
      assert Next(states[i - 1], steps[i - 1], states[i]);
      a := SerialRunKeepsInv(states, steps, i - 1);
      EveryInterleavingKeepsInv(states, steps, i - 1);
      a := SerialStep(states[i - 1], a, steps[i - 1]);
    }
  }

  lemma SerialStep(s: State, a: nat, step: Step) returns (a': nat)
    requires Inv(s) && SerialInv(s, a) && Enabled(s, step) && (IsCall(step) ==> s.Quiet())
    ensures SerialInv(Apply(s, step), a')
  {
    if IsCall(step) {
      SerialCallStarts(s, a, step);
      a' := step.t;
    } else {
      SerialCallContinues(s, a, step);
      a' := a;
    }
  }

  /** Calls that do not overlap never leave a watch behind without a subscriber. */
  lemma SerialCallsLeaveNoOrphans(states: seq<State>, steps: seq<Step>, i: nat)
    requires Run(states, steps) && Serial(states, steps) && i <= |steps| && states[i].Quiet()
    ensures states[i].osWatched == states[i].backend
    ensures states[i].osWatched <= states[i].indices.subscribers.Keys
  {
    var a := SerialRunKeepsInv(states, steps, i);
    EveryInterleavingKeepsInv(states, steps, i);
    assert states[i].At(a) == Idle;
  }

  // ---------- When watches and subscriptions agree, over every interleaving ----------

  /** The path whose removal the lock holder has decided on and not finished. */
  function Removing(s: State): set<Path> {
    if s.lock.None? then {}
    else match s.At(s.lock.value)
      case Unwatching(p, _, _) => {p}
      case Forgetting(p, _, _) => {p}
      case _ => {}
  }

  /** The step watches `p`. */
  ghost predicate Watches(s: State, step: Step, p: Path) {
    Enabled(s, step) && step.TryWatch? && step.ok && s.At(step.t).toTry[0] == p
  }

  ghost predicate Unwatches(s: State, step: Step, p: Path) {
    Enabled(s, step) && step.Unwatch? && s.At(step.t).path == p
  }

  /** The step watches `p` although nobody subscribes to it: the watch loop does not recheck. */
  ghost predicate WatchesLate(s: State, step: Step, p: Path) {
    Watches(s, step, p) && p !in s.indices.subscribers
  }

  /** The step loses `p`: an attempt to watch it fails, or it is subscribed while its removal, already decided
      on, is not yet recorded, so that no attempt is made. */
  ghost predicate Loses(s: State, step: Step, p: Path) {
    Enabled(s, step) &&
    if step.Register? then p in step.desired.Values && p in s.osWatched && p in Removing(s)
    else step.TryWatch? && !step.ok && s.At(step.t).toTry[0] == p && p !in s.backend
  }

  /** Some step before `i` watched `p` late, and no later one watched or unwatched it. */
  ghost predicate LateSince(states: seq<State>, steps: seq<Step>, i: nat, p: Path)
    requires |states| == |steps| + 1
  {
    Since((j: nat) => j < |steps| && WatchesLate(states[j], steps[j], p),
          (j: nat) => j < |steps| && (Watches(states[j], steps[j], p) || Unwatches(states[j], steps[j], p)), i)
  }

  /** Some step before `i` lost `p`, and no later one watched it. */
  ghost predicate LostSince(states: seq<State>, steps: seq<Step>, i: nat, p: Path)
    requires |states| == |steps| + 1
  {
    Since((j: nat) => j < |steps| && Loses(states[j], steps[j], p),
          (j: nat) => j < |steps| && Watches(states[j], steps[j], p), i)
  }

  ghost predicate LateAfter(s: State, step: Step, p: Path, late: bool) {
    WatchesLate(s, step, p) || (late && !Watches(s, step, p) && !Unwatches(s, step, p))
  }

  ghost predicate LostAfter(s: State, step: Step, p: Path, lost: bool) {
    Loses(s, step, p) || (lost && !Watches(s, step, p))
  }

  lemma LateStep(states: seq<State>, steps: seq<Step>, i: nat, p: Path)
    requires |states| == |steps| + 1 && i < |steps|
    ensures LateSince(states, steps, i + 1, p)
         == LateAfter(states[i], steps[i], p, LateSince(states, steps, i, p))
  {
    SinceStep((j: nat) => j < |steps| && WatchesLate(states[j], steps[j], p),
      (j: nat) => j < |steps| && (Watches(states[j], steps[j], p) || Unwatches(states[j], steps[j], p)), i);
  }

  lemma LostStep(states: seq<State>, steps: seq<Step>, i: nat, p: Path)
    requires |states| == |steps| + 1 && i < |steps|
    ensures LostSince(states, steps, i + 1, p)
         == LostAfter(states[i], steps[i], p, LostSince(states, steps, i, p))
  {
    SinceStep((j: nat) => j < |steps| && Loses(states[j], steps[j], p),
      (j: nat) => j < |steps| && Watches(states[j], steps[j], p), i);
  }

  /** Some thread is still going to unwatch `p`, or to watch it. */
  ghost predicate ToUnwatch(s: State, p: Path) {
    exists t: nat :: p in PendingRemoval(s.At(t))
  }

  ghost predicate ToWatch(s: State, p: Path) {
    exists t: nat :: p in PendingWatch(s.At(t))
  }

  /** A watch is late only while it is there; one without a subscriber is late or about to go. */
  ghost predicate OrphanInv(s: State, p: Path, late: bool) {
    && (late ==> p in s.backend)
    && (p in s.backend && p !in s.indices.subscribers ==> late || ToUnwatch(s, p))
  }

  /** A path is lost only while it has no watch, or one about to go; a subscribed path that is not watched to
      stay is lost or about to be watched. */
  ghost predicate LostInv(s: State, p: Path, lost: bool) {
    && (lost ==> p !in s.backend || p in Removing(s))
    && (p in s.indices.subscribers ==> (p in s.backend && p !in Removing(s)) || lost || ToWatch(s, p))
  }

  lemma OthersPlans(s: State, step: Step, p: Path)
    requires Enabled(s, step)
    ensures ToUnwatch(s, p) && !ToUnwatch(Apply(s, step), p) ==> p in PendingRemoval(s.At(step.t))
    ensures ToWatch(s, p) && !ToWatch(Apply(s, step), p) ==> p in PendingWatch(s.At(step.t))
  {
    var s' := Apply(s, step);
    assert forall u: nat :: u != step.t ==> s'.At(u) == s.At(u);
    if ToUnwatch(s, p) {
      var t: nat :| p in PendingRemoval(s.At(t));
      assert t != step.t ==> ToUnwatch(s', p);
    }
    if ToWatch(s, p) {
      var t: nat :| p in PendingWatch(s.At(t));
      assert t != step.t ==> ToWatch(s', p);
    }
  }

  lemma OrphanAtCall(s: State, step: Step, p: Path, late: bool)
    requires Inv(s) && Enabled(s, step) && IsCall(step) && OrphanInv(s, p, late)
    ensures OrphanInv(Apply(s, step), p, late)
  {
    var s' := Apply(s, step);
    OthersPlans(s, step, p);
    if p in s.indices.subscribers && p !in s'.indices.subscribers {
      assert p in Elements(step.toRemove);
      assert p in PendingRemoval(s'.At(step.t));
    }
  }

  lemma OrphanAtStep(s: State, step: Step, p: Path, late: bool)
    requires Inv(s) && Enabled(s, step) && !IsCall(step) && OrphanInv(s, p, late)
    ensures OrphanInv(Apply(s, step), p, LateAfter(s, step, p, late))
  {
    var s' := Apply(s, step);
    OthersPlans(s, step, p);
    if p in PendingRemoval(s.At(step.t)) {
      assert p in PendingRemoval(s'.At(step.t)) ==> ToUnwatch(s', p);
    }
  }

  lemma LostAtCall(s: State, step: Step, p: Path, lost: bool)
    requires Inv(s) && Enabled(s, step) && IsCall(step) && LostInv(s, p, lost)
    ensures LostInv(Apply(s, step), p, Loses(s, step, p) || lost)
  {
    var s' := Apply(s, step);
    OthersPlans(s, step, p);
    SameRemoving(s, step);
    if p in s'.indices.subscribers {
      if step.Register? && p in step.desired.Values && p !in s.osWatched {
        assert p in PendingWatch(s'.At(step.t));
      }
    }
  }

  lemma SameRemoving(s: State, step: Step)
    requires Inv(s) && Enabled(s, step) && IsCall(step)
    ensures Removing(Apply(s, step)) == Removing(s)
  {
    var s' := Apply(s, step);
    assert s.lock != Some(step.t);
    assert s.lock.Some? ==> s'.At(s.lock.value) == s.At(s.lock.value);
  }

  lemma LostAtStep(s: State, step: Step, p: Path, lost: bool)
    requires Inv(s) && Enabled(s, step) && !IsCall(step) && LostInv(s, p, lost)
    ensures LostInv(Apply(s, step), p, LostAfter(s, step, p, lost))
  {
    var s' := Apply(s, step);
    OthersPlans(s, step, p);
    if p in PendingWatch(s.At(step.t)) {
      assert p in PendingWatch(s'.At(step.t)) ==> ToWatch(s', p);
    }
  }

  lemma OrphanStep(s: State, step: Step, s': State, p: Path, late: bool)
    ensures Inv(s) && Next(s, step, s') && OrphanInv(s, p, late) ==> OrphanInv(s', p, LateAfter(s, step, p, late))
  {
    if Inv(s) && Next(s, step, s') && OrphanInv(s, p, late) {
      if IsCall(step) {
        OrphanAtCall(s, step, p, late);
      } else {
        OrphanAtStep(s, step, p, late);
      }
    }
  }

  lemma LossStep(s: State, step: Step, s': State, p: Path, lost: bool)
    ensures Inv(s) && Next(s, step, s') && LostInv(s, p, lost) ==> LostInv(s', p, LostAfter(s, step, p, lost))
  {
    if Inv(s) && Next(s, step, s') && LostInv(s, p, lost) {
      if IsCall(step) {
        LostAtCall(s, step, p, lost);
      } else {
        LostAtStep(s, step, p, lost);
      }
    }
  }

  lemma OrphanAlong(states: seq<State>, steps: seq<Step>, k: nat, p: Path)
    requires Run(states, steps) && k < |steps|
    ensures OrphanInv(states[k], p, LateSince(states, steps, k, p))
        ==> OrphanInv(states[k + 1], p, LateSince(states, steps, k + 1, p))
  {
    EveryInterleavingKeepsInv(states, steps, k);
    LateStep(states, steps, k, p);
    OrphanStep(states[k], steps[k], states[k + 1], p, LateSince(states, steps, k, p));
  }

  lemma LossAlong(states: seq<State>, steps: seq<Step>, k: nat, p: Path)
    requires Run(states, steps) && k < |steps|
    ensures LostInv(states[k], p, LostSince(states, steps, k, p))
        ==> LostInv(states[k + 1], p, LostSince(states, steps, k + 1, p))
  {
    EveryInterleavingKeepsInv(states, steps, k);
    LostStep(states, steps, k, p);
    LossStep(states[k], steps[k], states[k + 1], p, LostSince(states, steps, k, p));
  }

  lemma RunKeepsOrphanInv(states: seq<State>, steps: seq<Step>, i: nat, p: Path)
    requires Run(states, steps) && i <= |steps|
    ensures OrphanInv(states[i], p, LateSince(states, steps, i, p))
  {
    var inv := (k: nat) => k <= |steps| && OrphanInv(states[k], p, LateSince(states, steps, k, p));
    forall k: nat | k < i && inv(k)
      ensures inv(k + 1)
    {
      OrphanAlong(states, steps, k, p);
    }
    Along(inv, i);
  }

  lemma RunKeepsLostInv(states: seq<State>, steps: seq<Step>, i: nat, p: Path)
    requires Run(states, steps) && i <= |steps|
    ensures LostInv(states[i], p, LostSince(states, steps, i, p))
  {
    var inv := (k: nat) => k <= |steps| && LostInv(states[k], p, LostSince(states, steps, k, p));
    forall k: nat | k < i && inv(k)
      ensures inv(k + 1)
    {
      LossAlong(states, steps, k, p);
    }
    Along(inv, i);
  }

  /** Whenever no call is in progress: an unsubscribed path is watched exactly when its last watch came too late,
      and a subscribed path is not watched exactly when it was lost and not watched since. */
  lemma OrphansAndLossesExact(states: seq<State>, steps: seq<Step>, i: nat, p: Path)
    requires Run(states, steps) && i <= |steps| && states[i].Quiet()
    ensures p !in states[i].indices.subscribers ==> (p in states[i].osWatched <==> LateSince(states, steps, i, p))
    ensures p in states[i].indices.subscribers ==> (p !in states[i].osWatched <==> LostSince(states, steps, i, p))
  {
    EveryInterleavingKeepsInv(states, steps, i);
    RunKeepsOrphanInv(states, steps, i, p);
    RunKeepsLostInv(states, steps, i, p);
    assert states[i].lock == None;
  }

  /** The watched paths are the subscribed ones if and only if no unsubscribed path was watched late and no
      subscribed one was lost. */
  lemma WatchedIsSubscribedExactly(states: seq<State>, steps: seq<Step>, i: nat)
    requires Run(states, steps) && i <= |steps| && states[i].Quiet()
    ensures states[i].osWatched == states[i].indices.subscribers.Keys <==>
              forall p :: if p in states[i].indices.subscribers then !LostSince(states, steps, i, p)
                          else !LateSince(states, steps, i, p)
  {
    forall p
      ensures p in states[i].osWatched <==>
                if p in states[i].indices.subscribers then !LostSince(states, steps, i, p)
                else LateSince(states, steps, i, p)
    {
      OrphansAndLossesExact(states, steps, i, p);
    }
  }

  /** If calls do not overlap, a path is lost only by a failed attempt. */
  lemma SerialLossIsFailure(states: seq<State>, steps: seq<Step>, j: nat, p: Path)
    requires Run(states, steps) && Serial(states, steps) && j < |steps| && Loses(states[j], steps[j], p)
    ensures steps[j].TryWatch? && !steps[j].ok
  {
    EveryInterleavingKeepsInv(states, steps, j);
  }

  // Overlapping calls can go wrong both ways. Two threads race on one file of one workspace.

  const FILE: Path := "f"
  const RACED: Table := map[Key("w", FILE) := FILE]

  const RACED_INDICES := Indices(map[FILE := RACED.Keys], RACED, map["w" := RACED.Keys])

  lemma RacedIndices()
    ensures RegisteredIndices(INITIAL.indices, "w", RACED) == RACED_INDICES
    ensures UnregisteredIndices(RACED_INDICES, "w") == INITIAL.indices
    ensures RACED.Values == {FILE} == RACED_INDICES.subscribers.Keys && INITIAL.indices.subscribers.Keys == {}
    ensures Elements([FILE]) == {FILE} && Elements<Path>([]) == {}
  {
    var k := Key("w", FILE);
    assert RACED[k] == FILE;
    assert Registered(map[], "w", RACED) == RACED;
    assert Subscribed(RACED) == {FILE};
    assert KeysAt(RACED, FILE) == {k} == RACED.Keys == KeysOf(RACED, "w");
    assert Without(RACED, "w") == map[];
    assert Subscribed(map[]) == {};
  }

  lemma Extend(s: State, step: Step) returns (s': State)
    requires Reachable(s) && Enabled(s, step)
    ensures s' == Apply(s, step) && Reachable(s')
  {
    s' := Apply(s, step);
    ReachesNext(INITIAL, Next, s, step, s');
  }

  /** Thread `t` has moved on to `thread`, and no other thread has moved. */
  ghost predicate Moved(s: State, t: nat, s': State, thread: Thread) {
    && s'.indices == s.indices && s'.At(t) == thread
    && (t != 1 ==> s'.At(1) == s.At(1))
    && (t != 2 ==> s'.At(2) == s.At(2))
    && s'.threads.Keys == s.threads.Keys + {t}
  }

  /** One thread finds that nobody subscribes to the raced file any more. */
  lemma BeginRemoval(s: State, t: nat) returns (s': State)
    requires Reachable(s) && s.lock == None && s.At(t) == Waiting([FILE], [])
    requires FILE !in s.indices.subscribers
    ensures Reachable(s')
    ensures Moved(s, t, s', Unwatching(FILE, [], [])) && s'.osWatched == s.osWatched
  {
    s' := Extend(s, Acquire(t));
    assert s'.At(t) == Holding([FILE], []) && [FILE][1..] == [];
    s' := Extend(s', Recheck(t));
  }

  /** It removes the watch and finishes its call. */
  lemma FinishRemoval(s: State, t: nat) returns (s': State)
    requires Reachable(s) && s.At(t) == Unwatching(FILE, [], [])
    ensures Reachable(s')
    ensures Moved(s, t, s', Idle) && s'.osWatched == s.osWatched - {FILE} && s'.lock == None
  {
    s' := Extend(s, Unwatch(t));
    assert s'.At(t) == Forgetting(FILE, [], []);
    s' := Extend(s', Forget(t));
    assert s'.At(t) == Holding([], []);
    s' := Extend(s', Release(t));
  }

  /** One thread watches the raced file and finishes its call. */
  lemma FinishWatch(s: State, t: nat) returns (s': State)
    requires Reachable(s) && s.lock == None && s.At(t) == Waiting([], [FILE])
    ensures Reachable(s')
    ensures Moved(s, t, s', Idle) && s'.osWatched == s.osWatched + {FILE} && s'.lock == None
  {
    s' := Extend(s, Acquire(t));
    assert s'.At(t) == Holding([], [FILE]) && [FILE][1..] == [];
    s' := Extend(s', TryWatch(t, true));
    assert s'.At(t) == Recording(FILE, []);
    s' := Extend(s', Record(t));
    assert s'.At(t) == Holding([], []);
    s' := Extend(s', Release(t));
  }

  /** One thread runs through its call with nothing to do. */
  lemma FinishNothing(s: State, t: nat) returns (s': State)
    requires Reachable(s) && s.lock == None && s.At(t) == Waiting([], [])
    ensures Reachable(s')
    ensures Moved(s, t, s', Idle) && s'.osWatched == s.osWatched
  {
    s' := Extend(s, Acquire(t));
    assert s'.At(t) == Holding([], []);
    s' := Extend(s', Release(t));
  }

  /** Thread 1 subscribes the raced file. */
  lemma StartRegister(s: State) returns (s': State)
    requires Reachable(s) && s.At(1) == Idle && s.indices == INITIAL.indices
    ensures Reachable(s') && s'.indices == RACED_INDICES
    ensures Moved(s.(indices := RACED_INDICES), 1, s', Waiting([], if FILE in s.osWatched then [] else [FILE]))
    ensures s'.osWatched == s.osWatched && s'.lock == s.lock
  {
    RacedIndices();
    var step := Register(1, "w", RACED, [], if FILE in s.osWatched then [] else [FILE]);
    s' := Extend(s, step);
  }

  /** Thread 2 unregisters the workspace. */
  lemma StartUnregister(s: State) returns (s': State)
    requires Reachable(s) && s.At(2) == Idle && s.indices == RACED_INDICES
    ensures Reachable(s') && s'.indices == INITIAL.indices
    ensures Moved(s.(indices := INITIAL.indices), 2, s', Waiting([FILE], []))
    ensures s'.osWatched == s.osWatched && s'.lock == s.lock
  {
    RacedIndices();
    var step := Unregister(2, "w", [FILE]);
    s' := Extend(s, step);
  }

  /** A late watch outlives its subscriber: between thread 1's two sections, thread 2 unregisters. */
  lemma OverlapCanLeaveAnOrphanWatch() returns (s: State)
    ensures Reachable(s) && s.Quiet()
    ensures FILE in s.osWatched && FILE !in s.indices.subscribers
  {
    ReachesInit<State, Step>(INITIAL, Next);
    s := StartRegister(INITIAL);
    s := StartUnregister(s);
    s := BeginRemoval(s, 2);
    s := FinishRemoval(s, 2);
    s := FinishWatch(s, 1);
  }

  /** A subscriber is left without a watch: it arrives between thread 2's recheck and its unwatch. */
  lemma OverlapCanLoseAWatch() returns (s: State)
    ensures Reachable(s) && s.Quiet()
    ensures FILE in s.indices.subscribers && FILE !in s.osWatched
  {
    ReachesInit<State, Step>(INITIAL, Next);
    s := StartRegister(INITIAL);
    s := FinishWatch(s, 1);
    s := StartUnregister(s);
    s := BeginRemoval(s, 2);
    s := StartRegister(s);
    s := FinishRemoval(s, 2);
    s := FinishNothing(s, 1);
  }
}
