/** The shell-environment probe protocol (env.rs): a generation-stamped state under a mutex, a cache under
its own lock, and workers that report back at any later time.

`ShellEnvProbe` has the operations as the source runs them, each under the state mutex. `Machine` lets them
interleave, with the cache write inside `finish` and `invalidate` as a step of its own, because readers of
the cache do not take the mutex. An epoch is the number of invalidations so far; the generation is the
epoch modulo 2^64. */
module ShellProbe {
  import opened Text
  import opened Runs

  type Env = map<string, string>

  datatype Phase = Idle | Running | WaitExpired | Complete

  datatype Probe = Probe(generation: nat, phase: Phase) {
    function Begun(): Probe {
      if phase == Idle then this.(phase := Running) else this
    }

    /** Whether a worker's result is still wanted. */
    predicate Accepts(workerGeneration: nat) {
      generation == workerGeneration && (phase == Running || phase == WaitExpired)
    }

    function Released(): Probe {
      if phase == Running then this.(phase := WaitExpired) else this
    }

    function Invalidated(): Probe {
      Probe((generation + 1) % GENERATIONS, Idle)
    }
  }

  const GENERATIONS: nat := 0x1_0000_0000_0000_0000

  // ---------- The operations ----------

  class ShellEnvProbe {
    var state: Probe
    var cache: Option<Env>

    constructor ()
      ensures state == Probe(0, Idle) && cache == None
    {
      state, cache := Probe(0, Idle), None;
    }

    /** Claim the probe of the current generation; `None` when it has already been claimed. */
    method Begin() returns (generation: Option<nat>)
      modifies this`state
      ensures state.generation == old(state).generation
      ensures old(state).phase == Idle ==> state.phase == Running && generation == Some(state.generation)
      ensures old(state).phase != Idle ==> state == old(state) && generation == None
    {
      if state.phase != Idle {
        return None;
      }
      state := state.(phase := Running);
      return Some(state.generation);
    }

    /** Publish a worker's result, unless the probe it belongs to is over. */
    method Finish(generation: nat, env: Option<Env>)
      modifies this
      ensures var open := old(state).phase == Running || old(state).phase == WaitExpired;
              if open && old(state).generation == generation then
                && state == Probe(generation, Complete)
                && cache == if env.Some? then env else old(cache)
              else state == old(state) && cache == old(cache)
    {
      if state.generation != generation || !(state.phase == Running || state.phase == WaitExpired) {
        return;
      }
      if env.Some? {
        cache := env;
      }
      state := state.(phase := Complete);
    }

    /** Let the waiters go on; a result that comes later is still wanted. */
    method ReleaseWaiters()
      modifies this`state
      ensures state.generation == old(state).generation
      ensures state.phase == if old(state).phase == Running then WaitExpired else old(state).phase
    {
      if state.phase == Running {
        state := state.(phase := WaitExpired);
      }
    }

    method Invalidate()
      modifies this
      ensures state.generation == (old(state).generation + 1) % 0x1_0000_0000_0000_0000
      ensures state.phase == Idle && cache == None
    {
      state := Probe((state.generation + 1) % GENERATIONS, Idle);
      cache := None;
    }
  }

  // ---------- Interleavings ----------

  /** A cached environment, with the epoch in which its worker began. */
  datatype Capture = Capture(epoch: nat, env: Env)

  /** Who is inside the state mutex between two of its writes. */
  datatype Mutex = Free | Invalidating | Publishing(worker: nat)

  datatype Machine = Machine(
    probe: Probe, cache: Option<Capture>, mutex: Mutex,
    epoch: nat, workers: map<nat, nat>,          // each outstanding worker, and the epoch it began in
    started: seq<nat>, published: seq<nat>)      // the epochs of all probes begun and of all results accepted
  {
    function Generation(worker: nat): nat
      requires worker in workers
    {
      workers[worker] % GENERATIONS
    }
  }

  const INITIAL := Machine(Probe(0, Idle), None, Free, 0, map[], [], [])

  datatype Step =
    | Begin(worker: nat)                            // prewarm, and the start of its worker
    | FinishWrite(worker: nat, env: Option<Env>)    // finish: the check and the cache write
    | FinishComplete(worker: nat)                   // finish: the phase
    | Expire                                        // a waiter gives up
    | InvalidateBump                                // invalidate: generation and phase
    | InvalidateClear                               // invalidate: the cache

  predicate Enabled(m: Machine, step: Step) {
    match step
    case Begin(w) => m.mutex == Free && w !in m.workers
    case FinishWrite(w, _) => m.mutex == Free && w in m.workers
    case FinishComplete(w) => m.mutex == Publishing(w)
    case Expire => m.mutex == Free
    case InvalidateBump => m.mutex == Free
    case InvalidateClear => m.mutex == Invalidating
  }

  function Apply(m: Machine, step: Step): Machine
    requires Enabled(m, step)
  {
    match step
    case Begin(w) =>
      if m.probe.phase == Idle then
        m.(probe := m.probe.Begun(), workers := m.workers[w := m.epoch], started := m.started + [m.epoch])
      else m
    case FinishWrite(w, env) =>
      if m.probe.Accepts(m.Generation(w)) then
        m.(cache := if env.Some? then Some(Capture(m.workers[w], env.value)) else m.cache,
           mutex := Publishing(w), published := m.published + [m.epoch])
      else m.(workers := m.workers - {w})
    case FinishComplete(w) =>
      m.(probe := m.probe.(phase := Complete), mutex := Free, workers := m.workers - {w})
    case Expire => m.(probe := m.probe.Released())
    case InvalidateBump => m.(probe := m.probe.Invalidated(), epoch := m.epoch + 1, mutex := Invalidating)
    case InvalidateClear => m.(cache := None, mutex := Free)
  }

  ghost predicate Next(s: Machine, step: Step, s': Machine) {
    Enabled(s, step) && s' == Apply(s, step)
  }

  ghost predicate Run(states: seq<Machine>, steps: seq<Step>) {
    IsRun(INITIAL, Next, states, steps)
  }

  /** Some run ends in the state. */
  ghost predicate Reachable(s: Machine) {
    Reaches<Machine, Step>(INITIAL, Next, s)
  }

  /** Every outstanding worker began fewer than 2^64 invalidations ago. */
  ghost predicate WithinWrap(m: Machine) {
    forall w :: w in m.workers ==> m.epoch - m.workers[w] < GENERATIONS
  }

  predicate Increasing(s: seq<nat>) {
    forall i, j :: 0 <= i < j < |s| ==> s[i] < s[j]
  }

  /** What holds without any assumption on the number of invalidations. */
  ghost predicate Inv(m: Machine) {
    && m.probe.generation == m.epoch % GENERATIONS
    && (forall w :: w in m.workers ==> m.workers[w] <= m.epoch)
    && (m.mutex == Invalidating ==> m.probe.phase == Idle)
    && (m.mutex.Publishing? ==> m.probe.phase == Running || m.probe.phase == WaitExpired)
    && Increasing(m.started) && Increasing(m.published)
    && (forall e :: e in m.started ==> e <= m.epoch)
    && (forall e :: e in m.published ==> e in m.started)
    && (m.epoch in m.started <==> m.probe.phase != Idle)
    && (m.epoch in m.published ==> m.probe.phase == Complete || m.mutex.Publishing?)
    && (m.mutex != Invalidating && m.cache.Some? ==> m.epoch in m.published)
  }

  /** A visible result comes from a worker that began after the latest invalidation; after the one before, if
      an invalidation has advanced the generation and not yet cleared the cache. */
  ghost predicate Current(m: Machine) {
    m.cache.Some? ==> m.epoch == m.cache.value.epoch + if m.mutex == Invalidating then 1 else 0
  }

  lemma IncreasingPush(s: seq<nat>, e: nat)
    requires Increasing(s) && forall x :: x in s ==> x < e
    ensures Increasing(s + [e])
  {
    assert forall i :: 0 <= i < |s| ==> s[i] in s;
  }

  lemma StepKeepsInv(m: Machine, step: Step)
    requires Inv(m) && Enabled(m, step)
    ensures Inv(Apply(m, step))
  {
    match step
    case Begin(w) =>
      if m.probe.phase == Idle {
        IncreasingPush(m.started, m.epoch);
      }
    case FinishWrite(w, env) =>
      if m.probe.Accepts(m.Generation(w)) {
        IncreasingPush(m.published, m.epoch);
      }
    case InvalidateBump =>
    case _ =>
  }

  /** The generation check accepts a worker exactly when it is a whole number of wraps behind. */
  lemma SameGeneration(worker: nat, epoch: nat)
    requires worker <= epoch
    ensures worker % GENERATIONS == epoch % GENERATIONS <==> (epoch - worker) % GENERATIONS == 0
  {
  }

  /** A worker's result goes wrong exactly when a probe is open and the worker began a positive multiple of
      2^64 invalidations ago. */
  lemma StaleExactly(m: Machine, w: nat, env: Env)
    requires Inv(m) && Current(m) && Enabled(m, FinishWrite(w, Some(env)))
    ensures !Current(Apply(m, FinishWrite(w, Some(env)))) <==>
              && (m.probe.phase == Running || m.probe.phase == WaitExpired)
              && m.workers[w] < m.epoch && (m.epoch - m.workers[w]) % GENERATIONS == 0
  {
    SameGeneration(m.workers[w], m.epoch);
  }

  /** In every interleaving, however many invalidations it has: each epoch begins at most one probe and
      accepts at most one result, which is of a probe it began. */
  lemma {:induction false} EveryInterleavingKeepsInv(states: seq<Machine>, steps: seq<Step>, i: nat)
    requires Run(states, steps) && i <= |steps|
    ensures Inv(states[i])
  {
    if i > 0 {
      assert Next(states[i - 1], steps[i - 1], states[i]);
      EveryInterleavingKeepsInv(states, steps, i - 1);
      StepKeepsInv(states[i - 1], steps[i - 1]);
    }
  }

  /** As long as no worker stays out for 2^64 invalidations, a reader sees nothing, or the result of the current
      epoch's own worker, unless it looks between the two writes of an invalidation: exactly then it sees the
      result of the epoch before. Once the mutex is free again the phase is Complete. */
  lemma {:induction false} NoStaleResult(states: seq<Machine>, steps: seq<Step>, i: nat)
    requires Run(states, steps) && i <= |steps|
    requires forall j :: 0 <= j < i ==> WithinWrap(states[j])
    ensures Current(states[i])
    ensures states[i].cache.Some? ==>
              (states[i].cache.value.epoch < states[i].epoch <==> states[i].mutex == Invalidating)
    ensures states[i].mutex == Free && states[i].cache.Some? ==> states[i].probe.phase == Complete
  {
    EveryInterleavingKeepsInv(states, steps, i);
    if i > 0 {
      assert Next(states[i - 1], steps[i - 1], states[i]);
      NoStaleResult(states, steps, i - 1);
      EveryInterleavingKeepsInv(states, steps, i - 1);
    }
  }

  // ---------- Current results are accepted ----------

  /** The current epoch has at most one worker out, and its probe is open; the one who publishes is it. */
  ghost predicate Awaited(m: Machine) {
    && (forall w :: w in m.workers ==> m.workers[w] in m.started)
    && (forall w, v :: w in m.workers && v in m.workers && m.workers[w] == m.workers[v] ==> w == v)
    && (forall w :: w in m.workers && m.workers[w] == m.epoch ==>
          m.probe.phase == Running || m.probe.phase == WaitExpired)
    && (m.mutex.Publishing? ==> m.mutex.worker in m.workers && m.workers[m.mutex.worker] == m.epoch)
  }

  lemma StepKeepsAwaited(m: Machine, step: Step)
    requires Inv(m) && WithinWrap(m) && Awaited(m) && Enabled(m, step)
    ensures Awaited(Apply(m, step))
  {
    match step
    case Begin(w) =>
      assert m.probe.phase == Idle ==> m.epoch !in m.started && forall v :: v in m.workers ==> m.workers[v] != m.epoch;
    case FinishWrite(w, _) => SameGeneration(m.workers[w], m.epoch);
    case _ =>
  }

  lemma {:induction false} RunKeepsAwaited(states: seq<Machine>, steps: seq<Step>, i: nat)
    requires Run(states, steps) && i <= |steps|
    requires forall j :: 0 <= j < i ==> WithinWrap(states[j])
    ensures Awaited(states[i])
  {
    if i > 0 {
      assert Next(states[i - 1], steps[i - 1], states[i]);
      RunKeepsAwaited(states, steps, i - 1);
      EveryInterleavingKeepsInv(states, steps, i - 1);
      StepKeepsAwaited(states[i - 1], steps[i - 1]);
    }
  }

  /** In every run within the wrap, whatever expiries and invalidations went before: a result is taken if and only
      if its worker began in the current epoch, and then readers see it. */
  lemma AcceptedExactly(states: seq<Machine>, steps: seq<Step>, i: nat, w: nat, env: Option<Env>)
    requires Run(states, steps) && i <= |steps| && forall j :: 0 <= j <= i ==> WithinWrap(states[j])
    requires states[i].mutex == Free && w in states[i].workers
    ensures var m, m' := states[i], Apply(states[i], FinishWrite(w, env));
            && (m'.mutex == Publishing(w) <==> m.workers[w] == m.epoch)
            && (m.workers[w] == m.epoch ==> m'.cache == if env.Some? then Some(Capture(m.epoch, env.value)) else None)
            && (m.workers[w] != m.epoch ==> m'.cache == m.cache && m'.probe == m.probe)
  {
    EveryInterleavingKeepsInv(states, steps, i);
    RunKeepsAwaited(states, steps, i);
    NoStaleResult(states, steps, i);
    SameGeneration(states[i].workers[w], states[i].epoch);
  }

  /** An expiry lets the waiters go on, and changes nothing else. */
  lemma ExpiryReleases(m: Machine)
    requires m.mutex == Free
    ensures var m' := Apply(m, Expire);
            m'.probe.phase != Running && m' == m.(probe := m.probe.(phase := m'.probe.phase))
            && (m.probe.phase != Running ==> m' == m)
  {
  }

  // ---------- The assumption is needed ----------

  lemma Extend(m: Machine, step: Step) returns (m': Machine)
    requires Reachable(m) && Enabled(m, step)
    ensures m' == Apply(m, step) && Reachable(m')
  {
    m' := Apply(m, step);
    ReachesNext(INITIAL, Next, m, step, m');
  }

  /** Readers do not take the mutex, so one that looks in the middle of an invalidation sees the old result. */
  lemma OldResultWhileInvalidating(env: Env) returns (m: Machine)
    ensures Reachable(m) && m.mutex == Invalidating && m.epoch == 1 && m.cache == Some(Capture(0, env))
  {
    ReachesInit<Machine, Step>(INITIAL, Next);
    m := Extend(INITIAL, Begin(0));
    m := Extend(m, FinishWrite(0, Some(env)));
    m := Extend(m, FinishComplete(0));
    m := Extend(m, InvalidateBump);
  }

  /** Worker 0 begins, and `n` invalidations go by. */
  lemma {:induction false} Invalidations(n: nat) returns (m: Machine)
    ensures Reachable(m) && m.mutex == Free && m.epoch == n && m.workers == map[0 := 0]
    ensures n > 0 ==> m.probe.phase == Idle
  {
    if n == 0 {
      ReachesInit<Machine, Step>(INITIAL, Next);
      m := Extend(INITIAL, Begin(0));
    } else {
      m := Invalidations(n - 1);
      m := Extend(m, InvalidateBump);
      m := Extend(m, InvalidateClear);
    }
  }

  /** After exactly 2^64 invalidations the first worker's generation is current again, and its old result is
      published as the result of the new probe. */
  lemma StaleResultAfterWrap(env: Env) returns (m: Machine)
    ensures Reachable(m) && m.epoch == GENERATIONS
    ensures m.mutex != Invalidating && m.cache == Some(Capture(0, env)) && !Current(m)
  {
    m := Invalidations(GENERATIONS);
    m := Extend(m, Begin(1));
    ReachableInv(m);
    m := Extend(m, FinishWrite(0, Some(env)));
  }

  lemma ReachableInv(m: Machine)
    requires Reachable(m)
    ensures Inv(m)
  {
    var states: seq<Machine>, steps: seq<Step> :| IsRun(INITIAL, Next, states, steps) && states[|steps|] == m;
    EveryInterleavingKeepsInv(states, steps, |steps|);
  }
}
