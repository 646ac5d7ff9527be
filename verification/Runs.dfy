/** Runs of a state machine: the states that a sequence of steps leads through. */
module Runs {

  ghost predicate IsRun<S(!new), A(!new)>(init: S, next: (S, A, S) -> bool, states: seq<S>, steps: seq<A>) {
    && |states| == |steps| + 1
    && states[0] == init
    && forall i :: 0 <= i < |steps| ==> next(states[i], steps[i], states[i + 1])
  }

  ghost predicate Reaches<S(!new), A(!new)>(init: S, next: (S, A, S) -> bool, s: S) {
    exists states: seq<S>, steps: seq<A> :: IsRun(init, next, states, steps) && states[|steps|] == s
  }

  lemma ReachesInit<S(!new), A(!new)>(init: S, next: (S, A, S) -> bool)
    ensures Reaches(init, next, init)
  {
    var steps: seq<A> := [];
    assert IsRun(init, next, [init], steps);
  }

  /** A run goes on with any step that its last state allows. */
  lemma RunGoesOn<S(!new), A(!new)>(
    init: S, next: (S, A, S) -> bool, states: seq<S>, steps: seq<A>, step: A, s': S)
    requires IsRun(init, next, states, steps) && next(states[|steps|], step, s')
    ensures IsRun(init, next, states + [s'], steps + [step])
  {
    var states', steps' := states + [s'], steps + [step];
    forall i | 0 <= i < |steps'|
      ensures next(states'[i], steps'[i], states'[i + 1])
    {
      if i < |steps| {
        assert next(states[i], steps[i], states[i + 1]);
      }
    }
  }

  /** A step leads from a reachable state to a reachable one. */
  lemma ReachesNext<S(!new), A(!new)>(init: S, next: (S, A, S) -> bool, s: S, step: A, s': S)
    requires Reaches(init, next, s) && next(s, step, s')
    ensures Reaches(init, next, s')
  {
    var states: seq<S>, steps: seq<A> :| IsRun(init, next, states, steps) && states[|steps|] == s;
    RunGoesOn(init, next, states, steps, step, s');
  }

  /** Induction along a run. */
  lemma {:induction false} Along(p: nat -> bool, n: nat)
    requires p(0) && forall k: nat :: k < n && p(k) ==> p(k + 1)
    ensures p(n)
  {
    if n > 0 {
      Along(p, n - 1);
    }
  }

  /** Something that has happened before `i` and has not been undone since. */
  ghost predicate Since(happens: nat -> bool, undone: nat -> bool, i: nat) {
    exists j: nat :: j < i && happens(j) && forall k: nat :: j < k < i ==> !undone(k)
  }

  lemma SinceStep(happens: nat -> bool, undone: nat -> bool, i: nat)
    ensures Since(happens, undone, i + 1) <==> happens(i) || (Since(happens, undone, i) && !undone(i))
  {
    if Since(happens, undone, i + 1) {
      var j: nat :| j < i + 1 && happens(j) && forall k: nat :: j < k < i + 1 ==> !undone(k);
      assert j < i ==> Since(happens, undone, i);
    }
  }
}
