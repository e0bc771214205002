/** Interleaved atomic steps: a system of threads is its initial states and its
    step relation, and a run is any finite sequence of steps. */
module Runs {

  datatype System<!S, !A> = System(init: S -> bool, next: (S, A, S) -> bool)

  ghost predicate IsRun<S, A>(sys: System<S, A>, states: seq<S>, steps: seq<A>) {
    && |states| == |steps| + 1
    && sys.init(states[0])
    && forall i | 0 <= i < |steps| :: sys.next(states[i], steps[i], states[i + 1])
  }

  ghost predicate Inductive<S(!new), A(!new)>(sys: System<S, A>, inv: S -> bool) {
    && (forall s :: sys.init(s) ==> inv(s))
    && (forall s, a, t :: inv(s) && sys.next(s, a, t) ==> inv(t))
  }

  /** What holds initially and is kept by every step holds in every state of
      every run. */
  lemma {:induction false} HoldsThroughout<S(!new), A(!new)>(sys: System<S, A>, inv: S -> bool, states: seq<S>, steps: seq<A>, i: nat)
    requires Inductive(sys, inv) && IsRun(sys, states, steps) && i < |states|
    ensures inv(states[i])
  {
    if i > 0 {
      HoldsThroughout(sys, inv, states, steps, i - 1);
      assert sys.next(states[i - 1], steps[i - 1], states[i]);
    }
  }

  /** Some finite sequence of steps leads from one state to the other. */
  ghost predicate Leads<S(!new), A(!new)>(sys: System<S, A>, s: S, t: S) {
    exists states: seq<S>, steps: seq<A> :: IsPath(sys, states, steps) && states[0] == s && states[|steps|] == t
  }

  ghost predicate IsPath<S, A>(sys: System<S, A>, states: seq<S>, steps: seq<A>) {
    && |states| == |steps| + 1
    && forall i | 0 <= i < |steps| :: sys.next(states[i], steps[i], states[i + 1])
  }

  lemma LeadsByPath<S(!new), A(!new)>(sys: System<S, A>, states: seq<S>, steps: seq<A>)
    requires IsPath(sys, states, steps)
    ensures Leads(sys, states[0], states[|steps|])
  {
  }

  /** One step, and then what follows. */
  lemma LeadsOn<S(!new), A(!new)>(sys: System<S, A>, s: S, a: A, t: S, u: S)
    requires sys.next(s, a, t) && Leads(sys, t, u)
    ensures Leads(sys, s, u)
  {
    var states: seq<S>, steps: seq<A> :| IsPath(sys, states, steps) && states[0] == t && states[|steps|] == u;
    var states1, steps1 := [s] + states, [a] + steps;
    forall i | 0 <= i < |steps1|
      ensures sys.next(states1[i], steps1[i], states1[i + 1])
    {
      if i > 0 {
        assert sys.next(states[i - 1], steps[i - 1], states[i]);
      }
    }
    LeadsByPath(sys, states1, steps1);
  }

  lemma LeadsNowhere<S(!new), A(!new)>(sys: System<S, A>, s: S)
    ensures Leads(sys, s, s)
  {
    LeadsByPath(sys, [s], []);
  }

  /** What every step keeps is kept wherever the steps lead. */
  lemma LeadsKeeping<S(!new), A(!new)>(sys: System<S, A>, inv: S -> bool, s: S, t: S)
    requires inv(s) && Leads(sys, s, t)
    requires forall s, a, t :: inv(s) && sys.next(s, a, t) ==> inv(t)
    ensures inv(t)
  {
    var states: seq<S>, steps: seq<A> :| IsPath(sys, states, steps) && states[0] == s && states[|steps|] == t;
    KeptAlong(sys, inv, states, steps, |steps|);
  }

  lemma {:induction false} KeptAlong<S(!new), A(!new)>(sys: System<S, A>, inv: S -> bool, states: seq<S>, steps: seq<A>, i: nat)
    requires IsPath(sys, states, steps) && inv(states[0]) && i < |states|
    requires forall s, a, t :: inv(s) && sys.next(s, a, t) ==> inv(t)
    ensures inv(states[i])
  {
    if i > 0 {
      KeptAlong(sys, inv, states, steps, i - 1);
      assert sys.next(states[i - 1], steps[i - 1], states[i]);
    }
  }

  /** A later state of a run is where an earlier one led. */
  lemma RunLeads<S(!new), A(!new)>(sys: System<S, A>, states: seq<S>, steps: seq<A>, i: nat, j: nat)
    requires IsRun(sys, states, steps) && i <= j < |states|
    ensures Leads(sys, states[i], states[j])
  {
    var states1, steps1 := states[i..j + 1], steps[i..j];
    forall k | 0 <= k < |steps1|
      ensures sys.next(states1[k], steps1[k], states1[k + 1])
    {
      assert sys.next(states[i + k], steps[i + k], states[i + k + 1]);
    }
    LeadsByPath(sys, states1, steps1);
  }
}
