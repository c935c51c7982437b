/** Runs of a machine: a starting state, a step function and the actions taken one after the other. */
module Runs {

  function After<S, A>(step: (S, A) -> S, s: S, acts: seq<A>): S {
    if acts == [] then s else step(After(step, s, acts[..|acts| - 1]), acts[|acts| - 1])
  }

  /** How many actions of the run are of the kind `pick` looks for in the state they are taken in. */
  function Tally<S, A>(step: (S, A) -> S, pick: (S, A) -> bool, s: S, acts: seq<A>): nat {
    if acts == [] then 0
    else
      var before := acts[..|acts| - 1];
      Tally(step, pick, s, before) + if pick(After(step, s, before), acts[|acts| - 1]) then 1 else 0
  }

  /** When every counted step uses up some of a potential, and no other step adds to it, there are no more counted steps
      than the potential at the start. */
  lemma {:induction false} Amortised<S(!new), A(!new)>(
      step: (S, A) -> S, inv: S -> bool, pick: (S, A) -> bool, potential: S -> nat, s: S, acts: seq<A>)
    requires inv(s)
    requires forall s', a :: inv(s') ==>
               inv(step(s', a)) && potential(step(s', a)) + (if pick(s', a) then 1 else 0) <= potential(s')
    ensures inv(After(step, s, acts))
    ensures Tally(step, pick, s, acts) + potential(After(step, s, acts)) <= potential(s)
  {
    if acts != [] {
      Amortised(step, inv, pick, potential, s, acts[..|acts| - 1]);
    }
  }
}
