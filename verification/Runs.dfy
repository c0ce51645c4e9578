/** Runs of a state machine: a step function and the steps that may be taken. */
module Runs {

  predicate Allowed<S, A>(may: (S, A) -> bool, next: (S, A) -> S, s: S, steps: seq<A>)
    decreases |steps|
  {
    steps == [] || (may(s, steps[0]) && Allowed(may, next, next(s, steps[0]), steps[1..]))
  }

  function Run<S, A>(next: (S, A) -> S, s: S, steps: seq<A>): S
    decreases |steps|
  {
    if steps == [] then s else Run(next, next(s, steps[0]), steps[1..])
  }

  // One run after another is a run.
  lemma {:induction false} Then<S, A>(may: (S, A) -> bool, next: (S, A) -> S, s: S, steps: seq<A>, more: seq<A>)
    ensures Allowed(may, next, s, steps + more) <==>
      Allowed(may, next, s, steps) && Allowed(may, next, Run(next, s, steps), more)
    ensures Run(next, s, steps + more) == Run(next, Run(next, s, steps), more)
    decreases |steps|
  {
    if steps == [] {
      assert steps + more == more;
    } else {
      Then(may, next, next(s, steps[0]), steps[1..], more);
      assert (steps + more)[1..] == steps[1..] + more;
    }
  }
}
