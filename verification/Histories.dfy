/** Sets of cells that a sequence of steps touched. */
module Histories {

  /** The cells some step touched, each step touching `pick(step)`. */
  function Touched<S>(steps: seq<S>, pick: S -> set<nat>): set<nat> {
    if steps == [] then {} else Touched(steps[..|steps| - 1], pick) + pick(steps[|steps| - 1])
  }

  lemma TouchedNext<S>(steps: seq<S>, step: S, pick: S -> set<nat>)
    ensures Touched(steps + [step], pick) == Touched(steps, pick) + pick(step)
  {
    assert (steps + [step])[..|steps|] == steps;
  }

  lemma {:induction false} TouchedBy<S>(steps: seq<S>, pick: S -> set<nat>, k: nat)
    requires k < |steps|
    ensures pick(steps[k]) <= Touched(steps, pick)
  {
    if k < |steps| - 1 {
      TouchedBy(steps[..|steps| - 1], pick, k);
    }
  }

  lemma {:induction false} TouchedNothing<S>(steps: seq<S>, pick: S -> set<nat>)
    requires forall k | 0 <= k < |steps| :: pick(steps[k]) == {}
    ensures Touched(steps, pick) == {}
  {
    if steps != [] {
      TouchedNothing(steps[..|steps| - 1], pick);
    }
  }

  lemma LastStep<S>(steps: seq<S>)
    requires steps != []
    ensures steps == steps[..|steps| - 1] + [steps[|steps| - 1]]
  {
  }
}
