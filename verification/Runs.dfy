/** Runs of a state machine, given by its step relation, and induction over them. */
module Runs {
  ghost predicate IsRun<S(!new), E(!new)>(next: (S, E, S) -> bool, states: seq<S>, events: seq<E>) {
    && |states| == |events| + 1
    && forall i {:trigger events[i]} :: 0 <= i < |events| ==> next(states[i], events[i], states[i + 1])
  }

  /** What every step keeps still holds at j if it holds at i. */
  lemma {:induction false} KeptBetween<S(!new), E(!new)>(
      next: (S, E, S) -> bool, inv: S -> bool, states: seq<S>, events: seq<E>, i: nat, j: nat)
    requires |states| == |events| + 1 && i <= j <= |events| && inv(states[i])
    requires forall m {:trigger events[m]} :: i <= m < j ==> next(states[m], events[m], states[m + 1])
    requires forall s, e, t :: inv(s) && next(s, e, t) ==> inv(t)
    ensures inv(states[j])
    decreases j - i
  {
    if i == j {
    } else {
      KeptBetween(next, inv, states, events, i, j - 1);
      assert next(states[j - 1], events[j - 1], states[j]);
    }
  }
}
