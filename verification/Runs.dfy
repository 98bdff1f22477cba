/** Runs of a step system: the state reached from a start state by a sequence of events. */
module Runs {

  function Reached<S, E>(step: (S, E) -> S, start: S, evs: seq<E>): S
  {
    if evs == [] then start else step(Reached(step, start, evs[..|evs| - 1]), evs[|evs| - 1])
  }

  lemma ReachedNext<S, E>(step: (S, E) -> S, start: S, evs: seq<E>, e: E)
    ensures Reached(step, start, evs + [e]) == step(Reached(step, start, evs), e)
  {
  }

  /** A run may be cut anywhere and continued from the state reached there. */
  lemma {:induction false} ReachedInParts<S, E>(step: (S, E) -> S, start: S, evs: seq<E>, more: seq<E>)
    ensures Reached(step, start, evs + more) == Reached(step, Reached(step, start, evs), more)
  {
    if more == [] {
      assert evs + more == evs;
    } else {
      ReachedInParts(step, start, evs, more[..|more| - 1]);
      assert (evs + more)[..|evs + more| - 1] == evs + more[..|more| - 1];
    }
  }
}
