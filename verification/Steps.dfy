/** Runs of a transition system given by a total step function. */
module Steps {

  /** The state after a finite run. */
  ghost function After<S, E>(step: (S, E) -> S, start: S, events: seq<E>): S {
    if events == [] then start else step(After(step, start, events[..|events| - 1]), events[|events| - 1])
  }

  /** What every step keeps holds after every run. */
  lemma {:induction false} KeptForever<S(!new), E(!new)>(step: (S, E) -> S, kept: S -> bool, start: S, events: seq<E>)
    requires kept(start) && forall s, e :: kept(s) ==> kept(step(s, e))
    ensures kept(After(step, start, events))
  {
    if events != [] {
      KeptForever(step, kept, start, events[..|events| - 1]);
    }
  }

  lemma {:induction false} AfterAppended<S, E>(step: (S, E) -> S, start: S, events: seq<E>, later: seq<E>)
    ensures After(step, start, events + later) == After(step, After(step, start, events), later)
    decreases |later|
  {
    if later == [] {
      assert events + later == events;
    } else {
      var n := |later| - 1;
      AfterAppended(step, start, events, later[..n]);
      assert events + later == events + later[..n] + [later[n]];
      AfterOneMore(step, start, events + later[..n], later[n]);
    }
  }

  lemma AfterOneMore<S, E>(step: (S, E) -> S, start: S, events: seq<E>, e: E)
    ensures After(step, start, events + [e]) == step(After(step, start, events), e)
  {
    assert (events + [e])[..|events|] == events;
  }
}
