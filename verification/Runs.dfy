/** Runs of a state machine that is given by what each action makes of each state, if it can happen there. */
module Runs {

  datatype Option<+T> = None | Some(value: T)

  ghost predicate IsRun<S(!new), A(!new)>(step: (S, A) -> Option<S>, s: S, actions: seq<A>)
    decreases |actions|
  {
    actions == [] || (step(s, actions[0]).Some? && IsRun(step, step(s, actions[0]).value, actions[1..]))
  }

  ghost function Run<S(!new), A(!new)>(step: (S, A) -> Option<S>, s: S, actions: seq<A>): S
    requires IsRun(step, s, actions)
    decreases |actions|
  {
    if actions == [] then s else Run(step, step(s, actions[0]).value, actions[1..])
  }

  /** What every step keeps. */
  ghost predicate Kept<S(!new), A(!new)>(step: (S, A) -> Option<S>, good: S -> bool) {
    forall s, a :: good(s) && step(s, a).Some? ==> good(step(s, a).value)
  }

  /** What every action of some kind lowers. */
  ghost predicate Lowered<S(!new), A(!new)>(step: (S, A) -> Option<S>, good: S -> bool, kind: A -> bool,
                                            work: S -> nat) {
    forall s, a :: good(s) && kind(a) && step(s, a).Some? ==> work(step(s, a).value) < work(s)
  }

  lemma {:induction false} AlwaysKept<S(!new), A(!new)>(step: (S, A) -> Option<S>, good: S -> bool, s: S,
                                                        actions: seq<A>)
    requires Kept(step, good) && good(s) && IsRun(step, s, actions)
    ensures good(Run(step, s, actions))
    decreases |actions|
  {
    if actions != [] {
      AlwaysKept(step, good, step(s, actions[0]).value, actions[1..]);
    }
  }

  lemma {:induction false} Bounded<S(!new), A(!new)>(step: (S, A) -> Option<S>, good: S -> bool, kind: A -> bool,
                                                     work: S -> nat, s: S, actions: seq<A>)
    requires Kept(step, good) && Lowered(step, good, kind, work) && good(s) && IsRun(step, s, actions)
    requires forall i :: 0 <= i < |actions| ==> kind(actions[i])
    ensures |actions| <= work(s)
    decreases |actions|
  {
    if actions != [] {
      assert kind(actions[0]);
      Bounded(step, good, kind, work, step(s, actions[0]).value, actions[1..]);
    }
  }

  // ------------------------------------------------------------------ one machine as another sees it

  /** The actions of another machine that a run amounts to, where some amount to nothing. */
  ghost function Trace<S(!new), A(!new), B>(step: (S, A) -> Option<S>, part: (S, A) -> Option<B>, s: S,
                                            actions: seq<A>): seq<B>
    requires IsRun(step, s, actions)
    decreases |actions|
  {
    if actions == [] then []
    else
      (match part(s, actions[0]) case Some(b) => [b] case None => [])
      + Trace(step, part, step(s, actions[0]).value, actions[1..])
  }

  /** Each step is, in the view, the step of its part, or none. */
  ghost predicate Simulated<S(!new), A(!new), T(!new), B(!new)>(
    step: (S, A) -> Option<S>, good: S -> bool, view: S -> T, other: (T, B) -> Option<T>, part: (S, A) -> Option<B>)
  {
    forall s, a :: good(s) && step(s, a).Some? ==>
      if part(s, a).Some? then other(view(s), part(s, a).value) == Some(view(step(s, a).value))
      else view(step(s, a).value) == view(s)
  }

  lemma {:induction false} RunsAreSimulated<S(!new), A(!new), T(!new), B(!new)>(
    step: (S, A) -> Option<S>, good: S -> bool, view: S -> T, other: (T, B) -> Option<T>, part: (S, A) -> Option<B>,
    s: S, actions: seq<A>)
    requires Kept(step, good) && Simulated(step, good, view, other, part) && good(s) && IsRun(step, s, actions)
    ensures var own := Trace(step, part, s, actions);
            IsRun(other, view(s), own) && Run(other, view(s), own) == view(Run(step, s, actions))
    decreases |actions|
  {
    if actions != [] {
      var t := step(s, actions[0]).value;
      var rest := Trace(step, part, t, actions[1..]);
      RunsAreSimulated(step, good, view, other, part, t, actions[1..]);
      if part(s, actions[0]).Some? {
        var b := part(s, actions[0]).value;
        assert Trace(step, part, s, actions) == [b] + rest;
        assert ([b] + rest)[1..] == rest;
      } else {
        assert Trace(step, part, s, actions) == [] + rest == rest;
      }
    }
  }

  /** Whatever holds of every part that can occur holds of the trace. */
  lemma {:induction false} TraceParts<S(!new), A(!new), B(!new)>(step: (S, A) -> Option<S>, part: (S, A) -> Option<B>,
                                                                 kind: B -> bool, s: S, actions: seq<A>)
    requires IsRun(step, s, actions)
    requires forall t, i :: 0 <= i < |actions| && part(t, actions[i]).Some? ==> kind(part(t, actions[i]).value)
    ensures forall i :: 0 <= i < |Trace(step, part, s, actions)| ==> kind(Trace(step, part, s, actions)[i])
    decreases |actions|
  {
    if actions != [] {
      forall t, i | 0 <= i < |actions[1..]| && part(t, actions[1..][i]).Some?
        ensures kind(part(t, actions[1..][i]).value)
      {
        assert actions[1..][i] == actions[i + 1];
      }
      TraceParts(step, part, kind, step(s, actions[0]).value, actions[1..]);
    }
  }
}
