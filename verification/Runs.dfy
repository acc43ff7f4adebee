/** Runs of a state machine, given by what one step does. */
module Runs {
  import opened Text

  /** The state after some steps; `None` when one of them cannot be taken. */
  function Run<S, A>(next: (S, A) -> Maybe<S>, st: S, steps: seq<A>): Maybe<S>
    decreases |steps|
  {
    if steps == [] then Some(st)
    else
      match next(st, steps[0])
      case Some(st') => Run(next, st', steps[1..])
      case None => None
  }

  /** What every step keeps, every run keeps. */
  lemma {:induction false} RunKeeps<S(!new), A(!new)>(
      next: (S, A) -> Maybe<S>, inv: S -> bool, allowed: A -> bool, st: S, steps: seq<A>)
    requires inv(st) && Run(next, st, steps).Some?
    requires forall i :: 0 <= i < |steps| ==> allowed(steps[i])
    requires forall s, a :: inv(s) && allowed(a) && next(s, a).Some? ==> inv(next(s, a).value)
    ensures inv(Run(next, st, steps).value)
    decreases |steps|
  {
    if steps != [] {
      RunKeeps(next, inv, allowed, next(st, steps[0]).value, steps[1..]);
    }
  }

  lemma {:induction false} RunOn<S, A>(next: (S, A) -> Maybe<S>, st: S, steps: seq<A>, more: seq<A>)
    requires Run(next, st, steps).Some?
    ensures Run(next, st, steps + more) == Run(next, Run(next, st, steps).value, more)
    decreases |steps|
  {
    if steps == [] {
      assert steps + more == more;
    } else {
      assert (steps + more)[1..] == steps[1..] + more;
      RunOn(next, next(st, steps[0]).value, steps[1..], more);
    }
  }

  /** A run followed by one more step. */
  lemma {:induction false} RunSnoc<S, A>(next: (S, A) -> Maybe<S>, st: S, steps: seq<A>, a: A)
    requires Run(next, st, steps).Some?
    ensures Run(next, st, steps + [a]) == next(Run(next, st, steps).value, a)
  {
    RunOn(next, st, steps, [a]);
  }

  /** Every step of a run is allowed in the state in which it is taken. */
  ghost predicate Along<S(!new), A(!new)>(next: (S, A) -> Maybe<S>, allowed: (S, A) -> bool, st: S, steps: seq<A>)
    decreases |steps|
  {
    steps != [] ==>
      && allowed(st, steps[0])
      && (next(st, steps[0]).Some? ==> Along(next, allowed, next(st, steps[0]).value, steps[1..]))
  }

  /** What every allowed step keeps, every run of allowed steps keeps. */
  lemma {:induction false} AlongKeeps<S(!new), A(!new)>(
      next: (S, A) -> Maybe<S>, inv: S -> bool, allowed: (S, A) -> bool, st: S, steps: seq<A>)
    requires inv(st) && Run(next, st, steps).Some? && Along(next, allowed, st, steps)
    requires forall s, a :: inv(s) && allowed(s, a) && next(s, a).Some? ==> inv(next(s, a).value)
    ensures inv(Run(next, st, steps).value)
    decreases |steps|
  {
    if steps != [] {
      AlongKeeps(next, inv, allowed, next(st, steps[0]).value, steps[1..]);
    }
  }
}
