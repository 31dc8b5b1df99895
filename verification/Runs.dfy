/** Runs of a nondeterministic state machine, shared by the modules that model threads as
    interleaved atomic steps. */
module Runs {

  /** A finite run: it starts in an initial state and every adjacent pair is one step. */
  ghost predicate IsRun<S(!new)>(init: S -> bool, next: (S, S) -> bool, run: seq<S>) {
    && |run| > 0
    && init(run[0])
    && forall i | 0 <= i < |run| - 1 :: next(run[i], run[i + 1])
  }

  ghost predicate Reachable<S(!new)>(init: S -> bool, next: (S, S) -> bool, s: S) {
    exists run: seq<S> :: IsRun(init, next, run) && run[|run| - 1] == s
  }

  /** What holds initially and is kept by every step holds in every state of every run. */
  lemma {:induction false} Invariance<S(!new)>(init: S -> bool, next: (S, S) -> bool, inv: S -> bool, run: seq<S>)
    requires IsRun(init, next, run)
    requires forall s | init(s) :: inv(s)
    requires forall s, t | inv(s) && next(s, t) :: inv(t)
    ensures forall i | 0 <= i < |run| :: inv(run[i])
  {
    for n := 1 to |run|
      invariant forall i | 0 <= i < n :: inv(run[i])
    {
      assert next(run[n - 1], run[n]);
    }
  }

  lemma ReachableInvariance<S(!new)>(init: S -> bool, next: (S, S) -> bool, inv: S -> bool, s: S)
    requires Reachable(init, next, s)
    requires forall s | init(s) :: inv(s)
    requires forall s, t | inv(s) && next(s, t) :: inv(t)
    ensures inv(s)
  {
    var run :| IsRun(init, next, run) && run[|run| - 1] == s;
    Invariance(init, next, inv, run);
  }

  /** A run whose every step lowers a natural number is no longer than that number allows. */
  lemma {:induction false} BoundedRun<S(!new)>(init: S -> bool, next: (S, S) -> bool, inv: S -> bool,
                                               measure: S -> nat, run: seq<S>)
    requires IsRun(init, next, run)
    requires forall s | init(s) :: inv(s)
    requires forall s, t | inv(s) && next(s, t) :: inv(t) && measure(t) < measure(s)
    ensures |run| <= measure(run[0]) + 1
  {
    Invariance(init, next, inv, run);
    for n := 1 to |run|
      invariant measure(run[n - 1]) + n - 1 <= measure(run[0])
    {
      assert next(run[n - 1], run[n]);
    }
  }

  lemma ReachInit<S(!new)>(init: S -> bool, next: (S, S) -> bool, s: S)
    requires init(s)
    ensures Reachable(init, next, s)
  {
    assert IsRun(init, next, [s]);
  }

  lemma ReachStep<S(!new)>(init: S -> bool, next: (S, S) -> bool, s: S, t: S)
    requires Reachable(init, next, s) && next(s, t)
    ensures Reachable(init, next, t)
  {
    var run :| IsRun(init, next, run) && run[|run| - 1] == s;
    var run' := run + [t];
    forall i | 0 <= i < |run'| - 1 ensures next(run'[i], run'[i + 1]) {
      if i < |run| - 1 { assert next(run[i], run[i + 1]); }
    }
    assert IsRun(init, next, run');
  }
}
