/**
 * The shape every lambda_handler shares: walk the candidates in order, let
 * each one issue its calls and add to a pending counter, stop at an
 * exception nothing catches, and raise SnapshotToolException when the
 * counter ends above zero.
 */
module Passes {
  import opened Wrappers
  import opened Requests

  /** What one candidate does: the calls it attempts, what it adds to pending, an uncaught exception. */
  datatype Effect = Effect(calls: seq<Request>, pending: nat, abort: Option<Failure>)

  /** The state of a pass after some candidates. */
  datatype Tally = Tally(calls: seq<Request>, pending: nat, aborted: Option<Failure>)

  /** How a pass ends: normally, with SnapshotToolException(pending), or with an uncaught exception. */
  datatype Outcome = Done | Pending(count: nat) | Aborted(cause: Failure)

  function Run<T>(step: T -> Effect, xs: seq<T>): Tally {
    if |xs| == 0 then Tally([], 0, None)
    else
      var t := Run(step, xs[..|xs| - 1]);
      if t.aborted.Some? then t
      else
        var e := step(xs[|xs| - 1]);
        Tally(t.calls + e.calls, t.pending + e.pending, e.abort)
  }

  /** `if pending > 0: raise SnapshotToolException(...)` after the loop. */
  function Conclude(t: Tally): (o: Outcome)
    ensures o == Done <==> t.aborted.None? && t.pending == 0
  {
    if t.aborted.Some? then Aborted(t.aborted.value)
    else if t.pending > 0 then Pending(t.pending)
    else Done
  }

  /** The number of candidates satisfying `p`. */
  function Count<T>(p: T -> bool, xs: seq<T>): nat {
    if |xs| == 0 then 0 else Count(p, xs[..|xs| - 1]) + (if p(xs[|xs| - 1]) then 1 else 0)
  }

  lemma {:induction false} CountPositive<T>(p: T -> bool, xs: seq<T>)
    ensures Count(p, xs) > 0 <==> exists i | 0 <= i < |xs| :: p(xs[i])
  {
    if |xs| > 0 {
      var init := xs[..|xs| - 1];
      CountPositive(p, init);
      assert forall i | 0 <= i < |init| :: init[i] == xs[i];
    }
  }

  /** A pass is aborted exactly when some candidate raises. */
  lemma {:induction false} RunAborts<T>(step: T -> Effect, xs: seq<T>)
    ensures Run(step, xs).aborted.Some? <==> exists i | 0 <= i < |xs| :: step(xs[i]).abort.Some?
  {
    if |xs| > 0 {
      var init := xs[..|xs| - 1];
      RunAborts(step, init);
      assert forall i | 0 <= i < |init| :: init[i] == xs[i];
    }
  }

  /** Once a prefix of the candidates has aborted, the rest change nothing. */
  lemma {:induction false} RunSticks<T>(step: T -> Effect, xs: seq<T>, n: nat)
    requires n <= |xs| && Run(step, xs[..n]).aborted.Some?
    ensures Run(step, xs) == Run(step, xs[..n])
    decreases |xs| - n
  {
    if n < |xs| {
      assert xs[..n + 1][..n] == xs[..n];
      RunSticks(step, xs, n + 1);
    } else {
      assert xs[..n] == xs;
    }
  }

  /** One more candidate of a pass that has not aborted. */
  lemma RunStep<T>(step: T -> Effect, xs: seq<T>, i: nat)
    requires i < |xs| && Run(step, xs[..i]).aborted.None?
    ensures var t, e := Run(step, xs[..i]), step(xs[i]);
      Run(step, xs[..i + 1]) == Tally(t.calls + e.calls, t.pending + e.pending, e.abort)
  {
    assert xs[..i + 1][..i] == xs[..i];
  }

  /** An aborted pass stops at the first candidate that raises: later ones do nothing. */
  lemma {:induction false} RunStopsAtFirst<T>(step: T -> Effect, xs: seq<T>)
    requires Run(step, xs).aborted.Some?
    ensures exists i | 0 <= i < |xs| ::
      Run(step, xs) == Run(step, xs[..i + 1]) && Run(step, xs).aborted == step(xs[i]).abort &&
      forall j | 0 <= j < i :: step(xs[j]).abort.None?
  {
    var init := xs[..|xs| - 1];
    assert forall i | 0 <= i < |init| :: init[i] == xs[i];
    if Run(step, init).aborted.Some? {
      RunStopsAtFirst(step, init);
      var i :| 0 <= i < |init| &&
        Run(step, init) == Run(step, init[..i + 1]) && Run(step, init).aborted == step(init[i]).abort &&
        forall j | 0 <= j < i :: step(init[j]).abort.None?;
      assert init[..i + 1] == xs[..i + 1];
    } else {
      RunAborts(step, init);
      assert xs[..|xs|] == xs;
      var i := |xs| - 1;
      assert Run(step, xs) == Run(step, xs[..i + 1]);
    }
  }

  /** Without an abort, the calls of a pass are the calls of its candidates, in order. */
  lemma {:induction false} RunCalls<T>(step: T -> Effect, xs: seq<T>)
    requires Run(step, xs).aborted.None?
    ensures forall r :: r in Run(step, xs).calls <==> exists i | 0 <= i < |xs| :: r in step(xs[i]).calls
  {
    if |xs| > 0 {
      var init := xs[..|xs| - 1];
      RunCalls(step, init);
      assert forall i | 0 <= i < |init| :: init[i] == xs[i];
    }
  }

  /** Without an abort, pending counts the candidates that add one, when each adds one or nothing. */
  lemma {:induction false} RunPending<T>(step: T -> Effect, p: T -> bool, xs: seq<T>)
    requires Run(step, xs).aborted.None?
    requires forall i | 0 <= i < |xs| :: step(xs[i]).pending == if p(xs[i]) then 1 else 0
    ensures Run(step, xs).pending == Count(p, xs)
  {
    if |xs| > 0 {
      var init := xs[..|xs| - 1];
      assert forall i | 0 <= i < |init| :: init[i] == xs[i];
      RunPending(step, p, init);
    }
  }

  /** The end of a pass that cannot abort: SnapshotToolException exactly when some candidate added one. */
  lemma PassOutcome<T>(step: T -> Effect, p: T -> bool, xs: seq<T>)
    requires forall i | 0 <= i < |xs| :: step(xs[i]).abort.None?
    requires forall i | 0 <= i < |xs| :: step(xs[i]).pending == if p(xs[i]) then 1 else 0
    ensures Conclude(Run(step, xs)) == if Count(p, xs) > 0 then Pending(Count(p, xs)) else Done
    ensures Conclude(Run(step, xs)).Pending? <==> exists i | 0 <= i < |xs| :: p(xs[i])
    ensures forall r :: r in Run(step, xs).calls <==> exists i | 0 <= i < |xs| :: r in step(xs[i]).calls
  {
    RunAborts(step, xs);
    RunPending(step, p, xs);
    RunCalls(step, xs);
    CountPositive(p, xs);
  }
}
