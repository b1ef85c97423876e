// Loops that may not end: a step either stops with a result or goes on.
module Loops {

  datatype Stepped<P, R> = Stop(result: R) | Next(state: P)

  /** The loop cut off after n steps. */
  function Loop<P, R>(step: P -> Stepped<P, R>, p: P, n: nat): Stepped<P, R> {
    if n == 0 then Next(p)
    else
      var s := step(p);
      if s.Next? then Loop(step, s.state, n - 1) else s
  }

  /** Following a list of states, each one step after the other. */
  lemma {:induction false} LoopAlong<P, R>(step: P -> Stepped<P, R>, states: seq<P>, n: nat)
    requires |states| > 0 && n >= |states| - 1
    requires forall k | 0 <= k < |states| - 1 :: step(states[k]) == Next(states[k + 1])
    ensures Loop(step, states[0], n) == Loop(step, states[|states| - 1], n - (|states| - 1))
    decreases n
  {
    if |states| > 1 {
      assert step(states[0]) == Next(states[1]);
      var rest := states[1..];
      forall k | 0 <= k < |rest| - 1
        ensures step(rest[k]) == Next(rest[k + 1])
      {
        assert step(states[k + 1]) == Next(states[k + 1 + 1]);
      }
      LoopAlong(step, rest, n - 1);
    }
  }

  /** Every step from an invariant state that has not reached the total gets strictly closer to it. */
  ghost predicate Advances<P(!new), R>(step: P -> Stepped<P, R>, inv: (P, nat) -> bool, total: nat, result: R) {
    && (forall p: P, v: nat | inv(p, v) :: v <= total)
    && (forall p: P, v: nat | inv(p, v) && v < total :: step(p).Next? && GetsCloser(inv, step(p).state, v))
    && (forall p: P | inv(p, total) :: step(p) == Stop(result))
  }

  ghost predicate GetsCloser<P>(inv: (P, nat) -> bool, p: P, v: nat) {
    exists w: nat :: v < w && inv(p, w)
  }

  /** Then the loop stops with that result after at most as many steps as were left, and one more. */
  lemma {:induction false} LoopStops<P(!new), R>(step: P -> Stepped<P, R>, inv: (P, nat) -> bool, total: nat, result: R, p: P, v: nat, n: nat)
    requires Advances(step, inv, total, result) && inv(p, v) && n > total - v
    ensures Loop(step, p, n) == Stop(result)
    decreases n
  {
    if v < total {
      assert GetsCloser(inv, step(p).state, v);
      var w: nat :| v < w && inv(step(p).state, w);
      LoopStops(step, inv, total, result, step(p).state, w, n - 1);
    }
  }

  /** And wherever it is cut off before that, the invariant holds. */
  lemma {:induction false} LoopStaysWithin<P(!new), R>(step: P -> Stepped<P, R>, inv: (P, nat) -> bool, total: nat, result: R, p: P, v: nat, n: nat)
    requires Advances(step, inv, total, result) && inv(p, v)
    ensures var o := Loop(step, p, n);
      if o.Stop? then o.result == result else exists w: nat :: v <= w && inv(o.state, w)
    decreases n
  {
    if n > 0 && v < total {
      assert GetsCloser(inv, step(p).state, v);
      var w: nat :| v < w && inv(step(p).state, w);
      LoopStaysWithin(step, inv, total, result, step(p).state, w, n - 1);
    }
  }

  /** A loop whose safe states lead only to safe states or unwanted-free stops never stops in an unwanted way. */
  lemma {:induction false} LoopNever<P(!new), R>(step: P -> Stepped<P, R>, safe: P -> bool, unwanted: R -> bool, p: P, n: nat)
    requires forall q | safe(q) :: if step(q).Stop? then !unwanted(step(q).result) else safe(step(q).state)
    requires safe(p)
    ensures var o := Loop(step, p, n); o.Stop? ==> !unwanted(o.result)
    decreases n
  {
    if n > 0 && step(p).Next? {
      LoopNever(step, safe, unwanted, step(p).state, n - 1);
    }
  }
}
