// Runs of a machine that, at each event, moves to a new state, emits a list and drops a bag.
module Runs {

  datatype Outcome<S, D, M> = Outcome(state: S, out: seq<D>, dropped: multiset<M>)

  /** The machine after a list of events, with everything emitted and dropped on the way. */
  ghost function RunFrom<S, E, D, M>(step: (S, E) -> Outcome<S, D, M>, s: S, es: seq<E>): Outcome<S, D, M> {
    if es == [] then Outcome(s, [], multiset{})
    else
      var before := RunFrom(step, s, es[..|es| - 1]);
      var last := step(before.state, es[|es| - 1]);
      Outcome(last.state, before.out + last.out, before.dropped + last.dropped)
  }

  lemma {:induction false} RunConcat<S, E, D, M>(step: (S, E) -> Outcome<S, D, M>, s: S, xs: seq<E>, ys: seq<E>)
    ensures RunFrom(step, s, xs + ys).state == RunFrom(step, RunFrom(step, s, xs).state, ys).state
    ensures RunFrom(step, s, xs + ys).out ==
            RunFrom(step, s, xs).out + RunFrom(step, RunFrom(step, s, xs).state, ys).out
    ensures RunFrom(step, s, xs + ys).dropped ==
            RunFrom(step, s, xs).dropped + RunFrom(step, RunFrom(step, s, xs).state, ys).dropped
  {
    if ys == [] {
      assert xs + ys == xs;
    } else {
      assert (xs + ys)[..|xs + ys| - 1] == xs + ys[..|ys| - 1];
      RunConcat(step, s, xs, ys[..|ys| - 1]);
    }
  }

  lemma RunOne<S, E, D, M>(step: (S, E) -> Outcome<S, D, M>, s: S, e: E)
    ensures RunFrom(step, s, [e]) == step(s, e)
  {
  }

  /** Everything in a list of bags-valued items, counted with multiplicity. */
  ghost function Total<D, M>(items: seq<D>, parts: D -> multiset<M>): multiset<M> {
    if items == [] then multiset{}
    else Total(items[..|items| - 1], parts) + parts(items[|items| - 1])
  }

  lemma {:induction false} TotalConcat<D, M>(a: seq<D>, b: seq<D>, parts: D -> multiset<M>)
    ensures Total(a + b, parts) == Total(a, parts) + Total(b, parts)
  {
    if b == [] {
      assert a + b == a;
    } else {
      assert (a + b)[..|a + b| - 1] == a + b[..|b| - 1];
      TotalConcat(a, b[..|b| - 1], parts);
    }
  }

  lemma TotalOne<D, M>(d: D, parts: D -> multiset<M>)
    ensures Total([d], parts) == parts(d)
  {
  }

  lemma {:induction false} TotalHead<D, M>(items: seq<D>, parts: D -> multiset<M>)
    requires items != []
    ensures Total(items, parts) == parts(items[0]) + Total(items[1..], parts)
  {
    TotalOne(items[0], parts);
    assert items == [items[0]] + items[1..];
    TotalConcat([items[0]], items[1..], parts);
  }

  lemma TotalUpdate<D, M>(items: seq<D>, i: nat, d: D, parts: D -> multiset<M>)
    requires i < |items|
    ensures Total(items[i := d], parts) + parts(items[i]) == Total(items, parts) + parts(d)
  {
    assert items == items[..i] + [items[i]] + items[i + 1..];
    assert items[i := d] == items[..i] + [d] + items[i + 1..];
    TotalConcat(items[..i], [items[i]], parts);
    TotalConcat(items[..i] + [items[i]], items[i + 1..], parts);
    TotalConcat(items[..i], [d], parts);
    TotalConcat(items[..i] + [d], items[i + 1..], parts);
    TotalOne(items[i], parts);
    TotalOne(d, parts);
  }

  lemma TotalUpdateAdd<D, M>(items: seq<D>, i: nat, d: D, parts: D -> multiset<M>)
    requires i < |items| && parts(items[i]) == multiset{}
    ensures Total(items[i := d], parts) == Total(items, parts) + parts(d)
  {
    TotalUpdate(items, i, d, parts);
    assert Total(items[i := d], parts) == Total(items[i := d], parts) + multiset{};
  }

  lemma TotalUpdateRemove<D, M>(items: seq<D>, i: nat, d: D, parts: D -> multiset<M>)
    requires i < |items| && parts(d) == multiset{}
    ensures Total(items, parts) == Total(items[i := d], parts) + parts(items[i])
  {
    TotalUpdate(items, i, d, parts);
    assert Total(items, parts) == Total(items, parts) + multiset{};
  }

  lemma TotalUpdateSame<D, M>(items: seq<D>, i: nat, d: D, parts: D -> multiset<M>)
    requires i < |items| && parts(d) == parts(items[i])
    ensures Total(items[i := d], parts) == Total(items, parts)
  {
    TotalUpdate(items, i, d, parts);
    var x, y, p := Total(items[i := d], parts), Total(items, parts), parts(d);
    assert x == x + p - p && y == y + p - p;
  }

  lemma {:induction false} TotalSame<D, M>(items: seq<D>, f: D -> multiset<M>, g: D -> multiset<M>)
    requires forall d | d in items :: f(d) == g(d)
    ensures Total(items, f) == Total(items, g)
  {
    if items != [] {
      TotalSame(items[..|items| - 1], f, g);
    }
  }

  /** Nothing is lost or duplicated by one step. */
  ghost predicate StepConserves<S, E, D, M>(
    step: (S, E) -> Outcome<S, D, M>, held: S -> multiset<M>, incoming: E -> multiset<M>, parts: D -> multiset<M>, s: S, e: E)
  {
    var o := step(s, e);
    held(s) + incoming(e) == held(o.state) + Total(o.out, parts) + o.dropped
  }

  /** If no step loses or duplicates anything, neither does a run. */
  lemma {:induction false} RunConserves<S(!new), E(!new), D, M>(
    step: (S, E) -> Outcome<S, D, M>, held: S -> multiset<M>, incoming: E -> multiset<M>, parts: D -> multiset<M>, s: S, es: seq<E>)
    requires forall t, e :: StepConserves(step, held, incoming, parts, t, e)
    ensures var o := RunFrom(step, s, es);
      held(s) + Total(es, incoming) == held(o.state) + Total(o.out, parts) + o.dropped
  {
    if es == [] {
      assert held(s) + multiset{} == held(s) + multiset{} + multiset{};
    } else {
      var front, e := es[..|es| - 1], es[|es| - 1];
      var before := RunFrom(step, s, front);
      RunConserves(step, held, incoming, parts, s, front);
      assert StepConserves(step, held, incoming, parts, before.state, e);
      var last := step(before.state, e);
      TotalConcat(before.out, last.out, parts);
      calc {
        held(s) + Total(es, incoming);
        held(s) + Total(front, incoming) + incoming(e);
        held(before.state) + Total(before.out, parts) + before.dropped + incoming(e);
        held(before.state) + incoming(e) + Total(before.out, parts) + before.dropped;
        held(last.state) + Total(last.out, parts) + last.dropped + Total(before.out, parts) + before.dropped;
        held(last.state) + (Total(before.out, parts) + Total(last.out, parts)) + (before.dropped + last.dropped);
      }
    }
  }

  // ---------- termination measures ----------

  /** The ranks of a machine's parts, added up. */
  function RankSum<T>(parts: seq<T>, rank: T -> nat): nat {
    if parts == [] then 0 else RankSum(parts[..|parts| - 1], rank) + rank(parts[|parts| - 1])
  }

  lemma {:induction false} RankSumUpdate<T>(parts: seq<T>, i: nat, x: T, rank: T -> nat)
    requires i < |parts|
    ensures RankSum(parts[i := x], rank) + rank(parts[i]) == RankSum(parts, rank) + rank(x)
  {
    var n := |parts| - 1;
    if i < n {
      RankSumUpdate(parts[..n], i, x, rank);
      assert parts[i := x][..n] == parts[..n][i := x];
    } else {
      assert parts[i := x][..n] == parts[..n];
    }
  }

  // ---------- induction over runs ----------

  /** What holds of a run, and goes on holding with each further allowed event, holds of what extends it. */
  lemma {:induction false} HoldsOn<T(!new)>(run: seq<T>, later: seq<T>, ok: seq<T> -> bool, inv: seq<T> -> bool)
    requires inv(run) && ok(run + later)
    requires forall xs: seq<T>, a: T :: ok(xs + [a]) ==> ok(xs)
    requires forall xs: seq<T>, a: T :: inv(xs) && ok(xs + [a]) ==> inv(xs + [a])
    ensures inv(run + later)
    decreases |later|
  {
    if later == [] {
      assert run + later == run;
    } else {
      var before, a := later[..|later| - 1], later[|later| - 1];
      assert run + later == (run + before) + [a];
      HoldsOn(run, before, ok, inv);
    }
  }

  function Iterated<P>(next: P -> P, p: P, n: nat): P {
    if n == 0 then p else next(Iterated(next, p, n - 1))
  }

  lemma {:induction false} IteratedHolds<P(!new)>(next: P -> P, inv: (P, nat) -> bool, p: P, n: nat)
    requires inv(p, 0)
    requires forall q: P, k: nat :: inv(q, k) ==> inv(next(q), k + 1)
    ensures inv(Iterated(next, p, n), n)
  {
    if n > 0 {
      IteratedHolds(next, inv, p, n - 1);
    }
  }

  /** If each event, whatever the state, emits d as often as its weight says, a run emits it as often as
      the weights add up to. */
  lemma {:induction false} EmissionsCount<S(!new), E(!new), D, M>(
    step: (S, E) -> Outcome<S, D, M>, s: S, es: seq<E>, d: D, weight: E -> nat)
    requires forall t: S, e: E :: multiset(step(t, e).out)[d] == weight(e)
    ensures multiset(RunFrom(step, s, es).out)[d] == RankSum(es, weight)
  {
    if es != [] {
      EmissionsCount(step, s, es[..|es| - 1], d, weight);
    }
  }
}
