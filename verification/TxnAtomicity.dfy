// Transaction atomicity, stated on the event stream alone: which transactions are open where,
// and what a commit may emit, without reference to the buffer's state.
module TxnAtomicity {
  import opened Prelude
  import opened Messages
  import opened TxnModel

  predicate Of(ev: Event, id: TxnId) {
    ev.Arrive? && ev.m.txn == Some(id)
  }

  predicate Begins(ev: Event, id: TxnId) {
    Of(ev, id) && ev.m.kind == BeginTxn
  }

  predicate Commits(ev: Event, id: TxnId) {
    Of(ev, id) && ev.m.kind == CommitTxn
  }

  predicate RollsBack(ev: Event, id: TxnId) {
    Of(ev, id) && ev.m.kind == RollbackTxn
  }

  predicate IsBody(ev: Event, id: TxnId) {
    Of(ev, id) && ev.m.kind != BeginTxn && ev.m.kind != CommitTxn && ev.m.kind != RollbackTxn
  }

  /** The bodies of transaction id among events lo..hi, in stream order. */
  function Bodies(es: seq<Event>, lo: nat, hi: nat, id: TxnId): seq<Message>
    requires lo <= hi <= |es|
    decreases hi
  {
    if lo == hi then []
    else Bodies(es, lo, hi - 1, id) + (if IsBody(es[hi - 1], id) then [es[hi - 1].m] else [])
  }

  /** The begin at b together with every body of id seen since, up to c. */
  function Gathered(es: seq<Event>, b: nat, c: nat, id: TxnId): Builder
    requires b < c <= |es| && es[b].Arrive?
  {
    Builder(es[b].m, Bodies(es, b + 1, c, id))
  }

  /** Event k ends the transaction that began at b: commit, rollback, or expiry. */
  predicate Ends(env: TxnEnv, es: seq<Event>, b: nat, k: nat, id: TxnId)
    requires b < k < |es| && es[b].Arrive?
  {
    || Commits(es[k], id)
    || RollsBack(es[k], id)
    || (es[k].Expire? && env.expiry(Gathered(es, b, k, id)) <= es[k].ts)
  }

  /** The begin at b opened a transaction (it was not a repetition) and nothing before c ended it. */
  ghost predicate OpenAt(env: TxnEnv, es: seq<Event>, b: nat, c: nat, id: TxnId)
    decreases c
  {
    && b < c <= |es|
    && Begins(es[b], id)
    && (forall k | b < k < c :: !Ends(env, es, b, k, id))
    && (forall a: nat | a < b :: !OpenAt(env, es, a, b, id))
  }

  lemma OnlyOneOpen(env: TxnEnv, es: seq<Event>, a: nat, b: nat, c: nat, id: TxnId)
    requires OpenAt(env, es, a, c, id) && a < b
    ensures !OpenAt(env, es, b, c, id)
  {
    if b < c {
      assert OpenAt(env, es, a, b, id);
    }
  }

  lemma OpenIsUnique(env: TxnEnv, es: seq<Event>, a: nat, b: nat, c: nat, id: TxnId)
    requires OpenAt(env, es, a, c, id) && OpenAt(env, es, b, c, id)
    ensures a == b
  {
    if a < b {
      OnlyOneOpen(env, es, a, b, c, id);
    } else if b < a {
      OnlyOneOpen(env, es, b, a, c, id);
    }
  }

  /** The buffer's state after the first n events, as the stream describes it. */
  ghost predicate Mirrors(env: TxnEnv, es: seq<Event>, n: nat, builders: Builders, id: TxnId)
    requires n <= |es|
  {
    && (forall b: nat | OpenAt(env, es, b, n, id) :: id in builders && builders[id] == Gathered(es, b, n, id))
    && (id in builders ==> exists b: nat :: OpenAt(env, es, b, n, id))
  }

  lemma StillOpen(env: TxnEnv, es: seq<Event>, b: nat, n: nat, id: TxnId)
    requires n < |es| && b < n
    ensures OpenAt(env, es, b, n + 1, id) <==> OpenAt(env, es, b, n, id) && !Ends(env, es, b, n, id)
  {
  }

  ghost predicate NoneOpen(env: TxnEnv, es: seq<Event>, n: nat, id: TxnId) {
    forall a: nat | a < n :: !OpenAt(env, es, a, n, id)
  }

  lemma NewlyOpen(env: TxnEnv, es: seq<Event>, n: nat, id: TxnId)
    requires n < |es|
    ensures OpenAt(env, es, n, n + 1, id) <==> Begins(es[n], id) && NoneOpen(env, es, n, id)
  {
  }

  /** What one event does to one transaction id. */
  lemma StepOnId(env: TxnEnv, builders: Builders, ev: Event, id: TxnId)
    ensures var after := Step(env, builders, ev).state;
      if id in builders then
        var v := builders[id];
        && (id in after <==>
            !(Commits(ev, id) || RollsBack(ev, id) || (ev.Expire? && env.expiry(v) <= ev.ts)))
        && (id in after ==> after[id] == if IsBody(ev, id) then v.Extended(ev.m) else v)
      else
        && (id in after <==> Begins(ev, id))
        && (id in after ==> after[id] == Builder(ev.m, []))
  {
  }

  lemma MirrorsStep(env: TxnEnv, es: seq<Event>, n: nat, builders: Builders, after: Builders, id: TxnId)
    requires n < |es| && Mirrors(env, es, n, builders, id)
    requires after == Step(env, builders, es[n]).state
    ensures Mirrors(env, es, n + 1, after, id)
  {
    StepOnId(env, builders, es[n], id);
    NewlyOpen(env, es, n, id);
    var next := n + 1;
    forall b: nat | OpenAt(env, es, b, next, id)
      ensures id in after && after[id] == Gathered(es, b, next, id)
    {
      if b < n {
        StillOpen(env, es, b, n, id);
      }
    }
    if id in after && id in builders {
      var b: nat :| OpenAt(env, es, b, n, id);
      StillOpen(env, es, b, n, id);
      assert OpenAt(env, es, b, next, id);
    }
  }

  /** The builders held after n events are exactly the transactions the stream leaves open there. */
  lemma {:induction false} BuildersMirrorStream(env: TxnEnv, es: seq<Event>, n: nat, id: TxnId)
    requires n <= |es|
    ensures Mirrors(env, es, n, Run(env, map[], es[..n]).state, id)
  {
    if n > 0 {
      BuildersMirrorStream(env, es, n - 1, id);
      assert es[..n][..n - 1] == es[..n - 1];
      MirrorsStep(env, es, n - 1, Run(env, map[], es[..n - 1]).state, Run(env, map[], es[..n]).state, id);
    }
  }

  /** What the buffer emits at event c of a run from empty. */
  ghost function EmittedAt(env: TxnEnv, es: seq<Event>, c: nat): seq<Delivery>
    requires c < |es|
  {
    Step(env, Run(env, map[], es[..c]).state, es[c]).out
  }

  /** The deliveries the stream itself allows at event c. */
  ghost predicate Allowed(env: TxnEnv, es: seq<Event>, c: nat, d: Delivery)
    requires c < |es|
  {
    match d
    case Single(m) => es[c] == Arrive(m) && m.txn == None
    case Txn(begin, bodies, commit) =>
      && es[c] == Arrive(commit)
      && exists b: nat, id: TxnId ::
           && Commits(es[c], id)
           && OpenAt(env, es, b, c, id)
           && Gathered(es, b, c, id) == Builder(begin, bodies)
           && env.buildable(Builder(begin, bodies), commit)
  }

  lemma EmittedIsAllowed(env: TxnEnv, es: seq<Event>, c: nat, d: Delivery)
    requires c < |es| && d in EmittedAt(env, es, c)
    ensures Allowed(env, es, c, d)
  {
    if d.Txn? {
      var id := es[c].m.txn.value;
      BuildersMirrorStream(env, es, c, id);
      var b: nat :| OpenAt(env, es, b, c, id);
      assert Commits(es[c], id) && Gathered(es, b, c, id) == Builder(d.begin, d.bodies);
    }
  }

  lemma AllowedIsEmitted(env: TxnEnv, es: seq<Event>, c: nat, d: Delivery)
    requires c < |es| && Allowed(env, es, c, d)
    ensures d in EmittedAt(env, es, c)
  {
    if d.Txn? {
      var b: nat, id: TxnId :| Commits(es[c], id) && OpenAt(env, es, b, c, id)
                   && Gathered(es, b, c, id) == Builder(d.begin, d.bodies)
                   && env.buildable(Builder(d.begin, d.bodies), d.commit);
      BuildersMirrorStream(env, es, c, id);
      assert EmittedAt(env, es, c) == [d];
    }
  }

  /** Atomicity: each event emits at most one delivery, and exactly what the stream allows there. */
  lemma Atomicity(env: TxnEnv, es: seq<Event>, c: nat)
    requires c < |es|
    ensures |EmittedAt(env, es, c)| <= 1
    ensures forall d :: d in EmittedAt(env, es, c) <==> Allowed(env, es, c, d)
  {
    forall d
      ensures d in EmittedAt(env, es, c) <==> Allowed(env, es, c, d)
    {
      if d in EmittedAt(env, es, c) {
        EmittedIsAllowed(env, es, c, d);
      }
      if Allowed(env, es, c, d) {
        AllowedIsEmitted(env, es, c, d);
      }
    }
  }

  /** The begin at event b is the one whose transaction the commit at event c ends. */
  ghost predicate EndsAt(env: TxnEnv, es: seq<Event>, b: nat, c: nat)
    requires c < |es|
  {
    exists id: TxnId :: Commits(es[c], id) && OpenAt(env, es, b, c, id)
  }

  lemma TxnHasBegin(env: TxnEnv, es: seq<Event>, c: nat, d: Delivery) returns (b: nat)
    requires c < |es| && d in EmittedAt(env, es, c) && d.Txn?
    ensures EndsAt(env, es, b, c) && b < |es| && es[b] == Arrive(d.begin)
  {
    EmittedIsAllowed(env, es, c, d);
    var begun: nat, id: TxnId :| Commits(es[c], id) && OpenAt(env, es, begun, c, id)
                           && Gathered(es, begun, c, id) == Builder(d.begin, d.bodies);
    b := begun;
  }

  lemma EndsOnce(env: TxnEnv, es: seq<Event>, b: nat, c: nat, later: nat)
    requires c < later < |es| && EndsAt(env, es, b, c)
    ensures !EndsAt(env, es, b, later)
  {
    if EndsAt(env, es, b, later) {
      var id: TxnId :| Commits(es[later], id) && OpenAt(env, es, b, later, id);
      assert Ends(env, es, b, c, id);
    }
  }

  /** Each begin yields at most one transaction message: two of them, emitted at different events, come
      from begins at different events. */
  lemma BeginEmitsOnce(env: TxnEnv, es: seq<Event>, c: nat, later: nat, d: Delivery, e: Delivery)
    requires c < later < |es| && d.Txn? && e.Txn?
    requires d in EmittedAt(env, es, c) && e in EmittedAt(env, es, later)
    ensures exists a: nat, b: nat :: a != b && EndsAt(env, es, a, c) && EndsAt(env, es, b, later)
              && a < |es| && b < |es| && es[a] == Arrive(d.begin) && es[b] == Arrive(e.begin)
  {
    var a := TxnHasBegin(env, es, c, d);
    var b := TxnHasBegin(env, es, later, e);
    EndsOnce(env, es, a, c, later);
    assert EndsAt(env, es, a, c) && EndsAt(env, es, b, later);
  }

  /** The emissions of a whole run are those of its events, in order. */
  lemma {:induction false} RunEmitsInOrder(env: TxnEnv, es: seq<Event>, n: nat)
    requires n < |es|
    ensures Run(env, map[], es[..n + 1]).out == Run(env, map[], es[..n]).out + EmittedAt(env, es, n)
  {
    assert es[..n + 1][..n] == es[..n];
  }
}
