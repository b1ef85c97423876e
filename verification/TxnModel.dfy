// What the transaction buffer of wal/utility/txn_buffer.go computes: one step per arriving
// message and one per expiry sweep, with every dropped message accounted for.
module TxnModel {
  import opened Prelude
  import opened Messages
  import opened Bags
  import opened Runs

  function SeqSize(s: seq<Message>): nat {
    if s == [] then 0 else SeqSize(s[..|s| - 1]) + s[|s| - 1].size
  }

  /** An open transaction: its begin message and the bodies gathered so far. */
  datatype Builder = Builder(begin: Message, bodies: seq<Message>) {
    function EstimateSize(): nat {
      begin.size + SeqSize(bodies)
    }

    function Extended(m: Message): Builder {
      Builder(begin, bodies + [m])
    }
  }

  /** What reaches the consumer: a message on its own, or a committed transaction. */
  datatype Delivery = Single(msg: Message) | Txn(begin: Message, bodies: seq<Message>, commit: Message) {
    /** A transaction message carries the tick of its commit. */
    function Tick(): nat {
      if Single? then msg.tick else commit.tick
    }
  }

  /** The foreign parts of a builder: when it expires, and whether a commit can be built from it. */
  datatype TxnEnv = TxnEnv(expiry: Builder -> nat, buildable: (Builder, Message) -> bool)

  type Builders = map<TxnId, Builder>

  datatype Event = Arrive(m: Message) | Expire(ts: nat)

  type TxnOutcome = Outcome<Builders, Delivery, Message>

  // ---------- bags of messages ----------

  ghost const ALL: Builder -> multiset<Message> := (v: Builder) => multiset{v.begin} + multiset(v.bodies)

  ghost const PARTS: Delivery -> multiset<Message> :=
    (d: Delivery) => if d.Single? then multiset{d.msg} else multiset{d.begin} + multiset(d.bodies) + multiset{d.commit}

  ghost const INCOMING: Event -> multiset<Message> :=
    (e: Event) => if e.Arrive? then multiset{e.m} else multiset{}

  /** Every message in every open transaction. */
  ghost const CONTENTS: Builders -> multiset<Message> := (b: Builders) => UnionOf(b, ALL)

  lemma {:induction false} SeqSizeIsTotal(s: seq<Message>)
    ensures SeqSize(s) == TotalSize(multiset(s))
  {
    if s != [] {
      var front := s[..|s| - 1];
      SeqSizeIsTotal(front);
      assert s == front + [s[|s| - 1]];
      TotalSizeAdd(multiset(front), s[|s| - 1]);
    }
  }

  lemma BuilderSize(v: Builder)
    ensures v.EstimateSize() == TotalSize(ALL(v))
  {
    SeqSizeIsTotal(v.bodies);
    TotalSizeAdd(multiset(v.bodies), v.begin);
    assert multiset(v.bodies) + multiset{v.begin} == ALL(v);
  }

  lemma ExtendedBag(v: Builder, m: Message)
    ensures ALL(v.Extended(m)) == ALL(v) + multiset{m}
  {
  }

  lemma NewBag(m: Message)
    ensures ALL(Builder(m, [])) == multiset{m}
  {
  }

  lemma CommittedBag(v: Builder, m: Message)
    ensures PARTS(Txn(v.begin, v.bodies, m)) == ALL(v) + multiset{m}
  {
  }

  // ---------- one step ----------

  function OverdueAt(env: TxnEnv, ts: nat): Builder -> bool {
    (v: Builder) => env.expiry(v) <= ts
  }

  ghost function OnExpire(env: TxnEnv, b: Builders, ts: nat): TxnOutcome {
    Outcome(Reject(b, OverdueAt(env, ts)), [], CONTENTS(Select(b, OverdueAt(env, ts))))
  }

  /** Dropped here: orphans, repeated begins, and transactions rolled back, expired or not buildable. */
  ghost function Step(env: TxnEnv, b: Builders, ev: Event): TxnOutcome {
    match ev
    case Expire(ts) => OnExpire(env, b, ts)
    case Arrive(m) =>
      if m.txn.None? then Outcome(b, [Single(m)], multiset{})
      else
        match m.kind
        case BeginTxn => OnBegin(b, m, m.txn.value)
        case CommitTxn => OnCommit(env, b, m, m.txn.value)
        case RollbackTxn => OnRollback(b, m, m.txn.value)
        case _ => OnBody(b, m, m.txn.value)
  }

  ghost function OnBegin(b: Builders, m: Message, id: TxnId): TxnOutcome {
    if id in b then Outcome(b, [], multiset{m})
    else Outcome(b[id := Builder(m, [])], [], multiset{})
  }

  ghost function OnCommit(env: TxnEnv, b: Builders, m: Message, id: TxnId): TxnOutcome {
    if id !in b then Outcome(b, [], multiset{m})
    else if env.buildable(b[id], m) then
      Outcome(b - {id}, [Txn(b[id].begin, b[id].bodies, m)], multiset{})
    else Outcome(b - {id}, [], ALL(b[id]) + multiset{m})
  }

  ghost function OnRollback(b: Builders, m: Message, id: TxnId): TxnOutcome {
    if id !in b then Outcome(b, [], multiset{m})
    else Outcome(b - {id}, [], ALL(b[id]) + multiset{m})
  }

  ghost function OnBody(b: Builders, m: Message, id: TxnId): TxnOutcome {
    if id !in b then Outcome(b, [], multiset{m})
    else Outcome(b[id := b[id].Extended(m)], [], multiset{})
  }

  ghost predicate Keeps(b: Builders, incoming: multiset<Message>, o: TxnOutcome) {
    CONTENTS(b) + incoming == CONTENTS(o.state) + Total(o.out, PARTS) + o.dropped
  }

  lemma ExpireKeeps(env: TxnEnv, b: Builders, ts: nat)
    ensures Keeps(b, multiset{}, OnExpire(env, b, ts))
  {
    UnionOfSplit(b, ALL, OverdueAt(env, ts));
  }

  lemma BeginKeeps(b: Builders, m: Message, id: TxnId)
    ensures Keeps(b, multiset{m}, OnBegin(b, m, id))
  {
    if id !in b {
      NewBag(m);
      UnionOfPut(b, ALL, id, Builder(m, []));
    }
  }

  lemma CommitKeeps(env: TxnEnv, b: Builders, m: Message, id: TxnId)
    ensures Keeps(b, multiset{m}, OnCommit(env, b, m, id))
  {
    if id in b {
      UnionOfRemove(b, ALL, id);
      CommittedBag(b[id], m);
      TotalOne(Txn(b[id].begin, b[id].bodies, m), PARTS);
    }
  }

  lemma RollbackKeeps(b: Builders, m: Message, id: TxnId)
    ensures Keeps(b, multiset{m}, OnRollback(b, m, id))
  {
    if id in b {
      UnionOfRemove(b, ALL, id);
    }
  }

  lemma BodyKeeps(b: Builders, m: Message, id: TxnId)
    ensures Keeps(b, multiset{m}, OnBody(b, m, id))
  {
    if id in b {
      ExtendedBag(b[id], m);
      UnionOfGrow(b, ALL, id, b[id].Extended(m), multiset{m});
    }
  }

  /** The buffer's step as a function, for runs. */
  ghost function Stepper(env: TxnEnv): (Builders, Event) -> TxnOutcome {
    (b, ev) => Step(env, b, ev)
  }

  /** No message is lost or duplicated by a step. */
  lemma TxnStepConserves(env: TxnEnv, b: Builders, ev: Event)
    ensures StepConserves(Stepper(env), CONTENTS, INCOMING, PARTS, b, ev)
  {
    match ev
    case Expire(ts) => ExpireKeeps(env, b, ts);
    case Arrive(m) =>
      if m.txn.None? {
        TotalOne(Single(m), PARTS);
      } else {
        match m.kind
        case BeginTxn => BeginKeeps(b, m, m.txn.value);
        case CommitTxn => CommitKeeps(env, b, m, m.txn.value);
        case RollbackTxn => RollbackKeeps(b, m, m.txn.value);
        case _ => BodyKeeps(b, m, m.txn.value);
      }
  }

  ghost function Run(env: TxnEnv, b: Builders, es: seq<Event>): TxnOutcome {
    RunFrom(Stepper(env), b, es)
  }

  /** Over any run, every message is still held, or was emitted once, or was dropped. */
  lemma TxnRunConserves(env: TxnEnv, b: Builders, es: seq<Event>)
    ensures var o := Run(env, b, es);
      CONTENTS(b) + Total(es, INCOMING) == CONTENTS(o.state) + Total(o.out, PARTS) + o.dropped
  {
    forall t, e
      ensures StepConserves(Stepper(env), CONTENTS, INCOMING, PARTS, t, e)
    {
      TxnStepConserves(env, t, e);
    }
    RunConserves(Stepper(env), CONTENTS, INCOMING, PARTS, b, es);
  }

  function Arrivals(msgs: seq<Message>): seq<Event> {
    seq(|msgs|, i requires 0 <= i < |msgs| => Arrive(msgs[i]))
  }

  /** One call of the buffer: a batch of messages, then the expiry sweep at ts. */
  function Batch(msgs: seq<Message>, ts: nat): seq<Event> {
    Arrivals(msgs) + [Expire(ts)]
  }

  /** Among the builders left by the messages, exactly the overdue ones are swept. */
  ghost predicate Swept(env: TxnEnv, left: Builders, ts: nat, after: Builders) {
    && (forall id :: id in after <==> id in left && ts < env.expiry(left[id]))
    && (forall id | id in after :: after[id] == left[id])
  }

  /** What a call comes to: the messages one after the other from the builders there, and only then the
      sweep, which emits nothing. */
  lemma SweepComesLast(env: TxnEnv, b: Builders, msgs: seq<Message>, ts: nat, es: seq<Event>)
    requires |es| == |msgs| && forall i | 0 <= i < |msgs| :: es[i] == Arrive(msgs[i])
    ensures Run(env, b, Batch(msgs, ts)).out == Run(env, b, es).out
    ensures Swept(env, Run(env, b, es).state, ts, Run(env, b, Batch(msgs, ts)).state)
  {
    assert es == Arrivals(msgs);
    assert Batch(msgs, ts)[..|msgs|] == es;
    var left := Run(env, b, es);
    assert Run(env, b, Batch(msgs, ts)).out == left.out + [];
  }

  /** A commit of a transaction open when it arrives emits it, however late the sweep of the same call. */
  lemma CommitInBatchEmits(env: TxnEnv, b: Builders, before: seq<Message>, m: Message, later: seq<Message>, ts: nat, id: TxnId)
    requires m.kind == CommitTxn && m.txn == Some(id)
    requires var open := Run(env, b, Arrivals(before)).state; id in open && env.buildable(open[id], m)
    ensures var open := Run(env, b, Arrivals(before)).state;
      Txn(open[id].begin, open[id].bodies, m) in Run(env, b, Batch(before + [m] + later, ts)).out
  {
    var es, rest := Arrivals(before) + [Arrive(m)], Arrivals(later) + [Expire(ts)];
    assert Batch(before + [m] + later, ts) == es + rest;
    RunConcat(Stepper(env), b, es, rest);
    assert es[..|before|] == Arrivals(before);
  }

  lemma {:induction false} ArrivalsIncoming(msgs: seq<Message>)
    ensures Total(Arrivals(msgs), INCOMING) == multiset(msgs)
  {
    if msgs != [] {
      var front := msgs[..|msgs| - 1];
      ArrivalsIncoming(front);
      assert Arrivals(msgs)[..|msgs| - 1] == Arrivals(front);
      assert msgs == front + [msgs[|msgs| - 1]];
    }
  }

  lemma BatchIncoming(msgs: seq<Message>, ts: nat)
    ensures Total(Batch(msgs, ts), INCOMING) == multiset(msgs)
  {
    ArrivalsIncoming(msgs);
    TotalOne(Expire(ts), INCOMING);
    TotalConcat(Arrivals(msgs), [Expire(ts)], INCOMING);
  }
}
