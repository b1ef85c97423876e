// Conservation and atomicity over whole runs of the scanner.
module ScannerLedger {
  import opened Prelude
  import opened Messages
  import opened Runs
  import opened ReorderBuffers
  import opened TxnModel
  import opened TxnAtomicity
  import opened ScannerModel

  predicate IsTick(d: Delivery) {
    d.Single? && d.msg.kind == TimeTick
  }

  /** The messages inside a delivery; a time tick carries none. */
  ghost const CARRIED: Delivery -> multiset<Message> :=
    (d: Delivery) => if IsTick(d) then multiset{} else PARTS(d)

  ghost function Passing(env: Env): Input -> multiset<Message> {
    (a: Input) => if a.Receive? && Passes(env, a.m) then multiset{a.m} else multiset{}
  }

  /** Every place a message can be: in the heap, in an open transaction, delivered or pending
      (alone or inside a transaction message), rejected by the reorder buffer, or dropped. */
  ghost function Ledger(s: State): multiset<Message> {
    s.held + CONTENTS(s.builders) + Total(History(s), CARRIED) + s.rejected + s.dropped
  }

  ghost predicate NoTicksHeld(held: multiset<Message>) {
    forall m | m in held :: m.kind != TimeTick
  }

  predicate NoTicks(s: seq<Delivery>) {
    forall d | d in s :: !IsTick(d)
  }

  lemma {:induction false} ArrivalsEmitNoTicks(env: TxnEnv, b: Builders, msgs: seq<Message>)
    requires forall m | m in msgs :: m.kind != TimeTick
    ensures NoTicks(Run(env, b, Arrivals(msgs)).out)
  {
    if msgs != [] {
      var front, m := msgs[..|msgs| - 1], msgs[|msgs| - 1];
      ArrivalsEmitNoTicks(env, b, front);
      assert Arrivals(msgs)[..|msgs| - 1] == Arrivals(front);
      StepEmitsNoTick(env, Run(env, b, Arrivals(front)).state, m);
    }
  }

  lemma StepEmitsNoTick(env: TxnEnv, b: Builders, m: Message)
    requires m.kind != TimeTick
    ensures NoTicks(Step(env, b, Arrive(m)).out)
  {
  }

  lemma BatchEmitsNoTicks(env: TxnEnv, b: Builders, held: multiset<Message>, t: nat, popped: seq<Message>)
    requires NoTicksHeld(held) && PopsUntil(held, t, popped)
    ensures NoTicks(Run(env, b, Batch(popped, t)).out)
  {
    forall m | m in popped
      ensures m.kind != TimeTick
    {
      assert m in multiset(popped);
    }
    ArrivalsEmitNoTicks(env, b, popped);
    assert Batch(popped, t)[..|popped|] == Arrivals(popped);
  }

  lemma Rebalance<T>(held: multiset<T>, popped: multiset<T>, open: multiset<T>, open': multiset<T>, emitted: multiset<T>,
                     lost: multiset<T>, history: multiset<T>, rejected: multiset<T>, dropped: multiset<T>)
    requires popped <= held && open + popped == open' + emitted + lost
    ensures held + open + history + rejected + dropped ==
            (held - popped) + open' + (history + emitted) + rejected + (dropped + lost)
  {
    assert held == held - popped + popped;
    calc {
      held + open + history + rejected + dropped;
      (held - popped) + (open + popped) + history + rejected + dropped;
      (held - popped) + (open' + emitted + lost) + history + rejected + dropped;
    }
  }

  lemma TickPartCarriesNothing(pending: seq<Delivery>, out: seq<Delivery>, m: Message)
    requires m.kind == TimeTick
    ensures Total(TickPart(pending, out, m), CARRIED) == multiset{}
  {
  }

  lemma TimeTickBalances(env: Env, s: State, m: Message, popped: seq<Message>)
    requires NoTicksHeld(s.held) && IsWatermark(env, m) && PopsUntil(s.held, m.tick, popped)
    ensures Ledger(OnTimeTick(s, m, popped, Run(env.txn, s.builders, Batch(popped, m.tick)))) == Ledger(s)
  {
    var o := Run(env.txn, s.builders, Batch(popped, m.tick));
    TxnRunConserves(env.txn, s.builders, Batch(popped, m.tick));
    BatchIncoming(popped, m.tick);
    BatchEmitsNoTicks(env.txn, s.builders, s.held, m.tick, popped);
    TotalSame(o.out, CARRIED, PARTS);
    TickPartCarriesNothing(s.pending, o.out, m);
    TotalConcat(o.out, TickPart(s.pending, o.out, m), CARRIED);
    TotalConcat(History(s), o.out + TickPart(s.pending, o.out, m), CARRIED);
    TimeTickHistory(s, m, popped, o);
    Rebalance(s.held, multiset(popped), CONTENTS(s.builders), CONTENTS(o.state), Total(o.out, PARTS),
              o.dropped, Total(History(s), CARRIED), s.rejected, s.dropped);
  }

  lemma MessageBalances(s: State, m: Message)
    ensures Ledger(OnMessage(s, m)) == Ledger(s) + multiset{m}
  {
  }

  lemma SendBalances(s: State)
    requires s.pending != []
    ensures Ledger(Advanced(s)) == Ledger(s)
  {
    AdvancedHistory(s);
  }

  lemma StepHoldsNoTicks(env: Env, s: State, a: Input)
    requires NoTicksHeld(s.held)
    ensures NoTicksHeld(Apply(env, s, a).held)
  {
  }

  lemma NothingPasses(env: Env, s: State, a: Input)
    requires a.Receive? ==> !Passes(env, a.m)
    ensures Ledger(s) == Ledger(s) + Passing(env)(a)
  {
  }

  lemma UpstreamBalances(env: Env, s: State, a: Input)
    requires NoTicksHeld(s.held) && Enabled(env, s, a) && a.Receive?
    ensures Ledger(Upstream(env, s, a.m, a.popped)) == Ledger(s) + Passing(env)(a)
  {
    if IsWatermark(env, a.m) {
      TimeTickBalances(env, s, a.m, a.popped);
      NothingPasses(env, s, a);
    } else if Passes(env, a.m) {
      MessageBalances(s, a.m);
    } else {
      NothingPasses(env, s, a);
    }
  }

  lemma StepBalances(env: Env, s: State, a: Input)
    requires NoTicksHeld(s.held) && Enabled(env, s, a)
    ensures Ledger(Apply(env, s, a)) == Ledger(s) + Passing(env)(a)
  {
    if a.Receive? {
      UpstreamBalances(env, s, a);
    } else {
      SendBalances(s);
      NothingPasses(env, s, a);
    }
  }

  /** Conservation: after any valid run, the places of the ledger hold exactly the messages that
      passed the filters, each as often as it arrived. */
  lemma {:induction false} Conservation(env: Env, inputs: seq<Input>)
    requires ValidRun(env, inputs)
    ensures NoTicksHeld(After(env, inputs).held)
    ensures Ledger(After(env, inputs)) == Total(inputs, Passing(env))
  {
    if inputs == [] {
      assert History(START) == [];
    } else {
      var front, a := inputs[..|inputs| - 1], inputs[|inputs| - 1];
      Conservation(env, front);
      StepBalances(env, After(env, front), a);
      StepHoldsNoTicks(env, After(env, front), a);
    }
  }

  // ---------- atomicity of the whole pipeline ----------

  function EventsOf(env: Env, a: Input): seq<Event> {
    if Marks(env, a) then Batch(a.popped, a.m.tick) else []
  }

  /** The event stream the transaction buffer sees in a run: popped batches and their sweeps. */
  function TxnEvents(env: Env, inputs: seq<Input>): seq<Event> {
    if inputs == [] then []
    else TxnEvents(env, inputs[..|inputs| - 1]) + EventsOf(env, inputs[|inputs| - 1])
  }

  function Payload(s: seq<Delivery>): seq<Delivery> {
    Filter(s, (d: Delivery) => !IsTick(d))
  }

  lemma PayloadAppend(a: seq<Delivery>, b: seq<Delivery>)
    ensures Payload(a + b) == Payload(a) + Payload(b)
  {
    FilterAppend(a, b, (d: Delivery) => !IsTick(d));
  }

  lemma PayloadOfAdded(env: Env, s: State, a: Input)
    requires NoTicksHeld(s.held) && Enabled(env, s, a)
    ensures Payload(Added(env, s, a)) == Run(env.txn, s.builders, EventsOf(env, a)).out
  {
    if Marks(env, a) {
      var out := Run(env.txn, s.builders, Batch(a.popped, a.m.tick)).out;
      BatchEmitsNoTicks(env.txn, s.builders, s.held, a.m.tick, a.popped);
      FilterAll(out, (d: Delivery) => !IsTick(d));
      FilterNone(TickPart(s.pending, out, a.m), (d: Delivery) => !IsTick(d));
      PayloadAppend(out, TickPart(s.pending, out, a.m));
    }
  }

  lemma BuildersAfter(env: Env, s: State, a: Input)
    ensures Apply(env, s, a).builders == Run(env.txn, s.builders, EventsOf(env, a)).state
  {
  }

  /** The transaction buffer and the history are where the event stream es puts them. */
  ghost predicate Follows(env: Env, s: State, es: seq<Event>) {
    && s.builders == Run(env.txn, map[], es).state
    && Payload(History(s)) == Run(env.txn, map[], es).out
  }

  lemma StepFollows(env: Env, s: State, a: Input, es: seq<Event>)
    requires NoTicksHeld(s.held) && Enabled(env, s, a) && Follows(env, s, es)
    ensures Follows(env, Apply(env, s, a), es + EventsOf(env, a))
  {
    HistoryStep(env, s, a);
    PayloadAppend(History(s), Added(env, s, a));
    PayloadOfAdded(env, s, a);
    BuildersAfter(env, s, a);
    RunConcat(Stepper(env.txn), map[], es, EventsOf(env, a));
  }

  /** Whatever the interleaving with the consumer, and however the stream is cut into batches, the
      history without its time ticks is exactly what the transaction stream emits. */
  lemma {:induction false} PipelineEmitsTxnStream(env: Env, inputs: seq<Input>)
    requires ValidRun(env, inputs)
    ensures Follows(env, After(env, inputs), TxnEvents(env, inputs))
  {
    if inputs == [] {
      assert History(START) == [];
    } else {
      var front := inputs[..|inputs| - 1];
      PipelineEmitsTxnStream(env, front);
      Conservation(env, front);
      StepFollows(env, After(env, front), inputs[|inputs| - 1], TxnEvents(env, front));
    }
  }

  lemma {:induction false} EmittedSomewhere(env: TxnEnv, es: seq<Event>, d: Delivery)
    requires d in Run(env, map[], es).out
    ensures exists c: nat :: c < |es| && d in EmittedAt(env, es, c)
  {
    if es != [] {
      var front := es[..|es| - 1];
      RunEmitsInOrder(env, es, |es| - 1);
      assert es[..|es|] == es;
      if d in EmittedAt(env, es, |es| - 1) {
      } else {
        EmittedSomewhere(env, front, d);
        var c: nat :| c < |front| && d in EmittedAt(env, front, c);
        assert front[..c] == es[..c] && front[c] == es[c];
        assert d in EmittedAt(env, es, c);
      }
    }
  }

  /** Every delivery of the pipeline other than a time tick is one the stream allows: a message
      outside any transaction, or a transaction whose begin is still open at its commit, holding
      exactly that transaction's bodies in order. */
  lemma {:induction false} DeliveriesAreAtomic(env: Env, inputs: seq<Input>, d: Delivery)
    requires ValidRun(env, inputs) && d in History(After(env, inputs)) && !IsTick(d)
    ensures exists c: nat :: c < |TxnEvents(env, inputs)| && Allowed(env.txn, TxnEvents(env, inputs), c, d)
  {
    var es := TxnEvents(env, inputs);
    PipelineEmitsTxnStream(env, inputs);
    assert d in Payload(History(After(env, inputs)));
    EmittedSomewhere(env.txn, es, d);
    var c: nat :| c < |es| && d in EmittedAt(env.txn, es, c);
    EmittedIsAllowed(env.txn, es, c, d);
  }
}
