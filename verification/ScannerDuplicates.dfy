// The limit of deduplication: when a copy of a message that already left the reorder buffer is taken
// in and delivered again (wal/utility/reorder_buffer.go, wal/adaptor/scanner_adaptor.go).
module ScannerDuplicates {
  import opened Prelude
  import opened Messages
  import opened Runs
  import opened ReorderBuffers
  import opened TxnModel
  import opened ScannerModel
  import opened ScannerLedger

  /** What an input takes out of the reorder buffer. */
  ghost function Popping(env: Env): Input -> multiset<Message> {
    (a: Input) => if Marks(env, a) then multiset(a.popped) else multiset{}
  }

  /** Everything the time ticks of a run took out of the reorder buffer, with multiplicity. */
  ghost function Popped(env: Env, inputs: seq<Input>): multiset<Message> {
    Total(inputs, Popping(env))
  }

  /** Where it is: in an open transaction, delivered or pending, alone or
      inside a transaction, or dropped by the transaction buffer. */
  ghost function Released(s: State): multiset<Message> {
    CONTENTS(s.builders) + Total(History(s), CARRIED) + s.dropped
  }

  lemma Regrouped<T>(open: multiset<T>, open': multiset<T>, popped: multiset<T>, emitted: multiset<T>, lost: multiset<T>,
                     history: multiset<T>, dropped: multiset<T>)
    requires open + popped == open' + emitted + lost
    ensures open' + (history + emitted) + (dropped + lost) == open + history + dropped + popped
  {
    calc {
      open' + (history + emitted) + (dropped + lost);
      (open' + emitted + lost) + history + dropped;
      (open + popped) + history + dropped;
    }
  }

  lemma TickReleases(env: Env, s: State, m: Message, popped: seq<Message>)
    requires NoTicksHeld(s.held) && IsWatermark(env, m) && PopsUntil(s.held, m.tick, popped)
    ensures Released(OnTimeTick(s, m, popped, Run(env.txn, s.builders, Batch(popped, m.tick)))) ==
            Released(s) + multiset(popped)
  {
    var o := Run(env.txn, s.builders, Batch(popped, m.tick));
    TxnRunConserves(env.txn, s.builders, Batch(popped, m.tick));
    BatchIncoming(popped, m.tick);
    BatchEmitsNoTicks(env.txn, s.builders, s.held, m.tick, popped);
    TotalSame(o.out, CARRIED, PARTS);
    TickPartCarriesNothing(s.pending, o.out, m);
    TotalConcat(o.out, TickPart(s.pending, o.out, m), CARRIED);
    TotalConcat(History(s), o.out + TickPart(s.pending, o.out, m), CARRIED);
    TimeTickHistory(s, m, popped, o);
    Regrouped(CONTENTS(s.builders), CONTENTS(o.state), multiset(popped), Total(o.out, PARTS), o.dropped,
              Total(History(s), CARRIED), s.dropped);
  }

  lemma MessageReleasesNothing(s: State, m: Message)
    ensures Released(OnMessage(s, m)) == Released(s)
  {
    assert History(OnMessage(s, m)) == History(s);
  }

  lemma SendReleasesNothing(s: State)
    requires s.pending != []
    ensures Released(Advanced(s)) == Released(s)
  {
    AdvancedHistory(s);
  }

  lemma OtherStepReleasesNothing(env: Env, s: State, a: Input)
    requires Enabled(env, s, a) && !Marks(env, a)
    ensures Released(Apply(env, s, a)) == Released(s)
  {
    if a.Send? {
      SendReleasesNothing(s);
    } else if Passes(env, a.m) {
      MessageReleasesNothing(s, a.m);
    }
  }

  lemma StepReleases(env: Env, s: State, a: Input)
    requires NoTicksHeld(s.held) && Enabled(env, s, a)
    ensures Released(Apply(env, s, a)) == Released(s) + Popping(env)(a)
  {
    if Marks(env, a) {
      TickReleases(env, s, a.m, a.popped);
    } else {
      OtherStepReleasesNothing(env, s, a);
      assert Popping(env)(a) == multiset{};
    }
  }

  /** What the time ticks popped is exactly what is in an open transaction, in the history or dropped. */
  lemma {:induction false} ReleasedWerePopped(env: Env, inputs: seq<Input>)
    requires ValidRun(env, inputs)
    ensures Released(After(env, inputs)) == Popped(env, inputs)
  {
    if inputs != [] {
      var front := inputs[..|inputs| - 1];
      ReleasedWerePopped(env, front);
      Conservation(env, front);
      StepReleases(env, After(env, front), inputs[|inputs| - 1]);
    }
  }

  lemma {:induction false} PoppedNotAfterLast(env: Env, inputs: seq<Input>, m: Message)
    requires ValidRun(env, inputs) && MonotoneTicks(env, inputs)
    requires m in Popped(env, inputs)
    ensures m.tick <= After(env, inputs).last
  {
    var front, a := inputs[..|inputs| - 1], inputs[|inputs| - 1];
    MonotoneFront(env, inputs);
    LastIsLatest(env, front);
    ApplyLast(env, After(env, front), a);
    if m in Popped(env, front) {
      PoppedNotAfterLast(env, front, m);
    } else {
      assert m in multiset(a.popped);
    }
  }

  /** A copy of a message that left the reorder buffer, be it delivered, inside a transaction or dropped,
      is taken in again exactly if its tick is the last popped tick and its id is not held. */
  lemma AcceptedAgainIff(env: Env, inputs: seq<Input>, m: Message)
    requires ValidRun(env, inputs) && MonotoneTicks(env, inputs) && m in Popped(env, inputs)
    ensures var s := After(env, inputs);
      PushOutcome(s.held, s.last, m) == Accepted <==> m.tick == s.last && !Holds(s.held, m.id)
  {
    PoppedNotAfterLast(env, inputs, m);
  }

  // ---------- delivered again ----------

  function Copies(h: seq<Delivery>, m: Message): nat {
    multiset(h)[Single(m)]
  }

  lemma CopiesAppend(a: seq<Delivery>, b: seq<Delivery>, m: Message)
    ensures Copies(a + b, m) == Copies(a, m) + Copies(b, m)
  {
  }

  /** One for an arrival of m, zero for any other event. */
  function ArrivalOf(m: Message): Event -> nat {
    (e: Event) => if e == Arrive(m) then 1 else 0
  }

  lemma StepDelivers(env: TxnEnv, b: Builders, e: Event, m: Message)
    requires m.txn == None
    ensures multiset(Step(env, b, e).out)[Single(m)] == ArrivalOf(m)(e)
  {
  }

  lemma {:induction false} ArrivalsOf(msgs: seq<Message>, m: Message)
    ensures RankSum(Arrivals(msgs), ArrivalOf(m)) == multiset(msgs)[m]
  {
    if msgs != [] {
      var front, x := msgs[..|msgs| - 1], msgs[|msgs| - 1];
      ArrivalsOf(front, m);
      assert Arrivals(msgs)[..|msgs| - 1] == Arrivals(front);
      assert msgs == front + [x];
    }
  }

  lemma BatchDelivers(env: TxnEnv, b: Builders, msgs: seq<Message>, t: nat, m: Message)
    requires m.txn == None
    ensures Copies(Run(env, b, Batch(msgs, t)).out, m) == multiset(msgs)[m]
  {
    forall s: Builders, e: Event
      ensures multiset(Stepper(env)(s, e).out)[Single(m)] == ArrivalOf(m)(e)
    {
      StepDelivers(env, s, e, m);
    }
    EmissionsCount(Stepper(env), b, Batch(msgs, t), Single(m), ArrivalOf(m));
    ArrivalsOf(msgs, m);
    assert Batch(msgs, t)[..|msgs|] == Arrivals(msgs);
  }

  /** A time tick delivers every held copy, not past it, of a message outside transactions. */
  lemma TickDelivers(env: Env, s: State, t: Message, popped: seq<Message>, m: Message)
    requires IsWatermark(env, t) && Enabled(env, s, Receive(t, popped))
    requires m.txn == None && m.kind != TimeTick && m.tick <= t.tick
    ensures Copies(History(Apply(env, s, Receive(t, popped))), m) == Copies(History(s), m) + s.held[m]
  {
    HistoryStep(env, s, Receive(t, popped));
    BatchDelivers(env.txn, s.builders, popped, t.tick, m);
    PopsUntilCounts(s.held, t.tick, popped);
  }

  /** The history gains, by a copy of m and the next time tick, one more delivery of m exactly if the
      copy was taken in: for a message that had left the buffer, exactly if its tick was the last
      popped tick and its id was not held. */
  lemma DeliveredAgainIff(env: Env, inputs: seq<Input>, m: Message, t: Message, popped: seq<Message>)
    requires ValidRun(env, inputs) && MonotoneTicks(env, inputs) && m in Popped(env, inputs)
    requires Passes(env, m) && m.txn == None && IsWatermark(env, t) && After(env, inputs).last <= t.tick
    requires Enabled(env, Apply(env, After(env, inputs), Receive(m, [])), Receive(t, popped))
    ensures var s := After(env, inputs);
      var next := Apply(env, Apply(env, s, Receive(m, [])), Receive(t, popped));
      Copies(History(next), m) == Copies(History(s), m) + s.held[m]
        + if m.tick == s.last && !Holds(s.held, m.id) then 1 else 0
  {
    var s := After(env, inputs);
    AcceptedAgainIff(env, inputs, m);
    PoppedNotAfterLast(env, inputs, m);
    TickDelivers(env, Apply(env, s, Receive(m, [])), t, popped, m);
    assert History(OnMessage(s, m)) == History(s);
  }

  // ---------- an instance ----------

  lemma LoneMessageBatch(env: TxnEnv, b: Builders, m: Message, t: nat)
    requires m.txn == None
    ensures Run(env, b, Batch([m], t)).out == [Single(m)]
  {
    var es := Batch([m], t);
    assert es[..1] == [Arrive(m)] && es == [Arrive(m), Expire(t)];
    RunOne(Stepper(env), b, Arrive(m));
  }

  /** A message and then a persisted time tick at the same tick, against an empty reorder buffer. */
  lemma MessageThenTick(env: Env, s: State, m: Message, t: Message)
    requires Passes(env, m) && m.txn == None && IsWatermark(env, t) && t.persisted && t.tick == m.tick
    requires s.held == multiset{} && s.last <= m.tick && |s.pending| <= PENDING_LIMIT
    ensures var first := Apply(env, s, Receive(m, []));
      var second := Apply(env, first, Receive(t, [m]));
      && Enabled(env, s, Receive(m, [])) && Enabled(env, first, Receive(t, [m]))
      && second.held == multiset{} && second.last == m.tick
      && second.pending == s.pending + [Single(m), Single(t)] && second.delivered == s.delivered
  {
    assert !Holds(s.held, m.id);
    var first := Apply(env, s, Receive(m, []));
    assert first == s.(held := multiset{m});
    LoneMessageBatch(env.txn, s.builders, m, t.tick);
    assert multiset([m]) == multiset{m};
    assert first.held - multiset([m]) == multiset{};
  }

  /** Nothing held and nothing pending, at or before the tick of m. */
  ghost predicate Quiet(s: State, m: Message) {
    s.held == multiset{} && s.last <= m.tick && s.pending == []
  }

  /** A copy and the time tick that pops it, both delivered. */
  ghost function Round(m: Message, t: Message): seq<Input> {
    [Receive(m, [])] + ([Receive(t, [m])] + ([Send] + [Send]))
  }

  /** One more round, from a quiet state to a quiet state. */
  lemma OneRound(env: Env, i0: seq<Input>, i1: seq<Input>, i2: seq<Input>, i3: seq<Input>, i4: seq<Input>,
                 m: Message, t: Message)
    requires Passes(env, m) && m.txn == None && IsWatermark(env, t) && t.persisted && t.tick == m.tick
    requires ValidRun(env, i0) && Quiet(After(env, i0), m)
    requires i1 == i0 + [Receive(m, [])] && i2 == i1 + [Receive(t, [m])] && i3 == i2 + [Send] && i4 == i3 + [Send]
    ensures ValidRun(env, i4) && Quiet(After(env, i4), m)
    ensures After(env, i4).delivered == After(env, i0).delivered + [Single(m)] + [Single(t)]
  {
    MessageThenTick(env, After(env, i0), m, t);
    OneMore(env, i0, Receive(m, []));
    OneMore(env, i1, Receive(t, [m]));
    OneMore(env, i2, Send);
    OneMore(env, i3, Send);
  }

  lemma AnotherRound(env: Env, i0: seq<Input>, all: seq<Input>, m: Message, t: Message)
    requires Passes(env, m) && m.txn == None && IsWatermark(env, t) && t.persisted && t.tick == m.tick
    requires ValidRun(env, i0) && Quiet(After(env, i0), m) && all == i0 + Round(m, t)
    ensures ValidRun(env, all) && Quiet(After(env, all), m)
    ensures Copies(After(env, all).delivered, m) == Copies(After(env, i0).delivered, m) + 1
  {
    var i1 := i0 + [Receive(m, [])];
    var i2 := i1 + [Receive(t, [m])];
    var i3 := i2 + [Send];
    assert all == i3 + [Send];
    OneRound(env, i0, i1, i2, i3, all, m, t);
    CopiesAppend(After(env, i0).delivered, [Single(m)], m);
    CopiesAppend(After(env, i0).delivered + [Single(m)], [Single(t)], m);
  }

  /** Adds one more round to a run. */
  ghost function OneMoreRound(m: Message, t: Message): seq<Input> -> seq<Input> {
    (run: seq<Input>) => run + Round(m, t)
  }

  /** So one message can be delivered any number of times. */
  lemma DeliveredAnyNumberOfTimes(env: Env, m: Message, t: Message, n: nat)
    requires Passes(env, m) && m.txn == None && IsWatermark(env, t) && t.persisted && t.tick == m.tick
    ensures var run := Iterated(OneMoreRound(m, t), [], n);
      ValidRun(env, run) && Copies(After(env, run).delivered, m) == n
  {
    var inv := (run: seq<Input>, k: nat) =>
      ValidRun(env, run) && Quiet(After(env, run), m) && Copies(After(env, run).delivered, m) == k;
    forall run: seq<Input>, k: nat | inv(run, k)
      ensures inv(OneMoreRound(m, t)(run), k + 1)
    {
      AnotherRound(env, run, run + Round(m, t), m, t);
    }
    IteratedHolds(OneMoreRound(m, t), inv, [], n);
  }
}
