// The watermark property of the scanner: with monotone time ticks, everything delivered or
// waiting to be delivered is in tick order, and nothing late ever gets in.
module ScannerOrder {
  import opened Messages
  import opened Runs
  import opened ReorderBuffers
  import opened TxnModel
  import opened ScannerModel

  predicate Ordered(s: seq<Delivery>) {
    forall i, j | 0 <= i < j < |s| :: s[i].Tick() <= s[j].Tick()
  }

  /** Every delivery has a tick between lo and hi. */
  predicate Within(s: seq<Delivery>, lo: nat, hi: nat) {
    forall d | d in s :: lo <= d.Tick() <= hi
  }

  lemma OrderedAppend(a: seq<Delivery>, b: seq<Delivery>, lo: nat, mid: nat, hi: nat)
    requires Ordered(a) && Ordered(b) && Within(a, lo, mid) && Within(b, mid, hi)
    requires lo <= mid <= hi
    ensures Ordered(a + b) && Within(a + b, lo, hi)
  {
  }

  /** One message emits at most one delivery, stamped with that message's tick. */
  lemma StepTicks(env: TxnEnv, b: Builders, m: Message)
    ensures var out := Step(env, b, Arrive(m)).out;
      |out| <= 1 && forall d | d in out :: d.Tick() == m.tick
  {
  }

  lemma ArrivalsSnoc(env: TxnEnv, b: Builders, msgs: seq<Message>)
    requires msgs != []
    ensures var before := Run(env, b, Arrivals(msgs[..|msgs| - 1]));
      Run(env, b, Arrivals(msgs)).out == before.out + Step(env, before.state, Arrive(msgs[|msgs| - 1])).out
  {
    assert Arrivals(msgs)[..|msgs| - 1] == Arrivals(msgs[..|msgs| - 1]);
  }

  lemma {:induction false} ArrivalTicks(env: TxnEnv, b: Builders, msgs: seq<Message>, lo: nat, hi: nat)
    requires NondecreasingTicks(msgs) && lo <= hi && forall m | m in msgs :: lo <= m.tick <= hi
    ensures var out := Run(env, b, Arrivals(msgs)).out; Ordered(out) && Within(out, lo, hi)
  {
    if msgs != [] {
      var front, m := msgs[..|msgs| - 1], msgs[|msgs| - 1];
      ArrivalTicks(env, b, front, lo, m.tick);
      ArrivalsSnoc(env, b, msgs);
      var before := Run(env, b, Arrivals(front));
      StepTicks(env, before.state, m);
      OrderedAppend(before.out, Step(env, before.state, Arrive(m)).out, lo, m.tick, m.tick);
    }
  }

  /** A batch popped at t emits in tick order, from the batch's lower bound up to t. */
  lemma BatchTicks(env: TxnEnv, b: Builders, msgs: seq<Message>, lo: nat, t: nat)
    requires NondecreasingTicks(msgs) && lo <= t
    requires forall m | m in msgs :: lo <= m.tick <= t
    ensures var out := Run(env, b, Batch(msgs, t)).out; Ordered(out) && Within(out, lo, t)
  {
    ArrivalTicks(env, b, msgs, lo, t);
    assert Batch(msgs, t)[..|msgs|] == Arrivals(msgs);
  }

  /** What every step keeps: history in order and not past the last pop, held messages not before it. */
  ghost predicate InOrder(s: State) {
    && Ordered(History(s))
    && Within(History(s), 0, s.last)
    && NoneBefore(s.held, s.last)
  }

  lemma PoppedBounds(s: State, t: nat, popped: seq<Message>)
    requires NoneBefore(s.held, s.last) && PopsUntil(s.held, t, popped)
    ensures forall m | m in popped :: s.last <= m.tick <= t
    ensures NoneBefore(s.held - multiset(popped), t)
  {
  }

  /** What an input adds to the history lies between the last popped tick and its own. */
  lemma AddedInOrder(env: Env, s: State, a: Input)
    requires NoneBefore(s.held, s.last) && Enabled(env, s, a)
    requires Marks(env, a) && s.last <= a.m.tick
    ensures Ordered(Added(env, s, a)) && Within(Added(env, s, a), s.last, a.m.tick)
  {
    PoppedBounds(s, a.m.tick, a.popped);
    BatchTicks(env.txn, s.builders, a.popped, s.last, a.m.tick);
    var out := Run(env.txn, s.builders, Batch(a.popped, a.m.tick)).out;
    OrderedAppend(out, TickPart(s.pending, out, a.m), s.last, a.m.tick, a.m.tick);
  }

  lemma HeldAfter(env: Env, s: State, a: Input)
    requires NoneBefore(s.held, s.last) && Enabled(env, s, a)
    ensures NoneBefore(Apply(env, s, a).held, Apply(env, s, a).last)
  {
  }

  lemma StepKeepsOrder(env: Env, s: State, a: Input)
    requires InOrder(s) && Enabled(env, s, a)
    requires Marks(env, a) ==> s.last <= a.m.tick
    ensures InOrder(Apply(env, s, a))
  {
    HeldAfter(env, s, a);
    HistoryStep(env, s, a);
    ApplyLast(env, s, a);
    if Marks(env, a) {
      AddedInOrder(env, s, a);
      OrderedAppend(History(s), Added(env, s, a), 0, s.last, a.m.tick);
    } else {
      assert History(s) + Added(env, s, a) == History(s);
    }
  }

  /** Watermark, part one: with monotone time ticks, delivered and pending messages together are
      always in tick order, and every held message is at or after the last popped tick. */
  lemma {:induction false} HistoryIsOrdered(env: Env, inputs: seq<Input>)
    requires ValidRun(env, inputs) && MonotoneTicks(env, inputs)
    ensures InOrder(After(env, inputs))
  {
    if inputs != [] {
      var front := inputs[..|inputs| - 1];
      MonotoneFront(env, inputs);
      HistoryIsOrdered(env, front);
      LastIsLatest(env, front);
      StepKeepsOrder(env, After(env, front), inputs[|inputs| - 1]);
    }
  }

  /** The history only grows: nothing queued is lost, reordered or replaced. */
  lemma {:induction false} HistoryOnlyGrows(env: Env, inputs: seq<Input>, n: nat)
    requires n <= |inputs|
    ensures History(After(env, inputs[..n])) <= History(After(env, inputs))
  {
    if n < |inputs| {
      var front := inputs[..|inputs| - 1];
      HistoryOnlyGrows(env, front, n);
      assert front[..n] == inputs[..n];
      HistoryStep(env, After(env, front), inputs[|inputs| - 1]);
    } else {
      assert inputs[..n] == inputs;
    }
  }

  lemma {:induction false} LastIsMonotone(env: Env, inputs: seq<Input>, n: nat)
    requires MonotoneTicks(env, inputs) && n <= |inputs|
    ensures After(env, inputs[..n]).last <= After(env, inputs).last
  {
    if n == |inputs| {
      assert inputs[..n] == inputs;
    } else {
      var front := inputs[..|inputs| - 1];
      assert front[..n] == inputs[..n];
      MonotoneFront(env, inputs);
      LastIsMonotone(env, front, n);
      LastIsLatest(env, front);
      ApplyLast(env, After(env, front), inputs[|inputs| - 1]);
    }
  }

  /** From position k on, nothing in h is before t. */
  predicate LateFree(h: seq<Delivery>, k: nat, t: nat) {
    forall i | k <= i < |h| :: t <= h[i].Tick()
  }

  lemma LateFreeAppend(h: seq<Delivery>, added: seq<Delivery>, k: nat, t: nat, lo: nat, hi: nat)
    requires LateFree(h, k, t) && Within(added, lo, hi) && t <= lo
    ensures LateFree(h + added, k, t)
  {
  }

  lemma LateFreeStep(env: Env, s: State, a: Input, k: nat, t: nat)
    requires InOrder(s) && Enabled(env, s, a) && t <= s.last
    requires Marks(env, a) ==> s.last <= a.m.tick
    requires LateFree(History(s), k, t)
    ensures LateFree(History(Apply(env, s, a)), k, t)
  {
    HistoryStep(env, s, a);
    if Marks(env, a) {
      AddedInOrder(env, s, a);
      LateFreeAppend(History(s), Added(env, s, a), k, t, s.last, a.m.tick);
    } else {
      assert History(s) + Added(env, s, a) == History(s);
    }
  }

  lemma {:induction false} LateFreeOn(env: Env, front: seq<Input>, a: Input, all: seq<Input>, k: nat, t: nat)
    requires all == front + [a] && ValidRun(env, all) && MonotoneTicks(env, all)
    requires t <= After(env, front).last && LateFree(History(After(env, front)), k, t)
    ensures LateFree(History(After(env, all)), k, t)
  {
    assert all[..|all| - 1] == front && all[|all| - 1] == a;
    MonotoneFront(env, all);
    LastIsLatest(env, front);
    HistoryIsOrdered(env, front);
    LateFreeStep(env, After(env, front), a, k, t);
  }

  lemma FrontRuns(env: Env, front: seq<Input>, a: Input, all: seq<Input>)
    requires all == front + [a] && ValidRun(env, all) && MonotoneTicks(env, all)
    ensures ValidRun(env, front) && MonotoneTicks(env, front)
  {
    assert all[..|all| - 1] == front;
    MonotoneFront(env, all);
  }

  lemma {:induction false} LastStaysAfter(env: Env, front: seq<Input>, a: Input, all: seq<Input>, t: nat)
    requires all == front + [a] && MonotoneTicks(env, all) && t <= After(env, front).last
    ensures t <= After(env, all).last
  {
    assert all[..|all| - 1] == front && all[|all| - 1] == a;
    MonotoneFront(env, all);
    LastIsLatest(env, front);
    ApplyLast(env, After(env, front), a);
  }

  /** Watermark, part two: once a time tick t has been received, nothing that joins the
      history afterwards is before t. */
  lemma NothingLateIsDelivered(env: Env, inputs: seq<Input>, later: seq<Input>)
    requires ValidRun(env, inputs + later) && MonotoneTicks(env, inputs + later)
    ensures LateFree(History(After(env, inputs + later)), |History(After(env, inputs))|, After(env, inputs).last)
  {
    var k, t := |History(After(env, inputs))|, After(env, inputs).last;
    var ok := (run: seq<Input>) => ValidRun(env, run) && MonotoneTicks(env, run);
    var inv := (run: seq<Input>) => LateFree(History(After(env, run)), k, t) && t <= After(env, run).last;
    forall run, a | ok(run + [a])
      ensures ok(run)
    {
      FrontRuns(env, run, a, run + [a]);
    }
    forall run, a | inv(run) && ok(run + [a])
      ensures inv(run + [a])
    {
      LateFreeOn(env, run, a, run + [a], k, t);
      LastStaysAfter(env, run, a, run + [a], t);
    }
    HoldsOn(inputs, later, ok, inv);
  }

  lemma LateIsRejected(env: Env, s: State, m: Message)
    requires Passes(env, m) && m.tick < s.last
    ensures Apply(env, s, Receive(m, [])) == s.(rejected := s.rejected + multiset{m})
  {
  }

  /** A message strictly before the last popped tick changes nothing but the count of rejections. */
  lemma {:induction false} LateMessageIsRejected(env: Env, inputs: seq<Input>, n: nat, m: Message)
    requires MonotoneTicks(env, inputs) && n < |inputs|
    requires Marks(env, inputs[n]) && Passes(env, m) && m.tick < inputs[n].m.tick
    ensures var s := After(env, inputs);
      Apply(env, s, Receive(m, [])) == s.(rejected := s.rejected + multiset{m})
  {
    LastIsMonotone(env, inputs, n + 1);
    assert inputs[..n + 1][..n] == inputs[..n];
    ApplyLast(env, After(env, inputs[..n]), inputs[n]);
    LateIsRejected(env, After(env, inputs), m);
  }
}
