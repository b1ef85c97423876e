// The scanner pipeline of wal/adaptor/scanner_adaptor.go as a state machine: reorder buffer,
// transaction buffer, pending queue and consumer, one step per event of the consume loop.
module ScannerModel {
  import opened Prelude
  import opened Messages
  import opened ReorderBuffers
  import opened TxnModel

  /** The configuration: message filter, wanted channel (None for all), builders' and sizes' foreign parts. */
  datatype Env = Env(txn: TxnEnv, keep: Message -> bool, vchannel: Option<VChannel>, sizeOf: Delivery -> nat)

  datatype State = State(
    held: multiset<Message>,
    last: nat,
    builders: Builders,
    pending: seq<Delivery>,
    delivered: seq<Delivery>,
    rejected: multiset<Message>,
    dropped: multiset<Message>)

  const START := State(multiset{}, 0, map[], [], [], multiset{}, multiset{})

  /** One event of the consume loop. For a time tick, popped is the order in which the heap
      yields the released messages; it is empty for every other message. */
  datatype Input = Send | Receive(m: Message, popped: seq<Message>)

  /** The queue length above which the loop stops taking from upstream. */
  const PENDING_LIMIT := 16

  predicate IsWatermark(env: Env, m: Message) {
    env.keep(m) && m.kind == TimeTick
  }

  predicate OtherChannel(env: Env, m: Message) {
    m.vchannel.Some? && env.vchannel.Some? && env.vchannel != m.vchannel
  }

  /** A message that passes the filters and is not a time tick. */
  predicate Passes(env: Env, m: Message) {
    env.keep(m) && m.kind != TimeTick && !OtherChannel(env, m)
  }

  ghost predicate Enabled(env: Env, s: State, a: Input) {
    match a
    case Send => |s.pending| > 0
    case Receive(m, popped) =>
      && |s.pending| <= PENDING_LIMIT
      && (if IsWatermark(env, m) then PopsUntil(s.held, m.tick, popped) else popped == [])
  }

  /** The time tick itself is queued when it is persisted, or when nothing else is waiting. */
  function TickPart(pending: seq<Delivery>, out: seq<Delivery>, m: Message): seq<Delivery> {
    if m.persisted || pending + out == [] then [Single(m)] else []
  }

  ghost function OnTimeTick(s: State, m: Message, popped: seq<Message>, o: TxnOutcome): State {
    State(s.held - multiset(popped), m.tick, o.state, s.pending + o.out + TickPart(s.pending, o.out, m),
          s.delivered, s.rejected, s.dropped + o.dropped)
  }

  ghost function OnMessage(s: State, m: Message): State {
    if PushOutcome(s.held, s.last, m) == Accepted then s.(held := s.held + multiset{m})
    else s.(rejected := s.rejected + multiset{m})
  }

  ghost function Upstream(env: Env, s: State, m: Message, popped: seq<Message>): State {
    if IsWatermark(env, m) then OnTimeTick(s, m, popped, Run(env.txn, s.builders, Batch(popped, m.tick)))
    else if Passes(env, m) then OnMessage(s, m)
    else s
  }

  ghost function Apply(env: Env, s: State, a: Input): State {
    match a
    case Send => if s.pending == [] then s else Advanced(s)
    case Receive(m, popped) => Upstream(env, s, m, popped)
  }

  function Advanced(s: State): State
    requires s.pending != []
  {
    s.(pending := s.pending[1..], delivered := s.delivered + [s.pending[0]])
  }

  /** Everything delivered, then everything waiting to be delivered. */
  function History(s: State): seq<Delivery> {
    s.delivered + s.pending
  }

  /** What one input adds to the history. */
  ghost function Added(env: Env, s: State, a: Input): seq<Delivery> {
    if Marks(env, a) then
      var o := Run(env.txn, s.builders, Batch(a.popped, a.m.tick));
      o.out + TickPart(s.pending, o.out, a.m)
    else []
  }

  lemma TimeTickHistory(s: State, m: Message, popped: seq<Message>, o: TxnOutcome)
    ensures History(OnTimeTick(s, m, popped, o)) == History(s) + (o.out + TickPart(s.pending, o.out, m))
  {
  }

  lemma AdvancedHistory(s: State)
    requires s.pending != []
    ensures History(Advanced(s)) == History(s)
  {
  }

  lemma HistoryStep(env: Env, s: State, a: Input)
    ensures History(Apply(env, s, a)) == History(s) + Added(env, s, a)
  {
    if a.Send? {
      if s.pending != [] {
        AdvancedHistory(s);
      }
    } else if Marks(env, a) {
      TimeTickHistory(s, a.m, a.popped, Run(env.txn, s.builders, Batch(a.popped, a.m.tick)));
    } else if Passes(env, a.m) {
      assert History(OnMessage(s, a.m)) == History(s);
    }
  }

  predicate Marks(env: Env, a: Input) {
    a.Receive? && IsWatermark(env, a.m)
  }

  // ---------- what the filters and the time tick's own place mean ----------

  /** m joins the held messages, or is counted as rejected if it is late or its id is held. */
  ghost predicate TakenIn(s: State, m: Message, t: State) {
    if s.last <= m.tick && forall x | x in s.held :: x.id != m.id then t == s.(held := s.held + multiset{m})
    else t == s.(rejected := s.rejected + multiset{m})
  }

  /** A kept message other than a time tick is taken in if the scanner wants every channel, or the message
      has none, or the two are equal; in every other case nothing happens, as with a message not kept. */
  lemma FilterMeans(env: Env, s: State, m: Message)
    requires m.kind != TimeTick
    ensures env.keep(m) && (env.vchannel.None? || m.vchannel.None? || env.vchannel.value == m.vchannel.value) ==>
              TakenIn(s, m, Apply(env, s, Receive(m, [])))
    ensures env.keep(m) && env.vchannel.Some? && m.vchannel.Some? && env.vchannel.value != m.vchannel.value ==>
              Apply(env, s, Receive(m, [])) == s
    ensures !env.keep(m) ==> Apply(env, s, Receive(m, [])) == s
  {
  }

  /** After a kept time tick something is queued; a persisted tick is the last of it, and any other is
      queued exactly if nothing else is. A time tick not kept does nothing. */
  lemma TickIsSeen(env: Env, s: State, m: Message, popped: seq<Message>)
    requires m.kind == TimeTick
    ensures env.keep(m) ==>
              var t, out := Apply(env, s, Receive(m, popped)), Run(env.txn, s.builders, Batch(popped, m.tick)).out;
              && t.pending != [] && t.last == m.tick
              && (m.persisted ==> t.pending == s.pending + out + [Single(m)])
              && (!m.persisted && s.pending + out != [] ==> t.pending == s.pending + out)
              && (!m.persisted && s.pending + out == [] ==> t.pending == [Single(m)])
    ensures !env.keep(m) ==> Apply(env, s, Receive(m, popped)) == s
  {
  }

  // ---------- runs ----------

  ghost function After(env: Env, inputs: seq<Input>): State {
    if inputs == [] then START
    else Apply(env, After(env, inputs[..|inputs| - 1]), inputs[|inputs| - 1])
  }

  /** Every input was enabled when it happened. */
  ghost predicate ValidRun(env: Env, inputs: seq<Input>) {
    inputs != [] ==>
      && ValidRun(env, inputs[..|inputs| - 1])
      && Enabled(env, After(env, inputs[..|inputs| - 1]), inputs[|inputs| - 1])
  }

  lemma OneMore(env: Env, inputs: seq<Input>, a: Input)
    ensures After(env, inputs + [a]) == Apply(env, After(env, inputs), a)
    ensures ValidRun(env, inputs + [a]) <==> ValidRun(env, inputs) && Enabled(env, After(env, inputs), a)
    ensures Watermarks(env, inputs + [a]) == Watermarks(env, inputs) + if Marks(env, a) then [a.m.tick] else []
  {
  }

  /** The ticks of the time ticks received, in order of arrival. */
  function Watermarks(env: Env, inputs: seq<Input>): seq<nat> {
    if inputs == [] then []
    else
      var a := inputs[|inputs| - 1];
      Watermarks(env, inputs[..|inputs| - 1]) + (if Marks(env, a) then [a.m.tick] else [])
  }

  /** Upstream time ticks never go back. */
  predicate MonotoneTicks(env: Env, inputs: seq<Input>) {
    Sorted(Watermarks(env, inputs))
  }

  function Latest(marks: seq<nat>): nat {
    if marks == [] then 0 else marks[|marks| - 1]
  }

  lemma ApplyLast(env: Env, s: State, a: Input)
    ensures Apply(env, s, a).last == if Marks(env, a) then a.m.tick else s.last
  {
  }

  lemma {:induction false} LastIsLatest(env: Env, inputs: seq<Input>)
    ensures After(env, inputs).last == Latest(Watermarks(env, inputs))
  {
    if inputs != [] {
      LastIsLatest(env, inputs[..|inputs| - 1]);
      ApplyLast(env, After(env, inputs[..|inputs| - 1]), inputs[|inputs| - 1]);
    }
  }

  lemma MonotoneFront(env: Env, inputs: seq<Input>)
    requires inputs != [] && MonotoneTicks(env, inputs)
    ensures MonotoneTicks(env, inputs[..|inputs| - 1])
    ensures Marks(env, inputs[|inputs| - 1]) ==>
              Latest(Watermarks(env, inputs[..|inputs| - 1])) <= inputs[|inputs| - 1].m.tick
  {
    var before, all := Watermarks(env, inputs[..|inputs| - 1]), Watermarks(env, inputs);
    assert all == before + all[|before|..];
    forall i, j | 0 <= i < j < |before|
      ensures before[i] <= before[j]
    {
      assert all[i] <= all[j];
    }
    if Marks(env, inputs[|inputs| - 1]) && before != [] {
      assert all[|before| - 1] <= all[|before|];
    }
  }
}
