// The scanner adaptor of wal/adaptor/scanner_adaptor.go: the consume loop over the reorder
// buffer, the transaction buffer and the pending queue.
module ScannerAdaptors {
  import opened Messages
  import MessageHeaps
  import opened ReorderBuffers
  import opened TxnModel
  import opened TxnBuffers
  import opened PendingQueues
  import opened ScannerModel

  /** What the select statement of Handle chose to do. */
  datatype HandleResult = Cancelled | Incoming(m: Message) | MessageHandled

  class ScannerAdaptor {
    const env: Env
    const reorderBuffer: ReorderBuffer
    const messageHeap: MessageHeaps.MessageHeap
    const txnBuffer: TxnBuffer
    const pendingQueue: PendingQueue
    ghost var delivered: seq<Delivery>
    ghost var rejected: multiset<Message>
    ghost var dropped: multiset<Message>

    ghost predicate Valid()
      reads this, reorderBuffer, messageHeap, txnBuffer, pendingQueue
    {
      && reorderBuffer.messageHeap == messageHeap
      && reorderBuffer.Valid() && txnBuffer.Valid() && pendingQueue.Valid()
      && txnBuffer.env == env.txn && pendingQueue.sizeOf == env.sizeOf
    }

    ghost function Abstract(): State
      reads this, reorderBuffer, messageHeap, txnBuffer, pendingQueue
    {
      State(multiset(messageHeap.items), reorderBuffer.lastPopTimeTick, txnBuffer.builders,
            pendingQueue.items, delivered, rejected, dropped)
    }

    constructor (env: Env)
      ensures this.env == env && Valid() && Abstract() == START
      ensures fresh(reorderBuffer) && fresh(messageHeap) && fresh(txnBuffer) && fresh(pendingQueue)
    {
      this.env := env;
      var buffer := new ReorderBuffer();
      reorderBuffer := buffer;
      messageHeap := buffer.messageHeap;
      txnBuffer := new TxnBuffer(env.txn);
      pendingQueue := new PendingQueue(env.sizeOf);
      delivered := [];
      rejected := multiset{};
      dropped := multiset{};
      new;
      assert reorderBuffer.Held() == multiset{};
    }

    method Release(t: nat) returns (messages: seq<Message>)
      requires Valid()
      modifies reorderBuffer, messageHeap
      ensures Valid()
      ensures PopsUntil(old(Abstract()).held, t, messages)
      ensures Abstract() == old(Abstract()).(held := old(Abstract()).held - multiset(messages), last := t)
    {
      assert Abstract().held == reorderBuffer.Held();
      messages := reorderBuffer.PopUtilTimeTick(t);
      assert Abstract().held == reorderBuffer.Held();
    }

    method Confirm(messages: seq<Message>, t: nat) returns (msgs: seq<Delivery>)
      requires Valid()
      modifies this, txnBuffer
      ensures Valid()
      ensures var o := Run(env.txn, old(Abstract()).builders, Batch(messages, t));
        msgs == o.out &&
        Abstract() == old(Abstract()).(builders := o.state, dropped := old(Abstract()).dropped + o.dropped)
    {
      dropped := dropped + Run(env.txn, txnBuffer.builders, Batch(messages, t)).dropped;
      msgs := txnBuffer.HandleImmutableMessages(messages, t);
    }

    /** Queues the confirmed deliveries, and the time tick itself when it must be seen or when
        nothing else would push the consumer's clock forward. */
    method Enqueue(msgs: seq<Delivery>, m: Message)
      requires Valid()
      modifies pendingQueue
      ensures Valid()
      ensures Abstract() == old(Abstract()).(pending :=
        old(Abstract()).pending + msgs + TickPart(old(Abstract()).pending, msgs, m))
    {
      if |msgs| > 0 {
        pendingQueue.Add(msgs);
      }
      assert pendingQueue.items == old(pendingQueue.items) + msgs;
      if m.persisted || pendingQueue.Len() == 0 {
        pendingQueue.Add([Single(m)]);
      }
    }

    method HandleTimeTick(m: Message) returns (ghost popped: seq<Message>)
      requires Valid()
      modifies this, reorderBuffer, messageHeap, txnBuffer, pendingQueue
      ensures Valid()
      ensures PopsUntil(old(Abstract()).held, m.tick, popped)
      ensures Abstract() == OnTimeTick(old(Abstract()), m, popped,
                                       Run(env.txn, old(Abstract()).builders, Batch(popped, m.tick)))
    {
      var messages := Release(m.tick);
      popped := messages;
      var msgs := Confirm(messages, m.tick);
      Enqueue(msgs, m);
    }

    /** A message other than a time tick, pushed into the reorder buffer. */
    method PushMessage(m: Message)
      requires Valid()
      modifies this, reorderBuffer, messageHeap
      ensures Valid() && Abstract() == OnMessage(old(Abstract()), m)
    {
      assert Abstract().held == reorderBuffer.Held();
      var err := reorderBuffer.Push(m);
      assert Abstract().held == reorderBuffer.Held();
      if err != Accepted {
        rejected := rejected + multiset{m};
      }
    }

    method HandleUpstream(m: Message) returns (ghost popped: seq<Message>)
      requires Valid()
      modifies this, reorderBuffer, messageHeap, txnBuffer, pendingQueue
      ensures Valid()
      ensures if IsWatermark(env, m) then PopsUntil(old(Abstract()).held, m.tick, popped) else popped == []
      ensures Abstract() == Upstream(env, old(Abstract()), m, popped)
      ensures !env.keep(m) ==> Abstract() == old(Abstract())
      ensures env.keep(m) && m.kind != TimeTick ==>
        if env.vchannel.None? || m.vchannel.None? || env.vchannel.value == m.vchannel.value
        then TakenIn(old(Abstract()), m, Abstract()) else Abstract() == old(Abstract())
      ensures env.keep(m) && m.kind == TimeTick ==>
        pendingQueue.items != [] && (m.persisted ==> pendingQueue.items[|pendingQueue.items| - 1] == Single(m))
    {
      popped := [];
      if m.kind == TimeTick {
        forall order { TickIsSeen(env, Abstract(), m, order); }
      } else {
        FilterMeans(env, Abstract(), m);
      }
      if !env.keep(m) {
        return;
      }
      if m.kind == TimeTick {
        popped := HandleTimeTick(m);
        return;
      }
      if m.vchannel.Some? && env.vchannel.Some? && env.vchannel != m.vchannel {
        return;
      }
      PushMessage(m);
    }

    method Advance()
      requires Valid() && pendingQueue.items != []
      modifies this, reorderBuffer, messageHeap, txnBuffer, pendingQueue
      ensures Valid() && Abstract() == Advanced(old(Abstract()))
    {
      delivered := delivered + [pendingQueue.items[0]];
      pendingQueue.UnsafeAdvance();
    }

    /** The pipeline is where a valid run of the model leads. */
    ghost predicate StandsAt(run: seq<Input>)
      reads this, reorderBuffer, messageHeap, txnBuffer, pendingQueue
    {
      Valid() && ValidRun(env, run) && Abstract() == After(env, run)
    }

    /** What the consume loop does with one choice of its select. */
    method Choose(choice: HandleResult, ghost run: seq<Input>) returns (ghost next: seq<Input>)
      requires StandsAt(run) && choice != Cancelled
      modifies this, reorderBuffer, messageHeap, txnBuffer, pendingQueue
      ensures StandsAt(next)
      ensures Chose(env, run, choice, next)
      ensures choice.Incoming? ==>
        if |old(pendingQueue.items)| > 16 then next == run
        else exists popped :: next == run + [Receive(choice.m, popped)]
    {
      next := run;
      var upstreamOpen := !(pendingQueue.Len() > PENDING_LIMIT);
      match choice
      case MessageHandled =>
        if pendingQueue.Next().Some? {
          OneMore(env, run, Send);
          Advance();
          next := run + [Send];
        }
      case Incoming(m) =>
        if upstreamOpen {
          ghost var popped := HandleUpstream(m);
          OneMore(env, run, Receive(m, popped));
          next := run + [Receive(m, popped)];
        }
    }

    /** The consume loop, driven by the choices its select makes, up to the first cancellation. A choice
        whose case is disabled (upstream closed off by a long queue, nothing to send) cannot be made and
        is passed over; every other is taken, in order. runs lists the events after each choice. */
    method ConsumeEventLoop(choices: seq<HandleResult>) returns (ghost runs: seq<seq<Input>>)
      requires Valid() && Abstract() == START
      modifies this, reorderBuffer, messageHeap, txnBuffer, pendingQueue
      ensures Driven(env, choices, runs) && StandsAt(runs[|runs| - 1])
      ensures |runs| == |choices| + 1 || choices[|runs| - 1] == Cancelled
    {
      ghost var run: seq<Input> := [];
      runs := [run];
      for i := 0 to |choices|
        invariant |runs| == i + 1 && runs[i] == run && Driven(env, choices, runs)
        invariant StandsAt(run)
      {
        if choices[i] == Cancelled {
          return;
        }
        run := Choose(choices[i], run);
        DrivenOn(env, choices, runs, run);
        runs := runs + [run];
      }
    }
  }

  /** An enabled choice adds its event; a disabled one changes nothing. */
  ghost predicate Chose(env: Env, run: seq<Input>, choice: HandleResult, next: seq<Input>) {
    match choice
    case Cancelled => false
    case MessageHandled => next == if After(env, run).pending != [] then run + [Send] else run
    case Incoming(m) =>
      if |After(env, run).pending| <= PENDING_LIMIT then exists popped :: next == run + [Receive(m, popped)]
      else next == run
  }

  ghost predicate ChoseAt(env: Env, choices: seq<HandleResult>, runs: seq<seq<Input>>, k: nat) {
    k < |choices| && k + 1 < |runs| && Chose(env, runs[k], choices[k], runs[k + 1])
  }

  /** The events after each of the first choices, each choice in its turn. */
  ghost predicate Driven(env: Env, choices: seq<HandleResult>, runs: seq<seq<Input>>) {
    && 1 <= |runs| <= |choices| + 1 && runs[0] == []
    && forall k: nat | k < |runs| - 1 :: ChoseAt(env, choices, runs, k)
  }

  lemma DrivenOn(env: Env, choices: seq<HandleResult>, runs: seq<seq<Input>>, next: seq<Input>)
    requires Driven(env, choices, runs) && |runs| <= |choices|
    requires Chose(env, runs[|runs| - 1], choices[|runs| - 1], next)
    ensures Driven(env, choices, runs + [next])
  {
    var more := runs + [next];
    forall k: nat | k < |more| - 1 ensures ChoseAt(env, choices, more, k) {
      assert k < |runs| - 1 ==> ChoseAt(env, choices, runs, k);
    }
  }
}
