// The transaction buffer of wal/utility/txn_buffer.go: open transactions are held until they
// commit, roll back or expire.
module TxnBuffers {
  import opened Prelude
  import opened Messages
  import opened Bags
  import opened TxnModel

  /** The byte counter is the size of everything held in open transactions. */
  ghost predicate Accounts(builders: Builders, bytes: int) {
    bytes == TotalSize(CONTENTS(builders))
  }

  lemma AccountsBegin(b: Builders, bytes: int, m: Message, id: TxnId)
    requires Accounts(b, bytes) && id !in b
    ensures Accounts(b[id := Builder(m, [])], bytes + m.size)
  {
    NewBag(m);
    UnionOfPut(b, ALL, id, Builder(m, []));
    TotalSizeAdd(UnionOf(b, ALL), m);
    assert multiset{m} + UnionOf(b, ALL) == UnionOf(b, ALL) + multiset{m};
  }

  lemma AccountsBody(b: Builders, bytes: int, m: Message, id: TxnId)
    requires Accounts(b, bytes) && id in b
    ensures Accounts(b[id := b[id].Extended(m)], bytes + m.size)
  {
    ExtendedBag(b[id], m);
    UnionOfGrow(b, ALL, id, b[id].Extended(m), multiset{m});
    TotalSizeAdd(UnionOf(b, ALL), m);
  }

  lemma AccountsRemove(b: Builders, bytes: int, id: TxnId)
    requires Accounts(b, bytes) && id in b
    ensures Accounts(b - {id}, bytes - b[id].EstimateSize())
  {
    UnionOfRemove(b, ALL, id);
    TotalSizeUnion(ALL(b[id]), CONTENTS(b - {id}));
    BuilderSize(b[id]);
  }

  /** The sweep loop: every key outside todo has been decided. */
  ghost predicate SweptExcept(start: Builders, now: Builders, overdue: Builder -> bool, todo: set<TxnId>) {
    && todo <= now.Keys <= start.Keys
    && (forall k | k in now :: now[k] == start[k])
    && (forall k | k in start && k !in todo :: k in now <==> !overdue(start[k]))
  }

  class TxnBuffer {
    const env: TxnEnv
    var builders: Builders
    var bytes: int

    ghost predicate Valid()
      reads this
    {
      Accounts(builders, bytes)
    }

    constructor (env: TxnEnv)
      ensures this.env == env && builders == map[] && Valid()
    {
      this.env := env;
      builders := map[];
      bytes := 0;
    }

    function Bytes(): int
      reads this
    {
      bytes
    }

    method HandleBeginTxn(m: Message, id: TxnId)
      requires Valid()
      modifies this
      ensures Valid() && builders == OnBegin(old(builders), m, id).state
    {
      if id in builders {
        return;
      }
      AccountsBegin(builders, bytes, m, id);
      builders := builders[id := Builder(m, [])];
      bytes := bytes + m.size;
    }

    method HandleCommitTxn(m: Message, id: TxnId) returns (txnMsg: Option<Delivery>)
      requires Valid()
      modifies this
      ensures Valid()
      ensures builders == OnCommit(env, old(builders), m, id).state
      ensures (if txnMsg.Some? then [txnMsg.value] else []) == OnCommit(env, old(builders), m, id).out
    {
      if id !in builders {
        return None;
      }
      var builder := builders[id];
      Discard(id);
      if !env.buildable(builder, m) {
        return None;
      }
      return Some(Txn(builder.begin, builder.bodies, m));
    }

    method HandleRollbackTxn(m: Message, id: TxnId)
      requires Valid()
      modifies this
      ensures Valid() && builders == OnRollback(old(builders), m, id).state
    {
      if id in builders {
        Discard(id);
      }
    }

    method HandleTxnBodyMessage(m: Message, id: TxnId)
      requires Valid()
      modifies this
      ensures Valid() && builders == OnBody(old(builders), m, id).state
    {
      if id !in builders {
        return;
      }
      AccountsBody(builders, bytes, m, id);
      builders := builders[id := builders[id].Extended(m)];
      bytes := bytes + m.size;
    }

    method Discard(id: TxnId)
      requires Valid() && id in builders
      modifies this
      ensures Valid() && builders == old(builders) - {id}
    {
      var builder := builders[id];
      AccountsRemove(builders, bytes, id);
      builders := builders - {id};
      bytes := bytes - builder.EstimateSize();
    }

    /** Visits the open transactions in an arbitrary order, deleting the overdue ones. */
    method ClearExpiredTxn(ts: nat)
      requires Valid()
      modifies this
      ensures Valid() && builders == Reject(old(builders), OverdueAt(env, ts))
    {
      ghost var start := builders;
      var todo := builders.Keys;
      while todo != {}
        invariant Valid()
        invariant SweptExcept(start, builders, OverdueAt(env, ts), todo)
        decreases |todo|
      {
        var id :| id in todo;
        todo := todo - {id};
        if env.expiry(builders[id]) <= ts {
          Discard(id);
        }
      }
    }

    /** One message of a batch. */
    method HandleMessage(m: Message) returns (emitted: seq<Delivery>)
      requires Valid()
      modifies this
      ensures Valid()
      ensures builders == Step(env, old(builders), Arrive(m)).state
      ensures emitted == Step(env, old(builders), Arrive(m)).out
    {
      if m.txn.None? {
        return [Single(m)];
      }
      emitted := [];
      match m.kind
      case BeginTxn => HandleBeginTxn(m, m.txn.value);
      case CommitTxn =>
        var txnMsg := HandleCommitTxn(m, m.txn.value);
        if txnMsg.Some? {
          emitted := [txnMsg.value];
        }
      case RollbackTxn => HandleRollbackTxn(m, m.txn.value);
      case _ => HandleTxnBodyMessage(m, m.txn.value);
    }

    method HandleImmutableMessages(msgs: seq<Message>, ts: nat) returns (result: seq<Delivery>)
      requires Valid()
      modifies this
      ensures Valid()
      ensures builders == Run(env, old(builders), Batch(msgs, ts)).state
      ensures result == Run(env, old(builders), Batch(msgs, ts)).out
      ensures forall es: seq<Event> | |es| == |msgs| && (forall i | 0 <= i < |msgs| :: es[i] == Arrive(msgs[i])) ::
        result == Run(env, old(builders), es).out && Swept(env, Run(env, old(builders), es).state, ts, builders)
    {
      ghost var start := builders;
      result := [];
      for i := 0 to |msgs|
        invariant Valid()
        invariant builders == Run(env, start, Arrivals(msgs[..i])).state
        invariant result == Run(env, start, Arrivals(msgs[..i])).out
      {
        assert Arrivals(msgs[..i + 1])[..i] == Arrivals(msgs[..i]);
        var emitted := HandleMessage(msgs[i]);
        result := result + emitted;
      }
      assert msgs[..|msgs|] == msgs;
      assert Batch(msgs, ts)[..|msgs|] == Arrivals(msgs);
      ClearExpiredTxn(ts);
      forall es: seq<Event> | |es| == |msgs| && (forall i | 0 <= i < |msgs| :: es[i] == Arrive(msgs[i]))
        ensures result == Run(env, start, es).out && Swept(env, Run(env, start, es).state, ts, builders)
      {
        SweepComesLast(env, start, msgs, ts, es);
      }
    }
  }
}
