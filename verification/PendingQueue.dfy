// The pending queue of wal/utility/pending_queue.go: a FIFO of deliveries with a byte counter.
module PendingQueues {
  import opened Prelude
  import opened TxnModel

  function QueueSize(items: seq<Delivery>, sizeOf: Delivery -> nat): nat {
    if items == [] then 0 else sizeOf(items[0]) + QueueSize(items[1..], sizeOf)
  }

  lemma {:induction false} QueueSizeAppend(a: seq<Delivery>, b: seq<Delivery>, sizeOf: Delivery -> nat)
    ensures QueueSize(a + b, sizeOf) == QueueSize(a, sizeOf) + QueueSize(b, sizeOf)
  {
    if a == [] {
      assert a + b == b;
    } else {
      assert (a + b)[1..] == a[1..] + b;
      QueueSizeAppend(a[1..], b, sizeOf);
    }
  }

  lemma QueueSizeSnoc(a: seq<Delivery>, d: Delivery, sizeOf: Delivery -> nat)
    ensures QueueSize(a + [d], sizeOf) == QueueSize(a, sizeOf) + sizeOf(d)
  {
    QueueSizeAppend(a, [d], sizeOf);
    assert [d][1..] == [];
  }

  class PendingQueue {
    const sizeOf: Delivery -> nat
    var items: seq<Delivery>
    var bytes: int

    ghost predicate Valid()
      reads this
    {
      bytes == QueueSize(items, sizeOf)
    }

    constructor (sizeOf: Delivery -> nat)
      ensures this.sizeOf == sizeOf && Valid() && items == []
    {
      this.sizeOf := sizeOf;
      items := [];
      bytes := 0;
    }

    function Len(): nat
      reads this
    {
      |items|
    }

    function Bytes(): int
      reads this
    {
      bytes
    }

    function Next(): Option<Delivery>
      reads this
    {
      if items == [] then None else Some(items[0])
    }

    method Add(msgs: seq<Delivery>)
      requires Valid()
      modifies this
      ensures Valid() && items == old(items) + msgs
    {
      for i := 0 to |msgs|
        invariant items == old(items)
        invariant bytes == QueueSize(items, sizeOf) + QueueSize(msgs[..i], sizeOf)
      {
        assert msgs[..i + 1] == msgs[..i] + [msgs[i]];
        QueueSizeSnoc(msgs[..i], msgs[i], sizeOf);
        bytes := bytes + sizeOf(msgs[i]);
      }
      assert msgs[..|msgs|] == msgs;
      QueueSizeAppend(items, msgs, sizeOf);
      items := items + msgs;
    }

    method AddOne(msg: Delivery)
      requires Valid()
      modifies this
      ensures Valid() && items == old(items) + [msg]
    {
      QueueSizeSnoc(items, msg, sizeOf);
      bytes := bytes + sizeOf(msg);
      items := items + [msg];
    }

    method UnsafeAdvance()
      requires Valid() && items != []
      modifies this
      ensures Valid() && items == old(items)[1..]
    {
      bytes := bytes - sizeOf(items[0]);
      items := items[1..];
    }
  }
}
