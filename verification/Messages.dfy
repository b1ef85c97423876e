// WAL messages as the scanner pipeline sees them, and their estimated sizes.
module Messages {
  import opened Prelude

  // Names are only ever compared for equality, so numbers stand for them.
  type MessageId = nat
  type TxnId = nat
  type VChannel = nat

  datatype Kind = TimeTick | BeginTxn | CommitTxn | RollbackTxn | Other

  datatype Message = Message(
    id: MessageId,
    tick: nat,
    size: nat,
    kind: Kind,
    vchannel: Option<VChannel>,  // None is the empty channel name
    txn: Option<TxnId>,
    persisted: bool)

  /** The estimated sizes of all messages in m, added up. */
  ghost function TotalSize(m: multiset<Message>): nat
    decreases |m|
  {
    if m == multiset{} then 0
    else
      var x :| x in m;
      x.size + TotalSize(m - multiset{x})
  }

  lemma TwoLess<T>(m: multiset<T>, x: T, y: T)
    requires x in m && y in m && x != y
    ensures x in m - multiset{y} && y in m - multiset{x}
    ensures m - multiset{y} - multiset{x} == m - multiset{x} - multiset{y}
  {
  }

  lemma {:induction false} TotalSizeRemove(m: multiset<Message>, x: Message)
    requires x in m
    ensures TotalSize(m) == x.size + TotalSize(m - multiset{x})
    decreases |m|
  {
    var y :| y in m && TotalSize(m) == y.size + TotalSize(m - multiset{y});
    if y != x {
      var withoutX, withoutY := m - multiset{x}, m - multiset{y};
      TwoLess(m, x, y);
      TotalSizeRemove(withoutY, x);
      TotalSizeRemove(withoutX, y);
    }
  }

  lemma TotalSizeAdd(m: multiset<Message>, x: Message)
    ensures TotalSize(m + multiset{x}) == TotalSize(m) + x.size
  {
    TotalSizeRemove(m + multiset{x}, x);
    assert m + multiset{x} - multiset{x} == m;
  }

  lemma {:induction false} TotalSizeUnion(a: multiset<Message>, b: multiset<Message>)
    ensures TotalSize(a + b) == TotalSize(a) + TotalSize(b)
    decreases |b|
  {
    if b == multiset{} {
      assert a + b == a;
    } else {
      var x :| x in b;
      TotalSizeUnion(a, b - multiset{x});
      TotalSizeRemove(b, x);
      TotalSizeRemove(a + b, x);
      assert a + b - multiset{x} == a + (b - multiset{x});
    }
  }

  /** No id occurs twice among the messages of m. */
  ghost predicate DistinctIds(m: multiset<Message>) {
    && (forall x | x in m :: m[x] == 1)
    && (forall x, y | x in m && y in m && x.id == y.id :: x == y)
  }

  ghost predicate NondecreasingTicks(s: seq<Message>) {
    forall i, j | 0 <= i < j < |s| :: s[i].tick <= s[j].tick
  }
}
