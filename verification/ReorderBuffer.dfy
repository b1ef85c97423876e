// The reorder buffer of wal/utility/reorder_buffer.go: messages wait in a min-heap until a
// time tick releases every one at or below it.
module ReorderBuffers {
  import opened Messages
  import opened MessageHeaps

  datatype PushResult = Accepted | TimeTickViolation | Duplicated

  /** popped lists, in nondecreasing tick order, exactly the messages of held at or below t. */
  ghost predicate PopsUntil(held: multiset<Message>, t: nat, popped: seq<Message>) {
    && NondecreasingTicks(popped)
    && multiset(popped) <= held
    && (forall m | m in popped :: m.tick <= t)
    && (forall m | m in held - multiset(popped) :: t < m.tick)
  }

  ghost predicate Holds(held: multiset<Message>, id: MessageId) {
    exists m :: m in held && m.id == id
  }

  /** The deduplication set and the byte counter describe exactly the held messages. */
  ghost predicate Describes(ids: set<MessageId>, bytes: int, held: multiset<Message>) {
    && DistinctIds(held)
    && (forall id :: id in ids <==> Holds(held, id))
    && bytes == TotalSize(held)
  }

  ghost predicate NoneBefore(held: multiset<Message>, t: nat) {
    forall m | m in held :: t <= m.tick
  }

  ghost function PushOutcome(held: multiset<Message>, last: nat, m: Message): PushResult {
    if m.tick < last then TimeTickViolation
    else if Holds(held, m.id) then Duplicated
    else Accepted
  }

  /** A message is taken in exactly if it is not before the last popped tick and no held message has its
      id; the tick is looked at first. */
  lemma AcceptedMeans(held: multiset<Message>, last: nat, m: Message)
    ensures PushOutcome(held, last, m) == Accepted <==> last <= m.tick && forall x | x in held :: x.id != m.id
    ensures PushOutcome(held, last, m) == TimeTickViolation <==> m.tick < last
  {
  }

  /** However the heap breaks ties, a pop takes every copy of a message at or below t and no other. */
  lemma PopsUntilCounts(held: multiset<Message>, t: nat, popped: seq<Message>)
    requires PopsUntil(held, t, popped)
    ensures forall m :: multiset(popped)[m] == if m.tick <= t then held[m] else 0
  {
  }

  function Ticks(s: seq<Message>): seq<nat> {
    seq(|s|, i requires 0 <= i < |s| => s[i].tick)
  }

  lemma TakeOut(s: seq<Message>, i: nat)
    requires i < |s|
    ensures multiset(s) == multiset(s[..i] + s[i + 1..]) + multiset{s[i]}
    ensures multiset(Ticks(s)) == multiset(Ticks(s[..i] + s[i + 1..])) + multiset{s[i].tick}
  {
    var rest := s[..i] + s[i + 1..];
    assert s == s[..i] + [s[i]] + s[i + 1..];
    assert Ticks(s) == Ticks(s)[..i] + [s[i].tick] + Ticks(s)[i + 1..];
    assert Ticks(rest) == Ticks(s)[..i] + Ticks(s)[i + 1..];
  }

  lemma {:induction false} TicksOfPermutation(p: seq<Message>, q: seq<Message>)
    requires multiset(p) == multiset(q)
    ensures multiset(Ticks(p)) == multiset(Ticks(q))
  {
    if p == [] {
      assert |multiset(q)| == 0;
    } else {
      assert p[0] in multiset(q);
      var i :| 0 <= i < |q| && q[i] == p[0];
      assert p == [p[0]] + p[1..];
      TakeOut(q, i);
      TakeOut(p, 0);
      assert p[..0] + p[1..] == p[1..];
      var rest := q[..i] + q[i + 1..];
      assert multiset(p[1..]) + multiset{p[0]} == multiset(rest) + multiset{p[0]};
      assert multiset(p[1..]) == multiset(p[1..]) + multiset{p[0]} - multiset{p[0]};
      assert multiset(rest) == multiset(rest) + multiset{p[0]} - multiset{p[0]};
      TicksOfPermutation(p[1..], q[..i] + q[i + 1..]);
    }
  }

  predicate Sorted(a: seq<nat>) {
    forall i, j | 0 <= i < j < |a| :: a[i] <= a[j]
  }

  lemma SortedHead(a: seq<nat>, x: nat)
    requires Sorted(a) && x in multiset(a)
    ensures |a| > 0 && a[0] <= x
  {
  }

  lemma TailOf(a: seq<nat>)
    requires |a| > 0
    ensures multiset(a[1..]) == multiset(a) - multiset{a[0]}
    ensures a == [a[0]] + a[1..]
  {
    assert a == [a[0]] + a[1..];
  }

  lemma {:induction false} SortedListsAgree(a: seq<nat>, b: seq<nat>)
    requires multiset(a) == multiset(b)
    requires Sorted(a) && Sorted(b)
    ensures a == b
  {
    if a == [] {
      assert |multiset(b)| == 0;
    } else {
      assert a[0] in multiset(a) && a[0] in multiset(b);
      SortedHead(b, a[0]);
      assert b[0] in multiset(b) && b[0] in multiset(a);
      SortedHead(a, b[0]);
      assert a[0] == b[0];
      TailOf(a);
      TailOf(b);
      SortedListsAgree(a[1..], b[1..]);
    }
  }

  /** Two heaps with the same contents pop the same ticks in the same order. */
  lemma PopTicksAreUnique(held: multiset<Message>, t: nat, p: seq<Message>, q: seq<Message>)
    requires PopsUntil(held, t, p) && PopsUntil(held, t, q)
    ensures Ticks(p) == Ticks(q)
  {
    PopsUntilCounts(held, t, p);
    PopsUntilCounts(held, t, q);
    assert multiset(p) == multiset(q);
    TicksOfPermutation(p, q);
    SortedListsAgree(Ticks(p), Ticks(q));
  }

  class ReorderBuffer {
    var messageIDs: set<MessageId>
    const messageHeap: MessageHeap
    var lastPopTimeTick: nat
    var bytes: int

    ghost function Held(): multiset<Message>
      reads messageHeap
    {
      multiset(messageHeap.items)
    }

    ghost predicate Valid()
      reads this, messageHeap
    {
      && HeapOrdered(messageHeap.items, |messageHeap.items|)
      && Describes(messageIDs, bytes, Held())
      && NoneBefore(Held(), lastPopTimeTick)
    }

    constructor ()
      ensures Valid() && fresh(messageHeap)
      ensures Held() == multiset{} && lastPopTimeTick == 0
    {
      messageIDs := {};
      messageHeap := new MessageHeap();
      lastPopTimeTick := 0;
      bytes := 0;
    }

    method Push(m: Message) returns (r: PushResult)
      requires Valid()
      modifies this, messageHeap
      ensures Valid()
      ensures r == PushOutcome(old(Held()), old(lastPopTimeTick), m)
      ensures Held() == if r == Accepted then old(Held()) + multiset{m} else old(Held())
      ensures lastPopTimeTick == old(lastPopTimeTick)
    {
      if m.tick < lastPopTimeTick {
        return TimeTickViolation;
      }
      if m.id in messageIDs {
        return Duplicated;
      }
      PushDescribes(messageIDs, bytes, Held(), m);
      messageHeap.Push(m);
      messageIDs := messageIDs + {m.id};
      bytes := bytes + m.size;
      return Accepted;
    }

    /** One round of the pop loop: the two bookkeeping updates around the heap's own pop. */
    method PopTop() returns (m: Message)
      requires Valid() && messageHeap.Len() > 0
      modifies this, messageHeap
      ensures Valid()
      ensures m == old(messageHeap.Peek()) && m in old(Held())
      ensures Held() == old(Held()) - multiset{m}
      ensures NoneBefore(old(Held()), m.tick)
      ensures lastPopTimeTick == old(lastPopTimeTick)
      ensures messageHeap.Len() == old(messageHeap.Len()) - 1
    {
      ghost var held := Held();
      assert messageHeap.Peek() in held;
      PopDescribes(messageIDs, bytes, held, messageHeap.Peek());
      bytes := bytes - messageHeap.Peek().size;
      messageIDs := messageIDs - {messageHeap.Peek().id};
      m := messageHeap.Pop();
    }

    /** The pop loop; it ends with every held message past timetick. */
    method PopWhileReady(timetick: nat) returns (res: seq<Message>)
      requires Valid()
      modifies this, messageHeap
      ensures Valid()
      ensures PopProgress(old(Held()), Held(), timetick, res)
      ensures messageHeap.Len() > 0 ==> timetick < messageHeap.Peek().tick
    {
      ghost var start := Held();
      res := [];
      while messageHeap.Len() > 0 && messageHeap.Peek().tick <= timetick
        invariant Valid()
        invariant PopProgress(start, Held(), timetick, res)
        decreases messageHeap.Len()
      {
        ghost var held := Held();
        var m := PopTop();
        PopProgressStep(start, held, timetick, res, m);
        res := res + [m];
      }
    }

    method PopUtilTimeTick(timetick: nat) returns (res: seq<Message>)
      requires Valid()
      modifies this, messageHeap
      ensures Valid()
      ensures PopsUntil(old(Held()), timetick, res)
      ensures Held() == old(Held()) - multiset(res)
      ensures lastPopTimeTick == timetick
    {
      res := PopWhileReady(timetick);
      RestIsLater(messageHeap.items, timetick);
      PopProgressDone(old(Held()), Held(), timetick, res);
      lastPopTimeTick := timetick;
    }

    function Len(): nat
      reads this, messageHeap
    {
      messageHeap.Len()
    }

    function Bytes(): int
      reads this
    {
      bytes
    }
  }

  /** Once the top of the heap is past t, so is the whole heap. */
  lemma RestIsLater(items: seq<Message>, t: nat)
    requires HeapOrdered(items, |items|)
    requires |items| > 0 ==> t < items[0].tick
    ensures forall m | m in multiset(items) :: t < m.tick
  {
    forall m | m in multiset(items)
      ensures t < m.tick
    {
      var k :| 0 <= k < |items| && items[k] == m;
      RootIsMinimal(items, k);
    }
  }

  /** The pop loop: res has left held, in order, and nothing still held is before it. */
  ghost predicate PopProgress(start: multiset<Message>, held: multiset<Message>, t: nat, res: seq<Message>) {
    && start == held + multiset(res)
    && NondecreasingTicks(res)
    && (forall m | m in res :: m.tick <= t)
    && (|res| > 0 ==> NoneBefore(held, res[|res| - 1].tick))
  }

  lemma PopProgressStep(start: multiset<Message>, held: multiset<Message>, t: nat, res: seq<Message>, m: Message)
    requires PopProgress(start, held, t, res)
    requires m in held && NoneBefore(held, m.tick) && m.tick <= t
    ensures PopProgress(start, held - multiset{m}, t, res + [m])
  {
  }

  lemma PopProgressDone(start: multiset<Message>, held: multiset<Message>, t: nat, res: seq<Message>)
    requires PopProgress(start, held, t, res)
    requires forall m | m in held :: t < m.tick
    ensures PopsUntil(start, t, res)
    ensures held == start - multiset(res)
    ensures NoneBefore(held, t)
  {
  }

  lemma PushDescribes(ids: set<MessageId>, bytes: int, held: multiset<Message>, m: Message)
    requires Describes(ids, bytes, held) && m.id !in ids
    ensures Describes(ids + {m.id}, bytes + m.size, held + multiset{m})
    ensures forall t: nat | NoneBefore(held, t) && t <= m.tick :: NoneBefore(held + multiset{m}, t)
  {
    TotalSizeAdd(held, m);
    PushKeepsIds(held, m);
  }

  lemma PopDescribes(ids: set<MessageId>, bytes: int, held: multiset<Message>, m: Message)
    requires Describes(ids, bytes, held) && m in held
    ensures Describes(ids - {m.id}, bytes - m.size, held - multiset{m})
    ensures forall t: nat | NoneBefore(held, t) :: NoneBefore(held - multiset{m}, t)
  {
    TotalSizeRemove(held, m);
    PopKeepsIds(held, m);
  }

  lemma PushKeepsIds(held: multiset<Message>, m: Message)
    requires DistinctIds(held) && !Holds(held, m.id)
    ensures DistinctIds(held + multiset{m})
    ensures forall id :: Holds(held + multiset{m}, id) <==> Holds(held, id) || id == m.id
  {
  }

  lemma PopKeepsIds(held: multiset<Message>, m: Message)
    requires DistinctIds(held) && m in held
    ensures DistinctIds(held - multiset{m})
    ensures forall id :: Holds(held - multiset{m}, id) <==> Holds(held, id) && id != m.id
  {
  }
}
