// The message heap: the slice of wal/utility/message_heap.go together with the standard
// sift-up and sift-down procedures that drive it.
module MessageHeaps {
  import opened Messages

  function Parent(k: nat): nat
    requires k > 0
  {
    (k - 1) / 2
  }

  /** Item k is not below its parent. */
  ghost predicate Edge(s: seq<Message>, k: nat)
    requires 0 < k < |s|
  {
    s[Parent(k)].tick <= s[k].tick
  }

  /** The first n items form a binary min-heap on ticks. */
  ghost predicate HeapOrdered(s: seq<Message>, n: nat)
    requires n <= |s|
  {
    forall k | 1 <= k < n :: Edge(s, k)
  }

  /** A heap of n items, except that item i may be below its parent. */
  ghost predicate RisingAt(s: seq<Message>, n: nat, i: nat)
    requires n <= |s|
  {
    && (forall k | 1 <= k < n && k != i :: Edge(s, k))
    && (forall k | 1 <= k < n && Parent(k) == i && 0 < i :: s[Parent(i)].tick <= s[k].tick)
  }

  /** A heap of n items, except that item i may be above its children. */
  ghost predicate SinkingAt(s: seq<Message>, n: nat, i: nat)
    requires n <= |s|
  {
    && (forall k | 1 <= k < n && Parent(k) != i :: Edge(s, k))
    && (forall k | 1 <= k < n && Parent(k) == i && 0 < i :: s[Parent(i)].tick <= s[k].tick)
  }

  function Swapped(s: seq<Message>, i: nat, j: nat): seq<Message>
    requires i < |s| && j < |s|
  {
    s[i := s[j]][j := s[i]]
  }

  lemma SwapKeepsItems(s: seq<Message>, i: nat, j: nat)
    requires i < |s| && j < |s|
    ensures multiset(Swapped(s, i, j)) == multiset(s)
  {
  }

  lemma RisingStep(s: seq<Message>, n: nat, i: nat)
    requires 0 < i < n <= |s| && RisingAt(s, n, i)
    requires s[i].tick < s[Parent(i)].tick
    ensures RisingAt(Swapped(s, Parent(i), i), n, Parent(i))
  {
    var t := Swapped(s, Parent(i), i);
    forall k | 1 <= k < n && k != Parent(i)
      ensures Edge(t, k)
    {
      assert k != i ==> Edge(s, k);
    }
    if 0 < Parent(i) {
      assert Edge(s, Parent(i));
      forall k | 1 <= k < n && Parent(k) == Parent(i)
        ensures t[Parent(Parent(i))].tick <= t[k].tick
      {
        assert k != i ==> Edge(s, k);
      }
    }
  }

  lemma SinkingStep(s: seq<Message>, n: nat, i: nat, child: nat)
    requires 0 < child < n <= |s| && Parent(child) == i && SinkingAt(s, n, i)
    requires s[child].tick < s[i].tick
    requires forall k | 1 <= k < n && Parent(k) == i :: s[child].tick <= s[k].tick
    ensures SinkingAt(Swapped(s, i, child), n, child)
  {
  }

  /** The sift-down loop stops once item i is not above its smaller child, or has none. */
  lemma SinkingDone(s: seq<Message>, n: nat, i: nat)
    requires n <= |s| && SinkingAt(s, n, i)
    requires forall k | 1 <= k < n && Parent(k) == i :: s[i].tick <= s[k].tick
    ensures HeapOrdered(s, n)
  {
  }

  lemma ChildrenOf(s: seq<Message>, n: nat, i: nat, child: nat)
    requires n <= |s| && 2 * i + 1 < n
    requires child == if 2 * i + 2 < n && s[2 * i + 2].tick < s[2 * i + 1].tick then 2 * i + 2 else 2 * i + 1
    ensures 0 < child < n && Parent(child) == i
    ensures forall k | 1 <= k < n && Parent(k) == i :: s[child].tick <= s[k].tick
  {
  }

  lemma NoChildren(n: nat, i: nat)
    requires n <= 2 * i + 1
    ensures forall k | 1 <= k < n :: Parent(k) != i
  {
  }

  lemma {:induction false} RootIsMinimal(s: seq<Message>, j: nat)
    requires HeapOrdered(s, |s|) && j < |s|
    ensures s[0].tick <= s[j].tick
  {
    if j > 0 {
      RootIsMinimal(s, Parent(j));
      assert Edge(s, j);
    }
  }

  lemma RootBelowAll(s: seq<Message>)
    requires |s| > 0 && HeapOrdered(s, |s|)
    ensures s[0] in multiset(s)
    ensures forall y | y in multiset(s) :: s[0].tick <= y.tick
  {
    forall y | y in multiset(s)
      ensures s[0].tick <= y.tick
    {
      var k :| 0 <= k < |s| && s[k] == y;
      RootIsMinimal(s, k);
    }
  }

  lemma ReplaceRoot(s: seq<Message>)
    requires |s| > 0 && HeapOrdered(s, |s|)
    ensures SinkingAt(Swapped(s, 0, |s| - 1), |s| - 1, 0)
  {
    var t := Swapped(s, 0, |s| - 1);
    forall k | 1 <= k < |s| - 1 && Parent(k) != 0
      ensures Edge(t, k)
    {
      assert Edge(s, k);
    }
  }

  lemma PrefixOfHeap(s: seq<Message>, n: nat)
    requires n <= |s| && HeapOrdered(s, n)
    ensures HeapOrdered(s[..n], n)
  {
    forall k | 1 <= k < n
      ensures Edge(s[..n], k)
    {
      assert Edge(s, k);
    }
  }

  lemma LastOf(s: seq<Message>, t: seq<Message>, n: nat)
    requires |s| == |t| == n + 1 && s[n..] == t[n..]
    ensures s[n] == t[n]
  {
  }

  lemma SplitLast(s: seq<Message>)
    requires |s| > 0
    ensures multiset(s[..|s| - 1]) == multiset(s) - multiset{s[|s| - 1]}
  {
    assert s == s[..|s| - 1] + [s[|s| - 1]];
  }

  class MessageHeap {
    var items: seq<Message>

    constructor ()
      ensures items == []
    {
      items := [];
    }

    function Len(): nat
      reads this
    {
      |items|
    }

    predicate Less(i: nat, j: nat)
      requires i < |items| && j < |items|
      reads this
    {
      items[i].tick < items[j].tick
    }

    function Peek(): Message
      requires |items| > 0
      reads this
    {
      items[0]
    }

    method Swap(i: nat, j: nat)
      requires i < |items| && j < |items|
      modifies this
      ensures items == Swapped(old(items), i, j)
      ensures multiset(items) == old(multiset(items))
    {
      SwapKeepsItems(items, i, j);
      items := items[i := items[j]][j := items[i]];
    }

    method Append(x: Message)
      modifies this
      ensures items == old(items) + [x]
    {
      items := items + [x];
    }

    method RemoveLast() returns (x: Message)
      requires |items| > 0
      modifies this
      ensures x == old(items)[|old(items)| - 1] && items == old(items)[..|old(items)| - 1]
    {
      x := items[|items| - 1];
      items := items[..|items| - 1];
    }

    method Up(start: nat)
      requires start < |items| && RisingAt(items, |items|, start)
      modifies this
      ensures HeapOrdered(items, |items|)
      ensures multiset(items) == old(multiset(items))
    {
      var j := start;
      while j > 0
        invariant 0 <= j < |items| && RisingAt(items, |items|, j)
        invariant multiset(items) == old(multiset(items))
      {
        var parent := (j - 1) / 2;
        if !Less(j, parent) {
          assert Edge(items, j);
          break;
        }
        RisingStep(items, |items|, j);
        Swap(parent, j);
        j := parent;
      }
    }

    method Down(n: nat)
      requires n <= |items| && SinkingAt(items, n, 0)
      modifies this
      ensures |items| == |old(items)| && HeapOrdered(items, n)
      ensures items[n..] == old(items)[n..]
      ensures multiset(items) == old(multiset(items))
    {
      var i := 0;
      while 2 * i + 1 < n
        invariant 0 <= i && |items| == |old(items)| && SinkingAt(items, n, i)
        invariant items[n..] == old(items)[n..]
        invariant multiset(items) == old(multiset(items))
        decreases n - i
      {
        var child := 2 * i + 1;
        if child + 1 < n && Less(child + 1, child) {
          child := child + 1;
        }
        ChildrenOf(items, n, i, child);
        if !Less(child, i) {
          SinkingDone(items, n, i);
          return;
        }
        SinkingStep(items, n, i, child);
        Swap(i, child);
        i := child;
      }
      NoChildren(n, i);
      SinkingDone(items, n, i);
    }

    method Push(x: Message)
      requires HeapOrdered(items, |items|)
      modifies this
      ensures HeapOrdered(items, |items|)
      ensures multiset(items) == old(multiset(items)) + multiset{x}
    {
      Append(x);
      assert forall k | 1 <= k < |items| && k != |items| - 1 :: Edge(old(items), k) ==> Edge(items, k);
      Up(|items| - 1);
    }

    method Pop() returns (x: Message)
      requires |items| > 0 && HeapOrdered(items, |items|)
      modifies this
      ensures HeapOrdered(items, |items|)
      ensures x == old(items)[0] && |items| == |old(items)| - 1
      ensures x in old(multiset(items)) && multiset(items) == old(multiset(items)) - multiset{x}
      ensures forall y | y in old(multiset(items)) :: x.tick <= y.tick
    {
      RootBelowAll(items);
      ReplaceRoot(items);
      ghost var start := items;
      var n := |items| - 1;
      Swap(0, n);
      ghost var swapped := items;
      Down(n);
      LastOf(swapped, items, n);
      SplitLast(items);
      PrefixOfHeap(items, n);
      x := RemoveLast();
    }
  }
}
