// Concurrent duplicate counting: any number of DedupTask.Scan calls of storage/tasks/dedup.go,
// interleaved at their atomic steps.
module Dedup {

  /** Where a call stands between its atomic operations. */
  datatype PC = Start | AddCounter | LoadResult | Increment | Done

  datatype Call<K> = Call(pk: K, pc: PC)

  /** The calls, and the variables they share. */
  datatype State<!K(==)> = State(calls: seq<Call<K>>, ids: set<K>, counter: nat, dedupResult: map<K, nat>)

  function Init<K>(pks: seq<K>): State<K> {
    State(seq(|pks|, i requires 0 <= i < |pks| => Call(pks[i], Start)), {}, 0, map[])
  }

  predicate Enabled<K>(s: State<K>, i: nat) {
    i < |s.calls| && s.calls[i].pc != Done && (s.calls[i].pc == Increment ==> s.calls[i].pk in s.dedupResult)
  }

  /** The next atomic step of call i: load-or-store of the key, addition to the counter, load-or-store
      of the key's own counter, increment of that counter. */
  function Step<K>(s: State<K>, i: nat): State<K>
    requires Enabled(s, i)
  {
    var pk := s.calls[i].pk;
    match s.calls[i].pc
    case Start =>
      if pk in s.ids then s.(calls := s.calls[i := Call(pk, AddCounter)])
      else s.(calls := s.calls[i := Call(pk, Done)], ids := s.ids + {pk})
    case AddCounter => s.(calls := s.calls[i := Call(pk, LoadResult)], counter := s.counter + 1)
    case LoadResult =>
      s.(calls := s.calls[i := Call(pk, Increment)],
         dedupResult := if pk in s.dedupResult then s.dedupResult else s.dedupResult[pk := 0])
    case Increment =>
      s.(calls := s.calls[i := Call(pk, Done)], dedupResult := s.dedupResult[pk := s.dedupResult[pk] + 1])
    case Done => s
  }

  // ---------- counting ----------

  function Count<T>(s: seq<T>, p: T -> bool): nat {
    if s == [] then 0 else Count(s[..|s| - 1], p) + if p(s[|s| - 1]) then 1 else 0
  }

  lemma {:induction false} CountUpdate<T>(s: seq<T>, i: nat, x: T, p: T -> bool)
    requires i < |s|
    ensures Count(s[i := x], p) + (if p(s[i]) then 1 else 0) == Count(s, p) + if p(x) then 1 else 0
  {
    var n := |s| - 1;
    if i < n {
      CountUpdate(s[..n], i, x, p);
      assert s[i := x][..n] == s[..n][i := x];
    } else {
      assert s[i := x][..n] == s[..n];
    }
  }

  lemma {:induction false} CountNone<T>(s: seq<T>, p: T -> bool)
    requires forall x | x in s :: !p(x)
    ensures Count(s, p) == 0
  {
    if s != [] {
      CountNone(s[..|s| - 1], p);
    }
  }

  lemma {:induction false} CountSame<T>(s: seq<T>, p: T -> bool, q: T -> bool)
    requires forall x | x in s :: p(x) == q(x)
    ensures Count(s, p) == Count(s, q)
  {
    if s != [] {
      CountSame(s[..|s| - 1], p, q);
    }
  }

  lemma {:induction false} CountSome<T>(s: seq<T>, p: T -> bool)
    ensures Count(s, p) > 0 <==> exists x :: x in s && p(x)
  {
    if s != [] {
      CountSome(s[..|s| - 1], p);
      assert s == s[..|s| - 1] + [s[|s| - 1]];
    }
  }

  ghost function SumValues<K>(m: map<K, nat>): nat
    decreases |m|
  {
    if m == map[] then 0
    else
      var k :| k in m;
      m[k] + SumValues(m - {k})
  }

  lemma {:induction false} SumRemove<K>(m: map<K, nat>, k: K)
    requires k in m
    ensures SumValues(m) == m[k] + SumValues(m - {k})
    decreases |m|
  {
    var j :| j in m && SumValues(m) == m[j] + SumValues(m - {j});
    if j != k {
      SumRemove(m - {j}, k);
      SumRemove(m - {k}, j);
      assert m - {j} - {k} == m - {k} - {j};
    }
  }

  lemma SumPut<K>(m: map<K, nat>, k: K, v: nat)
    ensures SumValues(m[k := v]) == SumValues(m) - (if k in m then m[k] else 0) + v
  {
    SumRemove(m[k := v], k);
    assert m[k := v] - {k} == m - {k};
    if k in m {
      SumRemove(m, k);
    } else {
      assert m - {k} == m;
    }
  }

  // ---------- what every step keeps ----------

  function Begun<K>(): Call<K> -> bool {
    (c: Call<K>) => c.pc != Start
  }

  function AtCounter<K>(): Call<K> -> bool {
    (c: Call<K>) => c.pc == AddCounter
  }

  function Counted<K>(): Call<K> -> bool {
    (c: Call<K>) => c.pc == LoadResult || c.pc == Increment
  }

  function BegunFor<K(==)>(k: K): Call<K> -> bool {
    (c: Call<K>) => c.pk == k && c.pc != Start
  }

  function MidwayFor<K(==)>(k: K): Call<K> -> bool {
    (c: Call<K>) => c.pk == k && (c.pc == AddCounter || c.pc == LoadResult || c.pc == Increment)
  }

  function IncrementingFor<K(==)>(k: K): Call<K> -> bool {
    (c: Call<K>) => c.pk == k && c.pc == Increment
  }

  function ResultOf<K(==)>(s: State<K>, k: K): nat {
    if k in s.dedupResult then s.dedupResult[k] else 0
  }

  /** The books for one key: every begun call was the first, or is midway, or has been counted. */
  ghost predicate KeyBalances<K>(s: State<K>, k: K) {
    && ResultOf(s, k) + Count(s.calls, MidwayFor(k)) + (if k in s.ids then 1 else 0) == Count(s.calls, BegunFor(k))
    && (k !in s.ids ==> Count(s.calls, BegunFor(k)) == 0)
    && (k in s.dedupResult ==> ResultOf(s, k) + Count(s.calls, IncrementingFor(k)) >= 1)
    && (Count(s.calls, IncrementingFor(k)) > 0 ==> k in s.dedupResult)
  }

  /** The books for the totals. */
  ghost predicate TotalsBalance<K>(s: State<K>) {
    && SumValues(s.dedupResult) + Count(s.calls, Counted()) == s.counter
    && s.counter + Count(s.calls, AtCounter()) + |s.ids| == Count(s.calls, Begun())
  }

  ghost predicate Balanced<K(!new)>(s: State<K>) {
    TotalsBalance(s) && forall k :: KeyBalances(s, k)
  }

  lemma StepKeepsTotals<K>(s: State<K>, i: nat)
    requires Enabled(s, i) && TotalsBalance(s)
    ensures TotalsBalance(Step(s, i))
  {
    var c := Step(s, i).calls[i];
    CountUpdate(s.calls, i, c, Counted());
    CountUpdate(s.calls, i, c, AtCounter());
    CountUpdate(s.calls, i, c, Begun());
    StepAddsUp(s, i);
  }

  lemma StepAddsUp<K>(s: State<K>, i: nat)
    requires Enabled(s, i)
    ensures SumValues(Step(s, i).dedupResult) == SumValues(s.dedupResult) + if s.calls[i].pc == Increment then 1 else 0
  {
    var k := s.calls[i].pk;
    if s.calls[i].pc == Increment {
      SumPut(s.dedupResult, k, s.dedupResult[k] + 1);
    } else if s.calls[i].pc == LoadResult && k !in s.dedupResult {
      SumPut(s.dedupResult, k, 0);
    }
  }

  lemma StepCounts<K>(s: State<K>, i: nat, k: K)
    requires Enabled(s, i)
    ensures var t, c, d := Step(s, i), s.calls[i], Step(s, i).calls[i];
      && Count(t.calls, MidwayFor(k)) + (if MidwayFor(k)(c) then 1 else 0) == Count(s.calls, MidwayFor(k)) + (if MidwayFor(k)(d) then 1 else 0)
      && Count(t.calls, BegunFor(k)) + (if BegunFor(k)(c) then 1 else 0) == Count(s.calls, BegunFor(k)) + (if BegunFor(k)(d) then 1 else 0)
      && Count(t.calls, IncrementingFor(k)) + (if IncrementingFor(k)(c) then 1 else 0)
         == Count(s.calls, IncrementingFor(k)) + (if IncrementingFor(k)(d) then 1 else 0)
  {
    var c := Step(s, i).calls[i];
    CountUpdate(s.calls, i, c, MidwayFor(k));
    CountUpdate(s.calls, i, c, BegunFor(k));
    CountUpdate(s.calls, i, c, IncrementingFor(k));
  }

  lemma StepKeepsKey<K>(s: State<K>, i: nat, k: K)
    requires Enabled(s, i) && KeyBalances(s, k)
    ensures KeyBalances(Step(s, i), k)
  {
    StepCounts(s, i, k);
  }

  lemma StepKeepsBalance<K(!new)>(s: State<K>, i: nat)
    requires Enabled(s, i) && Balanced(s)
    ensures Balanced(Step(s, i)) && SameKeys(s.calls, Step(s, i).calls)
  {
    StepKeepsTotals(s, i);
    forall k
      ensures KeyBalances(Step(s, i), k)
    {
      StepKeepsKey(s, i, k);
    }
  }

  lemma InitBalances<K(!new)>(pks: seq<K>)
    ensures Balanced(Init(pks))
  {
    var s := Init(pks);
    CountNone(s.calls, Counted());
    CountNone(s.calls, AtCounter());
    CountNone(s.calls, Begun());
    forall k
      ensures KeyBalances(s, k)
    {
      CountNone(s.calls, MidwayFor(k));
      CountNone(s.calls, BegunFor(k));
      CountNone(s.calls, IncrementingFor(k));
    }
  }

  /** A call that is not done can always take its next step. */
  lemma NeverBlocked<K(!new)>(s: State<K>, i: nat)
    requires Balanced(s) && i < |s.calls| && s.calls[i].pc != Done
    ensures Enabled(s, i)
  {
    if s.calls[i].pc == Increment {
      var k := s.calls[i].pk;
      assert s.calls[i] in s.calls && IncrementingFor(k)(s.calls[i]);
      CountSome(s.calls, IncrementingFor(k));
      assert KeyBalances(s, k);
    }
  }

  // ---------- runs ----------

  predicate Valid<K>(s: State<K>, run: seq<nat>)
    decreases |run|
  {
    run != [] ==> Enabled(s, run[0]) && Valid(Step(s, run[0]), run[1..])
  }

  function After<K>(s: State<K>, run: seq<nat>): State<K>
    requires Valid(s, run)
    decreases |run|
  {
    if run == [] then s else After(Step(s, run[0]), run[1..])
  }

  predicate SameKeys<K(==)>(a: seq<Call<K>>, b: seq<Call<K>>) {
    |a| == |b| && forall i | 0 <= i < |a| :: a[i].pk == b[i].pk
  }

  lemma {:induction false} RunKeepsBalance<K(!new)>(s: State<K>, run: seq<nat>)
    requires Valid(s, run) && Balanced(s)
    ensures Balanced(After(s, run)) && SameKeys(s.calls, After(s, run).calls)
    decreases |run|
  {
    if run != [] {
      StepKeepsBalance(s, run[0]);
      RunKeepsBalance(Step(s, run[0]), run[1..]);
    }
  }

  /** At any moment of any interleaving the per-key counts never add up to more than the counter. */
  lemma NeverOvercounted<K(!new)>(pks: seq<K>, run: seq<nat>)
    requires Valid(Init(pks), run)
    ensures SumValues(After(Init(pks), run).dedupResult) <= After(Init(pks), run).counter
  {
    InitBalances(pks);
    RunKeepsBalance(Init(pks), run);
  }

  predicate AllDone<K>(s: State<K>) {
    forall c | c in s.calls :: c.pc == Done
  }

  function Occurrences<K(==)>(pks: seq<K>, k: K): nat {
    Count(pks, (x: K) => x == k)
  }

  lemma {:induction false} CallsByKey<K>(pks: seq<K>, calls: seq<Call<K>>, k: K)
    requires |pks| == |calls| && forall i | 0 <= i < |pks| :: calls[i].pk == pks[i]
    ensures Count(calls, (c: Call<K>) => c.pk == k) == Occurrences(pks, k)
  {
    if pks != [] {
      CallsByKey(pks[..|pks| - 1], calls[..|calls| - 1], k);
    }
  }

  lemma {:induction false} CountAll<T>(s: seq<T>, p: T -> bool)
    requires forall x | x in s :: p(x)
    ensures Count(s, p) == |s|
  {
    if s != [] {
      CountAll(s[..|s| - 1], p);
    }
  }

  lemma KeyWhenDone<K(!new)>(pks: seq<K>, s: State<K>, k: K)
    requires Balanced(s) && AllDone(s)
    requires |pks| == |s.calls| && forall i | 0 <= i < |pks| :: s.calls[i].pk == pks[i]
    ensures k in s.ids <==> k in pks
    ensures k in s.dedupResult <==> Occurrences(pks, k) >= 2
    ensures k in s.dedupResult ==> s.dedupResult[k] + 1 == Occurrences(pks, k)
  {
    assert KeyBalances(s, k);
    CountNone(s.calls, MidwayFor(k));
    CountNone(s.calls, IncrementingFor(k));
    CountSame(s.calls, BegunFor(k), (c: Call<K>) => c.pk == k);
    CallsByKey(pks, s.calls, k);
    CountSome(pks, (x: K) => x == k);
  }

  /** Once all calls have finished, whatever the interleaving: the counter is the sum of the per-key
      counts, which is the number of scans minus the number of distinct keys; and the table lists
      exactly the repeated keys, each with one less than its number of occurrences. */
  lemma FinalCounts<K(!new)>(pks: seq<K>, run: seq<nat>)
    requires Valid(Init(pks), run) && AllDone(After(Init(pks), run))
    ensures var t := After(Init(pks), run);
      && t.counter == SumValues(t.dedupResult)
      && t.ids == (set k | k in pks)
      && t.counter == |pks| - |t.ids|
      && forall k :: (k in t.dedupResult <==> Occurrences(pks, k) >= 2) &&
                     (k in t.dedupResult ==> t.dedupResult[k] + 1 == Occurrences(pks, k))
  {
    InitBalances(pks);
    RunKeepsBalance(Init(pks), run);
    var t := After(Init(pks), run);
    assert forall i | 0 <= i < |pks| :: t.calls[i].pk == Init(pks).calls[i].pk == pks[i];
    forall k
      ensures k in t.ids <==> k in pks
      ensures k in t.dedupResult <==> Occurrences(pks, k) >= 2
      ensures k in t.dedupResult ==> t.dedupResult[k] + 1 == Occurrences(pks, k)
    {
      KeyWhenDone(pks, t, k);
    }
    CountNone(t.calls, Counted());
    CountNone(t.calls, AtCounter());
    CountAll(t.calls, Begun());
  }
}
