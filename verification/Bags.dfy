// The union of the bags in a map, counted with multiplicity.
module Bags {

  ghost function Union<K, T>(b: map<K, multiset<T>>): multiset<T>
    decreases |b|
  {
    if b == map[] then multiset{}
    else
      var k :| k in b;
      b[k] + Union(b - {k})
  }

  lemma {:induction false} UnionRemove<K, T>(b: map<K, multiset<T>>, k: K)
    requires k in b
    ensures Union(b) == b[k] + Union(b - {k})
    decreases |b|
  {
    var j :| j in b && Union(b) == b[j] + Union(b - {j});
    if j != k {
      var rest := b - {j} - {k};
      assert b - {k} - {j} == rest;
      UnionRemove(b - {j}, k);
      UnionRemove(b - {k}, j);
      assert Union(b) == b[j] + (b[k] + Union(rest)) == b[k] + (b[j] + Union(rest));
    }
  }

  lemma UnionPut<K, T>(b: map<K, multiset<T>>, k: K, v: multiset<T>)
    requires k !in b
    ensures Union(b[k := v]) == v + Union(b)
  {
    UnionRemove(b[k := v], k);
    assert b[k := v] - {k} == b;
  }

  lemma UnionReplace<K, T>(b: map<K, multiset<T>>, k: K, v: multiset<T>)
    requires k in b
    ensures Union(b[k := v]) + b[k] == v + Union(b)
  {
    UnionRemove(b, k);
    UnionRemove(b[k := v], k);
    assert b[k := v] - {k} == b - {k};
  }

  function Restrict<K, V>(b: map<K, V>, s: set<K>): map<K, V> {
    map k | k in b && k in s :: b[k]
  }

  lemma {:induction false} UnionSplit<K, T>(b: map<K, multiset<T>>, s: set<K>)
    requires s <= b.Keys
    ensures Union(b) == Union(b - s) + Union(Restrict(b, s))
    decreases |s|
  {
    if s == {} {
      assert b - s == b && Restrict(b, s) == map[];
    } else {
      var k :| k in s;
      UnionSplit(b - {k}, s - {k});
      assert b - {k} - (s - {k}) == b - s;
      assert Restrict(b, s) - {k} == Restrict(b - {k}, s - {k});
      UnionRemove(b, k);
      UnionRemove(Restrict(b, s), k);
    }
  }

  /** Each value of b turned into the bag it stands for. */
  ghost function Bagged<K, V, T>(b: map<K, V>, bag: V -> multiset<T>): map<K, multiset<T>> {
    map k | k in b :: bag(b[k])
  }

  ghost function UnionOf<K, V, T>(b: map<K, V>, bag: V -> multiset<T>): multiset<T> {
    Union(Bagged(b, bag))
  }

  lemma UnionOfRemove<K, V, T>(b: map<K, V>, bag: V -> multiset<T>, k: K)
    requires k in b
    ensures UnionOf(b, bag) == bag(b[k]) + UnionOf(b - {k}, bag)
  {
    UnionRemove(Bagged(b, bag), k);
    assert Bagged(b - {k}, bag) == Bagged(b, bag) - {k};
  }

  lemma UnionOfPut<K, V, T>(b: map<K, V>, bag: V -> multiset<T>, k: K, v: V)
    requires k !in b
    ensures UnionOf(b[k := v], bag) == bag(v) + UnionOf(b, bag)
  {
    UnionPut(Bagged(b, bag), k, bag(v));
    assert Bagged(b[k := v], bag) == Bagged(b, bag)[k := bag(v)];
  }

  lemma UnionOfReplace<K, V, T>(b: map<K, V>, bag: V -> multiset<T>, k: K, v: V)
    requires k in b
    ensures UnionOf(b[k := v], bag) + bag(b[k]) == bag(v) + UnionOf(b, bag)
  {
    UnionReplace(Bagged(b, bag), k, bag(v));
    assert Bagged(b[k := v], bag) == Bagged(b, bag)[k := bag(v)];
  }

  lemma UnionOfSplit<K, V, T>(b: map<K, V>, bag: V -> multiset<T>, inside: V -> bool)
    ensures UnionOf(b, bag) == UnionOf(Reject(b, inside), bag) + UnionOf(Select(b, inside), bag)
  {
    var s := Select(b, inside).Keys;
    UnionSplit(Bagged(b, bag), s);
    assert Bagged(b, bag) - s == Bagged(Reject(b, inside), bag);
    assert Restrict(Bagged(b, bag), s) == Bagged(Select(b, inside), bag);
  }

  lemma UnionOfGrow<K, V, T>(b: map<K, V>, bag: V -> multiset<T>, k: K, v: V, extra: multiset<T>)
    requires k in b && bag(v) == bag(b[k]) + extra
    ensures UnionOf(b[k := v], bag) == UnionOf(b, bag) + extra
  {
    UnionOfReplace(b, bag, k, v);
    var before, after := UnionOf(b, bag), UnionOf(b[k := v], bag);
    assert after == after + bag(b[k]) - bag(b[k]);
    assert before + extra == before + extra + bag(b[k]) - bag(b[k]);
  }

  function Reject<K, V>(b: map<K, V>, p: V -> bool): map<K, V> {
    map k | k in b && !p(b[k]) :: b[k]
  }

  function Select<K, V>(b: map<K, V>, p: V -> bool): map<K, V> {
    map k | k in b && p(b[k]) :: b[k]
  }
}
