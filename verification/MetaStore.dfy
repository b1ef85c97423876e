// The key-value store behind the MetaKV interface: entries sorted by key, and the paged range
// read the walks are built on.
module MetaStore {
  import opened Prelude
  import opened KeyOrder

  type Value = seq<Byte>

  datatype KV = KV(key: Key, value: Value)

  predicate Sorted(s: seq<KV>) {
    forall i, j | 0 <= i < j < |s| :: Less(s[i].key, s[j].key)
  }

  /** A range read: at most limit entries (no limit if zero), whether more follow, and the full count. */
  datatype Page = Page(kvs: seq<KV>, more: bool, count: nat)

  function Get(s: seq<KV>, inRange: KV -> bool, limit: nat): Page {
    var all := Filter(s, inRange);
    if limit == 0 || |all| <= limit then Page(all, false, |all|)
    else Page(all[..limit], true, |all|)
  }

  /** From key onwards, among the entries accepted by q. */
  function From(key: Key, q: KV -> bool): KV -> bool {
    (e: KV) => AtMost(key, e.key) && q(e)
  }

  function NotBefore(key: Key): KV -> bool {
    (e: KV) => AtMost(key, e.key)
  }

  lemma {:induction false} FilterSorted(s: seq<KV>, p: KV -> bool)
    requires Sorted(s)
    ensures Sorted(Filter(s, p))
  {
    if s != [] {
      var rest := s[1..];
      assert forall i, j | 0 <= i < j < |rest| :: rest[i] == s[i + 1] && rest[j] == s[j + 1];
      FilterSorted(rest, p);
      forall e | e in Filter(rest, p)
        ensures Less(s[0].key, e.key)
      {
        assert e in rest;
        var i :| 0 <= i < |rest| && rest[i] == e;
        assert s[i + 1] == e;
      }
    }
  }

  /** In a sorted list, the entries after entry n - 1 are those from its key with a zero byte appended. */
  lemma {:induction false} AfterEntry(s: seq<KV>, n: nat)
    requires Sorted(s) && 0 < n <= |s|
    ensures Filter(s, NotBefore(s[n - 1].key + [0])) == s[n..]
  {
    var p := NotBefore(s[n - 1].key + [0]);
    forall e | e in s[..n]
      ensures !p(e)
    {
      var i :| 0 <= i < n && s[i] == e;
      NextKey(s[n - 1].key, e.key);
      if i < n - 1 {
        LessTotal(s[i].key, s[n - 1].key);
      } else {
        LessIrreflexive(e.key);
      }
    }
    forall e | e in s[n..]
      ensures p(e)
    {
      var i :| n <= i < |s| && s[i] == e;
      NextKey(s[n - 1].key, e.key);
    }
    assert s == s[..n] + s[n..];
    FilterAppend(s[..n], s[n..], p);
    FilterNone(s[..n], p);
    FilterAll(s[n..], p);
  }

  lemma FromNext(key: Key, last: Key, q: KV -> bool, e: KV)
    requires AtMost(key, last)
    ensures From(last + [0], q)(e) <==> From(key, q)(e) && AtMost(last + [0], e.key)
  {
    if AtMost(last + [0], e.key) {
      NextKey(last, e.key);
      AtMostLess(key, last, e.key);
      LessTotal(key, e.key);
    }
  }

  /** Restarting a range read just after the n-th entry it would return yields the rest. */
  lemma NextPage(s: seq<KV>, key: Key, q: KV -> bool, n: nat)
    requires Sorted(s) && 0 < n <= |Filter(s, From(key, q))|
    ensures var all := Filter(s, From(key, q));
      Filter(s, From(all[n - 1].key + [0], q)) == all[n..]
  {
    var all := Filter(s, From(key, q));
    var last := all[n - 1].key;
    assert all[n - 1] in all;
    FilterSorted(s, From(key, q));
    var p := NotBefore(last + [0]);
    AfterEntry(all, n);
    FilterTwice(s, From(key, q), p);
    SameFilters(s, key, last, q);
  }

  lemma SameFilters(s: seq<KV>, key: Key, last: Key, q: KV -> bool)
    requires AtMost(key, last)
    ensures Filter(s, From(last + [0], q)) == Filter(s, Both(From(key, q), NotBefore(last + [0])))
  {
    forall e | e in s
      ensures From(last + [0], q)(e) == Both(From(key, q), NotBefore(last + [0]))(e)
    {
      FromNext(key, last, q, e);
    }
    FilterSame(s, From(last + [0], q), Both(From(key, q), NotBefore(last + [0])));
  }

  function Remove(s: seq<KV>, key: Key): seq<KV> {
    Filter(s, (e: KV) => e.key != key)
  }
}
