// WalkWithPrefix of states/kv/kv.go: a paged walk whose callback may delete the entry it is given.
module PrefixWalk {
  import opened Prelude
  import opened KeyOrder
  import opened MetaStore

  /** What the callback does with an entry: leave it, delete its key, or return an error. */
  datatype Action = Keep | Delete | Fail

  type Callback = KV -> Action

  /** The walk's range: from the prefix up to its range end. */
  function InRange(prefix: Key): KV -> bool {
    (e: KV) => AtMost(prefix, e.key) && BeforeEnd(e.key, GetPrefixRangeEnd(prefix))
  }

  function Under(prefix: Key): KV -> bool {
    (e: KV) => HasPrefix(e.key, prefix)
  }

  lemma RangeIsPrefix(s: seq<KV>, prefix: Key)
    ensures Filter(s, From(prefix, InRange(prefix))) == Filter(s, Under(prefix))
  {
    forall e | e in s
      ensures From(prefix, InRange(prefix))(e) == Under(prefix)(e)
    {
      PrefixIsRange(e.key, prefix);
    }
    FilterSame(s, From(prefix, InRange(prefix)), Under(prefix));
  }

  /** Not yet visited, or not deleted by the callback. */
  function Spared(visited: seq<KV>, fn: Callback): KV -> bool {
    (e: KV) => !(e in visited && fn(e) == Delete)
  }

  function Survivors(s: seq<KV>, visited: seq<KV>, fn: Callback): seq<KV> {
    Filter(s, Spared(visited, fn))
  }

  lemma KeysAreDistinct(s: seq<KV>, a: KV, b: KV)
    requires Sorted(s) && a in s && b in s && a.key == b.key
    ensures a == b
  {
    var i :| 0 <= i < |s| && s[i] == a;
    var j :| 0 <= j < |s| && s[j] == b;
    LessIrreflexive(a.key);
  }

  /** Visiting one more entry. */
  lemma VisitOne(s: seq<KV>, visited: seq<KV>, e: KV, fn: Callback)
    requires Sorted(s) && e in s
    ensures var before := Survivors(s, visited, fn);
      Survivors(s, visited + [e], fn) == if fn(e) == Delete then Remove(before, e.key) else before
  {
    var kept := (x: KV) => x.key != e.key;
    if fn(e) == Delete {
      FilterTwice(s, Spared(visited, fn), kept);
      forall x | x in s
        ensures Spared(visited + [e], fn)(x) == Both(Spared(visited, fn), kept)(x)
      {
        if x.key == e.key {
          KeysAreDistinct(s, x, e);
        }
      }
      FilterSame(s, Spared(visited + [e], fn), Both(Spared(visited, fn), kept));
    } else {
      FilterSame(s, Spared(visited + [e], fn), Spared(visited, fn));
    }
  }

  lemma VisitStep(joinPath: Key -> Key, start: seq<KV>, before: seq<KV>, visited: seq<KV>, e: KV, fn: Callback,
                  was: seq<KV>, now: seq<KV>)
    requires Sorted(start) && e in start && joinPath(e.key) == e.key
    requires was == Survivors(start, before + visited, fn)
    requires now == if fn(e) == Delete then Remove(was, joinPath(e.key)) else was
    ensures now == Survivors(start, before + (visited + [e]), fn)
  {
    VisitOne(start, before + visited, e, fn);
    Regroup(before, visited, [e]);
  }

  /** What lies from key onwards is not affected by deleting visited entries before key. */
  lemma RestIsUntouched(s: seq<KV>, visited: seq<KV>, fn: Callback, p: KV -> bool)
    requires forall e | e in visited :: !p(e)
    ensures Filter(Survivors(s, visited, fn), p) == Filter(s, p)
  {
    FilterTwice(s, Spared(visited, fn), p);
    FilterSame(s, Both(Spared(visited, fn), p), p);
  }

  lemma {:induction false} VisitedAreBefore(s: seq<KV>, all: seq<KV>, v: nat, p: KV -> bool)
    requires Sorted(s) && Sorted(all) && v <= |all| && Filter(s, p) == all[v..]
    requires forall e | e in all :: e in s
    ensures forall e | e in all[..v] :: !p(e)
  {
    forall e | e in all[..v]
      ensures !p(e)
    {
      var i :| 0 <= i < v && all[i] == e;
      if p(e) {
        assert e in all[v..];
        var j :| v <= j < |all| && all[j] == e;
        LessIrreflexive(e.key);
      }
    }
  }

  /** The outer loop: v entries of the range visited, the page key just past them. */
  ghost predicate WalkedTo(start: seq<KV>, now: seq<KV>, prefix: Key, key: Key, v: nat, fn: Callback) {
    var all := Filter(start, Under(prefix));
    && v <= |all|
    && Filter(start, From(key, InRange(prefix))) == all[v..]
    && now == Survivors(start, all[..v], fn)
    && (forall e | e in all[..v] :: fn(e) != Fail)
  }

  lemma StartWalk(start: seq<KV>, prefix: Key, fn: Callback)
    ensures WalkedTo(start, start, prefix, prefix, 0, fn)
  {
    RangeIsPrefix(start, prefix);
    var all := Filter(start, Under(prefix));
    assert all[..0] == [] && all[0..] == all;
    FilterAll(start, Spared([], fn));
  }

  /** Whatever was deleted, what is left of the range from the page key on is what was there. */
  lemma {:induction false} RangeLeft(start: seq<KV>, now: seq<KV>, prefix: Key, key: Key, v: nat, fn: Callback)
    requires Sorted(start) && WalkedTo(start, now, prefix, key, v, fn)
    ensures Filter(now, From(key, InRange(prefix))) == Filter(start, Under(prefix))[v..]
  {
    var all := Filter(start, Under(prefix));
    FilterSorted(start, Under(prefix));
    VisitedAreBefore(start, all, v, From(key, InRange(prefix)));
    RestIsUntouched(start, all[..v], fn, From(key, InRange(prefix)));
  }

  /** The page holds entries v to n - 1 of the range, and says whether more follow. */
  ghost predicate PageOf(start: seq<KV>, prefix: Key, page: Page, v: nat, n: nat) {
    var all := Filter(start, Under(prefix));
    && n == v + |page.kvs| && n <= |all| && page.kvs == all[v..n]
    && (page.more <==> n < |all|) && (page.more ==> v < n)
  }

  lemma PageOfRest(all: seq<KV>, v: nat, now: seq<KV>, p: KV -> bool, limit: nat)
    requires v <= |all| && Filter(now, p) == all[v..]
    ensures var page := Get(now, p, limit);
      var n := v + |page.kvs|;
      n <= |all| && page.kvs == all[v..n] && (page.more <==> n < |all|) && (page.more ==> v < n)
  {
  }

  /** The page read at v returns the next entries of the original range. */
  lemma PageIsNext(start: seq<KV>, now: seq<KV>, prefix: Key, key: Key, v: nat, fn: Callback, limit: nat)
    requires Sorted(start) && WalkedTo(start, now, prefix, key, v, fn)
    ensures var page := Get(now, From(key, InRange(prefix)), limit); PageOf(start, prefix, page, v, v + |page.kvs|)
  {
    RangeLeft(start, now, prefix, key, v, fn);
    PageOfRest(Filter(start, Under(prefix)), v, now, From(key, InRange(prefix)), limit);
  }

  lemma PageDone(start: seq<KV>, now: seq<KV>, prefix: Key, key: Key, v: nat, n: nat, fn: Callback)
    requires Sorted(start)
    requires var all := Filter(start, Under(prefix));
      && 0 < n && v + n <= |all|
      && Filter(start, From(key, InRange(prefix))) == all[v..]
      && now == Survivors(start, all[..v + n], fn)
      && (forall e | e in all[..v + n] :: fn(e) != Fail)
    ensures WalkedTo(start, now, prefix, Filter(start, Under(prefix))[v + n - 1].key + [0], v + n, fn)
  {
    var all := Filter(start, Under(prefix));
    NextPage(start, key, InRange(prefix), n);
    assert all[v..][n - 1] == all[v + n - 1] && all[v..][n..] == all[v + n..];
  }

  /** The entries a completed walk leaves: those outside the prefix, and those the callback kept. */
  function Unharmed(prefix: Key, fn: Callback): KV -> bool {
    (e: KV) => !(HasPrefix(e.key, prefix) && fn(e) == Delete)
  }

  lemma AllVisited(start: seq<KV>, prefix: Key, fn: Callback)
    ensures Survivors(start, Filter(start, Under(prefix)), fn) == Filter(start, Unharmed(prefix, fn))
  {
    FilterSame(start, Spared(Filter(start, Under(prefix)), fn), Unharmed(prefix, fn));
  }

  /** Every entry under the prefix was visited without error, and exactly the rejected ones are gone. */
  ghost predicate Completed(start: seq<KV>, now: seq<KV>, prefix: Key, fn: Callback) {
    && now == Filter(start, Unharmed(prefix, fn))
    && (forall e | e in Filter(start, Under(prefix)) :: fn(e) != Fail)
  }

  /** The callback failed on the last visited entry, and on none before it. */
  ghost predicate StoppedAfter(start: seq<KV>, now: seq<KV>, prefix: Key, fn: Callback, visited: seq<KV>) {
    && visited <= Filter(start, Under(prefix))
    && now == Survivors(start, visited, fn)
    && visited != [] && fn(visited[|visited| - 1]) == Fail
    && (forall e | e in visited[..|visited| - 1] :: fn(e) != Fail)
  }

  /** The callback saw the page in order, all of it or up to its first failure. */
  ghost predicate StopsAtFailure(kvs: seq<KV>, visited: seq<KV>, fn: Callback, ok: bool) {
    && visited <= kvs
    && (ok ==> visited == kvs && forall e | e in kvs :: fn(e) != Fail)
    && (!ok ==> visited != [] && fn(visited[|visited| - 1]) == Fail
                && forall e | e in visited[..|visited| - 1] :: fn(e) != Fail)
  }

  predicate AllFine(kvs: seq<KV>, fn: Callback) {
    forall e | e in kvs :: fn(e) != Fail
  }

  lemma SeenUpTo(kvs: seq<KV>, i: nat, n: nat, fn: Callback)
    requires n == i + 1 <= |kvs| && AllFine(kvs[..i], fn)
    ensures kvs[..n] == kvs[..i] + [kvs[i]]
    ensures fn(kvs[i]) == Fail ==> StopsAtFailure(kvs, kvs[..n], fn, false)
    ensures fn(kvs[i]) != Fail ==> AllFine(kvs[..n], fn)
  {
    assert kvs[..n][..i] == kvs[..i];
  }

  lemma SeenAll(kvs: seq<KV>, visited: seq<KV>, fn: Callback)
    requires visited == kvs[..|kvs|] && AllFine(visited, fn)
    ensures StopsAtFailure(kvs, visited, fn, true)
  {
    assert visited == kvs;
  }

  function NextKeyOf(page: Page): Option<Key>
    requires page.more ==> |page.kvs| > 0
  {
    if page.more then Some(page.kvs[|page.kvs| - 1].key + [0]) else None
  }

  /** How one round of the walk leaves things, visited being all the callback has been given so far:
      further on, completed, or stopped by the callback. */
  ghost predicate Settled(start: seq<KV>, now: seq<KV>, prefix: Key, fn: Callback, v: nat, ok: bool, next: Option<Key>, n: nat, visited: seq<KV>) {
    var all := Filter(start, Under(prefix));
    && (ok && next.Some? ==> v < n <= |all| && visited == all[..n] && WalkedTo(start, now, prefix, next.value, n, fn))
    && (ok && next.None? ==> visited == all && Completed(start, now, prefix, fn))
    && (!ok ==> StoppedAfter(start, now, prefix, fn, visited))
  }

  /** Stored entries whose keys joinPath leaves alone. */
  predicate AllClean(joinPath: Key -> Key, start: seq<KV>, kvs: seq<KV>) {
    forall e | e in kvs :: e in start && joinPath(e.key) == e.key
  }

  lemma {:induction false} PageSettles(start: seq<KV>, before: seq<KV>, now: seq<KV>, prefix: Key, key: Key, v: nat, fn: Callback,
                    page: Page, ok: bool, seen: seq<KV>, next: Option<Key>, n: nat, visited: seq<KV>)
    requires Sorted(start) && WalkedTo(start, before, prefix, key, v, fn) && PageOf(start, prefix, page, v, n)
    requires visited == Filter(start, Under(prefix))[..v] + seen && now == Survivors(start, visited, fn)
    requires StopsAtFailure(page.kvs, seen, fn, ok)
    requires next == NextKeyOf(page)
    ensures Settled(start, now, prefix, fn, v, ok, next, n, visited)
  {
    var all := Filter(start, Under(prefix));
    if ok {
      assert visited == all[..n];
      NoneFailed(all[..v], page.kvs, all[..n], fn);
      if page.more {
        OnToNextPage(start, before, now, prefix, key, v, fn, page, n);
      } else {
        LastPageDone(start, now, prefix, v, fn, page, n);
      }
    } else {
      StoppedInPage(start, now, prefix, fn, v, page.kvs, seen);
    }
  }

  lemma PageIsStored(start: seq<KV>, now: seq<KV>, prefix: Key, key: Key, v: nat, fn: Callback, limit: nat,
                     page: Page)
    requires Sorted(start) && WalkedTo(start, now, prefix, key, v, fn)
    requires page == Get(now, From(key, InRange(prefix)), limit)
    ensures forall e | e in page.kvs :: e in start && HasPrefix(e.key, prefix)
    ensures PageOf(start, prefix, page, v, v + |page.kvs|)
  {
    PageIsNext(start, now, prefix, key, v, fn, limit);
    forall e | e in page.kvs
      ensures e in start && HasPrefix(e.key, prefix)
    {
      assert e in Filter(start, Under(prefix));
    }
  }

  lemma NoneFailed(a: seq<KV>, b: seq<KV>, ab: seq<KV>, fn: Callback)
    requires ab == a + b && (forall e | e in a :: fn(e) != Fail) && (forall e | e in b :: fn(e) != Fail)
    ensures forall e | e in ab :: fn(e) != Fail
  {
  }

  lemma OnToNextPage(start: seq<KV>, before: seq<KV>, now: seq<KV>, prefix: Key, key: Key, v: nat, fn: Callback,
                     page: Page, n: nat)
    requires Sorted(start) && WalkedTo(start, before, prefix, key, v, fn) && PageOf(start, prefix, page, v, n)
    requires now == Survivors(start, Filter(start, Under(prefix))[..n], fn)
    requires AllFine(Filter(start, Under(prefix))[..n], fn) && page.more
    ensures WalkedTo(start, now, prefix, page.kvs[|page.kvs| - 1].key + [0], n, fn)
  {
    PageDone(start, now, prefix, key, v, n - v, fn);
    assert page.kvs[|page.kvs| - 1] == Filter(start, Under(prefix))[n - 1];
  }

  lemma LastPageDone(start: seq<KV>, now: seq<KV>, prefix: Key, v: nat, fn: Callback, page: Page, n: nat)
    requires PageOf(start, prefix, page, v, n) && now == Survivors(start, Filter(start, Under(prefix))[..n], fn)
    requires AllFine(Filter(start, Under(prefix))[..n], fn) && !page.more
    ensures Filter(start, Under(prefix))[..n] == Filter(start, Under(prefix))
    ensures Completed(start, now, prefix, fn)
  {
    assert Filter(start, Under(prefix))[..n] == Filter(start, Under(prefix));
    AllVisited(start, prefix, fn);
  }

  lemma StoppedInPage(start: seq<KV>, now: seq<KV>, prefix: Key, fn: Callback, v: nat, page: seq<KV>, seen: seq<KV>)
    requires var all := Filter(start, Under(prefix));
      v + |page| <= |all| && page == all[v..v + |page|] && forall e | e in all[..v] :: fn(e) != Fail
    requires seen <= page && seen != [] && fn(seen[|seen| - 1]) == Fail
    requires forall e | e in seen[..|seen| - 1] :: fn(e) != Fail
    requires now == Survivors(start, Filter(start, Under(prefix))[..v] + seen, fn)
    ensures StoppedAfter(start, now, prefix, fn, Filter(start, Under(prefix))[..v] + seen)
  {
    var all := Filter(start, Under(prefix));
    var visited := all[..v] + seen;
    assert visited == all[..v + |seen|];
    assert visited[..|visited| - 1] == all[..v] + seen[..|seen| - 1];
  }

  class EtcdKV {
    /** Cleans a key before a single-key operation, as joinPath does; walks hand over stored keys. */
    const joinPath: Key -> Key
    var entries: seq<KV>
    /** Every entry any callback was ever applied to, in order. */
    ghost var calls: seq<KV>

    constructor (joinPath: Key -> Key, entries: seq<KV>)
      ensures this.joinPath == joinPath && this.entries == entries && calls == []
    {
      this.joinPath := joinPath;
      this.entries := entries;
      calls := [];
    }

    method RemoveKey(key: Key)
      modifies this`entries
      ensures entries == Remove(old(entries), joinPath(key))
    {
      entries := Remove(entries, joinPath(key));
    }

    /** The one place where a walk applies its callback; a deletion is carried out at once. */
    method Call(e: KV, fn: Callback) returns (ok: bool)
      modifies this
      ensures calls == old(calls) + [e] && ok == (fn(e) != Fail)
      ensures entries == if fn(e) == Delete then Remove(old(entries), joinPath(e.key)) else old(entries)
    {
      calls := calls + [e];
      match fn(e)
      case Keep => ok := true;
      case Delete => RemoveKey(e.key); ok := true;
      case Fail => ok := false;
    }

    /** One page: the callback applied to each entry, stopping at the first error. */
    method VisitPage(kvs: seq<KV>, fn: Callback, ghost start: seq<KV>, ghost before: seq<KV>)
      returns (ok: bool, ghost visited: seq<KV>)
      requires Sorted(start) && entries == Survivors(start, before, fn)
      requires AllClean(joinPath, start, kvs)
      modifies this
      ensures calls == old(calls) + visited
      ensures entries == Survivors(start, before + visited, fn)
      ensures StopsAtFailure(kvs, visited, fn, ok)
    {
      visited := [];
      Regroup(before, [], []);
      Regroup(calls, [], []);
      for i := 0 to |kvs|
        invariant visited == kvs[..i] && calls == old(calls) + visited
        invariant entries == Survivors(start, before + visited, fn)
        invariant AllFine(kvs[..i], fn)
      {
        ghost var was := entries;
        ok := Call(kvs[i], fn);
        VisitStep(joinPath, start, before, visited, kvs[i], fn, was, entries);
        Regroup(old(calls), visited, [kvs[i]]);
        visited := visited + [kvs[i]];
        SeenUpTo(kvs, i, i + 1, fn);
        if !ok {
          return;
        }
      }
      ok := true;
      SeenAll(kvs, visited, fn);
    }

    method ReadPage(prefix: Key, key: Key, limit: nat, fn: Callback, ghost start: seq<KV>, ghost v: nat)
      returns (page: Page)
      requires Sorted(start) && WalkedTo(start, entries, prefix, key, v, fn)
      requires forall e | e in start && HasPrefix(e.key, prefix) :: joinPath(e.key) == e.key
      ensures PageOf(start, prefix, page, v, v + |page.kvs|) && AllClean(joinPath, start, page.kvs)
    {
      page := Get(entries, From(key, InRange(prefix)), limit);
      PageIsStored(start, entries, prefix, key, v, fn, limit, page);
    }

    /** One round of the walk: read a page, hand it to the callback, and move past it. log is what the
        callback had been given before the walk, visited what it has been given by the walk so far. */
    method WalkPage(prefix: Key, key: Key, limit: nat, fn: Callback, ghost start: seq<KV>, ghost v: nat,
                    ghost log: seq<KV>)
      returns (ok: bool, next: Option<Key>, ghost n: nat, ghost visited: seq<KV>)
      requires Sorted(start) && WalkedTo(start, entries, prefix, key, v, fn)
      requires calls == log + Filter(start, Under(prefix))[..v]
      requires forall e | e in start && HasPrefix(e.key, prefix) :: joinPath(e.key) == e.key
      modifies this
      ensures calls == log + visited
      ensures Settled(start, entries, prefix, fn, v, ok, next, n, visited)
    {
      var page := ReadPage(prefix, key, limit, fn, start, v);
      ghost var before, done := entries, Filter(start, Under(prefix))[..v];
      ghost var seen;
      ok, seen := VisitPage(page.kvs, fn, start, done);
      next := NextKeyOf(page);
      n, visited := v + |page.kvs|, done + seen;
      Regroup(log, done, seen);
      PageSettles(start, before, entries, prefix, key, v, fn, page, ok, seen, next, n, visited);
    }

    /** On keys that joinPath leaves alone, the callback is applied exactly once to each entry stored
        under the prefix when the walk starts, in key order, up to and including the first on which it
        fails; what is left is what was there, minus the entries it deleted. */
    method WalkWithPrefix(prefix: Key, paginationSize: nat, fn: Callback) returns (ok: bool, ghost visited: seq<KV>)
      requires Sorted(entries)
      requires forall e | e in entries && HasPrefix(e.key, prefix) :: joinPath(e.key) == e.key
      modifies this
      ensures calls == old(calls) + visited
      ensures ok ==> visited == Filter(old(entries), Under(prefix)) && Completed(old(entries), entries, prefix, fn)
      ensures !ok ==> StoppedAfter(old(entries), entries, prefix, fn, visited)
    {
      ghost var start := entries;
      var key := prefix;
      ghost var v := 0;
      StartWalk(entries, prefix, fn);
      assert calls + Filter(start, Under(prefix))[..0] == calls;
      while true
        invariant WalkedTo(start, entries, prefix, key, v, fn)
        invariant calls == old(calls) + Filter(start, Under(prefix))[..v]
        decreases |Filter(start, Under(prefix))| - v
      {
        var next;
        ghost var n;
        ok, next, n, visited := WalkPage(prefix, key, paginationSize, fn, start, v, old(calls));
        if !ok || next.None? {
          return;
        }
        key := next.value;
        v := n;
      }
    }
  }
}
