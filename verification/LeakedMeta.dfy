// The leaked-meta sweep of states/etcd/remove/collection_clean.go: under each meta prefix, delete
// the keys that name no existing collection.
module LeakedMeta {
  import opened Prelude
  import opened KeyOrder
  import opened KeyPaths
  import opened MetaStore
  import opened PrefixWalk

  /** A prefix to sweep, and the keys under it to leave alone. */
  datatype Target = Target(prefix: Key, excluded: Key -> bool)

  predicate NamesCollection(key: Key, live: set<Key>) {
    exists s | s in Split(key) :: s in live
  }

  /** The key survives the sweep of t: it lies elsewhere, is excluded, or names a live collection. */
  predicate SparedBy(t: Target, live: set<Key>, key: Key) {
    !HasPrefix(key, t.prefix) || t.excluded(key) || NamesCollection(key[|t.prefix|..], live)
  }

  function CleanMetaFn(t: Target, live: set<Key>, run: bool): Callback {
    (e: KV) => if SparedBy(t, live, e.key) || !run then Keep else Delete
  }

  function SparedByAll(targets: seq<Target>, live: set<Key>): KV -> bool {
    (e: KV) => forall t: int | 0 <= t < |targets| :: SparedBy(targets[t], live, e.key)
  }

  lemma {:induction false} SweepOne(s: seq<KV>, targets: seq<Target>, i: nat, live: set<Key>)
    requires i < |targets|
    ensures Filter(Filter(s, SparedByAll(targets[..i], live)), Unharmed(targets[i].prefix, CleanMetaFn(targets[i], live, true)))
            == Filter(s, SparedByAll(targets[..i + 1], live))
  {
    var p := SparedByAll(targets[..i], live);
    var q := Unharmed(targets[i].prefix, CleanMetaFn(targets[i], live, true));
    FilterTwice(s, p, q);
    forall e | e in s
      ensures Both(p, q)(e) == SparedByAll(targets[..i + 1], live)(e)
    {
      OneMoreTarget(targets, i, live, e);
    }
    FilterSame(s, Both(p, q), SparedByAll(targets[..i + 1], live));
  }

  lemma OneMoreTarget(targets: seq<Target>, i: nat, live: set<Key>, e: KV)
    requires i < |targets|
    ensures SparedByAll(targets[..i + 1], live)(e) <==>
            SparedByAll(targets[..i], live)(e) && SparedBy(targets[i], live, e.key)
  {
  }

  /** The swept prefixes, behind the base path. */
  const SWEPT: seq<string> := [
    "root-coord/collection", "root-coord/database/collection-info", "root-coord/fields",
    "snapshots/root-coord/fields", "partitions", "snapshots/partitions", "datacoord-meta/s" ]

  /** The sweeps under a base path, in order; segment meta leaves the stats logs alone. */
  function LeakedTargets(base: Key): (r: seq<Target>)
    ensures |r| == 7 && forall i | 0 <= i < 7 :: r[i].prefix == Join(base, Bytes(SWEPT[i]))
  {
    var stats := Join(base, Bytes("datacoord-meta/statslog"));
    seq(7, i requires 0 <= i < 7 =>
      Target(Join(base, Bytes(SWEPT[i])), if i == 6 then (k: Key) => HasPrefix(k, stats) else (k: Key) => false))
  }

  const PAGINATION_SIZE := 2000

  /** The sweep of one prefix. */
  method SweepPrefix(store: EtcdKV, t: Target, live: set<Key>, run: bool)
    requires Sorted(store.entries)
    requires forall e | e in store.entries :: store.joinPath(e.key) == e.key
    modifies store
    ensures store.entries ==
            if run then Filter(old(store.entries), Unharmed(t.prefix, CleanMetaFn(t, live, true))) else old(store.entries)
  {
    NothingDeleted(store.entries, t, live);
    var ok, visited := store.WalkWithPrefix(t.prefix, PAGINATION_SIZE, CleanMetaFn(t, live, run));
    assert ok;
  }

  /** The first i targets have been swept. */
  ghost predicate SweptTo(start: seq<KV>, targets: seq<Target>, i: nat, live: set<Key>, run: bool, now: seq<KV>) {
    i <= |targets| && now == if run then Filter(start, SparedByAll(targets[..i], live)) else start
  }

  lemma StillInOrder(joinPath: Key -> Key, start: seq<KV>, targets: seq<Target>, i: nat, live: set<Key>, run: bool, now: seq<KV>)
    requires SweptTo(start, targets, i, live, run, now)
    requires Sorted(start) && forall e | e in start :: joinPath(e.key) == e.key
    ensures Sorted(now) && forall e | e in now :: joinPath(e.key) == e.key
  {
    FilterSorted(start, SparedByAll(targets[..i], live));
  }

  lemma SweptOneMore(start: seq<KV>, targets: seq<Target>, i: nat, live: set<Key>, run: bool, before: seq<KV>, now: seq<KV>)
    requires i < |targets| && SweptTo(start, targets, i, live, run, before)
    requires now == if run then Filter(before, Unharmed(targets[i].prefix, CleanMetaFn(targets[i], live, true))) else before
    ensures SweptTo(start, targets, i + 1, live, run, now)
  {
    SweepOne(start, targets, i, live);
  }

  /** With keys that joinPath leaves alone, a sweep leaves exactly the entries that every target
      spares; without run it changes nothing. */
  method CleanLeaked(store: EtcdKV, targets: seq<Target>, live: set<Key>, run: bool)
    requires Sorted(store.entries)
    requires forall e | e in store.entries :: store.joinPath(e.key) == e.key
    modifies store
    ensures store.entries == if run then Filter(old(store.entries), SparedByAll(targets, live)) else old(store.entries)
  {
    ghost var start := store.entries;
    FilterAll(start, SparedByAll(targets[..0], live));
    for i := 0 to |targets|
      invariant SweptTo(start, targets, i, live, run, store.entries)
    {
      StillInOrder(store.joinPath, start, targets, i, live, run, store.entries);
      ghost var before := store.entries;
      SweepPrefix(store, targets[i], live, run);
      SweptOneMore(start, targets, i, live, run, before, store.entries);
    }
    assert targets[..|targets|] == targets;
  }

  lemma NothingDeleted(s: seq<KV>, t: Target, live: set<Key>)
    ensures Filter(s, Unharmed(t.prefix, CleanMetaFn(t, live, false))) == s
  {
  }

  /** The two swept prefixes first differ at place k of the parts behind the base path. */
  predicate DifferAt(a: string, b: string, k: nat) {
    k < |a| && k < |b| && Bytes(a)[k] != Bytes(b)[k]
  }

  lemma DifferentPrefixes(base: Key, a: string, b: string, k: nat, key: Key)
    requires DifferAt(a, b, k) && HasPrefix(key, Join(base, Bytes(a)))
    ensures !HasPrefix(key, Join(base, Bytes(b)))
  {
    var n := |base| + 1 + k;
    assert Join(base, Bytes(a))[n] != Join(base, Bytes(b))[n];
  }

  /** Where the parts of two swept prefixes differ. */
  function Place(i: nat, j: nat): nat {
    if (i < 3 && j < 3) then 11 else if i in {3, 5} && j in {3, 5} then 10 else 0
  }

  lemma PartsDiffer(i: nat, j: nat)
    requires i < 7 && j < 7 && i != j
    ensures DifferAt(SWEPT[i], SWEPT[j], Place(i, j))
  {
  }

  /** No key lies under two of the swept prefixes. */
  lemma SweptApart(base: Key, i: nat, j: nat, key: Key)
    requires i < 7 && j < 7 && i != j && HasPrefix(key, LeakedTargets(base)[i].prefix)
    ensures !HasPrefix(key, LeakedTargets(base)[j].prefix)
  {
    PartsDiffer(i, j);
    DifferentPrefixes(base, SWEPT[i], SWEPT[j], Place(i, j), key);
  }

  /** So under a swept prefix exactly the excluded keys and those naming a live collection remain. */
  lemma LeftUnderPrefix(s: seq<KV>, base: Key, live: set<Key>, i: nat, e: KV)
    requires i < |LeakedTargets(base)| && e in s && HasPrefix(e.key, LeakedTargets(base)[i].prefix)
    ensures var t := LeakedTargets(base)[i];
      e in Filter(s, SparedByAll(LeakedTargets(base), live)) <==>
      t.excluded(e.key) || NamesCollection(e.key[|t.prefix|..], live)
  {
    var targets := LeakedTargets(base);
    forall j: int | 0 <= j < |targets| && j != i
      ensures SparedBy(targets[j], live, e.key)
    {
      SweptApart(base, i, j, e.key);
    }
    assert SparedByAll(targets, live)(e) <==> SparedBy(targets[i], live, e.key);
  }

  /** And a key under none of them always remains. */
  lemma LeftElsewhere(s: seq<KV>, base: Key, live: set<Key>, e: KV)
    requires e in s && forall t | t in LeakedTargets(base) :: !HasPrefix(e.key, t.prefix)
    ensures e in Filter(s, SparedByAll(LeakedTargets(base), live))
  {
    var targets := LeakedTargets(base);
    forall j: int | 0 <= j < |targets| ensures SparedBy(targets[j], live, e.key) {
      assert targets[j] in targets;
    }
    assert SparedByAll(targets, live)(e);
  }

  // ---------- what the whole command leaves ----------

  /** The key begins with the base path, a slash and p. */
  predicate Starts(base: Key, p: string, key: Key) {
    base + [47] + Bytes(p) <= key
  }

  /** Behind the base path, a slash and p, some segment of the key names a live collection. */
  ghost predicate NamesLive(base: Key, p: string, key: Key, live: set<Key>)
    requires Starts(base, p, key)
  {
    exists part :: part in live && IsSegment(part, key[|base| + 1 + |p|..])
  }

  ghost predicate SparedUnder(base: Key, live: set<Key>, p: string, key: Key) {
    Starts(base, p, key) ==> NamesLive(base, p, key, live)
  }

  predicate IsMetaPrefix(p: string) {
    p in [
      "root-coord/collection", "root-coord/database/collection-info", "root-coord/fields",
      "snapshots/root-coord/fields", "partitions", "snapshots/partitions"]
  }

  /** What is left: under six prefixes, and under segment meta but for the stats logs, only what names a
      live collection; everything else. */
  ghost predicate Remains(base: Key, live: set<Key>, key: Key) {
    && (forall p: string | IsMetaPrefix(p) :: SparedUnder(base, live, p, key))
    && (Starts(base, "datacoord-meta/statslog", key) || SparedUnder(base, live, "datacoord-meta/s", key))
  }

  lemma NamesAlike(base: Key, p: string, key: Key, live: set<Key>)
    requires Starts(base, p, key)
    ensures var prefix := Join(base, Bytes(p));
      HasPrefix(key, prefix) && (NamesCollection(key[|prefix|..], live) <==> NamesLive(base, p, key, live))
  {
    var rest := key[|base| + 1 + |p|..];
    forall part ensures part in Split(rest) <==> IsSegment(part, rest) {
      SplitMeans(rest, part);
    }
  }

  /** One target's sparing, in the literal terms. */
  lemma SparedMeans(base: Key, live: set<Key>, i: nat, key: Key)
    requires i < 7
    ensures SparedBy(LeakedTargets(base)[i], live, key) <==>
            (i == 6 && Starts(base, "datacoord-meta/statslog", key)) || SparedUnder(base, live, SWEPT[i], key)
  {
    if Starts(base, SWEPT[i], key) {
      NamesAlike(base, SWEPT[i], key, live);
    }
    if Starts(base, "datacoord-meta/statslog", key) {
      StatsLogIsSegmentMeta(base, key);
    }
  }

  lemma StatsLogIsSegmentMeta(base: Key, key: Key)
    requires Starts(base, "datacoord-meta/statslog", key)
    ensures Starts(base, "datacoord-meta/s", key)
  {
    var n := |base| + 1;
    assert Bytes("datacoord-meta/s") == Bytes("datacoord-meta/statslog")[..16];
    assert key[..n + 16] == base + [47] + Bytes("datacoord-meta/statslog")[..16];
  }

  lemma SixAreSwept(p: string)
    ensures IsMetaPrefix(p) <==> exists i: nat :: i < 6 && SWEPT[i] == p
  {
    assert SWEPT[0] == "root-coord/collection" && SWEPT[1] == "root-coord/database/collection-info";
    assert SWEPT[2] == "root-coord/fields" && SWEPT[3] == "snapshots/root-coord/fields";
    assert SWEPT[4] == "partitions" && SWEPT[5] == "snapshots/partitions";
  }

  lemma RemainsMeans(base: Key, live: set<Key>, e: KV)
    ensures SparedByAll(LeakedTargets(base), live)(e) <==> Remains(base, live, e.key)
  {
    var targets := LeakedTargets(base);
    forall i: nat | i < 7
      ensures SparedBy(targets[i], live, e.key) <==>
              (i == 6 && Starts(base, "datacoord-meta/statslog", e.key)) || SparedUnder(base, live, SWEPT[i], e.key)
    {
      SparedMeans(base, live, i, e.key);
    }
    forall p: string
      ensures IsMetaPrefix(p) <==> exists i: nat :: i < 6 && SWEPT[i] == p
    {
      SixAreSwept(p);
    }
    assert SWEPT[6] == "datacoord-meta/s";
    if Remains(base, live, e.key) {
      forall i: int | 0 <= i < 7 ensures SparedBy(targets[i], live, e.key) {
        assert i < 6 ==> SparedUnder(base, live, SWEPT[i], e.key);
      }
    }
    if SparedByAll(targets, live)(e) {
      assert SparedBy(targets[6], live, e.key);
      forall p: string, i: nat | i < 6 && SWEPT[i] == p ensures SparedUnder(base, live, p, e.key) {
        assert SparedBy(targets[i], live, e.key);
      }
    }
  }

  /** The stats logs always remain. */
  lemma StatsLogsRemain(base: Key, live: set<Key>, key: Key)
    requires base + [47] + Bytes("datacoord-meta/statslog") <= key
    ensures Remains(base, live, key)
  {
    StatsLogIsSegmentMeta(base, key);
    assert HasPrefix(key, LeakedTargets(base)[6].prefix);
    forall i: nat | i < 6 ensures !Starts(base, SWEPT[i], key) {
      SweptApart(base, 6, i, key);
    }
    forall p: string | IsMetaPrefix(p) ensures !Starts(base, p, key)
    {
      SixAreSwept(p);
    }
  }

  /** Under each swept prefix, the stats logs apart, exactly what names a live collection remains. */
  lemma OnlyLiveRemains(base: Key, live: set<Key>, p: string, key: Key)
    requires p in [
      "root-coord/collection", "root-coord/database/collection-info", "root-coord/fields",
      "snapshots/root-coord/fields", "partitions", "snapshots/partitions", "datacoord-meta/s"]
    requires base + [47] + Bytes(p) <= key && !(base + [47] + Bytes("datacoord-meta/statslog") <= key)
    ensures Remains(base, live, key) <==> exists part :: part in live && IsSegment(part, key[|base| + 1 + |p|..])
  {
    assert SWEPT[6] == "datacoord-meta/s";
    if p != SWEPT[6] {
      SixAreSwept(p);
    }
    var i: nat :| i < 7 && SWEPT[i] == p;
    assert HasPrefix(key, LeakedTargets(base)[i].prefix);
    forall j: nat | j < 7 && j != i ensures !Starts(base, SWEPT[j], key) {
      SweptApart(base, i, j, key);
    }
    forall q: string | IsMetaPrefix(q) && q != p ensures !Starts(base, q, key) {
      SixAreSwept(q);
    }
    assert Remains(base, live, key) ==> SparedUnder(base, live, p, key);
    assert NamesLive(base, p, key, live) <==> exists part :: part in live && IsSegment(part, key[|base| + 1 + |p|..]);
  }

  /** What lies under no swept prefix remains. */
  lemma ElsewhereRemains(base: Key, live: set<Key>, key: Key)
    requires forall p | p in [
      "root-coord/collection", "root-coord/database/collection-info", "root-coord/fields",
      "snapshots/root-coord/fields", "partitions", "snapshots/partitions", "datacoord-meta/s"] ::
        !(base + [47] + Bytes(p) <= key)
    ensures Remains(base, live, key)
  {
    forall q: string | IsMetaPrefix(q) ensures !Starts(base, q, key) {
      assert q in [
        "root-coord/collection", "root-coord/database/collection-info", "root-coord/fields",
        "snapshots/root-coord/fields", "partitions", "snapshots/partitions", "datacoord-meta/s"];
    }
    assert !Starts(base, "datacoord-meta/s", key);
  }

  /** The command: with the run flag exactly the keys that are to remain are left. */
  method CollectionMetaLeaked(store: EtcdKV, base: Key, live: set<Key>, run: bool)
    requires Sorted(store.entries)
    requires forall e | e in store.entries :: store.joinPath(e.key) == e.key
    modifies store
    ensures store.entries ==
            if run then Filter(old(store.entries), (e: KV) => Remains(base, live, e.key)) else old(store.entries)
  {
    ghost var start := store.entries;
    CleanLeaked(store, LeakedTargets(base), live, run);
    forall e | e in start
      ensures SparedByAll(LeakedTargets(base), live)(e) == ((e: KV) => Remains(base, live, e.key))(e)
    {
      RemainsMeans(base, live, e);
    }
    FilterSame(start, SparedByAll(LeakedTargets(base), live), (e: KV) => Remains(base, live, e.key));
  }

  const TATS_TASK := Bytes("tats-task")

  lemma TatsTaskIsOneSegment()
    ensures SLASH !in TATS_TASK
  {
  }

  lemma StatsTaskPlace(base: Key, id: Key, key: Key, t: Target)
    requires t == LeakedTargets(base)[6] && key == Join(base, Bytes("datacoord-meta/stats-task/")) + id
    ensures HasPrefix(key, t.prefix) && !t.excluded(key) && key[|t.prefix|..] == TATS_TASK + [SLASH] + id
  {
    var n, start := |base| + 1, Bytes("datacoord-meta/stats-task/");
    var prefix, stats := LeakedTargets(base)[6].prefix, Join(base, Bytes("datacoord-meta/statslog"));
    assert start[..16] == Bytes(SWEPT[6]) && start[16..] == TATS_TASK + [SLASH];
    assert key == base + [SLASH] + start + id;
    assert key[..n + 16] == prefix;
    assert key[n + 16..] == start[16..] + id;
    assert key[n + 20] == start[20] && stats[n + 20] == Bytes("datacoord-meta/statslog")[20];
  }

  /** A stats task is not segment meta, but its key begins like it: it is deleted unless a collection
      happens to be called "tats-task" or like the task. */
  lemma StatsTaskIsSwept(s: seq<KV>, base: Key, live: set<Key>, id: Key, e: KV)
    requires e in s && SLASH !in id && e.key == Join(base, Bytes("datacoord-meta/stats-task/")) + id
    ensures e in Filter(s, SparedByAll(LeakedTargets(base), live)) <==> TATS_TASK in live || id in live
  {
    var t := LeakedTargets(base)[6];
    StatsTaskPlace(base, id, e.key, t);
    LeftUnderPrefix(s, base, live, 6, e);
    TatsTaskIsOneSegment();
    TwoNames(TATS_TASK, id, live);
    assert t.excluded(e.key) || NamesCollection(e.key[|t.prefix|..], live) <==> TATS_TASK in live || id in live;
  }

  lemma TwoNames(a: Key, b: Key, live: set<Key>)
    requires SLASH !in a && SLASH !in b
    ensures NamesCollection(a + [SLASH] + b, live) <==> a in live || b in live
  {
    SplitInTwo(a, b);
    assert a in [a, b] && b in [a, b];
  }
}
