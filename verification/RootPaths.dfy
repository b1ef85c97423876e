// GetAllRootPath of states/kv/kv.go: listing the first path segments by skipping, after each key,
// past everything below its segment.
module RootPaths {
  import opened Prelude
  import opened KeyOrder
  import opened KeyPaths
  import opened MetaStore

  /** Where the scan goes after a key with first segment r: '0' is the byte after '/'. */
  function Jump(r: Key): Key {
    r + [ZERO_CHAR]
  }

  lemma {:induction false} KeyBeforeJump(k: Key)
    ensures Less(k, Jump(Segment(k)))
  {
    if k != [] && k[0] != SLASH {
      KeyBeforeJump(k[1..]);
      assert Segment(k) == [k[0]] + Segment(k[1..]);
      assert Jump(Segment(k))[1..] == Jump(Segment(k[1..]));
    }
  }

  function Named(r: Key): seq<Key> {
    if r != [] then [r] else []
  }

  /** The segments found in the sorted entries s. */
  function RootScan(s: seq<KV>): seq<Key>
    decreases |s|
  {
    if s == [] then []
    else
      var r := Segment(s[0].key);
      KeyBeforeJump(s[0].key);
      Named(r) + RootScan(Filter(s, NotBefore(Jump(r))))
  }

  method GetAllRootPath(entries: seq<KV>) returns (apps: seq<Key>)
    requires Sorted(entries)
    ensures apps == RootScan(entries)
  {
    apps := [];
    var current: Key := [];
    FromStart(entries);
    while true
      invariant ScanAt(entries, current, apps)
      decreases |Filter(entries, NotBefore(current))|
    {
      var page := Get(entries, NotBefore(current), 1);
      OneEntryPage(entries, NotBefore(current));
      if page.kvs == [] {
        return;
      }
      var parts := Split(page.kvs[0].key);
      ScanStep(entries, current, apps, page.kvs[0].key);
      Regroup(apps, Named(parts[0]), []);
      if parts[0] != [] {
        apps := apps + [parts[0]];
      }
      current := Jump(parts[0]);
      if !page.more {
        return;
      }
    }
  }

  /** What was found so far, followed by what a scan from the cursor finds, is what the scan finds. */
  ghost predicate ScanAt(entries: seq<KV>, current: Key, apps: seq<Key>) {
    apps + RootScan(Filter(entries, NotBefore(current))) == RootScan(entries)
  }

  /** One round of the scan: a key is read and its segment noted; the cursor jumps past it. */
  lemma {:induction false} ScanRest(entries: seq<KV>, current: Key)
    requires Filter(entries, NotBefore(current)) != []
    ensures var rest := Filter(entries, NotBefore(current));
      var r := Segment(rest[0].key);
      var later := Filter(entries, NotBefore(Jump(r)));
      && RootScan(rest) == Named(r) + RootScan(later)
      && |later| < |rest|
      && (|rest| == 1 ==> later == [])
  {
    var rest := Filter(entries, NotBefore(current));
    assert rest[0] in rest;
    KeyBeforeJump(rest[0].key);
    JumpForward(entries, current, rest[0].key);
    if |rest| == 1 {
      OnlyOneLeft(rest, Jump(Segment(rest[0].key)));
    }
  }

  lemma ScanStep(entries: seq<KV>, current: Key, apps: seq<Key>, key: Key)
    requires ScanAt(entries, current, apps)
    requires var rest := Filter(entries, NotBefore(current)); rest != [] && key == rest[0].key
    ensures ScanAt(entries, Jump(Segment(key)), apps + Named(Segment(key)))
    ensures var rest, later := Filter(entries, NotBefore(current)), Filter(entries, NotBefore(Jump(Segment(key))));
      |later| < |rest| && (|rest| == 1 ==> later == [])
  {
    ScanRest(entries, current);
    Regroup(apps, Named(Segment(key)), RootScan(Filter(entries, NotBefore(Jump(Segment(key))))));
  }

  lemma OneEntryPage(s: seq<KV>, p: KV -> bool)
    ensures var rest, page := Filter(s, p), Get(s, p, 1);
      if rest == [] then page.kvs == [] && !page.more
      else page.kvs == [rest[0]] && (page.more <==> |rest| > 1)
  {
  }

  lemma FromStart(s: seq<KV>)
    ensures Filter(s, NotBefore([])) == s
  {
  }

  /** The cursor strictly increases: the jump is past the key just read, hence past the old cursor. */
  lemma {:induction false} JumpForward(s: seq<KV>, current: Key, key: Key)
    requires AtMost(current, key)
    ensures Less(current, Jump(Segment(key)))
    ensures Filter(Filter(s, NotBefore(current)), NotBefore(Jump(Segment(key)))) == Filter(s, NotBefore(Jump(Segment(key))))
  {
    var next := Jump(Segment(key));
    KeyBeforeJump(key);
    AtMostLess(current, key, next);
    FilterTwice(s, NotBefore(current), NotBefore(next));
    forall e | e in s
      ensures Both(NotBefore(current), NotBefore(next))(e) == NotBefore(next)(e)
    {
      if AtMost(next, e.key) {
        LessAtMost(current, next, e.key);
        LessTotal(current, e.key);
      }
    }
    FilterSame(s, Both(NotBefore(current), NotBefore(next)), NotBefore(next));
  }

  lemma OnlyOneLeft(rest: seq<KV>, next: Key)
    requires |rest| == 1 && Less(rest[0].key, next)
    ensures Filter(rest, NotBefore(next)) == []
  {
  }

  // ---------- what the scan finds ----------

  /** Everything found is the nonempty first segment of a stored key. */
  lemma {:induction false} ScanIsSound(s: seq<KV>, r: Key)
    requires r in RootScan(s)
    ensures r != [] && exists e :: e in s && Segment(e.key) == r
    decreases |s|
  {
    var h := Segment(s[0].key);
    if r in Named(h) {
      assert s[0] in s;
    } else {
      KeyBeforeJump(s[0].key);
      ScanIsSound(Filter(s, NotBefore(Jump(h))), r);
      var e :| e in Filter(s, NotBefore(Jump(h))) && Segment(e.key) == r;
      assert e in s;
    }
  }

  lemma SegmentByHead(k: Key)
    requires k != [] && k[0] != SLASH
    ensures Segment(k) == [k[0]] + Segment(k[1..])
  {
  }

  /** Segments found later sort after: r + "/" before t + "/". */
  lemma {:induction false} JumpOrdersSegments(r: Key, y: Key)
    requires SLASH !in r && AtMost(Jump(r), y)
    ensures Less(r + [SLASH], Segment(y) + [SLASH])
  {
    if r == [] {
      assert y != [] && y[0] >= ZERO_CHAR;
      SegmentByHead(y);
    } else {
      assert y != [] && y[0] >= r[0] && r[0] != SLASH;
      assert Jump(r)[1..] == Jump(r[1..]) && (r + [SLASH])[1..] == r[1..] + [SLASH];
      if y[0] == r[0] {
        SegmentByHead(y);
        JumpOrdersSegments(r[1..], y[1..]);
        assert (Segment(y) + [SLASH])[1..] == Segment(y[1..]) + [SLASH];
      } else if y[0] != SLASH {
        SegmentByHead(y);
      }
    }
  }

  /** What is found after the first jump sorts after the segment jumped from. */
  lemma {:induction false} FoundAfterJump(s: seq<KV>, r: Key, x: Key)
    requires SLASH !in r && x in RootScan(Filter(s, NotBefore(Jump(r))))
    ensures Less(r + [SLASH], x + [SLASH])
  {
    var rest := Filter(s, NotBefore(Jump(r)));
    ScanIsSound(rest, x);
    var e :| e in rest && Segment(e.key) == x;
    JumpOrdersSegments(r, e.key);
  }

  /** The result is strictly ordered by segment + "/", so no segment occurs twice. */
  lemma {:induction false} ScanIsOrdered(s: seq<KV>, i: nat, j: nat)
    requires i < j < |RootScan(s)|
    ensures Less(RootScan(s)[i] + [SLASH], RootScan(s)[j] + [SLASH])
    ensures RootScan(s)[i] != RootScan(s)[j]
    decreases |s|
  {
    var r := Segment(s[0].key);
    KeyBeforeJump(s[0].key);
    var rest := Filter(s, NotBefore(Jump(r)));
    var n := |Named(r)|;
    if i < n {
      assert RootScan(s)[j] == RootScan(rest)[j - n];
      FirstSegment(s[0].key);
      FoundAfterJump(s, r, RootScan(rest)[j - n]);
    } else {
      ScanIsOrdered(rest, i - n, j - n);
    }
    LessIrreflexive(RootScan(s)[i] + [SLASH]);
  }

  predicate Complete(s: seq<KV>) {
    forall e | e in s && Segment(e.key) != [] :: Segment(e.key) in RootScan(s)
  }

  /** Key a has no slash, and key b lies inside its jump without lying below it as a path. */
  predicate Hides(a: Key, b: Key) {
    SLASH !in a && Less(a, b) && Less(b, Jump(a)) && !HasPrefix(b, a + [SLASH])
  }

  /** No stored key without a slash hides another stored key. */
  predicate NothingHidden(s: seq<KV>) {
    forall a, b | a in s && b in s :: !Hides(a.key, b.key)
  }

  lemma BelowSegment(r: Key, k: Key)
    ensures HasPrefix(k, r + [SLASH]) <==> AtMost(r + [SLASH], k) && Less(k, Jump(r))
  {
    PrefixIsRange(k, r + [SLASH]);
    assert (r + [SLASH])[..|r|] == r;
    assert GetPrefixRangeEnd(r + [SLASH]) == Some(Jump(r));
  }

  lemma PathSegment(r: Key, k: Key)
    requires SLASH !in r && HasPrefix(k, r + [SLASH])
    ensures Segment(k) == r
  {
    assert k == r + [SLASH] + k[|r| + 1..];
    SegmentOf(r, k[|r| + 1..]);
  }

  /** A key the jump passes over has the same first segment as the key read, unless it was hidden. */
  lemma SkippedSegment(x: Key, k: Key)
    requires AtMost(x, k) && Less(k, Jump(Segment(x))) && !Hides(x, k)
    ensures Segment(k) == Segment(x)
  {
    var r := Segment(x);
    FirstSegment(x);
    if SLASH in x {
      LessIrreflexive(x);
      KeyBeforeJump(x);
      BelowSegment(r, x);
      AtMostTransitive(r + [SLASH], x, k);
      BelowSegment(r, k);
      PathSegment(r, k);
    } else {
      LessTotal(x, k);
      if x != k {
        PathSegment(r, k);
      }
    }
  }

  lemma HeadIsLeast(s: seq<KV>, e: KV)
    requires Sorted(s) && e in s
    ensures AtMost(s[0].key, e.key)
  {
    var i :| 0 <= i < |s| && s[i] == e;
    LessIrreflexive(e.key);
    LessTotal(s[0].key, e.key);
  }

  lemma {:induction false} CompleteIfNothingHidden(s: seq<KV>, e: KV)
    requires Sorted(s) && NothingHidden(s) && e in s && Segment(e.key) != []
    ensures Segment(e.key) in RootScan(s)
    decreases |s|
  {
    var r := Segment(s[0].key);
    KeyBeforeJump(s[0].key);
    var rest := Filter(s, NotBefore(Jump(r)));
    if e in rest {
      FilterSorted(s, NotBefore(Jump(r)));
      CompleteIfNothingHidden(rest, e);
    } else {
      HeadIsLeast(s, e);
      assert !Hides(s[0].key, e.key);
      SkippedSegment(s[0].key, e.key);
    }
  }

  /** Inside the jump of r, a whole segment is inside: keys sharing k's first segment are too. */
  lemma {:induction false} JumpCoversSegment(r: Key, k: Key, y: Key)
    requires SLASH !in r && Less(r, k) && Less(k, Jump(r)) && Segment(y) == Segment(k)
    ensures Less(y, Jump(r))
  {
    if r == [] {
      var zero: Key := Jump(r);
      assert zero[1..] == [];
      if k[0] != SLASH {
        SegmentByHead(k);
        assert Segment(y)[0] == k[0];
      }
      if y != [] && y[0] != SLASH {
        SegmentByHead(y);
      }
    } else {
      assert Jump(r)[1..] == Jump(r[1..]);
      assert k[0] == r[0] != SLASH;
      SegmentByHead(k);
      if y != [] && y[0] != SLASH {
        SegmentByHead(y);
        assert Segment(y)[1..] == Segment(y[1..]) && Segment(k)[1..] == Segment(k[1..]);
        JumpCoversSegment(r[1..], k[1..], y[1..]);
      }
    }
  }

  /** If the scan has read a key with segment r, a segment wholly inside r's jump cannot be found later. */
  lemma {:induction false} NotFoundLater(s: seq<KV>, r: Key, k: Key)
    requires SLASH !in r && Less(r, k) && Less(k, Jump(r))
    ensures Segment(k) !in RootScan(Filter(s, NotBefore(Jump(r))))
  {
    var rest := Filter(s, NotBefore(Jump(r)));
    if Segment(k) in RootScan(rest) {
      ScanIsSound(rest, Segment(k));
      var y :| y in rest && Segment(y.key) == Segment(k);
      JumpCoversSegment(r, k, y.key);
    }
  }

  lemma HiddenSegmentDiffers(a: Key, b: Key)
    requires Hides(a, b)
    ensures Segment(a) == a && Segment(b) != a && Segment(b) != []
  {
    FirstSegment(a);
    FirstSegment(b);
    LessIrreflexive(b);
    assert SLASH in b ==> Segment(b) + [SLASH] <= b;
    EmptySegment(a, b);
  }

  lemma EmptySegment(a: Key, b: Key)
    requires Hides(a, b)
    ensures Segment(b) != []
  {
  }

  /** Of a key without a slash and a key it hides, the scan misses at least one segment. */
  lemma {:induction false} HiddenIsMissed(s: seq<KV>, a: KV, b: KV)
    requires Sorted(s) && a in s && b in s && Hides(a.key, b.key)
    ensures (a.key != [] && a.key !in RootScan(s)) || Segment(b.key) !in RootScan(s)
    decreases |s|
  {
    HiddenSegmentDiffers(a.key, b.key);
    var x := s[0].key;
    var r := Segment(x);
    var rest := Filter(s, NotBefore(Jump(r)));
    KeyBeforeJump(x);
    HeadIsLeast(s, a);
    if a in rest {
      AtMostLess(Jump(r), a.key, b.key);
      LessTotal(Jump(r), b.key);
      FilterSorted(s, NotBefore(Jump(r)));
      HiddenIsMissed(rest, a, b);
      HeadSegmentIsEarlier(x, a.key);
      HeadSegmentIsEarlier(x, b.key);
    } else if a.key == x {
      NotFoundLater(s, r, b.key);
    } else {
      PassedOver(s, a.key);
    }
  }

  /** A key past the jump has a different first segment from the key read. */
  lemma HeadSegmentIsEarlier(x: Key, k: Key)
    requires AtMost(Jump(Segment(x)), k)
    ensures Segment(k) != Segment(x)
  {
    FirstSegment(x);
    JumpOrdersSegments(Segment(x), k);
    LessIrreflexive(Segment(x) + [SLASH]);
  }

  /** A key without a slash that the jump passes over is missed. */
  lemma {:induction false} PassedOver(s: seq<KV>, a: Key)
    requires s != [] && SLASH !in a && Less(s[0].key, a) && Less(a, Jump(Segment(s[0].key)))
    ensures a != [] && a !in RootScan(s)
  {
    var x := s[0].key;
    var r := Segment(x);
    LessTotal(x, a);
    assert SLASH !in x by {
      if SLASH in x {
        UnderSlashHasSlash(x, a);
      }
    }
    FirstSegment(x);
    FirstSegment(a);
    NotFoundLater(s, r, a);
    LessIrreflexive(a);
  }

  lemma UnderSlashHasSlash(x: Key, a: Key)
    requires SLASH in x && AtMost(x, a) && Less(a, Jump(Segment(x)))
    ensures SLASH in a
  {
    var r := Segment(x);
    FirstSegment(x);
    KeyBeforeJump(x);
    BelowSegment(r, x);
    AtMostTransitive(r + [SLASH], x, a);
    BelowSegment(r, a);
    assert (r + [SLASH])[|r|] == a[|r|];
  }

  /** The skip-scan finds every nonempty first segment exactly when no key without a slash hides another. */
  lemma CompleteIffNothingHidden(s: seq<KV>)
    requires Sorted(s)
    ensures Complete(s) <==> NothingHidden(s)
  {
    if NothingHidden(s) {
      forall e | e in s && Segment(e.key) != []
        ensures Segment(e.key) in RootScan(s)
      {
        CompleteIfNothingHidden(s, e);
      }
    } else {
      var a, b :| a in s && b in s && Hides(a.key, b.key);
      HiddenIsMissed(s, a, b);
      HiddenSegmentDiffers(a.key, b.key);
    }
  }

  /** In particular when every key has a slash, as the store's layout intends. */
  lemma SlashedKeysAreComplete(s: seq<KV>)
    requires Sorted(s) && forall e | e in s :: SLASH in e.key
    ensures Complete(s)
  {
    CompleteIffNothingHidden(s);
  }

  /** Two roots, "a" and "a!", of which the scan finds only the first: its jump to "a0" passes "a!". */
  lemma SecondRootIsMissed(v: Value, w: Value)
    ensures var s := [KV([97], v), KV([97, 33], w)];
      && Sorted(s) && RootScan(s) == [[97]]
      && Segment([97, 33]) == [97, 33] && !Complete(s)
  {
    var a, b: Key := [97], [97, 33];
    var s := [KV(a, v), KV(b, w)];
    FirstSegment(a);
    FirstSegment(b);
    assert b[1..] == [33] && a[1..] == [] && Jump(a) == [97, 48] && Jump(a)[1..] == [48];
    assert Less(a, b) && Less(a, Jump(a)) && Less(b, Jump(a));
    LessTotal(a, Jump(a));
    LessTotal(b, Jump(a));
    FilterNone(s, NotBefore(Jump(a)));
    assert s[1] in s;
  }
}
