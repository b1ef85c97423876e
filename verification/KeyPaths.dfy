// Keys as slash-separated paths.
module KeyPaths {
  import opened KeyOrder

  const SLASH: Byte := 47
  const ZERO_CHAR: Byte := 48

  /** The segments between slashes; one more than there are slashes. */
  function Split(k: Key): (parts: seq<Key>)
    ensures |parts| > 0
  {
    if k == [] then [[]]
    else if k[0] == SLASH then [[]] + Split(k[1..])
    else
      var rest := Split(k[1..]);
      [[k[0]] + rest[0]] + rest[1..]
  }

  function Segment(k: Key): Key {
    Split(k)[0]
  }

  /** A key is its first segment, either alone or followed by a slash. */
  lemma {:induction false} FirstSegment(k: Key)
    ensures SLASH !in Segment(k)
    ensures if SLASH in k then Segment(k) + [SLASH] <= k else Segment(k) == k
  {
    if k != [] && k[0] != SLASH {
      FirstSegment(k[1..]);
      assert k == [k[0]] + k[1..];
    } else if k != [] {
      assert k == [SLASH] + k[1..];
    }
  }

  lemma {:induction false} SegmentOf(r: Key, rest: Key)
    requires SLASH !in r
    ensures Segment(r + [SLASH] + rest) == r && Segment(r) == r
  {
    if r == [] {
      assert r + [SLASH] + rest == [SLASH] + rest;
    } else {
      SegmentOf(r[1..], rest);
      assert (r + [SLASH] + rest)[1..] == r[1..] + [SLASH] + rest;
    }
  }

  lemma {:induction false} SplitWhole(r: Key)
    requires SLASH !in r
    ensures Split(r) == [r]
  {
    if r != [] {
      SplitWhole(r[1..]);
      assert r == [r[0]] + r[1..];
    }
  }

  lemma {:induction false} SplitAtSlash(r: Key, rest: Key)
    requires SLASH !in r
    ensures Split(r + [SLASH] + rest) == [r] + Split(rest)
  {
    var k := r + [SLASH] + rest;
    if r == [] {
      assert k[1..] == rest;
    } else {
      SplitAtSlash(r[1..], rest);
      assert k[1..] == r[1..] + [SLASH] + rest && r == [r[0]] + r[1..];
      assert ([r[1..]] + Split(rest))[1..] == Split(rest);
    }
  }

  lemma SplitInTwo(r: Key, q: Key)
    requires SLASH !in r && SLASH !in q
    ensures Split(r + [SLASH] + q) == [r, q]
  {
    SplitAtSlash(r, q);
    SplitWhole(q);
  }

  /** Places lo to hi of k hold no slash, and stand between slashes or at the ends. */
  predicate Between(k: Key, lo: nat, hi: nat) {
    && lo <= hi <= |k| && (forall i | lo <= i < hi :: k[i] != 47)
    && (lo == 0 || k[lo - 1] == 47) && (hi == |k| || k[hi] == 47)
  }

  ghost predicate IsSegment(part: Key, k: Key) {
    exists lo: nat, hi: nat :: Between(k, lo, hi) && k[lo..hi] == part
  }

  lemma BetweenFromStart(k: Key, n: nat, lo: nat, hi: nat)
    requires n <= |k| && (forall i | 0 <= i < n :: k[i] != 47) && (n == |k| || k[n] == 47)
    ensures Between(k, 0, n)
    ensures Between(k, lo, hi) && lo <= n ==> lo == 0 && hi == n
  {
  }

  lemma BetweenShifted(k: Key, n: nat, lo: nat, hi: nat)
    requires 0 < n <= |k| && k[n - 1] == 47 && lo <= hi <= |k| - n
    ensures Between(k[n..], lo, hi) <==> Between(k, n + lo, n + hi)
    ensures k[n..][lo..hi] == k[n + lo..n + hi]
  {
  }

  lemma WholeIsSegment(k: Key, part: Key)
    requires SLASH !in k
    ensures IsSegment(part, k) <==> part == k
  {
    BetweenFromStart(k, |k|, 0, |k|);
    assert k[0..|k|] == k;
    if IsSegment(part, k) {
      var lo: nat, hi: nat :| Between(k, lo, hi) && k[lo..hi] == part;
      BetweenFromStart(k, |k|, lo, hi);
    }
  }

  lemma SegmentAfterSlash(k: Key, n: nat, part: Key)
    requires 0 < n <= |k| && (forall i | 0 <= i < n - 1 :: k[i] != 47) && k[n - 1] == 47
    ensures IsSegment(part, k) <==> part == k[..n - 1] || IsSegment(part, k[n..])
  {
    BetweenFromStart(k, n - 1, 0, 0);
    assert k[0..n - 1] == k[..n - 1];
    if IsSegment(part, k[n..]) {
      var lo: nat, hi: nat :| Between(k[n..], lo, hi) && k[n..][lo..hi] == part;
      BetweenShifted(k, n, lo, hi);
    }
    if IsSegment(part, k) {
      var lo: nat, hi: nat :| Between(k, lo, hi) && k[lo..hi] == part;
      BetweenFromStart(k, n - 1, lo, hi);
      if lo >= n {
        BetweenShifted(k, n, lo - n, hi - n);
      }
    }
  }

  /** Splitting yields exactly the segments of a key. */
  lemma {:induction false} SplitMeans(k: Key, part: Key)
    ensures part in Split(k) <==> IsSegment(part, k)
    decreases |k|
  {
    if SLASH !in k {
      SplitWhole(k);
      WholeIsSegment(k, part);
    } else {
      FirstSegment(k);
      var r := Segment(k);
      var n := |r| + 1;
      assert k == r + [SLASH] + k[n..] && k[..|r|] == r;
      SplitAtSlash(r, k[n..]);
      SegmentAfterSlash(k, n, part);
      SplitMeans(k[n..], part);
    }
  }

  function Bytes(s: string): Key {
    seq(|s|, i requires 0 <= i < |s| => ((s[i] as int) % 256) as Byte)
  }

  function Join(a: Key, b: Key): Key {
    a + [SLASH] + b
  }
}
