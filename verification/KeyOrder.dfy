// Byte keys in etcd's lexicographic order.
module KeyOrder {
  import opened Prelude

  newtype Byte = x: int | 0 <= x < 256
  type Key = seq<Byte>

  /** a sorts strictly before b. */
  predicate Less(a: Key, b: Key) {
    if b == [] then false
    else if a == [] then true
    else if a[0] != b[0] then a[0] < b[0]
    else Less(a[1..], b[1..])
  }

  predicate AtMost(a: Key, b: Key) {
    !Less(b, a)
  }

  predicate HasPrefix(k: Key, p: Key) {
    p <= k
  }

  lemma {:induction false} LessIrreflexive(a: Key)
    ensures !Less(a, a)
  {
    if a != [] {
      LessIrreflexive(a[1..]);
    }
  }

  lemma {:induction false} LessTransitive(a: Key, b: Key, c: Key)
    requires Less(a, b) && Less(b, c)
    ensures Less(a, c)
  {
    if a != [] && a[0] == b[0] && b[0] == c[0] {
      LessTransitive(a[1..], b[1..], c[1..]);
    }
  }

  lemma {:induction false} LessTotal(a: Key, b: Key)
    ensures a == b || Less(a, b) || Less(b, a)
    ensures !(Less(a, b) && Less(b, a))
  {
    if a != [] && b != [] && a[0] == b[0] {
      LessTotal(a[1..], b[1..]);
      assert a == [a[0]] + a[1..] && b == [b[0]] + b[1..];
    }
  }

  lemma LessAtMost(a: Key, b: Key, c: Key)
    requires Less(a, b) && AtMost(b, c)
    ensures Less(a, c)
  {
    LessTotal(b, c);
    if Less(b, c) {
      LessTransitive(a, b, c);
    }
  }

  lemma AtMostLess(a: Key, b: Key, c: Key)
    requires AtMost(a, b) && Less(b, c)
    ensures Less(a, c)
  {
  }

  lemma AtMostTransitive(a: Key, b: Key, c: Key)
    requires AtMost(a, b) && AtMost(b, c)
    ensures AtMost(a, c)
  {
    if Less(c, a) {
      LessAtMost(c, a, b);
      LessTotal(b, c);
    }
  }

  /** Appending a zero byte gives the very next key: nothing lies strictly between. */
  lemma {:induction false} NextKey(a: Key, b: Key)
    ensures Less(a, b) <==> AtMost(a + [0], b)
  {
    if a == [] {
      var zero: Key := a + [0];
      assert zero[1..] == [];
      assert !Less(b, zero) <==> b != [] by {
        if b != [] && b[0] == 0 {
          assert !Less(b[1..], zero[1..]);
        }
      }
    } else if b != [] && a[0] == b[0] {
      assert (a + [0])[1..] == a[1..] + [0];
      NextKey(a[1..], b[1..]);
    }
  }

  /** The end of the key range with prefix p: its last byte below 255 raised by one. */
  function GetPrefixRangeEnd(p: Key): Option<Key> {
    if p == [] then None
    else
      var n := |p| - 1;
      if p[n] < 255 then Some(p[..n] + [p[n] + 1]) else GetPrefixRangeEnd(p[..n])
  }

  lemma {:induction false} RangeEndByHead(h: Byte, t: Key)
    ensures GetPrefixRangeEnd([h] + t) ==
            match GetPrefixRangeEnd(t)
            case Some(e) => Some([h] + e)
            case None => if h < 255 then Some([h + 1]) else None
  {
    var p := [h] + t;
    var n := |p| - 1;
    if t == [] {
      assert p[..0] == [];
      if h < 255 {
        assert p[..n] + [h + 1] == [h + 1];
      }
    } else {
      assert p[..n] == [h] + t[..|t| - 1];
      if t[|t| - 1] == 255 {
        RangeEndByHead(h, t[..|t| - 1]);
      } else {
        assert p[..n] + [p[n] + 1] == [h] + (t[..|t| - 1] + [t[|t| - 1] + 1]);
      }
    }
  }

  predicate BeforeEnd(k: Key, end: Option<Key>) {
    end.None? || Less(k, end.value)
  }

  /** The keys with prefix p are exactly those from p up to its range end. */
  lemma {:induction false} PrefixIsRange(k: Key, p: Key)
    ensures HasPrefix(k, p) <==> AtMost(p, k) && BeforeEnd(k, GetPrefixRangeEnd(p))
  {
    if p != [] && k != [] {
      PrefixIsRange(k[1..], p[1..]);
      RangeEndByHead(p[0], p[1..]);
      assert p == [p[0]] + p[1..] && k == [k[0]] + k[1..];
      var end := GetPrefixRangeEnd(p[1..]);
      if end.Some? {
        assert ([p[0]] + end.value)[1..] == end.value;
      } else if p[0] < 255 {
        var bump: Key := [p[0] + 1];
        assert bump[1..] == [];
        assert !Less(k[1..], bump[1..]);
        assert GetPrefixRangeEnd(p) == Some(bump);
      }
    }
  }
}
