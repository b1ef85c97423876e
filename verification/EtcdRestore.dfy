// Restoring the etcd part of a backup: the reader's decoding of the bytes, the effect of the saves
// on the store, and the round trip with the backup (states/etcd_restore.go, states/kv/kv.go).
module EtcdRestore {
  import opened Prelude
  import opened KeyOrder
  import opened MetaStore
  import opened PrefixWalk
  import opened Framing
  import opened Loops
  import opened EtcdBackup
  import Machine = RestoreMachine
  import Report = RestoreReport

  /** One round of the reader goroutine: an entry (None if it does not decode), or the end. */
  datatype Round = Item(entry: Option<KV>, rest: Bytes) | End(clean: bool, rest: Bytes)

  function ReadEntry(codec: Codec<KV>, s: Bytes): (r: Round)
    ensures r.Item? ==> |r.rest| < |s|
  {
    var header := ReadFullOf(s, 8);
    if header.0.Failed? then End(header.0.error == Eof, header.1)
    else
      var nextBytes := FromLittleEndian(header.0.data);
      if nextBytes == 0 then End(true, header.1)
      else
        var body := ReadFullOf(header.1, nextBytes);
        if body.0.Failed? then End(false, body.1)
        else Item(codec.decode(body.0.data), body.1)
  }

  datatype Parsed = Parsed(items: seq<Option<KV>>, clean: bool, rest: Bytes)

  function ParsePart(codec: Codec<KV>, s: Bytes): Parsed
    decreases |s|
  {
    match ReadEntry(codec, s)
    case End(clean, rest) => Parsed([], clean, rest)
    case Item(entry, rest) =>
      var later := ParsePart(codec, rest);
      Parsed([entry] + later.items, later.clean, later.rest)
  }

  /** One round of the reader goroutine, reading step by step. */
  method ReadNext(rd: Reader, codec: Codec<KV>) returns (r: Round)
    modifies rd
    ensures r == ReadEntry(codec, old(rd.rest)) && r.rest == rd.rest
  {
    var header := rd.ReadFull(8);
    if header.Failed? {
      return End(header.error == Eof, rd.rest);
    }
    var nextBytes := FromLittleEndian(header.data);
    if nextBytes == 0 {
      return End(true, rd.rest);
    }
    var body := rd.ReadFull(nextBytes);
    if body.Failed? {
      return End(false, rd.rest);
    }
    return Item(codec.decode(body.data), rd.rest);
  }

  /** The items read so far, followed by what the rest parses to, are the whole part. */
  ghost predicate ReadSoFar(whole: Parsed, items: seq<Option<KV>>, later: Parsed) {
    whole.items == items + later.items && whole.clean == later.clean && whole.rest == later.rest
  }

  lemma ReadOneMore(whole: Parsed, items: seq<Option<KV>>, item: Option<KV>, later: Parsed)
    requires ReadSoFar(whole, items, Parsed([item] + later.items, later.clean, later.rest))
    ensures ReadSoFar(whole, items + [item], later)
  {
  }

  method ReadPart(rd: Reader, codec: Codec<KV>) returns (items: seq<Option<KV>>, clean: bool)
    modifies rd
    ensures Parsed(items, clean, rd.rest) == ParsePart(codec, old(rd.rest))
    ensures forall kvs: seq<KV>, n: nat, k: nat
              | codec.FaithfulOn(kvs) && CutAt(codec, kvs, n, k) && old(rd.rest) == PartOf(codec, kvs)[..n] ::
              && items == Decoded(kvs[..k]) && rd.rest == []
              && (clean <==> n == |EntryFrames(codec, kvs[..k])| || n == |PartOf(codec, kvs)|)
  {
    forall kvs: seq<KV>, n: nat, k: nat
      | codec.FaithfulOn(kvs) && CutAt(codec, kvs, n, k) && rd.rest == PartOf(codec, kvs)[..n] {
      CutPart(codec, kvs, n, k);
    }
    items := [];
    ghost var whole := ParsePart(codec, rd.rest);
    while true
      invariant ReadSoFar(whole, items, ParsePart(codec, rd.rest))
      decreases |rd.rest|
    {
      var r := ReadNext(rd, codec);
      if r.End? {
        Regroup(items, [], []);
        return items, r.clean;
      }
      ReadOneMore(whole, items, r.entry, ParsePart(codec, rd.rest));
      items := items + [r.entry];
    }
  }

  function Decoded(kvs: seq<KV>): seq<Option<KV>> {
    seq(|kvs|, i requires 0 <= i < |kvs| => Some(kvs[i]))
  }

  /** Any frame that is not empty is one item, and one that does not decode is passed over: reading goes on. */
  lemma FrameIsOneItem(codec: Codec<KV>, data: Bytes, tail: Bytes)
    requires 0 < |data| < TWO_64
    ensures var later := ParsePart(codec, tail);
      ParsePart(codec, Frame(data) + tail) == Parsed([codec.decode(data)] + later.items, later.clean, later.rest)
    ensures codec.decode(data).None? ==>
              Machine.Entries(ParsePart(codec, Frame(data) + tail).items) == Machine.Entries(ParsePart(codec, tail).items)
  {
    FrameRoundTrip(data, tail);
    var items := [codec.decode(data)] + ParsePart(codec, tail).items;
    assert items[1..] == ParsePart(codec, tail).items;
  }

  lemma EntryReadsBack(codec: Codec<KV>, e: KV, tail: Bytes)
    requires codec.ReadsBack(e)
    ensures ReadEntry(codec, Frame(codec.encode(e)) + tail) == Item(Some(e), tail)
  {
    FrameRoundTrip(codec.encode(e), tail);
  }

  lemma StopperEnds(codec: Codec<KV>, tail: Bytes)
    ensures ReadEntry(codec, Frame([]) + tail) == End(true, tail)
  {
    LengthRoundTrip(0);
    Regroup(LittleEndian(0, 8), [], tail);
    ReadsFront(LittleEndian(0, 8), tail);
  }

  lemma FramesByHead(codec: Codec<KV>, e: KV, kvs: seq<KV>)
    ensures EntryFrames(codec, [e] + kvs) == Frame(codec.encode(e)) + EntryFrames(codec, kvs)
  {
    EntryFramesAppend(codec, [e], kvs);
    assert [e][..0] == [] && EntryFrames(codec, [e][..0]) == [];
    Regroup([], Frame(codec.encode(e)), []);
  }

  lemma DecodedByHead(e: KV, kvs: seq<KV>)
    ensures Decoded([e] + kvs) == [Some(e)] + Decoded(kvs)
  {
  }

  /** The written frames and stopper decode to exactly the written entries, in order; since every
      entry encodes to a nonempty record the stopper is unambiguous, and what follows is untouched. */
  lemma {:induction false} PartRoundTrip(codec: Codec<KV>, kvs: seq<KV>, tail: Bytes)
    requires codec.FaithfulOn(kvs)
    ensures ParsePart(codec, EntryFrames(codec, kvs) + Frame([]) + tail) == Parsed(Decoded(kvs), true, tail)
  {
    if kvs == [] {
      Regroup(EntryFrames(codec, kvs), Frame([]), tail);
      StopperEnds(codec, tail);
    } else {
      var e, later := kvs[0], kvs[1..];
      var rest := EntryFrames(codec, later) + Frame([]) + tail;
      assert kvs == [e] + later;
      FramesByHead(codec, e, later);
      RegroupFour(Frame(codec.encode(e)), EntryFrames(codec, later), Frame([]), tail);
      EntryReadsBack(codec, e, rest);
      PartRoundTrip(codec, later, tail);
      DecodedByHead(e, later);
    }
  }

  // ---------- a part cut short ----------

  /** The bytes of a whole part: its entries' frames and the stopper. */
  function PartOf(codec: Codec<KV>, kvs: seq<KV>): Bytes {
    EntryFrames(codec, kvs) + Frame([])
  }

  /** Cut after n bytes, the part holds k whole entries. */
  ghost predicate CutAt(codec: Codec<KV>, kvs: seq<KV>, n: nat, k: nat) {
    && k <= |kvs| && |EntryFrames(codec, kvs[..k])| <= n <= |PartOf(codec, kvs)|
    && (k < |kvs| ==> n < |EntryFrames(codec, kvs[..k + 1])|)
  }

  lemma CutEntry(codec: Codec<KV>, e: KV, n: nat)
    requires codec.ReadsBack(e) && n < |Frame(codec.encode(e))|
    ensures ReadEntry(codec, Frame(codec.encode(e))[..n]) == End(n == 0, [])
  {
    var data := codec.encode(e);
    var header := LittleEndian(|data|, 8);
    LengthRoundTrip(|data|);
    if n < 8 {
      assert Frame(data)[..n] == header[..n];
      ReadsShort(header, n);
    } else {
      assert Frame(data)[..n] == header + data[..n - 8];
      ReadsFront(header, data[..n - 8]);
      ReadsShort(data, n - 8);
    }
  }

  lemma CutStopper(codec: Codec<KV>, n: nat)
    requires n <= 8
    ensures ReadEntry(codec, Frame([])[..n]) == End(n == 0 || n == 8, [])
  {
    FrameLength([]);
    if n < 8 {
      assert Frame([])[..n] == LittleEndian(0, 8)[..n];
      ReadsShort(LittleEndian(0, 8), n);
    } else {
      assert Frame([])[..n] == Frame([]) + [];
      StopperEnds(codec, []);
    }
  }

  lemma PartByHead(codec: Codec<KV>, e: KV, kvs: seq<KV>)
    ensures PartOf(codec, [e] + kvs) == Frame(codec.encode(e)) + PartOf(codec, kvs)
  {
    FramesByHead(codec, e, kvs);
    Regroup(Frame(codec.encode(e)), EntryFrames(codec, kvs), Frame([]));
  }

  lemma CutBehind(codec: Codec<KV>, e: KV, kvs: seq<KV>, n: nat, k: nat)
    requires CutAt(codec, [e] + kvs, n, k) && n >= |Frame(codec.encode(e))|
    ensures k > 0 && CutAt(codec, kvs, n - |Frame(codec.encode(e))|, k - 1)
    ensures |EntryFrames(codec, ([e] + kvs)[..k])| == |Frame(codec.encode(e))| + |EntryFrames(codec, kvs[..k - 1])|
  {
    PartByHead(codec, e, kvs);
    var all := [e] + kvs;
    assert all[..1] == [e] + [];
    FramesByHead(codec, e, []);
    assert k > 0;
    assert all[..k] == [e] + kvs[..k - 1];
    FramesByHead(codec, e, kvs[..k - 1]);
    if k < |all| {
      assert all[..k + 1] == [e] + kvs[..k];
      FramesByHead(codec, e, kvs[..k]);
    }
  }

  lemma ReadsFirst(codec: Codec<KV>, e: KV, kvs: seq<KV>, n: nat)
    requires codec.ReadsBack(e) && |Frame(codec.encode(e))| <= n <= |PartOf(codec, [e] + kvs)|
    ensures n - |Frame(codec.encode(e))| <= |PartOf(codec, kvs)|
    ensures var later := ParsePart(codec, PartOf(codec, kvs)[..n - |Frame(codec.encode(e))|]);
      ParsePart(codec, PartOf(codec, [e] + kvs)[..n]) == Parsed([Some(e)] + later.items, later.clean, later.rest)
  {
    var f := Frame(codec.encode(e));
    PartByHead(codec, e, kvs);
    assert (f + PartOf(codec, kvs))[..n] == f + PartOf(codec, kvs)[..n - |f|];
    EntryReadsBack(codec, e, PartOf(codec, kvs)[..n - |f|]);
  }

  /** A part cut after n bytes, k whole entries before the cut, reads as these entries, and as properly
      ended exactly if the cut falls between two frames or after the stopper. */
  ghost predicate ReadsUpToCut(codec: Codec<KV>, kvs: seq<KV>, n: nat, k: nat)
    requires k <= |kvs| && n <= |PartOf(codec, kvs)|
  {
    ParsePart(codec, PartOf(codec, kvs)[..n]) ==
    Parsed(Decoded(kvs[..k]), n == |EntryFrames(codec, kvs[..k])| || n == |PartOf(codec, kvs)|, [])
  }

  lemma CutLater(codec: Codec<KV>, e: KV, kvs: seq<KV>, n: nat, k: nat, m: nat)
    requires codec.ReadsBack(e) && CutAt(codec, [e] + kvs, n, k) && n == |Frame(codec.encode(e))| + m
    requires k > 0 && CutAt(codec, kvs, m, k - 1) && ReadsUpToCut(codec, kvs, m, k - 1)
    ensures ReadsUpToCut(codec, [e] + kvs, n, k)
  {
    PartByHead(codec, e, kvs);
    ReadsFirst(codec, e, kvs, n);
    DecodedByHead(e, kvs[..k - 1]);
    assert ([e] + kvs)[..k] == [e] + kvs[..k - 1];
    FramesByHead(codec, e, kvs[..k - 1]);
  }

  lemma CutEmpty(codec: Codec<KV>, n: nat)
    requires n <= |PartOf(codec, [])|
    ensures ReadsUpToCut(codec, [], n, 0)
  {
    FrameLength([]);
    assert PartOf(codec, []) == Frame([]);
    CutStopper(codec, n);
  }

  lemma {:induction false} CutPart(codec: Codec<KV>, kvs: seq<KV>, n: nat, k: nat)
    requires codec.FaithfulOn(kvs) && CutAt(codec, kvs, n, k)
    ensures ReadsUpToCut(codec, kvs, n, k)
    decreases |kvs|, 1
  {
    if kvs == [] {
      CutEmpty(codec, n);
    } else {
      assert kvs == [kvs[0]] + kvs[1..];
      CutNonempty(codec, kvs[0], kvs[1..], n, k);
    }
  }

  lemma {:induction false} CutNonempty(codec: Codec<KV>, e: KV, later: seq<KV>, n: nat, k: nat)
    requires codec.ReadsBack(e) && codec.FaithfulOn(later) && CutAt(codec, [e] + later, n, k)
    ensures ReadsUpToCut(codec, [e] + later, n, k)
    decreases |later| + 1, 0
  {
    var f := |Frame(codec.encode(e))|;
    if n < f {
      CutInFirst(codec, e, later, n, k);
    } else {
      CutBehind(codec, e, later, n, k);
      var m := n - f;
      CutPart(codec, later, m, k - 1);
      CutLater(codec, e, later, n, k, m);
    }
  }

  lemma FirstIsLonger(codec: Codec<KV>, e: KV, kvs: seq<KV>, k: nat)
    requires k <= |kvs| + 1
    ensures if k == 0 then EntryFrames(codec, ([e] + kvs)[..k]) == []
            else |EntryFrames(codec, ([e] + kvs)[..k])| >= |Frame(codec.encode(e))|
  {
    if k > 0 {
      assert ([e] + kvs)[..k] == [e] + kvs[..k - 1];
      FramesByHead(codec, e, kvs[..k - 1]);
    }
  }

  lemma CutInFirst(codec: Codec<KV>, e: KV, kvs: seq<KV>, n: nat, k: nat)
    requires codec.ReadsBack(e) && CutAt(codec, [e] + kvs, n, k) && n < |Frame(codec.encode(e))|
    ensures ReadsUpToCut(codec, [e] + kvs, n, k)
  {
    PartByHead(codec, e, kvs);
    FirstIsLonger(codec, e, kvs, k);
    CutEntry(codec, e, n);
    assert PartOf(codec, [e] + kvs)[..n] == Frame(codec.encode(e))[..n];
  }

  /** Some number of whole entries precedes every cut. */
  lemma {:induction false} CutSomewhere(codec: Codec<KV>, kvs: seq<KV>, n: nat, j: nat) returns (k: nat)
    requires n <= |PartOf(codec, kvs)| && j <= |kvs| && (j < |kvs| ==> n < |EntryFrames(codec, kvs[..j + 1])|)
    ensures k <= j && CutAt(codec, kvs, n, k)
  {
    k := j;
    if |EntryFrames(codec, kvs[..j])| > n {
      assert kvs[..0] == [];
      k := CutSomewhere(codec, kvs, n, j - 1);
    }
  }

  // ---------- the store ----------

  type StoreMap = map<Key, Value>

  /** The store after the saved entries, in the order they were saved. */
  function SavedInto(store: StoreMap, saved: seq<KV>): StoreMap {
    if saved == [] then store
    else SavedInto(store, saved[..|saved| - 1])[saved[|saved| - 1].key := saved[|saved| - 1].value]
  }

  ghost predicate DistinctKeys(kvs: multiset<KV>) {
    forall a: KV, b: KV | a in kvs && b in kvs && a.key == b.key :: a == b
  }

  /** In whatever order entries with distinct keys are saved, each key ends with its own value and
      every other key is as it was. */
  lemma {:induction false} SavesOverwrite(store: StoreMap, saved: seq<KV>, k: Key)
    requires DistinctKeys(multiset(saved))
    ensures (exists e: KV :: e in saved && e.key == k) ==>
              k in SavedInto(store, saved) && KV(k, SavedInto(store, saved)[k]) in saved
    ensures !(exists e: KV :: e in saved && e.key == k) ==>
              (k in SavedInto(store, saved) <==> k in store) &&
              (k in store ==> SavedInto(store, saved)[k] == store[k])
  {
    if saved != [] {
      var front, last := saved[..|saved| - 1], saved[|saved| - 1];
      assert saved == front + [last];
      forall a: KV, b: KV | a in multiset(front) && b in multiset(front) && a.key == b.key
        ensures a == b
      {
        assert a in multiset(saved) && b in multiset(saved);
      }
      SavesOverwrite(store, front, k);
      assert last in saved;
      if last.key != k && exists e: KV :: e in saved && e.key == k {
        var e :| e in saved && e.key == k;
        assert e in front;
      }
    }
  }

  /** The entries of a store as a map. */
  ghost predicate IsMapOf(m: StoreMap, kvs: seq<KV>) {
    && (forall k :: k in m <==> exists e: KV :: e in kvs && e.key == k)
    && (forall e | e in kvs :: e.key in m && m[e.key] == e.value)
  }

  /** The store that results: the initial one overwritten by exactly the given entries. */
  ghost predicate Overwritten(before: StoreMap, kvs: seq<KV>, after: StoreMap) {
    && (forall e | e in kvs :: e.key in after && after[e.key] == e.value)
    && (forall k | (forall e | e in kvs :: e.key != k) :: (k in after <==> k in before) && (k in before ==> after[k] == before[k]))
  }

  lemma AnyOrderOverwrites(before: StoreMap, kvs: seq<KV>, saved: seq<KV>)
    requires DistinctKeys(multiset(kvs)) && multiset(saved) == multiset(kvs)
    ensures Overwritten(before, kvs, SavedInto(before, saved))
  {
    var after := SavedInto(before, saved);
    assert forall e: KV :: e in saved <==> e in multiset(saved);
    assert forall e: KV :: e in kvs <==> e in multiset(kvs);
    forall e | e in kvs
      ensures e.key in after && after[e.key] == e.value
    {
      SavesOverwrite(before, saved, e.key);
      assert e in saved;
      var f := KV(e.key, after[e.key]);
      assert f in multiset(kvs) && f.key == e.key;
    }
    forall k | forall e | e in kvs :: e.key != k
      ensures (k in after <==> k in before) && (k in before ==> after[k] == before[k])
    {
      SavesOverwrite(before, saved, k);
    }
  }

  /** Concurrent restore: whatever the interleaving of the reader, the channel and the workers, a
      complete run in which saves succeed and no worker panics leaves the initial store overwritten by
      exactly the part's entries. */
  lemma RestoreOverwrites(c: Machine.Config, items: seq<Option<KV>>, run: seq<Machine.Step>, before: StoreMap)
    requires (c.cnt != 0 || Machine.Entries(items) == []) && Machine.Complete(c, Machine.Init(items), run) && Machine.AllSaved(run)
    requires DistinctKeys(multiset(Machine.Entries(items)))
    ensures var t := Machine.After(c, Machine.Init(items), run);
      t.crash.NilError? || Overwritten(before, Machine.Entries(items), SavedInto(before, t.saved))
  {
    Machine.EveryEntryOnce(c, items, run);
    var t := Machine.After(c, Machine.Init(items), run);
    if !t.crash.NilError? {
      AnyOrderOverwrites(before, Machine.Entries(items), t.saved);
    }
  }

  lemma {:induction false} EntriesOfDecoded(kvs: seq<KV>)
    ensures Machine.Entries(Decoded(kvs)) == kvs
  {
    if kvs != [] {
      EntriesOfDecoded(kvs[1..]);
      assert Decoded(kvs)[1..] == Decoded(kvs[1..]);
      assert kvs == [kvs[0]] + kvs[1..];
    }
  }

  lemma StoredKeysDistinct(s: seq<KV>, kvs: seq<KV>)
    requires Sorted(s) && forall e | e in kvs :: e in s
    ensures DistinctKeys(multiset(kvs))
  {
    forall a, b | a in multiset(kvs) && b in multiset(kvs) && a.key == b.key
      ensures a == b
    {
      assert a in kvs && b in kvs;
      KeysAreDistinct(s, a, b);
    }
  }

  lemma OverwrittenEmptyIsMap(kvs: seq<KV>, m: StoreMap)
    requires Overwritten(map[], kvs, m)
    ensures IsMapOf(m, kvs)
  {
    forall k
      ensures k in m <==> exists e: KV :: e in kvs && e.key == k
    {
      if exists e: KV :: e in kvs && e.key == k {
        var e :| e in kvs && e.key == k;
        assert e.key in m;
      }
    }
  }

  lemma RestoreIntoEmpty(c: Machine.Config, kvs: seq<KV>, run: seq<Machine.Step>)
    requires c.clean && (c.cnt != 0 || kvs == []) && DistinctKeys(multiset(kvs))
    requires Machine.Complete(c, Machine.Init(Decoded(kvs)), run) && Machine.AllSaved(run)
    ensures var t := Machine.After(c, Machine.Init(Decoded(kvs)), run);
      t.main == Machine.Returned(true) && IsMapOf(SavedInto(map[], t.saved), kvs)
  {
    EntriesOfDecoded(kvs);
    Report.CleanAndSavedIsSuccess(c, Decoded(kvs), run);
    RestoreOverwrites(c, Decoded(kvs), run, map[]);
    OverwrittenEmptyIsMap(kvs, SavedInto(map[], Machine.After(c, Machine.Init(Decoded(kvs)), run).saved));
  }

  /** Backup then restore: with nothing stored after the prefix range, and a codec that reads back the
      stored entries, the backup ends, its bytes decode to those entries, and any complete restore of
      them into an empty store succeeds and yields exactly the map of the entries under the prefix. */
  lemma BackupRestoreRoundTrip(job: Job, tail: Bytes, run: seq<Machine.Step>)
    requires Sorted(job.store) && NothingAfter(job) && job.codec.FaithfulOn(InStore(job))
    requires job.cnt == |InStore(job)|
    requires var c := Machine.Config(job.cnt, true);
      Machine.Complete(c, Machine.Init(Decoded(InStore(job))), run) && Machine.AllSaved(run)
    ensures BackupFor(job, |InStore(job)| + 1) == Stop(Done(FullBackup(job)))
    ensures ParsePart(job.codec, FullBackup(job) + tail) == Parsed(Decoded(InStore(job)), true, tail)
    ensures var t := Machine.After(Machine.Config(job.cnt, true), Machine.Init(Decoded(InStore(job))), run);
      t.main == Machine.Returned(true) && IsMapOf(SavedInto(map[], t.saved), InStore(job))
  {
    BackupEndsIffNothingAfter(job);
    PartRoundTrip(job.codec, InStore(job), tail);
    StoredKeysDistinct(job.store, InStore(job));
    RestoreIntoEmpty(Machine.Config(job.cnt, true), InStore(job), run);
  }

  /** A part cut inside a frame, behind at least one whole entry, is not properly ended, and yet some run
      of its restore reports success. */
  lemma CutPartCanPass(codec: Codec<KV>, kvs: seq<KV>, n: nat, k: nat, cnt: int) returns (run: seq<Machine.Step>)
    requires codec.FaithfulOn(kvs) && CutAt(codec, kvs, n, k) && k > 0 && cnt != 0
    requires n != |EntryFrames(codec, kvs[..k])| && n != |PartOf(codec, kvs)|
    ensures var part := ParsePart(codec, PartOf(codec, kvs)[..n]);
      var c := Machine.Config(cnt, part.clean);
      && !part.clean && Machine.Complete(c, Machine.Init(part.items), run)
      && Machine.After(c, Machine.Init(part.items), run).main == Machine.Returned(true)
  {
    CutPart(codec, kvs, n, k);
    EntriesOfDecoded(kvs[..k]);
    run := Report.LateSaveHidesTruncation(Machine.Config(cnt, false), Decoded(kvs[..k]));
  }

  // ---------- the hypotheses can be met ----------

  function EncodeEntry(e: KV): Bytes {
    Frame(e.key) + e.value
  }

  function DecodeEntry(bs: Bytes): Option<KV> {
    var key := ReadFrameOf(bs);
    if key.0.Failed? then None else Some(KV(key.0.data, key.1))
  }

  /** A key behind its length, then the value. */
  function EntryCodec(): Codec<KV> {
    Codec(EncodeEntry, DecodeEntry)
  }

  predicate Small(e: KV) {
    8 + |e.key| + |e.value| < TWO_64
  }

  lemma EntryRoundTrip(e: KV)
    requires Small(e)
    ensures 0 < |EncodeEntry(e)| < TWO_64 && DecodeEntry(EncodeEntry(e)) == Some(e)
  {
    FrameLength(e.key);
    FrameRoundTrip(e.key, e.value);
  }

  lemma EntryCodecIsFaithful(codec: Codec<KV>, kvs: seq<KV>)
    requires codec == EntryCodec() && forall e | e in kvs :: Small(e)
    ensures codec.FaithfulOn(kvs)
  {
    forall e | e in kvs ensures codec.ReadsBack(e) {
      EntryRoundTrip(e);
    }
  }

  lemma CompleteRestoreExists(cnt: nat, kvs: seq<KV>) returns (run: seq<Machine.Step>)
    requires cnt == |kvs|
    ensures Machine.Complete(Machine.Config(cnt, true), Machine.Init(Decoded(kvs)), run) && Machine.AllSaved(run)
  {
    EntriesOfDecoded(kvs);
    Machine.InitControl(Machine.Config(cnt, true), Decoded(kvs));
    run := Machine.CanFinish(Machine.Config(cnt, true), Machine.Init(Decoded(kvs)), true, true);
  }

  /** With that codec, every store of entries that fit a frame, with nothing after the prefix range, is
      backed up and has a complete restore that brings back exactly the entries under the prefix. */
  lemma EveryStoreComesBack(job: Job, tail: Bytes) returns (run: seq<Machine.Step>)
    requires Sorted(job.store) && NothingAfter(job) && job.codec == EntryCodec() && job.cnt == |InStore(job)|
    requires forall e | e in job.store :: Small(e)
    ensures ParsePart(job.codec, FullBackup(job) + tail) == Parsed(Decoded(InStore(job)), true, tail)
    ensures var c := Machine.Config(job.cnt, true);
      && Machine.Complete(c, Machine.Init(Decoded(InStore(job))), run)
      && IsMapOf(SavedInto(map[], Machine.After(c, Machine.Init(Decoded(InStore(job))), run).saved), InStore(job))
  {
    EntryCodecIsFaithful(job.codec, InStore(job));
    run := CompleteRestoreExists(job.cnt, InStore(job));
    BackupRestoreRoundTrip(job, tail, run);
  }
}
