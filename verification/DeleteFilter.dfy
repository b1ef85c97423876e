// Delete handling in segment scans: the delete maps of states/scan_binlog.go with the filter of
// storage/entry_filter.go, against the linear scan of states/check_partition_key.go.
module DeleteFilter {
  import opened Prelude

  datatype PrimaryKey = Int64Key(value: int) | VarCharKey(text: string)

  datatype DataType = Int64 | VarChar

  predicate HasType(pk: PrimaryKey, t: DataType) {
    if t == Int64 then pk.Int64Key? else pk.VarCharKey?
  }

  const TWO_63 := 0x8000_0000_0000_0000
  const TWO_64 := 0x1_0000_0000_0000_0000

  /** Delete timestamps are unsigned 64-bit numbers; row timestamps are signed ones. */
  type Uint64 = n: nat | n < TWO_64

  datatype Record = Record(pk: PrimaryKey, ts: Uint64)

  function ToUint64(ts: int): int {
    if ts >= 0 then ts else ts + TWO_64
  }

  function ToInt64(ts: Uint64): int {
    if ts < TWO_63 then ts else ts - TWO_64
  }

  // ---------- delta data ----------

  class DeltaData {
    const dataType: DataType
    var pks: seq<PrimaryKey>
    var tss: seq<Uint64>
    var delRowCount: nat

    ghost predicate Valid()
      reads this
    {
      && |pks| == |tss| == delRowCount
      && forall pk | pk in pks :: HasType(pk, dataType)
    }

    ghost function Records(): seq<Record>
      requires Valid()
      reads this
    {
      seq(delRowCount, i requires 0 <= i < delRowCount && Valid() reads this => Record(pks[i], tss[i]))
    }

    constructor (dataType: DataType)
      ensures this.dataType == dataType && Valid() && Records() == []
    {
      this.dataType := dataType;
      pks, tss, delRowCount := [], [], 0;
    }

    method Append(pk: PrimaryKey, ts: Uint64)
      requires Valid() && HasType(pk, dataType)
      modifies this
      ensures Valid() && Records() == old(Records()) + [Record(pk, ts)]
    {
      pks := pks + [pk];
      tss := tss + [ts];
      delRowCount := delRowCount + 1;
    }

    /** Appends another batch of records; refused, and nothing changed, if the key types differ. */
    method Merge(add: DeltaData) returns (ok: bool)
      requires Valid() && add.Valid()
      modifies this
      ensures Valid() && ok == (dataType == add.dataType)
      ensures Records() == if ok then old(Records()) + old(add.Records()) else old(Records())
    {
      if dataType != add.dataType {
        return false;
      }
      pks := pks + add.pks;
      tss := tss + add.tss;
      delRowCount := delRowCount + add.delRowCount;
      return true;
    }

    /** The linear test of one row, with its early exit. */
    method Deleted(pk: PrimaryKey, ts: int) returns (deleted: bool)
      requires Valid()
      ensures deleted == LinearDeleted(Records(), pk, ts)
    {
      deleted := false;
      for i := 0 to delRowCount
        invariant forall k | 0 <= k < i :: !(Records()[k].pk == pk && ts < ToInt64(Records()[k].ts))
      {
        if pks[i] == pk && ts < ToInt64(tss[i]) {
          assert Records()[i] in Records();
          return true;
        }
      }
    }
  }

  /** Some record deletes the row: same key, strictly later timestamp. */
  predicate LinearDeleted(records: seq<Record>, pk: PrimaryKey, ts: int) {
    exists r | r in records :: r.pk == pk && ts < ToInt64(r.ts)
  }

  // ---------- the delete map ----------

  /** The keys of a map[any]uint64: primary-key values, and values of type uint64. */
  datatype AnyKey = PkValue(pk: PrimaryKey) | Uint64Value(v: Uint64)

  type DeleteMap = map<AnyKey, Uint64>

  /** One record folded in. The test looks the timestamp up as if it were a key. */
  function AddRecord(m: DeleteMap, r: Record): DeleteMap {
    if Uint64Value(r.ts) !in m || r.ts > m[Uint64Value(r.ts)] then m[PkValue(r.pk) := r.ts] else m
  }

  function AddRecords(m: DeleteMap, records: seq<Record>): DeleteMap {
    if records == [] then m
    else AddRecord(AddRecords(m, records[..|records| - 1]), records[|records| - 1])
  }

  /** A deltalog file: unreadable, or its events' records. */
  datatype DeltaLog = Unreadable | Events(events: seq<seq<Record>>)

  /** What the fold sees of a segment's deltalogs: the first event of each, up to the first file that
      cannot be read or is empty. */
  function FastRecords(logs: seq<DeltaLog>): seq<Record> {
    if logs == [] || logs[0].Unreadable? || logs[0].events == [] then []
    else logs[0].events[0] + FastRecords(logs[1..])
  }

  function Flatten(events: seq<seq<Record>>): seq<Record> {
    if events == [] then [] else events[0] + Flatten(events[1..])
  }

  /** What the linear scan sees: every event of every file it can read. */
  function AllRecords(logs: seq<DeltaLog>): seq<Record> {
    if logs == [] then []
    else (if logs[0].Unreadable? then [] else Flatten(logs[0].events)) + AllRecords(logs[1..])
  }

  /** What the fold sees of several segments: each on its own, whatever cut the others short. */
  function FastRecordsOf(segments: seq<seq<DeltaLog>>): seq<Record> {
    if segments == [] then []
    else FastRecordsOf(segments[..|segments| - 1]) + FastRecords(segments[|segments| - 1])
  }

  function AllRecordsOf(segments: seq<seq<DeltaLog>>): seq<Record> {
    if segments == [] then []
    else AllRecordsOf(segments[..|segments| - 1]) + AllRecords(segments[|segments| - 1])
  }

  class DeleteRecords {
    var entries: DeleteMap

    constructor ()
      ensures entries == map[]
    {
      entries := map[];
    }

    method Range(records: seq<Record>)
      modifies this
      ensures entries == AddRecords(old(entries), records)
    {
      for i := 0 to |records|
        invariant entries == AddRecords(old(entries), records[..i])
      {
        assert records[..i + 1][..i] == records[..i];
        var pk, ts := records[i].pk, records[i].ts;
        if Uint64Value(ts) !in entries || ts > entries[Uint64Value(ts)] {
          entries := entries[PkValue(pk) := ts];
        }
      }
      assert records[..|records|] == records;
    }

    /** addDeltaRecords over a segment's deltalogs; false if a file cut it short. */
    method AddDeltaRecords(logs: seq<DeltaLog>) returns (ok: bool)
      modifies this
      ensures entries == AddRecords(old(entries), FastRecords(logs))
      ensures ok <==> forall l | l in logs :: l.Events? && l.events != []
    {
      ghost var seen := [];
      for i := 0 to |logs|
        invariant entries == AddRecords(old(entries), seen)
        invariant seen + FastRecords(logs[i..]) == FastRecords(logs)
        invariant forall l | l in logs[..i] :: l.Events? && l.events != []
      {
        assert logs[i..][0] == logs[i] && logs[i..][1..] == logs[i + 1..];
        if logs[i].Unreadable? || logs[i].events == [] {
          assert seen + [] == seen;
          return false;
        }
        Range(logs[i].events[0]);
        AddRecordsConcat(old(entries), seen, logs[i].events[0]);
        Regroup(seen, logs[i].events[0], FastRecords(logs[i + 1..]));
        seen := seen + logs[i].events[0];
      }
      assert logs[|logs|..] == [] && seen + [] == seen;
      assert logs[..|logs|] == logs;
      return true;
    }

    /** The L0 segments folded into one map, one after the other; the error of each is dropped. */
    method AddSegments(segments: seq<seq<DeltaLog>>)
      modifies this
      ensures entries == AddRecords(old(entries), FastRecordsOf(segments))
    {
      for i := 0 to |segments|
        invariant entries == AddRecords(old(entries), FastRecordsOf(segments[..i]))
      {
        assert segments[..i + 1][..i] == segments[..i];
        AddRecordsConcat(old(entries), FastRecordsOf(segments[..i]), FastRecords(segments[i]));
        var ok := AddDeltaRecords(segments[i]);
      }
      assert segments[..|segments|] == segments;
    }

    /** DeltalogFilter.Match, an absent key reading as zero: on the fold of some records a row passes
        exactly if the last timestamp written for its key is not above its own. */
    function Match(pk: PrimaryKey, ts: int, ghost records: seq<Record>): (r: bool)
      requires entries == AddRecords(map[], records)
      reads this
      ensures r <==> LastTs(records, pk) <= ToUint64(ts)
    {
      MatchesLast(records, pk, ts);
      Matches(entries, pk, ts)
    }
  }

  function Matches(m: DeleteMap, pk: PrimaryKey, ts: int): bool {
    (if PkValue(pk) in m then m[PkValue(pk)] else 0) <= ToUint64(ts)
  }

  lemma {:induction false} AddRecordsConcat(m: DeleteMap, a: seq<Record>, b: seq<Record>)
    ensures AddRecords(m, a + b) == AddRecords(AddRecords(m, a), b)
  {
    if b == [] {
      assert a + b == a;
    } else {
      assert (a + b)[..|a + b| - 1] == a + b[..|b| - 1];
      AddRecordsConcat(m, a, b[..|b| - 1]);
    }
  }

  // ---------- the fold keeps the last timestamp ----------

  /** The timestamp of the last record for pk, zero if there is none. */
  function LastTs(records: seq<Record>, pk: PrimaryKey): Uint64 {
    if records == [] then 0
    else
      var r := records[|records| - 1];
      if r.pk == pk then r.ts else LastTs(records[..|records| - 1], pk)
  }

  /** Since no key of type uint64 is ever stored, the test in the fold always succeeds: the map keeps
      the timestamp last written, not the largest. */
  lemma {:induction false} FoldKeepsLast(records: seq<Record>)
    ensures var m := AddRecords(map[], records);
      && (forall v: Uint64 :: Uint64Value(v) !in m)
      && (forall pk :: PkValue(pk) in m <==> exists r | r in records :: r.pk == pk)
      && (forall pk | PkValue(pk) in m :: m[PkValue(pk)] == LastTs(records, pk))
  {
    if records != [] {
      var front, r := records[..|records| - 1], records[|records| - 1];
      FoldKeepsLast(front);
      assert records == front + [r];
    }
  }

  lemma {:induction false} LastTsIsRecorded(records: seq<Record>, pk: PrimaryKey)
    ensures if exists r | r in records :: r.pk == pk then Record(pk, LastTs(records, pk)) in records
            else LastTs(records, pk) == 0
  {
    if records != [] {
      var front, r := records[..|records| - 1], records[|records| - 1];
      LastTsIsRecorded(front, pk);
      assert records == front + [r];
    }
  }

  lemma MatchesLast(records: seq<Record>, pk: PrimaryKey, ts: int)
    ensures Matches(AddRecords(map[], records), pk, ts) <==> LastTs(records, pk) <= ToUint64(ts)
  {
    FoldKeepsLast(records);
    LastTsIsRecorded(records, pk);
  }

  // ---------- fast against linear ----------

  /** The filter chain of a scan: the map of the L0 segments, then the segment's own. */
  predicate FastKeeps(l0: seq<Record>, own: seq<Record>, pk: PrimaryKey, ts: int) {
    Matches(AddRecords(map[], l0), pk, ts) && Matches(AddRecords(map[], own), pk, ts)
  }

  predicate AgreeOn(l0: seq<Record>, own: seq<Record>, all: seq<Record>, pk: PrimaryKey, ts: int) {
    FastKeeps(l0, own, pk, ts) <==> !LinearDeleted(all, pk, ts)
  }

  /** The two filters give the same answer for every row with a nonnegative timestamp. */
  ghost predicate Agree(l0: seq<Record>, own: seq<Record>, all: seq<Record>) {
    forall pk, ts: int | 0 <= ts < TWO_63 :: AgreeOn(l0, own, all, pk, ts)
  }

  /** The same for every row, negative timestamps included. */
  ghost predicate AgreeOnEveryRow(l0: seq<Record>, own: seq<Record>, all: seq<Record>) {
    forall pk, ts: int | -TWO_63 <= ts < TWO_63 :: AgreeOn(l0, own, all, pk, ts)
  }

  /** For every key, the last timestamp in either map is below the sign bit, and no record below the
      sign bit is later than both. */
  predicate LastIsLatest(l0: seq<Record>, own: seq<Record>, all: seq<Record>) {
    forall r | r in all ::
      && LastTs(l0, r.pk) < TWO_63 && LastTs(own, r.pk) < TWO_63
      && (r.ts < TWO_63 ==> r.ts <= LastTs(l0, r.pk) || r.ts <= LastTs(own, r.pk))
  }

  lemma KeepsIff(l0: seq<Record>, own: seq<Record>, pk: PrimaryKey, ts: int)
    ensures FastKeeps(l0, own, pk, ts) <==> LastTs(l0, pk) <= ToUint64(ts) && LastTs(own, pk) <= ToUint64(ts)
  {
    MatchesLast(l0, pk, ts);
    MatchesLast(own, pk, ts);
  }

  lemma LastIsAmongAll(l0: seq<Record>, own: seq<Record>, all: seq<Record>, pk: PrimaryKey)
    requires forall r | r in l0 + own :: r in all
    ensures LastTs(l0, pk) > 0 ==> Record(pk, LastTs(l0, pk)) in all
    ensures LastTs(own, pk) > 0 ==> Record(pk, LastTs(own, pk)) in all
  {
    LastTsIsRecorded(l0, pk);
    LastTsIsRecorded(own, pk);
    assert forall r | r in l0 || r in own :: r in l0 + own;
  }

  lemma AgreeOnRow(l0: seq<Record>, own: seq<Record>, all: seq<Record>, pk: PrimaryKey, ts: int)
    requires (forall r | r in l0 + own :: r in all) && 0 <= ts < TWO_63 && LastIsLatest(l0, own, all)
    ensures AgreeOn(l0, own, all, pk, ts)
  {
    KeepsIff(l0, own, pk, ts);
    LastIsAmongAll(l0, own, all, pk);
  }

  lemma DisagreeOnRow(l0: seq<Record>, own: seq<Record>, all: seq<Record>, r: Record)
    requires r in all && LastTs(l0, r.pk) < r.ts < TWO_63 && LastTs(own, r.pk) < r.ts
    ensures FastKeeps(l0, own, r.pk, r.ts - 1) && LinearDeleted(all, r.pk, r.ts - 1)
  {
    KeepsIff(l0, own, r.pk, r.ts - 1);
  }

  /** A last timestamp beyond the sign bit makes the maps reject the latest of rows, which no record
      deletes. */
  lemma DisagreeOnLatestRow(l0: seq<Record>, own: seq<Record>, all: seq<Record>, pk: PrimaryKey)
    requires LastTs(l0, pk) >= TWO_63 || LastTs(own, pk) >= TWO_63
    ensures !FastKeeps(l0, own, pk, TWO_63 - 1) && !LinearDeleted(all, pk, TWO_63 - 1)
  {
    KeepsIff(l0, own, pk, TWO_63 - 1);
  }

  /** Over all unsigned 64-bit delete timestamps, the chain of maps agrees with the linear scan exactly
      when, for every key, the latest record is the last one written for that key in one of the two maps,
      where neither map's last may be beyond the sign bit, and records beyond it do not matter. */
  lemma FastAgreesIffLastIsLatest(l0: seq<Record>, own: seq<Record>, all: seq<Record>)
    requires forall r | r in l0 + own :: r in all
    ensures Agree(l0, own, all) <==> LastIsLatest(l0, own, all)
  {
    if LastIsLatest(l0, own, all) {
      forall pk, ts: int | 0 <= ts < TWO_63
        ensures AgreeOn(l0, own, all, pk, ts)
      {
        AgreeOnRow(l0, own, all, pk, ts);
      }
    } else if r :| r in all && (LastTs(l0, r.pk) >= TWO_63 || LastTs(own, r.pk) >= TWO_63) {
      DisagreeOnLatestRow(l0, own, all, r.pk);
      assert !AgreeOn(l0, own, all, r.pk, TWO_63 - 1);
    } else {
      var r :| r in all && LastTs(l0, r.pk) < r.ts < TWO_63 && LastTs(own, r.pk) < r.ts;
      DisagreeOnRow(l0, own, all, r);
      assert !AgreeOn(l0, own, all, r.pk, r.ts - 1);
    }
  }

  /** Nothing that either filter would act on: the maps hold nothing, and every record is at the sign
      bit, which a signed reading takes for the earliest time of all. */
  predicate NothingDeletes(l0: seq<Record>, own: seq<Record>, all: seq<Record>) {
    l0 == [] && own == [] && forall r | r in all :: r.ts == TWO_63
  }

  lemma DisagreeSomewhere(l0: seq<Record>, own: seq<Record>, all: seq<Record>, r: Record) returns (ts: int)
    requires (forall q | q in l0 + own :: q in all) && r in all
    requires r.ts != TWO_63 || r in l0 + own
    ensures -TWO_63 <= ts < TWO_63 && !AgreeOn(l0, own, all, r.pk, ts)
  {
    if LastTs(l0, r.pk) >= TWO_63 || LastTs(own, r.pk) >= TWO_63 {
      DisagreeOnLatestRow(l0, own, all, r.pk);
      return TWO_63 - 1;
    }
    KeepsIff(l0, own, r.pk, -TWO_63);
    if r.ts == TWO_63 {
      LastTsIsRecorded(l0, r.pk);
      LastTsIsRecorded(own, r.pk);
      var q := if r in l0 then Record(r.pk, LastTs(l0, r.pk)) else Record(r.pk, LastTs(own, r.pk));
      assert q in l0 + own;
      assert q in all && -TWO_63 < ToInt64(q.ts);
    }
    return -TWO_63;
  }

  /** With negative row timestamps admitted the two filters, comparing unsigned and signed, practically
      never agree: exactly if there is nothing for them to act on. */
  lemma EveryRowAgreesIff(l0: seq<Record>, own: seq<Record>, all: seq<Record>)
    requires forall r | r in l0 + own :: r in all
    ensures AgreeOnEveryRow(l0, own, all) <==> NothingDeletes(l0, own, all)
  {
    if NothingDeletes(l0, own, all) {
      forall pk, ts: int | -TWO_63 <= ts < TWO_63 ensures AgreeOn(l0, own, all, pk, ts) {
        KeepsIff(l0, own, pk, ts);
      }
    } else if l0 + own != [] {
      var ts := DisagreeSomewhere(l0, own, all, (l0 + own)[0]);
    } else {
      var r :| r in all && r.ts != TWO_63;
      var ts := DisagreeSomewhere(l0, own, all, r);
    }
  }

  /** Each key's timestamps never go back in log order. */
  predicate NondecreasingPerKey(records: seq<Record>) {
    forall i, j | 0 <= i < j < |records| && records[i].pk == records[j].pk :: records[i].ts <= records[j].ts
  }

  lemma {:induction false} LastIsMax(records: seq<Record>, i: nat)
    requires NondecreasingPerKey(records) && i < |records|
    ensures records[i].ts <= LastTs(records, records[i].pk)
  {
    if i < |records| - 1 {
      LastIsMax(records[..|records| - 1], i);
    }
  }

  predicate InRange(records: seq<Record>) {
    forall r | r in records :: r.ts < TWO_63
  }

  /** With each log's timestamps nondecreasing per key, the fast filter is the linear scan over all
      records, exactly if none is beyond the sign bit. */
  lemma NondecreasingLogsAgree(l0: seq<Record>, own: seq<Record>)
    requires NondecreasingPerKey(l0) && NondecreasingPerKey(own)
    ensures Agree(l0, own, l0 + own) <==> InRange(l0 + own)
  {
    forall r | r in l0 + own
      ensures r.ts <= LastTs(l0, r.pk) || r.ts <= LastTs(own, r.pk)
    {
      if r in l0 {
        var i :| 0 <= i < |l0| && l0[i] == r;
        LastIsMax(l0, i);
      } else {
        var i :| 0 <= i < |own| && own[i] == r;
        LastIsMax(own, i);
      }
    }
    if InRange(l0 + own) {
      forall r | r in l0 + own ensures LastTs(l0, r.pk) < TWO_63 && LastTs(own, r.pk) < TWO_63 {
        LastIsAmongAll(l0, own, l0 + own, r.pk);
      }
    }
    FastAgreesIffLastIsLatest(l0, own, l0 + own);
  }

  /** One record against one row, over all 64-bit values: the unsigned and the signed comparison agree
      exactly when the row's and the record's timestamps are both below or both above the sign bit. */
  lemma ComparisonsAgreeIff(recordTs: Uint64, rowTs: int)
    requires -TWO_63 <= rowTs < TWO_63
    ensures (recordTs <= ToUint64(rowTs) <==> !(rowTs < ToInt64(recordTs))) <==>
            (rowTs >= 0 <==> recordTs < TWO_63)
  {
  }

  // ---------- files ----------

  predicate OneEventEach(logs: seq<DeltaLog>) {
    forall l | l in logs :: l.Events? && |l.events| == 1
  }

  /** With exactly one event in every deltalog the two readers see the same records. */
  lemma {:induction false} SameRecords(logs: seq<DeltaLog>)
    requires OneEventEach(logs)
    ensures FastRecords(logs) == AllRecords(logs)
  {
    if logs != [] {
      assert logs[0] in logs;
      var es := logs[0].events;
      assert es[1..] == [] && Flatten(es[1..]) == [];
      assert es[0] + [] == es[0];
      SameRecords(logs[1..]);
    }
  }

  lemma {:induction false} FastIsPart(logs: seq<DeltaLog>, r: Record)
    requires r in FastRecords(logs)
    ensures r in AllRecords(logs)
  {
    if r in logs[0].events[0] {
      assert r in Flatten(logs[0].events);
    } else {
      FastIsPart(logs[1..], r);
    }
  }

  lemma {:induction false} FastIsPartOf(segments: seq<seq<DeltaLog>>, r: Record)
    requires r in FastRecordsOf(segments)
    ensures r in AllRecordsOf(segments)
  {
    var front, last := segments[..|segments| - 1], segments[|segments| - 1];
    if r in FastRecordsOf(front) {
      FastIsPartOf(front, r);
    } else {
      FastIsPart(last, r);
    }
  }

  /** On the files themselves: the scan's filters, folding the L0 segments one by one and then the
      segment's own deltalogs, agree with a linear scan of everything readable exactly when nothing
      there is later than what the maps hold last; over negative row timestamps too, exactly when there
      is nothing to act on. */
  lemma {:induction false} ScanAgreesIff(l0: seq<seq<DeltaLog>>, own: seq<DeltaLog>)
    ensures var fast0, fast, all := FastRecordsOf(l0), FastRecords(own), AllRecordsOf(l0) + AllRecords(own);
      && (Agree(fast0, fast, all) <==> LastIsLatest(fast0, fast, all))
      && (AgreeOnEveryRow(fast0, fast, all) <==> NothingDeletes(fast0, fast, all))
  {
    forall r | r in FastRecordsOf(l0) + FastRecords(own)
      ensures r in AllRecordsOf(l0) + AllRecords(own)
    {
      if r in FastRecordsOf(l0) {
        FastIsPartOf(l0, r);
      } else {
        FastIsPart(own, r);
      }
    }
    FastAgreesIffLastIsLatest(FastRecordsOf(l0), FastRecords(own), AllRecordsOf(l0) + AllRecords(own));
    EveryRowAgreesIff(FastRecordsOf(l0), FastRecords(own), AllRecordsOf(l0) + AllRecords(own));
  }

  // ---------- inputs on which they differ ----------

  /** A key deleted at 20 and then, later in the log, at 10: a row of it at 15 is deleted, and kept. */
  lemma EarlierRecordLast(pk: PrimaryKey)
    ensures var records := [Record(pk, 20), Record(pk, 10)];
      LinearDeleted(records, pk, 15) && FastKeeps([], records, pk, 15)
  {
    var records := [Record(pk, 20), Record(pk, 10)];
    assert records[0] in records;
    KeepsIff([], records, pk, 15);
  }

  lemma OneFile(l: DeltaLog)
    ensures FastRecords([l]) == if l.Unreadable? || l.events == [] then [] else l.events[0]
    ensures AllRecords([l]) == if l.Unreadable? then [] else Flatten(l.events)
  {
    assert [l][1..] == [] && FastRecords([l][1..]) == [] && AllRecords([l][1..]) == [];
  }

  lemma OneRecord(r: Record, pk: PrimaryKey)
    ensures LastTs([r], pk) == if r.pk == pk then r.ts else 0
  {
    assert [r][..0] == [];
  }

  /** The second event of a file is lost to the fold: a row at 15 whose key is deleted at 10 by the
      first event and at 20 by the second is deleted, and kept. */
  lemma LaterEventIsMissed(pk: PrimaryKey)
    ensures var logs := [Events([[Record(pk, 10)], [Record(pk, 20)]])];
      LinearDeleted(AllRecords(logs), pk, 15) && FastKeeps([], FastRecords(logs), pk, 15)
  {
    var a, b := Record(pk, 10), Record(pk, 20);
    OneFile(Events([[a], [b]]));
    assert [[a], [b]][1..] == [[b]] && [[b]][1..] == [] && Flatten([[b]]) == [b] + Flatten([]);
    assert b in [a] + [b];
    OneRecord(a, pk);
    KeepsIff([], [a], pk, 15);
  }

  /** So is whatever follows an unreadable file of the same segment, so that a row deleted there is
      kept; the next L0 segment is still read, and the row deleted. */
  lemma UnreadableEndsItsSegmentOnly(pk: PrimaryKey)
    ensures var logs := [Unreadable, Events([[Record(pk, 20)]])];
      LinearDeleted(AllRecords(logs), pk, 15) && FastKeeps([], FastRecords(logs), pk, 15)
    ensures var segments := [[Unreadable], [Events([[Record(pk, 20)]])]];
      LinearDeleted(AllRecordsOf(segments), pk, 15) && !FastKeeps(FastRecordsOf(segments), [], pk, 15)
  {
    var a := Record(pk, 20);
    OneFile(Unreadable);
    OneFile(Events([[a]]));
    assert [[a]][1..] == [] && Flatten([[a]]) == [a] + Flatten([]);
    assert [Unreadable, Events([[a]])][1..] == [Events([[a]])];
    var segments := [[Unreadable], [Events([[a]])]];
    assert segments[..1] == [segments[0]] && [segments[0]][..0] == [];
    assert FastRecordsOf([segments[0]]) == FastRecordsOf([]) + FastRecords(segments[0]);
    assert AllRecordsOf([segments[0]]) == AllRecordsOf([]) + AllRecords(segments[0]);
    assert a in [a];
    OneRecord(a, pk);
    KeepsIff([], [], pk, 15);
    KeepsIff([a], [], pk, 15);
  }
}
