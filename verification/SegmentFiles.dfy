// The files of a segment and what scanning them means: storage/common/binlog_selector.go and
// the chunked binlog files that storage/segment_reader.go reads side by side.
module SegmentFiles {
  import opened Prelude

  datatype FieldID = FieldID(n: int)

  datatype Value = Number(n: int) | Text(s: string)

  type Column = seq<Value>

  /** One Arrow record: its row count, and its columns by index. */
  datatype Record = Record(rows: nat, columns: seq<Column>)

  type Group = seq<Record>

  /** One binlog file: where each field's column is, and the records of each of its record readers. */
  datatype Blob = Blob(mapping: map<FieldID, nat>, groups: seq<Group>)

  datatype FieldBinlog = FieldBinlog(fieldID: FieldID, logs: seq<Blob>)

  /** The selectors for storage versions 0 and 1, and for storage version 2. */
  datatype Selector = FieldIDSelector(chosen: set<FieldID>) | MatchingWideColumnSelector(chosen: set<FieldID>)

  predicate Keeps(s: Selector, id: FieldID) {
    id in s.chosen || (s.MatchingWideColumnSelector? && id.n < 100)
  }

  datatype Segment = Segment(binlogs: seq<FieldBinlog>, selector: Selector, outputs: seq<FieldID>)

  /** The number of files of the field with the fewest. */
  function BatchCount(binlogs: seq<FieldBinlog>): nat {
    if binlogs == [] then 0
    else if |binlogs| == 1 then |binlogs[0].logs|
    else Min(BatchCount(binlogs[..|binlogs| - 1]), |binlogs[|binlogs| - 1].logs|)
  }

  /** Whether batch b exists: a file number b for every field, selected or not. */
  predicate InEveryField(binlogs: seq<FieldBinlog>, b: nat) {
    binlogs != [] && forall k | 0 <= k < |binlogs| :: b < |binlogs[k].logs|
  }

  lemma {:induction false} ShortestFieldCounts(binlogs: seq<FieldBinlog>, b: nat)
    ensures b < BatchCount(binlogs) <==> InEveryField(binlogs, b)
  {
    if |binlogs| > 1 {
      var front := binlogs[..|binlogs| - 1];
      ShortestFieldCounts(front, b);
      assert binlogs == front + [binlogs[|binlogs| - 1]];
    }
  }

  /** The files of batch b that the selector keeps, by field or column group. */
  function Selected(binlogs: seq<FieldBinlog>, selector: Selector, b: nat): (m: map<FieldID, Blob>)
    requires forall k | 0 <= k < |binlogs| :: b < |binlogs[k].logs|
  {
    if binlogs == [] then map[]
    else
      var front, last := binlogs[..|binlogs| - 1], binlogs[|binlogs| - 1];
      var m := Selected(front, selector, b);
      if Keeps(selector, last.fieldID) then m[last.fieldID := last.logs[b]] else m
  }

  lemma {:induction false} SelectedExactly(binlogs: seq<FieldBinlog>, selector: Selector, b: nat, id: FieldID)
    requires forall k | 0 <= k < |binlogs| :: b < |binlogs[k].logs|
    requires forall i, j | 0 <= i < j < |binlogs| :: binlogs[i].fieldID != binlogs[j].fieldID
    ensures var m := Selected(binlogs, selector, b);
      && (id in m <==> Keeps(selector, id) && exists k :: 0 <= k < |binlogs| && binlogs[k].fieldID == id)
      && (forall k | 0 <= k < |binlogs| && binlogs[k].fieldID == id && id in m :: m[id] == binlogs[k].logs[b])
  {
    if binlogs != [] {
      var n := |binlogs| - 1;
      SelectedExactly(binlogs[..n], selector, b, id);
      assert forall k | 0 <= k < n :: binlogs[..n][k] == binlogs[k];
      assert binlogs[n].fieldID == id ==> exists k :: 0 <= k < |binlogs| && binlogs[k].fieldID == id;
    }
  }

  method SelectBinlogs(selector: Selector, binlogs: seq<FieldBinlog>, batchIdx: nat)
    returns (result: Option<map<FieldID, Blob>>)
    ensures result.Some? <==> batchIdx < BatchCount(binlogs)
    ensures result.Some? ==> InEveryField(binlogs, batchIdx) && result.value == Selected(binlogs, selector, batchIdx)
  {
    ShortestFieldCounts(binlogs, batchIdx);
    if |binlogs| == 0 {
      return None;
    }
    var found := map[];
    var k := 0;
    while k < |binlogs|
      invariant k <= |binlogs|
      invariant forall j | 0 <= j < k :: batchIdx < |binlogs[j].logs|
      invariant found == Selected(binlogs[..k], selector, batchIdx)
    {
      if batchIdx >= |binlogs[k].logs| {
        return None;
      }
      assert binlogs[..k + 1][..k] == binlogs[..k];
      if Keeps(selector, binlogs[k].fieldID) {
        found := found[binlogs[k].fieldID := binlogs[k].logs[batchIdx]];
      }
      k := k + 1;
    }
    assert binlogs[..k] == binlogs;
    return Some(found);
  }

  // ---------- one batch of files that fit together ----------

  predicate Hit(blob: Blob, outputs: seq<FieldID>) {
    exists f :: f in outputs && f in blob.mapping
  }

  predicate Holds(batch: map<FieldID, Blob>, id: FieldID, f: FieldID) {
    id in batch && f in batch[id].mapping
  }

  function Sizes(group: Group): (r: seq<nat>)
    ensures |r| == |group|
  {
    seq(|group|, r requires 0 <= r < |group| => group[r].rows)
  }

  /** The chunking of a file: the row counts of its records, group by group. */
  function Shape(blob: Blob): (r: seq<seq<nat>>)
    ensures |r| == |blob.groups|
  {
    seq(|blob.groups|, g requires 0 <= g < |blob.groups| => Sizes(blob.groups[g]))
  }

  /** Nonempty chunks, and a full column for every output field the file holds. */
  predicate WellFormed(blob: Blob, outputs: seq<FieldID>) {
    && blob.groups != []
    && (forall g | 0 <= g < |blob.groups| :: blob.groups[g] != [])
    && (forall f | f in outputs && f in blob.mapping :: Full(blob, blob.mapping[f]))
  }

  function At(rec: Record, c: nat): Column {
    if c < |rec.columns| then rec.columns[c] else []
  }

  predicate Full(blob: Blob, c: nat) {
    forall g, r | 0 <= g < |blob.groups| && 0 <= r < |blob.groups[g]| ::
      c < |blob.groups[g][r].columns| && |At(blob.groups[g][r], c)| == blob.groups[g][r].rows
  }

  /** The files hold disjoint output fields, all of them, in the same nonempty chunking. */
  ghost predicate AlignedBatch(batch: map<FieldID, Blob>, outputs: seq<FieldID>) {
    && (forall f | f in outputs :: exists id :: Holds(batch, id, f))
    && (forall f, i, j | f in outputs && Holds(batch, i, f) && Holds(batch, j, f) :: i == j)
    && (forall i {:trigger Hit(batch[i], outputs)} | i in batch && Hit(batch[i], outputs) ::
          WellFormed(batch[i], outputs))
    && (forall i, j {:trigger Hit(batch[i], outputs), Hit(batch[j], outputs)} |
          i in batch && j in batch && Hit(batch[i], outputs) && Hit(batch[j], outputs) ::
          Shape(batch[i]) == Shape(batch[j]))
  }

  ghost function Holder(batch: map<FieldID, Blob>, outputs: seq<FieldID>, f: FieldID): (r: Blob)
    requires AlignedBatch(batch, outputs) && f in outputs
    ensures f in r.mapping && WellFormed(r, outputs) && Full(r, r.mapping[f])
    ensures forall i {:trigger Holds(batch, i, f)} | Holds(batch, i, f) :: batch[i] == r
  {
    var id :| Holds(batch, id, f);
    assert Hit(batch[id], outputs);
    batch[id]
  }

  ghost function BatchShape(batch: map<FieldID, Blob>, outputs: seq<FieldID>): (r: seq<seq<nat>>)
    requires AlignedBatch(batch, outputs) && outputs != []
    ensures r != [] && forall g | 0 <= g < |r| :: r[g] != []
  {
    Shape(Holder(batch, outputs, outputs[0]))
  }

  /** Every file that holds an output field is one field's holder and has the batch's chunking. */
  lemma HolderShape(batch: map<FieldID, Blob>, outputs: seq<FieldID>, f: FieldID)
    requires AlignedBatch(batch, outputs) && f in outputs
    ensures Shape(Holder(batch, outputs, f)) == BatchShape(batch, outputs)
  {
    var f0 := outputs[0];
    assert f0 in outputs;
    var i :| Holds(batch, i, f);
    var j :| Holds(batch, j, f0);
    assert Hit(batch[i], outputs) && Hit(batch[j], outputs);
  }

  // ---------- the rows of the files ----------

  function GroupData(group: Group, n: nat, c: nat): Column
    requires n <= |group|
  {
    if n == 0 then [] else GroupData(group, n - 1, c) + At(group[n - 1], c)
  }

  function Data(groups: seq<Group>, n: nat, c: nat): Column
    requires n <= |groups|
  {
    if n == 0 then [] else Data(groups, n - 1, c) + GroupData(groups[n - 1], |groups[n - 1]|, c)
  }

  function RowsIn(sizes: seq<nat>, n: nat): nat
    requires n <= |sizes|
  {
    if n == 0 then 0 else RowsIn(sizes, n - 1) + sizes[n - 1]
  }

  function RowsBefore(shape: seq<seq<nat>>, n: nat): nat
    requires n <= |shape|
  {
    if n == 0 then 0 else RowsBefore(shape, n - 1) + RowsIn(shape[n - 1], |shape[n - 1]|)
  }

  predicate InShape(shape: seq<seq<nat>>, g: nat, r: nat) {
    g < |shape| && r <= |shape[g]|
  }

  /** The number of rows before record r of group g. */
  function Offset(shape: seq<seq<nat>>, g: nat, r: nat): nat
    requires InShape(shape, g, r)
  {
    RowsBefore(shape, g) + RowsIn(shape[g], r)
  }

  /** All of a field's values in the batch, in file order. */
  ghost function FieldData(batch: map<FieldID, Blob>, outputs: seq<FieldID>, f: FieldID): Column
    requires AlignedBatch(batch, outputs) && f in outputs
  {
    var blob := Holder(batch, outputs, f);
    Data(blob.groups, |blob.groups|, blob.mapping[f])
  }

  /** A field's values in record r of group g. */
  ghost function Chunk(batch: map<FieldID, Blob>, outputs: seq<FieldID>, f: FieldID, g: nat, r: nat): Column
    requires AlignedBatch(batch, outputs) && f in outputs
    requires var shape := BatchShape(batch, outputs); g < |shape| && r < |shape[g]|
  {
    HolderShape(batch, outputs, f);
    var blob := Holder(batch, outputs, f);
    assert Shape(blob)[g] == Sizes(blob.groups[g]);
    At(blob.groups[g][r], blob.mapping[f])
  }

  lemma {:induction false} GroupPrefix(group: Group, r: nat, n: nat, c: nat)
    requires r < n <= |group|
    ensures GroupData(group, r, c) + At(group[r], c) <= GroupData(group, n, c)
    decreases n
  {
    if r < n - 1 {
      GroupPrefix(group, r, n - 1, c);
    }
  }

  lemma {:induction false} DataPrefix(groups: seq<Group>, g: nat, n: nat, c: nat)
    requires g < n <= |groups|
    ensures Data(groups, g, c) + GroupData(groups[g], |groups[g]|, c) <= Data(groups, n, c)
    decreases n
  {
    if g < n - 1 {
      DataPrefix(groups, g, n - 1, c);
    }
  }

  lemma {:induction false} GroupLength(blob: Blob, g: nat, n: nat, c: nat)
    requires Full(blob, c) && g < |blob.groups| && n <= |blob.groups[g]|
    ensures |GroupData(blob.groups[g], n, c)| == RowsIn(Sizes(blob.groups[g]), n)
  {
    if n > 0 {
      GroupLength(blob, g, n - 1, c);
    }
  }

  lemma {:induction false} DataLength(blob: Blob, n: nat, c: nat)
    requires Full(blob, c) && n <= |blob.groups|
    ensures |Data(blob.groups, n, c)| == RowsBefore(Shape(blob), n)
  {
    if n > 0 {
      DataLength(blob, n - 1, c);
      GroupLength(blob, n - 1, |blob.groups[n - 1]|, c);
    }
  }

  lemma PrefixOfPrefix(a: Column, b: Column, x: Column, ab: Column, all: Column)
    requires b + x <= ab && a + ab <= all
    ensures a + b + x <= all
  {
  }

  /** Record (g, r) of a file holds the rows of its column from the offset of (g, r). */
  lemma ChunkInBlob(blob: Blob, c: nat, g: nat, r: nat)
    requires Full(blob, c) && g < |blob.groups| && r < |blob.groups[g]|
    ensures InShape(Shape(blob), g, r)
    ensures var all, k := Data(blob.groups, |blob.groups|, c), Offset(Shape(blob), g, r);
      k + blob.groups[g][r].rows <= |all| && all[k..k + blob.groups[g][r].rows] == At(blob.groups[g][r], c)
  {
    var groups := blob.groups;
    var a, b, x := Data(groups, g, c), GroupData(groups[g], r, c), At(groups[g][r], c);
    GroupPrefix(groups[g], r, |groups[g]|, c);
    DataPrefix(groups, g, |groups|, c);
    PrefixOfPrefix(a, b, x, GroupData(groups[g], |groups[g]|, c), Data(groups, |groups|, c));
    DataLength(blob, g, c);
    GroupLength(blob, g, r, c);
    assert Shape(blob)[g] == Sizes(groups[g]);
    assert |a + b| == Offset(Shape(blob), g, r);
  }

  /** Where record (g, r) sits in every field's data. */
  lemma ChunkPlace(batch: map<FieldID, Blob>, outputs: seq<FieldID>, f: FieldID, g: nat, r: nat)
    requires AlignedBatch(batch, outputs) && f in outputs
    requires var shape := BatchShape(batch, outputs); g < |shape| && r < |shape[g]|
    ensures var shape, all := BatchShape(batch, outputs), FieldData(batch, outputs, f);
      var k := Offset(shape, g, r);
      && k + shape[g][r] <= |all| && |Chunk(batch, outputs, f, g, r)| == shape[g][r]
      && all[k..k + shape[g][r]] == Chunk(batch, outputs, f, g, r)
  {
    HolderShape(batch, outputs, f);
    var blob := Holder(batch, outputs, f);
    assert Shape(blob)[g] == Sizes(blob.groups[g]);
    ChunkInBlob(blob, blob.mapping[f], g, r);
  }

  /** All fields of an aligned batch have the same number of rows. */
  lemma BatchHeight(batch: map<FieldID, Blob>, outputs: seq<FieldID>, f: FieldID)
    requires AlignedBatch(batch, outputs) && f in outputs
    ensures var shape := BatchShape(batch, outputs); |FieldData(batch, outputs, f)| == RowsBefore(shape, |shape|)
  {
    HolderShape(batch, outputs, f);
    var blob := Holder(batch, outputs, f);
    DataLength(blob, |blob.groups|, blob.mapping[f]);
  }
}
