// The segment reader: one binlog reader and one record reader for each file of the current batch,
// advanced together (storage/segment_reader.go, storage/common/batch_iterator.go and record_batch.go).
module SegmentReaders {
  import opened Prelude
  import opened SegmentFiles
  import opened SegmentRows

  /** An open binlog file; next is the number of record readers taken from it. */
  datatype BinlogReader = BinlogReader(blob: Blob, next: nat)

  /** A reader over one group of records; next is the number of records taken. */
  datatype RecordReader = RecordReader(records: Group, next: nat)

  datatype BatchInfo = BatchInfo(batchIdx: nat, output: map<FieldID, Blob>)

  /** One record composed of the columns of several files, found through an index. */
  datatype RecordBatch = RecordBatch(index: map<FieldID, nat>, recs: seq<Column>) {
    function ColumnOf(f: FieldID): Option<Column> {
      if f in index && index[f] < |recs| then Some(recs[index[f]]) else None
    }

    function Len(): nat {
      if recs == [] then 0 else |recs[0]|
    }
  }

  predicate Carries(rec: RecordBatch, cols: Columns, rows: nat) {
    rec.Len() == rows && forall f | f in cols :: rec.ColumnOf(f) == Some(cols[f])
  }

  // ---------- gathering the columns of one record ----------

  /** The first |cols| places of recs hold the columns gathered so far, where the index says. */
  predicate Placed(recs: seq<Column>, index: map<FieldID, nat>, cols: Columns, rows: nat) {
    && |index| <= |recs|
    && index.Keys == cols.Keys
    && (forall f | f in index :: index[f] < |index| && recs[index[f]] == cols[f])
    && (forall k | 0 <= k < |index| :: |recs[k]| == rows)
  }

  lemma {:induction false} FitsIn<T>(placed: set<T>, s: seq<T>)
    requires forall x | x in placed :: x in s
    ensures |placed| <= |s|
  {
    if s == [] {
      assert placed == {};
    } else {
      FitsIn(placed - {s[0]}, s[1..]);
      assert |placed - {s[0]}| >= |placed| - 1;
    }
  }

  lemma RoomFor<T>(placed: set<T>, s: seq<T>, x: T)
    requires forall y | y in placed :: y in s
    requires x in s && x !in placed
    ensures |placed| < |s|
  {
    FitsIn(placed + {x}, s);
  }

  function RecordColumns(rec: Record, mapping: map<FieldID, nat>, outputs: seq<FieldID>): Columns {
    map f | f in mapping && f in outputs :: At(rec, mapping[f])
  }

  lemma PlaceOne(recs: seq<Column>, index: map<FieldID, nat>, cols: Columns, rows: nat, f: FieldID, col: Column)
    requires Placed(recs, index, cols, rows) && f !in cols && |index| < |recs| && |col| == rows
    ensures Placed(recs[|index| := col], index[f := |index|], cols[f := col], rows)
  {
  }

  /** The output columns of one file's record, all but those of the fields in todo. */
  function RecordColumnsBut(rec: Record, mapping: map<FieldID, nat>, outputs: seq<FieldID>, todo: set<FieldID>): Columns {
    map f | f in mapping && f in outputs && f !in todo :: At(rec, mapping[f])
  }

  lemma NoneLeft(rec: Record, mapping: map<FieldID, nat>, outputs: seq<FieldID>, cols: Columns)
    ensures cols + RecordColumnsBut(rec, mapping, outputs, mapping.Keys) == cols
    ensures RecordColumnsBut(rec, mapping, outputs, {}) == RecordColumns(rec, mapping, outputs)
  {
  }

  lemma OneLess(rec: Record, mapping: map<FieldID, nat>, outputs: seq<FieldID>, cols: Columns, todo: set<FieldID>,
                f: FieldID)
    requires f in todo && f in mapping && (f in outputs ==> f !in cols)
    ensures var was, now := RecordColumnsBut(rec, mapping, outputs, todo), RecordColumnsBut(rec, mapping, outputs, todo - {f});
      && (f in outputs ==> f !in cols + was)
      && cols + now == if f in outputs then (cols + was)[f := At(rec, mapping[f])] else cols + was
  {
  }

  /** The columns so far are of output fields, and a file's record has full columns of others. */
  predicate Fresh(rec: Record, mapping: map<FieldID, nat>, outputs: seq<FieldID>, cols: Columns) {
    && (forall f | f in cols :: f in outputs)
    && (forall f | f in mapping && f in outputs ::
          f !in cols && mapping[f] < |rec.columns| && |At(rec, mapping[f])| == rec.rows)
  }

  lemma AddOne(rec: Record, mapping: map<FieldID, nat>, outputs: seq<FieldID>, cols: Columns, todo: set<FieldID>,
               recs: seq<Column>, index: map<FieldID, nat>, f: FieldID)
    requires Fresh(rec, mapping, outputs, cols) && |recs| == |outputs|
    requires Placed(recs, index, cols + RecordColumnsBut(rec, mapping, outputs, todo), rec.rows)
    requires f in todo && f in mapping && f in outputs
    ensures |index| < |recs| && mapping[f] < |rec.columns|
    ensures Placed(recs[|index| := rec.columns[mapping[f]]], index[f := |index|],
                   cols + RecordColumnsBut(rec, mapping, outputs, todo - {f}), rec.rows)
  {
    var was := cols + RecordColumnsBut(rec, mapping, outputs, todo);
    OneLess(rec, mapping, outputs, cols, todo, f);
    RoomFor(index.Keys, outputs, f);
    PlaceOne(recs, index, was, rec.rows, f, At(rec, mapping[f]));
  }

  /** Adds the output columns of one file's record, in whatever order its mapping is iterated. */
  method AddColumns(rec: Record, mapping: map<FieldID, nat>, outputs: seq<FieldID>,
                    recs: seq<Column>, index: map<FieldID, nat>, ghost cols: Columns)
    returns (recs': seq<Column>, index': map<FieldID, nat>)
    requires Placed(recs, index, cols, rec.rows) && |recs| == |outputs|
    requires Fresh(rec, mapping, outputs, cols)
    ensures |recs'| == |outputs|
    ensures Placed(recs', index', cols + RecordColumns(rec, mapping, outputs), rec.rows)
  {
    recs', index' := recs, index;
    var todo := mapping.Keys;
    NoneLeft(rec, mapping, outputs, cols);
    while todo != {}
      invariant todo <= mapping.Keys && |recs'| == |outputs|
      invariant Placed(recs', index', cols + RecordColumnsBut(rec, mapping, outputs, todo), rec.rows)
      decreases |todo|
    {
      var f :| f in todo;
      // The output fields are distinct, so f equals at most one of them.
      if f in outputs {
        AddOne(rec, mapping, outputs, cols, todo, recs', index', f);
        var recIdx := |index'|;
        recs' := recs'[recIdx := rec.columns[mapping[f]]];
        index' := index'[f := recIdx];
      } else {
        OneLess(rec, mapping, outputs, cols, todo, f);
      }
      todo := todo - {f};
    }
  }

  // ---------- the files opened for a batch ----------

  /** The files opened, under ids, once all of the batch but todo has been looked at. */
  predicate OpenedBut(blobs: seq<Blob>, ids: seq<FieldID>, batch: map<FieldID, Blob>, outputs: seq<FieldID>,
                      todo: set<FieldID>)
  {
    && |ids| == |blobs|
    && (forall i | 0 <= i < |ids| :: ids[i] in batch && ids[i] !in todo && blobs[i] == batch[ids[i]])
    && (forall i | 0 <= i < |ids| :: Hit(blobs[i], outputs))
    && (forall i, j | 0 <= i < j < |ids| :: ids[i] != ids[j])
    && (forall id {:trigger Hit(batch[id], outputs)} | id in batch && id !in todo && Hit(batch[id], outputs) :: id in ids)
  }

  lemma OpenOne(blobs: seq<Blob>, ids: seq<FieldID>, batch: map<FieldID, Blob>, outputs: seq<FieldID>,
                todo: set<FieldID>, id: FieldID)
    requires OpenedBut(blobs, ids, batch, outputs, todo) && id in todo && id in batch
    ensures Hit(batch[id], outputs) ==> OpenedBut(blobs + [batch[id]], ids + [id], batch, outputs, todo - {id})
    ensures !Hit(batch[id], outputs) ==> OpenedBut(blobs, ids, batch, outputs, todo - {id})
  {
  }

  /** Every opened file is its fields' holder and has the batch's chunking. */
  lemma OpenedHolds(blobs: seq<Blob>, ids: seq<FieldID>, batch: map<FieldID, Blob>, outputs: seq<FieldID>, i: nat)
    requires AlignedBatch(batch, outputs) && OpenedBut(blobs, ids, batch, outputs, {}) && i < |blobs|
    ensures forall f | f in outputs && f in blobs[i].mapping :: blobs[i] == Holder(batch, outputs, f)
    ensures Shape(blobs[i]) == BatchShape(batch, outputs) && WellFormed(blobs[i], outputs)
  {
    assert Hit(blobs[i], outputs);
    forall f | f in outputs && f in blobs[i].mapping ensures blobs[i] == Holder(batch, outputs, f) {
      assert Holds(batch, ids[i], f);
    }
    var f :| f in outputs && f in blobs[i].mapping;
    HolderShape(batch, outputs, f);
  }

  /** No output field is in two opened files. */
  lemma OpenedDisjoint(blobs: seq<Blob>, ids: seq<FieldID>, batch: map<FieldID, Blob>, outputs: seq<FieldID>,
                       i: nat, j: nat, f: FieldID)
    requires AlignedBatch(batch, outputs) && OpenedBut(blobs, ids, batch, outputs, {})
    requires i < |blobs| && j < |blobs| && f in outputs && f in blobs[i].mapping && f in blobs[j].mapping
    ensures i == j
  {
    assert Holds(batch, ids[i], f) && Holds(batch, ids[j], f);
  }

  /** Every output field lives in some opened file. */
  lemma OpenedSomewhere(blobs: seq<Blob>, ids: seq<FieldID>, batch: map<FieldID, Blob>, outputs: seq<FieldID>,
                        f: FieldID)
    returns (i: nat)
    requires AlignedBatch(batch, outputs) && OpenedBut(blobs, ids, batch, outputs, {}) && f in outputs
    ensures i < |blobs| && f in blobs[i].mapping
  {
    var id :| Holds(batch, id, f);
    assert Hit(batch[id], outputs);
    i :| i < |ids| && ids[i] == id;
  }

  lemma SomethingOpened(blobs: seq<Blob>, ids: seq<FieldID>, batch: map<FieldID, Blob>, outputs: seq<FieldID>)
    requires AlignedBatch(batch, outputs) && OpenedBut(blobs, ids, batch, outputs, {}) && outputs != []
    ensures blobs != []
  {
    var i := OpenedSomewhere(blobs, ids, batch, outputs, outputs[0]);
  }

  // ---------- where the readers stand ----------

  predicate Stands(br: BinlogReader, rr: RecordReader, file: Blob, g: nat, r: nat) {
    g < |file.groups| && br == BinlogReader(file, g + 1) && rr == RecordReader(file.groups[g], r)
  }

  /** The first i files' readers stand at record (g', r'), the others at (g, r). */
  predicate Between(brs: seq<BinlogReader>, rrs: seq<RecordReader>, files: seq<Blob>, i: nat,
                    g: nat, r: nat, g': nat, r': nat)
  {
    && |brs| == |files| && |rrs| == |files|
    && (forall j | 0 <= j < i && j < |files| :: Stands(brs[j], rrs[j], files[j], g', r'))
    && (forall j | i <= j < |files| :: Stands(brs[j], rrs[j], files[j], g, r))
  }

  predicate AllStand(brs: seq<BinlogReader>, rrs: seq<RecordReader>, files: seq<Blob>, g: nat, r: nat) {
    Between(brs, rrs, files, 0, g, r, g, r)
  }

  lemma MoveOne(brs: seq<BinlogReader>, rrs: seq<RecordReader>, files: seq<Blob>, i: nat,
                g: nat, r: nat, g': nat, r': nat, br: BinlogReader, rr: RecordReader)
    requires Between(brs, rrs, files, i, g, r, g', r') && i < |files| && Stands(br, rr, files[i], g', r')
    ensures Between(brs[i := br], rrs[i := rr], files, i + 1, g, r, g', r')
  {
  }

  lemma Moved(brs: seq<BinlogReader>, rrs: seq<RecordReader>, files: seq<Blob>, g: nat, r: nat, g': nat, r': nat)
    ensures AllStand(brs, rrs, files, g, r) ==> Between(brs, rrs, files, 0, g, r, g', r')
    ensures Between(brs, rrs, files, |files|, g, r, g', r') ==> AllStand(brs, rrs, files, g', r')
  {
  }

  predicate Uniform(files: seq<Blob>, shape: seq<seq<nat>>) {
    forall i | 0 <= i < |files| :: Shape(files[i]) == shape
  }

  lemma OpenedUniform(files: seq<Blob>, ids: seq<FieldID>, batch: map<FieldID, Blob>, outputs: seq<FieldID>)
    requires AlignedBatch(batch, outputs) && OpenedBut(files, ids, batch, outputs, {}) && outputs != []
    ensures Uniform(files, BatchShape(batch, outputs))
  {
    forall i | 0 <= i < |files| ensures Shape(files[i]) == BatchShape(batch, outputs) {
      OpenedHolds(files, ids, batch, outputs, i);
    }
  }

  lemma GroupSizes(files: seq<Blob>, shape: seq<seq<nat>>, g: nat)
    requires Uniform(files, shape) && g < |shape|
    ensures forall i | 0 <= i < |files| :: |files[i].groups| == |shape| && |files[i].groups[g]| == |shape[g]|
  {
  }

  lemma StartOne(brs: seq<BinlogReader>, rrs: seq<RecordReader>, files: seq<Blob>, file: Blob)
    requires AllStand(brs, rrs, files, 0, 0) && file.groups != []
    ensures AllStand(brs + [BinlogReader(file, 1)], rrs + [RecordReader(file.groups[0], 0)], files + [file], 0, 0)
  {
  }

  predicate IsFileOf(blob: Blob, output: map<FieldID, Blob>) {
    exists id :: id in output && output[id] == blob
  }

  /** Exactly the files that hold some output field are open, each at its first group. */
  predicate OpensHits(brs: seq<BinlogReader>, output: map<FieldID, Blob>, outputs: seq<FieldID>) {
    && (forall br | br in brs :: br.next == 1 && IsFileOf(br.blob, output) && Hit(br.blob, outputs))
    && (forall id {:trigger Hit(output[id], outputs)} | id in output && Hit(output[id], outputs) ::
          BinlogReader(output[id], 1) in brs)
  }

  lemma AllOpened(brs: seq<BinlogReader>, rrs: seq<RecordReader>, files: seq<Blob>, ids: seq<FieldID>,
                  output: map<FieldID, Blob>, outputs: seq<FieldID>)
    requires OpenedBut(files, ids, output, outputs, {}) && AllStand(brs, rrs, files, 0, 0)
    ensures OpensHits(brs, output, outputs)
  {
  }

  /** Opens the files of a batch that hold some output field, in any order, each at its first group. */
  method OpenFiles(output: map<FieldID, Blob>, outputs: seq<FieldID>)
    returns (brs: seq<BinlogReader>, rrs: seq<RecordReader>, ghost files: seq<Blob>, ghost ids: seq<FieldID>)
    requires forall id {:trigger Hit(output[id], outputs)} | id in output && Hit(output[id], outputs) ::
      WellFormed(output[id], outputs)
    ensures OpensHits(brs, output, outputs)
    ensures OpenedBut(files, ids, output, outputs, {}) && AllStand(brs, rrs, files, 0, 0)
  {
    brs, rrs, files, ids := [], [], [], [];
    var todo := output.Keys;
    while todo != {}
      invariant todo <= output.Keys
      invariant OpenedBut(files, ids, output, outputs, todo) && AllStand(brs, rrs, files, 0, 0)
      decreases |todo|
    {
      var id :| id in todo;
      var file := output[id];
      OpenOne(files, ids, output, outputs, todo, id);
      todo := todo - {id};
      if Hit(file, outputs) {
        StartOne(brs, rrs, files, file);
        brs, rrs := brs + [BinlogReader(file, 1)], rrs + [RecordReader(file.groups[0], 0)];
        files, ids := files + [file], ids + [id];
      }
    }
    AllOpened(brs, rrs, files, ids, output, outputs);
  }

  /** Moves every file on to its next group of records; at the end of the files nothing moves. */
  method AdvanceGroups(brs: seq<BinlogReader>, rrs: seq<RecordReader>, ghost files: seq<Blob>,
                       ghost shape: seq<seq<nat>>, ghost g: nat)
    returns (ok: bool, brs': seq<BinlogReader>, rrs': seq<RecordReader>)
    requires Uniform(files, shape) && g < |shape| && AllStand(brs, rrs, files, g, |shape[g]|)
    ensures ok <==> brs != [] && g + 1 < |shape|
    ensures ok ==> AllStand(brs', rrs', files, g + 1, 0)
    ensures !ok ==> brs' == brs && rrs' == rrs
  {
    brs', rrs' := brs, rrs;
    if |brs| == 0 {
      return false, brs, rrs;
    }
    ghost var r := |shape[g]|;
    GroupSizes(files, shape, g);
    var i := 0;
    while i < |brs|
      invariant i <= |brs| == |brs'|
      invariant i > 0 ==> g + 1 < |shape|
      invariant i == 0 ==> brs' == brs && rrs' == rrs
      invariant Between(brs', rrs', files, i, g, r, g + 1, 0)
    {
      var br := brs'[i];
      if br.next >= |br.blob.groups| {
        return false, brs', rrs';
      }
      var br', rr := br.(next := br.next + 1), RecordReader(br.blob.groups[br.next], 0);
      MoveOne(brs', rrs', files, i, g, r, g + 1, 0, br', rr);
      brs', rrs' := brs'[i := br'], rrs'[i := rr];
      i := i + 1;
    }
    Moved(brs', rrs', files, g, r, g + 1, 0);
    ok := true;
  }

  /** The columns a composed record must carry. */
  ghost function ChunkColumns(batch: map<FieldID, Blob>, outputs: seq<FieldID>, g: nat, r: nat): (cols: Columns)
    requires AlignedBatch(batch, outputs) && outputs != []
    requires var shape := BatchShape(batch, outputs); g < |shape| && r < |shape[g]|
    ensures cols.Keys == set f | f in outputs
  {
    map f | f in outputs :: Chunk(batch, outputs, f, g, r)
  }

  /** The columns of the first n files have been gathered, and no others. */
  predicate Gathered(cols: Columns, blobs: seq<Blob>, want: Columns, n: nat) {
    && (forall f | f in cols :: f in want && cols[f] == want[f])
    && (forall j, f | 0 <= j < n && j < |blobs| && f in want && f in blobs[j].mapping :: f in cols)
    && (forall j, f | n <= j < |blobs| && f in want && f in blobs[j].mapping :: f !in cols)
  }

  lemma GatherOne(cols: Columns, mine: Columns, blobs: seq<Blob>, want: Columns, n: nat)
    requires n < |blobs| && Gathered(cols, blobs, want, n)
    requires forall f | f in mine :: f in want && f in blobs[n].mapping && mine[f] == want[f]
    requires forall f | f in want && f in blobs[n].mapping :: f in mine
    requires forall j, f | 0 <= j < |blobs| && f in want && f in blobs[n].mapping && f in blobs[j].mapping :: j == n
    ensures Gathered(cols + mine, blobs, want, n + 1)
  {
  }

  /** A file's record (g, r) has the wanted columns of the output fields the file holds. */
  predicate FileFits(file: Blob, outputs: seq<FieldID>, g: nat, r: nat, want: Columns, rows: nat) {
    && g < |file.groups| && r < |file.groups[g]| && file.groups[g][r].rows == rows
    && forall f | f in file.mapping && f in outputs ::
         && f in want && |want[f]| == rows
         && file.mapping[f] < |file.groups[g][r].columns|
         && At(file.groups[g][r], file.mapping[f]) == want[f]
  }

  predicate InBoth(files: seq<Blob>, i: nat, j: nat, f: FieldID) {
    i < |files| && j < |files| && f in files[i].mapping && f in files[j].mapping
  }

  /** The files' records (g, r) make up the wanted columns between them. */
  ghost predicate FilesFit(files: seq<Blob>, outputs: seq<FieldID>, g: nat, r: nat, want: Columns, rows: nat) {
    && (forall i | 0 <= i < |files| :: FileFits(files[i], outputs, g, r, want, rows))
    && (forall i, j, f | f in want && InBoth(files, i, j, f) :: i == j)
    && (forall f | f in want :: f in outputs && HeldBySome(files, f))
  }

  predicate HeldBySome(files: seq<Blob>, f: FieldID) {
    exists i :: 0 <= i < |files| && f in files[i].mapping
  }

  lemma OpenedFit(files: seq<Blob>, ids: seq<FieldID>, batch: map<FieldID, Blob>, outputs: seq<FieldID>,
                  g: nat, r: nat)
    requires AlignedBatch(batch, outputs) && OpenedBut(files, ids, batch, outputs, {}) && outputs != []
    requires var shape := BatchShape(batch, outputs); g < |shape| && r < |shape[g]|
    ensures FilesFit(files, outputs, g, r, ChunkColumns(batch, outputs, g, r), BatchShape(batch, outputs)[g][r])
  {
    var want, rows := ChunkColumns(batch, outputs, g, r), BatchShape(batch, outputs)[g][r];
    forall i | 0 <= i < |files| ensures FileFits(files[i], outputs, g, r, want, rows) {
      OpenedHolds(files, ids, batch, outputs, i);
      assert Shape(files[i])[g] == Sizes(files[i].groups[g]);
    }
    forall i, j, f | f in want && InBoth(files, i, j, f) ensures i == j {
      OpenedDisjoint(files, ids, batch, outputs, i, j, f);
    }
    forall f | f in want ensures HeldBySome(files, f) {
      var i := OpenedSomewhere(files, ids, batch, outputs, f);
    }
  }

  /** The columns of the first n files are gathered and placed. */
  predicate Composing(recs: seq<Column>, index: map<FieldID, nat>, cols: Columns, files: seq<Blob>, want: Columns,
                      rows: nat, n: nat)
  {
    Gathered(cols, files, want, n) && Placed(recs, index, cols, rows)
  }

  lemma Composed(recs: seq<Column>, index: map<FieldID, nat>, cols: Columns, files: seq<Blob>, want: Columns,
                 rows: nat)
    requires want != map[] && forall f | f in want :: HeldBySome(files, f)
    requires Composing(recs, index, cols, files, want, rows, |files|)
    ensures Carries(RecordBatch(index, recs), want, rows)
  {
  }

  lemma FileContributes(files: seq<Blob>, outputs: seq<FieldID>, n: nat, g: nat, r: nat, want: Columns, rows: nat,
                        cols: Columns)
    requires FilesFit(files, outputs, g, r, want, rows) && n < |files| && Gathered(cols, files, want, n)
    ensures FileFits(files[n], outputs, g, r, want, rows)
    ensures Fresh(files[n].groups[g][r], files[n].mapping, outputs, cols)
    ensures Gathered(cols + RecordColumns(files[n].groups[g][r], files[n].mapping, outputs), files, want, n + 1)
  {
    var mine := RecordColumns(files[n].groups[g][r], files[n].mapping, outputs);
    assert FileFits(files[n], outputs, g, r, want, rows);
    forall j, f | 0 <= j < |files| && f in want && f in files[n].mapping && f in files[j].mapping ensures j == n {
      assert InBoth(files, n, j, f);
    }
    GatherOne(cols, mine, files, want, n);
  }

  /** Adds file n's record to the composed one. */
  method AddFile(record: Record, mapping: map<FieldID, nat>, outputs: seq<FieldID>, recs: seq<Column>,
                 index: map<FieldID, nat>, ghost cols: Columns, ghost files: seq<Blob>, ghost n: nat,
                 ghost g: nat, ghost r: nat, ghost want: Columns)
    returns (recs': seq<Column>, index': map<FieldID, nat>, ghost cols': Columns)
    requires FilesFit(files, outputs, g, r, want, record.rows) && n < |files|
    requires FileFits(files[n], outputs, g, r, want, record.rows)
    requires mapping == files[n].mapping && record == files[n].groups[g][r]
    requires |recs| == |outputs| && Composing(recs, index, cols, files, want, record.rows, n)
    ensures |recs'| == |outputs| && Composing(recs', index', cols', files, want, record.rows, n + 1)
  {
    FileContributes(files, outputs, n, g, r, want, record.rows, cols);
    recs', index' := AddColumns(record, mapping, outputs, recs, index, cols);
    cols' := cols + RecordColumns(record, mapping, outputs);
  }

  /** Taking a record from file i's reader. */
  lemma ReadOne(brs: seq<BinlogReader>, rrs: seq<RecordReader>, files: seq<Blob>, size: nat, i: nat, g: nat, r: nat)
    requires Between(brs, rrs, files, i, g, r, g, r + 1) && i < |files|
    requires g < |files[i].groups| && |files[i].groups[g]| == size
    ensures |brs| == |files| && |rrs| == |files|
    ensures rrs[i] == RecordReader(files[i].groups[g], r) && brs[i].blob == files[i]
    ensures Between(brs, rrs[i := RecordReader(files[i].groups[g], r + 1)], files, i + 1, g, r, g, r + 1)
  {
  }

  /** One record of every open file, put together; nothing if the group has no more records. */
  method Compose(brs: seq<BinlogReader>, rrs: seq<RecordReader>, outputs: seq<FieldID>, ghost files: seq<Blob>,
                 ghost size: nat, ghost g: nat, ghost r: nat, ghost want: Columns, ghost rows: nat)
    returns (rec: Option<RecordBatch>, rrs': seq<RecordReader>)
    requires AllStand(brs, rrs, files, g, r) && files != [] && r <= size
    requires forall i | 0 <= i < |files| :: g < |files[i].groups| && |files[i].groups[g]| == size
    requires r < size ==> want != map[] && FilesFit(files, outputs, g, r, want, rows)
    ensures r == size ==> rec.None? && rrs' == rrs
    ensures r < size ==> rec.Some? && AllStand(brs, rrs', files, g, r + 1) && Carries(rec.value, want, rows)
  {
    rrs' := rrs;
    ghost var cols: Columns := map[];
    var recs: seq<Column> := seq(|outputs|, _ => []);
    var index: map<FieldID, nat> := map[];
    var i := 0;
    while i < |brs|
      invariant i <= |brs| && |recs| == |outputs|
      invariant i > 0 ==> r < size
      invariant i == 0 ==> rrs' == rrs
      invariant Between(brs, rrs', files, i, g, r, g, r + 1)
      invariant Composing(recs, index, cols, files, want, rows, i)
    {
      ReadOne(brs, rrs', files, size, i, g, r);
      var rr := rrs'[i];
      if rr.next >= |rr.records| {
        return None, rrs';
      }
      rrs' := rrs'[i := rr.(next := rr.next + 1)];
      assert FileFits(files[i], outputs, g, r, want, rows);
      recs, index, cols := AddFile(rr.records[rr.next], brs[i].blob.mapping, outputs, recs, index, cols,
                                   files, i, g, r, want);
      i := i + 1;
    }
    Moved(brs, rrs', files, g, r, g, r + 1);
    Composed(recs, index, cols, files, want, rows);
    rec := Some(RecordBatch(index, recs));
  }
}
