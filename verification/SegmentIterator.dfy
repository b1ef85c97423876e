// The scan loop: rows are taken record by record and handed on with their batch, their index in it,
// their primary key and their values (storage/segment_iterator.go).
module SegmentIterator {
  import opened Prelude
  import opened SegmentFiles
  import opened SegmentRows
  import opened SegmentReaders
  import opened SegmentScan

  datatype DataType = Int64 | VarChar | OtherType

  datatype Outcome = Scanned(rows: seq<Row>) | UnsupportedVersion | UnsupportedPrimaryKey

  function SelectorFor(storageVersion: int, outputs: seq<FieldID>): Option<Selector> {
    var chosen := set f | f in outputs;
    if storageVersion == 0 || storageVersion == 1 then Some(FieldIDSelector(chosen))
    else if storageVersion == 2 then Some(MatchingWideColumnSelector(chosen))
    else None
  }

  /** Which fields' files a batch holds: the output fields', and in storage version 2 also those with an
      id below 100; other versions have no selector. */
  lemma VersionSelects(storageVersion: int, outputs: seq<FieldID>, binlogs: seq<FieldBinlog>, b: nat, id: FieldID)
    requires forall k | 0 <= k < |binlogs| :: b < |binlogs[k].logs|
    requires forall i, j | 0 <= i < j < |binlogs| :: binlogs[i].fieldID != binlogs[j].fieldID
    ensures SelectorFor(storageVersion, outputs).Some? <==> 0 <= storageVersion <= 2
    ensures 0 <= storageVersion <= 2 ==>
              (id in Selected(binlogs, SelectorFor(storageVersion, outputs).value, b) <==>
                 && (id in outputs || (storageVersion == 2 && id.n < 100))
                 && exists k :: 0 <= k < |binlogs| && binlogs[k].fieldID == id)
  {
    if 0 <= storageVersion <= 2 {
      SelectedExactly(binlogs, SelectorFor(storageVersion, outputs).value, b, id);
    }
  }

  /** Whether every filter matches the row. */
  function Passes(filters: seq<Row -> bool>): Row -> bool {
    row => forall k | 0 <= k < |filters| :: filters[k](row)
  }

  method Scan(row: Row, filters: seq<Row -> bool>) returns (keep: bool)
    ensures keep == Passes(filters)(row)
    ensures keep <==> forall k | 0 <= k < |filters| :: filters[k](row)
  {
    var k := 0;
    while k < |filters|
      invariant k <= |filters|
      invariant forall j | 0 <= j < k :: filters[j](row)
    {
      if !filters[k](row) {
        return false;
      }
      k := k + 1;
    }
    return true;
  }

  // ---------- the rows of one record ----------

  predicate SliceOf(all: Column, part: Column, k: nat, rows: nat) {
    k + rows <= |all| && |part| == rows && all[k..k + rows] == part
  }

  /** The columns of chunk are those of full from row k on, rows of them. */
  predicate Slice(full: Columns, chunk: Columns, k: nat, rows: nat) {
    full.Keys == chunk.Keys && forall f | f in chunk :: SliceOf(full[f], chunk[f], k, rows)
  }

  lemma SliceRow(full: Columns, chunk: Columns, k: nat, rows: nat, i: nat, b: nat, pkField: FieldID, row: Row)
    requires Slice(full, chunk, k, rows) && i < rows && row.values == ValuesAt(chunk, i)
    requires row.pk == if pkField in chunk then Some(chunk[pkField][i]) else None
    requires row.batchIdx == b && row.offset == k + i
    ensures Tall(full, row.offset + 1) && row == RowAt(b, pkField, full, row.offset)
  {
  }

  lemma OffsetPassed(s: Segment, q: Position)
    requires Aligned(s) && InSegment(s, q) && q.Reading? && !AtGroupEnd(s, q)
    ensures InSegment(s, Passed(q)) && OffsetOf(s, Passed(q)) == OffsetOf(s, q) + RowsOf(s, q)
  {
  }

  lemma FieldPlace(s: Segment, q: Position, f: FieldID)
    requires Aligned(s) && InSegment(s, q) && q.Reading? && !AtGroupEnd(s, q) && f in s.outputs
    ensures SliceOf(FieldData(Batch(s, q.b), s.outputs, f), RecordAt(s, q)[f], OffsetOf(s, q), RowsOf(s, q))
  {
    ChunkPlace(Batch(s, q.b), s.outputs, f, q.g, q.r);
  }

  lemma RecordPlace(s: Segment, q: Position)
    requires Aligned(s) && InSegment(s, q) && q.Reading? && !AtGroupEnd(s, q)
    ensures Slice(BatchColumns(s, q.b), RecordAt(s, q), OffsetOf(s, q), RowsOf(s, q))
  {
    var full, chunk, k, rows := BatchColumns(s, q.b), RecordAt(s, q), OffsetOf(s, q), RowsOf(s, q);
    forall f | f in chunk ensures SliceOf(full[f], chunk[f], k, rows) {
      FieldPlace(s, q, f);
    }
  }

  /** Row i of a record: every output field's value, and the primary key if it is among them. */
  method ReadRow(rec: RecordBatch, i: nat, outputs: seq<FieldID>, pkField: FieldID, pk: Option<Value>,
                 ghost chunk: Columns, ghost rows: nat)
    returns (pk': Option<Value>, values: map<FieldID, Value>)
    requires Carries(rec, chunk, rows) && chunk.Keys == (set f | f in outputs) && i < rows
    requires Tall(chunk, rows)
    requires pkField !in chunk ==> pk == None
    ensures values == ValuesAt(chunk, i)
    ensures pk' == if pkField in chunk then Some(chunk[pkField][i]) else None
  {
    pk', values := pk, map[];
    var j := 0;
    while j < |outputs|
      invariant j <= |outputs|
      invariant values.Keys == set f | f in outputs[..j]
      invariant forall f | f in values :: f in chunk && values[f] == chunk[f][i]
      invariant pk' == if pkField in values then Some(chunk[pkField][i]) else pk
    {
      var f := outputs[j];
      assert f in chunk;
      var column := rec.ColumnOf(f).value;
      values := values[f := column[i]];
      if f == pkField {
        pk' := Some(column[i]);
      }
      assert outputs[..j + 1] == outputs[..j] + [f];
      j := j + 1;
    }
    assert outputs[..j] == outputs;
  }

  /** The rows taken so far: those before the batch, and those of its first n rows that pass. */
  predicate Taken(taken: seq<Row>, before: seq<Row>, b: nat, pkField: FieldID, full: Columns, n: nat, pass: Row -> bool) {
    Tall(full, n) && taken == before + Filter(Rows(b, pkField, full, n), pass)
  }

  lemma TakeRow(taken: seq<Row>, before: seq<Row>, b: nat, pkField: FieldID, full: Columns, n: nat, row: Row,
                pass: Row -> bool)
    requires Taken(taken, before, b, pkField, full, n, pass)
    requires Tall(full, n + 1) && row == RowAt(b, pkField, full, n)
    ensures Taken(if pass(row) then taken + [row] else taken, before, b, pkField, full, n + 1, pass)
  {
    var rows := Rows(b, pkField, full, n);
    FilterAppend(rows, [row], pass);
    assert [row][1..] == [];
    Regroup(before, Filter(rows, pass), [row]);
  }

  /** One row of a record, filtered and handed on. */
  method ScanRow(rec: RecordBatch, i: nat, b: nat, offset: nat, outputs: seq<FieldID>, pkField: FieldID,
                 filters: seq<Row -> bool>, pk: Option<Value>, taken: seq<Row>, ghost start: nat,
                 ghost before: seq<Row>, ghost full: Columns, ghost chunk: Columns, ghost rows: nat)
    returns (pk': Option<Value>, taken': seq<Row>)
    requires Carries(rec, chunk, rows) && chunk.Keys == (set f | f in outputs) && i < rows && offset == start + i
    requires Slice(full, chunk, start, rows)
    requires pkField !in chunk ==> pk == None
    requires Taken(taken, before, b, pkField, full, offset, Passes(filters))
    ensures pkField !in chunk ==> pk' == None
    ensures Taken(taken', before, b, pkField, full, offset + 1, Passes(filters))
  {
    var values;
    pk', values := ReadRow(rec, i, outputs, pkField, pk, chunk, rows);
    var row := Row(b, offset, pk', values);
    SliceRow(full, chunk, start, rows, i, b, pkField, row);
    TakeRow(taken, before, b, pkField, full, offset, row, Passes(filters));
    var keep := Scan(row, filters);
    taken' := if keep then taken + [row] else taken;
  }

  /** Hands on the rows of one record, counting the offset up. */
  method ScanRecord(rec: RecordBatch, b: nat, start: nat, outputs: seq<FieldID>, pkField: FieldID,
                    filters: seq<Row -> bool>, pk: Option<Value>, taken: seq<Row>,
                    ghost before: seq<Row>, ghost full: Columns, ghost chunk: Columns, ghost rows: nat)
    returns (pk': Option<Value>, offset: nat, taken': seq<Row>)
    requires Carries(rec, chunk, rows) && chunk.Keys == (set f | f in outputs)
    requires Slice(full, chunk, start, rows)
    requires pkField !in chunk ==> pk == None
    requires Taken(taken, before, b, pkField, full, start, Passes(filters))
    ensures pkField !in chunk ==> pk' == None
    ensures offset == start + rows && Taken(taken', before, b, pkField, full, offset, Passes(filters))
  {
    pk', offset, taken' := pk, start, taken;
    var i := 0;
    while i < rec.Len()
      invariant i <= rows && offset == start + i
      invariant pkField !in chunk ==> pk' == None
      invariant Taken(taken', before, b, pkField, full, offset, Passes(filters))
    {
      pk', taken' := ScanRow(rec, i, b, offset, outputs, pkField, filters, pk', taken',
                             start, before, full, chunk, rows);
      offset := offset + 1;
      i := i + 1;
    }
  }

  // ---------- the scan ----------

  ghost function BatchesLeft(s: Segment, p: Position): nat
    requires Aligned(s) && InSegment(s, p)
  {
    if p.Unopened? then BatchCount(s.binlogs) + 1 else BatchCount(s.binlogs) - p.b
  }

  ghost function GroupsLeft(s: Segment, p: Position): nat
    requires Aligned(s) && InSegment(s, p)
  {
    if p.Unopened? then 0 else |ShapeOf(s, p.b)| - p.g
  }

  ghost function RecordsLeft(s: Segment, p: Position): nat
    requires Aligned(s) && InSegment(s, p)
  {
    if p.Unopened? then 0 else |ShapeOf(s, p.b)[p.g]| - p.r
  }

  lemma MovingOnEnds(s: Segment, p: Position, q: Position)
    requires Aligned(s) && InSegment(s, p) && NextRecord(s, p) == Some(q)
    ensures InSegment(s, Passed(q))
    ensures var q' := Passed(q);
      || BatchesLeft(s, q') < BatchesLeft(s, p)
      || (BatchesLeft(s, q') == BatchesLeft(s, p) && GroupsLeft(s, q') < GroupsLeft(s, p))
      || (BatchesLeft(s, q') == BatchesLeft(s, p) && GroupsLeft(s, q') == GroupsLeft(s, p)
          && RecordsLeft(s, q') < RecordsLeft(s, p))
  {
  }

  /** What has been taken when the scan stands at p. */
  ghost predicate TakenAt(s: Segment, pkField: FieldID, pass: Row -> bool, p: Position, taken: seq<Row>)
    requires Aligned(s) && InSegment(s, p)
  {
    taken == Filter(Offered(s, pkField, p), pass)
  }

  ghost function Before(s: Segment, pkField: FieldID, pass: Row -> bool, p: Position): seq<Row>
    requires Aligned(s) && InSegment(s, p) && p.Reading?
  {
    Filter(AllRows(s, pkField, p.b), pass)
  }

  lemma TakenInBatch(s: Segment, pkField: FieldID, pass: Row -> bool, p: Position, taken: seq<Row>)
    requires Aligned(s) && InSegment(s, p) && p.Reading?
    ensures TakenAt(s, pkField, pass, p, taken) <==>
      Taken(taken, Before(s, pkField, pass, p), p.b, pkField, BatchColumns(s, p.b), OffsetOf(s, p), pass)
  {
    OffsetFits(s, p);
    FilterAppend(AllRows(s, pkField, p.b), Rows(p.b, pkField, BatchColumns(s, p.b), OffsetOf(s, p)), pass);
  }

  /** Everything a complete scan hands on. */
  ghost predicate TakenAll(s: Segment, pkField: FieldID, pass: Row -> bool, taken: seq<Row>)
    requires Aligned(s)
  {
    taken == Filter(AllRows(s, pkField, BatchCount(s.binlogs)), pass)
  }

  /** Hands on the rows of the record read at q. */
  method ScanNext(rec: RecordBatch, b: nat, start: nat, outputs: seq<FieldID>, pkField: FieldID,
                  filters: seq<Row -> bool>, pk: Option<Value>, taken: seq<Row>, ghost s: Segment, ghost q: Position)
    returns (pk': Option<Value>, offset: nat, taken': seq<Row>)
    requires Aligned(s) && InSegment(s, q) && q.Reading? && !AtGroupEnd(s, q)
    requires outputs == s.outputs && b == q.b && start == OffsetOf(s, q)
    requires Carries(rec, RecordAt(s, q), RowsOf(s, q))
    requires pkField !in outputs ==> pk == None
    requires TakenAt(s, pkField, Passes(filters), q, taken)
    ensures pkField !in outputs ==> pk' == None
    ensures InSegment(s, Passed(q)) && offset == OffsetOf(s, Passed(q))
    ensures TakenAt(s, pkField, Passes(filters), Passed(q), taken')
  {
    RecordPlace(s, q);
    OffsetPassed(s, q);
    TakenInBatch(s, pkField, Passes(filters), q, taken);
    pk', offset, taken' := ScanRecord(rec, b, start, outputs, pkField, filters, pk, taken,
                                      Before(s, pkField, Passes(filters), q), BatchColumns(s, q.b),
                                      RecordAt(s, q), RowsOf(s, q));
    TakenInBatch(s, pkField, Passes(filters), Passed(q), taken');
  }

  method ScanAll(reader: SegmentReader, pkField: FieldID, filters: seq<Row -> bool>) returns (taken: seq<Row>)
    requires reader.Valid() && reader.pos == Unopened
    modifies reader
    ensures TakenAll(reader.segment, pkField, Passes(filters), taken)
  {
    var pk: Option<Value> := None;
    var offset: nat := 0;
    var batchIdx: int := -1;
    taken := [];
    while true
      invariant reader.Valid()
      invariant batchIdx == (if reader.pos.Reading? then reader.pos.b else -1)
      invariant offset == OffsetOf(reader.segment, reader.pos)
      invariant TakenAt(reader.segment, pkField, Passes(filters), reader.pos, taken)
      invariant pkField !in reader.segment.outputs ==> pk == None
      decreases BatchesLeft(reader.segment, reader.pos), GroupsLeft(reader.segment, reader.pos),
        RecordsLeft(reader.segment, reader.pos)
    {
      ghost var s, p := reader.segment, reader.pos;
      var rec := reader.Next();
      if rec.None? {
        EndIsAfterAllRows(s, pkField, p);
        return taken;
      }
      ghost var q := NextRecord(s, p).value;
      MovingOnSkipsNothing(s, pkField, p);
      MovingOnEnds(s, p, q);
      if reader.batch.batchIdx != batchIdx {
        batchIdx, offset := reader.batch.batchIdx, 0;
      }
      pk, offset, taken := ScanNext(rec.value, batchIdx, offset, reader.segment.outputs, pkField, filters, pk, taken,
                                    s, q);
    }
  }

  /** Scans a segment: the rows of its batches that pass every filter, each once and in order. */
  method Range(binlogs: seq<FieldBinlog>, storageVersion: int, outputs: seq<FieldID>, pkField: FieldID,
               pkType: DataType, filters: seq<Row -> bool>)
    returns (outcome: Outcome)
    requires forall i, j | 0 <= i < j < |outputs| :: outputs[i] != outputs[j]
    requires var selector := SelectorFor(storageVersion, outputs);
      selector.Some? ==> Aligned(Segment(binlogs, selector.value, outputs))
    ensures outcome.UnsupportedVersion? <==> storageVersion !in [0, 1, 2]
    ensures outcome.UnsupportedPrimaryKey? <==> storageVersion in [0, 1, 2] && pkType.OtherType?
    ensures outcome.Scanned? ==>
      var s := Segment(binlogs, SelectorFor(storageVersion, outputs).value, outputs);
      outcome.rows == Filter(AllRows(s, pkField, BatchCount(binlogs)), Passes(filters))
  {
    var selector := SelectorFor(storageVersion, outputs);
    if selector.None? {
      return UnsupportedVersion;
    }
    var reader := new SegmentReader(Segment(binlogs, selector.value, outputs));
    if pkType.OtherType? {
      return UnsupportedPrimaryKey;
    }
    var rows := ScanAll(reader, pkField, filters);
    return Scanned(rows);
  }
}
