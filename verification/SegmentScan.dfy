// The segment reader's steps and the scan loop on top of them: storage/segment_reader.go,
// storage/common/batch_iterator.go and storage/segment_iterator.go.
module SegmentScan {
  import opened Prelude
  import opened SegmentFiles
  import opened SegmentRows
  import opened SegmentReaders

  lemma BatchExists(s: Segment, b: nat, batch: map<FieldID, Blob>)
    requires Aligned(s) && b < BatchCount(s.binlogs)
    requires InEveryField(s.binlogs, b) ==> batch == Selected(s.binlogs, s.selector, b)
    ensures batch == Batch(s, b)
  {
  }

  /** No more records in the current group, or nothing open yet. */
  ghost predicate AtGroupEnd(s: Segment, p: Position)
    requires Aligned(s) && InSegment(s, p)
  {
    p.Reading? ==> p.r == |ShapeOf(s, p.b)[p.g]|
  }

  function Passed(p: Position): Position
    requires p.Reading?
  {
    Reading(p.b, p.g, p.r + 1)
  }

  /** What the record at q must carry: every output field's values there. */
  ghost function RecordAt(s: Segment, q: Position): (cols: Columns)
    requires Aligned(s) && InSegment(s, q) && q.Reading? && !AtGroupEnd(s, q)
    ensures cols.Keys == set f | f in s.outputs
  {
    ChunkColumns(Batch(s, q.b), s.outputs, q.g, q.r)
  }

  ghost function RowsOf(s: Segment, q: Position): nat
    requires Aligned(s) && InSegment(s, q) && q.Reading? && !AtGroupEnd(s, q)
  {
    ShapeOf(s, q.b)[q.g][q.r]
  }

  /** The reader stands at p: the files of p's batch are open, and all their readers stand at p's record. */
  ghost predicate StandsAt(s: Segment, p: Position, started: bool, currentBatch: nat, batch: BatchInfo,
                           brs: seq<BinlogReader>, rrs: seq<RecordReader>, files: seq<Blob>, ids: seq<FieldID>)
    requires Aligned(s) && InSegment(s, p)
  {
    && started == p.Reading?
    && (p.Unopened? ==> currentBatch == 0 && brs == [] && rrs == [])
    && (p.Reading? ==>
          && currentBatch == p.b + 1 && batch == BatchInfo(p.b, Batch(s, p.b)) && files != []
          && OpenedBut(files, ids, Batch(s, p.b), s.outputs, {})
          && AllStand(brs, rrs, files, p.g, p.r))
  }

  lemma MovesWithin(s: Segment, p: Position, q: Position, started: bool, currentBatch: nat, batch: BatchInfo,
                    brs: seq<BinlogReader>, rrs: seq<RecordReader>, files: seq<Blob>, ids: seq<FieldID>,
                    brs': seq<BinlogReader>, rrs': seq<RecordReader>)
    requires Aligned(s) && InSegment(s, p) && InSegment(s, q) && p.Reading? && q.Reading? && p.b == q.b
    requires StandsAt(s, p, started, currentBatch, batch, brs, rrs, files, ids)
    requires AllStand(brs', rrs', files, q.g, q.r)
    ensures StandsAt(s, q, started, currentBatch, batch, brs', rrs', files, ids)
  {
  }

  lemma OpensAt(s: Segment, b: nat, currentBatch: nat, batch: BatchInfo,
                brs: seq<BinlogReader>, rrs: seq<RecordReader>, files: seq<Blob>, ids: seq<FieldID>)
    requires Aligned(s) && b < BatchCount(s.binlogs) && batch == BatchInfo(b, Batch(s, b)) && currentBatch == b + 1
    requires OpenedBut(files, ids, batch.output, s.outputs, {}) && AllStand(brs, rrs, files, 0, 0)
    ensures InSegment(s, Reading(b, 0, 0))
    ensures StandsAt(s, Reading(b, 0, 0), true, currentBatch, batch, brs, rrs, files, ids)
  {
    SomethingOpened(files, ids, batch.output, s.outputs);
  }

  lemma StandsInShape(s: Segment, p: Position, started: bool, currentBatch: nat, batch: BatchInfo,
                      brs: seq<BinlogReader>, rrs: seq<RecordReader>, files: seq<Blob>, ids: seq<FieldID>)
    requires Aligned(s) && InSegment(s, p) && p.Reading?
    requires StandsAt(s, p, started, currentBatch, batch, brs, rrs, files, ids)
    ensures files != [] && Uniform(files, ShapeOf(s, p.b)) && AllStand(brs, rrs, files, p.g, p.r)
    ensures !AtGroupEnd(s, p) ==> RecordAt(s, p) != map[]
    ensures !AtGroupEnd(s, p) ==> FilesFit(files, s.outputs, p.g, p.r, RecordAt(s, p), RowsOf(s, p))
  {
    OpenedUniform(files, ids, Batch(s, p.b), s.outputs);
    if !AtGroupEnd(s, p) {
      assert s.outputs[0] in RecordAt(s, p);
      OpenedFit(files, ids, Batch(s, p.b), s.outputs, p.g, p.r);
    }
  }

  /** Composes the record at p, if there is one, from readers that all stand there. */
  method ComposeAt(ghost s: Segment, ghost p: Position, outputs: seq<FieldID>, brs: seq<BinlogReader>,
                   rrs: seq<RecordReader>, ghost files: seq<Blob>)
    returns (rec: Option<RecordBatch>, rrs': seq<RecordReader>)
    requires Aligned(s) && InSegment(s, p) && p.Reading? && outputs == s.outputs
    requires files != [] && Uniform(files, ShapeOf(s, p.b)) && AllStand(brs, rrs, files, p.g, p.r)
    requires !AtGroupEnd(s, p) ==> RecordAt(s, p) != map[]
    requires !AtGroupEnd(s, p) ==> FilesFit(files, outputs, p.g, p.r, RecordAt(s, p), RowsOf(s, p))
    ensures AtGroupEnd(s, p) ==> rec.None? && rrs' == rrs
    ensures !AtGroupEnd(s, p) ==> rec.Some? && AllStand(brs, rrs', files, p.g, p.r + 1)
    ensures !AtGroupEnd(s, p) ==> Carries(rec.value, RecordAt(s, p), RowsOf(s, p))
  {
    ghost var size := |ShapeOf(s, p.b)[p.g]|;
    ghost var want: Columns, rows := map[], 0;
    GroupSizes(files, ShapeOf(s, p.b), p.g);
    if !AtGroupEnd(s, p) {
      want, rows := RecordAt(s, p), RowsOf(s, p);
    }
    rec, rrs' := Compose(brs, rrs, outputs, files, size, p.g, p.r, want, rows);
  }

  /** Composes the record the reader stands at, if there is one, and moves its readers past it. */
  method ComposeHere(ghost s: Segment, ghost p: Position, ghost started: bool, ghost currentBatch: nat,
                     ghost batch: BatchInfo, outputs: seq<FieldID>, brs: seq<BinlogReader>, rrs: seq<RecordReader>,
                     ghost files: seq<Blob>, ghost ids: seq<FieldID>)
    returns (rec: Option<RecordBatch>, rrs': seq<RecordReader>)
    requires Aligned(s) && InSegment(s, p) && p.Reading? && outputs == s.outputs
    requires StandsAt(s, p, started, currentBatch, batch, brs, rrs, files, ids)
    ensures AtGroupEnd(s, p) ==> rec.None? && rrs' == rrs
    ensures !AtGroupEnd(s, p) ==> rec.Some? && InSegment(s, Passed(p))
    ensures !AtGroupEnd(s, p) ==> StandsAt(s, Passed(p), started, currentBatch, batch, brs, rrs', files, ids)
    ensures !AtGroupEnd(s, p) ==> Carries(rec.value, RecordAt(s, p), RowsOf(s, p))
  {
    StandsInShape(s, p, started, currentBatch, batch, brs, rrs, files, ids);
    rec, rrs' := ComposeAt(s, p, outputs, brs, rrs, files);
    if !AtGroupEnd(s, p) {
      MovesWithin(s, p, Passed(p), started, currentBatch, batch, brs, rrs, files, ids, brs, rrs');
    }
  }

  /** Moves the readers from the end of a group to the start of the next, if the files have one. */
  method AdvanceHere(ghost s: Segment, ghost p: Position, ghost started: bool, ghost currentBatch: nat,
                     ghost batch: BatchInfo, brs: seq<BinlogReader>, rrs: seq<RecordReader>,
                     ghost files: seq<Blob>, ghost ids: seq<FieldID>)
    returns (ok: bool, brs': seq<BinlogReader>, rrs': seq<RecordReader>)
    requires Aligned(s) && InSegment(s, p) && p.Reading? && AtGroupEnd(s, p)
    requires StandsAt(s, p, started, currentBatch, batch, brs, rrs, files, ids)
    ensures ok <==> p.g + 1 < |ShapeOf(s, p.b)|
    ensures ok ==> var q := Reading(p.b, p.g + 1, 0);
      InSegment(s, q) && StandsAt(s, q, started, currentBatch, batch, brs', rrs', files, ids)
    ensures !ok ==> brs' == brs && rrs' == rrs
  {
    StandsInShape(s, p, started, currentBatch, batch, brs, rrs, files, ids);
    ok, brs', rrs' := AdvanceGroups(brs, rrs, files, ShapeOf(s, p.b), p.g);
    if ok {
      ghost var q := Reading(p.b, p.g + 1, 0);
      MovesWithin(s, p, q, started, currentBatch, batch, brs, rrs, files, ids, brs', rrs');
    }
  }

  class SegmentReader {
    const segment: Segment
    var currentBatch: nat
    var batch: BatchInfo
    var started: bool
    var brs: seq<BinlogReader>
    var rrs: seq<RecordReader>
    ghost var files: seq<Blob>
    ghost var ids: seq<FieldID>
    ghost var pos: Position

    /** The readers stand where pos says. */
    ghost predicate Valid()
      reads this
    {
      && Aligned(segment) && InSegment(segment, pos)
      && StandsAt(segment, pos, started, currentBatch, batch, brs, rrs, files, ids)
    }

    constructor (segment: Segment)
      requires Aligned(segment)
      ensures Valid() && this.segment == segment && pos == Unopened
    {
      this.segment := segment;
      currentBatch, started, brs, rrs := 0, false, [], [];
      batch := BatchInfo(0, map[]);
      files, ids, pos := [], [], Unopened;
    }

    /** The next batch's files, or nothing once some field has no more. */
    method NextBatch() returns (info: Option<BatchInfo>)
      requires Aligned(segment)
      modifies this`currentBatch
      ensures info.Some? <==> old(currentBatch) < BatchCount(segment.binlogs)
      ensures info.Some? ==> currentBatch == old(currentBatch) + 1
      ensures info.Some? ==> info.value == BatchInfo(old(currentBatch), Batch(segment, old(currentBatch)))
      ensures info.None? ==> currentBatch == old(currentBatch)
    {
      var target := SelectBinlogs(segment.selector, segment.binlogs, currentBatch);
      if target.None? {
        return None;
      }
      BatchExists(segment, currentBatch, target.value);
      info := Some(BatchInfo(currentBatch, target.value));
      currentBatch := currentBatch + 1;
    }

    /** Moves every file on to its next group of records; at the end of the files nothing moves. */
    method NextRecordReader() returns (ok: bool)
      requires Valid() && AtGroupEnd(segment, pos)
      modifies this`brs, this`rrs, this`pos
      ensures Valid()
      ensures ok <==> old(pos).Reading? && old(pos).g + 1 < |ShapeOf(segment, old(pos).b)|
      ensures ok ==> pos == Reading(old(pos).b, old(pos).g + 1, 0)
      ensures !ok ==> pos == old(pos)
    {
      if |brs| == 0 {
        return false;
      }
      ok, brs, rrs := AdvanceHere(segment, pos, started, currentBatch, batch, brs, rrs, files, ids);
      if ok {
        pos := Reading(pos.b, pos.g + 1, 0);
      }
    }

    /** To the next group of this batch, or else to the next batch. */
    method IterateNext() returns (ok: bool)
      requires Valid() && AtGroupEnd(segment, pos)
      modifies this
      ensures Valid()
      ensures ok <==> NextRecord(segment, old(pos)).Some?
      ensures ok ==> pos == NextRecord(segment, old(pos)).value
      ensures !ok ==> pos == old(pos)
    {
      var more := NextRecordReader();
      if more {
        return true;
      }
      var info := NextBatch();
      if info.None? {
        return false;
      }
      batch := info.value;
      brs, rrs, files, ids := OpenFiles(batch.output, segment.outputs);
      OpensAt(segment, batch.batchIdx, currentBatch, batch, brs, rrs, files, ids);
      started, pos := true, Reading(batch.batchIdx, 0, 0);
      return true;
    }

    /** One record of every open file, put together; nothing if the group has no more records. */
    method ComposeRecord() returns (rec: Option<RecordBatch>)
      requires Valid() && pos.Reading?
      modifies this`rrs, this`pos
      ensures Valid() && pos.Reading?
      ensures AtGroupEnd(segment, old(pos)) ==> rec.None? && pos == old(pos)
      ensures !AtGroupEnd(segment, old(pos)) ==> rec.Some? && pos == Passed(old(pos))
      ensures !AtGroupEnd(segment, old(pos)) ==>
        Carries(rec.value, RecordAt(segment, old(pos)), RowsOf(segment, old(pos)))
    {
      rec, rrs := ComposeHere(segment, pos, started, currentBatch, batch, segment.outputs, brs, rrs, files, ids);
      if rec.Some? {
        pos := Passed(pos);
      }
    }

    /** The next record and the batch it belongs to, or the end of the segment. */
    method Next() returns (rec: Option<RecordBatch>)
      requires Valid()
      modifies this
      ensures Valid()
      ensures rec.Some? <==> NextRecord(segment, old(pos)).Some?
      ensures rec.None? ==> pos == old(pos)
      ensures rec.Some? ==> pos == Passed(NextRecord(segment, old(pos)).value)
      ensures rec.Some? ==>
        var q := NextRecord(segment, old(pos)).value;
        Carries(rec.value, RecordAt(segment, q), RowsOf(segment, q))
    {
      if !started {
        var ok := IterateNext();
        if !ok {
          return None;
        }
      }
      rec := ComposeRecord();
      if rec.None? {
        var ok := IterateNext();
        if !ok {
          return None;
        }
        rec := ComposeRecord();
      }
    }
  }
}
