// What a scan of a segment must offer: the rows of its complete batches, in order
// (storage/segment_iterator.go).
module SegmentRows {
  import opened Prelude
  import opened SegmentFiles

  /** One row handed to the filters: its batch, its index within that batch, its primary key and its values. */
  datatype Row = Row(batchIdx: nat, offset: nat, pk: Option<Value>, values: map<FieldID, Value>)

  type Columns = map<FieldID, Column>

  predicate Tall(cols: Columns, n: nat) {
    forall f | f in cols :: n <= |cols[f]|
  }

  function ValuesAt(cols: Columns, i: nat): map<FieldID, Value>
    requires Tall(cols, i + 1)
  {
    map f | f in cols :: cols[f][i]
  }

  function RowAt(b: nat, pkField: FieldID, cols: Columns, i: nat): Row
    requires Tall(cols, i + 1)
  {
    Row(b, i, if pkField in cols then Some(cols[pkField][i]) else None, ValuesAt(cols, i))
  }

  /** The first n rows of batch b, given its columns. */
  function Rows(b: nat, pkField: FieldID, cols: Columns, n: nat): seq<Row>
    requires Tall(cols, n)
  {
    if n == 0 then [] else Rows(b, pkField, cols, n - 1) + [RowAt(b, pkField, cols, n - 1)]
  }

  ghost predicate Aligned(s: Segment) {
    && s.outputs != []
    && forall b: nat | InEveryField(s.binlogs, b) :: AlignedBatch(Selected(s.binlogs, s.selector, b), s.outputs)
  }

  ghost function Batch(s: Segment, b: nat): (batch: map<FieldID, Blob>)
    requires Aligned(s) && b < BatchCount(s.binlogs)
    ensures InEveryField(s.binlogs, b) && batch == Selected(s.binlogs, s.selector, b)
    ensures AlignedBatch(batch, s.outputs)
  {
    ShortestFieldCounts(s.binlogs, b);
    Selected(s.binlogs, s.selector, b)
  }

  ghost function ShapeOf(s: Segment, b: nat): (shape: seq<seq<nat>>)
    requires Aligned(s) && b < BatchCount(s.binlogs)
    ensures shape != [] && forall g | 0 <= g < |shape| :: shape[g] != []
  {
    BatchShape(Batch(s, b), s.outputs)
  }

  ghost function Height(s: Segment, b: nat): nat
    requires Aligned(s) && b < BatchCount(s.binlogs)
  {
    var shape := ShapeOf(s, b);
    RowsBefore(shape, |shape|)
  }

  /** Every output field's data in batch b. */
  ghost function BatchColumns(s: Segment, b: nat): (cols: Columns)
    requires Aligned(s) && b < BatchCount(s.binlogs)
    ensures cols.Keys == set f | f in s.outputs
    ensures forall f | f in s.outputs :: cols[f] == FieldData(Batch(s, b), s.outputs, f)
    ensures forall f | f in cols :: |cols[f]| == Height(s, b)
  {
    var batch := Batch(s, b);
    forall f | f in s.outputs ensures |FieldData(batch, s.outputs, f)| == Height(s, b) {
      BatchHeight(batch, s.outputs, f);
    }
    map f | f in s.outputs :: FieldData(batch, s.outputs, f)
  }

  ghost function BatchRows(s: Segment, pkField: FieldID, b: nat): seq<Row>
    requires Aligned(s) && b < BatchCount(s.binlogs)
  {
    Rows(b, pkField, BatchColumns(s, b), Height(s, b))
  }

  /** The rows of the first n batches. */
  ghost function AllRows(s: Segment, pkField: FieldID, n: nat): seq<Row>
    requires Aligned(s) && n <= BatchCount(s.binlogs)
  {
    if n == 0 then [] else AllRows(s, pkField, n - 1) + BatchRows(s, pkField, n - 1)
  }

  lemma {:induction false} RowsIndexed(b: nat, pkField: FieldID, cols: Columns, n: nat, i: nat)
    requires Tall(cols, n) && i < n
    ensures |Rows(b, pkField, cols, n)| == n && Rows(b, pkField, cols, n)[i] == RowAt(b, pkField, cols, i)
  {
    if i < n - 1 {
      RowsIndexed(b, pkField, cols, n - 1, i);
    } else if n > 1 {
      RowsIndexed(b, pkField, cols, n - 1, 0);
    }
  }

  /** Row i of a batch carries its own index and every output field's i-th value in that batch. */
  lemma BatchRowsAreItsData(s: Segment, pkField: FieldID, b: nat, i: nat, f: FieldID)
    requires Aligned(s) && b < BatchCount(s.binlogs) && i < Height(s, b) && f in s.outputs
    ensures |BatchRows(s, pkField, b)| == Height(s, b) == |FieldData(Batch(s, b), s.outputs, f)|
    ensures var row := BatchRows(s, pkField, b)[i];
      && row.batchIdx == b && row.offset == i
      && row.values.Keys == (set x | x in s.outputs)
      && row.values[f] == FieldData(Batch(s, b), s.outputs, f)[i]
  {
    RowsIndexed(b, pkField, BatchColumns(s, b), Height(s, b), i);
  }

  // ---------- positions ----------

  /** How far a scan has come: nothing opened, or the records before record r of group g of batch b read. */
  datatype Position = Unopened | Reading(b: nat, g: nat, r: nat)

  ghost predicate InSegment(s: Segment, p: Position)
    requires Aligned(s)
  {
    p.Reading? ==> p.b < BatchCount(s.binlogs) && InShape(ShapeOf(s, p.b), p.g, p.r)
  }

  /** The next record to read: in this group, else the next group, else the next batch. */
  ghost function NextRecord(s: Segment, p: Position): (q: Option<Position>)
    requires Aligned(s) && InSegment(s, p)
    ensures q.Some? ==> q.value.Reading? && InSegment(s, q.value)
    ensures q.Some? ==> q.value.r < |ShapeOf(s, q.value.b)[q.value.g]|
  {
    if p.Unopened? then (if 0 < BatchCount(s.binlogs) then Some(Reading(0, 0, 0)) else None)
    else
      var shape := ShapeOf(s, p.b);
      if p.r < |shape[p.g]| then Some(p)
      else if p.g + 1 < |shape| then Some(Reading(p.b, p.g + 1, 0))
      else if p.b + 1 < BatchCount(s.binlogs) then Some(Reading(p.b + 1, 0, 0))
      else None
  }

  ghost function OffsetOf(s: Segment, p: Position): nat
    requires Aligned(s) && InSegment(s, p)
  {
    if p.Unopened? then 0 else Offset(ShapeOf(s, p.b), p.g, p.r)
  }

  lemma {:induction false} RowsInMonotone(sizes: seq<nat>, m: nat, n: nat)
    requires m <= n <= |sizes|
    ensures RowsIn(sizes, m) <= RowsIn(sizes, n)
  {
    if m < n {
      RowsInMonotone(sizes, m, n - 1);
    }
  }

  lemma {:induction false} RowsBeforeMonotone(shape: seq<seq<nat>>, m: nat, n: nat)
    requires m <= n <= |shape|
    ensures RowsBefore(shape, m) <= RowsBefore(shape, n)
  {
    if m < n {
      RowsBeforeMonotone(shape, m, n - 1);
    }
  }

  lemma OffsetFits(s: Segment, p: Position)
    requires Aligned(s) && InSegment(s, p) && p.Reading?
    ensures OffsetOf(s, p) <= Height(s, p.b)
  {
    var shape := ShapeOf(s, p.b);
    RowsInMonotone(shape[p.g], p.r, |shape[p.g]|);
    RowsBeforeMonotone(shape, p.g + 1, |shape|);
  }

  /** The rows offered by the time position p is reached. */
  ghost function Offered(s: Segment, pkField: FieldID, p: Position): seq<Row>
    requires Aligned(s) && InSegment(s, p)
  {
    if p.Unopened? then []
    else
      OffsetFits(s, p);
      AllRows(s, pkField, p.b) + Rows(p.b, pkField, BatchColumns(s, p.b), OffsetOf(s, p))
  }

  lemma OneMoreBatch(s: Segment, pkField: FieldID, b: nat, n: nat, rows: seq<Row>)
    requires Aligned(s) && b < BatchCount(s.binlogs) && n == b + 1
    requires rows == AllRows(s, pkField, b) + BatchRows(s, pkField, b)
    ensures rows == AllRows(s, pkField, n)
  {
  }

  /** At the end of a batch's last group all of its rows have been offered. */
  lemma BatchEnds(s: Segment, pkField: FieldID, b: nat, g: nat, r: nat)
    requires Aligned(s) && InSegment(s, Reading(b, g, r))
    requires var shape := ShapeOf(s, b); g == |shape| - 1 && r == |shape[g]|
    ensures Offered(s, pkField, Reading(b, g, r)) == AllRows(s, pkField, b) + BatchRows(s, pkField, b)
  {
    var shape := ShapeOf(s, b);
    assert OffsetOf(s, Reading(b, g, r)) == RowsBefore(shape, |shape|);
  }

  /** At the start of a batch only the rows of earlier batches have been. */
  lemma BatchStarts(s: Segment, pkField: FieldID, b: nat)
    requires Aligned(s) && b < BatchCount(s.binlogs)
    ensures InSegment(s, Reading(b, 0, 0)) && OffsetOf(s, Reading(b, 0, 0)) == 0
    ensures Offered(s, pkField, Reading(b, 0, 0)) == AllRows(s, pkField, b)
  {
  }

  lemma GroupEnds(s: Segment, pkField: FieldID, p: Position)
    requires Aligned(s) && InSegment(s, p) && p.Reading?
    requires var shape := ShapeOf(s, p.b); p.g + 1 < |shape| && p.r == |shape[p.g]|
    ensures var q := Reading(p.b, p.g + 1, 0); InSegment(s, q) && OffsetOf(s, q) == OffsetOf(s, p)
    ensures Offered(s, pkField, Reading(p.b, p.g + 1, 0)) == Offered(s, pkField, p)
  {
  }

  ghost predicate SkipsNothing(s: Segment, pkField: FieldID, p: Position, q: Position)
    requires Aligned(s) && InSegment(s, p) && InSegment(s, q)
  {
    && Offered(s, pkField, q) == Offered(s, pkField, p)
    && OffsetOf(s, q) == (if p.Reading? && q.Reading? && q.b == p.b then OffsetOf(s, p) else 0)
  }

  lemma GroupEndSkipsNothing(s: Segment, pkField: FieldID, p: Position)
    requires Aligned(s) && InSegment(s, p) && p.Reading?
    requires var shape := ShapeOf(s, p.b); p.g + 1 < |shape| && p.r == |shape[p.g]|
    ensures var q := Reading(p.b, p.g + 1, 0);
      NextRecord(s, p) == Some(q) && InSegment(s, q) && SkipsNothing(s, pkField, p, q)
  {
    GroupEnds(s, pkField, p);
  }

  lemma BatchEndSkipsNothing(s: Segment, pkField: FieldID, p: Position)
    requires Aligned(s) && InSegment(s, p) && p.Reading?
    requires var shape := ShapeOf(s, p.b); p.g == |shape| - 1 && p.r == |shape[p.g]|
    requires p.b + 1 < BatchCount(s.binlogs)
    ensures var q := Reading(p.b + 1, 0, 0);
      NextRecord(s, p) == Some(q) && InSegment(s, q) && SkipsNothing(s, pkField, p, q)
  {
    var b, n := p.b, p.b + 1;
    BatchEnds(s, pkField, b, p.g, p.r);
    OneMoreBatch(s, pkField, b, n, Offered(s, pkField, p));
    BatchStarts(s, pkField, n);
  }

  /** Moving on to the next record skips no row. */
  lemma MovingOnSkipsNothing(s: Segment, pkField: FieldID, p: Position)
    requires Aligned(s) && InSegment(s, p) && NextRecord(s, p).Some?
    ensures SkipsNothing(s, pkField, p, NextRecord(s, p).value)
  {
    if p.Unopened? {
      BatchStarts(s, pkField, 0);
    } else if p.r < |ShapeOf(s, p.b)[p.g]| {
      assert NextRecord(s, p) == Some(p);
    } else if p.g + 1 < |ShapeOf(s, p.b)| {
      GroupEndSkipsNothing(s, pkField, p);
    } else {
      BatchEndSkipsNothing(s, pkField, p);
    }
  }

  /** The end is reached only after all rows of all batches. */
  lemma EndIsAfterAllRows(s: Segment, pkField: FieldID, p: Position)
    requires Aligned(s) && InSegment(s, p) && NextRecord(s, p).None?
    ensures Offered(s, pkField, p) == AllRows(s, pkField, BatchCount(s.binlogs))
  {
    if p.Reading? {
      var b, n := p.b, p.b + 1;
      assert n == BatchCount(s.binlogs);
      BatchEnds(s, pkField, b, p.g, p.r);
      OneMoreBatch(s, pkField, b, n, Offered(s, pkField, p));
    }
  }
}
