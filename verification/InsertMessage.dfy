// Insert messages: the alignment check, and cutting a message into messages of one row
// (mq/msg.go).
module InsertMessage {
  import opened Prelude
  import opened InsertColumns

  datatype Version = RowBased | ColumnBased

  datatype MsgBase = MsgBase(msgID: int, timestamp: nat, sourceID: int)

  /** Where the rows go: database, collection, partition, segment and shard. */
  datatype Target = Target(dbID: int, collectionID: int, partitionID: int, segmentID: int,
                           collectionName: string, partitionName: string, shardName: string)

  datatype InsertMsg = InsertMsg(
    beginTimestamp: nat, endTimestamp: nat, hashValues: seq<nat>,
    base: MsgBase, target: Target, version: Version, numRows: nat,
    timestamps: seq<nat>, rowIDs: seq<int>, rowData: seq<seq<Cell>>, fields: seq<FieldData>)

  function NRows(m: InsertMsg): nat {
    if m.version.RowBased? then |m.rowData| else m.numRows
  }

  datatype AlignError =
    | CountFailed(field: nat, error: CountError)
    | FieldRowsDiffer(field: nat, rows: nat)
    | TimestampsDiffer
    | RowIDsDiffer

  /** One timestamp and one id for each row, and in each column of a column-based message one value. */
  predicate Aligned(m: InsertMsg) {
    && (m.version.ColumnBased? ==>
          forall i | 0 <= i < |m.fields| :: GetNumRowOfFieldData(m.fields[i]) == Ok(NRows(m)))
    && |m.rowIDs| == |m.timestamps| == NRows(m)
  }

  /** What the check reports, if anything: the first bad column, else the lengths that differ. */
  predicate Reports(m: InsertMsg, e: AlignError) {
    match e
    case CountFailed(k, error) =>
      && m.version.ColumnBased? && k < |m.fields| && GetNumRowOfFieldData(m.fields[k]) == Err(error)
      && forall i | 0 <= i < k :: GetNumRowOfFieldData(m.fields[i]) == Ok(NRows(m))
    case FieldRowsDiffer(k, rows) =>
      && m.version.ColumnBased? && k < |m.fields| && rows != NRows(m)
      && GetNumRowOfFieldData(m.fields[k]) == Ok(rows)
      && forall i | 0 <= i < k :: GetNumRowOfFieldData(m.fields[i]) == Ok(NRows(m))
    case TimestampsDiffer => |m.rowIDs| != |m.timestamps|
    case RowIDsDiffer => |m.rowIDs| == |m.timestamps| && |m.rowIDs| != NRows(m)
  }

  method CheckAligned(m: InsertMsg) returns (err: Option<AlignError>)
    ensures err.None? <==> Aligned(m)
    ensures m.version.RowBased? ==> (err.None? <==> |m.rowIDs| == |m.timestamps| == |m.rowData|)
    ensures m.version.ColumnBased? ==>
              (err.None? <==> |m.rowIDs| == |m.timestamps| == m.numRows &&
                              forall i | 0 <= i < |m.fields| :: GetNumRowOfFieldData(m.fields[i]) == Ok(m.numRows))
    ensures err.Some? ==> Reports(m, err.value)
    ensures err.Some? && (err.value.TimestampsDiffer? || err.value.RowIDsDiffer?) && m.version.ColumnBased? ==>
      forall i | 0 <= i < |m.fields| :: GetNumRowOfFieldData(m.fields[i]) == Ok(NRows(m))
  {
    var rowNums := NRows(m);
    if m.version.ColumnBased? {
      var i := 0;
      while i < |m.fields|
        invariant i <= |m.fields|
        invariant forall j | 0 <= j < i :: GetNumRowOfFieldData(m.fields[j]) == Ok(rowNums)
      {
        var rows := GetNumRowOfFieldData(m.fields[i]);
        if rows.Err? {
          return Some(CountFailed(i, rows.error));
        }
        if rows.value != rowNums {
          return Some(FieldRowsDiffer(i, rows.value));
        }
        i := i + 1;
      }
    }
    if |m.rowIDs| != |m.timestamps| {
      return Some(TimestampsDiffer);
    }
    if |m.rowIDs| != NRows(m) {
      return Some(RowIDsDiffer);
    }
    return None;
  }

  // ---------- one row of a message ----------

  function Missing(n: nat): seq<Option<FieldData>> {
    seq(n, _ => None)
  }

  function Values(s: seq<Option<FieldData>>): seq<FieldData>
    requires forall i | 0 <= i < |s| :: s[i].Some?
  {
    seq(|s|, i requires 0 <= i < |s| => s[i].value)
  }

  /** Whether row index can be cut out of the message. */
  predicate CanIndex(m: InsertMsg, index: nat) {
    && index < |m.timestamps| && index < |m.rowIDs|
    && (m.version.RowBased? ==> index < |m.rowData|)
    && (m.version.ColumnBased? ==>
          Cuttable(m.fields, index) && forall i | 0 <= i < |m.fields| :: !m.fields[i].form.NoField?)
  }

  function RowBasedIndexRequest(m: InsertMsg, index: nat): InsertMsg
    requires CanIndex(m, index) && m.version.RowBased?
  {
    m.(base := m.base.(timestamp := m.timestamps[index]), numRows := 0,
       timestamps := [m.timestamps[index]], rowIDs := [m.rowIDs[index]], rowData := [m.rowData[index]], fields := [])
  }

  function ColumnBasedIndexRequest(m: InsertMsg, index: nat): InsertMsg
    requires CanIndex(m, index) && m.version.ColumnBased?
  {
    m.(base := m.base.(timestamp := m.timestamps[index]), numRows := 1,
       timestamps := [m.timestamps[index]], rowIDs := [m.rowIDs[index]], rowData := [],
       fields := Values(AppendAll(Missing(|m.fields|), m.fields, index)))
  }

  function IndexMsg(m: InsertMsg, index: nat): InsertMsg
    requires CanIndex(m, index)
  {
    if m.version.RowBased? then RowBasedIndexRequest(m, index) else ColumnBasedIndexRequest(m, index)
  }

  lemma AlignedCanIndex(m: InsertMsg, index: nat)
    requires Aligned(m) && index < NRows(m)
    ensures CanIndex(m, index)
  {
    if m.version.ColumnBased? {
      forall i | 0 <= i < |m.fields| ensures CanCut(m.fields[i], index) && !m.fields[i].form.NoField? {
        OneRowCountsOne(m.fields[i], NRows(m), index);
      }
    }
  }

  /** Every row of an aligned message can be cut out, as an aligned message of that one row. */
  lemma IndexMsgIsAligned(m: InsertMsg, index: nat)
    requires Aligned(m) && index < NRows(m)
    ensures CanIndex(m, index)
    ensures var one := IndexMsg(m, index);
      && Aligned(one) && NRows(one) == 1 && one.version == m.version
      && one.timestamps == [m.timestamps[index]] && one.rowIDs == [m.rowIDs[index]]
      && one.base == MsgBase(m.base.msgID, m.timestamps[index], m.base.sourceID) && one.target == m.target
      && one.beginTimestamp == m.beginTimestamp && one.endTimestamp == m.endTimestamp && one.hashValues == m.hashValues
      && (m.version.RowBased? ==> one.rowData == [m.rowData[index]])
      && (m.version.ColumnBased? ==> |one.fields| == |m.fields|)
  {
    AlignedCanIndex(m, index);
    if m.version.ColumnBased? {
      forall i | 0 <= i < |m.fields| ensures GetNumRowOfFieldData(IndexMsg(m, index).fields[i]) == Ok(1) {
        OneRowCountsOne(m.fields[i], NRows(m), index);
      }
    }
  }

  // ---------- putting the rows back ----------

  /** The columns of the first n one-row messages, appended in order to missing columns. */
  function Rejoin(m: InsertMsg, n: nat): (r: seq<Option<FieldData>>)
    requires Aligned(m) && m.version.ColumnBased? && n <= NRows(m)
    ensures |r| == |m.fields|
  {
    if n == 0 then Missing(|m.fields|)
    else
      IndexMsgIsAligned(m, n - 1);
      var one := IndexMsg(m, n - 1);
      OneRowCuttable(one);
      AppendAll(Rejoin(m, n - 1), one.fields, 0)
  }

  lemma OneRowCuttable(one: InsertMsg)
    requires Aligned(one) && one.version.ColumnBased? && NRows(one) == 1
    ensures Cuttable(one.fields, 0)
  {
  }

  lemma {:induction false} RejoinIsAppendRows(m: InsertMsg, n: nat, i: nat)
    requires Aligned(m) && m.version.ColumnBased? && n <= NRows(m) && i < |m.fields|
    ensures forall idx | 0 <= idx < n :: CanCut(m.fields[i], idx)
    ensures Rejoin(m, n)[i] == AppendRows(m.fields[i], n)
  {
    if n > 0 {
      RejoinIsAppendRows(m, n - 1, i);
      AlignedCanIndex(m, n - 1);
      IndexMsgIsAligned(m, n - 1);
      OneRowStandsForIt(AppendRows(m.fields[i], n - 1), m.fields[i], NRows(m), n - 1);
      assert IndexMsg(m, n - 1).fields[i] == AppendRow(None, m.fields[i], n - 1).value;
    }
  }

  /** A column-based message of at least one row is rebuilt, column by column, from its one-row messages,
      but for valid data and dynamic flags: exactly if no column has either, nothing is missing. */
  lemma SplitThenRejoin(m: InsertMsg)
    requires Aligned(m) && m.version.ColumnBased? && NRows(m) >= 1
    ensures forall i | 0 <= i < |m.fields| :: Rejoin(m, NRows(m))[i] == Some(Bare(m.fields[i]))
    ensures (forall i | 0 <= i < |m.fields| :: Rejoin(m, NRows(m))[i] == Some(m.fields[i])) <==>
            (forall i | 0 <= i < |m.fields| :: m.fields[i].validData == [] && !m.fields[i].isDynamic)
  {
    forall i | 0 <= i < |m.fields| ensures Rejoin(m, NRows(m))[i] == Some(Bare(m.fields[i])) {
      RejoinIsAppendRows(m, NRows(m), i);
      AppendRowsRebuild(m.fields[i], NRows(m));
    }
  }
}
