// AppendFieldData on columns in memory: the destination's columns grow in place or are made anew, and
// never share storage with the source (mq/utils.go).
module InsertAppend {
  import opened Prelude
  import opened InsertColumns

  /** A column whose data are the first len places of a backing array, as in a Go slice. */
  class Column {
    const fieldType: int
    const name: string
    const id: int
    const validData: seq<bool>
    const isDynamic: bool
    var form: Form
    var data: array<Cell>
    var len: nat

    predicate Valid()
      reads this
    {
      len <= data.Length
    }

    function View(): FieldData
      reads this, data
      requires Valid()
    {
      FieldData(fieldType, name, id, form, data[..len], validData, isDynamic)
    }

    constructor (field: FieldData)
      ensures Valid() && fresh(data) && View() == field
    {
      fieldType, name, id, form := field.fieldType, field.name, field.id, field.form;
      validData, isDynamic := field.validData, field.isDynamic;
      var row := field.data;
      len := |row|;
      data := new Cell[|row|](i requires 0 <= i < |row| => row[i]);
      new;
      assert data[..len] == row;
    }

    /** Go's append: in place while the backing array has room, else into a larger one. */
    method Extend(row: seq<Cell>)
      requires Valid()
      modifies this`data, this`len, data
      ensures Valid() && View() == old(View()).(data := old(View()).data + row)
      ensures data == old(data) || fresh(data)
    {
      ghost var was := data[..len];
      if len + |row| <= data.Length {
        forall i | 0 <= i < |row| {
          data[len + i] := row[i];
        }
      } else {
        var all := data[..len] + row;
        var room :| room >= |all|;
        data := new Cell[room](i requires 0 <= i => if i < |all| then all[i] else Number(0));
      }
      len := len + |row|;
      assert data[..len] == was + row;
    }

    /** Data of another kind: a fresh array holding just this row. */
    method Replace(form: Form, row: seq<Cell>)
      requires Valid()
      modifies this`form, this`data, this`len
      ensures Valid() && fresh(data) && View() == old(View()).(form := form, data := row)
    {
      this.form := form;
      len := |row|;
      data := new Cell[|row|](i requires 0 <= i < |row| => row[i]);
      assert data[..len] == row;
    }
  }

  function ViewOf(c: Column?): Option<FieldData>
    reads c, if c == null then {} else {c.data}
    requires c != null ==> c.Valid()
  {
    if c == null then None else Some(c.View())
  }

  /** Row idx of src, appended to a column that shares nothing with it. */
  method AppendColumn(dst: Column?, src: Column, idx: nat) returns (r: Column?)
    requires src.Valid() && CanCut(src.View(), idx)
    requires dst != null ==> dst.Valid() && dst != src && dst.data != src.data
    modifies dst, if dst == null then {} else {dst.data}
    ensures r != null ==> r.Valid() && (r == dst || fresh(r))
    ensures r != null ==> fresh(r.data) || (r == dst && r.data == old(if dst == null then src.data else dst.data))
    ensures ViewOf(r) == AppendRow(old(ViewOf(dst)), old(src.View()), idx)
  {
    r := dst;
    var from := src.View();
    if !from.form.NoField? {
      var row := RowOf(from, idx);
      if dst == null || !SameGroup(dst.form, src.form) {
        r := new Column(FieldData(src.fieldType, src.name, src.id, src.form, row, [], false));
      } else if SameKind(dst.form, src.form) {
        dst.Extend(row);
      } else {
        dst.Replace(NewForm(Some(dst.View()), src.form), row);
      }
    }
  }

  /** The storage a column owns: itself and its backing array. */
  datatype Foot = NoFoot | Foot(column: Column, arr: array<Cell>)

  predicate Overlap(a: Foot, b: Foot) {
    a.Foot? && b.Foot? && (a.column == b.column || a.arr == b.arr)
  }

  function FootOf(c: Column?): Foot
    reads c
  {
    if c == null then NoFoot else Foot(c, c.data)
  }

  /** No two destination columns share storage, and none shares any with the source. */
  predicate Apart(dst: seq<Foot>, src: seq<Foot>) {
    && (forall i, k | 0 <= i < |dst| && 0 <= k < |src| :: !Overlap(dst[i], src[k]))
    && (forall i, j | 0 <= i < |dst| && 0 <= j < |dst| && i != j :: !Overlap(dst[i], dst[j]))
  }

  lemma ReplaceFoot(dst: seq<Foot>, src: seq<Foot>, i: nat, f: Foot)
    requires Apart(dst, src) && i < |dst|
    requires forall k | 0 <= k < |src| :: !Overlap(f, src[k])
    requires forall j | 0 <= j < |dst| && j != i :: !Overlap(f, dst[j])
    ensures Apart(dst[i := f], src)
  {
  }

  function Feet(cols: seq<Column?>): (r: seq<Foot>)
    reads cols
    ensures |r| == |cols| && forall i | 0 <= i < |cols| :: r[i] == FootOf(cols[i])
  {
    seq(|cols|, i requires 0 <= i < |cols| reads cols => FootOf(cols[i]))
  }

  predicate AllValid(cols: seq<Column?>)
    reads cols
  {
    forall i | 0 <= i < |cols| && cols[i] != null :: cols[i].Valid()
  }

  ghost function Arrays(cols: seq<Column?>): set<object>
    reads cols
  {
    set i | 0 <= i < |cols| && cols[i] != null :: cols[i].data
  }

  ghost function Views(cols: seq<Column?>): (r: seq<Option<FieldData>>)
    requires AllValid(cols)
    reads cols, Arrays(cols)
    ensures |r| == |cols| && forall i | 0 <= i < |cols| :: r[i] == ViewOf(cols[i])
  {
    seq(|cols|, i requires 0 <= i < |cols| && AllValid(cols) reads cols, Arrays(cols) => ViewOf(cols[i]))
  }

  /** One column's step, among columns that share no storage. */
  method AppendAmong(cols: seq<Column?>, src: seq<Column>, i: nat, idx: nat) returns (c: Column?)
    requires |cols| == |src| && i < |src| && AllValid(cols) && AllValid(src) && Apart(Feet(cols), Feet(src))
    requires CanCut(src[i].View(), idx)
    modifies cols[i], if cols[i] == null then {} else {cols[i].data}
    ensures c != null ==> c.Valid() && (c == cols[i] || fresh(c))
    ensures ViewOf(c) == AppendRow(old(ViewOf(cols[i])), old(src[i].View()), idx)
    ensures Feet(src) == old(Feet(src)) && Apart(old(Feet(cols))[i := FootOf(c)], Feet(src))
    ensures forall k | 0 <= k < |src| :: src[k].Valid() && src[k].View() == old(src[k].View())
    ensures forall j | 0 <= j < |cols| && j != i :: FootOf(cols[j]) == old(FootOf(cols[j]))
    ensures forall j | 0 <= j < |cols| && j != i && cols[j] != null ::
      cols[j].Valid() && cols[j].View() == old(cols[j].View())
  {
    ghost var feet, from := Feet(cols), Feet(src);
    assert forall k | 0 <= k < |src| :: !Overlap(feet[i], from[k]);
    assert forall j | 0 <= j < |cols| && j != i :: !Overlap(feet[i], feet[j]);
    c := AppendColumn(cols[i], src[i], idx);
    assert forall k | 0 <= k < |src| :: FootOf(src[k]) == from[k];
    ReplaceFoot(feet, from, i, FootOf(c));
  }

  /** The same, with the column put in its place. */
  method AppendAt(cols: seq<Column?>, src: seq<Column>, i: nat, idx: nat) returns (cols': seq<Column?>)
    requires |cols| == |src| && i < |src| && AllValid(cols) && AllValid(src) && Apart(Feet(cols), Feet(src))
    requires CanCut(src[i].View(), idx)
    modifies cols[i], if cols[i] == null then {} else {cols[i].data}
    ensures |cols'| == |cols| && AllValid(cols') && AllValid(src) && Apart(Feet(cols'), Feet(src))
    ensures Views(src) == old(Views(src))
    ensures Views(cols') == old(Views(cols))[i := AppendRow(old(ViewOf(cols[i])), old(src[i].View()), idx)]
    ensures forall j | 0 <= j < |cols| && j != i :: cols'[j] == cols[j] && FootOf(cols'[j]) == old(FootOf(cols[j]))
    ensures cols'[i] != null ==> cols'[i] == cols[i] || fresh(cols'[i])
  {
    var c := AppendAmong(cols, src, i, idx);
    cols' := cols[i := c];
    assert Feet(cols') == old(Feet(cols))[i := FootOf(c)];
  }

  /** The first n places appended to, the others as they were. */
  ghost function AppendedUpTo(dst: seq<Option<FieldData>>, src: seq<Option<FieldData>>, idx: nat, n: nat)
    : (r: seq<Option<FieldData>>)
    requires |dst| == |src| && n <= |src| && forall k | 0 <= k < |src| :: src[k].Some? && CanCut(src[k].value, idx)
    ensures |r| == |dst|
  {
    seq(|dst|, j requires 0 <= j < |dst| => if j < n then AppendRow(dst[j], src[j].value, idx) else dst[j])
  }

  /** Row idx of every source column, appended to the destination column in the same place. Each place
      ends as AppendRow says, in a column that was there or is new; the source is as it was, and still
      shares no storage with the destination. */
  method AppendFieldData(dst: seq<Column?>, src: seq<Column>, idx: nat) returns (cols: seq<Column?>)
    requires |dst| == |src| && AllValid(dst) && AllValid(src) && Apart(Feet(dst), Feet(src))
    requires forall k | 0 <= k < |src| :: CanCut(src[k].View(), idx)
    modifies dst, Arrays(dst)
    ensures |cols| == |src| && AllValid(cols) && AllValid(src) && Apart(Feet(cols), Feet(src))
    ensures Views(src) == old(Views(src))
    ensures forall i | 0 <= i < |src| :: ViewOf(cols[i]) == AppendRow(old(ViewOf(dst[i])), old(src[i].View()), idx)
    ensures forall i | 0 <= i < |src| && cols[i] != null :: cols[i] == dst[i] || fresh(cols[i])
  {
    ghost var was, from, feet := Views(dst), Views(src), Feet(dst);
    cols := dst;
    var i := 0;
    while i < |src|
      invariant i <= |src| == |cols|
      invariant AllValid(cols) && AllValid(src) && Apart(Feet(cols), Feet(src))
      invariant Views(src) == from && Views(cols) == AppendedUpTo(was, from, idx, i)
      invariant forall j | 0 <= j < i && cols[j] != null :: cols[j] == dst[j] || fresh(cols[j])
      invariant forall j | i <= j < |src| :: cols[j] == dst[j] && FootOf(cols[j]) == feet[j]
    {
      assert ViewOf(cols[i]) == was[i] && Some(src[i].View()) == from[i];
      cols := AppendAt(cols, src, i, idx);
      assert Views(cols) == AppendedUpTo(was, from, idx, i)[i := AppendRow(was[i], from[i].value, idx)];
      i := i + 1;
    }
  }
}
