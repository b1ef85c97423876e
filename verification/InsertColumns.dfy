// The columns of an insert message, counted, checked, split into rows and put back together:
// mq/utils.go and the row-count and indexing functions of mq/msg.go.
module InsertColumns {
  import opened Prelude

  datatype Cell = Number(n: int) | Text(s: string)

  datatype ScalarKind = NoScalar | BoolData | IntData | LongData | FloatData | DoubleData | StringData | OtherScalar

  datatype VectorKind = NoVector | BinaryVector | FloatVector | OtherVector

  /** What a column holds: scalars, vectors of a dimension, or neither. */
  datatype Form = NoField | Scalars(kind: ScalarKind) | Vectors(dim: int, vectors: VectorKind)

  /** A column; data are its scalars, its floats or its bytes, row after row. validData says which rows of
      a nullable column hold a value. */
  datatype FieldData = FieldData(
    fieldType: int, name: string, id: int, form: Form, data: seq<Cell>, validData: seq<bool>, isDynamic: bool)

  /** The column without the two attributes that are not carried over to a new column. */
  function Bare(field: FieldData): FieldData {
    field.(validData := [], isDynamic := false)
  }

  datatype CountError = Unsupported | DimNotPositive | DimNotBytes | Indivisible

  datatype Result<T> = Ok(value: T) | Err(error: CountError)

  predicate Supported(form: Form) {
    match form
    case NoField => false
    case Scalars(kind) => kind != NoScalar && kind != OtherScalar
    case Vectors(_, vectors) => vectors == BinaryVector || vectors == FloatVector
  }

  function FloatRows(length: nat, dim: int): Result<nat> {
    if dim <= 0 then Err(DimNotPositive)
    else if length % dim != 0 then Err(Indivisible)
    else Ok(length / dim)
  }

  function BinaryRows(length: nat, dim: int): Result<nat> {
    if dim <= 0 then Err(DimNotPositive)
    else if dim % 8 != 0 then Err(DimNotBytes)
    else if (8 * length) % dim != 0 then Err(Indivisible)
    else Ok((8 * length) / dim)
  }

  function GetNumRowOfFieldData(field: FieldData): Result<nat> {
    if !Supported(field.form) then Err(Unsupported)
    else match field.form
      case Scalars(_) => Ok(|field.data|)
      case Vectors(dim, FloatVector) => FloatRows(|field.data|, dim)
      case Vectors(dim, _) => BinaryRows(|field.data|, dim)
  }

  /** The number of elements a row takes up. */
  function Width(form: Form): nat {
    match form
    case Vectors(dim, FloatVector) => if dim > 0 then dim else 0
    case Vectors(dim, BinaryVector) => if dim > 0 then dim / 8 else 0
    case _ => 1
  }

  lemma AtLeastOnce(k: int, d: nat)
    ensures k >= 1 ==> k * d >= d
    ensures k <= -1 ==> k * d + d <= 0
  {
  }

  lemma ExactMultiple(a: nat, d: nat, n: nat)
    requires d > 0
    ensures a % d == 0 && a / d == n <==> a == n * d
  {
    var k := n - a / d;
    assert a == a / d * d + a % d;
    AtLeastOnce(k, d);
    assert k * d == n * d - a / d * d;
  }

  /** A column counts n rows exactly when its kind is supported, its dimension fits, and its data are
      n rows of its width. */
  lemma CountIsExact(field: FieldData, n: nat)
    ensures GetNumRowOfFieldData(field) == Ok(n) <==>
      && Supported(field.form)
      && (field.form.Vectors? ==> field.form.dim > 0)
      && (field.form.Vectors? && field.form.vectors == BinaryVector ==> field.form.dim % 8 == 0)
      && |field.data| == n * Width(field.form)
  {
    var length := |field.data|;
    match field.form
    case Vectors(dim, FloatVector) =>
      if dim > 0 {
        ExactMultiple(length, dim, n);
      }
    case Vectors(dim, BinaryVector) =>
      if dim > 0 && dim % 8 == 0 {
        var w := dim / 8;
        ExactMultiple(8 * length, dim, n);
        assert n * dim == 8 * (n * w) by {
          assert dim == 8 * w;
        }
      }
    case _ =>
  }

  /** The count of a column, kind by kind: n scalars, n times dim floats, n times dim / 8 bytes. */
  lemma CountMeans(field: FieldData, n: nat)
    ensures GetNumRowOfFieldData(field) == Ok(n) <==>
              match field.form
              case NoField => false
              case Scalars(kind) =>
                kind in {BoolData, IntData, LongData, FloatData, DoubleData, StringData} && |field.data| == n
              case Vectors(dim, FloatVector) => dim > 0 && |field.data| == n * dim
              case Vectors(dim, BinaryVector) => dim > 0 && dim % 8 == 0 && |field.data| == n * (dim / 8)
              case _ => false
  {
    CountIsExact(field, n);
  }

  // ---------- appending one row ----------

  lemma RowFits(length: nat, n: nat, w: nat, idx: nat)
    requires length == n * w && idx < n
    ensures 0 <= idx * w <= (idx + 1) * w <= length
  {
  }

  /** Whether row idx can be cut out of the column. */
  predicate InBounds(field: FieldData, idx: nat) {
    (idx + 1) * Width(field.form) <= |field.data|
  }

  function RowOf(field: FieldData, idx: nat): seq<Cell>
    requires InBounds(field, idx)
  {
    var w := Width(field.form);
    assert idx * w <= (idx + 1) * w by {
      assert (idx + 1) * w == idx * w + w;
    }
    field.data[idx * w..(idx + 1) * w]
  }

  predicate SameGroup(a: Form, b: Form) {
    (a.Scalars? && b.Scalars?) || (a.Vectors? && b.Vectors?)
  }

  predicate SameKind(a: Form, b: Form) {
    || (a.Scalars? && b.Scalars? && a.kind == b.kind)
    || (a.Vectors? && b.Vectors? && a.vectors == b.vectors)
  }

  /** The form a destination takes on: the source's, but an existing vector column keeps its dimension. */
  function NewForm(dst: Option<FieldData>, src: Form): Form {
    if dst.Some? && dst.value.form.Vectors? && src.Vectors? then Vectors(dst.value.form.dim, src.vectors) else src
  }

  predicate CanCut(src: FieldData, idx: nat) {
    src.form.NoField? || (Supported(src.form) && InBounds(src, idx))
  }

  /** A destination column once row idx of src is appended to it. A missing column, or one of the other
      group, is made anew; data of another kind are replaced. */
  function AppendRow(dst: Option<FieldData>, src: FieldData, idx: nat): Option<FieldData>
    requires CanCut(src, idx)
  {
    if src.form.NoField? then dst
    else if dst.None? || !SameGroup(dst.value.form, src.form) then
      Some(FieldData(src.fieldType, src.name, src.id, src.form, RowOf(src, idx), [], false))
    else if SameKind(dst.value.form, src.form) then Some(dst.value.(data := dst.value.data + RowOf(src, idx)))
    else Some(dst.value.(form := NewForm(dst, src.form), data := RowOf(src, idx)))
  }

  /** A scalar appended: behind the scalars of the same kind, else in place of whatever was there, under
      the name there was if that was scalars too. */
  lemma ScalarAppended(dst: Option<FieldData>, src: FieldData, idx: nat)
    requires CanCut(src, idx) && src.form.Scalars?
    ensures idx < |src.data|
    ensures var r := AppendRow(dst, src, idx);
      r.Some? &&
      if dst.Some? && dst.value.form.Scalars? then
        r.value == dst.value.(
          form := src.form,
          data := (if dst.value.form.kind == src.form.kind then dst.value.data else []) + [src.data[idx]])
      else r.value == Bare(src).(data := [src.data[idx]])
  {
    assert RowOf(src, idx) == [src.data[idx]];
  }

  /** A vector appended: the same, a vector column keeping its dimension. */
  lemma VectorAppended(dst: Option<FieldData>, src: FieldData, idx: nat, w: nat)
    requires CanCut(src, idx) && src.form.Vectors? && src.form.dim > 0
    requires w == if src.form.vectors == FloatVector then src.form.dim else src.form.dim / 8
    ensures 0 <= idx * w <= (idx + 1) * w <= |src.data|
    ensures var r, row := AppendRow(dst, src, idx), src.data[idx * w..(idx + 1) * w];
      r.Some? &&
      if dst.Some? && dst.value.form.Vectors? then
        r.value == dst.value.(
          form := Vectors(dst.value.form.dim, src.form.vectors),
          data := (if dst.value.form.vectors == src.form.vectors then dst.value.data else []) + row)
      else r.value == Bare(src).(data := row)
  {
    RowFits((idx + 1) * w, idx + 1, w, idx);
  }

  predicate Cuttable(src: seq<FieldData>, idx: nat) {
    forall i | 0 <= i < |src| :: CanCut(src[i], idx)
  }

  function AppendAll(dst: seq<Option<FieldData>>, src: seq<FieldData>, idx: nat): (r: seq<Option<FieldData>>)
    requires |dst| == |src| && Cuttable(src, idx)
    ensures |r| == |dst|
  {
    seq(|src|, i requires 0 <= i < |src| => AppendRow(dst[i], src[i], idx))
  }

  /** Rows 0 to n - 1 appended one after the other to a missing column. */
  function AppendRows(src: FieldData, n: nat): Option<FieldData>
    requires forall idx | 0 <= idx < n :: CanCut(src, idx)
  {
    if n == 0 then None else AppendRow(AppendRows(src, n - 1), src, n - 1)
  }

  lemma {:induction false} AppendRowsCopies(src: FieldData, n: nat, k: nat)
    requires GetNumRowOfFieldData(src) == Ok(n) && 1 <= k <= n
    ensures forall idx | 0 <= idx < n :: CanCut(src, idx)
    ensures k * Width(src.form) <= |src.data|
    ensures AppendRows(src, k) == Some(Bare(src).(data := src.data[..k * Width(src.form)]))
  {
    var w := Width(src.form);
    CountIsExact(src, n);
    forall idx | 0 <= idx < n ensures CanCut(src, idx) {
      RowFits(|src.data|, n, w, idx);
    }
    RowFits(|src.data|, n, w, k - 1);
    if k > 1 {
      AppendRowsCopies(src, n, k - 1);
      assert src.data[..(k - 1) * w] + src.data[(k - 1) * w..k * w] == src.data[..k * w];
    } else {
      assert src.data[0 * w..1 * w] == src.data[..1 * w];
    }
  }

  /** Appending all of a column's rows, at least one, to a missing column rebuilds it, but for its valid
      data and its dynamic flag: it is the same column exactly if it had neither. */
  lemma AppendRowsRebuild(src: FieldData, n: nat)
    requires GetNumRowOfFieldData(src) == Ok(n) && n >= 1
    ensures forall idx | 0 <= idx < n :: CanCut(src, idx)
    ensures AppendRows(src, n) == Some(Bare(src))
    ensures AppendRows(src, n) == Some(src) <==> src.validData == [] && !src.isDynamic
  {
    AppendRowsCopies(src, n, n);
    CountIsExact(src, n);
    assert src.data[..|src.data|] == src.data;
  }

  /** One row cut out of a column is a column of one row. */
  lemma OneRowCountsOne(src: FieldData, n: nat, idx: nat)
    requires GetNumRowOfFieldData(src) == Ok(n) && idx < n
    ensures CanCut(src, idx) && Supported(src.form)
    ensures var one := AppendRow(None, src, idx);
      one.Some? && one.value == Bare(src).(data := RowOf(src, idx)) && GetNumRowOfFieldData(one.value) == Ok(1)
  {
    CountIsExact(src, n);
    RowFits(|src.data|, n, Width(src.form), idx);
    var one := Bare(src).(data := RowOf(src, idx));
    assert (idx + 1) * Width(src.form) - idx * Width(src.form) == Width(src.form);
    CountIsExact(one, 1);
  }

  /** Appending the only row of a cut-out column is appending the row it was cut from. */
  lemma OneRowStandsForIt(dst: Option<FieldData>, src: FieldData, n: nat, idx: nat)
    requires GetNumRowOfFieldData(src) == Ok(n) && idx < n
    ensures CanCut(src, idx) && Supported(src.form)
    ensures var one := AppendRow(None, src, idx).value;
      InBounds(one, 0) && AppendRow(dst, one, 0) == AppendRow(dst, src, idx)
  {
    OneRowCountsOne(src, n, idx);
    var one := AppendRow(None, src, idx).value;
    CountIsExact(one, 1);
    assert RowOf(one, 0) == one.data;
  }
}
