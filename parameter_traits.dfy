/** `parameter_traits<std::tuple<Ts...>>`: a tuple parameter is the
    concatenation of its elements' columns; flattened column `I` is served by
    element `outer<I>` at its column `inner<I>`. */
module ParameterTraits {
  import opened Wrappers
  import opened Layout

  /** What an element trait reports for one of its columns: `type<I>()`,
      `value<I>()` (`None` for a null pointer), `length<I>()`, `format<I>()`
      and the text `copy_to<I>()` appends. */
  datatype Column = Column(oid: nat, value: Option<string>, length: int, format: int, copy: string)

  /** A parameter: a non-tuple trait with its own columns, or a tuple of
      element traits. */
  datatype Param = Leaf(cols: seq<Column>) | Tuple(elems: seq<Param>)

  /** `columns`: the fold `(0 + ... + columns<Ts>)`. */
  function Columns(p: Param): (r: nat)
    decreases p, 1
  {
    match p
    case Leaf(cols) => |cols|
    case Tuple(elems) => Sum(ElementColumns(elems))
  }

  /** The element column counts, `gen`'s template arguments. */
  function ElementColumns(elems: seq<Param>): (a: seq<nat>)
    ensures |a| == |elems|
    ensures forall i | 0 <= i < |elems| :: a[i] == Columns(elems[i])
    decreases elems, 0
  {
    seq(|elems|, i requires 0 <= i < |elems| => Columns(elems[i]))
  }

  /** The column served at flattened index `I`, forwarded to element
      `Outer(I)` at `Inner(I)`. */
  function ColumnAt(p: Param, I: nat): (r: Column)
    requires I < Columns(p)
    decreases p
  {
    match p
    case Leaf(cols) => cols[I]
    case Tuple(elems) =>
      var a := ElementColumns(elems);
      RouteSound(a, I);
      ColumnAt(elems[Outer(a, I)], Inner(a, I))
  }

  /** `type<I>()`. */
  function TypeOf(p: Param, I: nat): (r: nat)
    requires I < Columns(p)
  {
    ColumnAt(p, I).oid
  }

  /** `value<I>()`. */
  function ValueOf(p: Param, I: nat): (r: Option<string>)
    requires I < Columns(p)
  {
    ColumnAt(p, I).value
  }

  /** `length<I>()`. */
  function LengthOf(p: Param, I: nat): (r: int)
    requires I < Columns(p)
  {
    ColumnAt(p, I).length
  }

  /** `format<I>()`. */
  function FormatOf(p: Param, I: nat): (r: int)
    requires I < Columns(p)
  {
    ColumnAt(p, I).format
  }

  /** `copy_to<I>(data)`: the served column's text appended to `data`. */
  function CopyTo(p: Param, I: nat, data: string): (r: string)
    requires I < Columns(p)
  {
    data + ColumnAt(p, I).copy
  }

  /** Reference definition: all columns in declared order. */
  function Flatten(p: Param): (r: seq<Column>)
    decreases p
  {
    match p
    case Leaf(cols) => cols
    case Tuple(elems) => Concat(seq(|elems|, i requires 0 <= i < |elems| => Flatten(elems[i])))
  }

  /** The column count is the length of the flattened column list, and the
      forwarding accessors serve exactly its entries: flattened index `I`
      of a tuple is column `I` of its elements laid end to end. */
  lemma {:induction false} ColumnAtFlatten(p: Param)
    ensures |Flatten(p)| == Columns(p)
    ensures forall I | 0 <= I < Columns(p) :: ColumnAt(p, I) == Flatten(p)[I]
    decreases p
  {
    match p
    case Leaf(cols) =>
    case Tuple(elems) =>
      var a := ElementColumns(elems);
      var pieces := seq(|elems|, i requires 0 <= i < |elems| => Flatten(elems[i]));
      forall i | 0 <= i < |elems|
        ensures |pieces[i]| == a[i]
        ensures forall k | 0 <= k < a[i] :: ColumnAt(elems[i], k) == pieces[i][k]
      {
        ColumnAtFlatten(elems[i]);
      }
      assert Lengths(pieces) == a;
      ConcatLength(pieces);
      forall I | 0 <= I < Columns(p) ensures ColumnAt(p, I) == Flatten(p)[I] {
        RouteSound(a, I);
        var j, k := Outer(a, I), Inner(a, I);
        ConcatAt(pieces, j, k);
      }
  }

  /** An empty tuple has no columns. */
  lemma EmptyTuple()
    ensures Columns(Tuple([])) == 0 && Flatten(Tuple([])) == []
  {
  }

  /** Column `k` of element `j` is served at flattened index
      `Offset(j) + k` and nowhere else; every flattened index belongs to
      exactly one element, in declared order. */
  lemma ServedOnce(elems: seq<Param>, j: nat, k: nat)
    requires j < |elems| && k < Columns(elems[j])
    ensures Offset(ElementColumns(elems), j) + k < Columns(Tuple(elems))
    ensures ColumnAt(Tuple(elems), Offset(ElementColumns(elems), j) + k) == ColumnAt(elems[j], k)
    ensures forall I | 0 <= I < Columns(Tuple(elems)) && I != Offset(ElementColumns(elems), j) + k ::
              Outer(ElementColumns(elems), I) != j || Inner(ElementColumns(elems), I) != k
  {
    var a := ElementColumns(elems);
    RouteUnique(a, j, k);
    forall I | 0 <= I < Columns(Tuple(elems)) && I != Offset(a, j) + k
      ensures Outer(a, I) != j || Inner(a, I) != k
    {
      RouteSound(a, I);
    }
  }

  /** The five accessors use one routing: each agrees with the flattened
      column list at the same index. */
  lemma AccessorsAgree(p: Param, I: nat, data: string)
    requires I < Columns(p)
    ensures I < |Flatten(p)|
    ensures TypeOf(p, I) == Flatten(p)[I].oid && ValueOf(p, I) == Flatten(p)[I].value
    ensures LengthOf(p, I) == Flatten(p)[I].length && FormatOf(p, I) == Flatten(p)[I].format
    ensures CopyTo(p, I, data) == data + Flatten(p)[I].copy
  {
    ColumnAtFlatten(p);
  }
}
