/** What the typed accessors of row.hpp and table_row.hpp compute: a value
    decoded by `get<T>` occupies exactly `arity(T)` cells from the requested
    column on, in declared order, and any typed value sitting in those cells
    is decoded back. */
module Decoding {
  import opened Wrappers
  import opened Layout
  import opened ResultTraits
  import opened Views
  import Results

  /** Reading the window from `column` on gives `cells`. */
  predicate ReadsAs(v: View, column: nat, cells: seq<Option<string>>)
    decreases |cells|
  {
    cells == [] || (Read(v, column) == Ok(cells[0]) && ReadsAs(v, column + 1, cells[1..]))
  }

  /** `x`, a value of type `t`, sits in the window columns from `column` on. */
  predicate Placed(v: View, x: Value, t: Type, column: nat)
  {
    Typed(x, t) && |Flatten(x)| == Arity(t) && ReadsAs(v, column, Flatten(x))
  }

  /** A slice reads the parent's cells, shifted by the slice offset. */
  lemma ReadSlice(v: View, offset: nat, columns: nat, k: nat)
    requires Slice(v, offset, columns).Ok? && k < columns
    ensures Read(Slice(v, offset, columns).value, k) == Read(v, offset + k)
  {
  }

  lemma {:induction false} ReadsSlice(v: View, offset: nat, columns: nat, k: nat, cells: seq<Option<string>>)
    requires Slice(v, offset, columns).Ok? && k + |cells| <= columns
    ensures ReadsAs(Slice(v, offset, columns).value, k, cells) <==> ReadsAs(v, offset + k, cells)
    decreases |cells|
  {
    if cells != [] {
      ReadSlice(v, offset, columns, k);
      ReadsSlice(v, offset, columns, k + 1, cells[1..]);
    }
  }

  /** Readable cells lie inside the window. */
  lemma {:induction false} ReadsWithin(v: View, column: nat, cells: seq<Option<string>>)
    requires ReadsAs(v, column, cells) && cells != []
    ensures column + |cells| <= v.columns
    decreases |cells|
  {
    if |cells| > 1 {
      ReadsWithin(v, column + 1, cells[1..]);
    }
  }

  /** Slicing a slice is one slice at the summed offset. */
  lemma SliceOfSlice(v: View, o1: nat, n1: nat, o2: nat, n2: nat)
    requires Slice(v, o1, n1).Ok?
    ensures Slice(Slice(v, o1, n1).value, o2, n2).Ok? <==> o2 + n2 <= n1
    ensures Slice(Slice(v, o1, n1).value, o2, n2).Ok? ==>
              Slice(Slice(v, o1, n1).value, o2, n2) == Slice(v, o1 + o2, n2)
  {
  }

  lemma {:induction false} ReadsAppend(v: View, column: nat, a: seq<Option<string>>, b: seq<Option<string>>)
    ensures ReadsAs(v, column, a + b) <==> ReadsAs(v, column, a) && ReadsAs(v, column + |a|, b)
    decreases |a|
  {
    if a == [] {
      assert a + b == b;
    } else {
      assert (a + b)[0] == a[0] && (a + b)[1..] == a[1..] + b;
      ReadsAppend(v, column + 1, a[1..], b);
    }
  }

  /** Concatenated cells are read piece by piece, each piece at the
      exclusive prefix sum of the earlier pieces' lengths. */
  lemma ReadsConcat(v: View, column: nat, pieces: seq<seq<Option<string>>>)
    ensures ReadsAs(v, column, Concat(pieces)) <==>
              forall j | 0 <= j < |pieces| :: ReadsAs(v, column + Offset(Lengths(pieces), j), pieces[j])
  {
    if ReadsAs(v, column, Concat(pieces)) {
      forall j {:trigger Offset(Lengths(pieces), j)} | 0 <= j < |pieces| ensures ReadsAs(v, column + Offset(Lengths(pieces), j), pieces[j]) {
        ReadsConcatPiece(v, column, pieces, j);
      }
    }
    if forall j | 0 <= j < |pieces| :: ReadsAs(v, column + Offset(Lengths(pieces), j), pieces[j]) {
      ReadsConcatAll(v, column, pieces);
    }
  }

  lemma OffsetTail<T>(pieces: seq<seq<T>>, j: nat)
    requires j < |pieces|
    ensures Offset(Lengths(pieces), j + 1) == |pieces[0]| + Offset(Lengths(pieces[1..]), j)
  {
    assert Lengths(pieces)[1..] == Lengths(pieces[1..]);
  }

  lemma {:induction false} ReadsConcatPiece(v: View, column: nat, pieces: seq<seq<Option<string>>>, j: nat)
    requires j < |pieces| && ReadsAs(v, column, Concat(pieces))
    ensures ReadsAs(v, column + Offset(Lengths(pieces), j), pieces[j])
    decreases j
  {
    ReadsAppend(v, column, pieces[0], Concat(pieces[1..]));
    if j > 0 {
      ReadsConcatPiece(v, column + |pieces[0]|, pieces[1..], j - 1);
      OffsetTail(pieces, j - 1);
    }
  }

  lemma {:induction false} ReadsConcatAll(v: View, column: nat, pieces: seq<seq<Option<string>>>)
    requires forall j {:trigger Offset(Lengths(pieces), j)} | 0 <= j < |pieces| :: ReadsAs(v, column + Offset(Lengths(pieces), j), pieces[j])
    ensures ReadsAs(v, column, Concat(pieces))
    decreases |pieces|
  {
    if pieces != [] {
      var rest := pieces[1..];
      var c1 := column + |pieces[0]|;
      forall j | 0 <= j < |rest| ensures ReadsAs(v, c1 + Offset(Lengths(rest), j), rest[j]) {
        OffsetTail(pieces, j);
        assert ReadsAs(v, column + Offset(Lengths(pieces), j + 1), pieces[j + 1]);
      }
      ReadsConcatAll(v, c1, rest);
      assert ReadsAs(v, column + Offset(Lengths(pieces), 0), pieces[0]);
      ReadsAppend(v, column, pieces[0], Concat(rest));
    }
  }

  /** A tuple value that sits in a window has each element sitting at its
      exclusive prefix-sum offset. */
  lemma PlacedElements(v: View, t: Type, xs: seq<Value>, column: nat)
    requires WellFormed(t) && t.Tuple? && |xs| == |t.elems|
    requires Placed(v, Tup(xs), t, column)
    ensures forall j {:trigger Offset(Arities(t.elems), j)} | 0 <= j < |xs| :: Placed(v, xs[j], t.elems[j], column + Offset(Arities(t.elems), j))
  {
    forall j | 0 <= j < |xs| ensures Placed(v, xs[j], t.elems[j], column + Offset(Arities(t.elems), j)) {
      PlacedElement(v, t, xs, column, j);
    }
  }

  lemma PlacedElement(v: View, t: Type, xs: seq<Value>, column: nat, j: nat)
    requires WellFormed(t) && t.Tuple? && |xs| == |t.elems| && j < |xs|
    requires Placed(v, Tup(xs), t, column)
    ensures Placed(v, xs[j], t.elems[j], column + Offset(Arities(t.elems), j))
  {
    TupleCells(t, xs);
    ReadsConcatPiece(v, column, Pieces(xs), j);
    TypedWidth(xs[j], t.elems[j]);
  }

  /** Elements each sitting at their exclusive prefix-sum offset make the
      tuple sit in the window. */
  lemma ElementsPlacedTuple(v: View, t: Type, xs: seq<Value>, column: nat)
    requires WellFormed(t) && t.Tuple? && |xs| == |t.elems|
    requires forall j {:trigger Offset(Arities(t.elems), j)} | 0 <= j < |xs| :: Placed(v, xs[j], t.elems[j], column + Offset(Arities(t.elems), j))
    ensures Placed(v, Tup(xs), t, column)
  {
    ElementReads(v, t, xs, column);
    ReadsTuple(v, t, xs, column);
  }

  /** Elements' cells read at their prefix sums make a placed tuple. */
  lemma ReadsTuple(v: View, t: Type, xs: seq<Value>, column: nat)
    requires WellFormed(t) && t.Tuple? && |xs| == |t.elems|
    requires forall j | 0 <= j < |xs| :: Typed(xs[j], t.elems[j])
    requires forall j {:trigger Offset(Arities(t.elems), j)} | 0 <= j < |xs| :: ReadsAs(v, column + Offset(Arities(t.elems), j), Flatten(xs[j]))
    ensures Placed(v, Tup(xs), t, column)
  {
    TupleCells(t, xs);
    PiecesRead(v, column, xs, Arities(t.elems));
    PlacedTyped(v, Tup(xs), t, column);
  }

  lemma ElementReads(v: View, t: Type, xs: seq<Value>, column: nat)
    requires WellFormed(t) && t.Tuple? && |xs| == |t.elems|
    requires forall j {:trigger Offset(Arities(t.elems), j)} | 0 <= j < |xs| :: Placed(v, xs[j], t.elems[j], column + Offset(Arities(t.elems), j))
    ensures forall j | 0 <= j < |xs| :: Typed(xs[j], t.elems[j])
    ensures forall j {:trigger Offset(Arities(t.elems), j)} | 0 <= j < |xs| :: ReadsAs(v, column + Offset(Arities(t.elems), j), Flatten(xs[j]))
  {
    forall j | 0 <= j < |xs|
      ensures Typed(xs[j], t.elems[j]) && ReadsAs(v, column + Offset(Arities(t.elems), j), Flatten(xs[j]))
    {
      assert Placed(v, xs[j], t.elems[j], column + Offset(Arities(t.elems), j));
    }
  }

  lemma PiecesRead(v: View, column: nat, xs: seq<Value>, a: seq<nat>)
    requires Lengths(Pieces(xs)) == a
    requires forall j {:trigger Offset(a, j)} | 0 <= j < |xs| :: ReadsAs(v, column + Offset(a, j), Flatten(xs[j]))
    ensures ReadsAs(v, column, Concat(Pieces(xs)))
  {
    ReadsConcat(v, column, Pieces(xs));
  }

  /** For a typed value, being placed is reading its cells. */
  lemma PlacedTyped(v: View, x: Value, t: Type, column: nat)
    requires WellFormed(t) && Typed(x, t)
    ensures Placed(v, x, t, column) <==> ReadsAs(v, column, Flatten(x))
  {
    TypedWidth(x, t);
  }

  /** A typed tuple's cells are its elements' cells, each as wide as the
      element type. */
  lemma TupleCells(t: Type, xs: seq<Value>)
    requires WellFormed(t) && t.Tuple? && |xs| == |t.elems|
    requires forall j | 0 <= j < |xs| :: Typed(xs[j], t.elems[j])
    ensures Typed(Tup(xs), t) && |Flatten(Tup(xs))| == Arity(t)
    ensures Flatten(Tup(xs)) == Concat(Pieces(xs))
    ensures Lengths(Pieces(xs)) == Arities(t.elems)
  {
    var pieces := Pieces(xs);
    forall j | 0 <= j < |xs| ensures |pieces[j]| == Arities(t.elems)[j] {
      TypedWidth(xs[j], t.elems[j]);
    }
    assert Typed(Tup(xs), t);
    TypedWidth(Tup(xs), t);
  }

  /** Decoding is lossless: a value `get<T>` returns is typed and its cells
      are exactly the `arity(T)` cells read from `column` on. */
  lemma {:induction false} GetSound(v: View, t: Type, column: nat, x: Value)
    requires WellFormed(t) && Get(v, t, column) == Ok(x)
    ensures Placed(v, x, t, column)
    decreases t, 2
  {
    ArityPositive(t);
    if Arity(t) == 1 {
      var cell := Read(v, column);
      assert cell.Ok?;
      if cell.value.None? {
        NullOfTyped(t);
      } else {
        FromTextTyped(t, cell.value.value);
      }
      assert Flatten(x)[1..] == [];
    } else {
      var s := Slice(v, column, Arity(t)).value;
      FromSound(s, t, x);
      ReadsSlice(v, column, Arity(t), 0, Flatten(x));
    }
  }

  lemma {:induction false} FromSound(v: View, t: Type, x: Value)
    requires WellFormed(t) && Arity(t) > 1 && From(v, t) == Ok(x)
    ensures Placed(v, x, t, 0)
    decreases t, 1
  {
    var xs := FromElems(v, t, 0).value;
    assert x == Tup(xs);
    ElementsPlaced(v, t, xs);
    ElementsPlacedTuple(v, t, xs, 0);
  }

  /** The decoded elements of a whole tuple sit at their prefix sums. */
  lemma ElementsPlaced(v: View, t: Type, xs: seq<Value>)
    requires WellFormed(t) && t.Tuple? && FromElems(v, t, 0) == Ok(xs)
    ensures |xs| == |t.elems|
    ensures forall j {:trigger Offset(Arities(t.elems), j)} | 0 <= j < |xs| :: Placed(v, xs[j], t.elems[j], 0 + Offset(Arities(t.elems), j))
    decreases t, 0
  {
    FromElemsSound(v, t, 0, xs);
    forall j | 0 <= j < |xs| ensures Placed(v, xs[j], t.elems[j], 0 + Offset(Arities(t.elems), j)) {
      assert Placed(v, xs[j], t.elems[0 + j], Offset(Arities(t.elems), 0 + j));
    }
  }

  lemma {:induction false} FromElemsSound(v: View, t: Type, i: nat, ys: seq<Value>)
    requires WellFormed(t) && t.Tuple? && i <= |t.elems| && FromElems(v, t, i) == Ok(ys)
    ensures |ys| == |t.elems| - i
    ensures forall j | 0 <= j < |ys| :: Placed(v, ys[j], t.elems[i + j], Offset(Arities(t.elems), i + j))
    decreases t, 0, |t.elems| - i
  {
    if i < |t.elems| {
      var a := Arities(t.elems);
      var x := Get(v, t.elems[i], Offset(a, i)).value;
      var rest := FromElems(v, t, i + 1).value;
      assert ys == [x] + rest;
      GetSound(v, t.elems[i], Offset(a, i), x);
      FromElemsSound(v, t, i + 1, rest);
      forall j | 0 <= j < |ys|
        ensures Placed(v, ys[j], t.elems[i + j], Offset(a, i + j))
      {
        if j > 0 {
          assert ys[j] == rest[j - 1] && i + j == (i + 1) + (j - 1);
        }
      }
    }
  }

  /** Decoding is complete: any typed value whose cells sit at `column` is
      what `get<T>(column)` returns. */
  lemma {:induction false} GetComplete(v: View, t: Type, column: nat, x: Value)
    requires WellFormed(t) && Placed(v, x, t, column)
    ensures Get(v, t, column) == Ok(x)
    decreases t, 2
  {
    ArityPositive(t);
    if Arity(t) == 1 {
      SingleCellInverse(x, t);
    } else {
      ReadsWithin(v, column, Flatten(x));
      var s := Slice(v, column, Arity(t)).value;
      ReadsSlice(v, column, Arity(t), 0, Flatten(x));
      FromComplete(s, t, x);
    }
  }

  lemma {:induction false} FromComplete(v: View, t: Type, x: Value)
    requires WellFormed(t) && Arity(t) > 1 && Placed(v, x, t, 0)
    ensures From(v, t) == Ok(x)
    decreases t, 1
  {
    PlacedElements(v, t, x.vs, 0);
    assert forall j | 0 <= j < |x.vs| :: 0 + Offset(Arities(t.elems), j) == Offset(Arities(t.elems), j);
    FromElemsComplete(v, t, 0, x.vs);
    assert x.vs[0..] == x.vs;
  }

  lemma {:induction false} FromElemsComplete(v: View, t: Type, i: nat, xs: seq<Value>)
    requires WellFormed(t) && t.Tuple? && |xs| == |t.elems| && i <= |xs|
    requires forall j {:trigger Offset(Arities(t.elems), j)} | 0 <= j < |xs| :: Placed(v, xs[j], t.elems[j], Offset(Arities(t.elems), j))
    ensures FromElems(v, t, i) == Ok(xs[i..])
    decreases t, 0, |t.elems| - i
  {
    if i < |xs| {
      var c := Offset(Arities(t.elems), i);
      assert Placed(v, xs[i], t.elems[i], c);
      GetComplete(v, t.elems[i], c, xs[i]);
      FromElemsComplete(v, t, i + 1, xs);
      FromElemsStep(v, t, i, xs);
    } else {
      assert xs[i..] == [];
    }
  }

  lemma FromElemsStep(v: View, t: Type, i: nat, xs: seq<Value>)
    requires WellFormed(t) && t.Tuple? && i < |t.elems| && i < |xs|
    requires Get(v, t.elems[i], Offset(Arities(t.elems), i)) == Ok(xs[i])
    requires FromElems(v, t, i + 1) == Ok(xs[i + 1..])
    ensures FromElems(v, t, i) == Ok(xs[i..])
  {
    assert xs[i..] == [xs[i]] + xs[i + 1..];
  }

  /** `as<T>()` is out of range when `T` does not span the whole window and
      otherwise is `get<T>(0)`, errors included; it succeeds exactly when `T`
      spans the window and the window's cells are those of a typed value,
      which it then returns. */
  lemma AsDecodesWindow(v: View, t: Type, x: Value)
    requires WellFormed(t)
    ensures Arity(t) != v.columns ==> As(v, t) == Err(OutOfRange)
    ensures Arity(t) == v.columns ==> As(v, t) == Get(v, t, 0)
    ensures As(v, t) == Ok(x) <==> Arity(t) == v.columns && Placed(v, x, t, 0)
  {
    if As(v, t) == Ok(x) {
      GetSound(v, t, 0, x);
    }
    if Arity(t) == v.columns && Placed(v, x, t, 0) {
      GetComplete(v, t, 0, x);
    }
  }

  /** A decoded tuple's element `i` is what reading that element's type
      directly at the element's prefix-sum column gives. */
  lemma TupleElements(v: View, t: Type, column: nat, xs: seq<Value>)
    requires WellFormed(t) && t.Tuple? && Get(v, t, column) == Ok(Tup(xs))
    ensures |xs| == |t.elems|
    ensures forall i | 0 <= i < |xs| :: Get(v, t.elems[i], column + Offset(Arities(t.elems), i)) == Ok(xs[i])
  {
    GetSound(v, t, column, Tup(xs));
    PlacedElements(v, t, xs, column);
    forall i | 0 <= i < |xs|
      ensures Get(v, t.elems[i], column + Offset(Arities(t.elems), i)) == Ok(xs[i])
    {
      GetComplete(v, t.elems[i], column + Offset(Arities(t.elems), i), xs[i]);
    }
  }

  /** One-column `get<T>`: a text cell decodes; a NULL cell gives `T`'s NULL
      value when it has one and otherwise fails, as a runtime error for a
      result row and as an invalid argument for a COPY row; an access error
      propagates unchanged. */
  lemma OneColumn(v: View, t: Type, column: nat)
    requires WellFormed(t) && Arity(t) == 1
    ensures Read(v, column).Err? ==> Get(v, t, column) == Err(Read(v, column).error)
    ensures Read(v, column).Ok? && Read(v, column).value.Some? ==>
              Get(v, t, column) == Ok(FromText(t, Read(v, column).value.value))
    ensures Read(v, column) == Ok(None) ==>
              Get(v, t, column) == (if HasNull(t) then Ok(NullOf(t))
                                    else if v.src.ResultRow? then Err(RuntimeError)
                                    else Err(InvalidArgument))
  {
  }

  /** `get<std::optional<T>>(column)` is the empty optional iff the cell is
      NULL, and otherwise `get<T>(column)` wrapped. */
  lemma OptionalGet(v: View, t: Type, column: nat)
    requires WellFormed(Nullable(t))
    ensures IsNull(v, column).Err? ==> Get(v, Nullable(t), column) == Err(IsNull(v, column).error)
    ensures IsNull(v, column) == Ok(true) ==> Get(v, Nullable(t), column) == Ok(Null)
    ensures IsNull(v, column) == Ok(false) ==>
              match Get(v, t, column)
              case Ok(y) => Get(v, Nullable(t), column) == Ok(Present(y))
              case Err(e) => Get(v, Nullable(t), column) == Err(e)
  {
  }

  /** `optional<T>()`, `pair<T, U>()` and `tuple<Ts...>()` are `as<>` of the
      composite type, so they too decode the whole window. */
  lemma CompositeAs(v: View, t: Type, u: Type, x: Value)
    requires WellFormed(Tuple([t, u]))
    ensures Pair(v, t, u) == Ok(x) <==> Arity(Tuple([t, u])) == v.columns && Placed(v, x, Tuple([t, u]), 0)
    ensures Pair(v, t, u) == TupleOf(v, [t, u])
  {
    AsDecodesWindow(v, Tuple([t, u]), x);
  }

  /** `field::as<T>()` as written agrees with `get<T>` only on windows at
      offset 0. */
  lemma FieldAsAtZeroOffset(v: View, column: nat, t: Type)
    requires WellFormed(t) && Arity(t) == 1 && v.offset == 0
    ensures FieldAs(Element(v, column), t) == Get(v, t, column)
  {
  }

  /** As written, the offset is added twice: in the slice of a two-column
      row that keeps only its second column, the slice's first field fails
      `as<T>()` although `get<T>(0)` reads it. */
  lemma FieldAsDoubleOffset()
    ensures var res: Results.Table := Results.Res(["a", "b"], [[Some("x"), Some("y")]]);
            var v := View(ResultRow(res, 0), 1, 1);
            FieldAs(Element(v, 0), Scalar) == Err(OutOfRange) && Get(v, Scalar, 0) == Ok(Text("y"))
  {
  }

  /** The same double offset in `table_field::as<T>()`, on the second
      column of a COPY line viewed through a one-column window. */
  lemma TableFieldAsDoubleOffset()
    ensures var v := View(CopyLine([Some("x"), Some("y")]), 1, 1);
            FieldAs(Element(v, 0), Scalar) == Err(OutOfRange) && Get(v, Scalar, 0) == Ok(Text("y"))
  {
  }

  /** With the column made relative again, the field `operator[](column)`
      returns decodes exactly as `get<T>(column)` on its window, whatever
      the window's offset. */
  lemma FieldAsIndexedIsGet(v: View, column: nat, t: Type)
    requires WellFormed(t) && Arity(t) == 1
    ensures FieldAsIndexed(Element(v, column), t) == Get(v, t, column)
  {
  }

  /** The same holds for the field `at(name)` returns: it decodes the
      window column `index(name)`. */
  lemma FieldAsByName(v: View, name: string, t: Type)
    requires WellFormed(t) && Arity(t) == 1 && v.src.ResultRow?
    ensures AtName(v, name).Ok? ==> FieldAsIndexed(AtName(v, name).value, t) == Get(v, t, Index(v, name).value)
  {
  }
}
