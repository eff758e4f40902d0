/** Row views (include/tao/pq/row.hpp, include/tao/pq/table_row.hpp): an
    `(offset, columns)` window onto one line of cells, either a row of a
    backend result (`row`) or the current line of a COPY stream
    (`table_row`). The typed accessors are shared by both, as the C++
    conversion templates are; they differ only in how a NULL cell reaches a
    type without a NULL value. */
module Views {
  import opened Wrappers
  import opened Layout
  import opened ResultTraits
  import Results

  /** Where a window's cells come from. */
  datatype Source =
    | ResultRow(res: Results.Table, row: nat)   // `row`: a row of a result
    | CopyLine(data: seq<Option<string>>)       // `table_row`: the reader's parsed line

  datatype View = View(src: Source, offset: nat, columns: nat)

  /** A field: the window it came from and its absolute column. */
  datatype Field = Field(view: View, column: nat)

  /** `ensure_column`: a window column must be below `columns()`. */
  function EnsureColumn(v: View, column: nat): (r: Result<()>)
    ensures r.Ok? <==> column < v.columns
    ensures r.Err? ==> r.error == OutOfRange
  {
    if column < v.columns then Ok(()) else Err(OutOfRange)
  }

  /** `slice(offset, columns)`: offsets add up and the width is replaced;
      the slice must fit inside the window. */
  function Slice(v: View, offset: nat, columns: nat): (r: Result<View>)
    ensures r.Ok? <==> offset + columns <= v.columns
    ensures r.Ok? ==> r.value.src == v.src && r.value.offset == v.offset + offset && r.value.columns == columns
    ensures r.Err? ==> r.error == OutOfRange
  {
    if offset + columns <= v.columns then Ok(View(v.src, v.offset + offset, columns)) else Err(OutOfRange)
  }

  /** `table_row::get(column)`: the raw cell of the current line, `None`
      for NULL. A line shorter than the window is reported out of range. */
  function CopyGet(v: View, column: nat): (r: Result<Option<string>>)
    requires v.src.CopyLine?
    ensures r.Ok? <==> column < v.columns && v.offset + column < |v.src.data|
    ensures r.Ok? ==> r.value == v.src.data[v.offset + column]
    ensures r.Err? ==> r.error == OutOfRange
  {
    var _ :- EnsureColumn(v, column);
    if v.offset + column < |v.src.data| then Ok(v.src.data[v.offset + column]) else Err(OutOfRange)
  }

  /** `row::is_null(column)` and `table_row::is_null(column)`. */
  function IsNull(v: View, column: nat): (r: Result<bool>)
  {
    match v.src
    case ResultRow(res, row) =>
      var _ :- EnsureColumn(v, column);
      Results.IsNull(res, row, v.offset + column)
    case CopyLine(_) =>
      var cell :- CopyGet(v, column);
      Ok(cell.None?)
  }

  /** `row::get(column)`: the cell text; a NULL cell is a runtime error. */
  function RowGet(v: View, column: nat): (r: Result<string>)
    requires v.src.ResultRow?
  {
    var _ :- EnsureColumn(v, column);
    Results.Get(v.src.res, v.src.row, v.offset + column)
  }

  /** The cell at window column `column` as the checked accessors see it. */
  function Read(v: View, column: nat): (r: Result<Option<string>>)
    ensures r.Ok? ==> column < v.columns
    ensures v.src.ResultRow? ==>
              (r.Ok? <==> column < v.columns && Results.Columns(v.src.res) > 0 &&
                          v.src.row < Results.Rows(v.src.res) && v.offset + column < Results.Columns(v.src.res))
    ensures v.src.ResultRow? && r.Ok? ==> r.value == v.src.res.cells[v.src.row][v.offset + column]
    ensures v.src.CopyLine? ==> (r.Ok? <==> column < v.columns && v.offset + column < |v.src.data|)
    ensures v.src.CopyLine? && r.Ok? ==> r.value == v.src.data[v.offset + column]
  {
    match v.src
    case ResultRow(res, row) =>
      var _ :- IsNull(v, column);
      Ok(res.cells[row][v.offset + column])
    case CopyLine(_) => CopyGet(v, column)
  }

  /** `get<T>(column)` for a one-column `T`. */
  function GetOne(v: View, t: Type, column: nat): (r: Result<Value>)
    requires WellFormed(t) && Arity(t) == 1
  {
    match v.src
    case ResultRow(_, _) =>
      if HasNull(t) then
        var isNull :- IsNull(v, column);
        if isNull then Ok(NullOf(t))
        else
          var s :- RowGet(v, column);
          Ok(FromText(t, s))
      else
        var s :- RowGet(v, column);
        Ok(FromText(t, s))
    case CopyLine(_) =>
      var cell :- CopyGet(v, column);
      if cell.None? then
        if HasNull(t) then Ok(NullOf(t)) else Err(InvalidArgument)
      else
        Ok(FromText(t, cell.value))
  }

  /** `get<T>(column)`: dispatch on the arity of `T`. A wider `T` decodes
      from the slice of its width starting at `column`. */
  function Get(v: View, t: Type, column: nat): (r: Result<Value>)
    requires WellFormed(t)
    decreases t, 2
  {
    ArityPositive(t);
    if Arity(t) == 1 then GetOne(v, t, column)
    else
      var s :- Slice(v, column, Arity(t));
      From(s, t)
  }

  /** `result_traits<std::tuple<Ts...>>::from(row)`: element `i` is read
      from the exclusive prefix sum of the earlier elements' arities. */
  function From(v: View, t: Type): (r: Result<Value>)
    requires WellFormed(t) && Arity(t) > 1
    decreases t, 1
  {
    var xs :- FromElems(v, t, 0);
    Ok(Tup(xs))
  }

  function FromElems(v: View, t: Type, i: nat): (r: Result<seq<Value>>)
    requires WellFormed(t) && t.Tuple? && i <= |t.elems|
    decreases t, 0, |t.elems| - i
  {
    if i == |t.elems| then Ok([])
    else
      var x :- Get(v, t.elems[i], Offset(Arities(t.elems), i));
      var rest :- FromElems(v, t, i + 1);
      Ok([x] + rest)
  }

  /** `as<T>()`: the width of `T` must be exactly the window's. */
  function As(v: View, t: Type): (r: Result<Value>)
    requires WellFormed(t)
  {
    if Arity(t) != v.columns then Err(OutOfRange) else Get(v, t, 0)
  }

  /** `optional<T>()`, `pair<T, U>()` and `tuple<Ts...>()`. */
  function Optional(v: View, t: Type): (r: Result<Value>)
    requires WellFormed(Nullable(t))
  {
    As(v, Nullable(t))
  }

  function Pair(v: View, t: Type, u: Type): (r: Result<Value>)
    requires WellFormed(Tuple([t, u]))
  {
    As(v, Tuple([t, u]))
  }

  function TupleOf(v: View, ts: seq<Type>): (r: Result<Value>)
    requires WellFormed(Tuple(ts))
  {
    As(v, Tuple(ts))
  }

  /** `operator[](column)`: unchecked, at absolute column `offset + column`. */
  function Element(v: View, column: nat): (f: Field)
  {
    Field(v, v.offset + column)
  }

  /** `at(column)`: checked against `columns()`. */
  function At(v: View, column: nat): (r: Result<Field>)
    ensures r.Ok? <==> column < v.columns
    ensures r.Ok? ==> r.value == Element(v, column)
    ensures r.Err? ==> r.error == OutOfRange
  {
    var _ :- EnsureColumn(v, column);
    Ok(Element(v, column))
  }

  /** `row::index(name)`: the result's column position made relative to the
      window; a column outside the window is not found. */
  function Index(v: View, name: string): (r: Result<nat>)
    requires v.src.ResultRow?
    ensures r.Ok? ==> r.value < v.columns && v.offset + r.value < Results.Columns(v.src.res)
    ensures r.Ok? ==> v.src.res.names[v.offset + r.value] == name
    ensures r.Ok? ==> forall j | 0 <= j < v.offset + r.value :: v.src.res.names[j] != name
    ensures name !in v.src.res.names ==> r.Err?
    ensures r.Ok? <==> name in v.src.res.names &&
                       v.offset <= Results.Index(v.src.res, name).value < v.offset + v.columns
    ensures r.Ok? ==> v.offset + r.value == Results.Index(v.src.res, name).value
    ensures r.Err? ==> r.error == (if Results.Columns(v.src.res) == 0 then LogicError else OutOfRange)
  {
    var k :- Results.Index(v.src.res, name);
    if k < v.offset || k >= v.offset + v.columns then Err(OutOfRange) else Ok(k - v.offset)
  }

  /** `at(name)` and `operator[](name)`: the field at `index(name)`. */
  function AtName(v: View, name: string): (r: Result<Field>)
    requires v.src.ResultRow?
    ensures r.Ok? <==> Index(v, name).Ok?
    ensures r.Ok? ==> r.value == Element(v, Index(v, name).value)
    ensures r.Ok? ==> r.value.view == v && v.src.res.names[r.value.column] == name
  {
    var k :- Index(v, name);
    Ok(Element(v, k))
  }

  /** `field::as<T>()` as written: the field's absolute column is handed to
      `get<T>`, which takes a column relative to the window. */
  function FieldAs(f: Field, t: Type): (r: Result<Value>)
    requires WellFormed(t) && Arity(t) == 1
  {
    Get(f.view, t, f.column)
  }

  /** `field::as<T>()` as intended: the field's column made relative to its
      window again, as `field::index()` does; a column left of the window
      wraps around in `size_t` and is out of range. */
  function FieldAsIndexed(f: Field, t: Type): (r: Result<Value>)
    requires WellFormed(t) && Arity(t) == 1
  {
    if f.column < f.view.offset then Err(OutOfRange) else Get(f.view, t, f.column - f.view.offset)
  }

  /** `result::at(row)`: the whole row, after `check_row`. */
  function RowAt(res: Results.Table, row: nat): (r: Result<View>)
    ensures r.Ok? <==> Results.Columns(res) > 0 && row < Results.Rows(res)
    ensures r.Ok? ==> r.value == View(ResultRow(res, row), 0, Results.Columns(res))
    ensures r.Err? ==> r.error == Results.CheckRow(res, row).error
  {
    var _ :- Results.CheckRow(res, row);
    Ok(View(ResultRow(res, row), 0, |res.names|))
  }

  /** `result::begin()` and `result::end()`: rows 0 and `size()`, each
      spanning every column from offset 0. */
  function Begin(res: Results.Table): (r: Result<View>)
    ensures r.Ok? <==> Results.Columns(res) > 0
    ensures r.Ok? ==> r.value == View(ResultRow(res, 0), 0, Results.Columns(res))
    ensures r.Err? ==> r.error == LogicError
  {
    var _ :- Results.CheckHasResultSet(res);
    Ok(View(ResultRow(res, 0), 0, |res.names|))
  }

  function End(res: Results.Table): (r: Result<View>)
    ensures r.Ok? <==> Results.Columns(res) > 0
    ensures r.Ok? ==> r.value == View(ResultRow(res, Results.Rows(res)), 0, Results.Columns(res))
    ensures r.Err? ==> r.error == LogicError
  {
    var n :- Results.Size(res);
    Ok(View(ResultRow(res, n), 0, |res.names|))
  }
}
