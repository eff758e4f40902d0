/** The backend result of one statement (src/lib/pq/result.cpp): an immutable
    table of text cells, each possibly NULL, with a name per column. The
    libpq handle is replaced by the table itself. */
module Results {
  import opened Wrappers

  /** The libpq result status codes the constructor distinguishes. */
  datatype Status =
    | EmptyQuery | CommandOk | TuplesOk | CopyOut | CopyIn
    | BadResponse | NonfatalError | FatalError | CopyBoth | SingleTuple

  /** What the caller expects the statement to produce. */
  datatype Mode = ExpectOk | ExpectCopyIn | ExpectCopyOut

  /** Column names and the rows of cells; `None` is a NULL cell. */
  datatype Res = Res(names: seq<string>, cells: seq<seq<Option<string>>>)

  /** Every row has one cell per column, as libpq guarantees. */
  predicate Shaped(res: Res)
  {
    forall r | 0 <= r < |res.cells| :: |res.cells[r]| == |res.names|
  }

  type Table = res: Res | Shaped(res) witness Res([], [])

  function Columns(res: Table): (r: nat) { |res.names| }

  function Rows(res: Table): (r: nat) { |res.cells| }

  /** The pairings of status and mode under which a result is accepted. */
  predicate Accepted(status: Status, mode: Mode)
  {
    || (status == CommandOk && mode == ExpectOk)
    || (status == TuplesOk && mode == ExpectOk)
    || (status == CopyIn && mode == ExpectCopyIn)
    || (status == CopyOut && mode == ExpectCopyOut)
  }

  /** The `result` constructor: an empty query is a runtime error, a status
      outside the five it knows raises the backend's SQLSTATE error, and a
      known status that does not match the mode is an unexpected result. */
  function Make(status: Status, table: Table, mode: Mode): (r: Result<Table>)
    ensures r.Ok? <==> Accepted(status, mode)
    ensures r.Ok? ==> r.value == table
    ensures status == EmptyQuery ==> r == Err(RuntimeError)
    ensures r.Err? && status in {CommandOk, TuplesOk, CopyIn, CopyOut} ==> r.error == RuntimeError
    ensures status !in {EmptyQuery, CommandOk, TuplesOk, CopyIn, CopyOut} ==> r == Err(SqlStateError)
  {
    match status
    case CommandOk | TuplesOk => if mode == ExpectOk then Ok(table) else Err(RuntimeError)
    case CopyIn => if mode == ExpectCopyIn then Ok(table) else Err(RuntimeError)
    case CopyOut => if mode == ExpectCopyOut then Ok(table) else Err(RuntimeError)
    case EmptyQuery => Err(RuntimeError)
    case _ => Err(SqlStateError)
  }

  /** `check_has_result_set`: only a statement with columns yields a result set. */
  function CheckHasResultSet(res: Table): (r: Result<()>)
    ensures r.Ok? <==> Columns(res) > 0
    ensures r.Err? ==> r.error == LogicError
  {
    if |res.names| == 0 then Err(LogicError) else Ok(())
  }

  /** `check_row`: a result set is required first, then the row must exist. */
  function CheckRow(res: Table, row: nat): (r: Result<()>)
    ensures r.Ok? <==> Columns(res) > 0 && row < Rows(res)
    ensures r.Err? ==> r.error == (if Columns(res) == 0 then LogicError else OutOfRange)
  {
    var _ :- CheckHasResultSet(res);
    if row < |res.cells| then Ok(()) else Err(OutOfRange)
  }

  /** `name(column)`. */
  function Name(res: Table, column: nat): (r: Result<string>)
    ensures r.Ok? <==> column < Columns(res)
    ensures r.Ok? ==> r.value == res.names[column]
    ensures r.Err? ==> r.error == OutOfRange
  {
    if column >= |res.names| then Err(OutOfRange) else Ok(res.names[column])
  }

  /** The first position of `name` in `names`, as the backend's lookup gives it. */
  function FirstIndex(names: seq<string>, name: string): (r: Option<nat>)
    ensures r.Some? <==> name in names
    ensures r.Some? ==> r.value < |names| && names[r.value] == name
    ensures r.Some? ==> forall j | 0 <= j < r.value :: names[j] != name
  {
    if names == [] then None
    else if names[0] == name then Some(0)
    else match FirstIndex(names[1..], name)
      case None => None
      case Some(k) => Some(k + 1)
  }

  /** `index(name)`: the position of the first column with that name; an
      unknown name fails, as a logic error when there is no result set. */
  function Index(res: Table, name: string): (r: Result<nat>)
    ensures r.Ok? <==> name in res.names
    ensures r.Ok? ==> r.value < Columns(res) && res.names[r.value] == name
    ensures r.Ok? ==> forall j | 0 <= j < r.value :: res.names[j] != name
    ensures r.Err? ==> r.error == (if Columns(res) == 0 then LogicError else OutOfRange)
  {
    match FirstIndex(res.names, name)
    case Some(k) => Ok(k)
    case None =>
      var _ :- CheckHasResultSet(res);
      Err(OutOfRange)
  }

  /** `size()`. */
  function Size(res: Table): (r: Result<nat>)
    ensures r.Ok? <==> Columns(res) > 0
    ensures r.Ok? ==> r.value == Rows(res)
    ensures r.Err? ==> r.error == LogicError
  {
    var _ :- CheckHasResultSet(res);
    Ok(|res.cells|)
  }

  /** `empty()`: `size() == 0`, failing where `size()` fails. */
  function Empty(res: Table): (r: Result<bool>)
    ensures r.Ok? <==> Columns(res) > 0
    ensures r.Ok? ==> (r.value <==> Rows(res) == 0)
    ensures r.Err? ==> r.error == LogicError
  {
    var n :- Size(res);
    Ok(n == 0)
  }

  /** `is_null(row, column)`: both the row and the column are validated
      before the cell is read. */
  function IsNull(res: Table, row: nat, column: nat): (r: Result<bool>)
    ensures r.Ok? <==> Columns(res) > 0 && row < Rows(res) && column < Columns(res)
    ensures r.Ok? ==> (r.value <==> res.cells[row][column].None?)
    ensures r.Err? ==> r.error == (if Columns(res) == 0 then LogicError else OutOfRange)
  {
    var _ :- CheckRow(res, row);
    if column >= |res.names| then Err(OutOfRange) else Ok(res.cells[row][column].None?)
  }

  /** `get(row, column)`: the cell's text; a NULL cell is a runtime error. */
  function Get(res: Table, row: nat, column: nat): (r: Result<string>)
    ensures r.Ok? <==> IsNull(res, row, column) == Ok(false)
    ensures r.Ok? ==> res.cells[row][column] == Some(r.value)
    ensures IsNull(res, row, column) == Ok(true) ==> r == Err(RuntimeError)
    ensures IsNull(res, row, column).Err? ==> r.Err? && r.error == IsNull(res, row, column).error
  {
    var isNull :- IsNull(res, row, column);
    if isNull then Err(RuntimeError) else Ok(res.cells[row][column].value)
  }
}
