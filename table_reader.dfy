/** `table_reader`: a single pass over the lines of a COPY TO STDOUT
    result. `get_row` fetches the next line and parses it into the column
    vector that `table_row` reads; the iterator marks the end of the stream
    by setting its width to zero. */
module TableReaders {
  import opened Wrappers
  import opened CopyText
  import opened ResultTraits
  import opened Views
  import opened Decoding

  class TableReader {
    /** `columns()`: the COPY result's column count, fixed at construction. */
    const columns: nat
    /** The lines the server has yet to deliver. */
    var pending: seq<string>
    /** `m_buffer`: the last line fetched, `None` once the stream ended. */
    var buffer: Option<string>
    /** `m_data`: the parsed column values of the current line. */
    var data: seq<Option<string>>

    constructor(columns: nat, lines: seq<string>)
      ensures this.columns == columns && pending == lines && buffer == None && data == []
    {
      this.columns := columns;
      pending := lines;
      buffer := None;
      data := [];
    }

    /** `has_data()`. */
    predicate HasData()
      reads this
    {
      data != []
    }

    /** `get_raw_data()`: the next line, or nothing at the end. */
    method GetRawData() returns (raw: string)
      modifies this
      ensures data == old(data)
      ensures old(pending) == [] ==> pending == [] && buffer == None && raw == []
      ensures old(pending) != [] ==>
                pending == old(pending)[1..] && buffer == Some(old(pending)[0]) && raw == old(pending)[0]
    {
      if pending == [] {
        buffer := None;
        raw := [];
      } else {
        raw := pending[0];
        buffer := Some(raw);
        pending := pending[1..];
      }
    }

    /** `parse_data()`: the fetched line split into column values; no line
      leaves no data. */
    method ParseData() returns (ok: bool)
      modifies this
      ensures pending == old(pending) && buffer == old(buffer)
      ensures buffer.None? ==> data == []
      ensures buffer.Some? ==> data == ParseLine(buffer.value)
      ensures ok == buffer.Some? && ok == HasData()
    {
      if buffer.None? {
        data := [];
        ok := false;
      } else {
        data := ParseLine(buffer.value);
        ok := true;
      }
    }

    /** `get_row()`: fetch, then parse; true exactly when a line was read. */
    method GetRow() returns (ok: bool)
      modifies this
      ensures old(pending) == [] ==> !ok && pending == [] && data == []
      ensures old(pending) != [] ==>
                ok && pending == old(pending)[1..] && data == ParseLine(old(pending)[0])
      ensures ok == HasData()
    {
      var _ := GetRawData();
      ok := ParseData();
    }

    /** `row()`: the current line as a window at offset 0 spanning all
      columns. */
    function Row(): (v: View)
      requires HasData()
      reads this
      ensures v.src == CopyLine(data) && v.offset == 0 && v.columns == columns
    {
      View(CopyLine(data), 0, columns)
    }
  }

  /** `table_reader::const_iterator`: a `table_row` of the reader whose
      width drops to zero at the end of the stream. */
  class RowIterator {
    const reader: TableReader
    var columns: nat

    constructor(reader: TableReader, columns: nat)
      ensures this.reader == reader && this.columns == columns
    {
      this.reader := reader;
      this.columns := columns;
    }

    /** `operator*`: the reader's current line, at the iterator's width. */
    function Deref(): (v: View)
      reads this, reader
      ensures v.src == CopyLine(reader.data) && v.offset == 0 && v.columns == columns
    {
      View(CopyLine(reader.data), 0, columns)
    }

    /** `operator++`: fetch the next row; at the end the width becomes 0. */
    method Increment()
      modifies this, reader
      ensures old(reader.pending) == [] ==> columns == 0 && reader.pending == [] && reader.data == []
      ensures old(reader.pending) != [] ==>
                columns == old(columns) && reader.pending == old(reader.pending)[1..] &&
                reader.data == ParseLine(old(reader.pending)[0])
    {
      var ok := reader.GetRow();
      if !ok {
        columns := 0;
      }
    }

    /** Post-increment as written: a copy is pre-incremented and returned.
        The copy's `get_row()` still consumes a line of the shared reader,
        but this iterator's width never drops to 0. */
    method PostIncrementAsWritten() returns (r: RowIterator)
      modifies reader
      ensures fresh(r) && r.reader == reader && columns == old(columns)
      ensures old(reader.pending) == [] ==> r.columns == 0 && reader.pending == [] && reader.data == []
      ensures old(reader.pending) != [] ==>
                r.columns == old(columns) && reader.pending == old(reader.pending)[1..] &&
                reader.data == ParseLine(old(reader.pending)[0])
    {
      r := new RowIterator(reader, columns);
      r.Increment();
    }

    /** Post-increment as intended: this iterator advances as `++it` does
        and the returned copy keeps the old width. */
    method PostIncrement() returns (r: RowIterator)
      modifies this, reader
      ensures fresh(r) && r.reader == reader && r.columns == old(columns)
      ensures old(reader.pending) == [] ==> columns == 0 && reader.pending == [] && reader.data == []
      ensures old(reader.pending) != [] ==>
                columns == old(columns) && reader.pending == old(reader.pending)[1..] &&
                reader.data == ParseLine(old(reader.pending)[0])
    {
      r := new RowIterator(reader, columns);
      Increment();
    }

    /** `operator==`: only the widths are compared. */
    predicate Equal(other: RowIterator)
      reads this, other
    {
      columns == other.columns
    }
  }

  /** `begin()`: fetch the first row; without one, the end iterator. */
  method Begin(reader: TableReader) returns (it: RowIterator)
    modifies reader
    ensures fresh(it) && it.reader == reader
    ensures old(reader.pending) == [] ==> it.columns == 0 && reader.pending == [] && reader.data == []
    ensures old(reader.pending) != [] ==>
              it.columns == reader.columns && reader.pending == old(reader.pending)[1..] &&
              reader.data == ParseLine(old(reader.pending)[0])
  {
    var ok := reader.GetRow();
    it := new RowIterator(reader, if ok then reader.columns else 0);
  }

  /** `end()`: an iterator of width 0. */
  method End(reader: TableReader) returns (it: RowIterator)
    ensures fresh(it) && it.reader == reader && it.columns == 0
  {
    it := new RowIterator(reader, 0);
  }

  /** With post-increment as written, a loop advanced by `it++` never
      reaches `end()`: after the last line is consumed only the returned
      copy equals `end()`, while the iterator itself keeps its width. */
  method PostIncrementMissesEnd(reader: TableReader) returns (it: RowIterator, copy: RowIterator, last: RowIterator)
    requires reader.columns > 0 && |reader.pending| == 1
    modifies reader
    ensures reader.pending == [] && !reader.HasData()
    ensures copy.Equal(last) && !it.Equal(last)
  {
    it := Begin(reader);
    last := End(reader);
    copy := it.PostIncrementAsWritten();
  }

  /** The window a line is read through. */
  function LineView(line: string, columns: nat): (r: View)
  {
    View(CopyLine(ParseLine(line)), 0, columns)
  }

  /** Reference definition of `as_container`: each line's `as<T>()` in
      order; the first failure ends the whole conversion. */
  function DecodeAll(lines: seq<string>, columns: nat, t: Type): (r: Result<seq<Value>>)
    requires WellFormed(t)
  {
    if lines == [] then Ok([])
    else
      var x :- As(LineView(lines[0], columns), t);
      var rest :- DecodeAll(lines[1..], columns, t);
      Ok([x] + rest)
  }

  /** The values already collected, ahead of what the remaining lines
      decode to. */
  function Prepend(xs: seq<Value>, r: Result<seq<Value>>): (out: Result<seq<Value>>)
  {
    match r
    case Ok(ys) => Ok(xs + ys)
    case Err(e) => Err(e)
  }

  /** `as_container<T>()`: append `row.as<value_type>()` for each row in
      iteration order. */
  method AsContainer(reader: TableReader, t: Type) returns (r: Result<seq<Value>>)
    requires WellFormed(t)
    modifies reader
    ensures reader.columns > 0 ==> r == DecodeAll(old(reader.pending), reader.columns, t)
    ensures reader.columns > 0 && r.Ok? ==> reader.pending == []
    ensures reader.columns == 0 ==> r == Ok([])
  {
    ghost var lines := reader.pending;
    var it := Begin(reader);
    var last := End(reader);
    ghost var todo := lines;
    var nrv: seq<Value> := [];
    PrependEmpty(DecodeAll(lines, reader.columns, t));
    while !it.Equal(last)
      invariant it.reader == reader && last.columns == 0 && fresh(it) && fresh(last)
      invariant reader.columns == 0 ==> it.columns == 0 && nrv == []
      invariant it.columns != 0 ==> it.columns == reader.columns
      invariant reader.columns > 0 ==> (it.columns == 0 <==> todo == [])
      invariant reader.columns > 0 && todo != [] ==> reader.pending == todo[1..] && reader.data == ParseLine(todo[0])
      invariant reader.columns > 0 && todo == [] ==> reader.pending == []
      invariant reader.columns > 0 ==> DecodeAll(lines, reader.columns, t) == Prepend(nrv, DecodeAll(todo, reader.columns, t))
      decreases |todo|
    {
      var x := As(it.Deref(), t);
      assert it.Deref() == LineView(todo[0], reader.columns);
      if x.Err? {
        assert DecodeAll(todo, reader.columns, t) == Err(x.error);
        return Err(x.error);
      }
      DecodeStep(nrv, todo, reader.columns, t, x.value);
      nrv := nrv + [x.value];
      todo := todo[1..];
      it.Increment();
    }
    assert nrv + [] == nrv;
    r := Ok(nrv);
  }

  lemma PrependEmpty(r: Result<seq<Value>>)
    ensures Prepend([], r) == r
  {
    if r.Ok? {
      assert [] + r.value == r.value;
    }
  }

  /** One successfully converted line moves from the input to the
      collected values. */
  lemma DecodeStep(nrv: seq<Value>, todo: seq<string>, columns: nat, t: Type, x: Value)
    requires WellFormed(t) && todo != [] && As(LineView(todo[0], columns), t) == Ok(x)
    ensures Prepend(nrv, DecodeAll(todo, columns, t)) == Prepend(nrv + [x], DecodeAll(todo[1..], columns, t))
  {
    var rest := DecodeAll(todo[1..], columns, t);
    if rest.Ok? {
      assert nrv + ([x] + rest.value) == nrv + [x] + rest.value;
    }
  }

  /** `as_container` neither skips nor reorders: a successful conversion
      holds one value per line, the `i`-th being line `i`'s `as<T>()`. */
  lemma {:induction false} DecodeAllInOrder(lines: seq<string>, columns: nat, t: Type)
    requires WellFormed(t) && DecodeAll(lines, columns, t).Ok?
    ensures |DecodeAll(lines, columns, t).value| == |lines|
    ensures forall i | 0 <= i < |lines| :: As(LineView(lines[i], columns), t) == Ok(DecodeAll(lines, columns, t).value[i])
    decreases |lines|
  {
    if lines != [] {
      DecodeAllInOrder(lines[1..], columns, t);
      var xs := DecodeAll(lines, columns, t).value;
      forall i | 1 <= i < |lines|
        ensures As(LineView(lines[i], columns), t) == Ok(xs[i])
      {
        assert lines[i] == lines[1..][i - 1];
      }
    }
  }

  /** It fails exactly when some line fails, and then with the error of the
      first line that does. */
  lemma DecodeAllFails(lines: seq<string>, columns: nat, t: Type)
    requires WellFormed(t)
    ensures DecodeAll(lines, columns, t).Err? <==>
              exists i | 0 <= i < |lines| :: As(LineView(lines[i], columns), t).Err?
    ensures DecodeAll(lines, columns, t).Err? ==>
              exists i | 0 <= i < |lines| ::
                As(LineView(lines[i], columns), t) == Err(DecodeAll(lines, columns, t).error) &&
                forall j | 0 <= j < i :: As(LineView(lines[j], columns), t).Ok?
  {
    if DecodeAll(lines, columns, t).Ok? {
      DecodeAllInOrder(lines, columns, t);
    } else {
      var i := FirstError(lines, columns, t);
    }
  }

  /** The line whose failure a failed conversion reports. */
  lemma {:induction false} FirstError(lines: seq<string>, columns: nat, t: Type) returns (i: nat)
    requires WellFormed(t) && DecodeAll(lines, columns, t).Err?
    ensures i < |lines|
    ensures As(LineView(lines[i], columns), t) == Err(DecodeAll(lines, columns, t).error)
    ensures forall j | 0 <= j < i :: As(LineView(lines[j], columns), t).Ok?
    decreases |lines|
  {
    if As(LineView(lines[0], columns), t).Err? {
      i := 0;
    } else {
      var k := FirstError(lines[1..], columns, t);
      i := k + 1;
      forall j | 0 <= j < i ensures As(LineView(lines[j], columns), t).Ok? {
        if j > 0 {
          assert lines[j] == lines[1..][j - 1];
        }
      }
    }
  }

  /** A COPY line's window reads its parsed values one by one. */
  lemma {:induction false} LineReads(data: seq<Option<string>>, column: nat, cells: seq<Option<string>>)
    requires column + |cells| <= |data| && cells == data[column..column + |cells|]
    ensures ReadsAs(View(CopyLine(data), 0, |data|), column, cells)
    decreases |cells|
  {
    if cells != [] {
      assert cells[1..] == data[column + 1..column + 1 + |cells[1..]|];
      LineReads(data, column + 1, cells[1..]);
    }
  }

  /** End to end: lines written for typed values whose cells are plain
      are converted back to exactly those values by `as_container`. */
  lemma {:induction false} WrittenRowsReadBack(xs: seq<Value>, t: Type, lines: seq<string>)
    requires WellFormed(t)
    requires |lines| == |xs|
    requires forall i | 0 <= i < |xs| :: Typed(xs[i], t)
    requires forall i | 0 <= i < |xs| :: forall k | 0 <= k < |Flatten(xs[i])| :: Plain(Flatten(xs[i])[k])
    requires forall i | 0 <= i < |xs| :: |Flatten(xs[i])| > 0 && lines[i] == Line(Flatten(xs[i]))
    ensures DecodeAll(lines, Arity(t), t) == Ok(xs)
    decreases |xs|
  {
    if xs != [] {
      var cells := Flatten(xs[0]);
      TypedWidth(xs[0], t);
      RoundTrip(cells);
      assert cells == cells[0..0 + |cells|];
      LineReads(cells, 0, cells);
      AsDecodesWindow(LineView(lines[0], Arity(t)), t, xs[0]);
      WrittenRowsReadBack(xs[1..], t, lines[1..]);
      assert xs == [xs[0]] + xs[1..];
    }
  }
}
