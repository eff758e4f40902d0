/** `table_writer`: each `insert` flattens its parameters into one row of
    column values, builds the COPY text line for them and sends it with one
    `insert_raw` call. */
module TableWriters {
  import opened Wrappers
  import opened Layout
  import opened CopyText
  import opened ParameterTraits

  /** `insert_indexed`'s loop: each value (NULL as `\N`, text verbatim)
      followed by a tab, then the last tab overwritten by a newline. */
  method BuildLine(values: seq<Option<string>>) returns (line: string)
    requires |values| > 0
    ensures line == Line(values)
  {
    var buffer: string := [];
    var n := 0;
    while n < |values|
      invariant 0 <= n <= |values|
      invariant buffer == Terminated(values[..n])
    {
      if values[n].None? {
        buffer := buffer + NULL_FIELD;
      } else {
        buffer := buffer + values[n].value;
      }
      buffer := buffer + [TAB];
      assert values[..n + 1][..n] == values[..n];
      n := n + 1;
    }
    assert values[..n] == values;
    TerminatedIsLine(values);
    buffer := buffer[|buffer| - 1 := NEWLINE];
    line := buffer;
  }

  /** `insert_traits`: value `n` of the row is `value<inner<n>>()` of
      parameter `outer<n>`, over the parameters' column counts. */
  function InsertedValues(params: seq<Param>): (r: seq<Option<string>>)
  {
    seq(Columns(Tuple(params)), n requires 0 <= n < Columns(Tuple(params)) => ValueOf(Tuple(params), n))
  }

  /** One field per column of every inserted parameter, in argument order:
      column `k` of parameter `j` is field `Offset(j) + k`. */
  lemma InsertedFields(params: seq<Param>, j: nat, k: nat)
    requires j < |params| && k < Columns(params[j])
    ensures |InsertedValues(params)| == Sum(ElementColumns(params))
    ensures Offset(ElementColumns(params), j) + k < |InsertedValues(params)|
    ensures InsertedValues(params)[Offset(ElementColumns(params), j) + k] == ValueOf(params[j], k)
  {
    ServedOnce(params, j, k);
  }

  /** The inserted row is the parameters' columns laid end to end. */
  lemma InsertedFlatten(params: seq<Param>)
    ensures |InsertedValues(params)| == |Flatten(Tuple(params))|
    ensures forall n | 0 <= n < |InsertedValues(params)| :: InsertedValues(params)[n] == Flatten(Tuple(params))[n].value
  {
    ColumnAtFlatten(Tuple(params));
  }

  class TableWriter {
    /** The lines handed to the server, in order. */
    var sent: seq<string>

    constructor()
      ensures sent == []
    {
      sent := [];
    }

    /** `insert_raw`: the data goes to the server unchanged. */
    method InsertRaw(data: string)
      modifies this
      ensures sent == old(sent) + [data]
    {
      sent := sent + [data];
    }

    /** `insert_indexed`: one line for the row, sent once. */
    method InsertIndexed(values: seq<Option<string>>)
      requires |values| > 0
      modifies this
      ensures sent == old(sent) + [Line(values)]
    {
      var line := BuildLine(values);
      InsertRaw(line);
    }

    /** `insert(as...)`: the arguments' columns flattened into one row; a row
      without columns is not allowed, since the builder overwrites the last
      character of its buffer. */
    method Insert(params: seq<Param>)
      requires Columns(Tuple(params)) > 0
      modifies this
      ensures sent == old(sent) + [Line(InsertedValues(params))]
    {
      InsertIndexed(InsertedValues(params));
    }

    /** `finish`: the number of rows sent. */
    method Finish() returns (n: nat)
      ensures n == |sent|
    {
      n := |sent|;
    }
  }

  /** Every line a writer sends for plain values is read back as those
      values. */
  lemma SentLinesReadBack(params: seq<Param>)
    requires Columns(Tuple(params)) > 0
    requires forall n | 0 <= n < |InsertedValues(params)| :: Plain(InsertedValues(params)[n])
    ensures ParseLine(Line(InsertedValues(params))) == InsertedValues(params)
    ensures |ParseLine(Line(InsertedValues(params)))| == Columns(Tuple(params))
  {
    RoundTrip(InsertedValues(params));
  }
}
