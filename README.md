# taopq typed row access and COPY streaming, in Dafny

This project models the core of taopq, a C++ client library for PostgreSQL. The model covers four parts:

- **Result and rows.** The backend result of a statement (`result`) is an immutable table of text cells. Each cell may be NULL, and each column has a name. The status/mode check of the constructor and the bounds-checked accessors are modelled as pure functions (`Results`).
- **Row windows.** `row` and `table_row` are `(offset, columns)` windows onto one line of cells. Their typed accessors are `get<T>`, `as<T>`, `optional`, `pair`, `tuple`, `operator[]`, `at` and `field::as`. `get<T>` is dispatched on the arity of `T`. These are pure functions over one shared window datatype (`Views`), whose cells come either from a result row or from the current COPY line. The random-access column iterators of both classes are one class with a `size_t` column and an `int32_t` difference, both wrapping (`ColumnIterators`).
- **Tuple conversions.** `result_traits<std::tuple<...>>` places element `i` at the exclusive prefix sum of the earlier elements' arities (`ResultTraits`, `Layout`, `Decoding`). `parameter_traits<std::tuple<...>>` routes flattened column `I` to the pair (`outer<I>`, `inner<I>`) (`ParameterTraits`).
- **COPY streaming.** `table_writer` builds one COPY text line per `insert` in a loop over the values (`TableWriters`). `table_reader` is a single-pass state machine over the lines of a COPY result. Its iterator ends the stream by setting its width to 0, and `as_container` collects the rows (`TableReaders`). The text format itself is in `CopyText`: tab-separated fields, `\N` for NULL, and a newline at the end of each line.

The main results are:

- `get<T>(c)` is sound and complete: it returns `x` exactly when `x` is a value of type `T` whose `arity(T)` cells are the cells from column `c` on. The cells of tuple element `i` start at the prefix sum of the earlier elements' arities.
- The element column ranges are disjoint, in declared order, and cover `[0, size)`.
- Parameter routing serves each flattened column from exactly one element.
- For the column iterators of `row` and `table_row`, `(it + n) - it == n` under the int32 wrap.
- The writer's loop builds `join(fields, '\t') + '\n'`.
- A line written for plain values is read back as those values. A typed value written as such a line is converted back to the same value by `as_container`.

Several bodies live in files that are not part of this model. These are `row.cpp`, `table_row.cpp`, `table_reader.cpp`, `table_writer.cpp`, `field.hpp`, `result_traits.hpp`, `parameter_traits.hpp` and `internal/gen.hpp`. They get minimal contracts, listed under "Left out" as assumptions.

The operations themselves are these members; their properties are stated by the lemmas in the table below:

- `get<T>(column)`: `Views.Get`. It dispatches to `Views.GetOne` for one-column types and to `Views.From`/`Views.FromElems` (`result_traits<std::tuple<...>>::from`) for wider ones.
- `as<T>()`: `Views.As`. `optional`, `pair` and `tuple` are `Views.Optional`, `Views.Pair` and `Views.TupleOf`.
- `operator[](column)`: `Views.Element`. `field::as<T>()` as written is `Views.FieldAs`.
- `is_null(column)`: `Views.IsNull`. `row::get(column)` is `Views.RowGet` and `table_row::get(column)` is `Views.CopyGet`.
- `as_container<T>()`: its reference definition is `TableReaders.DecodeAll`, and the loop is `TableReaders.AsContainer`.
- The iterator difference `lhs - rhs` is `ColumnIterators.ColumnIterator.Difference` (over `ColumnIterators.IndexDistance`).
- The comparisons are `ColumnIterators.ColumnIterator.Equal`, `NotEqual`, `Less`, `Greater`, `LessEq` and `GreaterEq`.
- The parameter accessors `type<I>`, `value<I>`, `length<I>`, `format<I>` and `copy_to<I>` are `ParameterTraits.TypeOf`, `ValueOf`, `LengthOf`, `FormatOf` and `CopyTo`.
- `table_reader::has_data()` (include/tao/pq/table_reader.hpp:69-72) is `TableReaders.TableReader.HasData`. It holds iff the parsed column vector of the current line is non-empty.
- The row iterator's `operator==` and `operator!=` (include/tao/pq/table_reader.hpp:131-139) are `TableReaders.RowIterator.Equal` and its negation. Only the widths are compared, so a row iterator equals `end()` iff its width is 0. The rows for `RowIterator.Increment`, `TableReaders.End` and `TableReaders.PostIncrementMissesEnd` rely on this.
- The `values[]` array that `insert_traits` fills for `insert` (include/tao/pq/table_writer.hpp:35 and 50-55) is `TableWriters.InsertedValues`. Value `n` is `value<inner<n>>()` of parameter `outer<n>`, as `TableWriters.InsertedFields` and `TableWriters.InsertedFlatten` state.

## Model

| member | source | states |
|---|---|---|
| `Results.Make` | src/lib/pq/result.cpp:38-73 | The result is accepted only for COMMAND_OK or TUPLES_OK with expect_ok, COPY_IN with expect_copy_in, and COPY_OUT with expect_copy_out. EMPTY_QUERY is a runtime error. A known status under the wrong mode is a runtime error ("unexpected result"). Every other status raises the SQLSTATE error. |
| `Results.CheckHasResultSet` | src/lib/pq/result.cpp:20-25 | Fails with logic_error iff the column count is 0. |
| `Results.CheckRow` | src/lib/pq/result.cpp:27-36 | Succeeds iff there is a result set and `row < rows`. With no columns it is a logic_error, otherwise out_of_range. |
| `Results.Name` | src/lib/pq/result.cpp:90-96 | Out of range iff `column >= columns`; otherwise it is that column's name. |
| `Results.FirstIndex` | src/lib/pq/result.cpp:100 | The column-number lookup finds a name iff it occurs, at its first occurrence. |
| `Results.Index` | src/lib/pq/result.cpp:98-107 | Succeeds iff the name is a column name, giving its first position. An unknown name is a logic_error when there is no result set, and out_of_range otherwise. |
| `Results.Size` | src/lib/pq/result.cpp:114-118 | Needs a result set (logic_error otherwise) and equals the row count. |
| `Results.Empty` | src/lib/pq/result.cpp:109-112 | Needs a result set, and holds iff there are no rows. |
| `Results.IsNull` | src/lib/pq/result.cpp:131-138 | Checks the row as `check_row` does, then the column (out_of_range). Succeeds iff both are in range, and then holds iff the cell is NULL. |
| `Results.Get` | src/lib/pq/result.cpp:140-146 | Succeeds iff `is_null` succeeds with false, returning the cell text. A NULL cell is a runtime_error, and `is_null`'s errors pass through unchanged. |
| `Views.RowAt` | src/lib/pq/result.cpp:148-152 | `at(row)` fails exactly as `check_row` does. Otherwise it is the row's window at offset 0 spanning all columns. |
| `Views.Begin` | src/lib/pq/result.cpp:120-124 | Needs a result set; gives row 0 at offset 0 spanning all columns. |
| `Views.End` | src/lib/pq/result.cpp:126-129 | Needs a result set (through `size()`); gives row `size()` at offset 0 spanning all columns. |
| `Views.EnsureColumn` | include/tao/pq/row.hpp:48 | A window column is accepted iff it is below `columns()`; otherwise out_of_range. |
| `Views.Slice` | include/tao/pq/row.hpp:51 | A slice succeeds iff it fits in the window. The offsets add and the width is replaced, over the same source. |
| `Views.CopyGet` | include/tao/pq/table_row.hpp:193 | A COPY cell is read iff the column is inside the window and the parsed line. The result is that cell, with NULL as `None`. |
| `Views.Read` | include/tao/pq/row.hpp:200-201 | Reading window column `c` succeeds iff `c < columns()` and the cell at absolute column `offset + c` exists (for a result row: a result set, the row in range and the column in range; for a COPY line: the column inside the parsed line). It then gives that cell, with NULL as `None`. |
| `Views.At` | include/tao/pq/row.hpp:257 | `at(column)` succeeds iff `column < columns()`, giving the field `operator[](column)` gives. |
| `Views.Index` | include/tao/pq/row.hpp:59 | `index(name)` succeeds iff the name's first position in the result lies inside the window, and then gives that position minus the window offset. An unknown name, or one first found outside the window, is a logic_error without a result set and out_of_range otherwise. |
| `Views.AtName` | include/tao/pq/row.hpp:264-273 | `at(name)` and `operator[](name)` succeed iff `index(name)` does, giving the field at that column, which carries the name. |
| `Decoding.GetSound` | include/tao/pq/row.hpp:203-221 | A value `get<T>(c)` returns is of type `T`, and its cells are exactly the `arity(T)` cells read from column `c` on. |
| `Decoding.GetComplete` | include/tao/pq/table_row.hpp:195-217 | Any value of type `T` whose cells sit from column `c` on is what `get<T>(c)` returns. |
| `Decoding.FromSound` | include/tao/pq/result_traits_tuple.hpp:48-52 | A tuple decoded from a window is typed, and its cells are the window's cells from column 0. |
| `Decoding.FromComplete` | include/tao/pq/result_traits_tuple.hpp:42-46 | A typed tuple whose cells fill the window is what `from(row)` returns. |
| `Decoding.FromElemsSound` | include/tao/pq/result_traits_tuple.hpp:45 | Each decoded element `i` is typed and placed at the exclusive prefix sum of the earlier arities. |
| `Decoding.FromElemsComplete` | include/tao/pq/result_traits_tuple.hpp:43-46 | Elements placed at their prefix-sum columns are decoded, in order, as the tuple's elements. |
| `Decoding.PlacedElements` | include/tao/pq/result_traits_tuple.hpp:40-52 | If a tuple's cells are in a window, each element's cells are at that element's prefix-sum column. |
| `Decoding.ElementsPlacedTuple` | include/tao/pq/result_traits_tuple.hpp:40-52 | Conversely, elements whose cells are each at their prefix-sum column make the tuple's cells sit in the window. |
| `Decoding.TupleElements` | include/tao/pq/result_traits_tuple.hpp:49-52 | Element `i` of a decoded tuple is `get<T_i>` at column `c + Offset(i)`. |
| `Decoding.AsDecodesWindow` | include/tao/pq/row.hpp:229-237 | `as<T>()` is out_of_range if `arity(T) != columns()`; otherwise it is exactly `get<T>(0)`, including its errors. It returns `x` iff the arities match and `x` is typed and fills the window from column 0. |
| `Decoding.CompositeAs` | include/tao/pq/table_row.hpp:235-251 | `pair<T,U>()` is `as<>` of the two-element composite of `T` and `U` (a `std::pair` is modelled as a two-element tuple), and decodes the whole window exactly as `as<>` does. |
| `Decoding.OneColumn` | include/tao/pq/table_row.hpp:202-213 | For a one-column `T`, a text cell decodes with `from`. A NULL cell gives `null()` when `T` has one. Otherwise it fails, as runtime_error for a result row and invalid_argument ("unexpected NULL value") for a COPY row. Access errors propagate. |
| `Decoding.OptionalGet` | include/tao/pq/row.hpp:210-217 | `get<std::optional<T>>(c)` is the empty optional iff `is_null(c)`; otherwise it is `get<T>(c)` wrapped, with errors passed through. |
| `Decoding.FieldAsAtZeroOffset` | include/tao/pq/row.hpp:284-289 | As written, `field::as<T>()` equals `get<T>` at the field's column when the window starts at column 0. |
| `Decoding.FieldAsDoubleOffset` | include/tao/pq/row.hpp:284-289 | As written, in a slice starting at column 1, `row[0].as<T>()` is out of range although `get<T>(0)` reads the cell (see Findings). |
| `Decoding.TableFieldAsDoubleOffset` | include/tao/pq/table_row.hpp:268-273 | As written, `table_field::as<T>()` has the same double offset: on a COPY line seen through a window at offset 1, `row[0].as<T>()` is out of range although `get<T>(0)` reads the cell. |
| `Decoding.FieldAsIndexedIsGet` | include/tao/pq/row.hpp:259-262 | With the column made relative again, `operator[](c).as<T>()` is `get<T>(c)` for every window offset. |
| `Decoding.FieldAsByName` | include/tao/pq/row.hpp:264-268 | With the column made relative again, `at(name).as<T>()` is `get<T>(index(name))`. |
| `ResultTraits.ArityPositive` | include/tao/pq/result_traits_tuple.hpp:38-40 | Every accepted type has at least one column (the empty tuple is rejected), and a tuple of two or more elements has at least two. |
| `ResultTraits.SingleTuple` | include/tao/pq/result_traits_tuple.hpp:17-33 | A one-element tuple has its element's arity and has a null value iff its element does. Its `null()` and `from` wrap the element's. |
| `ResultTraits.TypedWidth` | include/tao/pq/result_traits_tuple.hpp:40 | A value of type `T` occupies exactly `arity(T)` cells: the fold of the element arities. |
| `ResultTraits.FromTextTyped` | include/tao/pq/result_traits_tuple.hpp:29-32 | Decoding one cell's text gives a value of the type, occupying exactly that cell. |
| `ResultTraits.NullOfTyped` | include/tao/pq/result_traits_tuple.hpp:22-27 | The null value is of the type, is one column wide, and occupies one NULL cell. |
| `ResultTraits.SingleCellInverse` | include/tao/pq/table_row.hpp:202-212 | A one-column typed value is `null()` when its cell is NULL and `from(text)` otherwise. |
| `Layout.OffsetStep` | include/tao/pq/result_traits_tuple.hpp:51 | The exclusive scan starts element `i + 1` right after element `i`'s columns. |
| `Layout.OffsetTotal` | include/tao/pq/result_traits_tuple.hpp:40 | The last element's range ends exactly at `size`, the fold of the arities. |
| `Layout.OffsetOrdered` | include/tao/pq/result_traits_tuple.hpp:49-52 | Earlier elements end no later than later elements start, so the ranges are disjoint and in declared order. |
| `Layout.OffsetWithin` | include/tao/pq/result_traits_tuple.hpp:40-52 | Every element's range lies inside `[0, size)`. |
| `Layout.RouteSound` | include/tao/pq/parameter_traits_tuple.hpp:37-47 | Flattened column `I` lies in element `outer<I>`'s range, at position `inner<I>` of it. |
| `Layout.RouteUnique` | include/tao/pq/parameter_traits_tuple.hpp:24 | Position `k` of element `j` is a flattened column and is routed back to exactly `(j, k)`. |
| `ParameterTraits.ColumnAtFlatten` | include/tao/pq/parameter_traits_tuple.hpp:35-65 | `columns` is the length of the concatenated element columns, and the forwarding accessors serve column `I` of that concatenation. |
| `ParameterTraits.EmptyTuple` | include/tao/pq/parameter_traits_tuple.hpp:35 | An empty parameter pack has 0 columns. |
| `ParameterTraits.ServedOnce` | include/tao/pq/parameter_traits_tuple.hpp:24-47 | Column `k` of element `j` is served at `Offset(j) + k` and at no other flattened index. |
| `ParameterTraits.AccessorsAgree` | include/tao/pq/parameter_traits_tuple.hpp:37-65 | `type<I>`, `value<I>`, `length<I>`, `format<I>` and `copy_to<I>` all read the same flattened column `I`. |
| `ColumnIterators.ToInt32` | include/tao/pq/row.hpp:152 | The int32 cast is the congruent value in int32 range, and the identity on int32 values. |
| `ColumnIterators.ColumnIterator.Deref` | include/tao/pq/row.hpp:115-118 | `*it` is the field of the iterator's window at its column. |
| `ColumnIterators.ColumnIterator.Begin` | include/tao/pq/row.hpp:187 | `begin()` stands at the window's first column. |
| `ColumnIterators.ColumnIterator.End` | include/tao/pq/row.hpp:188 | `end()` stands one past the window's last column. |
| `ColumnIterators.ColumnIterator.Increment` | include/tao/pq/row.hpp:81-85 | `++` raises the `size_t` column by 1, wrapping, and leaves the window alone. |
| `ColumnIterators.ColumnIterator.Decrement` | include/tao/pq/row.hpp:98-102 | `--` lowers the column by 1, wrapping. |
| `ColumnIterators.ColumnIterator.PostIncrementAsWritten` | include/tao/pq/row.hpp:87-90 | As written, `it++` returns a fresh copy one column ahead and leaves `it` where it was (see Findings). |
| `ColumnIterators.ColumnIterator.PostDecrementAsWritten` | include/tao/pq/table_row.hpp:96-99 | As written, `it--` returns a fresh copy one column back and leaves `it` where it was. |
| `ColumnIterators.ColumnIterator.PostIncrement` | include/tao/pq/table_row.hpp:79-82 | Intended `it++`: `it` moves one column on, and the returned copy keeps the old position, at distance 1 behind it. |
| `ColumnIterators.ColumnIterator.PostDecrement` | include/tao/pq/row.hpp:104-107 | Intended `it--`: `it` moves one column back, and the returned copy keeps the old position, at distance 1 ahead of it. |
| `ColumnIterators.PostIncrementStalls` | include/tao/pq/row.hpp:87-90 | With `it++` as written, `begin()` of a non-empty window stays at index 0 and never equals `end()`. Only the returned copy reaches index 1. |
| `ColumnIterators.IndexShift` | include/tao/pq/row.hpp:81-113 | Stepping the `size_t` column by `n` steps the window-relative index by `n`, modulo 2^64. |
| `ColumnIterators.MoveDistance` | include/tao/pq/row.hpp:81-113 | After the column moves by an int32 step `n`, the iterator difference between the new and the old window index is exactly `n`. |
| `ColumnIterators.ColumnIterator.AddAssign` | include/tao/pq/row.hpp:92-96 | `+= n` adds the int32 `n` converted to `size_t`, and the iterator then stands at distance `n` from where it was. |
| `ColumnIterators.ColumnIterator.SubAssign` | include/tao/pq/row.hpp:109-113 | `-= n` subtracts `n`, wrapping. |
| `ColumnIterators.ColumnIterator.Plus` | include/tao/pq/row.hpp:135-143 | `it + n` is a fresh copy at `column + n`, and `(it + n) - it == n`. |
| `ColumnIterators.ColumnIterator.Minus` | include/tao/pq/row.hpp:145-148 | `it - n` is a fresh copy at `column - n`. |
| `ColumnIterators.ColumnIterator.Subscript` | include/tao/pq/row.hpp:125-128 | `it[n]` is the field `n` columns away, at distance `n`. |
| `ColumnIterators.ColumnIterator.Swap` | include/tao/pq/row.hpp:130-133 | `swap` exchanges the two fields. |
| `ColumnIterators.DistanceOfAdvance` | include/tao/pq/row.hpp:150-153 | `(it + n) - it == n` for every int32 `n`, whatever the wrap-around. |
| `ColumnIterators.DistanceExact` | include/tao/pq/row.hpp:150-153 | `lhs - rhs` is the true index difference whenever that fits in int32. |
| `ColumnIterators.AdvanceInverse` | include/tao/pq/row.hpp:92-113 | Stepping `n` and back by `n` returns to the same column. |
| `ColumnIterators.AdvanceFixed` | include/tao/pq/row.hpp:135-158 | `it + n == it` iff `n == 0`, for int32 `n`. |
| `ColumnIterators.OrderAgreesWithDistance` | include/tao/pq/row.hpp:150-173 | For nearby indices, `==`, `<` and `>` agree with the sign of the int32 difference. |
| `ColumnIterators.ComparisonsAgree` | include/tao/pq/table_row.hpp:147-175 | The six comparisons act on the index only and form one total order. Within int32 range they agree with the sign of `lhs - rhs`. |
| `ColumnIterators.BeginToEnd` | include/tao/pq/row.hpp:187-188 | `begin() + columns()` is `end()`. Their indices are 0 and `columns()`, and `end() - begin()` is the width. |
| `TableReaders.TableReader.constructor` | include/tao/pq/table_reader.hpp:38-44 | A new reader has the result's column count, the whole line stream ahead and no data. |
| `TableReaders.TableReader.GetRawData` | include/tao/pq/table_reader.hpp:60 | Takes the next line into the buffer, or empties the buffer at the end of the stream. |
| `TableReaders.TableReader.ParseData` | include/tao/pq/table_reader.hpp:61 | Parses the buffered line into the column vector, or clears it when there is no line. Returns whether there is data now. |
| `TableReaders.TableReader.GetRow` | include/tao/pq/table_reader.hpp:63-67 | Fetches then parses. It returns true exactly when a line was read, leaving that line's values as the data, and the result equals `has_data()`. |
| `TableReaders.TableReader.Row` | include/tao/pq/table_reader.hpp:79-83 | `row()` needs data and is the current line at offset 0, spanning `columns()`. |
| `TableReaders.RowIterator.Deref` | include/tao/pq/table_reader.hpp:116-119 | `*it` is the reader's current line at the iterator's width. |
| `TableReaders.RowIterator.Increment` | include/tao/pq/table_reader.hpp:103-109 | `++` fetches the next row. The width becomes 0 exactly when there is none, so the iterator then equals `end()`. |
| `TableReaders.RowIterator.PostIncrementAsWritten` | include/tao/pq/table_reader.hpp:111-114 | As written, `it++` increments a copy. That copy's `get_row()` consumes a line of the shared reader, but `it` keeps its width, even at the end of the stream (see Findings). |
| `TableReaders.RowIterator.PostIncrement` | include/tao/pq/table_reader.hpp:111-114 | Intended `it++`: `it` advances as `++it` does, and the returned copy keeps the old width. |
| `TableReaders.PostIncrementMissesEnd` | include/tao/pq/table_reader.hpp:111-114 | With `it++` as written, after the last line is consumed only the returned copy equals `end()`; `it` itself does not, so a loop advanced by `it++` never ends. |
| `TableReaders.Begin` | include/tao/pq/table_reader.hpp:143 | `begin()` fetches the first row; without one it is the end iterator. |
| `TableReaders.End` | include/tao/pq/table_reader.hpp:144 | `end()` has width 0. |
| `TableReaders.AsContainer` | include/tao/pq/table_reader.hpp:156-164 | Collects `row.as<T>()` for every line in stream order: the result is `DecodeAll` of the line stream, and success consumes the stream. |
| `TableReaders.DecodeAllInOrder` | include/tao/pq/table_reader.hpp:157-164 | A successful conversion has one value per line, and value `i` is line `i`'s `as<T>()`, with nothing skipped or reordered. |
| `TableReaders.DecodeAllFails` | include/tao/pq/table_reader.hpp:160-161 | The conversion fails iff some line fails, and then with the first failing line's error. |
| `TableReaders.WrittenRowsReadBack` | include/tao/pq/table_writer.hpp:37-46 | Lines written for typed values with plain cells are converted back to exactly those values. |
| `TableWriters.BuildLine` | include/tao/pq/table_writer.hpp:35-46 | The loop's buffer, with its last tab overwritten, is `join(encoded values, '\t') + '\n'`. |
| `TableWriters.InsertedFields` | include/tao/pq/table_writer.hpp:50-55 | The row has one field per column of every argument: the sum of their `columns`. Column `k` of argument `j` is field `Offset(j) + k`. |
| `TableWriters.InsertedFlatten` | include/tao/pq/table_writer.hpp:53-54 | The inserted row is the arguments' column values laid end to end. |
| `TableWriters.SentLinesReadBack` | include/tao/pq/table_writer.hpp:37-47 | A line sent for plain values parses back to those values, one per column. |
| `TableWriters.TableWriter.constructor` | include/tao/pq/table_writer.hpp:58 | A new writer has sent nothing. |
| `TableWriters.TableWriter.InsertRaw` | include/tao/pq/table_writer.hpp:69 | The data is sent unchanged, after everything sent before. |
| `TableWriters.TableWriter.InsertIndexed` | include/tao/pq/table_writer.hpp:30-48 | Exactly one line is sent: the COPY line of the values. |
| `TableWriters.TableWriter.Insert` | include/tao/pq/table_writer.hpp:71-75 | Each `insert` sends exactly one line, that of the flattened argument columns. |
| `TableWriters.TableWriter.Finish` | include/tao/pq/table_writer.hpp:77 | Returns the number of lines sent. |
| `CopyText.EncodeField` | include/tao/pq/table_writer.hpp:38-43 | NULL is written as the two characters `\N`; text is written verbatim, without escaping. |
| `CopyText.DecodeField` | include/tao/pq/table_reader.hpp:61 | A field is NULL iff it is `\N`; otherwise it is its text. |
| `CopyText.ParseLine` | include/tao/pq/table_reader.hpp:61 | A parsed line always has at least one column. |
| `CopyText.SplitJoin` | include/tao/pq/table_reader.hpp:61 | Splitting on tabs undoes joining with tabs when no field holds a tab. |
| `CopyText.TerminatedIsLine` | include/tao/pq/table_writer.hpp:44-46 | The tab-terminated fields, with the last tab replaced by a newline, are the tab-joined line with one trailing newline. |
| `CopyText.TerminatedJoin` | include/tao/pq/table_writer.hpp:44-46 | The tab-terminated fields without their last tab are the fields joined by tabs. |
| `CopyText.RoundTrip` | include/tao/pq/table_writer.hpp:37-46 | Stripping the newline, splitting on tabs and mapping `\N` to NULL recovers the written values, when none holds a tab or newline or equals `\N`. |
| `CopyText.LineShape` | include/tao/pq/table_writer.hpp:44-46 | For plain values, a written line ends with its only newline. |
| `CopyText.EscapingGap` | include/tao/pq/table_writer.hpp:41-43 | Without escaping, a text equal to `\N` reads back as NULL and a text holding a tab reads back as two fields. |

## Left out

- `Views.Pair`: `pair<T, U>()` calls `as<std::pair<T, U>>()`. The model treats `std::pair<T, U>` as the two-element tuple of `T` and `U`, because the result traits of `std::pair` are not part of this model.
- All libpq calls are replaced by an abstract table (`Results.Res`) and an abstract line stream (`TableReaders.TableReader.pending`). Network I/O, `PQclear` and `PQfreemem` are not modelled.
- `Results.Index` matches names exactly. libpq's `PQfnumber` case-folding and double-quote handling are not modelled.
- `rows_affected` and `has_rows_affected` (src/lib/pq/result.cpp:75-88) are not modelled: they parse libpq's command tag with `from_chars`, which is not part of this model.
- Transaction chaining and ownership are not modelled: `m_previous`, `transaction_guard` and `shared_ptr`. This is resource plumbing with no state the model reads.
- Exception message text is not modelled, only the kind of error (`Wrappers.Error`).
- The per-type text parsers of `result_traits<T>::from(const char*)` live in result_traits.hpp, which is not part of this model. A scalar decodes to its cell text unchanged.
- `std::optional` is modelled with arity 1 only, since its traits are not part of this model.
- `Views.Slice`, `Views.EnsureColumn`, `Views.Index`, `Views.IsNull`, `Views.RowGet` and `Views.CopyGet` are assumptions. Their bodies are in row.cpp and table_row.cpp, which are not part of this model. `slice` checks that the slice fits and adds the offsets. `ensure_column` checks `column < columns()`. `index(name)` makes the result's position relative to the window. The cell accessors add the window offset. `Views.CopyGet` also returns out_of_range when the parsed line is shorter than the window. This is a modelling choice, since the body of `table_row::get` is in table_row.cpp.
- `ColumnIterators.ColumnIterator.Begin` and `ColumnIterators.ColumnIterator.End` are assumptions: begin and end stand at `offset` and `offset + columns`. `field::index()` is taken to be the column minus the window offset, since field.hpp is not part of this model.
- `ColumnIterators.ColumnIterator.Difference` models the int32 subtraction as wrapping. In C++ an overflowing signed subtraction is undefined behaviour.
- `CopyText.Plain` admits backslashes. The round trip is stated between the line the writer builds and the reader's parse of that same line. The server's own backslash processing of COPY text is not modelled, so a value such as `a\bc` is carried by the model but would not survive a real trip through a table.
- `CopyText.ParseLine` is an assumption, since the body of `parse_data` is not part of this model. It strips one trailing newline, splits on tabs and maps `\N` to NULL. It does no unescaping, reproducing the writer's missing escaping (the `TODO: escape`); `CopyText.EscapingGap` shows the consequence.
- `TableReaders.Begin` is an assumption (table_reader.cpp is not part of this model): it calls `get_row()` and returns `end()` when there is no row.
- `TableReaders.TableReader.GetRawData` is an assumption: it takes the next line of the stream or, at the end, leaves no buffer. Errors from the server while copying are not modelled.
- `TableReaders.AsContainer` builds a sequence container. The set and map containers (`set`, `map`, the `unordered_*` variants and their `multi` versions) only change how values are inserted, which is the container's own logic, and are not modelled.
- `TableReaders.AsContainer`: the contract states the whole result when the reader has columns. With no columns it states only the empty result, not how many lines `begin()` consumed.
- `TableWriters.TableWriter.Finish` returns the number of lines sent. Ending the COPY on the server and its error paths are not modelled, since table_writer.cpp is not part of this model.
- `ParameterTraits.Column` takes the element traits' per-column answers as given. Their own encodings (parameter_traits.hpp) are not part of this model, and `copy_to` appends the element's text for that column.
- The order in which C++ evaluates the elements of a tuple is unspecified. When several elements fail, the model reports the leftmost one's error.

## Findings

| source | as written | input that shows it | evidently intended | confidence | as-written member | corrected member |
|---|---|---|---|---|---|---|
| include/tao/pq/row.hpp:284-289 | `field::as<T>()` passes the field's absolute column `m_column` to `row::get<T>`, which takes a column relative to the window and adds the offset again. | A row with columns `a` and `b`, holding `x` and `y`, taken as `slice(1, 1)`. `operator[](0)` gives the field at absolute column 1, whose `as<T>()` asks for window column 1 and fails with out_of_range. `get<T>(0)` on the same slice returns `y`. | Pass the column relative to the window (`index()`), so that `row[c].as<T>()` equals `get<T>(c)`. | medium, not executed; this rests on `row::get` adding the window offset, and row.cpp is not part of this model | `Decoding.FieldAsDoubleOffset` | `Views.FieldAsIndexed` (proved in `Decoding.FieldAsIndexedIsGet`) |
| include/tao/pq/table_row.hpp:268-273 | `table_field::as<T>()` passes the absolute column `m_column`, built by `operator[]` as `m_offset + column`, to `table_row::get<T>`, which takes a window column. | A COPY line holding `x` and `y`, seen through a window at offset 1 and width 1. `row[0].as<T>()` fails with out_of_range while `get<T>(0)` returns `y`. | Pass the column relative to the window. | medium, not executed; this rests on `table_row::get` adding the window offset, and table_row.cpp is not part of this model | `Decoding.TableFieldAsDoubleOffset` | `Views.FieldAsIndexed` (proved in `Decoding.FieldAsIndexedIsGet`) |
| include/tao/pq/row.hpp:87-90 | Post-increment and post-decrement (row.hpp:87-90 and 104-107, table_row.hpp:79-82 and 96-99) step a temporary copy and return it, leaving the iterator itself unchanged. | `begin()` of a one-column window: after `it++`, `it` is still at index 0 and differs from `end()`, so `for (; it != end; it++)` never terminates. | Step the iterator itself and return a copy of its old position. | high, not executed | `ColumnIterators.ColumnIterator.PostIncrementAsWritten` (shown in `ColumnIterators.PostIncrementStalls`) | `ColumnIterators.ColumnIterator.PostIncrement` |
| include/tao/pq/table_reader.hpp:111-114 | Post-increment increments a copy of the row iterator. The copy's `get_row()` consumes a line from the shared reader, but the iterator itself keeps its width. | A reader with one pending line: after `begin()` and `it++` the stream is exhausted and the returned copy equals `end()`, but `it` does not, so a loop advanced by `it++` never terminates. | Advance the iterator itself, as `++it` does. | high, not executed | `TableReaders.RowIterator.PostIncrementAsWritten` (shown in `TableReaders.PostIncrementMissesEnd`) | `TableReaders.RowIterator.PostIncrement` |
