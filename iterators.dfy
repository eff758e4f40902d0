/** The random-access column iterators of row.hpp and table_row.hpp. An
    iterator is a field (a window and an absolute column) whose column is a
    `std::size_t`, so stepping wraps modulo 2^64; its `difference_type` is
    `std::int32_t`, so distances are taken modulo 2^32. */
module ColumnIterators {
  import opened Views

  const SIZE_RANGE: int := 0x1_0000_0000_0000_0000
  const INT32_RANGE: int := 0x1_0000_0000
  const INT32_MIN: int := -0x8000_0000

  /** A `std::size_t` value. */
  type Size = x: int | 0 <= x < SIZE_RANGE

  predicate IsInt32(n: int)
  {
    INT32_MIN <= n < -INT32_MIN
  }

  /** Unsigned arithmetic: the result reduced modulo 2^64. */
  function Wrap(x: int): (r: Size)
    ensures (r - x) % SIZE_RANGE == 0
  {
    x % SIZE_RANGE
  }

  /** Conversion to `std::int32_t`: the value congruent modulo 2^32 in
      `[-2^31, 2^31)`. */
  function ToInt32(x: int): (r: int)
    ensures IsInt32(r)
    ensures (r - x) % INT32_RANGE == 0
    ensures IsInt32(x) ==> r == x
  {
    (x - INT32_MIN) % INT32_RANGE + INT32_MIN
  }

  /** The column `n` steps away, as `m_column += n` computes it. */
  function Advance(column: Size, n: int): Size
  {
    Wrap(column + n)
  }

  /** `lhs - rhs` on two iterator indices. */
  function IndexDistance(a: Size, b: Size): (d: int)
    ensures IsInt32(d)
  {
    ToInt32(ToInt32(a) - ToInt32(b))
  }

  /** The wrap as an explicit multiple of the modulus. */
  lemma WrapQuotient(x: int)
    ensures Wrap(x) == x - SIZE_RANGE * (x / SIZE_RANGE)
  {
  }

  /** Values that differ by a multiple of 2^64 wrap to the same `size_t`. */
  lemma WrapCongruent(x: int, y: int, k: int)
    requires x == y + SIZE_RANGE * k
    ensures Wrap(x) == Wrap(y)
  {
    WrapQuotient(x);
    WrapQuotient(y);
    assert Wrap(x) - Wrap(y) == SIZE_RANGE * (k - x / SIZE_RANGE + y / SIZE_RANGE);
  }

  lemma ToInt32Quotient(x: int)
    ensures ToInt32(x) == x - INT32_RANGE * ((x - INT32_MIN) / INT32_RANGE)
  {
  }

  /** Stepping the column steps the window-relative index by the same
      amount. */
  lemma IndexShift(column: Size, offset: int, n: int)
    ensures Wrap(Advance(column, n) - offset) == Advance(Wrap(column - offset), n)
  {
    WrapQuotient(column + n);
    WrapQuotient(column - offset);
    WrapCongruent(Advance(column, n) - offset, Wrap(column - offset) + n,
                  (column - offset) / SIZE_RANGE - (column + n) / SIZE_RANGE);
  }

  /** Moving the column by an int32 step moves the window-relative index
      by exactly that step, as `operator-` measures it. */
  lemma MoveDistance(column: Size, offset: int, n: int)
    requires IsInt32(n)
    ensures IndexDistance(Wrap(Advance(column, n) - offset), Wrap(column - offset)) == n
  {
    IndexShift(column, offset, n);
    DistanceOfAdvance(Wrap(column - offset), n);
  }

  /** Stepping `n` and back `n` returns to the same column. */
  lemma AdvanceInverse(column: Size, n: int)
    ensures Advance(Advance(column, n), -n) == column
  {
    var c := Advance(column, n);
    WrapQuotient(column + n);
    WrapQuotient(c - n);
    var k := (column + n) / SIZE_RANGE + (c - n) / SIZE_RANGE;
    assert Advance(c, -n) == column - SIZE_RANGE * k;
  }

  /** The int32 difference of two indices differs from their true
      difference by a multiple of 2^32. */
  lemma DistanceCongruent(a: Size, b: Size) returns (k: int)
    ensures IndexDistance(a, b) == a - b - INT32_RANGE * k
  {
    ToInt32Quotient(a);
    ToInt32Quotient(b);
    var e := ToInt32(a) - ToInt32(b);
    ToInt32Quotient(e);
    k := (a - INT32_MIN) / INT32_RANGE - (b - INT32_MIN) / INT32_RANGE + (e - INT32_MIN) / INT32_RANGE;
  }

  /** Stepping by an int32 `n` moves the iterator distance `n`, whatever the
      wrap-around of the unsigned column. */
  lemma DistanceOfAdvance(column: Size, n: int)
    requires IsInt32(n)
    ensures IndexDistance(Advance(column, n), column) == n
  {
    var c := Advance(column, n);
    WrapQuotient(column + n);
    var q := (column + n) / SIZE_RANGE;
    assert c == column + n - INT32_RANGE * (INT32_RANGE * q);
    var k := DistanceCongruent(c, column);
    assert IndexDistance(c, column) == n - INT32_RANGE * (k + INT32_RANGE * q);
  }

  /** The distance is exact when the two indices are within int32 range of
      each other. */
  lemma DistanceExact(a: Size, b: Size)
    requires IsInt32(a - b)
    ensures IndexDistance(a, b) == a - b
  {
    var k := DistanceCongruent(a, b);
  }

  /** Near each other, the relational operators on indices agree with the
      sign of the distance. */
  lemma OrderAgreesWithDistance(a: Size, b: Size)
    requires IsInt32(a - b)
    ensures a == b <==> IndexDistance(a, b) == 0
    ensures a < b <==> IndexDistance(a, b) < 0
    ensures a > b <==> IndexDistance(a, b) > 0
  {
    DistanceExact(a, b);
  }

  /** `it + n == it` exactly when `n` is zero, for an int32 step. */
  lemma AdvanceFixed(column: Size, n: int)
    requires IsInt32(n)
    ensures Advance(column, n) == column <==> n == 0
  {
    if Advance(column, n) == column {
      DistanceOfAdvance(column, n);
      DistanceExact(column, column);
    }
  }

  /** `row::const_iterator` and `table_row::const_iterator`: a field of
      `view` at absolute `column`. */
  class ColumnIterator {
    var view: View
    var column: Size

    /** `field::index()`: the column relative to the window. */
    function Index(): Size
      reads this
    {
      Wrap(column - view.offset)
    }

    /** `operator*`: the field the iterator stands on. */
    function Deref(): (f: Field)
      reads this
      ensures f.view == view && f.column == column
    {
      Field(view, column)
    }

    /** The first column of the window. */
    constructor Begin(v: View)
      ensures view == v && column == Wrap(v.offset)
    {
      view := v;
      column := Wrap(v.offset);
    }

    /** One past the last column of the window. */
    constructor End(v: View)
      ensures view == v && column == Wrap(v.offset + v.columns)
    {
      view := v;
      column := Wrap(v.offset + v.columns);
    }

    /** Pre-increment. */
    method Increment()
      modifies this
      ensures view == old(view) && column == Advance(old(column), 1)
    {
      column := Wrap(column + 1);
    }

    /** Pre-decrement. */
    method Decrement()
      modifies this
      ensures view == old(view) && column == Advance(old(column), -1)
    {
      column := Wrap(column - 1);
    }

    /** Post-increment as written: a copy of this iterator is
        pre-incremented and returned, and this iterator stays where it was. */
    method PostIncrementAsWritten() returns (r: ColumnIterator)
      ensures fresh(r) && r.view == view && r.column == Advance(column, 1)
    {
      r := new ColumnIterator.Begin(view);
      r.column := column;
      r.Increment();
    }

    /** Post-decrement as written: likewise steps only the copy. */
    method PostDecrementAsWritten() returns (r: ColumnIterator)
      ensures fresh(r) && r.view == view && r.column == Advance(column, -1)
    {
      r := new ColumnIterator.Begin(view);
      r.column := column;
      r.Decrement();
    }

    /** Post-increment as intended: this iterator steps forward and the
        returned copy keeps the old position, one column behind it. */
    method PostIncrement() returns (r: ColumnIterator)
      modifies this
      ensures fresh(r) && r.view == old(view) && r.column == old(column)
      ensures view == old(view) && column == Advance(old(column), 1)
      ensures IndexDistance(Index(), r.Index()) == 1
    {
      r := new ColumnIterator.Begin(view);
      r.column := column;
      AddAssign(1);
    }

    /** Post-decrement as intended. */
    method PostDecrement() returns (r: ColumnIterator)
      modifies this
      ensures fresh(r) && r.view == old(view) && r.column == old(column)
      ensures view == old(view) && column == Advance(old(column), -1)
      ensures IndexDistance(Index(), r.Index()) == -1
    {
      r := new ColumnIterator.Begin(view);
      r.column := column;
      SubAssign(1);
      MoveDistance(r.column, view.offset, -1);
    }

    /** `operator+=`: the int32 step converted to `size_t` and added. */
    method AddAssign(n: int)
      requires IsInt32(n)
      modifies this
      ensures view == old(view) && column == Advance(old(column), n)
      ensures IndexDistance(Index(), old(Index())) == n
    {
      ghost var c0 := column;
      column := Wrap(column + Wrap(n));
      WrapQuotient(n);
      WrapCongruent(c0 + Wrap(n), c0 + n, -(n / SIZE_RANGE));
      MoveDistance(c0, view.offset, n);
    }

    /** `operator-=`. */
    method SubAssign(n: int)
      requires IsInt32(n)
      modifies this
      ensures view == old(view) && column == Advance(old(column), -n)
    {
      ghost var c0 := column;
      column := Wrap(column - Wrap(n));
      WrapQuotient(n);
      WrapCongruent(c0 - Wrap(n), c0 - n, n / SIZE_RANGE);
    }

    /** `operator+`: a copy stepped by `n`; this iterator is unchanged. */
    method Plus(n: int) returns (r: ColumnIterator)
      requires IsInt32(n)
      ensures fresh(r) && r.view == view && r.column == Advance(column, n)
      ensures r.Difference(this) == n
    {
      r := new ColumnIterator.Begin(view);
      r.column := column;
      r.AddAssign(n);
    }

    /** `operator-(it, n)`. */
    method Minus(n: int) returns (r: ColumnIterator)
      requires IsInt32(n)
      ensures fresh(r) && r.view == view && r.column == Advance(column, -n)
    {
      r := new ColumnIterator.Begin(view);
      r.column := column;
      r.SubAssign(n);
    }

    /** `operator[]`: the field `n` columns away. */
    method Subscript(n: int) returns (f: Field)
      requires IsInt32(n)
      ensures f.view == view && f.column == Advance(column, n)
      ensures IndexDistance(Wrap(f.column - view.offset), Index()) == n
    {
      var it := Plus(n);
      f := it.Deref();
    }

    /** `lhs - rhs`: the difference of the int32 casts of the indices. */
    function Difference(other: ColumnIterator): int
      reads this, other
    {
      IndexDistance(Index(), other.Index())
    }

    /** `operator==`. */
    predicate Equal(other: ColumnIterator)
      reads this, other
    {
      Index() == other.Index()
    }

    /** `operator!=`. */
    predicate NotEqual(other: ColumnIterator)
      reads this, other
    {
      Index() != other.Index()
    }

    /** `operator<`. */
    predicate Less(other: ColumnIterator)
      reads this, other
    {
      Index() < other.Index()
    }

    /** `operator>`. */
    predicate Greater(other: ColumnIterator)
      reads this, other
    {
      Index() > other.Index()
    }

    /** `operator<=`. */
    predicate LessEq(other: ColumnIterator)
      reads this, other
    {
      Index() <= other.Index()
    }

    /** `operator>=`. */
    predicate GreaterEq(other: ColumnIterator)
      reads this, other
    {
      Index() >= other.Index()
    }

    /** `swap`: the two fields are exchanged. */
    method Swap(other: ColumnIterator)
      modifies this, other
      ensures view == old(other.view) && column == old(other.column)
      ensures other.view == old(view) && other.column == old(column)
    {
      view, other.view := other.view, view;
      column, other.column := other.column, column;
    }
  }

  /** The six comparisons form one total order on indices, and for
      iterators within int32 range of each other they agree with the sign
      of `lhs - rhs`. */
  lemma ComparisonsAgree(a: ColumnIterator, b: ColumnIterator)
    ensures a.NotEqual(b) <==> !a.Equal(b)
    ensures a.LessEq(b) <==> !a.Greater(b)
    ensures a.GreaterEq(b) <==> !a.Less(b)
    ensures a.Greater(b) <==> b.Less(a)
    ensures IsInt32(a.Index() - b.Index()) ==>
              (a.Equal(b) <==> a.Difference(b) == 0) &&
              (a.Less(b) <==> a.Difference(b) < 0) &&
              (a.Greater(b) <==> a.Difference(b) > 0) &&
              (a.LessEq(b) <==> a.Difference(b) <= 0) &&
              (a.GreaterEq(b) <==> a.Difference(b) >= 0)
  {
    if IsInt32(a.Index() - b.Index()) {
      OrderAgreesWithDistance(a.Index(), b.Index());
    }
  }

  /** Walking a window from `begin()` with `++` reaches `end()` after exactly
      `columns()` steps, the two stand at indices 0 and `columns()`, and
      `end() - begin()` is the width. */
  lemma BeginToEnd(first: ColumnIterator, last: ColumnIterator)
    requires first.view == last.view
    requires first.view.offset + first.view.columns < SIZE_RANGE && IsInt32(first.view.columns)
    requires first.column == Wrap(first.view.offset) && last.column == Wrap(last.view.offset + last.view.columns)
    ensures Advance(first.column, first.view.columns) == last.column
    ensures first.Index() == 0 && last.Index() == first.view.columns
    ensures last.Difference(first) == first.view.columns
  {
    DistanceExact(first.view.columns, 0);
  }

  /** With post-increment as written, an iterator over a non-empty window
      never moves: after `it++` it still stands at the first column and is
      not `end()`, so a loop advanced by `it++` does not terminate. */
  method PostIncrementStalls(v: View) returns (it: ColumnIterator, copy: ColumnIterator, last: ColumnIterator)
    requires 0 < v.columns && v.offset + v.columns < SIZE_RANGE
    ensures it.Index() == 0 && copy.Index() == 1 && last.Index() == v.columns
    ensures !it.Equal(last)
  {
    it := new ColumnIterator.Begin(v);
    last := new ColumnIterator.End(v);
    copy := it.PostIncrementAsWritten();
    FirstIndices(v.offset, v.columns);
  }

  /** Inside the `size_t` range, `begin()`, the column after it and `end()`
      stand at window indices 0, 1 and `columns()`. */
  lemma FirstIndices(offset: nat, columns: nat)
    requires 0 < columns && offset + columns < SIZE_RANGE
    ensures Wrap(Wrap(offset) - offset) == 0
    ensures Wrap(Advance(Wrap(offset), 1) - offset) == 1
    ensures Wrap(Wrap(offset + columns) - offset) == columns
  {
  }
}
