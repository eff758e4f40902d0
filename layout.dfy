/** Column layout arithmetic shared by the composite conversions: the fold
    that sums element arities, the exclusive scan that gives each element its
    first column, and the (outer, inner) routing of a flattened column index. */
module Layout {

  /** The fold `(0 + ... + size<Ts>)`. */
  function Sum(a: seq<nat>): (r: nat)
  {
    if a == [] then 0 else a[0] + Sum(a[1..])
  }

  /** Exclusive prefix sum: the first column of element `i`. */
  function Offset(a: seq<nat>, i: nat): (r: nat)
    requires i <= |a|
  {
    if i == 0 then 0 else a[0] + Offset(a[1..], i - 1)
  }

  /** The element that serves flattened column `col`. */
  function Outer(a: seq<nat>, col: nat): (o: nat)
    requires col < Sum(a)
    ensures o < |a|
  {
    if col < a[0] then 0 else 1 + Outer(a[1..], col - a[0])
  }

  /** The column inside element `Outer(a, col)` that serves `col`. */
  function Inner(a: seq<nat>, col: nat): (r: nat)
    requires col < Sum(a)
  {
    if col < a[0] then col else Inner(a[1..], col - a[0])
  }

  lemma {:induction false} SumAppend(a: seq<nat>, b: seq<nat>)
    ensures Sum(a + b) == Sum(a) + Sum(b)
  {
    if a == [] {
      assert a + b == b;
    } else {
      assert (a + b)[1..] == a[1..] + b;
      SumAppend(a[1..], b);
    }
  }

  /** Element `i` occupies the columns `[Offset(a, i), Offset(a, i) + a[i])`,
      and the next element starts right after it. */
  lemma {:induction false} OffsetStep(a: seq<nat>, i: nat)
    requires i < |a|
    ensures Offset(a, i + 1) == Offset(a, i) + a[i]
  {
    if i > 0 {
      OffsetStep(a[1..], i - 1);
    }
  }

  /** The ranges end exactly at the total width. */
  lemma {:induction false} OffsetTotal(a: seq<nat>)
    ensures Offset(a, |a|) == Sum(a)
  {
    if a != [] {
      OffsetTotal(a[1..]);
    }
  }

  /** Earlier elements end no later than later elements start: the column
      ranges are disjoint and in declared order. */
  lemma {:induction false} OffsetOrdered(a: seq<nat>, i: nat, j: nat)
    requires i < j <= |a|
    ensures Offset(a, i) + a[i] <= Offset(a, j)
  {
    if i > 0 {
      OffsetOrdered(a[1..], i - 1, j - 1);
    } else if j > 1 {
      OffsetMonotone(a[1..], 0, j - 1);
    }
  }

  lemma {:induction false} OffsetMonotone(a: seq<nat>, i: nat, j: nat)
    requires i <= j <= |a|
    ensures Offset(a, i) <= Offset(a, j)
  {
    if i > 0 {
      OffsetMonotone(a[1..], i - 1, j - 1);
    } else if j > 0 {
      OffsetMonotone(a[1..], 0, j - 1);
    }
  }

  /** Every element's range lies inside `[0, Sum(a))` or is empty at its end. */
  lemma OffsetWithin(a: seq<nat>, i: nat)
    requires i < |a|
    ensures Offset(a, i) + a[i] <= Sum(a)
  {
    OffsetStep(a, i);
    OffsetMonotone(a, i + 1, |a|);
    OffsetTotal(a);
  }

  /** Routing is sound: column `col` lies inside the range of element
      `Outer(a, col)`, at position `Inner(a, col)` of it. */
  lemma {:induction false} RouteSound(a: seq<nat>, col: nat)
    requires col < Sum(a)
    ensures Inner(a, col) < a[Outer(a, col)]
    ensures Offset(a, Outer(a, col)) + Inner(a, col) == col
  {
    if col >= a[0] {
      RouteSound(a[1..], col - a[0]);
    }
  }

  /** Routing is complete and unique: inner position `k` of element `j` is a
      flattened column, and it is routed back to exactly `(j, k)`. */
  lemma {:induction false} RouteUnique(a: seq<nat>, j: nat, k: nat)
    requires j < |a| && k < a[j]
    ensures Offset(a, j) + k < Sum(a)
    ensures Outer(a, Offset(a, j) + k) == j
    ensures Inner(a, Offset(a, j) + k) == k
  {
    if j > 0 {
      RouteUnique(a[1..], j - 1, k);
    }
  }

  /** The pieces laid end to end, as a flattened column list is. */
  function Concat<T>(pieces: seq<seq<T>>): (r: seq<T>)
  {
    if pieces == [] then [] else pieces[0] + Concat(pieces[1..])
  }

  function Lengths<T>(pieces: seq<seq<T>>): (a: seq<nat>)
    ensures |a| == |pieces|
    ensures forall i | 0 <= i < |pieces| :: a[i] == |pieces[i]|
  {
    seq(|pieces|, i requires 0 <= i < |pieces| => |pieces[i]|)
  }

  /** Piece `j` sits in the concatenation at the exclusive prefix sum of
      the earlier pieces' lengths, and the whole is as long as the sum. */
  lemma {:induction false} ConcatAt<T>(pieces: seq<seq<T>>, j: nat, k: nat)
    requires j < |pieces| && k < |pieces[j]|
    ensures |Concat(pieces)| == Sum(Lengths(pieces))
    ensures Offset(Lengths(pieces), j) + k < |Concat(pieces)|
    ensures Concat(pieces)[Offset(Lengths(pieces), j) + k] == pieces[j][k]
  {
    assert Lengths(pieces)[1..] == Lengths(pieces[1..]);
    ConcatLength(pieces);
    if j > 0 {
      ConcatAt(pieces[1..], j - 1, k);
    }
  }

  lemma {:induction false} ConcatLength<T>(pieces: seq<seq<T>>)
    ensures |Concat(pieces)| == Sum(Lengths(pieces))
  {
    if pieces != [] {
      assert Lengths(pieces)[1..] == Lengths(pieces[1..]);
      ConcatLength(pieces[1..]);
    }
  }
}
