/** Conversion dispatch on the decoding side (include/tao/pq/result_traits_tuple.hpp):
    each target type has an arity (the number of columns it consumes), may
    have a distinguished NULL value, and decodes from one cell's text or,
    when wider than one column, from a slice of a row. */
module ResultTraits {
  import opened Wrappers
  import opened Layout

  /** Target types: a one-column scalar, `std::optional` of a one-column
      type, and `std::tuple` of element types. */
  datatype Type = Scalar | Nullable(elem: Type) | Tuple(elems: seq<Type>)

  /** Decoded values. A scalar keeps its cell text (the per-type text
      parsers are not part of this model); `Null` is `std::nullopt`. */
  datatype Value = Text(s: string) | Null | Present(v: Value) | Tup(vs: seq<Value>)

  /** `result_traits_size<T>`; a tuple's is the fold of its elements'. */
  function Arity(t: Type): (r: nat)
  {
    match t
    case Scalar => 1
    case Nullable(e) => Arity(e)
    case Tuple(elems) => Sum(seq(|elems|, i requires 0 <= i < |elems| => Arity(elems[i])))
  }

  function Arities(elems: seq<Type>): (a: seq<nat>)
    ensures |a| == |elems|
    ensures forall i | 0 <= i < |elems| :: a[i] == Arity(elems[i])
  {
    seq(|elems|, i requires 0 <= i < |elems| => Arity(elems[i]))
  }

  /** The types the C++ templates accept: `std::tuple<>` is rejected by a
      static assertion, the one-element tuple specialisation only decodes
      from a single cell, and `std::optional` wraps a one-column type. */
  predicate WellFormed(t: Type)
  {
    match t
    case Scalar => true
    case Nullable(e) => WellFormed(e) && Arity(e) == 1
    case Tuple(elems) =>
      && |elems| > 0
      && (forall i | 0 <= i < |elems| :: WellFormed(elems[i]))
      && (|elems| == 1 ==> Arity(elems[0]) == 1)
  }

  /** `result_traits_has_null<T>`: an optional has a NULL value, and so does
      a one-element tuple whose element has one. */
  predicate HasNull(t: Type)
  {
    match t
    case Scalar => false
    case Nullable(_) => true
    case Tuple(elems) => |elems| == 1 && HasNull(elems[0])
  }

  /** `result_traits<T>::null()`. */
  function NullOf(t: Type): (r: Value)
    requires HasNull(t)
  {
    match t
    case Nullable(_) => Null
    case Tuple(elems) => Tup([NullOf(elems[0])])
  }

  /** `result_traits<T>::from(const char*)` for a one-column type. */
  function FromText(t: Type, s: string): (r: Value)
    requires WellFormed(t) && Arity(t) == 1
  {
    match t
    case Scalar => Text(s)
    case Nullable(e) => Present(FromText(e, s))
    case Tuple(elems) =>
      ArityPositive(t);
      Tup([FromText(elems[0], s)])
  }

  /** The cells a value occupies, in column order. */
  function Flatten(x: Value): (r: seq<Option<string>>)
  {
    match x
    case Text(s) => [Some(s)]
    case Null => [None]
    case Present(v) => Flatten(v)
    case Tup(vs) => Concat(seq(|vs|, i requires 0 <= i < |vs| => Flatten(vs[i])))
  }

  function Pieces(vs: seq<Value>): (p: seq<seq<Option<string>>>)
    ensures |p| == |vs|
    ensures forall i | 0 <= i < |vs| :: p[i] == Flatten(vs[i])
  {
    seq(|vs|, i requires 0 <= i < |vs| => Flatten(vs[i]))
  }

  /** `x` is a value of type `t` that decoding can produce: an optional
      holding a value whose single cell is NULL is excluded, since that cell
      decodes to the empty optional. */
  predicate Typed(x: Value, t: Type)
  {
    match t
    case Scalar => x.Text?
    case Nullable(e) => x.Null? || (x.Present? && Typed(x.v, e) && Flatten(x.v) != [None])
    case Tuple(elems) =>
      x.Tup? && |x.vs| == |elems| && forall i | 0 <= i < |elems| :: Typed(x.vs[i], elems[i])
  }

  lemma FlattenSingle(y: Value)
    ensures Flatten(Tup([y])) == Flatten(y)
  {
    assert Pieces([y]) == [Flatten(y)];
    assert Concat([Flatten(y)]) == Flatten(y) + Concat([]);
  }

  /** Every accepted type consumes at least one column, and a tuple of two
      or more elements consumes at least two. */
  lemma {:induction false} ArityPositive(t: Type)
    requires WellFormed(t)
    ensures Arity(t) >= 1
    ensures t.Tuple? && |t.elems| >= 2 ==> Arity(t) >= 2
  {
    match t
    case Scalar =>
    case Nullable(e) =>
    case Tuple(elems) =>
      var a := Arities(elems);
      ArityPositive(elems[0]);
      if |elems| >= 2 {
        ArityPositive(elems[1]);
        assert Sum(a) == a[0] + (a[1] + Sum(a[2..])) by {
          assert a[1..][1..] == a[2..];
        }
      }
  }

  /** A one-element tuple has its element's arity and NULL-ness, its NULL
      wraps the element's NULL and its decoding wraps the element's. */
  lemma SingleTuple(e: Type, s: string)
    requires WellFormed(Tuple([e]))
    ensures Arity(Tuple([e])) == Arity(e) == 1
    ensures HasNull(Tuple([e])) <==> HasNull(e)
    ensures HasNull(e) ==> NullOf(Tuple([e])) == Tup([NullOf(e)])
    ensures FromText(Tuple([e]), s) == Tup([FromText(e, s)])
  {
    assert Arities([e]) == [Arity(e)];
    assert Sum([Arity(e)]) == Arity(e) + Sum([]);
  }

  /** A typed value occupies exactly as many cells as its type's arity. */
  lemma {:induction false} TypedWidth(x: Value, t: Type)
    requires WellFormed(t) && Typed(x, t)
    ensures |Flatten(x)| == Arity(t)
  {
    match t
    case Scalar =>
    case Nullable(e) =>
      if x.Present? {
        TypedWidth(x.v, e);
      }
    case Tuple(elems) =>
      forall i | 0 <= i < |elems|
        ensures |Flatten(x.vs[i])| == Arity(elems[i])
      {
        TypedWidth(x.vs[i], elems[i]);
      }
      assert Lengths(Pieces(x.vs)) == Arities(elems);
      ConcatLength(Pieces(x.vs));
  }

  /** Decoding one cell's text yields a typed value occupying that cell. */
  lemma {:induction false} FromTextTyped(t: Type, s: string)
    requires WellFormed(t) && Arity(t) == 1
    ensures Typed(FromText(t, s), t)
    ensures Flatten(FromText(t, s)) == [Some(s)]
  {
    match t
    case Scalar =>
    case Nullable(e) =>
      FromTextTyped(e, s);
    case Tuple(elems) =>
      ArityPositive(t);
      FromTextTyped(elems[0], s);
      FlattenSingle(FromText(elems[0], s));
  }

  /** The NULL value is typed and occupies one NULL cell. */
  lemma {:induction false} NullOfTyped(t: Type)
    requires WellFormed(t) && HasNull(t)
    ensures Arity(t) == 1
    ensures Typed(NullOf(t), t)
    ensures Flatten(NullOf(t)) == [None]
  {
    match t
    case Nullable(e) =>
    case Tuple(elems) =>
      NullOfTyped(elems[0]);
      assert Arities(elems) == [Arity(elems[0])];
      assert Sum([Arity(elems[0])]) == Arity(elems[0]) + Sum([]);
      FlattenSingle(NullOf(elems[0]));
  }

  /** A typed one-column value is determined by its cell: a NULL cell only
      comes from the type's NULL value, a text cell only from decoding it. */
  lemma {:induction false} SingleCellInverse(x: Value, t: Type)
    requires WellFormed(t) && Arity(t) == 1 && Typed(x, t)
    ensures |Flatten(x)| == 1
    ensures Flatten(x)[0].None? ==> HasNull(t) && x == NullOf(t)
    ensures Flatten(x)[0].Some? ==> x == FromText(t, Flatten(x)[0].value)
  {
    TypedWidth(x, t);
    match t
    case Scalar =>
    case Nullable(e) =>
      if x.Present? {
        SingleCellInverse(x.v, e);
      }
    case Tuple(elems) =>
      ArityPositive(t);
      SingleCellInverse(x.vs[0], elems[0]);
      assert x.vs == [x.vs[0]];
      FlattenSingle(x.vs[0]);
  }
}
