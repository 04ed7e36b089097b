/**
 * The cells of a pandas data frame as the screening pipeline sees them.
 *
 * A cell that pandas would hold as NaN (a warm-up value not yet defined, a
 * field that failed to parse) is `None`. Prices and volumes are `real`, so
 * the only place where IEEE floating point shows through is a division by
 * zero: it yields an infinity or NaN instead of raising, and the `Quotient`
 * datatype keeps those outcomes apart.
 */
module Cells {

  /** A frame cell: `None` stands for a missing value (NaN). */
  datatype Option<+T> = None | Some(value: T)

  /** The cell at position `i` of a column aligned by position with a frame;
      positions the column does not reach are missing, as pandas aligns them. */
  function At<T>(col: seq<Option<T>>, i: nat): Option<T>
  {
    if i < |col| then col[i] else None
  }

  /** The four possible outcomes of dividing two finite floating-point numbers. */
  datatype Quotient = Finite(value: real) | PlusInfinity | MinusInfinity | NotANumber

  /** IEEE division `x / y`: a non-zero divisor gives the exact quotient;
      zero gives an infinity of the sign of `x`, or NaN for `0 / 0`. */
  function Divide(x: real, y: real): (q: Quotient)
    ensures q.Finite? <==> y != 0.0
    ensures q.Finite? ==> q.value * y == x
    ensures q.PlusInfinity? <==> y == 0.0 && x > 0.0
    ensures q.MinusInfinity? <==> y == 0.0 && x < 0.0
    ensures q.NotANumber? <==> y == 0.0 && x == 0.0
  {
    if y != 0.0 then Finite(x / y)
    else if x > 0.0 then PlusInfinity
    else if x < 0.0 then MinusInfinity
    else NotANumber
  }

  /** A quotient multiplied by 100: infinities and NaN are unchanged. */
  function Percent(q: Quotient): Quotient
  {
    match q
    case Finite(x) => Finite(x * 100.0)
    case _ => q
  }

  /** `a > b` on two cells: false as soon as either side is NaN. */
  predicate Greater(a: Option<real>, b: Option<real>)
  {
    a.Some? && b.Some? && a.value > b.value
  }

  /** `q > c`: true of +inf, false of -inf and NaN. */
  predicate QuotientAbove(q: Quotient, c: real)
  {
    match q
    case Finite(x) => x > c
    case PlusInfinity => true
    case MinusInfinity => false
    case NotANumber => false
  }

  /** `q < c`: true of -inf, false of +inf and NaN. */
  predicate QuotientBelow(q: Quotient, c: real)
  {
    match q
    case Finite(x) => x < c
    case PlusInfinity => false
    case MinusInfinity => true
    case NotANumber => false
  }
}
