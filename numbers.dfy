/**
 A JavaScript number as the converter handles it: NaN, one of the two
 infinities, or a finite value. Finite values are exact reals, so rounding to
 double precision and the sign of zero are not part of this model.
 */
module Numbers {

  datatype Num = NaN | PosInf | NegInf | Finite(value: real)

  /** `isNaN(n)`: NaN is neither negative nor truthy. */
  predicate IsNaN(n: Num)
    ensures IsNaN(n) ==> !IsNegative(n) && !Truthy(n)
  {
    n.NaN?
  }

  /** `n < 0`: false for NaN, true for minus infinity; a negative number is truthy. */
  predicate IsNegative(n: Num)
    ensures IsNegative(n) ==> n != PosInf && Truthy(n)
  {
    n.NegInf? || (n.Finite? && n.value < 0.0)
  }

  /** A number used as a condition: every number except 0 and NaN is truthy. */
  predicate Truthy(n: Num)
    ensures IsInfinite(n) ==> Truthy(n)
    ensures n.Finite? ==> (Truthy(n) <==> n.value != 0.0)
  {
    !n.NaN? && n != Finite(0.0)
  }

  predicate IsInfinite(n: Num) {
    n.PosInf? || n.NegInf?
  }

  /** The infinity of the given sign (a zero divisor counts as +0). */
  function Infinity(positive: bool): (r: Num)
    ensures IsInfinite(r)
  {
    if positive then PosInf else NegInf
  }

  /** `a / b` with IEEE 754 special values. */
  function Div(a: Num, b: Num): (q: Num)
    ensures a.NaN? || b.NaN? ==> q.NaN?
    ensures a.Finite? && b.Finite? && b.value != 0.0 ==> q.Finite? && q.value * b.value == a.value
    ensures a.Finite? && a.value != 0.0 && b == Finite(0.0) ==> IsInfinite(q)
    ensures a == Finite(0.0) && b == Finite(0.0) ==> q.NaN?
    ensures a.Finite? && IsInfinite(b) ==> q == Finite(0.0)
    ensures IsInfinite(a) && IsInfinite(b) ==> q.NaN?
    ensures IsInfinite(a) && b.Finite? ==> IsInfinite(q)
  {
    match (a, b)
    case (NaN, _) => NaN
    case (_, NaN) => NaN
    case (Finite(x), Finite(y)) =>
      if y != 0.0 then Finite(x / y)
      else if x == 0.0 then NaN
      else Infinity(x > 0.0)
    case (Finite(_), _) => Finite(0.0)
    case (PosInf, Finite(y)) => Infinity(y >= 0.0)
    case (NegInf, Finite(y)) => Infinity(y < 0.0)
    case (_, _) => NaN
  }
}
