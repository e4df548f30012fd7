/** The part of JavaScript number semantics the calculators run into: a
    division by zero gives an infinity or NaN instead of failing.  Values are
    exact reals; rounding is not modelled. */
module Numbers {

  datatype Number = Finite(value: real) | PosInfinity | NegInfinity | NaN

  /** `a / b`. */
  function Divide(a: real, b: real): (q: Number)
    ensures b != 0.0 ==> q.Finite? && q.value * b == a
    ensures b == 0.0 && a > 0.0 ==> q == PosInfinity
    ensures b == 0.0 && a < 0.0 ==> q == NegInfinity
    ensures b == 0.0 && a == 0.0 ==> q == NaN
  {
    if b != 0.0 then Finite(a / b)
    else if a > 0.0 then PosInfinity
    else if a < 0.0 then NegInfinity
    else NaN
  }

  /** `x * k` for a positive constant `k`. */
  function Scale(x: Number, k: real): (y: Number)
    requires k > 0.0
    ensures y.Finite? == x.Finite? && (y.Finite? ==> y.value == x.value * k)
    ensures !x.Finite? ==> y == x
  {
    match x
    case Finite(v) => Finite(v * k)
    case _ => x
  }

  /** `Math.min(k, x)`: NaN when `x` is NaN, otherwise the smaller of the two. */
  function Min(k: real, x: Number): (y: Number)
    ensures x == NaN <==> y == NaN
    ensures x.Finite? ==> y == Finite(if x.value < k then x.value else k)
    ensures x == PosInfinity ==> y == Finite(k)
    ensures x == NegInfinity ==> y == NegInfinity
  {
    match x
    case Finite(v) => Finite(if v < k then v else k)
    case PosInfinity => Finite(k)
    case NegInfinity => NegInfinity
    case NaN => NaN
  }
}
