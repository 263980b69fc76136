/** IEEE-754 doubles as the analysis code meets them: a finite value, the two
    infinities and NaN. Rounding is not modelled: a finite value is a real. */
module ExtReals {

  datatype ExtReal = Finite(r: real) | PosInf | NegInf | NaN {
    /** `np.isinf` */
    predicate IsInf() { PosInf? || NegInf? }
    /** `np.isnan` */
    predicate IsNaN() { NaN? }
  }

  /** `a - b` */
  function Sub(a: ExtReal, b: ExtReal): (r: ExtReal)
    ensures a.Finite? && b.Finite? ==> r == Finite(a.r - b.r)
    ensures (a.NaN? || b.NaN?) ==> r.NaN?
  {
    match (a, b)
    case (NaN, _) => NaN
    case (_, NaN) => NaN
    case (PosInf, PosInf) => NaN
    case (NegInf, NegInf) => NaN
    case (PosInf, _) => PosInf
    case (NegInf, _) => NegInf
    case (Finite(_), PosInf) => NegInf
    case (Finite(_), NegInf) => PosInf
    case (Finite(x), Finite(y)) => Finite(x - y)
  }

  /** `a / b` with numpy's semantics: a non-zero value over zero is an
      infinity of its sign, zero over zero is NaN (zero is taken as +0). */
  function Div(a: ExtReal, b: ExtReal): (r: ExtReal)
    ensures a.Finite? && b.Finite? && b.r != 0.0 ==> r == Finite(a.r / b.r)
    ensures a.Finite? && b == Finite(0.0) ==>
      (a.r > 0.0 ==> r.PosInf?) && (a.r < 0.0 ==> r.NegInf?) && (a.r == 0.0 ==> r.NaN?)
    ensures (a.NaN? || b.NaN?) ==> r.NaN?
  {
    match (a, b)
    case (NaN, _) => NaN
    case (_, NaN) => NaN
    case (Finite(x), Finite(y)) =>
      if y != 0.0 then Finite(x / y)
      else if x > 0.0 then PosInf
      else if x < 0.0 then NegInf
      else NaN
    case (Finite(_), _) => Finite(0.0)
    case (PosInf, Finite(y)) => if y < 0.0 then NegInf else PosInf
    case (NegInf, Finite(y)) => if y < 0.0 then PosInf else NegInf
    case (_, _) => NaN
  }

  /** `abs(a)` */
  function Abs(a: ExtReal): (r: ExtReal)
    ensures a.Finite? ==> r == Finite(if a.r < 0.0 then -a.r else a.r)
  {
    match a
    case Finite(x) => Finite(if x < 0.0 then -x else x)
    case NaN => NaN
    case _ => PosInf
  }

  /** `a > b`: false whenever NaN is involved. */
  predicate Gt(a: ExtReal, b: ExtReal)
  {
    match (a, b)
    case (NaN, _) => false
    case (_, NaN) => false
    case (Finite(x), Finite(y)) => x > y
    case (PosInf, PosInf) => false
    case (PosInf, _) => true
    case (NegInf, _) => false
    case (Finite(_), PosInf) => false
    case (Finite(_), NegInf) => true
  }

  /** `f"{a}"`: a finite value goes through the float formatter `fmt`,
      the special values print as Python prints them. */
  function Format(a: ExtReal, fmt: real -> string): string
  {
    match a
    case Finite(x) => fmt(x)
    case PosInf => "inf"
    case NegInf => "-inf"
    case NaN => "nan"
  }
}
