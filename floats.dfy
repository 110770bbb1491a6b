/** The part of IEEE-754 double arithmetic that IF, VI and power TSS rely on.
    Finite values are exact reals (rounding is not modelled), and the
    non-finite results of a division by zero are kept: an infinity of either
    sign, or NaN.  Every zero is taken to be +0.0, which is what an i64 zero
    converts to. */
module Floats {
  import opened Prelude

  datatype F64 = Finite(r: real) | Infinite(negative: bool) | NaN

  /** `x as f64` for an i64 x (exact below 2^53 in magnitude). */
  function FromInt(x: int): F64
  {
    Finite(x as real)
  }

  /** IEEE multiplication: NaN is absorbing, infinity times zero is NaN,
      otherwise the sign of an infinite product is the product of the signs. */
  function Mul(a: F64, b: F64): (c: F64)
    ensures a.Finite? && b.Finite? ==> c == Finite(a.r * b.r)
    ensures a.NaN? || b.NaN? ==> c.NaN?
  {
    if a.NaN? || b.NaN? then NaN
    else if a.Finite? && b.Finite? then Finite(a.r * b.r)
    else if a.Infinite? && b.Infinite? then Infinite(a.negative != b.negative)
    else if a.Infinite? then
      (if b.r == 0.0 then NaN else Infinite(a.negative != (b.r < 0.0)))
    else
      (if a.r == 0.0 then NaN else Infinite(b.negative != (a.r < 0.0)))
  }

  /** IEEE division by a +0.0 or non-zero divisor: a non-zero finite value over
      zero is an infinity of its sign, 0/0 and inf/inf are NaN. */
  function Div(a: F64, b: F64): (c: F64)
    ensures a.Finite? && b.Finite? && b.r != 0.0 ==> c == Finite(a.r / b.r)
    ensures a.Finite? && b == Finite(0.0) ==>
      c == (if a.r > 0.0 then Infinite(false) else if a.r < 0.0 then Infinite(true) else NaN)
  {
    if a.NaN? || b.NaN? then NaN
    else if a.Finite? && b.Finite? then
      (if b.r != 0.0 then Finite(a.r / b.r)
       else if a.r > 0.0 then Infinite(false)
       else if a.r < 0.0 then Infinite(true)
       else NaN)
    else if a.Infinite? && b.Infinite? then NaN
    else if a.Infinite? then Infinite(a.negative != (b.r < 0.0))
    else Finite(0.0)
  }

  /** The integer part of a real, rounded toward zero. */
  function Trunc(x: real): (t: int)
    ensures x >= 0.0 ==> t as real <= x < t as real + 1.0
    ensures x < 0.0 ==> t as real - 1.0 < x <= t as real
  {
    if x >= 0.0 then x.Floor else -((-x).Floor)
  }

  /** Rust's `f as i64`: truncation toward zero, saturating at the i64 bounds,
      with NaN mapped to zero. */
  function ToI64(f: F64): (x: I64)
    ensures f.NaN? ==> x == 0
    ensures f.Infinite? ==> x == (if f.negative then I64Min else I64Max)
    ensures f.Finite? && I64Min <= Trunc(f.r) <= I64Max ==> x == Trunc(f.r)
  {
    match f
    case NaN => 0
    case Infinite(negative) => if negative then I64Min else I64Max
    case Finite(r) =>
      var t := Trunc(r);
      if t < I64Min then I64Min else if t > I64Max then I64Max else t
  }
}
