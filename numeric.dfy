/**
 * Fixed-width integers and the part of IEEE-754 `f32` behaviour the decoders rely on.
 *
 * An `f32` is modelled as an exact real, an infinity or NaN: rounding is not modelled,
 * and a zero is always the positive zero (the pipeline never observes the sign of a zero,
 * because every value that could be a negative zero is clamped to 0 before it is used).
 */
module Numeric {

  type u8 = x: int | 0 <= x < 256
  type u16 = x: int | 0 <= x < 65536

  datatype F32 = Fin(v: real) | PosInf | NegInf | NaN

  function FromInt(n: int): F32 {
    Fin(n as real)
  }

  /** IEEE multiplication: NaN is absorbing, infinity times zero is NaN, signs multiply. */
  function Mul(a: F32, b: F32): F32 {
    match (a, b)
    case (NaN, _) => NaN
    case (_, NaN) => NaN
    case (Fin(x), Fin(y)) => Fin(x * y)
    case (Fin(x), _) => if x == 0.0 then NaN else if (x > 0.0) == b.PosInf? then PosInf else NegInf
    case (_, Fin(y)) => if y == 0.0 then NaN else if (y > 0.0) == a.PosInf? then PosInf else NegInf
    case _ => if a == b then PosInf else NegInf
  }

  /** IEEE division, with every zero divisor taken as +0. */
  function Div(a: F32, b: F32): F32 {
    match (a, b)
    case (NaN, _) => NaN
    case (_, NaN) => NaN
    case (Fin(x), Fin(y)) =>
      if y != 0.0 then Fin(x / y)
      else if x > 0.0 then PosInf
      else if x < 0.0 then NegInf
      else NaN
    case (Fin(_), _) => Fin(0.0)
    case (_, Fin(y)) => if y >= 0.0 then a else if a.PosInf? then NegInf else PosInf
    case _ => NaN
  }

  /** `f.clamp(0.0, 255.0) as u8`: NaN survives the clamp and the cast turns it into 0. */
  function ClampToU8(f: F32): u8 {
    match f
    case NaN => 0
    case NegInf => 0
    case PosInf => 255
    case Fin(x) => if x < 0.0 then 0 else if x > 255.0 then 255 else x.Floor
  }

  /** `f as u16`: truncation toward zero, saturating at both ends, NaN becomes 0. */
  function CastToU16(f: F32): u16 {
    match f
    case NaN => 0
    case NegInf => 0
    case PosInf => 65535
    case Fin(x) => if x < 0.0 then 0 else if x >= 65535.0 then 65535 else x.Floor
  }
}
