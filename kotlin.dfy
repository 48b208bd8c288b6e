/** The pieces of the Kotlin runtime the kinetic-scroll core leans on: numeric
    conversions, `coerceIn`, `kotlin.math` helpers and nullable values.
    `Double` is modelled as `real` and `Long`/`Int` as `int`. */
module Kotlin {

  /** A nullable value `T?`. */
  datatype Option<T> = None | Some(value: T)

  /** `Long.MIN_VALUE`: what `Double.toLong()` yields for negative infinity. */
  const LONG_MIN: int := -0x8000_0000_0000_0000

  /** The source's own literal for ln 2. */
  const LN2: real := 0.6931471805599453

  /** `Double.toInt()` and `Double.toLong()` on a finite value: truncation toward zero. */
  function Trunc(x: real): (r: int)
    ensures 0.0 <= x ==> 0 <= r && r as real <= x < r as real + 1.0
    ensures x < 0.0 ==> r <= 0 && r as real - 1.0 < x <= r as real
  {
    if x >= 0.0 then x.Floor else -((-x).Floor)
  }

  /** Truncation never reverses the order of two values. */
  lemma TruncMonotone(x: real, y: real)
    requires x <= y
    ensures Trunc(x) <= Trunc(y)
  {
  }

  /** Multiplying by a positive factor keeps the order of two reals. */
  lemma MulMonotone(a: real, b: real, p: real)
    requires a <= b && 0.0 < p
    ensures a * p <= b * p
  {
    assert b * p - a * p == (b - a) * p;
  }

  /** Multiplying by a positive factor keeps a strict order. */
  lemma MulMonotoneStrict(a: real, b: real, p: real)
    requires a < b && 0.0 < p
    ensures a * p < b * p
  {
    assert b * p - a * p == (b - a) * p;
  }

  /** A non-negative factor keeps the sign of the other. */
  lemma ProductSign(a: real, b: real)
    requires 0.0 <= a
    ensures 0.0 <= b ==> 0.0 <= a * b
    ensures b <= 0.0 ==> a * b <= 0.0
  {
    if 0.0 < a && 0.0 <= b {
      MulMonotone(0.0, b, a);
    } else if 0.0 < a {
      MulMonotone(b, 0.0, a);
    }
  }

  /** `x.coerceIn(lo, hi)`; Kotlin throws when `lo > hi`, so callers must rule that out. */
  function CoerceIn(x: int, lo: int, hi: int): (r: int)
    requires lo <= hi
    ensures lo <= r <= hi
    ensures lo <= x <= hi ==> r == x
    ensures x < lo ==> r == lo
    ensures hi < x ==> r == hi
  {
    if x < lo then lo else if x > hi then hi else x
  }

  /** `kotlin.math.max` on `Long`. */
  function Max(a: int, b: int): (r: int)
    ensures a <= r && b <= r && (r == a || r == b)
  {
    if a >= b then a else b
  }

  /** `kotlin.math.abs` on `Double`. */
  function Abs(x: real): (r: real)
    ensures 0.0 <= r && (r == x || r == -x)
  {
    if x < 0.0 then -x else x
  }

  /** `kotlin.math.sign` on a non-NaN `Double`. */
  function Sign(x: real): real
  {
    if x > 0.0 then 1.0 else if x < 0.0 then -1.0 else 0.0
  }

  /** A real function that is positive everywhere, as `2.0.pow(x)` is. */
  type PositiveFunction = f: real -> real | forall x :: f(x) > 0.0 witness (x: real) => 1.0

  /** `kotlin.math.ln` and `2.0.pow(_)`, left uninterpreted: the model knows only
      that a power of two is positive. */
  datatype Transcendentals = Transcendentals(ln: real -> real, pow2: PositiveFunction)
}
