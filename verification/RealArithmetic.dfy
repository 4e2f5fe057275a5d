/** Products of real numbers, one inequality at a time. */
module RealArithmetic {
  lemma Scaled(a: real, x: real, y: real)
    requires a >= 0.0 && x <= y
    ensures a * x <= a * y
  {
  }

  lemma StrictlyScaled(a: real, x: real, y: real)
    requires a > 0.0 && x < y
    ensures x * a < y * a
  {
  }

  /** Division undone. */
  lemma Undone(x: real, y: real, q: real)
    requires y != 0.0 && q == x / y
    ensures q * y == x
  {
  }
}
