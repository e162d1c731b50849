/**
 * Shared vocabulary of the embedding explorer model: the error results that
 * stand for the exceptions the JavaScript code throws, `Math.pow(x, 2)`, and
 * the square root (`Math.sqrt`) over the reals.
 *
 * JavaScript numbers are modelled as mathematical reals. The square root is
 * not definable by a body over Dafny's reals, so every member that takes a
 * root receives it as a parameter `sqrt` together with the precondition
 * `IsSqrt(sqrt)`: on a non-negative argument it returns the non-negative
 * number whose square is that argument.
 */
module Common {

  /** What a thrown exception, or an aborted handler, is modelled as. */
  datatype Error =
    | DimensionMismatch   // "Points/Vectors must have the same dimensions"
    | EmptyInput          // reading `data[0].length` of an empty matrix
    | IndexOutOfRange     // reading past the end of an array (a TypeError in JavaScript)

  datatype Result<T> = Ok(value: T) | Err(error: Error)

  datatype Option<T> = None | Some(value: T)

  /** `Math.pow(x, 2)`. */
  function Pow2(x: real): (r: real)
    ensures 0.0 <= r
  {
    x * x
  }

  /** `sqrt` behaves as `Math.sqrt` does on the non-negative reals. */
  ghost predicate IsSqrt(sqrt: real -> real) {
    forall x :: 0.0 <= x ==> 0.0 <= sqrt(x) && Pow2(sqrt(x)) == x
  }

  /** The product of two positive numbers is positive. */
  lemma ProductPositive(a: real, b: real, p: real)
    requires p == a * b
    ensures 0.0 < a && 0.0 < b ==> 0.0 < p
  {
  }

  /** A factor of a positive product with a positive co-factor is positive. */
  lemma PositiveFactor(a: real, b: real, p: real)
    requires 0.0 < b && 0.0 < p && p == a * b
    ensures 0.0 < a
  {
  }

  /** Multiplication distributes over addition. */
  lemma Distribute(a: real, b: real, c: real)
    ensures (a + b) * c == a * c + b * c
  {
  }

  /** A non-zero number has a positive square. */
  lemma Pow2Positive(d: real)
    ensures d != 0.0 ==> 0.0 < Pow2(d)
  {
    ProductPositive(d, d, Pow2(d));
    ProductPositive(-d, -d, Pow2(d));
  }

  lemma SqrtOfZero(sqrt: real -> real)
    requires IsSqrt(sqrt)
    ensures sqrt(0.0) == 0.0
  {
    Pow2Positive(sqrt(0.0));
  }

  /** A positive number has a positive root, so its root is a safe divisor. */
  lemma SqrtOfPositive(sqrt: real -> real, x: real)
    requires IsSqrt(sqrt)
    requires 0.0 < x
    ensures 0.0 < sqrt(x)
  {
    assert Pow2(sqrt(x)) == x;
  }

  /** The root of `x * x` for non-negative `x` is `x` itself. */
  lemma SqrtOfSquare(sqrt: real -> real, x: real)
    requires IsSqrt(sqrt)
    requires 0.0 <= x
    ensures sqrt(Pow2(x)) == x
  {
    var y := sqrt(Pow2(x));
    assert 0.0 <= y && Pow2(y) == Pow2(x);
    assert (x - y) * (x + y) == 0.0 && (y - x) * (x + y) == 0.0;
    ProductPositive(x - y, x + y, 0.0);
    ProductPositive(y - x, x + y, 0.0);
    assert x - y <= 0.0 || x + y <= 0.0;
    assert y - x <= 0.0 || x + y <= 0.0;
  }

  /** Multiplying a quotient back by its divisor gives the dividend. */
  lemma MulDiv(n: real, s: real)
    requires n != 0.0
    ensures n * (s / n) == s
  {
  }

  /** A non-zero factor cancels from both sides of an equation. */
  lemma Cancel(a: real, c: real, b: real)
    requires b != 0.0 && a * b == c * b
    ensures a == c
  {
  }
}
