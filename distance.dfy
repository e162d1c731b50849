/**
 * The two distance functions of src/App.jsx: `euclideanDistance`, written
 * as a `map`/`reduce` pipeline, and `cosineDistance`, written as a loop that
 * accumulates the dot product and both squared magnitudes.
 *
 * The cosine value is the raw quotient `dot / (sqrt(|a|) * sqrt(|b|))`, where
 * the magnitudes `|a|`, `|b|` are already square roots: the root is applied
 * twice, so the value is not bounded by 1 and the self-similarity of `a` is
 * its magnitude.
 */
module Distance {
  import opened Common

  /** The two metrics the neighbour ranking can use (`distanceType`). */
  datatype Metric = Euclidean | Cosine

  /** Sum of `(a[i] - b[i])^2`, accumulated left to right as `reduce` does. */
  function SquaredDiffSum(a: seq<real>, b: seq<real>): (r: real)
    requires |a| == |b|
    ensures 0.0 <= r
    decreases |a|
  {
    if |a| == 0 then 0.0
    else
      var n := |a| - 1;
      SquaredDiffSum(a[..n], b[..n]) + Pow2(a[n] - b[n])
  }

  /** Sum of `a[i] * b[i]`, as the loop of `cosineDistance` accumulates it. */
  function Dot(a: seq<real>, b: seq<real>): real
    requires |a| == |b|
    decreases |a|
  {
    if |a| == 0 then 0.0
    else
      var n := |a| - 1;
      Dot(a[..n], b[..n]) + a[n] * b[n]
  }

  /** Sum of `a[i]^2`: the squared magnitude before `Math.sqrt`. */
  function NormSq(a: seq<real>): (r: real)
    ensures 0.0 <= r
    decreases |a|
  {
    if |a| == 0 then 0.0
    else
      var n := |a| - 1;
      NormSq(a[..n]) + Pow2(a[n])
  }

  /**
   * `euclideanDistance(a, b)`: throws on a length mismatch, otherwise the
   * non-negative root of the summed squared differences.
   */
  function EuclideanDistance(a: seq<real>, b: seq<real>, sqrt: real -> real): (r: Result<real>)
    requires IsSqrt(sqrt)
    ensures r.Err? <==> |a| != |b|
    ensures r.Err? ==> r.error == DimensionMismatch
    ensures r.Ok? ==> 0.0 <= r.value && Pow2(r.value) == SquaredDiffSum(a, b)
  {
    if |a| != |b| then Err(DimensionMismatch)
    else Ok(sqrt(SquaredDiffSum(a, b)))
  }

  /** Zero-norm vectors make the JavaScript quotient NaN or infinite; the model excludes them. */
  predicate CosineDefined(a: seq<real>, b: seq<real>) {
    |a| == |b| ==> NormSq(a) != 0.0 && NormSq(b) != 0.0
  }

  /** The value `cosineDistance(a, b)` returns for equal-length, non-zero vectors. */
  function CosineQuotient(a: seq<real>, b: seq<real>, sqrt: real -> real): (r: real)
    requires IsSqrt(sqrt)
    requires |a| == |b| && NormSq(a) != 0.0 && NormSq(b) != 0.0
    ensures 0.0 < sqrt(sqrt(NormSq(a))) * sqrt(sqrt(NormSq(b)))
    ensures r * (sqrt(sqrt(NormSq(a))) * sqrt(sqrt(NormSq(b)))) == Dot(a, b)
    ensures 0.0 < r <==> 0.0 < Dot(a, b)
    ensures r == 0.0 <==> Dot(a, b) == 0.0
  {
    FourthRootPositive(sqrt, NormSq(a));
    FourthRootPositive(sqrt, NormSq(b));
    var d := sqrt(sqrt(NormSq(a))) * sqrt(sqrt(NormSq(b)));
    ProductPositive(sqrt(sqrt(NormSq(a))), sqrt(sqrt(NormSq(b))), d);
    QuotientSign(Dot(a, b), d);
    Dot(a, b) / d
  }

  /** Dividing by a positive number keeps the sign, and multiplying back undoes it. */
  lemma QuotientSign(n: real, d: real)
    requires 0.0 < d
    ensures (n / d) * d == n
    ensures 0.0 < n / d <==> 0.0 < n
    ensures n / d == 0.0 <==> n == 0.0
  {
    MulDiv(d, n);
    if 0.0 < n / d {
      ProductPositive(n / d, d, n);
    }
    if 0.0 < n {
      PositiveFactor(n / d, d, n);
    }
  }

  lemma FourthRootPositive(sqrt: real -> real, x: real)
    requires IsSqrt(sqrt)
    requires 0.0 < x
    ensures 0.0 < sqrt(x) && 0.0 < sqrt(sqrt(x))
  {
    SqrtOfPositive(sqrt, x);
    SqrtOfPositive(sqrt, sqrt(x));
  }

  /**
   * `cosineDistance(a, b)`: throws on a length mismatch; otherwise one loop
   * accumulates the dot product and both squared magnitudes, each magnitude
   * is rooted, and the quotient divides by the product of their roots.
   */
  method CosineDistance(a: seq<real>, b: seq<real>, sqrt: real -> real) returns (r: Result<real>)
    requires IsSqrt(sqrt)
    requires CosineDefined(a, b)
    ensures r.Err? <==> |a| != |b|
    ensures r.Err? ==> r.error == DimensionMismatch
    ensures r.Ok? ==> |a| == |b| && r.value == CosineQuotient(a, b, sqrt)
  {
    if |a| != |b| {
      return Err(DimensionMismatch);
    }
    var dotProduct, magnitudeA, magnitudeB := 0.0, 0.0, 0.0;
    for i := 0 to |a|
      invariant dotProduct == Dot(a[..i], b[..i])
      invariant magnitudeA == NormSq(a[..i])
      invariant magnitudeB == NormSq(b[..i])
    {
      assert a[..i + 1][..i] == a[..i] && b[..i + 1][..i] == b[..i];
      dotProduct := dotProduct + a[i] * b[i];
      magnitudeA := magnitudeA + Pow2(a[i]);
      magnitudeB := magnitudeB + Pow2(b[i]);
    }
    assert a[..|a|] == a && b[..|b|] == b;
    assert dotProduct == Dot(a, b) && magnitudeA == NormSq(a) && magnitudeB == NormSq(b);
    magnitudeA := sqrt(magnitudeA);
    magnitudeB := sqrt(magnitudeB);
    ghost var q := CosineQuotient(a, b, sqrt);
    r := Ok(dotProduct / (sqrt(magnitudeA) * sqrt(magnitudeB)));
  }

  /** The value the ranking compares for one point against the focal point. */
  function MetricValue(a: seq<real>, b: seq<real>, metric: Metric, sqrt: real -> real): (r: real)
    requires IsSqrt(sqrt)
    requires |a| == |b|
    requires metric == Cosine ==> CosineDefined(a, b)
    ensures metric == Euclidean ==> 0.0 <= r && Pow2(r) == SquaredDiffSum(a, b)
    ensures metric == Euclidean ==> (r == 0.0 <==> a == b)
    ensures metric == Cosine ==> (0.0 < r <==> 0.0 < Dot(a, b))
  {
    EuclideanZeroIffEqual(a, b, sqrt);
    match metric
    case Euclidean => EuclideanDistance(a, b, sqrt).value
    case Cosine => CosineQuotient(a, b, sqrt)
  }

  // ---------------------------------------------------------------------
  // Properties

  lemma {:induction false} SquaredDiffSumSymmetric(a: seq<real>, b: seq<real>)
    requires |a| == |b|
    ensures SquaredDiffSum(a, b) == SquaredDiffSum(b, a)
    decreases |a|
  {
    if |a| != 0 {
      var n := |a| - 1;
      SquaredDiffSumSymmetric(a[..n], b[..n]);
      assert Pow2(a[n] - b[n]) == Pow2(b[n] - a[n]);
    }
  }

  /** `euclideanDistance` is symmetric, including in when it throws. */
  lemma EuclideanSymmetric(a: seq<real>, b: seq<real>, sqrt: real -> real)
    requires IsSqrt(sqrt)
    ensures EuclideanDistance(a, b, sqrt) == EuclideanDistance(b, a, sqrt)
  {
    if |a| == |b| {
      SquaredDiffSumSymmetric(a, b);
    }
  }

  /** The summed squared difference vanishes exactly on equal vectors. */
  lemma {:induction false} SquaredDiffSumZeroIff(a: seq<real>, b: seq<real>)
    requires |a| == |b|
    ensures SquaredDiffSum(a, b) == 0.0 <==> a == b
    decreases |a|
  {
    if |a| != 0 {
      var n := |a| - 1;
      SquaredDiffSumZeroIff(a[..n], b[..n]);
      if a[n] != b[n] {
        Pow2Positive(a[n] - b[n]);
      }
      assert a == a[..n] + [a[n]] && b == b[..n] + [b[n]];
    }
  }

  /** `euclideanDistance(a, b)` is 0 exactly when `a == b`; in particular `(a, a)` gives 0. */
  lemma EuclideanZeroIffEqual(a: seq<real>, b: seq<real>, sqrt: real -> real)
    requires IsSqrt(sqrt)
    requires |a| == |b|
    ensures EuclideanDistance(a, b, sqrt).Ok?
    ensures EuclideanDistance(a, b, sqrt).value == 0.0 <==> a == b
  {
    SquaredDiffSumZeroIff(a, b);
    SqrtOfZero(sqrt);
    var r := EuclideanDistance(a, b, sqrt).value;
    assert Pow2(r) == SquaredDiffSum(a, b);
    if r != 0.0 {
      Pow2Positive(r);
    }
  }

  lemma {:induction false} DotSymmetric(a: seq<real>, b: seq<real>)
    requires |a| == |b|
    ensures Dot(a, b) == Dot(b, a)
    decreases |a|
  {
    if |a| != 0 {
      DotSymmetric(a[..|a| - 1], b[..|b| - 1]);
    }
  }

  lemma {:induction false} DotSelf(a: seq<real>)
    ensures Dot(a, a) == NormSq(a)
    decreases |a|
  {
    if |a| != 0 {
      DotSelf(a[..|a| - 1]);
    }
  }

  /** `cosineDistance` is symmetric (and throws symmetrically). */
  lemma CosineSymmetric(a: seq<real>, b: seq<real>, sqrt: real -> real)
    requires IsSqrt(sqrt)
    requires |a| == |b| && NormSq(a) != 0.0 && NormSq(b) != 0.0
    ensures CosineQuotient(a, b, sqrt) == CosineQuotient(b, a, sqrt)
  {
    DotSymmetric(a, b);
  }

  /**
   * Because the magnitudes are rooted twice, the cosine value of a vector
   * with itself is its magnitude `sqrt(NormSq(a))`, not 1.
   */
  lemma CosineSelfIsMagnitude(a: seq<real>, sqrt: real -> real)
    requires IsSqrt(sqrt)
    requires NormSq(a) != 0.0
    ensures CosineQuotient(a, a, sqrt) == sqrt(NormSq(a))
  {
    DotSelf(a);
    var m := NormSq(a);
    FourthRootPositive(sqrt, m);
    var s := sqrt(m);
    var t := sqrt(s);
    assert t * t == Pow2(t) == s;
    assert s * s == Pow2(s) == m;
    calc {
      CosineQuotient(a, a, sqrt);
      m / (t * t);
      m / s;
      (s * s) / s;
      s;
    }
  }

  /** The quotient is not confined to [-1, 1]: for `[4]` against itself it is 4. */
  lemma CosineExceedsOne(sqrt: real -> real)
    requires IsSqrt(sqrt)
    ensures NormSq([4.0]) == 16.0
    ensures CosineQuotient([4.0], [4.0], sqrt) == 4.0
  {
    assert NormSq([4.0]) == 16.0 by {
      assert [4.0][..0] == [];
    }
    CosineSelfIsMagnitude([4.0], sqrt);
    assert Pow2(4.0) == 16.0;
    SqrtOfSquare(sqrt, 4.0);
  }
}
