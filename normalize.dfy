/**
 * `normalizeEmbeddings` of src/App.jsx: z-score normalisation of a matrix of
 * embedding rows, column by column, with the population standard deviation
 * and the divisor `std || 1`, so that a constant column does not divide by
 * zero.
 */
module Normalize {
  import opened Common

  /** Every row is as long as the first one. */
  predicate Rectangular(data: seq<seq<real>>) {
    forall i :: 0 <= i < |data| ==> |data[i]| == |data[0]|
  }

  /** Sum of a sequence, accumulated front to back. */
  function Sum(s: seq<real>): real
    decreases |s|
  {
    if |s| == 0 then 0.0 else Sum(s[..|s| - 1]) + s[|s| - 1]
  }

  /** Sum of the squared deviations of the entries of `s` from `m`. */
  function SquaredDeviation(s: seq<real>, m: real): (r: real)
    ensures 0.0 <= r
    decreases |s|
  {
    if |s| == 0 then 0.0 else SquaredDeviation(s[..|s| - 1], m) + Pow2(s[|s| - 1] - m)
  }

  /** Column `j` of the matrix: feature `j` of every row. */
  function Column(data: seq<seq<real>>, j: nat): (col: seq<real>)
    requires forall i :: 0 <= i < |data| ==> j < |data[i]|
    ensures |col| == |data|
  {
    seq(|data|, i requires 0 <= i < |data| => data[i][j])
  }

  function Mean(col: seq<real>): real
    requires |col| > 0
  {
    Sum(col) / |col| as real
  }

  /** Population standard deviation: the root of the squared deviation over `|col|`. */
  function Std(col: seq<real>, sqrt: real -> real): real
    requires IsSqrt(sqrt)
    requires |col| > 0
  {
    sqrt(SquaredDeviation(col, Mean(col)) / |col| as real)
  }

  /** `std || 1`: a zero deviation is replaced by 1. */
  function Divisor(std: real): (d: real)
    ensures d != 0.0
    ensures std != 0.0 ==> d == std
  {
    if std == 0.0 then 1.0 else std
  }

  /** The z-scores of one column. */
  function Standardized(col: seq<real>, m: real, d: real): (r: seq<real>)
    requires d != 0.0
    ensures |r| == |col|
  {
    seq(|col|, i requires 0 <= i < |col| => (col[i] - m) / d)
  }

  /** The mean of every column. */
  function Means(data: seq<seq<real>>): (m: seq<real>)
    requires |data| > 0 && Rectangular(data)
    ensures |m| == |data[0]|
  {
    seq(|data[0]|, j requires 0 <= j < |data[0]| => Mean(Column(data, j)))
  }

  /** The population standard deviation of every column. */
  function Stds(data: seq<seq<real>>, sqrt: real -> real): (s: seq<real>)
    requires IsSqrt(sqrt)
    requires |data| > 0 && Rectangular(data)
    ensures |s| == |data[0]|
  {
    seq(|data[0]|, j requires 0 <= j < |data[0]| => Std(Column(data, j), sqrt))
  }

  /** What `normalizeEmbeddings(data)` returns for a non-empty rectangular matrix. */
  function Normalized(data: seq<seq<real>>, sqrt: real -> real): (r: seq<seq<real>>)
    requires IsSqrt(sqrt)
    requires |data| > 0 && Rectangular(data)
    ensures |r| == |data| && Rectangular(r)
    ensures forall i :: 0 <= i < |r| ==> |r[i]| == |data[i]|
  {
    var m, s := Means(data), Stds(data, sqrt);
    seq(|data|, i requires 0 <= i < |data| =>
      seq(|data[0]|, j requires 0 <= j < |data[0]| => (data[i][j] - m[j]) / Divisor(s[j])))
  }

  /**
   * Normalisation loses nothing: scaling an output back by its column's
   * divisor and adding the column's mean recovers the input.
   */
  lemma NormalizedInverts(data: seq<seq<real>>, sqrt: real -> real, i: nat, j: nat)
    requires IsSqrt(sqrt)
    requires |data| > 0 && Rectangular(data)
    requires i < |data| && j < |data[i]|
    ensures Normalized(data, sqrt)[i][j] * Divisor(Stds(data, sqrt)[j]) + Means(data)[j] == data[i][j]
  {
    ZScoreInverts(data[i][j], Means(data)[j], Divisor(Stds(data, sqrt)[j]));
  }

  /** Scaling a z-score back by its divisor and adding the mean recovers the value. */
  lemma ZScoreInverts(x: real, m: real, d: real)
    requires d != 0.0
    ensures ((x - m) / d) * d + m == x
  {
    MulDiv(d, x - m);
  }

  lemma ColumnOfPrefix(data: seq<seq<real>>, i: nat, j: nat)
    requires i < |data|
    requires forall r :: 0 <= r < |data| ==> j < |data[r]|
    ensures Column(data[..i + 1], j) == Column(data[..i], j) + [data[i][j]]
    ensures Sum(Column(data[..i + 1], j)) == Sum(Column(data[..i], j)) + data[i][j]
  {
    assert Column(data[..i + 1], j)[..i] == Column(data[..i], j);
  }

  lemma SquaredDeviationOfPrefix(data: seq<seq<real>>, i: nat, j: nat, m: real)
    requires i < |data|
    requires forall r :: 0 <= r < |data| ==> j < |data[r]|
    ensures SquaredDeviation(Column(data[..i + 1], j), m)
         == SquaredDeviation(Column(data[..i], j), m) + Pow2(data[i][j] - m)
  {
    ColumnOfPrefix(data, i, j);
    assert Column(data[..i + 1], j)[..i] == Column(data[..i], j);
  }

  /** The first `forEach` pass: every column's sum, accumulated row by row into a fresh array. */
  method ColumnSums(data: seq<seq<real>>) returns (sums: array<real>)
    requires |data| > 0 && Rectangular(data)
    ensures fresh(sums) && sums.Length == |data[0]|
    ensures forall c :: 0 <= c < sums.Length ==> sums[c] == Sum(Column(data, c))
  {
    var numFeatures := |data[0]|;
    sums := new real[numFeatures](_ => 0.0);
    for i := 0 to |data|
      invariant forall c :: 0 <= c < numFeatures ==> sums[c] == Sum(Column(data[..i], c))
    {
      for c := 0 to numFeatures
        invariant forall c' :: 0 <= c' < c ==> sums[c'] == Sum(Column(data[..i + 1], c'))
        invariant forall c' :: c <= c' < numFeatures ==> sums[c'] == Sum(Column(data[..i], c'))
      {
        ColumnOfPrefix(data, i, c);
        sums[c] := sums[c] + data[i][c];
      }
    }
    assert data[..|data|] == data;
  }

  /** The second `forEach` pass: every column's squared deviation from its mean `means[c]`. */
  method ColumnSquaredDeviations(data: seq<seq<real>>, means: seq<real>) returns (devs: array<real>)
    requires |data| > 0 && Rectangular(data)
    requires |means| == |data[0]|
    ensures fresh(devs) && devs.Length == |data[0]|
    ensures forall c :: 0 <= c < devs.Length ==> devs[c] == SquaredDeviation(Column(data, c), means[c])
  {
    var numFeatures := |data[0]|;
    devs := new real[numFeatures](_ => 0.0);
    for i := 0 to |data|
      invariant forall c :: 0 <= c < numFeatures ==> devs[c] == SquaredDeviation(Column(data[..i], c), means[c])
    {
      for c := 0 to numFeatures
        invariant forall c' :: 0 <= c' < c ==> devs[c'] == SquaredDeviation(Column(data[..i + 1], c'), means[c'])
        invariant forall c' :: c <= c' < numFeatures ==> devs[c'] == SquaredDeviation(Column(data[..i], c'), means[c'])
      {
        SquaredDeviationOfPrefix(data, i, c, means[c]);
        devs[c] := devs[c] + Pow2(data[i][c] - means[c]);
      }
    }
    assert data[..|data|] == data;
  }

  /** `means.forEach((mean, idx) => means[idx] /= data.length)`: every column sum becomes the column mean. */
  method DivideByCount(data: seq<seq<real>>, means: array<real>)
    requires |data| > 0 && Rectangular(data)
    requires means.Length == |data[0]|
    requires forall c :: 0 <= c < means.Length ==> means[c] == Sum(Column(data, c))
    modifies means
    ensures forall c :: 0 <= c < means.Length ==> means[c] == Mean(Column(data, c))
  {
    for c := 0 to means.Length
      invariant forall c' :: 0 <= c' < c ==> means[c'] == Mean(Column(data, c'))
      invariant forall c' :: c <= c' < means.Length ==> means[c'] == Sum(Column(data, c'))
    {
      means[c] := means[c] / |data| as real;
    }
  }

  /** `stds.forEach((std, idx) => stds[idx] = Math.sqrt(std / data.length))`: every squared deviation becomes the population deviation. */
  method RootOfVariance(data: seq<seq<real>>, means: seq<real>, stds: array<real>, sqrt: real -> real)
    requires IsSqrt(sqrt)
    requires |data| > 0 && Rectangular(data)
    requires |means| == stds.Length == |data[0]|
    requires forall c :: 0 <= c < stds.Length ==> means[c] == Mean(Column(data, c))
    requires forall c :: 0 <= c < stds.Length ==> stds[c] == SquaredDeviation(Column(data, c), means[c])
    modifies stds
    ensures forall c :: 0 <= c < stds.Length ==> stds[c] == Std(Column(data, c), sqrt)
  {
    for c := 0 to stds.Length
      invariant forall c' :: 0 <= c' < c ==> stds[c'] == Std(Column(data, c'), sqrt)
      invariant forall c' :: c <= c' < stds.Length ==> stds[c'] == SquaredDeviation(Column(data, c'), means[c'])
    {
      stds[c] := sqrt(stds[c] / |data| as real);
    }
  }

  /**
   * `normalizeEmbeddings(data)`. It reads `data[0].length` first, so an empty
   * matrix fails. It then accumulates the column sums into `means`, divides
   * them in place by the row count, accumulates the squared deviations into
   * `stds`, replaces each by the root of its quotient by the row count, and
   * maps every entry to its z-score with divisor `stds[j] || 1`.
   */
  method NormalizeEmbeddings(data: seq<seq<real>>, sqrt: real -> real) returns (r: Result<seq<seq<real>>>)
    requires IsSqrt(sqrt)
    requires Rectangular(data)
    ensures r.Err? <==> |data| == 0
    ensures r.Err? ==> r.error == EmptyInput
    ensures r.Ok? ==> |data| > 0 && r.value == Normalized(data, sqrt)
    ensures r.Ok? ==> |r.value| == |data| && forall i :: 0 <= i < |r.value| ==> |r.value[i]| == |data[0]|
  {
    if |data| == 0 {
      return Err(EmptyInput);
    }
    var numFeatures := |data[0]|;

    var means := ColumnSums(data);
    DivideByCount(data, means);
    var m := means[..];
    assert m == Means(data);

    var stds := ColumnSquaredDeviations(data, m);
    RootOfVariance(data, m, stds, sqrt);
    var s := stds[..];
    assert s == Stds(data, sqrt);

    r := Ok(seq(|data|, i requires 0 <= i < |data| =>
      seq(numFeatures, j requires 0 <= j < numFeatures => (data[i][j] - m[j]) / Divisor(s[j]))));
  }

  // ---------------------------------------------------------------------
  // Properties

  lemma {:induction false} SumOfConstant(s: seq<real>, c: real)
    requires forall i :: 0 <= i < |s| ==> s[i] == c
    ensures Sum(s) == |s| as real * c
    decreases |s|
  {
    if |s| != 0 {
      SumOfConstant(s[..|s| - 1], c);
    }
  }

  /** A constant column has its value as mean, so every z-score in it is 0. */
  lemma ConstantColumnNormalizesToZero(data: seq<seq<real>>, j: nat, sqrt: real -> real)
    requires IsSqrt(sqrt)
    requires |data| > 0 && Rectangular(data)
    requires j < |data[0]|
    requires forall i :: 0 <= i < |data| ==> data[i][j] == data[0][j]
    ensures forall i :: 0 <= i < |data| ==> Normalized(data, sqrt)[i][j] == 0.0
  {
    var col := Column(data, j);
    SumOfConstant(col, data[0][j]);
    assert Mean(col) == data[0][j];
  }

  lemma {:induction false} SumOfStandardized(col: seq<real>, m: real, d: real)
    requires d != 0.0
    ensures Sum(Standardized(col, m, d)) == (Sum(col) - |col| as real * m) / d
    decreases |col|
  {
    if |col| != 0 {
      var k := |col| - 1;
      SumOfStandardized(col[..k], m, d);
      assert Standardized(col, m, d)[..k] == Standardized(col[..k], m, d);
    }
  }

  lemma ColumnOfNormalized(data: seq<seq<real>>, j: nat, sqrt: real -> real)
    requires IsSqrt(sqrt)
    requires |data| > 0 && Rectangular(data)
    requires j < |data[0]|
    ensures Column(Normalized(data, sqrt), j)
         == Standardized(Column(data, j), Mean(Column(data, j)), Divisor(Std(Column(data, j), sqrt)))
  {
  }

  /** The mean multiplied back by the count is the column's sum. */
  lemma MeanTimesCount(col: seq<real>)
    requires |col| > 0
    ensures |col| as real * Mean(col) == Sum(col)
  {
    MulDiv(|col| as real, Sum(col));
  }

  /** Over the reals every output column sums to zero (its mean is 0). */
  lemma NormalizedColumnSumsToZero(data: seq<seq<real>>, j: nat, sqrt: real -> real)
    requires IsSqrt(sqrt)
    requires |data| > 0 && Rectangular(data)
    requires j < |data[0]|
    ensures Sum(Column(Normalized(data, sqrt), j)) == 0.0
  {
    var col := Column(data, j);
    ColumnOfNormalized(data, j, sqrt);
    StandardizedSumsToZero(col, Divisor(Std(col, sqrt)));
  }

  /** The z-scores of a column around its own mean sum to zero, whatever the divisor. */
  lemma StandardizedSumsToZero(col: seq<real>, d: real)
    requires |col| > 0 && d != 0.0
    ensures Sum(Standardized(col, Mean(col), d)) == 0.0
  {
    SumOfStandardized(col, Mean(col), d);
    MeanTimesCount(col);
  }

  /** One z-score, squared and scaled back by the squared divisor, is the squared deviation. */
  lemma SquaredZScore(x: real, m: real, d: real)
    requires d != 0.0
    ensures Pow2((x - m) / d - 0.0) * Pow2(d) == Pow2(x - m)
  {
    var q := (x - m) / d;
    MulDiv(d, x - m);
    assert q * d == x - m;
    calc {
      Pow2(q - 0.0) * Pow2(d);
      (q * q) * (d * d);
      (q * d) * (q * d);
      Pow2(x - m);
    }
  }

  /** The squared deviations of the entries of `s` from `m`, one per entry. */
  function Squares(s: seq<real>, m: real): (r: seq<real>)
    ensures |r| == |s|
  {
    seq(|s|, i requires 0 <= i < |s| => Pow2(s[i] - m))
  }

  lemma {:induction false} SquaredDeviationIsSumOfSquares(s: seq<real>, m: real)
    ensures SquaredDeviation(s, m) == Sum(Squares(s, m))
    decreases |s|
  {
    if |s| != 0 {
      var k := |s| - 1;
      assert Squares(s, m)[..k] == Squares(s[..k], m);
      SquaredDeviationIsSumOfSquares(s[..k], m);
    }
  }

  /** Entry `i` of `v` is entry `i` of `u` scaled by `p`. */
  predicate ScaledAt(u: seq<real>, v: seq<real>, p: real, i: nat)
    requires i < |u| && i < |v|
  {
    u[i] * p == v[i]
  }

  /** `v` is `u` with every entry scaled by `p`. */
  predicate ScaledBy(u: seq<real>, v: seq<real>, p: real) {
    |u| == |v| && forall i: nat :: i < |u| ==> ScaledAt(u, v, p, i)
  }

  /** Scaling every entry by `p` scales the sum by `p`. */
  lemma {:induction false} SumScaled(u: seq<real>, v: seq<real>, p: real)
    requires ScaledBy(u, v, p)
    ensures Sum(u) * p == Sum(v)
    decreases |u|
  {
    if |u| != 0 {
      var k := |u| - 1;
      assert ScaledAt(u, v, p, k);
      assert ScaledBy(u[..k], v[..k], p) by {
        forall i: nat | i < k
          ensures ScaledAt(u[..k], v[..k], p, i)
        {
          assert ScaledAt(u, v, p, i);
        }
      }
      SumScaled(u[..k], v[..k], p);
      Distribute(Sum(u[..k]), u[k], p);
    }
  }

  /** Entry by entry, the squared z-scores times the squared divisor are the squared deviations. */
  lemma SquaresOfStandardized(col: seq<real>, m: real, d: real)
    requires d != 0.0
    ensures ScaledBy(Squares(Standardized(col, m, d), 0.0), Squares(col, m), Pow2(d))
  {
    forall i: nat | i < |col|
      ensures ScaledAt(Squares(Standardized(col, m, d), 0.0), Squares(col, m), Pow2(d), i)
    {
      SquaredZScore(col[i], m, d);
    }
  }

  /**
   * When every squared deviation of `z` from `mz` scales by `p` to that of `s`
   * from `ms`, the total `a` of the first scales by `p` to the total `b` of the second.
   */
  lemma ScaledSquaredDeviation(z: seq<real>, mz: real, s: seq<real>, ms: real, p: real, a: real, b: real)
    requires ScaledBy(Squares(z, mz), Squares(s, ms), p)
    requires a == SquaredDeviation(z, mz) && b == SquaredDeviation(s, ms)
    ensures a * p == b
  {
    calc {
      a * p;
      { SquaredDeviationIsSumOfSquares(z, mz); }
      Sum(Squares(z, mz)) * p;
      { SumScaled(Squares(z, mz), Squares(s, ms), p); }
      Sum(Squares(s, ms));
      { SquaredDeviationIsSumOfSquares(s, ms); }
      b;
    }
  }

  /** Standardizing divides the squared deviation by the squared divisor. */
  lemma SquaredDeviationOfStandardized(col: seq<real>, m: real, d: real)
    requires d != 0.0
    ensures SquaredDeviation(Standardized(col, m, d), 0.0) * Pow2(d) == SquaredDeviation(col, m)
  {
    var z := Standardized(col, m, d);
    SquaresOfStandardized(col, m, d);
    ScaledSquaredDeviation(z, 0.0, col, m, Pow2(d), SquaredDeviation(z, 0.0), SquaredDeviation(col, m));
  }

  /** Standardizing a column by its own mean and non-zero deviation leaves squared deviation `|col|`. */
  lemma StandardizedHasUnitVariance(col: seq<real>, sqrt: real -> real)
    requires IsSqrt(sqrt)
    requires |col| > 0
    requires Std(col, sqrt) != 0.0
    ensures SquaredDeviation(Standardized(col, Mean(col), Std(col, sqrt)), 0.0) == |col| as real
  {
    var n := |col| as real;
    var dev := SquaredDeviation(col, Mean(col));
    var s := Std(col, sqrt);
    var out := SquaredDeviation(Standardized(col, Mean(col), s), 0.0);
    SquaredDeviationOfStandardized(col, Mean(col), s);
    var v := dev / n;
    assert 0.0 <= v;
    assert s == sqrt(v);
    assert Pow2(s) == v;
    SqrtOfZero(sqrt);
    RatioCancels(out, dev, n, v);
  }

  lemma RatioCancels(out: real, dev: real, n: real, v: real)
    requires n != 0.0 && v != 0.0 && v == dev / n
    requires out * v == dev
    ensures out == n
  {
    MulDiv(n, dev);
    Cancel(out, n, v);
  }

  /**
   * A column whose standard deviation is not zero comes out with population
   * variance 1: its squared deviation from its mean 0 equals the row count.
   */
  lemma NormalizedColumnHasUnitVariance(data: seq<seq<real>>, j: nat, sqrt: real -> real)
    requires IsSqrt(sqrt)
    requires |data| > 0 && Rectangular(data)
    requires j < |data[0]|
    requires Std(Column(data, j), sqrt) != 0.0
    ensures SquaredDeviation(Column(Normalized(data, sqrt), j), 0.0) == |data| as real
  {
    ColumnOfNormalized(data, j, sqrt);
    StandardizedHasUnitVariance(Column(data, j), sqrt);
  }
}
