/**
 * The neighbour ranking of src/App.jsx, the block that the point click
 * handler and the two effects on `neighborsChanged` and `distanceType` each
 * contain: every point is reset to grey and the focal point painted red,
 * every point is measured against the focal point, the measurements are
 * sorted (ascending for Euclidean, descending for cosine; the sort is
 * stable), `colorizeClosestNodes` paints sorted positions `1..k` in three
 * opacity tiers of the focal point's original colour, and the first `k`
 * measurements become the neighbour table.
 */
module Ranking {
  import opened Common
  import opened Distance
  import opened Points

  /** One `{index, metric}` object of the `distances` array. */
  datatype Entry = Entry(index: nat, metric: real)

  /**
   * The comparator of `distances.sort`, `a.metric - b.metric` for Euclidean
   * and `b.metric - a.metric` for cosine, made total by the stable sort: on
   * equal metrics the entry with the smaller index (the earlier one in the
   * array being sorted) stays first.
   */
  predicate RanksBefore(x: Entry, y: Entry, metric: Metric): (b: bool)
    ensures metric == Euclidean && x.metric < y.metric ==> b
    ensures metric == Cosine && y.metric < x.metric ==> b
    ensures x.metric == y.metric ==> (b <==> x.index < y.index)
    ensures b ==> x.index != y.index || x.metric != y.metric
  {
    match metric
    case Euclidean => x.metric < y.metric || (x.metric == y.metric && x.index < y.index)
    case Cosine => x.metric > y.metric || (x.metric == y.metric && x.index < y.index)
  }

  /**
   * On entries with different indices the comparator is a strict total
   * order: exactly one of two entries ranks before the other.
   */
  lemma RanksBeforeStrictTotal(x: Entry, y: Entry, metric: Metric)
    requires x.index != y.index
    ensures RanksBefore(x, y, metric) <==> !RanksBefore(y, x, metric)
  {
  }

  /** No entry ranks before an entry that precedes it. */
  predicate Sorted(s: seq<Entry>, metric: Metric) {
    forall p, q :: 0 <= p < q < |s| ==> !RanksBefore(s[q], s[p], metric)
  }

  /** Every entry ranks before every entry that follows it. */
  predicate StrictlySorted(s: seq<Entry>, metric: Metric) {
    forall p, q :: 0 <= p < q < |s| ==> RanksBefore(s[p], s[q], metric)
  }

  /** Not ranking before is transitive: the order of `RanksBefore` is total. */
  lemma NotBeforeTransitive(x: Entry, y: Entry, z: Entry, metric: Metric)
    requires !RanksBefore(y, x, metric) && !RanksBefore(z, y, metric)
    ensures !RanksBefore(z, x, metric)
  {
  }

  /**
   * `distances.sort(comparator)`: an in-place stable sort, modelled as an
   * insertion sort that moves each entry left past the entries it ranks
   * before.
   */
  method SortEntries(a: array<Entry>, metric: Metric)
    modifies a
    ensures Sorted(a[..], metric)
    ensures multiset(a[..]) == multiset(old(a[..]))
  {
    for i := 0 to a.Length
      invariant forall p, q :: 0 <= p < q < i ==> !RanksBefore(a[q], a[p], metric)
      invariant multiset(a[..]) == multiset(old(a[..]))
    {
      InsertLast(a, i, metric);
    }
  }

  /** One insertion step: `a[i]` moves left into the sorted prefix `a[..i]`. */
  method InsertLast(a: array<Entry>, i: nat, metric: Metric)
    requires i < a.Length
    requires forall p, q :: 0 <= p < q < i ==> !RanksBefore(a[q], a[p], metric)
    modifies a
    ensures forall p, q :: 0 <= p < q <= i ==> !RanksBefore(a[q], a[p], metric)
    ensures multiset(a[..]) == multiset(old(a[..]))
  {
    var j := i;
    while j > 0 && RanksBefore(a[j], a[j - 1], metric)
      invariant 0 <= j <= i
      invariant forall p, q :: 0 <= p < q <= i && p != j && q != j ==> !RanksBefore(a[q], a[p], metric)
      invariant forall q :: j < q <= i ==> RanksBefore(a[j], a[q], metric)
      invariant multiset(a[..]) == multiset(old(a[..]))
    {
      a[j - 1], a[j] := a[j], a[j - 1];
      j := j - 1;
    }
    forall p, q | 0 <= p < q <= i
      ensures !RanksBefore(a[q], a[p], metric)
    {
      if q == j && p < j - 1 {
        NotBeforeTransitive(a[p], a[j - 1], a[j], metric);
      }
    }
  }

  // ---------------------------------------------------------------------
  // Tiered colouring

  /** `Math.ceil(neighbors / 3)`: the width of one opacity tier. */
  function Steps(k: nat): (s: nat)
    ensures k <= 3 * s < k + 3
  {
    (k + 2) / 3
  }

  /** The opacity ladder, from the closest tier to the farthest. */
  const Opacities: seq<real> := [192.0, 128.0, 64.0]

  function Min(a: int, b: int): int {
    if a <= b then a else b
  }

  /** `Math.min(Math.floor((i - 1) / steps), opacities.length - 1)` for sorted position `i`. */
  function Tier(k: nat, i: nat): (t: nat)
    requires 1 <= i <= k
    ensures t < |Opacities|
  {
    Min((i - 1) / Steps(k), |Opacities| - 1)
  }

  /** The alpha of sorted position `i`: 192 in the first tier, 128 in the second, 64 in the third. */
  function Opacity(k: nat, i: nat): (o: real)
    requires 1 <= i <= k
    ensures o in Opacities
    ensures i <= Steps(k) ==> o == 192.0
    ensures Steps(k) < i <= 2 * Steps(k) ==> o == 128.0
    ensures 2 * Steps(k) < i ==> o == 64.0
  {
    TierBand(k, i, 0);
    TierBand(k, i, 1);
    TierBand(k, i, 2);
    Opacities[Tier(k, i)]
  }

  /** Every index of `distances` names an entry of the point array. */
  predicate IndicesWithin(distances: seq<Entry>, n: nat) {
    forall p :: 0 <= p < |distances| ==> distances[p].index < n
  }

  /** The point array after the loop of `colorizeClosestNodes` has run for positions `1..i`. */
  function PaintedUpTo(d: seq<Point>, distances: seq<Entry>, color: seq<real>, k: nat, i: nat): (r: seq<Point>)
    requires i <= k < |distances|
    requires IndicesWithin(distances, |d|)
    ensures |r| == |d|
    decreases i
  {
    if i == 0 then d
    else
      var prev := PaintedUpTo(d, distances, color, k, i - 1);
      var e := distances[i];
      prev[e.index := prev[e.index].(color := color + [Opacity(k, i)], metric := Some(e.metric))]
  }

  /**
   * `colorizeClosestNodes(data, distances, color)` with `neighbors == k`:
   * for `i` in `1..k` the point at `distances[i].index` is replaced in place
   * by a copy with colour `[...color, opacity]` and the entry's metric.
   * The source reads `distances[k]`, so it needs `k < distances.length`.
   */
  method ColorizeClosestNodes(data: array<Point>, distances: seq<Entry>, color: seq<real>, k: nat)
    requires k < |distances|
    requires IndicesWithin(distances, data.Length)
    modifies data
    ensures data[..] == PaintedUpTo(old(data[..]), distances, color, k, k)
  {
    var steps := (k + 2) / 3;
    var opacities := [192.0, 128.0, 64.0];
    for i := 1 to k + 1
      invariant data[..] == PaintedUpTo(old(data[..]), distances, color, k, i - 1)
    {
      var opacityIndex := (i - 1) / steps;
      var opacity := opacities[Min(opacityIndex, |opacities| - 1)];
      var target := distances[i].index;
      data[target] := data[target].(color := color + [opacity], metric := Some(distances[i].metric));
    }
  }

  lemma DivBounds(x: nat, s: nat)
    requires s > 0
    ensures s * (x / s) <= x < s * (x / s) + s
  {
  }

  lemma MulMonotone(s: nat, a: nat, b: nat)
    ensures a <= b ==> s * a <= s * b
  {
    assert s * b == s * a + s * (b - a);
  }

  /** The clamp `Math.min(…, 2)` never takes effect: the quotient itself is at most 2. */
  lemma TierNeverClamped(k: nat, i: nat)
    requires 1 <= i <= k
    ensures (i - 1) / Steps(k) <= 2
    ensures Tier(k, i) == (i - 1) / Steps(k)
  {
    var s := Steps(k);
    var q := (i - 1) / s;
    DivBounds(i - 1, s);
    MulMonotone(s, 3, q);
  }

  /**
   * The tiers are bands of `Steps(k)` consecutive positions: position `i`
   * is in tier `t` exactly when `t * Steps(k) < i <= (t + 1) * Steps(k)`.
   */
  lemma TierBand(k: nat, i: nat, t: nat)
    requires 1 <= i <= k
    ensures Tier(k, i) == t <==> t * Steps(k) < i <= (t + 1) * Steps(k)
  {
    TierNeverClamped(k, i);
    var s := Steps(k);
    var q := (i - 1) / s;
    DivBounds(i - 1, s);
    assert s * (q + 1) == s * q + s;
    assert s * (t + 1) == s * t + s;
    MulMonotone(s, q + 1, t);
    MulMonotone(s, t + 1, q);
  }

  /** Opacity never increases along the ranking. */
  lemma OpacityNonIncreasing(k: nat, i: nat, j: nat)
    requires 1 <= i <= j <= k
    ensures Tier(k, i) <= Tier(k, j)
    ensures Opacity(k, j) <= Opacity(k, i)
  {
    TierNeverClamped(k, i);
    TierNeverClamped(k, j);
    var s := Steps(k);
    var qi, qj := (i - 1) / s, (j - 1) / s;
    DivBounds(i - 1, s);
    DivBounds(j - 1, s);
  }

  /** Entries at different positions name different points. */
  predicate DistinctIndices(s: seq<Entry>) {
    forall p, q :: 0 <= p < q < |s| ==> s[p].index != s[q].index
  }

  /**
   * What `colorizeClosestNodes` does to each point: the point of sorted
   * position `p` in `1..i` gets `[...color, opacity of p]` and its metric;
   * every point not named by one of those positions is left as it was.
   */
  lemma {:induction false} PaintedUpToEffect(d: seq<Point>, distances: seq<Entry>, color: seq<real>, k: nat, i: nat)
    requires i <= k < |distances|
    requires IndicesWithin(distances, |d|)
    requires DistinctIndices(distances)
    ensures forall p :: 1 <= p <= i ==>
      PaintedUpTo(d, distances, color, k, i)[distances[p].index]
        == d[distances[p].index].(color := color + [Opacity(k, p)], metric := Some(distances[p].metric))
    ensures forall x :: 0 <= x < |d| && (forall p :: 1 <= p <= i ==> distances[p].index != x) ==>
      PaintedUpTo(d, distances, color, k, i)[x] == d[x]
    decreases i
  {
    if i > 0 {
      PaintedUpToEffect(d, distances, color, k, i - 1);
    }
  }

  // ---------------------------------------------------------------------
  // The ranking block

  /**
   * The points after the reset: every colour is grey, then the focal
   * point's colour is the highlight red.
   */
  function Highlighted(points: seq<Point>, focal: nat): (r: seq<Point>)
    requires focal < |points|
    ensures |r| == |points|
    ensures r[focal] == points[focal].(color := Red)
    ensures forall i :: 0 <= i < |r| && i != focal ==> r[i] == points[i].(color := Grey)
  {
    Greyed(points)[focal := points[focal].(color := Red)]
  }

  /** The embedding of every point has the length of the focal point's. */
  predicate SameDimension(points: seq<Point>, focal: nat)
    requires focal < |points|
  {
    forall i :: 0 <= i < |points| ==> |points[i].embedding| == |points[focal].embedding|
  }

  /** Under cosine, no point and not the focal point has a zero embedding (the quotient would not be a number). */
  predicate Measurable(points: seq<Point>, focal: nat, metric: Metric)
    requires focal < |points|
  {
    metric == Cosine ==> forall i :: 0 <= i < |points| ==> CosineDefined(points[i].embedding, points[focal].embedding)
  }

  /** The `{index, metric}` object built for point `i`. */
  function Measure(points: seq<Point>, focal: nat, i: nat, metric: Metric, sqrt: real -> real): (e: Entry)
    requires IsSqrt(sqrt)
    requires focal < |points| && i < |points|
    requires |points[i].embedding| == |points[focal].embedding|
    requires Measurable(points, focal, metric)
    ensures e.index == i
  {
    Entry(i, MetricValue(points[i].embedding, points[focal].embedding, metric, sqrt))
  }

  /** The `distances` array before sorting: point `i` measured against the focal point, in index order. */
  function Measured(points: seq<Point>, focal: nat, metric: Metric, sqrt: real -> real): (m: seq<Entry>)
    requires IsSqrt(sqrt)
    requires focal < |points|
    requires SameDimension(points, focal) && Measurable(points, focal, metric)
    ensures |m| == |points|
    ensures forall i :: 0 <= i < |m| ==> m[i].index == i
  {
    seq(|points|, i requires 0 <= i < |points| => Measure(points, focal, i, metric, sqrt))
  }

  /** `s` is what the stable sort leaves of `measured`: the same entries, sorted. */
  predicate IsRankingOf(s: seq<Entry>, measured: seq<Entry>, metric: Metric) {
    multiset(s) == multiset(measured) && Sorted(s, metric)
  }

  /** One row of the neighbour table (`patients`). */
  datatype Row = Row(patientId: string, cancerType: string, text: string, metric: real)

  /** `distances.slice(0, neighbors).map(...)`, reading each row's point from the coloured data. */
  function Table(points: seq<Point>, ranked: seq<Entry>, k: nat): (t: seq<Row>)
    requires k <= |ranked|
    requires IndicesWithin(ranked, |points|)
    ensures |t| == k
  {
    seq(k, p requires 0 <= p < k =>
      var point := points[ranked[p].index];
      Row(point.patientId, point.cancerType, point.text, ranked[p].metric))
  }

  /** What one run of the block leaves behind: the new `pointData`, the sorted `distances` and `patients`. */
  datatype Ranking = Ranking(points: seq<Point>, ranked: seq<Entry>, table: seq<Row>)

  /**
   * The ranking block for focal point `focal`, metric `metric` and
   * `neighbors == k`. A point whose embedding length differs from the focal
   * point's makes the distance function throw (`DimensionMismatch`); a `k`
   * of at least the number of points makes `colorizeClosestNodes` read past
   * the end of `distances` (`IndexOutOfRange`). Either way nothing is kept.
   */
  method RankNeighbors(points: seq<Point>, focal: nat, metric: Metric, k: nat, sqrt: real -> real)
    returns (r: Result<Ranking>)
    requires IsSqrt(sqrt)
    requires focal < |points|
    requires Measurable(points, focal, metric)
    ensures r.Err? <==> !SameDimension(points, focal) || |points| <= k
    ensures r.Err? ==> r.error == if !SameDimension(points, focal) then DimensionMismatch else IndexOutOfRange
    ensures r.Ok? ==> SameDimension(points, focal) && k < |points|
    ensures r.Ok? ==> IsRankingOf(r.value.ranked, Measured(points, focal, metric, sqrt), metric)
    ensures r.Ok? ==> IndicesWithin(r.value.ranked, |points|) && |r.value.ranked| == |points|
    ensures r.Ok? ==>
      r.value.points == PaintedUpTo(Highlighted(points, focal), r.value.ranked, points[focal].originalColor, k, k)
    ensures r.Ok? ==> r.value.table == Table(r.value.points, r.value.ranked, k)
    ensures r == Reranked(points, focal, metric, k, sqrt)
  {
    var newData := Highlighted(points, focal);
    var n := |points|;
    var distances := new Entry[n](i => Entry(0, 0.0));
    for i := 0 to n
      invariant forall j :: 0 <= j < i ==> |points[j].embedding| == |points[focal].embedding|
      invariant forall j :: 0 <= j < i ==> distances[j] == Measure(points, focal, j, metric, sqrt)
    {
      var d := newData[i].embedding;
      var value: Result<real>;
      match metric {
        case Euclidean => value := EuclideanDistance(d, points[focal].embedding, sqrt);
        case Cosine => value := CosineDistance(d, points[focal].embedding, sqrt);
      }
      if value.Err? {
        return Err(DimensionMismatch);
      }
      distances[i] := Entry(i, value.value);
    }
    assert distances[..] == Measured(points, focal, metric, sqrt);

    SortEntries(distances, metric);
    var ranked := distances[..];
    MeasuredPermutation(ranked, Measured(points, focal, metric, sqrt));
    if n <= k {
      return Err(IndexOutOfRange);
    }

    var data := new Point[n](i requires 0 <= i < n => newData[i]);
    assert data[..] == newData;
    ColorizeClosestNodes(data, ranked, newData[focal].originalColor, k);
    var coloredData := data[..];
    SortedEntriesIsRanking(Measured(points, focal, metric, sqrt), metric);
    RankingUnique(ranked, SortedEntries(Measured(points, focal, metric, sqrt), metric), Measured(points, focal, metric, sqrt), metric);
    r := Ok(Ranking(coloredData, ranked, Table(coloredData, ranked, k)));
  }

  // ---------------------------------------------------------------------
  // Properties of the ranking

  /** Entry `i` of `m` is the measurement of point `i`. */
  predicate Indexed(m: seq<Entry>) {
    forall i :: 0 <= i < |m| ==> m[i].index == i
  }

  lemma {:induction false} IndexedOccursOnce(m: seq<Entry>, e: Entry)
    requires Indexed(m)
    ensures multiset(m)[e] <= 1
    decreases |m|
  {
    if |m| != 0 {
      var n := |m| - 1;
      assert m == m[..n] + [m[n]];
      IndexedOccursOnce(m[..n], e);
      if e == m[n] {
        assert e !in m[..n];
      }
    }
  }

  /**
   * Any permutation `s` of the measurements names every point once, and its
   * entry for point `i` carries point `i`'s measurement.
   */
  lemma MeasuredPermutation(s: seq<Entry>, m: seq<Entry>)
    requires Indexed(m)
    requires multiset(s) == multiset(m)
    ensures |s| == |m|
    ensures IndicesWithin(s, |m|)
    ensures forall p :: 0 <= p < |s| ==> s[p] == m[s[p].index]
    ensures DistinctIndices(s)
  {
    assert |s| == |multiset(s)| == |multiset(m)| == |m|;
    forall p | 0 <= p < |s|
      ensures s[p].index < |m| && s[p] == m[s[p].index]
    {
      assert s[p] in multiset(m);
    }
    forall p, q | 0 <= p < q < |s|
      ensures s[p].index != s[q].index
    {
      TwoOccurrences(s, p, q);
      IndexedOccursOnce(m, s[p]);
    }
  }

  lemma TwoOccurrences(s: seq<Entry>, p: nat, q: nat)
    requires p < q < |s|
    ensures s[p] == s[q] ==> multiset(s)[s[p]] >= 2
  {
    assert s == s[..q] + [s[q]] + s[q + 1..];
    assert s[p] in s[..q];
  }

  /**
   * The sorted measurements are strictly ordered by the metric's direction,
   * and measurements with equal metric values keep their index order (the
   * sort is stable).
   */
  lemma RankingOrder(s: seq<Entry>, m: seq<Entry>, metric: Metric)
    requires Indexed(m)
    requires IsRankingOf(s, m, metric)
    ensures StrictlySorted(s, metric)
    ensures forall p, q :: 0 <= p < q < |s| && s[p].metric == s[q].metric ==> s[p].index < s[q].index
    ensures metric == Euclidean ==> forall p, q :: 0 <= p < q < |s| ==> s[p].metric <= s[q].metric
    ensures metric == Cosine ==> forall p, q :: 0 <= p < q < |s| ==> s[p].metric >= s[q].metric
  {
    MeasuredPermutation(s, m);
  }

  /** Two strictly sorted sequences with the same entries are equal. */
  lemma {:induction false} StrictlySortedUnique(s: seq<Entry>, t: seq<Entry>, metric: Metric)
    requires multiset(s) == multiset(t)
    requires StrictlySorted(s, metric) && StrictlySorted(t, metric)
    ensures s == t
    decreases |s|
  {
    assert |s| == |multiset(s)| == |multiset(t)| == |t|;
    if |s| != 0 {
      SameHead(s, t, metric);
      TailMultiset(s);
      TailMultiset(t);
      StrictlySortedUnique(s[1..], t[1..], metric);
      assert s == [s[0]] + s[1..] && t == [t[0]] + t[1..];
    }
  }

  /** Two strictly sorted sequences with the same entries start with the same entry. */
  lemma SameHead(s: seq<Entry>, t: seq<Entry>, metric: Metric)
    requires 0 < |s| && 0 < |t|
    requires multiset(s) == multiset(t)
    requires StrictlySorted(s, metric) && StrictlySorted(t, metric)
    ensures s[0] == t[0]
  {
    assert s[0] in multiset(t) && t[0] in multiset(s);
    var j :| 0 <= j < |t| && t[j] == s[0];
    var i :| 0 <= i < |s| && s[i] == t[0];
    assert 0 < j ==> RanksBefore(t[0], s[0], metric);
    assert 0 < i ==> RanksBefore(s[0], t[0], metric);
  }

  lemma TailMultiset(s: seq<Entry>)
    requires 0 < |s|
    ensures multiset(s[1..]) == multiset(s) - multiset{s[0]}
  {
    assert s == [s[0]] + s[1..];
  }

  /** The stable sort has exactly one possible outcome: any two rankings of the same measurements agree. */
  lemma RankingUnique(s: seq<Entry>, t: seq<Entry>, m: seq<Entry>, metric: Metric)
    requires Indexed(m)
    requires IsRankingOf(s, m, metric) && IsRankingOf(t, m, metric)
    ensures s == t
  {
    RankingOrder(s, m, metric);
    RankingOrder(t, m, metric);
    StrictlySortedUnique(s, t, metric);
  }

  /** No painted colour is the highlight: the painted alpha is 192, 128 or 64, never 256. */
  lemma PaintedIsNotRed(color: seq<real>, k: nat, p: nat)
    requires 1 <= p <= k
    ensures color + [Opacity(k, p)] != Red
  {
    var c := color + [Opacity(k, p)];
    assert c[|color|] == Opacity(k, p);
  }

  /**
   * After the block, the focal point still has the highlight colour exactly
   * when none of sorted positions `1..k` names it: colouring can overwrite
   * the highlight.
   */
  lemma FocalKeepsRedIff(points: seq<Point>, focal: nat, ranked: seq<Entry>, color: seq<real>, k: nat)
    requires focal < |points|
    requires k < |ranked|
    requires IndicesWithin(ranked, |points|) && DistinctIndices(ranked)
    ensures PaintedUpTo(Highlighted(points, focal), ranked, color, k, k)[focal].color == Red
        <==> forall p :: 1 <= p <= k ==> ranked[p].index != focal
  {
    var d := Highlighted(points, focal);
    PaintedUpToEffect(d, ranked, color, k, k);
    if p :| 1 <= p <= k && ranked[p].index == focal {
      PaintedIsNotRed(color, k, p);
    }
  }

  /**
   * Under the Euclidean metric the focal point ranks first unless an earlier
   * point has exactly the focal point's embedding.
   */
  lemma EuclideanFocalFirst(points: seq<Point>, focal: nat, ranked: seq<Entry>, sqrt: real -> real)
    requires IsSqrt(sqrt)
    requires focal < |points|
    requires SameDimension(points, focal)
    requires IsRankingOf(ranked, Measured(points, focal, Euclidean, sqrt), Euclidean)
    ensures |ranked| == |points|
    ensures ranked[0].index != focal ==>
      ranked[0].index < focal && points[ranked[0].index].embedding == points[focal].embedding
  {
    var m := Measured(points, focal, Euclidean, sqrt);
    RankingOrder(ranked, m, Euclidean);
    MeasuredPermutation(ranked, m);
    var x := ranked[0].index;
    if x != focal {
      var f := points[focal].embedding;
      assert m[focal] in multiset(ranked);
      var p :| 0 <= p < |ranked| && ranked[p] == m[focal];
      EuclideanZeroIffEqual(f, f, sqrt);
      EuclideanZeroIffEqual(points[x].embedding, f, sqrt);
      assert RanksBefore(ranked[0], ranked[p], Euclidean);
    }
  }

  /**
   * Under the Euclidean metric, a focal point whose embedding no earlier
   * point shares keeps its highlight after the block, whatever `k` is.
   */
  lemma EuclideanFocalKeepsRed(points: seq<Point>, focal: nat, ranked: seq<Entry>, k: nat, sqrt: real -> real)
    requires IsSqrt(sqrt)
    requires focal < |points| && k < |points|
    requires SameDimension(points, focal)
    requires forall i :: 0 <= i < focal ==> points[i].embedding != points[focal].embedding
    requires IsRankingOf(ranked, Measured(points, focal, Euclidean, sqrt), Euclidean)
    ensures |ranked| == |points| && IndicesWithin(ranked, |points|)
    ensures PaintedUpTo(Highlighted(points, focal), ranked, points[focal].originalColor, k, k)[focal].color == Red
  {
    EuclideanFocalFirst(points, focal, ranked, sqrt);
    MeasuredPermutation(ranked, Measured(points, focal, Euclidean, sqrt));
    FocalKeepsRedIff(points, focal, ranked, points[focal].originalColor, k);
  }

  lemma CosineExampleValues(sqrt: real -> real)
    requires IsSqrt(sqrt)
    ensures NormSq([1.0]) == 1.0 && NormSq([4.0]) == 16.0
    ensures CosineQuotient([1.0], [1.0], sqrt) == 1.0
    ensures CosineQuotient([4.0], [1.0], sqrt) == 2.0
  {
    assert NormSq([1.0]) == 1.0 && NormSq([4.0]) == 16.0 by {
      assert [1.0][..0] == [] && [4.0][..0] == [];
    }
    assert Dot([4.0], [1.0]) == 4.0 by {
      assert [4.0][..0] == [] && [1.0][..0] == [];
    }
    assert Pow2(1.0) == 1.0 && Pow2(2.0) == 4.0 && Pow2(4.0) == 16.0;
    SqrtOfSquare(sqrt, 1.0);
    SqrtOfSquare(sqrt, 2.0);
    SqrtOfSquare(sqrt, 4.0);
    CosineSelfIsMagnitude([1.0], sqrt);
  }

  /**
   * Under cosine the focal point need not rank first, so its highlight can
   * be overwritten: with embeddings `[1]` (the focal point) and `[4]`, the
   * quotient is 1 for the focal point and 2 for the other, so the other
   * point comes first and the focal point, at position 1, is painted for
   * `k == 1`.
   */
  lemma CosineFocalRepainted(points: seq<Point>, s: seq<Entry>, sqrt: real -> real)
    requires IsSqrt(sqrt)
    requires |points| == 2 && points[0].embedding == [1.0] && points[1].embedding == [4.0]
    requires IsRankingOf(s, Measured(points, 0, Cosine, sqrt), Cosine)
    ensures |s| == 2 && s[0].index == 1 && s[1].index == 0
    ensures PaintedUpTo(Highlighted(points, 0), s, points[0].originalColor, 1, 1)[0].color != Red
  {
    CosineExampleMeasured(points, sqrt);
    CosineExampleRanking(s, Measured(points, 0, Cosine, sqrt));
    SecondIsRepainted(points, s);
  }

  /** With the focal point 0 at position 1 of the ranking, `k == 1` paints over its highlight. */
  lemma SecondIsRepainted(points: seq<Point>, s: seq<Entry>)
    requires |points| == 2 && s == [Entry(1, 2.0), Entry(0, 1.0)]
    ensures PaintedUpTo(Highlighted(points, 0), s, points[0].originalColor, 1, 1)[0].color != Red
  {
    assert IndicesWithin(s, |points|) && DistinctIndices(s);
    FocalKeepsRedIff(points, 0, s, points[0].originalColor, 1);
  }

  /** Under cosine the measurements 1 (point 0) and 2 (point 1) rank point 1 first. */
  lemma CosineExampleRanking(s: seq<Entry>, m: seq<Entry>)
    requires m == [Entry(0, 1.0), Entry(1, 2.0)]
    requires IsRankingOf(s, m, Cosine)
    ensures s == [Entry(1, 2.0), Entry(0, 1.0)]
  {
    var t := [Entry(1, 2.0), Entry(0, 1.0)];
    assert multiset(t) == multiset(m);
    RankingUnique(s, t, m, Cosine);
  }

  lemma CosineExampleMeasured(points: seq<Point>, sqrt: real -> real)
    requires IsSqrt(sqrt)
    requires |points| == 2 && points[0].embedding == [1.0] && points[1].embedding == [4.0]
    ensures Measurable(points, 0, Cosine)
    ensures Measured(points, 0, Cosine, sqrt) == [Entry(0, 1.0), Entry(1, 2.0)]
  {
    CosineExampleValues(sqrt);
    var m := Measured(points, 0, Cosine, sqrt);
    assert m[0] == Entry(0, 1.0);
    assert m[1] == Entry(1, 2.0);
  }

  /**
   * A worked example: embeddings `[0, 0]`,
   * `[1, 0]`, `[0, 1]`, `[5, 5]`, focal point 0, Euclidean metric, `k == 3`.
   * The ranking keeps index order, with metrics 0, 1, 1 and the root of 50
   * (the tie between points 1 and 2 is broken by index), and the three
   * neighbours fall into tiers 0, 1 and 2.
   */
  lemma ReferenceExample(points: seq<Point>, s: seq<Entry>, sqrt: real -> real)
    requires IsSqrt(sqrt)
    requires |points| == 4
    requires points[0].embedding == [0.0, 0.0] && points[1].embedding == [1.0, 0.0]
    requires points[2].embedding == [0.0, 1.0] && points[3].embedding == [5.0, 5.0]
    requires IsRankingOf(s, Measured(points, 0, Euclidean, sqrt), Euclidean)
    ensures |s| == 4
    ensures s[0].index == 0 && s[1].index == 1 && s[2].index == 2 && s[3].index == 3
    ensures s[0].metric == 0.0 && s[1].metric == 1.0 && s[2].metric == 1.0
    ensures 0.0 <= s[3].metric && Pow2(s[3].metric) == 50.0
    ensures Tier(3, 1) == 0 && Tier(3, 2) == 1 && Tier(3, 3) == 2
  {
    var m := Measured(points, 0, Euclidean, sqrt);
    var f := [0.0, 0.0];
    assert SquaredDiffSum(f, f) == 0.0 && SquaredDiffSum([1.0, 0.0], f) == 1.0
        && SquaredDiffSum([0.0, 1.0], f) == 1.0 && SquaredDiffSum([5.0, 5.0], f) == 50.0 by {
      assert [0.0, 0.0][..1] == [0.0] && [1.0, 0.0][..1] == [1.0];
      assert [0.0, 1.0][..1] == [0.0] && [5.0, 5.0][..1] == [5.0];
      assert [0.0][..0] == [] && [1.0][..0] == [] && [5.0][..0] == [];
    }
    SqrtOfZero(sqrt);
    assert Pow2(1.0) == 1.0;
    SqrtOfSquare(sqrt, 1.0);
    var v := m[3].metric;
    assert 0.0 <= v && Pow2(v) == 50.0;
    assert (v - 1.0) * (v + 1.0) == 49.0;
    PositiveFactor(v - 1.0, v + 1.0, 49.0);
    assert Sorted(m, Euclidean);
    RankingUnique(s, m, m, Euclidean);
  }

  // ---------------------------------------------------------------------
  // A reference ranking

  /** `e` inserted into `s` after every entry that does not rank after it. */
  function Insert(e: Entry, s: seq<Entry>, metric: Metric): (r: seq<Entry>)
    ensures |r| == |s| + 1
    decreases |s|
  {
    if |s| == 0 then [e]
    else if RanksBefore(e, s[0], metric) then [e] + s
    else [s[0]] + Insert(e, s[1..], metric)
  }

  /** Insertion sort as a function: the reference the in-place sort is compared with. */
  function SortedEntries(s: seq<Entry>, metric: Metric): (r: seq<Entry>)
    ensures |r| == |s|
    decreases |s|
  {
    if |s| == 0 then [] else Insert(s[0], SortedEntries(s[1..], metric), metric)
  }

  lemma {:induction false} InsertIsRanking(e: Entry, s: seq<Entry>, metric: Metric)
    requires Sorted(s, metric)
    ensures Sorted(Insert(e, s, metric), metric)
    ensures multiset(Insert(e, s, metric)) == multiset(s) + multiset{e}
    decreases |s|
  {
    InsertPermutes(e, s, metric);
    if |s| != 0 && !RanksBefore(e, s[0], metric) {
      var rest := Insert(e, s[1..], metric);
      InsertIsRanking(e, s[1..], metric);
      forall q | 0 <= q < |rest|
        ensures !RanksBefore(rest[q], s[0], metric)
      {
        assert rest[q] in multiset(s[1..]) + multiset{e};
      }
    }
  }

  /** Insertion adds exactly the inserted entry. */
  lemma {:induction false} InsertPermutes(e: Entry, s: seq<Entry>, metric: Metric)
    ensures multiset(Insert(e, s, metric)) == multiset(s) + multiset{e}
    decreases |s|
  {
    if |s| != 0 {
      InsertPermutes(e, s[1..], metric);
      assert s == [s[0]] + s[1..];
    }
  }

  /** The reference ranking is a ranking: sorted, with the same entries. */
  lemma {:induction false} SortedEntriesIsRanking(s: seq<Entry>, metric: Metric)
    ensures IsRankingOf(SortedEntries(s, metric), s, metric)
    decreases |s|
  {
    if |s| != 0 {
      SortedEntriesIsRanking(s[1..], metric);
      InsertIsRanking(s[0], SortedEntries(s[1..], metric), metric);
      assert s == [s[0]] + s[1..];
    }
  }

  /** The ranking the block computes, as a function of its inputs: `RankNeighbors` returns exactly this. */
  function Reranked(points: seq<Point>, focal: nat, metric: Metric, k: nat, sqrt: real -> real): (r: Result<Ranking>)
    requires IsSqrt(sqrt)
    requires focal < |points|
    requires Measurable(points, focal, metric)
    ensures r.Ok? ==> |r.value.points| == |points|
  {
    if !SameDimension(points, focal) then Err(DimensionMismatch)
    else if |points| <= k then Err(IndexOutOfRange)
    else
      var m := Measured(points, focal, metric, sqrt);
      var ranked := SortedEntries(m, metric);
      SortedEntriesIsRanking(m, metric);
      MeasuredPermutation(ranked, m);
      var painted := PaintedUpTo(Highlighted(points, focal), ranked, points[focal].originalColor, k, k);
      Ok(Ranking(painted, ranked, Table(painted, ranked, k)))
  }

  /** The block changes nothing of a point but its colour and its metric. */
  lemma {:induction false} PaintedUpToOnlyColors(d: seq<Point>, distances: seq<Entry>, color: seq<real>, k: nat, i: nat)
    requires i <= k < |distances|
    requires IndicesWithin(distances, |d|)
    ensures forall x :: 0 <= x < |d| ==>
      PaintedUpTo(d, distances, color, k, i)[x]
        == d[x].(color := PaintedUpTo(d, distances, color, k, i)[x].color,
                 metric := PaintedUpTo(d, distances, color, k, i)[x].metric)
    decreases i
  {
    if i > 0 {
      PaintedUpToOnlyColors(d, distances, color, k, i - 1);
    }
  }

  /** A successful ranking keeps the points, apart from their colours and metrics. */
  lemma RerankedOnlyColors(points: seq<Point>, focal: nat, metric: Metric, k: nat, sqrt: real -> real)
    requires IsSqrt(sqrt)
    requires focal < |points|
    requires Measurable(points, focal, metric)
    requires Reranked(points, focal, metric, k, sqrt).Ok?
    ensures forall x :: 0 <= x < |points| ==>
      Reranked(points, focal, metric, k, sqrt).value.points[x]
        == points[x].(color := Reranked(points, focal, metric, k, sqrt).value.points[x].color,
                      metric := Reranked(points, focal, metric, k, sqrt).value.points[x].metric)
  {
    var m := Measured(points, focal, metric, sqrt);
    var ranked := SortedEntries(m, metric);
    SortedEntriesIsRanking(m, metric);
    MeasuredPermutation(ranked, m);
    PaintedUpToOnlyColors(Highlighted(points, focal), ranked, points[focal].originalColor, k, k);
  }
}
