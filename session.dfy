/**
 * The session state of the `App` component of src/App.jsx and the handlers
 * and effects that change it: `addEmbedding`, the attach step of
 * `runUmap`, the PCA branch of the effect on `[algorithm, data]`, the effect
 * on the PCA axes, and the three places that re-run the neighbour ranking
 * (a click on a point, a committed change of the neighbour count, a change
 * of the metric).
 *
 * React state updates are modelled as functions from the state before to
 * the state after. An exception thrown inside an effect ends the
 * application; it is modelled as an `Err` result.
 */
module Session {
  import opened Common
  import opened Distance
  import opened Normalize
  import opened Points
  import opened Ranking
  import opened UmapStepper

  /** `pcaData`: the projected rows and the explained-variance components. */
  datatype PcaResult = PcaResult(data: seq<seq<real>>, components: seq<real>)

  /** What the embedding service answers: an error, or the embedding values. */
  datatype Response = ApiError(message: string) | Embedding(values: seq<real>)

  /**
   * The component state the core reads and writes. `umapData == []` stands
   * for the empty object `{}` the component starts with and resets to;
   * `pcaData == None` for `{}`; an axis `None` for the empty selection `""`.
   * An empty `apiKey` is a missing key.
   */
  datatype State = State(
    data: seq<Record>,
    points: seq<Point>,
    umapData: seq<seq<real>>,
    pcaData: Option<PcaResult>,
    pcaAxes: seq<Option<nat>>,
    searchQuery: string,
    apiKey: string,
    newNode: Option<Point>,
    clickedIndex: Option<nat>,
    neighbors: nat,
    neighborsChanged: bool,
    distanceType: Metric,
    patients: seq<Row>,
    referenceDocument: string)

  /**
   * The invariant the handlers keep: `data` and `pointData` are parallel
   * arrays with the same embeddings, there are three PCA axes, a clicked
   * index names a point, and cached PCA rows cover every point.
   */
  ghost predicate Valid(s: State) {
    && |s.data| == |s.points|
    && (forall i :: 0 <= i < |s.data| ==> s.data[i].embedding == s.points[i].embedding)
    && |s.pcaAxes| == 3
    && (s.clickedIndex.Some? ==> s.clickedIndex.value < |s.points|)
    && (s.pcaData.Some? ==> |s.points| <= |s.pcaData.value.data|)
  }

  /** `data.map(point => point.embedding)`. */
  function Embeddings(data: seq<Record>): (e: seq<seq<real>>)
    ensures |e| == |data|
    ensures forall i :: 0 <= i < |data| ==> e[i] == data[i].embedding
  {
    seq(|data|, i requires 0 <= i < |data| => data[i].embedding)
  }

  // ---------------------------------------------------------------------
  // Adding a query point

  /** The point `addEmbedding` appends for the answered query. */
  function QueryPoint(s: State, values: seq<real>, color: seq<real>, nodeId: string): (p: Point)
    ensures p.id == nodeId && p.text == s.searchQuery && p.embedding == values
    ensures p.color == color && p.originalColor == color
    ensures p.patientId == "" && p.cancerType == ""
    ensures p.metric.None? && p.position.None?
  {
    Point(nodeId, "", "", s.searchQuery, values, color, color, None, None)
  }

  /**
   * `addEmbedding()` once the embedding service has answered `response`.
   * `color`, `nodeId` and `recordId` stand for the values drawn with
   * `Math.random`. An empty query, a missing key or an error answer only
   * raise an alert.
   */
  function AddEmbedding(s: State, response: Response, color: seq<real>, nodeId: string, recordId: string): (r: State)
    ensures s.searchQuery == "" || s.apiKey == "" || response.ApiError? ==> r == s
    ensures s.searchQuery != "" && s.apiKey != "" && response.Embedding? ==>
      && |r.points| == |s.points| + 1
      && (forall i :: 0 <= i < |s.points| ==> r.points[i] == s.points[i].(color := Grey))
      && r.points[|s.points|] == QueryPoint(s, response.values, color, nodeId)
      && r.newNode == Some(QueryPoint(s, response.values, color, nodeId))
      && r.data == s.data + [Record(recordId, s.searchQuery, response.values)]
      && r.umapData == [] && r.pcaData == None && r.searchQuery == ""
      && r == s.(points := r.points, data := r.data, newNode := r.newNode,
                 umapData := [], pcaData := None, searchQuery := "")
  {
    if s.searchQuery == "" || s.apiKey == "" then s
    else match response
      case ApiError(_) => s
      case Embedding(values) =>
        var node := QueryPoint(s, values, color, nodeId);
        s.(newNode := Some(node),
           umapData := [],
           pcaData := None,
           points := Greyed(s.points) + [node],
           data := s.data + [Record(recordId, s.searchQuery, values)],
           searchQuery := "")
  }

  // ---------------------------------------------------------------------
  // Attaching projections

  /** `newUmapData[index]?.[c]`: absent when the projection has no such row or column. */
  function Coord(coords: seq<seq<real>>, i: nat, c: nat): (v: Option<real>)
    ensures v.Some? <==> i < |coords| && c < |coords[i]|
  {
    if i < |coords| && c < |coords[i]| then Some(coords[i][c]) else None
  }

  /** Every point's `position` replaced by the first three coordinates of its projected row. */
  function Positioned(points: seq<Point>, coords: seq<seq<real>>): (r: seq<Point>)
    ensures |r| == |points|
    ensures forall i :: 0 <= i < |r| ==>
      r[i] == points[i].(position := Some([Coord(coords, i, 0), Coord(coords, i, 1), Coord(coords, i, 2)]))
  {
    seq(|points|, i requires 0 <= i < |points| =>
      points[i].(position := Some([Coord(coords, i, 0), Coord(coords, i, 1), Coord(coords, i, 2)])))
  }

  /** `newNode` is cleared once the new chart data contains a point with its id. */
  function Cleared(newNode: Option<Point>, points: seq<Point>): (r: Option<Point>)
    ensures r.None? <==> newNode.None? || exists i :: 0 <= i < |points| && points[i].id == newNode.value.id
    ensures r.Some? ==> r == newNode
  {
    if newNode.Some? && exists i :: 0 <= i < |points| && points[i].id == newNode.value.id then None else newNode
  }

  /** The epoch count `runUmap` passes to `runUmapAsync`. */
  const Epochs: int := 200

  /**
   * The coordinates `runUmap(forceUpdate)` attaches: the cached ones unless
   * there are none or `forceUpdate` is set, otherwise UMAP over the
   * normalised embeddings, which fails on an empty corpus.
   */
  function UmapCoords(s: State, forceUpdate: bool, fit: seq<seq<real>> -> seq<seq<real>>,
                      advance: seq<seq<real>> -> seq<seq<real>>, sqrt: real -> real): (r: Result<seq<seq<real>>>)
    requires IsSqrt(sqrt)
    requires |s.umapData| == 0 || forceUpdate ==> Rectangular(Embeddings(s.data))
    ensures r.Err? <==> (|s.umapData| == 0 || forceUpdate) && |s.data| == 0
    ensures !forceUpdate && |s.umapData| != 0 ==> r == Ok(s.umapData)
  {
    if |s.umapData| == 0 || forceUpdate then
      if |s.data| == 0 then Err(EmptyInput)
      else Ok(Iterate(advance, fit(Normalized(Embeddings(s.data), sqrt)), Max0(Epochs)))
    else Ok(s.umapData)
  }

  /** The state after the attach step with coordinates `coords`. */
  function Attached(s: State, coords: seq<seq<real>>): (r: State)
    ensures r.umapData == coords && |r.points| == |s.points|
    ensures forall i :: 0 <= i < |s.points| ==>
      r.points[i] == s.points[i].(position := Some([Coord(coords, i, 0), Coord(coords, i, 1), Coord(coords, i, 2)]))
    ensures r.newNode.None? <==> s.newNode.None? || exists i :: 0 <= i < |s.points| && s.points[i].id == s.newNode.value.id
    ensures r.newNode.Some? ==> r.newNode == s.newNode
    ensures r.(points := s.points, umapData := s.umapData, newNode := s.newNode) == s
  {
    PositionedKeepsIds(s.points, coords, s.newNode);
    s.(points := Positioned(s.points, coords), umapData := coords, newNode := Cleared(s.newNode, Positioned(s.points, coords)))
  }

  /**
   * The `transform` of `runUmap(forceUpdate)`: computes or reuses the
   * coordinates, positions every point, caches the coordinates and clears
   * `newNode` once it is on the chart.
   */
  method AttachUmap(s: State, forceUpdate: bool, fit: seq<seq<real>> -> seq<seq<real>>,
                    advance: seq<seq<real>> -> seq<seq<real>>, sqrt: real -> real) returns (r: Result<State>)
    requires IsSqrt(sqrt)
    requires |s.umapData| == 0 || forceUpdate ==> Rectangular(Embeddings(s.data))
    ensures r.Err? <==> UmapCoords(s, forceUpdate, fit, advance, sqrt).Err?
    ensures r.Err? ==> r.error == EmptyInput
    ensures r.Ok? ==> r.value == Attached(s, UmapCoords(s, forceUpdate, fit, advance, sqrt).value)
  {
    var newUmapData: seq<seq<real>>;
    if |s.umapData| == 0 || forceUpdate {
      var embeddings := Embeddings(s.data);
      var normalized := NormalizeEmbeddings(embeddings, sqrt);
      if normalized.Err? {
        return Err(normalized.error);
      }
      var trace;
      newUmapData, trace := RunUmapAsync(normalized.value, Epochs, true, fit, advance);
    } else {
      newUmapData := s.umapData;
    }
    r := Ok(Attached(s, newUmapData));
  }

  /** `embedding.slice(0, 200)` of every record: the input of the PCA. */
  function Truncated(data: seq<Record>): (e: seq<seq<real>>)
    ensures |e| == |data|
  {
    seq(|data|, i requires 0 <= i < |data| =>
      var v := data[i].embedding; if |v| <= 200 then v else v[..200])
  }

  /** `pcaData.data[index][axis]`: absent for the empty selection or a column the row lacks. */
  function AxisValue(row: seq<real>, axis: Option<nat>): (v: Option<real>)
    ensures v.Some? <==> axis.Some? && axis.value < |row|
  {
    if axis.Some? && axis.value < |row| then Some(row[axis.value]) else None
  }

  /** Every point positioned at the selected columns of its PCA row. */
  function PcaPositioned(points: seq<Point>, rows: seq<seq<real>>, axes: seq<Option<nat>>): (r: seq<Point>)
    requires |points| <= |rows| && |axes| == 3
    ensures |r| == |points|
    ensures forall i :: 0 <= i < |r| ==>
      r[i] == points[i].(position := Some([AxisValue(rows[i], axes[0]), AxisValue(rows[i], axes[1]), AxisValue(rows[i], axes[2])]))
  {
    seq(|points|, i requires 0 <= i < |points| =>
      points[i].(position := Some([AxisValue(rows[i], axes[0]), AxisValue(rows[i], axes[1]), AxisValue(rows[i], axes[2])])))
  }

  /** The PCA result the effect uses: the cached one when it has rows, otherwise `pca` of the truncated embeddings. */
  function PcaSource(s: State, pca: seq<seq<real>> -> PcaResult): (r: PcaResult)
    ensures s.pcaData.Some? && |s.pcaData.value.data| != 0 ==> r == s.pcaData.value
    ensures s.pcaData.None? || |s.pcaData.value.data| == 0 ==> r == pca(Truncated(s.data))
  {
    if s.pcaData.Some? && |s.pcaData.value.data| != 0 then s.pcaData.value else pca(Truncated(s.data))
  }

  /**
   * The PCA branch of the effect on `[algorithm, data]`. It does nothing on
   * an empty corpus. The positions are computed with the axes selected
   * before the effect ran (the effect resets them to 0, 1, 2 only
   * afterwards); a PCA result with fewer rows than points makes the read of
   * a missing row throw.
   */
  function AttachPca(s: State, pca: seq<seq<real>> -> PcaResult): (r: Result<State>)
    requires |s.pcaAxes| == 3
    ensures |s.data| == 0 ==> r == Ok(s)
    ensures r.Err? <==> |s.data| != 0 && |PcaSource(s, pca).data| < |s.points|
    ensures r.Ok? && |s.data| != 0 ==>
      && r.value.pcaData == Some(PcaSource(s, pca))
      && r.value.pcaAxes == [Some(0), Some(1), Some(2)]
      && r.value.points == PcaPositioned(s.points, PcaSource(s, pca).data, s.pcaAxes)
  {
    if |s.data| == 0 then Ok(s)
    else
      var newPcaData := PcaSource(s, pca);
      if |newPcaData.data| < |s.points| then Err(IndexOutOfRange)
      else
        var newChartData := PcaPositioned(s.points, newPcaData.data, s.pcaAxes);
        Ok(s.(points := newChartData,
              pcaData := Some(newPcaData),
              pcaAxes := [Some(0), Some(1), Some(2)],
              newNode := Cleared(s.newNode, newChartData)))
  }

  /** The PCA rows cached in the state; none when `pcaData` is the empty object. */
  function CachedRows(s: State): seq<seq<real>> {
    if s.pcaData.Some? then s.pcaData.value.data else []
  }

  /**
   * The body of the effect on the three PCA axes: every point repositioned
   * at the selected columns of its cached PCA row. Reading the row of a
   * point that has none throws.
   */
  function AxesEffect(s: State): (r: Result<State>)
    requires |s.pcaAxes| == 3
    ensures r.Err? <==> |CachedRows(s)| < |s.points|
    ensures r.Err? ==> r.error == IndexOutOfRange
    ensures r.Ok? ==> r.value.pcaAxes == s.pcaAxes && |r.value.points| == |s.points|
    ensures r.Ok? ==> forall i :: 0 <= i < |s.points| ==>
      r.value.points[i] == s.points[i].(position := Some([AxisValue(CachedRows(s)[i], s.pcaAxes[0]),
                                                          AxisValue(CachedRows(s)[i], s.pcaAxes[1]),
                                                          AxisValue(CachedRows(s)[i], s.pcaAxes[2])]))
  {
    var rows := CachedRows(s);
    if |rows| < |s.points| then Err(IndexOutOfRange)
    else Ok(s.(points := PcaPositioned(s.points, rows, s.pcaAxes)))
  }

  /**
   * Selecting `value` for PCA axis `which`. The effect on the three axes
   * only runs when the selection changes.
   */
  function ChangePcaAxis(s: State, which: nat, value: Option<nat>): (r: Result<State>)
    requires which < |s.pcaAxes| == 3
    ensures s.pcaAxes[which] == value ==> r == Ok(s)
    ensures r.Err? <==> s.pcaAxes[which] != value && |s.points| != 0
                        && (s.pcaData.None? || |s.pcaData.value.data| < |s.points|)
    ensures r.Ok? && s.pcaAxes[which] != value ==>
      && r.value.pcaAxes == s.pcaAxes[which := value]
      && |r.value.points| == |s.points|
      && (forall i :: 0 <= i < |s.points| ==>
            r.value.points[i].position == Some([AxisValue(s.pcaData.value.data[i], r.value.pcaAxes[0]),
                                                AxisValue(s.pcaData.value.data[i], r.value.pcaAxes[1]),
                                                AxisValue(s.pcaData.value.data[i], r.value.pcaAxes[2])]))
  {
    if s.pcaAxes[which] == value then Ok(s)
    else AxesEffect(s.(pcaAxes := s.pcaAxes[which := value]))
  }

  /**
   * The PCA branch followed by what React does next: when the reset of the
   * axes to 0, 1, 2 changed the selection, the effect on the axes runs on
   * the new state.
   */
  function PcaBranch(s: State, pca: seq<seq<real>> -> PcaResult): (r: Result<State>)
    requires |s.pcaAxes| == 3
    ensures |s.data| == 0 ==> r == Ok(s)
    ensures r.Err? <==> AttachPca(s, pca).Err?
    ensures r.Err? ==> r.error == IndexOutOfRange
    ensures r.Ok? && |s.data| != 0 ==>
      && r.value.pcaData == Some(PcaSource(s, pca))
      && r.value.pcaAxes == [Some(0), Some(1), Some(2)]
      && r.value.newNode == AttachPca(s, pca).value.newNode
  {
    match AttachPca(s, pca)
    case Err(e) => Err(e)
    case Ok(t) => if t.pcaAxes == s.pcaAxes then Ok(t) else AxesEffect(t)
  }

  // ---------------------------------------------------------------------
  // Re-ranking

  /** `clickedIndex` is truthy: set, and not 0. */
  predicate Focused(s: State): (b: bool)
    ensures b ==> s.clickedIndex.Some?
    ensures s.clickedIndex == Some(0) ==> !b
    ensures s.clickedIndex.Some? && 0 < s.clickedIndex.value ==> b
  {
    s.clickedIndex.Some? && s.clickedIndex.value != 0
  }

  /** `setPointData(coloredData)` and `setPatients(...)` after a successful ranking. */
  function WithRanking(s: State, ranking: Ranking): (r: State)
    ensures r.points == ranking.points && r.patients == ranking.table
    ensures r.(points := s.points, patients := s.patients) == s
  {
    s.(points := ranking.points, patients := ranking.table)
  }

  /**
   * A click on the point at `index` of `pointData` (`-1` when the clicked
   * object is not found). The clicked index and the reference document are
   * set before the ranking runs; when the ranking throws, those two updates
   * are the only ones made.
   */
  function PointClicked(s: State, index: int, sqrt: real -> real): (r: State)
    requires IsSqrt(sqrt)
    requires -1 <= index < |s.points|
    requires index != -1 ==> Measurable(s.points, index, s.distanceType)
    ensures index == -1 ==> r == s
    ensures index != -1 ==> r.clickedIndex == Some(index) && r.referenceDocument == s.points[index].text
    ensures index != -1 && Reranked(s.points, index, s.distanceType, s.neighbors, sqrt).Ok? ==>
      r.points == Reranked(s.points, index, s.distanceType, s.neighbors, sqrt).value.points
      && r.patients == Reranked(s.points, index, s.distanceType, s.neighbors, sqrt).value.table
    ensures index != -1 && Reranked(s.points, index, s.distanceType, s.neighbors, sqrt).Err? ==>
      r == s.(clickedIndex := Some(index), referenceDocument := s.points[index].text)
  {
    if index == -1 then s
    else
      var base := s.(clickedIndex := Some(index), referenceDocument := s.points[index].text);
      match Reranked(s.points, index, s.distanceType, s.neighbors, sqrt)
      case Ok(ranking) => WithRanking(base, ranking)
      case Err(_) => base
  }

  /**
   * The neighbour slider: `neighbors` becomes `k` and the committed change
   * sets `neighborsChanged`. The effect on `neighborsChanged` only runs when
   * the flag was false; it re-ranks when `clickedIndex` is truthy and then
   * clears the flag.
   */
  function NeighborsCommitted(s: State, k: nat, sqrt: real -> real): (r: Result<State>)
    requires IsSqrt(sqrt)
    requires Valid(s)
    requires Focused(s) ==> Measurable(s.points, s.clickedIndex.value, s.distanceType)
    ensures s.neighborsChanged || !Focused(s) ==> r == Ok(s.(neighbors := k, neighborsChanged := true))
    ensures !s.neighborsChanged && Focused(s) ==>
      match Reranked(s.points, s.clickedIndex.value, s.distanceType, k, sqrt)
      case Err(e) => r == Err(e)
      case Ok(ranking) => r == Ok(WithRanking(s.(neighbors := k, neighborsChanged := false), ranking))
  {
    var s1 := s.(neighbors := k, neighborsChanged := true);
    if s.neighborsChanged || !Focused(s1) then Ok(s1)
    else
      match Reranked(s1.points, s1.clickedIndex.value, s1.distanceType, k, sqrt)
      case Err(e) => Err(e)
      case Ok(ranking) => Ok(WithRanking(s1.(neighborsChanged := false), ranking))
  }

  /**
   * A change of metric. The effect on `distanceType` only runs when the
   * metric changes; it re-ranks when `clickedIndex` is truthy and clears
   * `neighborsChanged`.
   */
  function DistanceTypeChanged(s: State, metric: Metric, sqrt: real -> real): (r: Result<State>)
    requires IsSqrt(sqrt)
    requires Valid(s)
    requires Focused(s) ==> Measurable(s.points, s.clickedIndex.value, metric)
    ensures metric == s.distanceType ==> r == Ok(s)
    ensures metric != s.distanceType && !Focused(s) ==> r == Ok(s.(distanceType := metric))
    ensures metric != s.distanceType && Focused(s) ==>
      match Reranked(s.points, s.clickedIndex.value, metric, s.neighbors, sqrt)
      case Err(e) => r == Err(e)
      case Ok(ranking) => r == Ok(WithRanking(s.(distanceType := metric, neighborsChanged := false), ranking))
  {
    if metric == s.distanceType then Ok(s)
    else
      var s1 := s.(distanceType := metric);
      if !Focused(s1) then Ok(s1)
      else
        match Reranked(s1.points, s1.clickedIndex.value, metric, s1.neighbors, sqrt)
        case Err(e) => Err(e)
        case Ok(ranking) => Ok(WithRanking(s1.(neighborsChanged := false), ranking))
  }

  // ---------------------------------------------------------------------
  // Properties of the session

  /** Adding a query point keeps the invariant. */
  lemma AddEmbeddingPreservesValid(s: State, response: Response, color: seq<real>, nodeId: string, recordId: string)
    requires Valid(s)
    ensures Valid(AddEmbedding(s, response, color, nodeId, recordId))
  {
    var r := AddEmbedding(s, response, color, nodeId, recordId);
    if r != s {
      forall i | 0 <= i < |r.data|
        ensures r.data[i].embedding == r.points[i].embedding
      {
        if i < |s.data| {
          assert r.data[i] == s.data[i];
        }
      }
    }
  }

  /**
   * After a query point is added both caches are empty, so the next UMAP
   * attach, forced or not, projects the corpus including the new record, and
   * the next PCA attach recomputes the PCA.
   */
  lemma AddEmbeddingForcesRecompute(s: State, values: seq<real>, color: seq<real>, nodeId: string, recordId: string,
                                    forceUpdate: bool, fit: seq<seq<real>> -> seq<seq<real>>,
                                    advance: seq<seq<real>> -> seq<seq<real>>, pca: seq<seq<real>> -> PcaResult,
                                    sqrt: real -> real)
    requires IsSqrt(sqrt)
    requires s.searchQuery != "" && s.apiKey != ""
    requires Rectangular(Embeddings(s.data + [Record(recordId, s.searchQuery, values)]))
    ensures var r := AddEmbedding(s, Embedding(values), color, nodeId, recordId);
      && r.data == s.data + [Record(recordId, s.searchQuery, values)]
      && UmapCoords(r, forceUpdate, fit, advance, sqrt)
         == Ok(Iterate(advance, fit(Normalized(Embeddings(r.data), sqrt)), Max0(Epochs)))
      && PcaSource(r, pca) == pca(Truncated(r.data))
  {
  }

  /** Attaching coordinates keeps the invariant. */
  lemma AttachedPreservesValid(s: State, coords: seq<seq<real>>)
    requires Valid(s)
    ensures Valid(Attached(s, coords))
  {
  }

  /** The attach step only rewrites `position`: identifiers are kept, so clearing `newNode` is unaffected. */
  lemma PositionedKeepsIds(points: seq<Point>, coords: seq<seq<real>>, newNode: Option<Point>)
    ensures Cleared(newNode, Positioned(points, coords)) == Cleared(newNode, points)
  {
    var q := Positioned(points, coords);
    if newNode.Some? {
      if i :| 0 <= i < |points| && points[i].id == newNode.value.id {
        assert q[i].id == newNode.value.id;
      }
      if i :| 0 <= i < |q| && q[i].id == newNode.value.id {
        assert points[i].id == newNode.value.id;
      }
    }
  }

  /**
   * Once coordinates are cached, a `runUmap()` without `forceUpdate` reuses
   * them and changes nothing more: attaching is idempotent.
   */
  lemma AttachReusesCache(s: State, coords: seq<seq<real>>, fit: seq<seq<real>> -> seq<seq<real>>,
                          advance: seq<seq<real>> -> seq<seq<real>>, sqrt: real -> real)
    requires IsSqrt(sqrt)
    requires |coords| != 0
    ensures UmapCoords(Attached(s, coords), false, fit, advance, sqrt) == Ok(coords)
    ensures Attached(Attached(s, coords), coords) == Attached(s, coords)
  {
    var a := Attached(s, coords);
    PositionedKeepsIds(s.points, coords, s.newNode);
    PositionedKeepsIds(a.points, coords, a.newNode);
    PositionedKeepsIds(s.points, coords, a.newNode);
    assert Positioned(a.points, coords) == a.points;
    if s.newNode.Some? && a.newNode.Some? {
      assert Cleared(s.newNode, s.points) == s.newNode;
    }
  }

  /** The PCA attach keeps the invariant. */
  lemma AttachPcaPreservesValid(s: State, pca: seq<seq<real>> -> PcaResult)
    requires Valid(s)
    requires AttachPca(s, pca).Ok?
    ensures Valid(AttachPca(s, pca).value)
  {
  }

  /**
   * Whatever axes were selected before, once the PCA branch and the axis
   * effect it triggers have run, every point sits at the first three
   * components of its PCA row, and nothing else of it changed.
   */
  lemma PcaBranchShowsLeadingComponents(s: State, pca: seq<seq<real>> -> PcaResult)
    requires |s.pcaAxes| == 3 && |s.data| != 0
    ensures PcaBranch(s, pca).Err? <==> |PcaSource(s, pca).data| < |s.points|
    ensures PcaBranch(s, pca).Ok? ==>
      && PcaBranch(s, pca).value.pcaData == Some(PcaSource(s, pca))
      && PcaBranch(s, pca).value.pcaAxes == [Some(0), Some(1), Some(2)]
      && |PcaBranch(s, pca).value.points| == |s.points|
      && forall i :: 0 <= i < |s.points| ==>
           PcaBranch(s, pca).value.points[i]
             == s.points[i].(position := Some([AxisValue(PcaSource(s, pca).data[i], Some(0)),
                                               AxisValue(PcaSource(s, pca).data[i], Some(1)),
                                               AxisValue(PcaSource(s, pca).data[i], Some(2))]))
  {
    var a := AttachPca(s, pca);
    if a.Ok? {
      var t := a.value;
      var rows := PcaSource(s, pca).data;
      assert CachedRows(t) == rows;
      if t.pcaAxes != s.pcaAxes {
        var r := AxesEffect(t);
        assert r.Ok?;
        forall i | 0 <= i < |s.points|
          ensures r.value.points[i]
            == s.points[i].(position := Some([AxisValue(rows[i], Some(0)), AxisValue(rows[i], Some(1)), AxisValue(rows[i], Some(2))]))
        {
          assert t.points[i] == s.points[i].(position := t.points[i].position);
        }
      }
    }
  }

  /** The whole PCA branch, with the axis effect it triggers, keeps the invariant. */
  lemma PcaBranchPreservesValid(s: State, pca: seq<seq<real>> -> PcaResult)
    requires Valid(s)
    ensures PcaBranch(s, pca).Ok? ==> Valid(PcaBranch(s, pca).value)
  {
    if AttachPca(s, pca).Ok? {
      AttachPcaPreservesValid(s, pca);
    }
  }

  /**
   * The PCA is computed at most once per corpus: after the branch has
   * attached a result with rows, the next run of the effect reuses it,
   * whatever `pca` it is given.
   */
  lemma PcaComputedOnce(s: State, pca: seq<seq<real>> -> PcaResult, pca2: seq<seq<real>> -> PcaResult)
    requires |s.pcaAxes| == 3 && |s.data| != 0
    requires PcaBranch(s, pca).Ok? && |PcaSource(s, pca).data| != 0
    ensures PcaSource(PcaBranch(s, pca).value, pca2) == PcaSource(s, pca)
  {
  }

  /** Changing a PCA axis keeps the invariant. */
  lemma ChangePcaAxisPreservesValid(s: State, which: nat, value: Option<nat>)
    requires Valid(s)
    requires which < 3
    requires ChangePcaAxis(s, which, value).Ok?
    ensures Valid(ChangePcaAxis(s, which, value).value)
  {
  }

  /** Applying a ranking of the state's own points keeps the invariant. */
  lemma WithRankingPreservesValid(s: State, focal: nat, metric: Metric, k: nat, sqrt: real -> real)
    requires IsSqrt(sqrt)
    requires Valid(s)
    requires focal < |s.points|
    requires Measurable(s.points, focal, metric)
    requires Reranked(s.points, focal, metric, k, sqrt).Ok?
    ensures Valid(WithRanking(s, Reranked(s.points, focal, metric, k, sqrt).value))
  {
    RerankedOnlyColors(s.points, focal, metric, k, sqrt);
  }

  /** A click keeps the invariant, whether or not it re-ranks. */
  lemma ClickPreservesValid(s: State, index: int, sqrt: real -> real)
    requires IsSqrt(sqrt)
    requires Valid(s)
    requires -1 <= index < |s.points|
    requires index != -1 ==> Measurable(s.points, index, s.distanceType)
    ensures Valid(PointClicked(s, index, sqrt))
  {
    if index != -1 && Reranked(s.points, index, s.distanceType, s.neighbors, sqrt).Ok? {
      WithRankingPreservesValid(s.(clickedIndex := Some(index), referenceDocument := s.points[index].text),
                                index, s.distanceType, s.neighbors, sqrt);
    }
  }

  /** A committed neighbour count keeps the invariant when the handler succeeds. */
  lemma CommitPreservesValid(s: State, k: nat, sqrt: real -> real)
    requires IsSqrt(sqrt)
    requires Valid(s)
    requires Focused(s) ==> Measurable(s.points, s.clickedIndex.value, s.distanceType)
    ensures NeighborsCommitted(s, k, sqrt).Ok? ==> Valid(NeighborsCommitted(s, k, sqrt).value)
  {
    if Focused(s) {
      var f := s.clickedIndex.value;
      if Reranked(s.points, f, s.distanceType, k, sqrt).Ok? {
        WithRankingPreservesValid(s.(neighbors := k, neighborsChanged := false), f, s.distanceType, k, sqrt);
      }
    }
  }

  /** A change of metric keeps the invariant when the handler succeeds. */
  lemma MetricChangePreservesValid(s: State, metric: Metric, sqrt: real -> real)
    requires IsSqrt(sqrt)
    requires Valid(s)
    requires Focused(s) ==> Measurable(s.points, s.clickedIndex.value, metric)
    ensures DistanceTypeChanged(s, metric, sqrt).Ok? ==> Valid(DistanceTypeChanged(s, metric, sqrt).value)
  {
    if Focused(s) {
      var f := s.clickedIndex.value;
      if Reranked(s.points, f, metric, s.neighbors, sqrt).Ok? {
        WithRankingPreservesValid(s.(distanceType := metric, neighborsChanged := false), f, metric, s.neighbors, sqrt);
      }
    }
  }

  /**
   * A click on a corpus with no more points than the neighbour count ranks
   * nothing: `colorizeClosestNodes` reads past the end of `distances`, so
   * only the selection and the reference document change. With the
   * starting count of 1000 this is every corpus of at most 1000 points.
   */
  lemma ClickOnSmallCorpusOnlySelects(s: State, index: nat, sqrt: real -> real)
    requires IsSqrt(sqrt)
    requires index < |s.points| <= s.neighbors
    requires Measurable(s.points, index, s.distanceType)
    ensures PointClicked(s, index, sqrt) == s.(clickedIndex := Some(index), referenceDocument := s.points[index].text)
    ensures PointClicked(s, index, sqrt).points == s.points && PointClicked(s, index, sqrt).patients == s.patients
  {
  }

  // ---------------------------------------------------------------------
  // The re-ranking guards as written, and as intended

  /**
   * As written, the guard `distanceType && clickedIndex` treats a focal
   * point at index 0 as no focal point: after a click on point 0 a change
   * of metric keeps the colours and the table of the old metric.
   */
  lemma FocalZeroIgnoresMetricChange(s: State, metric: Metric, sqrt: real -> real)
    requires IsSqrt(sqrt)
    requires Valid(s)
    requires s.clickedIndex == Some(0) && metric != s.distanceType
    ensures DistanceTypeChanged(s, metric, sqrt) == Ok(s.(distanceType := metric))
    ensures DistanceTypeChanged(s, metric, sqrt).value.patients == s.patients
    ensures DistanceTypeChanged(s, metric, sqrt).value.points == s.points
  {
  }

  /**
   * As written, a committed change of the neighbour count made while no
   * point is focused leaves `neighborsChanged` set; React then skips the
   * effect for every later commit, so after a click on point `i` a new
   * count `k2` leaves the table of the old count `k1`.
   */
  lemma SecondCommitIgnored(s: State, i: nat, k1: nat, k2: nat, sqrt: real -> real)
    requires IsSqrt(sqrt)
    requires Valid(s)
    requires s.clickedIndex.None? && !s.neighborsChanged
    requires 0 < i < |s.points|
    requires Measurable(s.points, i, s.distanceType)
    requires Reranked(s.points, i, s.distanceType, k1, sqrt).Ok?
    ensures var s1 := NeighborsCommitted(s, k1, sqrt);
      && s1 == Ok(s.(neighbors := k1, neighborsChanged := true))
      && var s2 := PointClicked(s1.value, i, sqrt);
         && Valid(s2) && Focused(s2)
         && s2.patients == Reranked(s.points, i, s.distanceType, k1, sqrt).value.table
         && var s3 := NeighborsCommitted(s2, k2, sqrt);
            && s3 == Ok(s2.(neighbors := k2, neighborsChanged := true))
            && s3.value.neighbors == k2
            && |s3.value.patients| == k1
  {
    var s1 := NeighborsCommitted(s, k1, sqrt).value;
    ClickPreservesValid(s1, i, sqrt);
  }

  /**
   * The neighbour-count change as evidently intended: whenever a point is
   * focused (point 0 included, whatever the state of the flag) the ranking
   * is redone with the new count.
   */
  function NeighborsCommittedIntended(s: State, k: nat, sqrt: real -> real): (r: Result<State>)
    requires IsSqrt(sqrt)
    requires Valid(s)
    requires s.clickedIndex.Some? ==> Measurable(s.points, s.clickedIndex.value, s.distanceType)
    ensures s.clickedIndex.None? ==> r == Ok(s.(neighbors := k, neighborsChanged := false))
    ensures s.clickedIndex.Some? ==>
      (r.Err? <==> Reranked(s.points, s.clickedIndex.value, s.distanceType, k, sqrt).Err?)
    ensures s.clickedIndex.Some? && r.Ok? ==>
      && r.value.neighbors == k
      && |r.value.patients| == k
      && r.value.patients == Reranked(s.points, s.clickedIndex.value, s.distanceType, k, sqrt).value.table
      && r.value.points == Reranked(s.points, s.clickedIndex.value, s.distanceType, k, sqrt).value.points
  {
    var s1 := s.(neighbors := k, neighborsChanged := false);
    if s.clickedIndex.None? then Ok(s1)
    else
      match Reranked(s.points, s.clickedIndex.value, s.distanceType, k, sqrt)
      case Err(e) => Err(e)
      case Ok(ranking) => Ok(WithRanking(s1, ranking))
  }

  /** The metric change as evidently intended: any focused point, point 0 included, is re-ranked. */
  function DistanceTypeChangedIntended(s: State, metric: Metric, sqrt: real -> real): (r: Result<State>)
    requires IsSqrt(sqrt)
    requires Valid(s)
    requires s.clickedIndex.Some? ==> Measurable(s.points, s.clickedIndex.value, metric)
    ensures metric == s.distanceType ==> r == Ok(s)
    ensures metric != s.distanceType && s.clickedIndex.None? ==> r == Ok(s.(distanceType := metric))
    ensures metric != s.distanceType && s.clickedIndex.Some? ==>
      (r.Err? <==> Reranked(s.points, s.clickedIndex.value, metric, s.neighbors, sqrt).Err?)
    ensures metric != s.distanceType && s.clickedIndex.Some? && r.Ok? ==>
      && r.value.distanceType == metric
      && r.value.patients == Reranked(s.points, s.clickedIndex.value, metric, s.neighbors, sqrt).value.table
      && r.value.points == Reranked(s.points, s.clickedIndex.value, metric, s.neighbors, sqrt).value.points
  {
    if metric == s.distanceType then Ok(s)
    else
      var s1 := s.(distanceType := metric);
      if s.clickedIndex.None? then Ok(s1)
      else
        match Reranked(s.points, s.clickedIndex.value, metric, s.neighbors, sqrt)
        case Err(e) => Err(e)
        case Ok(ranking) => Ok(WithRanking(s1.(neighborsChanged := false), ranking))
  }

  /**
   * With the intended guards, a focused point (point 0 included) is never
   * left with the table of a stale count: after the commit the table has
   * exactly `k` rows, the first `k` entries of the ranking.
   */
  lemma IntendedCommitRefreshes(s: State, k: nat, sqrt: real -> real)
    requires IsSqrt(sqrt)
    requires Valid(s)
    requires s.clickedIndex.Some?
    requires Measurable(s.points, s.clickedIndex.value, s.distanceType)
    requires SameDimension(s.points, s.clickedIndex.value) && k < |s.points|
    ensures NeighborsCommittedIntended(s, k, sqrt).Ok?
    ensures |NeighborsCommittedIntended(s, k, sqrt).value.patients| == k
    ensures Valid(NeighborsCommittedIntended(s, k, sqrt).value)
  {
    WithRankingPreservesValid(s.(neighbors := k, neighborsChanged := false), s.clickedIndex.value, s.distanceType, k, sqrt);
  }
}
