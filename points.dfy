/**
 * The point records of src/App.jsx: one `Point` per entry of `pointData`
 * (the rendered corpus) and one `Record` per entry of `data` (the raw corpus
 * that projections are computed from), together with the fixed colours the
 * explorer paints them with.
 */
module Points {
  import opened Common

  /**
   * One entry of `pointData`. `metric` is the value the last neighbour
   * ranking wrote (absent until a ranking paints the point) and `position`
   * the projected coordinates (absent until a projection is attached); each
   * coordinate is absent when the projection has no row or column for it.
   */
  datatype Point = Point(
    id: string,
    patientId: string,
    cancerType: string,
    text: string,
    embedding: seq<real>,
    originalColor: seq<real>,
    color: seq<real>,
    metric: Option<real>,
    position: Option<seq<Option<real>>>)

  /** One entry of `data`: the fields a projection reads. */
  datatype Record = Record(id: string, text: string, embedding: seq<real>)

  /** The neutral light grey every non-highlighted point is reset to. */
  const Grey: seq<real> := [200.0, 200.0, 200.0, 64.0]

  /** The highlight colour of the focal point (its alpha 256 is as written). */
  const Red: seq<real> := [255.0, 0.0, 0.0, 256.0]

  /** `pointData.map(point => ({...point, color: [200, 200, 200, 64]}))`. */
  function Greyed(points: seq<Point>): (r: seq<Point>)
    ensures |r| == |points|
    ensures forall i :: 0 <= i < |r| ==> r[i] == points[i].(color := Grey)
  {
    seq(|points|, i requires 0 <= i < |points| => points[i].(color := Grey))
  }
}
