/**
 * Per-shape change detection.  Each path-data variant asks the keyframe
 * tracks of exactly its own parameters whether they changed between two
 * frames, and reports a change when any of them did.
 */
module ShapeChange {

  /**
   * One keyframed property of the animation data.  `changed(prev, cur)`
   * is the data model's own query (keyframe interpolation is not part of
   * this model), so it is kept as an arbitrary predicate.
   */
  datatype Track = Track(changed: (int, int) -> bool)

  datatype RectData = RectData(pos: Track, size: Track, round: Track)
  datatype EllipseData = EllipseData(pos: Track, size: Track)
  datatype ShapeData = ShapeData(shape: Track)
  datatype PolystarData = PolystarData(
    pos: Track, pointCount: Track, innerRadius: Track, outerRadius: Track,
    innerRoundness: Track, outerRoundness: Track, rotation: Track)

  /** The path-data variants, one constructor per subclass. */
  datatype PathShape =
    | Rect(rect: RectData)
    | Ellipse(ellipse: EllipseData)
    | Shape(data: ShapeData)
    | Polystar(star: PolystarData)

  /** The reference meaning of a change: some track in `tracks` reports one. */
  ghost predicate SomeTrackChanged(tracks: seq<Track>, prev: int, cur: int) {
    exists i :: 0 <= i < |tracks| && tracks[i].changed(prev, cur)
  }

  /** The tracks each variant consults, in the order its disjunction consults them. */
  function Tracks(s: PathShape): (ts: seq<Track>)
    ensures |ts| == match s
      case Rect(_) => 3
      case Ellipse(_) => 2
      case Shape(_) => 1
      case Polystar(_) => 7
  {
    match s
    case Rect(d) => [d.pos, d.size, d.round]
    case Ellipse(d) => [d.pos, d.size]
    case Shape(d) => [d.shape]
    case Polystar(d) =>
      [d.pos, d.pointCount, d.innerRadius, d.outerRadius,
       d.innerRoundness, d.outerRoundness, d.rotation]
  }

  function RectChanged(d: RectData, prev: int, cur: int): (r: bool)
    ensures r <==> SomeTrackChanged(Tracks(Rect(d)), prev, cur)
  {
    var ts := Tracks(Rect(d));
    assert ts[0] == d.pos && ts[1] == d.size && ts[2] == d.round;
    d.pos.changed(prev, cur) || d.size.changed(prev, cur) || d.round.changed(prev, cur)
  }

  function EllipseChanged(d: EllipseData, prev: int, cur: int): (r: bool)
    ensures r <==> SomeTrackChanged(Tracks(Ellipse(d)), prev, cur)
  {
    var ts := Tracks(Ellipse(d));
    assert ts[0] == d.pos && ts[1] == d.size;
    d.pos.changed(prev, cur) || d.size.changed(prev, cur)
  }

  function ShapeChanged(d: ShapeData, prev: int, cur: int): (r: bool)
    ensures r <==> SomeTrackChanged(Tracks(Shape(d)), prev, cur)
  {
    var ts := Tracks(Shape(d));
    assert ts[0] == d.shape;
    d.shape.changed(prev, cur)
  }

  function PolystarChanged(d: PolystarData, prev: int, cur: int): (r: bool)
    ensures r <==> SomeTrackChanged(Tracks(Polystar(d)), prev, cur)
  {
    var ts := Tracks(Polystar(d));
    assert ts[0] == d.pos && ts[1] == d.pointCount && ts[2] == d.innerRadius
      && ts[3] == d.outerRadius && ts[4] == d.innerRoundness
      && ts[5] == d.outerRoundness && ts[6] == d.rotation;
    d.pos.changed(prev, cur) || d.pointCount.changed(prev, cur)
    || d.innerRadius.changed(prev, cur) || d.outerRadius.changed(prev, cur)
    || d.innerRoundness.changed(prev, cur) || d.outerRoundness.changed(prev, cur)
    || d.rotation.changed(prev, cur)
  }

  /** The virtual `hasChanged(prevFrame, curFrame)`, dispatched on the variant. */
  function HasChanged(s: PathShape, prev: int, cur: int): (r: bool)
    ensures r <==> SomeTrackChanged(Tracks(s), prev, cur)
  {
    match s
    case Rect(d) => RectChanged(d, prev, cur)
    case Ellipse(d) => EllipseChanged(d, prev, cur)
    case Shape(d) => ShapeChanged(d, prev, cur)
    case Polystar(d) => PolystarChanged(d, prev, cur)
  }
}
