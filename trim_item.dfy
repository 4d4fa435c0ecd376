/**
 * The trim item's bookkeeping: the frame-keyed cache of its segment and the
 * query whether any path item it trims has a changed path.
 */
module Trim {
  import opened PathItems
  import PathCache

  /** A trim segment: the fraction of each path kept, from `start` to `end`. */
  datatype Segment = Segment(start: real, end: real)

  /** The segment computed last and the frame it was computed for. */
  datatype Cache = Cache(frameNo: int, segment: Segment)

  /** A cache that holds nothing yet: no frame, a value-initialised segment. */
  const InitialCache := Cache(PathCache.NoFrame, Segment(0.0, 0.0))

  class TrimItem {
    var cache: Cache
    /** The path items registered with this trim, in registration order. */
    var pathItems: seq<PathDataItem>
    var dirty: bool

    constructor ()
      ensures cache == InitialCache && cache.frameNo == PathCache.NoFrame
      ensures pathItems == [] && dirty
    {
      cache := InitialCache;
      pathItems := [];
      dirty := true;
    }

    /** Whether some registered path item's path is dirty; changes nothing. */
    method PathDirty() returns (r: bool)
      ensures r <==> exists i :: 0 <= i < |pathItems| && pathItems[i].Dirty()
    {
      for i := 0 to |pathItems|
        invariant forall j :: 0 <= j < i ==> !pathItems[j].Dirty()
      {
        if pathItems[i].Dirty() {
          return true;
        }
      }
      return false;
    }
  }
}
