/**
 * A path-data item: the leaf of a shape layer's content tree that generates
 * a path, together with the frame cache that decides when the path must be
 * regenerated and the dirty flag its trim and paint consumers read.
 */
module PathItems {
  import opened ShapeChange
  import opened PathCache

  /** A geometry path.  Path building is external; paths are only compared. */
  type VPath(==, 0)

  /** The default-constructed (empty) path every path field starts as. */
  const EmptyPath: VPath

  class PathDataItem {
    /** The variant and its keyframe data. */
    const shape: PathShape
    /** Whether the underlying geometry has no keyframes, fixed at construction. */
    const staticPath: bool

    var localPath: VPath
    /** The path installed by the last `UpdatePath`, which `LocalPath` reports. */
    var temp: VPath
    var finalPath: VPath
    /** The frame the cache was last asked about. */
    var frameNo: int
    var pathChanged: bool
    var needUpdate: bool

    constructor (shape: PathShape, staticPath: bool)
      ensures this.shape == shape && this.staticPath == staticPath
      ensures frameNo == NoFrame && pathChanged && needUpdate
      ensures localPath == EmptyPath && temp == EmptyPath && finalPath == EmptyPath
      ensures Dirty() && LocalPath() == EmptyPath && StaticPath() == staticPath
    {
      this.shape := shape;
      this.staticPath := staticPath;
      localPath, temp, finalPath := EmptyPath, EmptyPath, EmptyPath;
      frameNo := NoFrame;
      pathChanged, needUpdate := true, true;
    }

    /** Whether the path changed since consumers last looked. */
    function Dirty(): bool
      reads this
    {
      pathChanged
    }

    /** The path installed last, not the one generated into `localPath`. */
    function LocalPath(): VPath
      reads this
    {
      temp
    }

    function StaticPath(): bool {
      staticPath
    }

    /** Installs a new path and marks it as changed and as needing an update. */
    method UpdatePath(path: VPath)
      modifies this
      ensures LocalPath() == path && Dirty() && needUpdate
      ensures frameNo == old(frameNo)
      ensures localPath == old(localPath) && finalPath == old(finalPath)
    {
      temp := path;
      pathChanged := true;
      needUpdate := true;
    }

    /**
     * Records `f` as the current frame and says whether the path must be
     * regenerated for it.
     */
    method HasChanged(f: int) returns (r: bool)
      modifies this`frameNo
      ensures frameNo == f
      ensures r == ShouldRecompute(old(frameNo), f, staticPath, shape)
      ensures old(frameNo) == NoFrame ==> r
      ensures old(frameNo) != NoFrame && (staticPath || old(frameNo) == f) ==> !r
      ensures old(frameNo) != NoFrame && old(frameNo) != f && !staticPath
              ==> (r <==> SomeTrackChanged(Tracks(shape), old(frameNo), f))
    {
      var prevFrame := frameNo;
      frameNo := f;
      if prevFrame == NoFrame {
        return true;
      }
      if staticPath || prevFrame == f {
        return false;
      }
      return ShapeChange.HasChanged(shape, prevFrame, f);
    }
  }
}
