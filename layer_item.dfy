/**
 * What a layer item holds before its first update, and its matte test.
 */
module Layers {
  import DirtyFlags

  /** The frame number remembered by a layer that has never been processed. */
  const NeverProcessed := -1

  /** How a layer is stencilled by the layer before it, if at all. */
  datatype MatteType = None | Alpha | AlphaInv | Luma | LumaInv

  class LayerItem {
    /** The matte type of the layer's data. */
    const matteType: MatteType
    /** The frame last processed. */
    var frameNo: int
    /** The flags passed down on the next update. */
    var dirtyFlag: DirtyFlags.uchar
    var isStatic: bool

    constructor (matteType: MatteType)
      ensures this.matteType == matteType
      ensures frameNo == NeverProcessed
      ensures dirtyFlag == DirtyFlags.Value(DirtyFlags.All)
      ensures DirtyFlags.Includes(dirtyFlag, DirtyFlags.Matrix) && DirtyFlags.Includes(dirtyFlag, DirtyFlags.Alpha)
      ensures !isStatic
    {
      this.matteType := matteType;
      frameNo := NeverProcessed;
      dirtyFlag := DirtyFlags.Value(DirtyFlags.All);
      isStatic := false;
    }

    /** A layer has a matte exactly when its matte type is not None. */
    predicate HasMatte() {
      if matteType == MatteType.None then false else true
    }
  }

  /** A layer has a matte exactly when it is stencilled by an alpha or luma mode. */
  lemma HasMatteIffStencilMode(layer: LayerItem)
    ensures layer.HasMatte()
       <==> layer.matteType in {MatteType.Alpha, MatteType.AlphaInv, MatteType.Luma, MatteType.LumaInv}
  {
  }
}
