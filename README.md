# Frame-change caching in the rlottie scene graph

This project models, in Dafny, the logic that `src/lottie/lottieitem.h` of the
rlottie animation player writes inline. That logic decides, frame by frame,
which parts of the live item tree must be recomputed:

- the `DirtyFlagBit` set (Matrix, Alpha, and their union All) that an update
  passes down the tree;
- the initial state of a layer item and its matte test;
- the frame cache of a path-data item (`LOTPathDataItem`), which remembers the
  last requested frame and decides whether the path must be regenerated;
- the change predicate of each path-data variant (rectangle, ellipse, free-form
  shape, polystar);
- the trim item's check whether any path it trims is dirty, and its initial
  segment cache.

Modules:

- `DirtyFlags`: the bit values as `bv8` and their inverse.
- `ShapeChange`: the keyframe tracks and the per-variant change predicates.
- `PathCache`: the cache decision as a pure function, and what a run of
  successive calls decides.
- `PathItems`: the `PathDataItem` class.
- `Trim`: the `TrimItem` class and its cache.
- `Layers`: the `LayerItem` class.
- `Wrappers`: an `Option` type.

The data model answers "did this property change between frame A and frame B"
(`changed(prev, cur)`). That query is external, so each `Track` holds it as an
arbitrary predicate. `VPath` is an opaque type that is only compared for
equality. Each C++ subclass with its own `mData` becomes one constructor of the
`PathShape` datatype, held by one `PathDataItem` class. The virtual
`hasChanged(prevFrame, curFrame)` becomes a `match` over that datatype.

Behaviour the code shows that is easy to miss:

- `localPath()` returns `mTemp`, the path that `updatePath` installs.
  It does not return `mLocalPath`.
- `hasChanged(frameNo)` records the frame before it decides, so it always
  records it, whatever it returns.
- The frame number -1 doubles as "never evaluated". Asking for frame -1 makes
  the next call regenerate, even for a static path and a repeated frame
  (`PathCache.MinusOneResetsCache`). Hence the static and idempotence
  properties are stated for real frame numbers, which are never -1.

## Model

| member | source | states |
|---|---|---|
| `DirtyFlags.Value` | src/lottie/lottieitem.h:37-43 | every enumerator's value fits in the two low bits, and only None is zero |
| `DirtyFlags.FromValue` | src/lottie/lottieitem.h:37-43 | a value names an enumerator exactly when it is at most 0x03, and then that enumerator's value is the given value |
| `DirtyFlags.ValueRoundTrip` | src/lottie/lottieitem.h:37-43 | decoding an enumerator's value gives back that enumerator |
| `DirtyFlags.ValueInjective` | src/lottie/lottieitem.h:37-43 | two enumerators have the same value exactly when they are the same |
| `DirtyFlags.AllIsUnionOfDisjointBits` | src/lottie/lottieitem.h:40-42 | All is Matrix \| Alpha; Matrix and Alpha are non-empty and disjoint |
| `DirtyFlags.NoneIsEmpty` | src/lottie/lottieitem.h:39 | every flag includes None, and None includes no bit but itself |
| `DirtyFlags.AllIncludesEveryBit` | src/lottie/lottieitem.h:42 | All includes every bit; a flag includes All exactly when it includes both Matrix and Alpha |
| `ShapeChange.Tracks` | src/lottie/lottieitem.h:318-366 | each variant consults 3 (rect), 2 (ellipse), 1 (shape) or 7 (polystar) tracks |
| `ShapeChange.RectChanged` | src/lottie/lottieitem.h:318-322 | a rectangle changed exactly when one of its position, size and roundness tracks changed |
| `ShapeChange.EllipseChanged` | src/lottie/lottieitem.h:332-335 | an ellipse changed exactly when its position or size track changed |
| `ShapeChange.ShapeChanged` | src/lottie/lottieitem.h:345-347 | a free-form shape changed exactly when its shape track changed |
| `ShapeChange.PolystarChanged` | src/lottie/lottieitem.h:358-366 | a polystar changed exactly when one of its seven tracks changed (position, point count, inner and outer radius, inner and outer roundness, rotation) |
| `ShapeChange.HasChanged` | src/lottie/lottieitem.h:291 | the dispatched per-variant query reports a change exactly when some track of that variant reports one |
| `PathCache.FirstCallRecomputes` | src/lottie/lottieitem.h:296 | an item that remembers frame -1 always regenerates, static or not |
| `PathCache.StaticNeverRecomputesAgain` | src/lottie/lottieitem.h:297-298 | for a remembered frame other than -1, a static item never regenerates, whatever the frame |
| `PathCache.SameFrameIsNoOp` | src/lottie/lottieitem.h:297-298 | for a remembered frame other than -1, asking for that same frame again never regenerates |
| `PathCache.DynamicFollowsTracks` | src/lottie/lottieitem.h:299 | for a dynamic item and a new frame, it regenerates exactly when some track changed between the remembered frame and the new one |
| `PathCache.Replay` | src/lottie/lottieitem.h:293-300 | a run of calls yields one decision per requested frame |
| `PathCache.ReplayAt` | src/lottie/lottieitem.h:294-295 | call i of a run decides from the frame that call i-1 recorded, or from the item's frame when i is 0 |
| `PathCache.StaticReplay` | src/lottie/lottieitem.h:296-298 | over real frames, call i of a static item regenerates exactly when i is 0 and the item was fresh |
| `PathCache.StaticRegeneratesAtMostOnce` | src/lottie/lottieitem.h:296-298 | over real frames, a static item regenerates once in a run if it was fresh and the run is non-empty, and otherwise never |
| `PathCache.DynamicReplay` | src/lottie/lottieitem.h:296-299 | call i of a dynamic item regenerates exactly when the previous frame is -1, or when it differs from frame i and some track changed between the two |
| `PathCache.RepeatedFrameIsNoOp` | src/lottie/lottieitem.h:297-298 | a call that repeats its predecessor's real frame never regenerates |
| `PathCache.MinusOneResetsCache` | src/lottie/lottieitem.h:294-296 | after a call for frame -1, the next call regenerates, whatever the item and frame |
| `PathItems.PathDataItem.constructor` | src/lottie/lottieitem.h:282-307 | a fresh item remembers frame -1, is dirty (`dirty()`) and needs an update, reports the static classification it was given (`staticPath()`), and has empty paths, so `localPath()` is empty |
| `PathItems.PathDataItem.UpdatePath` | src/lottie/lottieitem.h:287 | afterwards `localPath()` is the new path, `dirty()` is true and the item needs an update; the frame, the generated and final paths and the static flag are unchanged |
| `PathItems.PathDataItem.HasChanged` | src/lottie/lottieitem.h:293-300 | records the requested frame whatever it returns; returns true when the remembered frame is -1; otherwise false when static or the frame repeats, and else whether some track changed; nothing else changes |
| `Trim.TrimItem.constructor` | src/lottie/lottieitem.h:476-483 | a fresh trim has a cache for frame -1 with a zero segment, no registered path items, and is dirty |
| `Trim.TrimItem.PathDirty` | src/lottie/lottieitem.h:469-475 | returns true exactly when some registered path item is dirty, and modifies nothing |
| `Layers.LayerItem.constructor` | src/lottie/lottieitem.h:125-127 | a fresh layer remembers frame -1, carries the All flag (both Matrix and Alpha), and is not static |
| `Layers.HasMatteIffStencilMode` | src/lottie/lottieitem.h:102 | a layer has a matte exactly when its matte type is one of Alpha, AlphaInv, Luma, LumaInv |

## Left out

- Every method whose body is in `lottieitem.cpp`, which is not part of this model. That covers the path-data item's own `update` (src/lottie/lottieitem.h:283), the only code that calls `hasChanged(int)` and can clear `mPathChanged`, so in this model `pathChanged` is only ever raised, never cleared. It also covers the updates of the composition, layers, content groups, paint items, trims, repeaters and masks, and all renderList, render, buildLayerNode, buildRenderTree, applyTrim, processTrimItems, processPaintItems, maskRle and rle. It also covers `finalPath`, the geometry `updatePath(VPath&, int)`, both `addPathItems` and the constructors' bodies. As a result, the trim's `pathItems` are only ever set by the constructor. `PathDirty` is stated for any list of registered items.
- Layer, mask, clipper and content-item accessors and setters other than `hasMatte` (`id`, `parentId`, `setParentLayer`, `setPrecompLayer`, `setParent`, `matrix`, `isStatic`, `maskMode`): they forward fields of data that is not modelled.
- Geometry (`VPath`, `VMatrix`, `VRect`, `VSize`, `VRle`): external code. `VPath` is an opaque type compared by equality, and the empty path is an unspecified constant of it.
- Keyframe interpolation and `changed(prev, cur)`: owned by `lottiemodel.h`, which is not part of this model. Each track's query is an arbitrary predicate.
- `MatteType` and the trim `Segment`: also defined in `lottiemodel.h`. The model takes `MatteType` as None plus four stencil modes (alpha, inverted alpha, luma, inverted luma), and `Segment{}` as a zero start and end.
- Floating-point state (`mCombinedAlpha`, opacity, widths, miter limits, dash arrays) and colours and gradients: only their initial values would be modelled, and nothing here reads them.
- The asynchronous region futures (`RleShare`) and all concurrency.
- `LOTDrawable`'s destructor, which frees gradient stops: manual memory management has no counterpart in Dafny.
- The vFlag template behind `DirtyFlag` (vglobal.h) is not part of this model. A flag is its `bv8` value, and containment is the bitwise test `Includes`.
