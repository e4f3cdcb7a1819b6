# Terrain placement and DXF registry — a Dafny model

This project models the sequential core of a small three.js scene:

- **Terrain height lookup** (`terrain.dfy`, module `Terrain`). The ground
  (`Boden`) is a plane mesh whose vertex positions are one flat array
  `[x0, y0, z0, x1, y1, z1, …]`. The mesh is rotated a quarter turn about the
  x axis, so a vertex's world height is its negated local z. `GetHeightAt`
  scans the array with stride 3. It keeps the first vertex that is strictly
  closer in the plane to the query point, and answers that vertex's negated
  z, or 0 when there is no vertex. The specification function `HeightAt`
  reads the array as a sequence of `Vertex` values (`Vertices`). `Nearest`
  is the scan's choice, and `IsNearest` characterises it independently.
- **Object placement** (`placer.dfy`, module `Placer`). `ObjectPlacer`
  queries the terrain below the four footprint corners (`GetBottomPoints`).
  It also queries a grid of offsets spaced 0.5 apart under the footprint,
  x outer and z inner (`GetSamplePoints`). `PlaceObject` then moves the
  object horizontally to the anchor `(x, y)`. It shifts the object
  vertically so that the lowest point of its bounding box lands on the
  highest sampled terrain height. The grid and the final position are
  specification functions (`SampleGrid`, `RestingPosition`) over an
  arbitrary height function. The methods are proved equal to them for the
  terrain's own height function (`HeightField`).
- **DXF element registry** (`dxf_loader.dfy`, module `DxfLoader`). A
  `DxfElement` holds one loaded drawing (known by its uuid) and a
  bounding-box helper that is absent, or present and visible or hidden. A
  `DxfLoaderManager` keeps its elements in a list, and also in a dictionary
  keyed by entity uuid. The registry invariant `Registered` is kept by every
  operation: every element has an entity, no element is stored twice, and
  every dictionary entry is a stored element under its own uuid. The
  stronger `OneToOne` property says that every element is found under its
  own uuid. It is kept as long as the uuids added are new.

Throwing constructors are modelled by static `Create` methods that return a
`Result`. JavaScript's `null` is `Option.None`, and `Infinity` as the
initial best distance is `Extended.Infinity`.

## Model

| member | source | states |
|---|---|---|
| Terrain.VerticesAt | boden.js:31-34 | vertex k consists of the array entries 3k, 3k+1 and 3k+2; there are length/3 complete vertices |
| Terrain.Nearest | boden.js:37-40 | the vertex kept after scanning n vertices is one of those n |
| Terrain.NearestIsNearest | boden.js:31-41 | the kept vertex has minimal planar distance to the query point among all scanned vertices, and every earlier vertex is strictly farther (ties go to the earliest, because the comparison is strict) |
| Terrain.NearestCharacterized | boden.js:37 | a vertex is the earliest closest one if and only if it is the scan's choice |
| Terrain.HeightAtSpec | boden.js:28-43 | without a complete vertex the height is 0; otherwise it is the negated z of a vertex that is the earliest closest one |
| Terrain.NearestIgnoresHeights | boden.js:32-37 | two arrays with the same x and y entries lead to the same chosen vertex, whatever their z entries |
| Terrain.HeightAtIgnoresOtherHeights | boden.js:32-39 | changing z entries changes the height only through the chosen vertex's own z |
| Terrain.Boden.constructor | boden.js:6 | the terrain's position buffer holds exactly the supplied coordinates, three per vertex |
| Terrain.Boden.GetHeightAt | boden.js:26-44 | the stride-3 scan with its `closestZ`/`closestDistance` accumulators returns `HeightAt` of the buffer; it modifies nothing, so equal queries give equal answers |
| Placer.BottomPoints | objectPlacer.js:75-82 | exactly four points, at (x−hw, y−hd), (x+hw, y−hd), (x−hw, y+hd), (x+hw, y+hd) in their x and z components, each with the terrain height below it |
| Placer.ObjectPlacer.GetBottomPoints | objectPlacer.js:75-82 | the four height queries produce `BottomPoints` for the terrain's height function |
| Placer.StepsIsGuard | objectPlacer.js:89-90 | the loop guard `i <= h` holds for the k-th offset −h + 0.5k exactly while k < ⌊2h/0.5⌋ + 1, so each loop runs that many times (none for negative h) |
| Placer.OffsetInRange | objectPlacer.js:89-90 | every offset the loop body sees lies in [−h, h] |
| Placer.SampleColumnAt | objectPlacer.js:90-93 | the inner loop yields its samples in order, the b-th at z offset −hd + 0.5b |
| Placer.SampleRowsLength | objectPlacer.js:89-94 | m outer iterations yield m · Steps(hd) samples |
| Placer.SampleRowsAt | objectPlacer.js:89-94 | the b-th sample of the a-th outer iteration comes right after the samples of the first a iterations |
| Placer.SampleRowsWellFormed | objectPlacer.js:89-94 | samples of the first m outer iterations lie on the surface and in the footprint, in strictly ascending (x, z) order |
| Placer.SampleGridSpec | objectPlacer.js:84-97 | the sample list has (⌊2hw/0.5⌋+1)·(⌊2hd/0.5⌋+1) points, each on the surface, each within [x−hw, x+hw] × [y−hd, y+hd], in strictly ascending (x, z) order |
| Placer.SampleGridAt | objectPlacer.js:89-92 | the sample for the a-th x offset and b-th z offset is at index a·Steps(hd) + b, with x-offset loop outer and z-offset loop inner |
| Placer.SampleGridStartsAtCorner | objectPlacer.js:89-92 | with hw, hd ≥ 0 the list is non-empty and its first point is at offset (−hw, −hd) |
| Placer.SampleGridNonEmpty | objectPlacer.js:89-92 | with hw, hd ≥ 0 at least one sample is taken |
| Placer.LastOffsetReachesEdge | objectPlacer.js:89 | the last offset taken equals h exactly when 4h is a whole number; otherwise the far edge is not sampled |
| Placer.BottomPointsAmongSamples | objectPlacer.js:75-93 | when 4hw and 4hd are whole numbers, the four footprint corners are among the sample points |
| Placer.ObjectPlacer.GetSamplePoints | objectPlacer.js:84-97 | the nested loops with real counters `i`, `j` push exactly `SampleGrid` for the terrain's height function |
| Placer.MaxOf | objectPlacer.js:52 | `Math.max` over a non-empty list is one of its elements and at least every element |
| Placer.RequeriedHeightsAreStored | objectPlacer.js:49 | re-querying the height below points taken from the surface gives back their stored heights |
| Placer.ObjectPlacer.HighestIntersection | objectPlacer.js:49-52 | each point's height is queried with `GetHeightAt`, and the result is `MaxOf` of those heights: one of them and at least every one |
| Placer.RestsOnHighestSample | objectPlacer.js:49-60 | after placement the object stands at (x, _, y), no sample point is above its lowest point, and one sample point is exactly at it |
| Placer.ObjectPlacer.constructor | objectPlacer.js:11-14 | the placer keeps the terrain it is given |
| Placer.ObjectPlacer.PlaceObject | objectPlacer.js:49-60 | the object's new position is `RestingPosition`: (x, old y + highest sampled height − minY, y), with the samples taken under half the pre-rotation size |
| DxfLoader.IndexOf | three-dxf-loader.js:246 | `indexOf` returns −1 exactly when the element is absent, and otherwise the index of its first occurrence |
| DxfLoader.SpliceOut | three-dxf-loader.js:232 | `splice(i, 1)` on a list without repeats removes exactly entry i, keeps the others in order and leaves them distinct |
| DxfLoader.ToggledSpec | three-dxf-loader.js:136-144 | a toggle creates a (visible) helper only when none exists and an entity is loaded, and otherwise flips an existing helper's visibility |
| DxfLoader.ToggleTwiceRestores | three-dxf-loader.js:141 | toggling an existing helper twice restores its visibility |
| DxfLoader.DxfElement.constructor | three-dxf-loader.js:18-21 | a new element has its scene, no entity and no helper |
| DxfLoader.DxfElement.Create | three-dxf-loader.js:14-23 | construction fails exactly when no scene is given |
| DxfLoader.DxfElement.Load | three-dxf-loader.js:47-60 | a load that produced an entity stores and resolves with it; a failed load rejects and leaves the entity as it was (none for the fresh element `AddElement` creates) |
| DxfLoader.DxfElement.RemoveBoxHelper | three-dxf-loader.js:148-153 | afterwards the element has no helper |
| DxfLoader.DxfElement.CreateBoxHelper | three-dxf-loader.js:126-135 | with an entity, any helper is replaced by a new visible one; without an entity nothing changes |
| DxfLoader.DxfElement.ToggleBoxHelper | three-dxf-loader.js:136-144 | the helper becomes `Toggled` of the old one |
| DxfLoader.UuidsDistinct | three-dxf-loader.js:211 | in a one-to-one registry the stored elements carry pairwise distinct uuids |
| DxfLoader.SpliceKeepsRegistry | three-dxf-loader.js:229-232 | the same removal also keeps a one-to-one registry one-to-one |
| DxfLoader.AppendKeepsRegistry | three-dxf-loader.js:210-211 | pushing a new loaded element and mapping its uuid to it keeps the registry invariant, and keeps it one-to-one when the uuid is new |
| DxfLoader.DxfLoaderManager.constructor | three-dxf-loader.js:159-166 | a new manager has its scene, an empty list and an empty dictionary, which satisfy both invariants |
| DxfLoader.DxfLoaderManager.Create | three-dxf-loader.js:159-166 | construction fails exactly when no scene is given |
| DxfLoader.DxfLoaderManager.AddElement | three-dxf-loader.js:207-213 | a rejected load stores nothing; otherwise a fresh element with the manager's scene, holding the entity, is appended to the list, its uuid maps to it, the entity is returned, and a one-to-one registry stays one-to-one when the uuid is new |
| DxfLoader.DxfLoaderManager.RemoveElementByIndex | three-dxf-loader.js:228-236 | a valid index removes exactly that element, keeps the others in order and deletes its uuid key; any other index changes nothing; both invariants are kept |
| DxfLoader.DxfLoaderManager.RemoveElementByUUID | three-dxf-loader.js:242-254 | a present uuid removes its element from the list (at its `indexOf` position) and deletes the key; an unknown uuid changes nothing; both invariants are kept |
| DxfLoader.DxfLoaderManager.GetElementByIndex | three-dxf-loader.js:261-263 | the element at the index, or None exactly when the index is out of range |
| DxfLoader.DxfLoaderManager.GetElementByUUID | three-dxf-loader.js:270-272 | the element stored under the uuid, or None exactly when there is none; a found element is in the list and carries that uuid |
| DxfLoader.DxfLoaderManager.ToggleBoxHelpers | three-dxf-loader.js:218-222 | every stored element's helper is toggled once, every element keeps its entity, and the registry invariant (and a one-to-one registry) is kept |

## Left out

- The `Boden` constructor's geometry (boden.js:4-23): the plane subdivision, the wave formula with `sin`/`cos`, and the normals. The vertex positions are supplied to the constructor instead.
- Floating point: coordinates, distances and offsets are exact reals. `Float32Array` rounding is not modelled, and neither is the drift of the accumulated `i += 0.5` and `j += 0.5`.
- Terrain.Boden.GetHeightAt: the square root in the distance is dropped. Squared distances are compared instead, which picks the same vertex because the square root is strictly monotone.
- Terrain.Boden.Valid: the position buffer is taken to hold whole vertices (length a multiple of 3, as every three.js position attribute does). A trailing partial vertex is not modelled. With one extra coordinate, `vy` is `undefined` and the distance is NaN, so the vertex is never chosen. With two extra coordinates, the distance is finite and only `vz` is `undefined`; if that vertex is strictly closest, `getHeightAt` returns NaN.
- The rotation step of `placeObject` (objectPlacer.js:29-36) and `calculateNormal` (objectPlacer.js:100-109): cross products, `normalize`, `acos` and quaternion rotation.
- `Box3.setFromObject` and `getSize`. The pre-rotation bounding-box size and the post-rotation minimum y are inputs to `PlaceObject`. The post-rotation size only feeds `visualizeSamplePoints`.
- The `cornerPoints` query in `placeObject` (objectPlacer.js:27). It feeds `calculateNormal` and so the rotation, which reaches the new position only through the bounding box's minimum y; that value is the input `minY` of `PlaceObject`.
- The `samplePoints` query (objectPlacer.js:30), whose result is never used, and the `newSamplePoints` query (objectPlacer.js:46), which only feeds `visualizeSamplePoints`.
- Repeated placement: `placeObject` is not idempotent. The up vector is fixed (objectPlacer.js:33), so every call rotates the object again by the angle between it and the terrain normal, on top of any earlier rotation (a quarter turn per call on flat ground). The model states only the translation step, for a given `minY`.
- `visualizeSamplePoints`, `addToScene`, `removeFromScene`, `move` (three-dxf-loader.js:91-97), `moveToOrigin`, `addElementsToModel`, `moveElementsToZero` and `BoxHelper` geometry. These only change three.js scene objects and positions, which are not modelled; `addToScene`, `removeFromScene` and `move` do nothing but log an error when the element has no entity. Likewise, the not-found branches of `removeElementByIndex` (three-dxf-loader.js:234) and `removeElementByUUID` (three-dxf-loader.js:252) log an error, which the model leaves out; there they change nothing. A helper's presence and visibility are kept.
- Placer.ObjectPlacer.PlaceObject: requires a non-negative bounding-box size, which is what `Box3.getSize` returns. `Math.max` of an empty list (`-Infinity`) therefore cannot arise.
- `DxfElement.innit`, the `DXFLoader` and font loading, and `DxfLoaderManager.loadFiles`. These are asynchronous. The outcome of loading a file is the `loaded` parameter of `AddElement` (None when the promise rejects), and the order in which concurrent `loadFiles` pushes land is not modelled.
- The `options` argument of `DxfElement` and `addElement`. It only configures the external loader.
- DxfLoader.DxfLoaderManager: the dictionary is a map from uuid strings. A JavaScript object used as a dictionary also answers inherited keys such as `"toString"`, so `getElementByUUID("toString")` is not `null` there; the model treats such keys as absent.
- DxfLoader.DxfLoaderManager.GetElementByIndex: indices are integers. Fractional or string indices, which JavaScript would also accept, are not modelled.
- Duplicate uuids. `addElement` with an already stored uuid overwrites the dictionary entry. `removeElementByIndex` then deletes the key of whichever element now owns it. The model follows both behaviours; only the weaker `Registered` invariant survives them, and `OneToOne` is promised only for new uuids.
- `dxf-parser.js`, `main.js` and `vite.config.js`: library wrappers, the render loop and the build configuration.
