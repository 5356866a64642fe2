# Models: mask-driven box grids and grid switching

This project models the `Models` class of a small three.js scene (`Models.js`).

The class configures three grids: `heart`, `codrops` and `smile`. Each grid has a black-and-white mask image and a video. When a mask image has loaded, the class:

1. picks a lattice of at most 24 x 24 cells that keeps the image's aspect ratio;
2. reads the image back at that size from a canvas;
3. creates one box for every lattice cell whose pixel is dark.

Each box gets its own copy of the box geometry's UV array. The array is remapped so that every face shows the cell's own rectangle of the video. Boxes are spaced 0.75 apart, centred on the origin.

When all three grids exist, the object becomes ready. The `heart` grid stays visible and every box of the other grids is parked: scale 0, depth -6. From then on, a click on a button:

- reveals the grid the button names;
- hides the previous grid;
- rejects further clicks until the hide timeline completes.

The model is split into four modules, plus `Arith`, which holds arithmetic lemmas:

- `Mask`: lattice size, pixel addressing and the darkness test;
- `Uv`: UV remapping;
- `GridBuilder`: box creation in the source's loop order;
- `Models`: the loader's state and the switching state machine, as a class.

Tweens are modelled by their end states. A revealed box has scale 1 at depth 0; a hidden box is snapped to scale 0 at depth -6. The end of the hide timeline is the explicit event `HideComplete`.

Arithmetic is exact:

- Image sizes and channel values are integers.
- `Math.round(n / d)` is computed as `(2n + d) div 2d`. This is proved equal to `floor(n/d + 1/2)` over the reals.
- Brightness, UV coordinates and positions are reals.

The model follows the code, including three behaviours worth stating outright:

- **Short side.** The code puts no minimum of one cell on the short side of the lattice (`Mask.GridDimsZeroSide`). With a zero side, reading the canvas back throws, so that grid is never built and the object never becomes ready (`Models.Models.ReadinessNeedsEveryMask`).
- **Unknown ids.** An id that names no grid is still stored as current: nothing is revealed and the previous grid is still hidden (`Models.Models.Click`, `Models.RevealNamed`).
- **Hide with no previous grid.** A click always sets the previous id, so the hide returns early when the previous id is empty or missing (a button without `data-id`, represented as the empty string), or when no grid has that name (`Models.Models.HideGrid`).

## Model

| member | source | states |
|---|---|---|
| Mask.JsRound | Models.js:90-94 | `Math.round` over the reals: the result r is the integer with r − 1/2 ≤ v < r + 1/2, so halves round up |
| Mask.RoundRatio | Models.js:90 | the halves-up rounding of n/d: 2·d·r ≤ 2n + d < 2·d·(r + 1) |
| Mask.GridDims | Models.js:81-95 | a wider-than-tall mask gets `size` columns and at most `size` rows; any other mask gets `size` rows and at most `size` columns |
| Mask.GridDimsMax | Models.js:86-95 | the larger lattice side is exactly the grid size |
| Mask.GridDimsIsRounding | Models.js:83-95 | the aspect ratio exceeds 1 exactly when W > H; the integer lattice equals round(size / aspect) or round(size · aspect) as JavaScript computes them in real arithmetic |
| Mask.GridDimsTranspose | Models.js:86-95 | swapping the mask's width and height swaps the lattice's sides |
| Mask.GridDimsScale | Models.js:83 | only the aspect ratio matters: a k-times larger mask gives the same lattice |
| Mask.GridDimsZeroSide | Models.js:87-95 | there is no minimum side: the lattice has zero rows exactly when W > H and W > 2·size·H, and zero columns exactly when W ≤ H and H > 2·size·W |
| Mask.PixelIndex | Models.js:136-140 | the pixel read for cell (x, y) starts on a 4-byte boundary, and all four channels lie inside the RGBA data |
| Mask.PixelIndexDecodes | Models.js:136-137 | the index addresses canvas column x of canvas row height − 1 − y (the vertical flip) |
| Mask.PixelIndexInjective | Models.js:136-137 | distinct cells read distinct pixels |
| Mask.Brightness | Models.js:143 | the mean of R, G and B lies in [0, 255] |
| Mask.IsDarkIntegral | Models.js:143-146 | a cell is on exactly when r + g + b < 384 |
| Mask.DarkAt | Models.js:136-146 | lattice position (x, y) holds a box exactly when the R, G and B bytes at its flipped pixel index sum to less than 384 |
| Uv.CellRect | Models.js:150-153 | a cell's texture rectangle is a non-empty sub-rectangle of the unit square |
| Uv.Remap | Models.js:161-165 | the rewrite keeps the array's length; from entries in [0, 1] with non-negative cell sizes every U lands in [u0, u0 + du] and every V in [v0, v0 + dv] |
| Uv.RemapInPlace | Models.js:161-165 | the in-place loop leaves the array equal to the remapped old contents: even entries become u0 + u·du, odd entries v0 + v·dv, and an odd trailing entry leaves no V write |
| Uv.RemapInCell | Models.js:150-165 | remapping a unit-square UV array for cell (x, y) keeps its length and puts every vertex inside that cell's rectangle |
| Uv.CellOf | Models.js:150-153 | every texture point in [0, 1) falls in some column c < n with c/n ≤ p < (c + 1)/n |
| Uv.LatticePartition | Models.js:150-153 | a texture point lies in cell (x, y)'s half-open rectangle exactly when (x, y) is its own cell: the rectangles tile the video |
| Uv.CellInteriorsDisjoint | Models.js:150-153 | two distinct cells never show the same interior point of the video |
| GridBuilder.Offset | Models.js:172-173 | the offset (i − (n − 1)/2) · 0.75 of an index i < n lies within ± (n − 1)/2 · 0.75 of the origin |
| GridBuilder.OffsetMirror | Models.js:172-173 | the layout is centred: index i and n − 1 − i sit at opposite offsets |
| GridBuilder.OffsetStep | Models.js:172-173 | neighbouring indices are one spacing (0.75) apart |
| GridBuilder.CellUV | Models.js:150-165 | a fresh copy of the geometry's UV array, rewritten in place, ends as the remap of that array onto cell (x, y)'s rectangle |
| GridBuilder.NewCube | Models.js:150-176 | the box for (x, y) records that lattice position, sits at depth 0 with scale 1, keeps the geometry's UV count, and from unit UVs puts every vertex inside the cell's texture rectangle |
| GridBuilder.ColumnCubes | Models.js:130-177 | the inner loop over rows 0 .. rows − 1 of column x yields at most `rows` boxes, all in column x and below row `rows` |
| GridBuilder.GridCubes | Models.js:129-177 | the outer loop over columns 0 .. cols − 1 yields boxes only in those columns and in the lattice's rows |
| GridBuilder.AllCubes | Models.js:129-177 | every box of a whole mask lies in its width x height lattice |
| GridBuilder.BuildGrid | Models.js:129-179 | the nested loops produce exactly `AllCubes`, the boxes of the dark cells in column-major order |
| GridBuilder.AllCubesExact | Models.js:129-177 | every box belongs to a dark cell of the lattice and carries that cell's placement; every dark cell has a box |
| GridBuilder.GridCubesOrdered | Models.js:129-130 | boxes appear strictly in the loops' order: by column, then by row |
| GridBuilder.ColumnMajorPositions | Models.js:129-130 | boxes in that order occupy pairwise distinct cells |
| GridBuilder.CubeCountIsDarkCount | Models.js:143-189 | the number of boxes in a grid equals the number of dark cells of its lattice |
| GridBuilder.FullGrid | Models.js:129-177 | an all-dark mask gives width · height boxes |
| GridBuilder.CubePlacement | Models.js:150-176 | each box lies in the lattice, shows its own cell's texture rectangle, sits at its column and row offsets at depth 0, and has scale 1 |
| GridBuilder.TwoByOneBlack | Models.js:87-165 | a black 2:1 mask with size 4 gives a 4 x 2 lattice of 8 boxes, and cell (1, 0) shows the rectangle [0.25, 0.5] x [0, 0.5] |
| Models.ParkAll | Models.js:216-221 | every box gets scale 0 at depth −6 and keeps its cell, texture and x, y position |
| Models.RevealAll | Models.js:281-290 | every box gets scale 1 at depth 0 and keeps its cell, texture and x, y position |
| Models.ParkAllIdempotent | Models.js:325-328 | snapping an already parked grid changes nothing |
| Models.RevealAfterPark | Models.js:172-174 | revealing a parked, freshly built grid restores exactly the boxes that were built |
| Models.ParkCubes | Models.js:316-328 | the loop over a hidden grid's boxes yields `ParkAll` of them |
| Models.RevealCubes | Models.js:281-291 | the loop over a revealed grid's boxes yields `RevealAll` of them |
| Models.ParkAllExcept | Models.js:215-223 | grids named `keep` are untouched; every box of every other grid is parked in place; names and box counts are kept |
| Models.ColorFor | Models.js:370-375 | a mapped id gets its table colour; the fallback `#1a1a1a` is returned exactly for ids the table does not map |
| Models.FindGrid | Models.js:266 | `find` by name, as at Models.js:266 and 301: a found index holds a grid of that name with none before it; no result exactly when no grid has the name |
| Models.FirstIndex | Models.js:335 | the first position holding x, or None exactly when no position does |
| Models.RevealNamed | Models.js:265-291 | revealing by name keeps every grid's name and order; the first grid with that name ends with every box at scale 1 and depth 0, its cell, texture and x, y position kept, and every other grid is unchanged; with no such grid nothing changes |
| Models.Models.constructor | Models.js:4-39 | starts with the three configs, no data, no grids, count 0, and not ready |
| Models.Models.ReadinessNeedsEveryMask | Models.js:192-200 | while any mask has not loaded, or has loaded with a zero-sided lattice, the object is not ready |
| Models.Models.MaskLoaded | Models.js:79-113 | with a zero lattice side nothing changes except that the mask counts as loaded; otherwise the lattice data is stored and a grid is built as `Built` describes; the loader invariant holds throughout |
| Models.Models.StoreAndBuild | Models.js:103-112 | the lattice data is stored under the config id and its grid is created, leaving the state `Built` describes |
| Models.Models.CreateGrid | Models.js:118-201 | the material is attached, the grid of `AllCubes` is appended, the count rises by one, and readiness and interaction set-up happen exactly on reaching the number of configs |
| Models.Models.InitInteractions | Models.js:204-226 | `heart` becomes current, there is no previous grid, nothing is animating, every non-`heart` grid is parked, and the buttons are bound |
| Models.Models.Click | Models.js:236-260 | ignored while animating or for the current id; otherwise the id becomes current, the old one previous, the named grid is revealed (nothing, for an id that names no grid) and the hide of the previous grid begins, ending at once when there is nothing to hide |
| Models.Models.RevealGrid | Models.js:265-292 | the grids become `RevealNamed` of `current`: the first grid of that name has every box at scale 1 and depth 0 with its placement kept, no other grid changes, and nothing changes when there is none |
| Models.Models.HideGrid | Models.js:295-331 | a falsy previous id, or no grid of that name, ends the switch at once; otherwise the hide of that grid is in flight |
| Models.Models.HideComplete | Models.js:309-330 | the hidden grid is the one named by the previous id; every box of it is snapped to scale 0 at depth −6, the other grids are unchanged, and a new switch may start |
| Models.Models.SwitchToGrid | Models.js:334-341 | with a button for the id, the effect of clicking the first such button; without one, no change |
| Models.Models.CurrentColor | Models.js:369-376 | the colour of a mapped id, otherwise the fallback `#1a1a1a`; the fallback appears only for unmapped ids |
| Models.SecondClickRejected | Models.js:237-259 | heart to codrops and then a click for smile before the hide ends: the second click is ignored and the hide of `heart` is still in flight |

## Left out

- Mask.GridDims: requires a non-empty image (W > 0 or H > 0). A 0 x 0 image gives a NaN aspect ratio in JavaScript, and the later zero-sized canvas read throws as it does for a zero side; that case is not modelled.
- Three.js objects: the scene group, the grid groups, the box geometry, the meshes and the video texture and material. A grid is a name plus a sequence of box values, and the material is a flag on the stored entry (`createVideoTexture`, Models.js:41-69). Object identity and aliasing between meshes are not modelled.
- The geometry's initial UV array is an input (`boxUV`): it is a three.js constant that is not part of this model.
- Canvas drawing and resampling: the RGBA data read back at the lattice size is an input of `MaskLoaded`.
- Image loading: each onload event is an explicit call to `MaskLoaded`, at most once per config, in any order. The model assumes no mask loads after the object is ready.
- The video element and its playback.
- Floating point: aspect ratios, rounding, brightness, UV coordinates and positions are exact integers and reals, not IEEE doubles.
- GSAP timing: easing, the 0.001 s stagger, the 0.25 s reveal delay and the durations. The switch is modelled by end states, with the reveal applied at click time and the hide applied at `HideComplete`. The reveal's tail can outlast the hide's completion, and a later switch could then overlap it; that overlap is not modelled.
- Intermediate scale and depth values: the hide tweens depth to 6 before the final snap to −6 and scale 0; only the snapped end state is modelled.
- `updateBackgroundColor`: the body colour tween is left out. Only its colour lookup is modelled, as `CurrentColor`, which uses the same table.
- `group.scale.setScalar(0.5)` on readiness, the grid groups' zero positions, and the button `active` classes.
- `setGridColors`, which stores a table that nothing reads.
- `destroy`, console output, and the `duration` field, which is a constant 1 that only timing uses.
- JavaScript prototype keys (`toString` and the like) looked up in the colour table: `ColorFor` treats every unmapped id alike.
- A button without `data-id`: its `undefined` id is modelled as the empty string, which is falsy in the same way. This also merges a missing `data-id` with `data-id=""`: a click on a button without `data-id` while the current id is `""` passes the `===` test of Models.js:242 in JavaScript but is ignored by the model.
- Click handlers exist only for the buttons bound at readiness, so `Click` requires a bound button index.
- `SwitchToGrid` requires readiness, because before the interaction set-up the source reads a field that does not yet exist and throws.
- `App.js`, the render loop and the camera are not part of this model.
