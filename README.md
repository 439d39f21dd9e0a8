# CAD-Lite countertop layout editor, modelled in Dafny

CAD-Lite is a single-page editor for countertop layouts. A project holds
one or more layouts; a layout holds a canvas (width, height, grid, scale),
rectangular pieces with optional rounded corners, sinks cut into the
pieces, measured dimension lines and up to two overlay photos. You can
drag, nudge, restack, duplicate and delete pieces. Layouts go to and
from files, into an undo history, and into a share link that carries
the state LZ-compressed in the URL hash.

This project models the editor's core in three releases: `cad-lite.js`,
`cad-lite-v1.1.28.js` and `cad-lite-v1.2.25.js`. It also models the
stand-alone sinks module `cad-lite-sinks.js`. A `Version` (or `Release`)
parameter selects the release wherever the behaviour differs.

Modules:

* `Geometry`: `clamp`, `round3`, `snap`, pixel/inch conversion, the rotated bounding box `realSize`, and `clampToCanvas` per axis.
* `Pieces`: clamping a piece into the canvas, new pieces, duplicates.
* `Layers`: normalising the stacking order, Forward/Backward, and the list's drag-and-drop reorder.
* `Faucets`, `Sinks`: the faucet-hole rack, a sink's pose on its piece, the sink editor's inputs, and the sinks card as a class.
* `Dims`: snap points, `snapDimPoint`, and dragging a dimension's offset.
* `Overlays`: the overlay list, and the clip mask that keeps the photos on the pieces.
* `Import`: coercing a loaded file's values.
* `History`: the undo/redo stack, as a class.
* `LzBits`, `LzCompress`, `LzCompressLoop`, `LzDecompress`, `LzDecompressLoop`, `LzRoundTrip`: the URI-safe LZString codec.
  * Each side has a specification function over bit streams and an imperative loop proved equal to it.
  * Decompression is proved to undo compression.
* `ShareHash`: share links.
* `Project`: the editor as a class. Its methods change the current layout, the selection and the pointer gestures.

Loops in the source are methods with loop invariants, proved against
specification functions. State that the source mutates lives in classes:
`Project.Editor`, `History.History`, `Sinks.SinkCard`.

## Model

| member | source | states |
|---|---|---|
| Geometry.Round | cad-lite-v1.2.25.js:2151 | `Math.round`: the integer within a half below and a half above, halves up |
| Geometry.RoundOfInteger | cad-lite-v1.2.25.js:1481 | rounding an integer gives it back |
| Geometry.Round3 | cad-lite-v1.2.25.js:1481 | the result is within half a thousandth of the input |
| Geometry.Clamp | cad-lite-v1.2.25.js:1480 | within the bounds when they are ordered, the input itself when inside, the lower bound when they cross |
| Geometry.ClampLegacy | cad-lite.js:313 | agrees with `Clamp` on ordered bounds; the upper bound wins when they cross |
| Geometry.Snap | cad-lite-v1.2.25.js:2151 | the result is on the grid and the nearest grid value (ties up) |
| Geometry.SnapNearest | cad-lite-v1.2.25.js:2151 | a grid multiple within half a step either side of the input |
| Geometry.OnGridMultiple | cad-lite-v1.2.25.js:2151 | every whole multiple of the step is on the grid |
| Geometry.SnapIdempotent | cad-lite-v1.2.25.js:2151 | snapping twice is snapping once |
| Geometry.PixelsInchesRoundTrip | cad-lite-v1.2.25.js:2152-2153 | `p2i` and `i2p` undo each other at a positive scale |
| Geometry.InchesToPixels | cad-lite-v1.2.25.js:2152 | `i2p` (no contract of its own; `PixelsInchesRoundTrip` pairs it with `p2i`) |
| Geometry.PixelsToInches | cad-lite-v1.2.25.js:2153 | `p2i` (no contract of its own; `PixelsInchesRoundTrip` pairs it with `i2p`) |
| Geometry.Mod180 | cad-lite-v1.2.25.js:2590-2599 | JavaScript `% 180` of a non-negative angle lies in [0, 180) |
| Geometry.FoldDeg | cad-lite-v1.2.25.js:2590-2599 | the folded angle lies in [0, 90] |
| Geometry.EuclidMod180 | cad-lite-v1.2.25.js:2590-2599 | the reference remainder lies in [0, 180) for every real |
| Geometry.FoldIsMirroredRemainder | cad-lite-v1.2.25.js:2590-2599 | the fold equals the Euclidean remainder by 180 mirrored at 90 (the distance to the nearest half turn) |
| Geometry.EuclidMod180Shift | cad-lite-v1.2.25.js:2590-2599 | whole half turns do not change the remainder |
| Geometry.FoldShift | cad-lite-v1.2.25.js:2590-2599 | whole half turns do not change the fold |
| Geometry.RealSize | cad-lite-v1.2.25.js:2590-2599 | the bounding box of the turned piece has non-negative sides |
| Geometry.RealSizeSymmetric | cad-lite-v1.2.25.js:2590-2599 | a half turn, the supplement and the negated angle give the same box |
| Geometry.RealSizeAxisAligned | cad-lite-v1.2.25.js:2590-2599 | at 0 degrees the box is w x h, at 90 it is h x w |
| Geometry.RealSizeLegacy | cad-lite.js:411-418 | the rotation is clamped to [0, 90]: past 90 the 90-degree box, below 0 the unturned box, in between the newer `realSize` |
| Geometry.LegacyAndFoldDisagreeAt120 | cad-lite.js:411-418 | at 120 degrees the first release gives the 90-degree box, the later ones the 60-degree box |
| Geometry.ClampToCanvasAxis | cad-lite-v1.2.25.js:2602 | never negative, inside the canvas when it fits, unchanged when already inside, a fixed point of the clamp |
| Geometry.ClampToCanvasAxisLegacy | cad-lite.js:421 | never past the far edge; agrees with the newer clamp when the item fits; an oversized item lands left of the origin |
| Pieces.ClampToCanvas | cad-lite-v1.2.25.js:2602 | only x and y change; never negative from v1.1.28 on, never past the far edge in `cad-lite.js`; inside when the box fits; a piece already inside stays put |
| Pieces.ClampToCanvasIdempotent | cad-lite-v1.2.25.js:2602 | clamping a clamped piece changes nothing, in every release |
| Pieces.OversizedLegacyGoesNegative | cad-lite.js:421 | in the first release a piece wider than the canvas gets a negative x |
| Pieces.MaxLayer | cad-lite-v1.2.25.js:4399 | `Math.max(init, ...layers)`: an upper bound of every layer that is one of them or `init` |
| Pieces.TopLayer | cad-lite-v1.2.25.js:4399 | above every piece's layer, at least 1, and exactly one above the top layer or 1 |
| Pieces.NewPiece | cad-lite-v1.2.25.js:4398-4431 | "Piece n+1", the fresh id, 24 x 12, unrotated, white, all four corners square, no sinks, above every existing piece |
| Pieces.NewPieceAtOrigin | cad-lite-v1.2.25.js:4398-4431 | the new piece sits at the origin whenever it fits the canvas |
| Pieces.VersionClamp | cad-lite-v1.2.25.js:1480 | each release's `clamp`; all agree on ordered bounds |
| Pieces.DuplicatePiece | cad-lite-v1.2.25.js:4433-4443 | a copy with the new id, " Copy" appended, on top of the stack, moved one grid step and clamped, every other field kept |
| Pieces.CopyPiece | cad-lite-v1.2.25.js:3450-3462 | a copy with the new id and " Copy" name, same layer, one grid step down-right, snapped, on the grid and inside the canvas when that fits |
| Faucets.RackLayout | cad-lite-v1.2.25.js:2756-2769 | nine slots two inches apart spanning 16 inches symmetric about the sink's centre, each hole 1.75 inches clear behind the sink's back edge |
| Faucets.Insert | cad-lite-v1.2.25.js:2121 | inserting a new value keeps the list strictly increasing and adds exactly that value |
| Faucets.Sort | cad-lite-v1.2.25.js:2121 | `sort((a, b) => a - b)` of a duplicate-free list: increasing, same length, same values |
| Faucets.Toggled | cad-lite-v1.2.25.js:2121 | a sorted duplicate-free list holding the old values other than `i`, plus `i` exactly when checked; slots stay slots |
| Faucets.IncreasingUnique | cad-lite-v1.2.25.js:2121 | two increasing lists with the same values are equal |
| Faucets.CheckThenUncheck | cad-lite-v1.2.25.js:2121 | checking then unchecking a box equals unchecking it |
| Faucets.ToggleAgreeing | cad-lite-v1.2.25.js:2120-2121 | a toggle that matches the shown state leaves a sorted list unchanged |
| Faucets.ToggleCommutes | cad-lite-v1.2.25.js:2121 | two toggles commute |
| Sinks.Models | cad-lite-sinks.js:68-69 | the app's `SINK_MODELS` in both app releases; in the module the catalogue its caller passed (by default `DEFAULT_SINK_MODELS`) |
| Sinks.FindModel | cad-lite-v1.2.25.js:4495 | `find`: some entry has the id iff found; the found entry has the id and no earlier entry does |
| Sinks.Setback | cad-lite-v1.2.25.js:2627 | `??`: a present setback (0 included) is kept, only a missing one becomes 3.125 |
| Sinks.SinkPose | cad-lite-v1.2.25.js:2625-2637 | the centre lies on the centreline and the near edge is `setback` from the reference edge; angle is piece plus sink rotation plus 90 on the side edges; rectangle centred on the pose |
| Sinks.PoseDetermined | cad-lite-v1.2.25.js:2625-2637 | any pose meeting those conditions is the computed one |
| Sinks.OppositeEdgesMirror | cad-lite-v1.2.25.js:2630-2633 | front and back mirror across the piece's middle, as do left and right |
| Sinks.PoseFollowsPieceRotation | cad-lite-v1.2.25.js:2628 | turning the piece turns every sink by the same angle and moves none |
| Sinks.RoundedRectPath | cad-lite-v1.2.25.js:2647-2657 | a plain rectangle iff r <= 0; otherwise a radius at most r, w/2 and h/2, equal to one of them, and r itself when it fits |
| Sinks.DefaultSink | cad-lite-v1.2.25.js:1920-1932 | the first model's shape and size, standard setback, rotation 0; back edge, centreline 20 and hole 4 in the app, front, 0 and none in the module |
| Sinks.ApplyModel | cad-lite-v1.2.25.js:2615-2622 | no model: unchanged; otherwise the model's id, shape and size, corner radius clamped into [0, 4], nothing else changed |
| Sinks.ApplyModelIdempotent | cad-lite-v1.2.25.js:2615-2622 | applying a model twice is applying it once |
| Sinks.NumberOr0 | cad-lite-sinks.js:279 | text that is not a number reads as 0, a number as itself |
| Sinks.LengthInput | cad-lite-v1.2.25.js:2041-2051 | in the app within [0, 999] and the rounded value when in range; in the module `toNum` of the text |
| Sinks.SetbackInput | cad-lite-v1.2.25.js:2099 | never negative; at most 999 in the app; `max(0, toNum)` in the module |
| Sinks.CornerRadiusInput | cad-lite-v1.2.25.js:2105 | always within [0, 4]; the module keeps an in-range value |
| Sinks.RotationInput | cad-lite-v1.2.25.js:2102 | in the app a whole number within [0, 360] (180 in v1.1.28), the rounded value when in range; the module keeps the number |
| Sinks.MaxRotation | cad-lite-v1.2.25.js:2102-2103 | the rotation input's upper bound: 360, or 180 in v1.1.28 (cad-lite-v1.1.28.js:1178-1179); a constant table without a contract of its own |
| Sinks.CenterlineOnSide | cad-lite-v1.2.25.js:2073-2083 | after a side change the centreline is within [0, the new edge's length], the rounded value when it already fits |
| Sinks.AxisLength | cad-lite-v1.2.25.js:2078 | the edge the centreline runs along: the piece's depth `h` on the left or right edge, its width `w` otherwise (no contract of its own; `CenterlineOnSide` bounds the centreline by it) |
| Sinks.Edited | cad-lite-v1.2.25.js:2007-2131 | the sink after one editor input; the id survives every input and the holes change only under a faucet toggle (`EditedChangesOnly` states the rest) |
| Sinks.EditedChangesOnly | cad-lite-v1.2.25.js:2007-2131 | each editor input changes only its own field: a length or width only `w` or `h`, set to the clamped input; a shape choice only the shape; a centreline, setback, rotation or corner radius only that value (setback non-negative, radius in [0, 4]); a side change the side and, in the app, the centreline; a type or model choice only the type, the model id and the model's shape, size and radius; the id always survives |
| Sinks.EditedKeepsRack | cad-lite-v1.2.25.js:2118-2124 | the holes stay valid slots under every edit, and a faucet toggle leaves them sorted without duplicates |
| Sinks.SideChangeKeepsCentreOnEdge | cad-lite-v1.2.25.js:2073-2083 | after a side change in the app the pose's centre lies on the new edge |
| Sinks.AddButtons | cad-lite-v1.2.25.js:1950-1960 | header button iff 0 < n < 4, empty-state button iff n == 0; some Add button iff below the cap |
| Sinks.SinkCard.OpenSink | cad-lite-v1.2.25.js:1968 | the open sink exists iff the index is in range, and it is that entry |
| Sinks.SinkCard.constructor | cad-lite-v1.2.25.js:1900 | the card starts on the piece's sinks with open index 0 (a missing entry in `openIndex`) |
| Sinks.SinkCard.Add | cad-lite-v1.2.25.js:1950-1960 | the default sink is appended; open index and validity kept |
| Sinks.SinkCard.Duplicate | cad-lite-v1.2.25.js:1985 | below the cap the row is copied right after itself, at the cap nothing changes |
| Sinks.SinkCard.Delete | cad-lite-v1.2.25.js:1990 | the row is spliced out; the app pulls the open index back into range, the module keeps it |
| Sinks.SinkCard.Select | cad-lite-v1.2.25.js:1995 | the clicked row becomes the open one, the list unchanged |
| Sinks.SinkCard.EditSink | cad-lite-v1.2.25.js:2007-2131 | only the edited sink changes, as `Edited` says |
| Sinks.DuplicateThenDeleteRestores | cad-lite-v1.2.25.js:1985-1990 | duplicating a row then deleting the copy restores the list |
| Import.ToNumber | cad-lite-v1.2.25.js:4469 | `Number(v)`: a number is itself, a missing value is NaN; an array or object reads as `Number` reads it |
| Import.NumberOr | cad-lite-v1.2.25.js:4469-4473 | `Number(v) \|\| d`: the number unless it is 0 or NaN, then `d`; never 0 when `d` is not |
| Import.FiniteNumbers | cad-lite-v1.2.25.js:4488 | keeps exactly the finite number entries; all of them iff every entry is a number |
| Import.FiniteNumbersAppend | cad-lite-v1.2.25.js:4488 | the filter of two lists is the filter of the first then of the second: order and repeats are kept |
| Import.FiniteNumbersOne | cad-lite-v1.2.25.js:4488 | a number is kept, any other value (numeric text included) dropped |
| Import.FirstNine | cad-lite-v1.2.25.js:4488 | a prefix of at most nine, the whole list when it is short |
| Import.SinkFields | cad-lite-v1.2.25.js:4476-4489 | the sink record built from the file before the catalogue is applied (no contract of its own; `ImportSink` states its fields) |
| Import.ImportSink | cad-lite-v1.2.25.js:4476-4498 | the id or a fresh one; side the file's or front; centreline `Number(v) \|\| 20`; setback `Number(v) \|\| 3.125`, never 0; rotation `Number(v) \|\| 0` clamped to the release's range; corner radius in [0, 4]; the holes are the first nine numbers of the file's list, in order; without a catalogue model the size is `Number(v) \|\| 16`, the shape the file's or rect and the radius `Number(v) \|\| 0` clamped to [0, 4], with one the model's shape and size; `modelId` kept; the kind `model` iff a `modelId` when none is given |
| Import.ZeroSetbackBecomesStandard | cad-lite-v1.2.25.js:4486 | a missing or zero setback comes back as the standard 3.125 |
| Import.SavedSinkRoundTrip | cad-lite-v1.2.25.js:4476-4498 | a sink the app saved (plain in-range values) is imported unchanged |
| Import.ZeroCenterlineMoves | cad-lite-v1.2.25.js:4485 | a sink saved with centreline 0 comes back at 20 |
| Import.Nums | cad-lite-v1.2.25.js:4488 | the JSON form of a number list holds the same numbers in order |
| Import.FiniteOfNumbers | cad-lite-v1.2.25.js:4488 | filtering the JSON form of a number list gives the list back |
| Import.ImportRotation | cad-lite-v1.2.25.js:4471 | a numeric 90 stays 90; `cad-lite.js` gives only 0 or 90, 90 exactly for a numeric 90; later releases `Number(r) \|\| 0` |
| Import.TextRotationDropped | cad-lite.js:1171 | the text "90" imports as 0 in the first release and as 90 later |
| Import.ImportPiece | cad-lite-v1.2.25.js:4464-4501 | the fresh id; size `Number(v) \|\| 1`, so never 0; name "Piece" and colour "#ffffff" when falsy, otherwise the file's; coerced position and layer; corner flags by truthiness; sinks imported one by one (none in `cad-lite.js`) |
| Import.ImportPieces | cad-lite-v1.2.25.js:4465 | one piece per file entry in order; distinct fresh ids give distinct piece ids |
| Import.ImportSettings | cad-lite-v1.2.25.js:4460-4463 | a value given as a non-zero number replaces the current one, anything else keeps it; non-zero stays non-zero; `showGrid` only from a boolean |
| Import.ImportSettingsIdempotent | cad-lite-v1.2.25.js:4460-4463 | importing the same file's settings twice equals once |
| Layers.InsertIndex | cad-lite-v1.2.25.js:1531 | one insertion step of the stable sort keeps the order sorted and adds exactly the new index |
| Layers.OrderPrefix | cad-lite-v1.2.25.js:1531 | the sort of the first n pieces: sorted by layer, stable, a permutation of 0..n-1 |
| Layers.Order | cad-lite-v1.2.25.js:1531 | the stable sort by `layer \|\| 0` is a permutation of the indices, ordered by layer, ties in list order |
| Layers.Normalized | cad-lite-v1.2.25.js:1530-1533 | one new layer per piece |
| Layers.NormalizedAt | cad-lite-v1.2.25.js:1532 | a piece's new layer is its position in the sort |
| Layers.NormalizedRanks | cad-lite-v1.2.25.js:1530-1533 | the layers become 0..n-1, and one piece is below another exactly when the sort put it first |
| Layers.IncreasingRanks | cad-lite-v1.2.25.js:1530-1533 | a strictly increasing list of n ranks below n is 0..n-1 |
| Layers.OrderOfRanking | cad-lite-v1.2.25.js:1531 | sorting layers 0..n-1 lists the piece with layer i at place i |
| Layers.NormalizedRanking | cad-lite-v1.2.25.js:1530-1533 | layers already 0..n-1 are left alone |
| Layers.NormalizeIdempotent | cad-lite-v1.2.25.js:1530-1533 | normalising twice is normalising once |
| Layers.ShiftedSwapsNeighbour | cad-lite-v1.2.25.js:1534-1553 | Forward (Backward) moves the piece one rank up (down) and the passed piece the other way; the rest keep their normalised ranks; nothing moves at the top (bottom) |
| Layers.Shifted | cad-lite-v1.2.25.js:1534-1553 | Forward and Backward give one layer per piece (`ShiftedSwapsNeighbour` states which) |
| Layers.Exchanged | cad-lite-v1.2.25.js:1538-1541 | the swap keeps the multiset of layers, and only the piece and the one holding its new layer change |
| Layers.ExchangedSwaps | cad-lite-v1.2.25.js:1538-1541 | on a ranking, the layer swap moves the piece and its neighbour and keeps a ranking |
| Layers.SwapKeepsRanking | cad-lite-v1.2.25.js:1538-1541 | swapping two layers of a ranking gives a ranking |
| Layers.Keys | cad-lite-v1.2.25.js:1531 | the layers of the pieces in order |
| Layers.WithLayers | cad-lite-v1.2.25.js:1532 | each piece gets the given layer and nothing else changes |
| Layers.Moved | cad-lite-v1.2.25.js:3553-3583 | a permutation of the list; unchanged for `to == from` or negative; otherwise the piece lands at `min(to, n-1)` and the rest keep their order |
| Layers.InsertedParts | cad-lite-v1.2.25.js:3553-3583 | inserting puts the item at its index, the rest around it, and adds it to the multiset |
| Layers.RemovedMultiset | cad-lite-v1.2.25.js:3553-3583 | splicing an item out removes exactly it from the multiset |
| Layers.ByPosition | cad-lite-v1.2.25.js:3583 | piece i gets layer i |
| Layers.ByPositionRanks | cad-lite-v1.2.25.js:3583 | numbering by position is a ranking that normalising leaves alone |
| JsSets.SetAdd | cad-lite-v1.2.25.js:2121 | `Set.add`: duplicate-free, the old values plus the new one |
| JsSets.SetDelete | cad-lite-v1.2.25.js:2121 | `Set.delete`: duplicate-free, the old values minus the deleted one |
| JsSets.SetFrom | cad-lite-v1.2.25.js:703-706 | `Array.from(new Set(a))`: duplicate-free, no longer than `a`, the same values |
| JsSets.FirstIndex | cad-lite-v1.2.25.js:703-706 | the first occurrence of the value |
| JsSets.FirstIndexOfPrefix | cad-lite-v1.2.25.js:703-706 | a prefix that holds the value finds it at the same place |
| JsSets.FirstIndexUnique | cad-lite-v1.2.25.js:703-706 | a place that holds the value with no earlier occurrence is the first index |
| JsSets.SetFromFirstOccurrenceOrder | cad-lite-v1.2.25.js:703-706 | the set lists the values in the order they first occur |
| JsSets.SnocOrder | cad-lite-v1.2.25.js:703-706 | adding the next element keeps first-occurrence order |
| JsSets.SetFromDistinct | cad-lite-v1.2.25.js:703-706 | a duplicate-free list is its own set |
| JsSets.Without | cad-lite-v1.2.25.js:709-711 | `filter(y => y !== x)`: the values other than `x`, duplicate-free if `a` was, unchanged when `x` is absent |
| Dims.PieceSnapPoints | cad-lite-v1.2.25.js:2177-2197 | eight points per piece, all on the piece's outline |
| Dims.SnapPoints | cad-lite-v1.2.25.js:2177-2197 | eight points per piece, piece by piece in list order: point `8i + k` is piece i's k-th snap point |
| Dims.SnapPointsMembers | cad-lite-v1.2.25.js:2177-2197 | a point is offered iff it is a snap point of some piece |
| Dims.Dist2 | cad-lite-v1.2.25.js:2199-2233 | the squared distance is non-negative |
| Dims.GridNode | cad-lite-v1.2.25.js:2222-2230 | the candidate grid node is on the grid on both axes |
| Dims.SnapDimPoint | cad-lite-v1.2.25.js:2199-2233 | the last of the nearest snap points within an inch, else the grid node within an inch when the grid is positive, else the click itself |
| Dims.NormalPerpendicular | cad-lite-v1.2.25.js:3279-3286 | the drag normal is perpendicular to the line, for any `sqrt` |
| Dims.NormalIsUnit | cad-lite-v1.2.25.js:3279-3286 | with an exact square root the normal is a unit vector |
| Dims.StartDimDrag | cad-lite-v1.2.25.js:3268-3330 | the drag record names the line, holds its start in pixels, and a normal perpendicular to it |
| Dims.DragOffset | cad-lite-v1.2.25.js:4160-4182 | the projection on the normal clamped to [-300, 300] |
| Dims.OffsetIgnoresSliding | cad-lite-v1.2.25.js:4160-4182 | sliding the pointer along the line leaves the offset unchanged |
| Dims.ProjectionShift | cad-lite-v1.2.25.js:4160-4182 | the projection ignores moves perpendicular to the normal |
| Dims.FindDim | cad-lite-v1.2.25.js:727 | `findIndex`: none iff no dimension has the id; otherwise the first one that has it |
| Dims.Offset | cad-lite-v1.2.25.js:3289 | the line's stored pixel offset when it is a number, 12 otherwise (a definition without a contract; the offset a drag stores, and this then reads back, is bounded by `DragOffset`) |
| Dims.Normal | cad-lite-v1.2.25.js:3279-3286 | the unit normal of the line in pixels, with length 1 standing in for a zero-length line (no contract of its own; `NormalPerpendicular` and `NormalIsUnit` state its properties) |
| Overlays.DefaultSelection | cad-lite-v1.2.25.js:231-237 | a valid selection, -1 exactly when there are no overlays |
| Overlays.NewOverlay | cad-lite-v1.2.25.js:550-562 | a 126 x 63 slab at the origin, opaque, visible, named "Overlay" when unnamed |
| Overlays.AddOverlay | cad-lite-v1.2.25.js:550-562 | declined at two; otherwise appended and selected |
| Overlays.AddOverlayKeepsLimit | cad-lite-v1.2.25.js:550-562 | an addition never exceeds two overlays and keeps the selection valid |
| Overlays.DeleteOverlay | cad-lite-v1.2.25.js:687-693 | spliced out; a selection past the end goes to the last overlay, one before it is kept |
| Overlays.DeleteOverlayKeepsSelection | cad-lite-v1.2.25.js:687-693 | deletion keeps a valid selection valid |
| Overlays.SelectOverlay | cad-lite-v1.2.25.js:244-249 | an index into the list is selected, anything else selects nothing |
| Overlays.CurrentOverlay | cad-lite-v1.2.25.js:239-243 | an overlay iff the selection is in range, and it is that entry |
| Overlays.SelectThenCurrent | cad-lite-v1.2.25.js:239-249 | selecting then asking gives the selected overlay (none out of range) |
| Overlays.JsRem | cad-lite-v1.2.25.js:2708 | JavaScript `%`: strictly within the modulus of 0, with the sign of the dividend |
| Overlays.RemainderBound | cad-lite-v1.2.25.js:2708 | taking whole multiples within one of the quotient leaves less than one modulus |
| Overlays.RotNormalize | cad-lite-v1.2.25.js:2708 | `((rot % 360) + 360) % 360` (no contract of its own; `RotNormalizeIsRemainder` states its range and value) |
| Overlays.RotNormalizeIsRemainder | cad-lite-v1.2.25.js:2706-2712 | `((rot % 360) + 360) % 360` is in [0, 360) and differs from rot by whole turns |
| Overlays.WholeTurns | cad-lite-v1.2.25.js:2706-2712 | the JavaScript remainder of an angle k turns past [0, 360) takes off k turns |
| Overlays.RotNormalizeInRange | cad-lite-v1.2.25.js:2706-2712 | an angle already in [0, 360) is left alone |
| Overlays.PieceOutline | cad-lite-v1.2.25.js:2698-2716 | the piece's size in pixels centred on its box's centre; each of the four corners has a one-inch radius iff its flag is set, 0 otherwise |
| Overlays.UnturnedOutlineIsRectangle | cad-lite-v1.2.25.js:2698-2716 | an unturned piece's outline sits at its own position |
| Overlays.HoleIsRackHole | cad-lite-v1.2.25.js:2756-2769 | each mask hole is the rack's hole centre in pixels with radius 0.75 inch |
| Overlays.Holes | cad-lite-v1.2.25.js:2756-2769 | one circle per enabled slot, in list order |
| Overlays.Hole | cad-lite-v1.2.25.js:2756-2769 | the circle for one faucet slot (no contract of its own; `HoleIsRackHole` ties it to the rack's hole centre and radius) |
| Overlays.LocalAngle | cad-lite-v1.2.25.js:2730-2732 | the sink's angle in its piece: its rotation, plus 90 on the left or right edge (no contract of its own; `MaskAngleIsPoseAngle` ties it to the sink's pose) |
| Overlays.SinkOpening | cad-lite-v1.2.25.js:2738-2753 | an ellipse with the sink's half-sizes iff the sink is oval |
| Overlays.Cutout | cad-lite-v1.2.25.js:2721-2773 | one hole per enabled slot, turned by the sink's local angle |
| Overlays.PieceGroup | cad-lite-v1.2.25.js:2698-2773 | the outline, a rotation iff the normalised angle is not 0 (about the centre), one cut-out per sink |
| Overlays.Mask | cad-lite-v1.2.25.js:2683-2780 | one group per piece, in list order |
| Overlays.MaskCircles | cad-lite-v1.2.25.js:2756-2769 | a piece's group has one circle per faucet hole of its sinks |
| Overlays.CutoutCircles | cad-lite-v1.2.25.js:2756-2769 | the cut-outs' circles count the sinks' holes |
| Overlays.MaskAngleIsPoseAngle | cad-lite-v1.2.25.js:2706-2732 | the group's turn plus the sink's local angle is the pose's angle, up to whole turns |
| Overlays.ImageOf | cad-lite-v1.2.25.js:2840-2862 | rounded pixel origin, at least one pixel each way, the slab's size when non-zero, opacity 1 by default |
| Overlays.Images | cad-lite-v1.2.25.js:2840-2862 | at most one image per overlay, one for each exactly when every overlay is shown |
| Overlays.ImagesMembers | cad-lite-v1.2.25.js:2840-2862 | every shown overlay's image is drawn and every drawn image is a shown overlay's |
| Overlays.ImagesAppend | cad-lite-v1.2.25.js:2840-2862 | the images of two runs of overlays are the first run's then the second's: list order and repeats kept |
| Overlays.ImagesOne | cad-lite-v1.2.25.js:2841 | one overlay gives its image if visible with an image, otherwise nothing |
| Overlays.ImagesAllShown | cad-lite-v1.2.25.js:2840-2862 | when all are shown, image k is overlay k's |
| Overlays.Shown | cad-lite-v1.2.25.js:2841 | an overlay is drawn iff it is visible and has an image (a predicate without a contract; `ImagesOne` and `ImagesMembers` state its effect) |
| Overlays.DrawOverlays | cad-lite-v1.2.25.js:2817-2863 | a mask iff clipping is on and there are overlays, and then the pieces' mask; no images without overlays |
| History.Recorded | cad-lite-v1.2.25.js:1418-1428 | the redo branch dropped, the snapshot last, at most 50 entries kept in order, the oldest evicted first |
| History.PushIgnored | cad-lite-v1.2.25.js:1421-1423 | the early returns of `pushHistory`: quiet, no snapshot, or the snapshot equal to the entry at `index` (a predicate without a contract; `Push` states its effect) |
| History.History.CanUndo | cad-lite-v1.2.25.js:1471 | `canUndo()` under the history invariant |
| History.History.CanRedo | cad-lite-v1.2.25.js:1472 | `canRedo()` under the history invariant |
| History.History.constructor | cad-lite-v1.2.25.js:1396 | an empty stack at index -1, not quiet |
| History.History.Push | cad-lite-v1.2.25.js:1418-1428 | ignored while quiet, on a failed snapshot or one equal to the entry at `index`; otherwise the stack is `Recorded` and the index is its top |
| History.History.ApplySnapshot | cad-lite-v1.2.25.js:1430-1467 | an empty snapshot restores nothing; any other is restored and `quiet` ends lowered |
| History.History.Undo | cad-lite-v1.2.25.js:1469 | when possible one step back restoring that entry, otherwise nothing |
| History.History.Redo | cad-lite-v1.2.25.js:1470 | when possible one step forward restoring that entry, otherwise nothing |
| History.PushUndoRedo | cad-lite-v1.2.25.js:1418-1470 | push two, undo, redo: the stack holds both and the undo and redo restore them |
| LzBits.Pow2Widths | cad-lite-v1.2.25.js:1273-1296 | the widths 2, 5, 8 and 16 bits |
| LzBits.LsbBits | cad-lite-v1.2.25.js:1095-1105 | a field of n bits |
| LzBits.LsbRoundTrip | cad-lite-v1.2.25.js:1095-1105 | reading a field back, least significant first, gives the value |
| LzBits.MsbValueBound | cad-lite-v1.2.25.js:1085-1099 | a packed group of k bits is below 2^k |
| LzBits.AndIsSetIsBitAt | cad-lite-v1.2.25.js:1317 | `val & position` tests one bit |
| LzBits.MsbBit | cad-lite-v1.2.25.js:1317 | bit j of a group is at weight 2^(k-1-j) |
| LzBits.BaseValue | cad-lite-v1.2.25.js:1047-1055 | positions in the 65-character key string |
| LzBits.KeyStrFacts | cad-lite-v1.2.25.js:1044 | the key string has 65 characters and each maps to its position |
| LzBits.BaseValueInverse | cad-lite-v1.2.25.js:1044-1055 | the reverse dictionary is exactly the inverse of the key string |
| LzBits.BaseValueInjective | cad-lite-v1.2.25.js:1044-1055 | two characters with the same value are equal |
| LzBits.Group | cad-lite-v1.2.25.js:1086-1088 | six bits per output character |
| LzBits.GroupValue | cad-lite-v1.2.25.js:1086-1088 | a group's value is below 64 |
| LzBits.Pack | cad-lite-v1.2.25.js:1253-1261 | one character per six bits plus the padded last one, all from the URI-safe alphabet |
| LzBits.InputBits | cad-lite-v1.2.25.js:1381-1386 | six bits per input character |
| LzBits.Field | cad-lite-v1.2.25.js:1315-1322 | an n-bit field is below 2^n |
| LzBits.PackedStreamBit | cad-lite-v1.2.25.js:1253-1261 | reading packed bits back gives them, then zeros |
| LzBits.PackedChar | cad-lite-v1.2.25.js:1253-1261 | each packed character reads back as its group |
| LzBits.InputBitsOfPacked | cad-lite-v1.2.25.js:1253-1261 | the reader recovers the packed bits as a prefix |
| LzBits.FieldIsLsbValue | cad-lite-v1.2.25.js:1315-1322 | a field inside the stream is the LSB-first value of its bits |
| LzBits.ReadWrittenField | cad-lite-v1.2.25.js:1315-1322 | a field written LSB first is read back |
| LzCompress.Tick | cad-lite-v1.2.25.js:1132-1136 | only the width counters move, and the width never shrinks |
| LzCompress.Step | cad-lite-v1.2.25.js:1072-1160 | one pass of the main loop (no contract of its own; `StepExtendsBits` and `RoundTrip` state its properties) |
| LzCompress.Run | cad-lite-v1.2.25.js:1072-1160 | the main loop over the text (no contract of its own; `RunSnoc`, `RunAppend` and `RunExtendsBits` state its properties) |
| LzCompress.Finish | cad-lite-v1.2.25.js:1162-1251 | the pending phrase, then the end code 2 (no contract of its own; `FinishExtendsBits` states that it extends the bits) |
| LzCompress.CompressBits | cad-lite-v1.2.25.js:1057-1251 | every bit `_compress` writes before the padding (no contract of its own; `RoundTrip` states that it decodes back) |
| LzCompress.RunSnoc | cad-lite-v1.2.25.js:1072-1160 | the loop over s + [c] is one more step after the loop over s |
| LzCompress.RunAppend | cad-lite-v1.2.25.js:1072-1160 | the loop over s + t runs t from where s left off |
| LzCompress.Compress | cad-lite-v1.2.25.js:1376-1379 | `null` gives ""; otherwise a non-empty URI-safe string without '=' |
| LzCompressLoop.PutBit | cad-lite-v1.2.25.js:1085-1092 | the buffer holds the bits plus the new one; a character is pushed exactly on the sixth |
| LzCompressLoop.PutBits | cad-lite-v1.2.25.js:1095-1105 | the buffer holds the bits plus the field LSB first |
| LzCompressLoop.Enlarge | cad-lite-v1.2.25.js:1132-1136 | the counters move as `Tick` says |
| LzCompressLoop.PutLiteral | cad-lite-v1.2.25.js:1083-1131 | marker and unit, 8 bits below 256 and 16 otherwise |
| LzCompressLoop.WritePhrase | cad-lite-v1.2.25.js:1082-1156 | the phrase's bits as `EmitW` says, with its counters |
| LzCompressLoop.Flush | cad-lite-v1.2.25.js:1253-1261 | the padded characters are `Pack` of the bits |
| LzCompressLoop.StepChar | cad-lite-v1.2.25.js:1072-1160 | one pass moves the coder as `Step` says and keeps the buffer in step |
| LzCompressLoop.CompressText | cad-lite-v1.2.25.js:1057-1263 | the output is `Pack` of every bit the coder writes |
| LzCompressLoop.FinishText | cad-lite-v1.2.25.js:1162-1261 | pending phrase, end code 2 and padding give `Pack(Finish)` |
| LzCompressLoop.CompressToEncodedURIComponent | cad-lite-v1.2.25.js:1376-1379 | the imperative coder computes `Compress` |
| LzDecompress.Grow | cad-lite-v1.2.25.js:1355 | the width never shrinks |
| LzDecompress.Resolve | cad-lite-v1.2.25.js:1357-1365 | the entry for a code: the dictionary's, `w + w[0]` for the next free code, `null` past it (no contract of its own; `UndefinedCodeIsNull` and the round trip state its cases) |
| LzDecompress.Loop | cad-lite-v1.2.25.js:1313-1373 | the `while (true)` loop, pass after pass (no contract of its own; `LoopSim` states it on a compressed stream) |
| LzDecompress.DecompressUnits | cad-lite-v1.2.25.js:1265-1374 | `_decompress` of a non-empty text (no contract of its own; `RoundTrip` and `UndefinedCodeIsNull` state it) |
| LzDecompress.Body | cad-lite-v1.2.25.js:1324-1372 | a pass that goes on reads forward and never narrows |
| LzDecompress.Pass | cad-lite-v1.2.25.js:1313-1373 | a pass that goes on started inside the input and moves forward |
| LzDecompress.Decompress | cad-lite-v1.2.25.js:1381-1386 | `null` and "" give "" |
| LzDecompress.UndefinedCodeIsNull | cad-lite-v1.2.25.js:1357-1365 | a code past the next free one gives `null` |
| LzDecompress.InvalidTokenIsNull | cad-lite-v1.2.25.js:1357-1365 | the token "ACg" decompresses to `null` |
| LzDecompressLoop.ReadBit | cad-lite-v1.2.25.js:1317-1319 | the bit is the input's bit at the position, zero past the end |
| LzDecompressLoop.ReadBits | cad-lite-v1.2.25.js:1315-1322 | the field read is `Field` of the input bits |
| LzDecompressLoop.Widen | cad-lite-v1.2.25.js:1355 | the counters move as `Grow` says |
| LzDecompressLoop.ResolveCode | cad-lite-v1.2.25.js:1357-1365 | the entry is `Resolve` of the dictionary and code |
| LzDecompressLoop.CodeBody | cad-lite-v1.2.25.js:1324-1372 | the body computes `Body` |
| LzDecompressLoop.IndexPastEnd | cad-lite-v1.2.25.js:1314 | `data.index > length` iff every bit has been read |
| LzDecompressLoop.PassCases | cad-lite-v1.2.25.js:1313-1373 | code 2 ends with the result, other codes run the body |
| LzDecompressLoop.LoopBody | cad-lite-v1.2.25.js:1313-1373 | one pass computes `Pass` |
| LzDecompressLoop.DecompressText | cad-lite-v1.2.25.js:1265-1374 | the imperative decoder computes `DecompressUnits` |
| LzDecompressLoop.DecompressFromEncodedURIComponent | cad-lite-v1.2.25.js:1381-1386 | the imperative decoder computes `Decompress` |
| LzRoundTrip.DecodeW | cad-lite-v1.2.25.js:1313-1373 | a decoder in step with the coder reads the next phrase it writes |
| LzRoundTrip.EndOfStream | cad-lite-v1.2.25.js:1240-1251 | after the last phrase the decoder reads the end code |
| LzRoundTrip.LoopSim | cad-lite-v1.2.25.js:1072-1160 | coder and decoder stay in step over the rest of the input |
| LzRoundTrip.Opening | cad-lite-v1.2.25.js:1273-1311 | the opening of `_decompress` reads the first literal |
| LzRoundTrip.StepExtendsBits | cad-lite-v1.2.25.js:1072-1160 | a pass of the main loop only appends bits |
| LzRoundTrip.RunExtendsBits | cad-lite-v1.2.25.js:1072-1160 | the main loop only appends bits |
| LzRoundTrip.FinishExtendsBits | cad-lite-v1.2.25.js:1162-1251 | the final stream begins with the bits already written |
| LzRoundTrip.RoundTrip | cad-lite-v1.2.25.js:1376-1386 | decompressing the compressed text gives back the text |
| ShareHash.JsonParse | cad-lite-v1.2.25.js:2364-2370 | parsing an object throws; object JSON text parses to that object |
| ShareHash.IndexOf | cad-lite-v1.2.25.js:2359 | the first position of the character, or none iff absent |
| ShareHash.SplitTwo | cad-lite-v1.2.25.js:2359 | without '=' the whole text and no payload; otherwise the text before the first '=' and the text after it up to the next '=', neither holding '=' |
| ShareHash.IsShareHash | cad-lite-v1.2.25.js:2352 | the `^#v(1\|2)=` test (a predicate without a contract; `TryLoadFromHash` rejects exactly the texts that fail it) |
| ShareHash.ShareLinkHash | cad-lite-v1.2.25.js:2336-2349 | the hash `copyShareLink` writes: `#v2=` then the compressed snapshot (no contract of its own; `ShareLinkIsShareHash`, `ShareLinkRaw` and `ShareLinkToken` state what the loader gets from it) |
| ShareHash.ApplySnapshotValue | cad-lite-v1.2.25.js:1430-1432 | skipped exactly for the empty text; an object throws; object JSON text is restored |
| ShareHash.TryLoadFromHashAsWritten | cad-lite-v1.2.25.js:2355-2384 | as written: a hash not matching `/^#v(1\|2)=/` is not a share hash, any other is; no hash ever restores a snapshot |
| ShareHash.LoadTokenAsWritten | cad-lite-v1.2.25.js:2362-2376 | as written: never a restored snapshot; a legacy load only of a `v1` token, carrying the decompressed text |
| ShareHash.TryLoadFromHash | cad-lite-v1.2.25.js:2355-2384 | a hash not matching `/^#v(1\|2)=/` is not a share hash, any other is |
| ShareHash.LoadToken | cad-lite-v1.2.25.js:2364-2376 | a recognised token is loaded or fails, never not a share hash |
| ShareHash.ShareLinkIsShareHash | cad-lite-v1.2.25.js:2336-2352 | the hash a share link has is the one the loader recognises |
| ShareHash.SplitRecoversToken | cad-lite-v1.2.25.js:2358-2359 | splitting "v2=token" on '=' gives back `v2` and the whole token |
| ShareHash.ShareLinkRaw | cad-lite-v1.2.25.js:2336-2349 | the link body is `v2=` then the compressed payload |
| ShareHash.ShareLinkToken | cad-lite-v1.2.25.js:2336-2370 | the token decompresses to the snapshot it was made from |
| ShareHash.LoadsOfSnapshotToken | cad-lite-v1.2.25.js:2364-2370 | as written an object-JSON token fails; corrected it restores the snapshot |
| ShareHash.ShareLinkNeverLoadsAsWritten | cad-lite-v1.2.25.js:2364-2370 | as written no share link made from a snapshot ever loads |
| ShareHash.ShareLinkLoads | cad-lite-v1.1.28.js:1389-1393 | with the text handed on, every share link restores exactly its snapshot |
| ShareHash.EmptyShareLinkFails | cad-lite-v1.2.25.js:2336-2349 | a link made while the snapshot failed loads nothing |
| Project.FindPiece | cad-lite-v1.2.25.js:3475 | `findIndex`: none iff no piece has the id, otherwise the first that has it |
| Project.MakeLayout | cad-lite-v1.2.25.js:811-824 | the given id; the name or "Layout 1" when empty, never empty; a 180 x 120 canvas at scale 6 and grid 1, grid shown; no pieces, lines or overlays, none selected |
| Project.LayoutTitle | cad-lite-v1.2.25.js:3692 | never empty: the layout's name when it has one, otherwise "Layout idx+1" |
| Project.LastSelected | cad-lite-v1.2.25.js:706 | none iff the list is empty or its last id is empty; otherwise that last id |
| Project.IsNudgeTarget | cad-lite-v1.2.25.js:747-749 | the pieces the arrow keys move: the selected ids, or, with none, the first piece with `selectedId` (a predicate without a contract; `NudgePieces` states its effect) |
| Project.FindUnique | cad-lite-v1.2.25.js:3475 | with distinct ids the found piece is the one with the id |
| Project.MovedKeepsUniqueIds | cad-lite-v1.2.25.js:3553-3583 | a drag-and-drop reorder keeps the ids distinct |
| Project.MovedAt | cad-lite-v1.2.25.js:3553-3583 | each entry of the moved list comes from its source position |
| Project.RemovedPiece | cad-lite-v1.2.25.js:3472-3485 | splicing out a piece keeps ids distinct and frees its id |
| Project.Capture | cad-lite-v1.2.25.js:3238-3240 | no longer than the pieces; every selected piece's member is in the group and every member is a selected piece's |
| Project.CaptureAppend | cad-lite-v1.2.25.js:3238-3240 | the group of two runs of pieces is the first run's then the second's: list order and one member per selected piece |
| Project.CaptureOne | cad-lite-v1.2.25.js:3238-3240 | one piece gives its member iff its id is selected, otherwise nothing |
| Project.CaptureAllSelected | cad-lite-v1.2.25.js:3238-3240 | with every piece selected, member k is piece k's, one per piece |
| Project.GroupStaysInside | cad-lite-v1.2.25.js:4068-4090 | the clamped delta keeps every member inside the canvas, and is the raw delta iff that already does |
| Project.LastMember | cad-lite-v1.2.25.js:4080-4088 | the last group member with the id, none iff there is none |
| Project.DroppedPiece | cad-lite-v1.2.25.js:1588-1617 | a group piece snaps onto the grid with only x and y changed, others unchanged |
| Project.DropTwice | cad-lite-v1.2.25.js:1588-1617 | dropping twice is dropping once |
| Project.DropMayCrossEdge | cad-lite-v1.2.25.js:1588-1617 | the snap at drop can push a piece past the canvas edge (24-inch piece at 10.6 on a 34.6 canvas) |
| Project.Loaded | cad-lite-v1.2.25.js:4456-4505 | the layout keeps its invariant; pieces imported when the file has them; only settings and pieces change |
| Project.Nudged | cad-lite-v1.2.25.js:741-769 | only x and y change; in the canvas when the piece fits; the snapped position when it fits |
| Project.NormalizePieces | cad-lite-v1.2.25.js:1530-1533 | the pieces get `Normalized` layers |
| Project.LayersByPosition | cad-lite-v1.2.25.js:3583 | the pieces get their positions as layers |
| Project.BumpLayer | cad-lite.js:906-911 | only piece j's layer changes, by d, ids kept |
| Project.Restacked | cad-lite-v1.2.25.js:1534-1553 | restacking keeps the ids |
| Project.ShiftPieces | cad-lite-v1.2.25.js:1534-1553 | the pieces get the `Shifted` layers |
| Project.ExchangePieces | cad-lite-v1.2.25.js:1538-1541 | the pieces get the `Exchanged` layers |
| Project.SameButLayers | cad-lite-v1.2.25.js:1532 | lists that differ only in layers are equal after `WithLayers` |
| Project.SameIdsUnique | cad-lite-v1.2.25.js:1532 | the same ids stay distinct |
| Project.PlacedAt | cad-lite-v1.2.25.js:4080-4088 | only the piece with the id moves, to (x, y) |
| Project.SnappedAt | cad-lite-v1.2.25.js:1588-1617 | only the piece with the id is snapped |
| Project.LastMemberSnoc | cad-lite-v1.2.25.js:4080-4088 | the last member after one more member |
| Project.DragPieces | cad-lite-v1.2.25.js:4080-4088 | each piece goes where its last group member puts it, the rest stay |
| Project.DraggedPiece | cad-lite-v1.2.25.js:4084-4089 | a group member lands at its starting point plus the clamped delta; only x and y change; a piece outside the group stays |
| Project.DropPieces | cad-lite-v1.2.25.js:1588-1617 | each group piece is dropped onto the grid, the rest stay |
| Project.NudgePieces | cad-lite-v1.2.25.js:741-769 | every target piece is `Nudged`, the others stay |
| Project.ArrowDelta | cad-lite-v1.2.25.js:753-757 | left and right move only x, up and down only y; left and up by minus the step, right and down by the step |
| Project.ClampPieces | cad-lite-v1.2.25.js:4301-4302 | every piece is clamped into the canvas |
| Project.GroupBounds | cad-lite-v1.2.25.js:3242-3248 | the group's bounding box over its members |
| Project.DragLimits | cad-lite-v1.2.25.js:3249-3254 | the limits that keep the group on the canvas from those bounds |
| Project.Editor.constructor | cad-lite-v1.2.25.js:811-825 | one empty layout, nothing selected, no tool active |
| Project.Editor.SetCur | cad-lite-v1.2.25.js:827 | only the current layout is replaced |
| Project.Editor.SetSelection | cad-lite-v1.2.25.js:703-706 | `Array.from(new Set(ids))`: duplicate-free in first-occurrence order with the same values, `selectedId` the last |
| Project.Editor.SelectOnly | cad-lite-v1.2.25.js:707 | only the id selected |
| Project.Editor.ToggleSelect | cad-lite-v1.2.25.js:708-711 | the id's membership flips, the rest keep theirs; a new id goes last |
| Project.Editor.ClearSelection | cad-lite-v1.2.25.js:712-713 | the selection is empty |
| Project.Editor.NormalizeLayers | cad-lite-v1.2.25.js:1530-1533 | the current layout's layers become a ranking as `Normalized` says |
| Project.Editor.Restack | cad-lite-v1.2.25.js:3850-3857 | the current layout's pieces restacked as the release does, nothing else changed |
| Project.Editor.BringForward | cad-lite-v1.2.25.js:1534-1543 | Forward on piece j |
| Project.Editor.SendBackward | cad-lite-v1.2.25.js:1544-1553 | Backward on piece j |
| Project.Editor.ReorderPieces | cad-lite-v1.2.25.js:3553-3583 | nothing for `to == from` or negative; otherwise moved and layers by position |
| Project.Editor.AddPiece | cad-lite-v1.2.25.js:4398-4431 | `NewPiece` appended and selected |
| Project.Editor.DuplicatePieceAt | cad-lite-v1.2.25.js:3450-3462 | `CopyPiece` of piece j appended and selected |
| Project.Editor.DeletePiece | cad-lite-v1.2.25.js:3472-3485 | the piece with the id is spliced out and the selection cleared; no such id, nothing changes |
| Project.Editor.ClampAll | cad-lite-v1.2.25.js:4301-4302 | every piece of the current layout clamped |
| Project.Editor.SetCanvasWidth | cad-lite-v1.2.25.js:4301 | width at least 12, then every piece clamped |
| Project.Editor.SetCanvasHeight | cad-lite-v1.2.25.js:4302 | height at least 12, then every piece clamped |
| Project.Editor.SetGrid | cad-lite-v1.2.25.js:4303 | grid at least a quarter inch |
| Project.Editor.AddLayout | cad-lite-v1.2.25.js:3740-3749 | "Layout n+1" appended with a 180 x 120 canvas and no pieces, and made active |
| Project.Editor.DuplicateLayout | cad-lite-v1.2.25.js:3708-3715 | a copy with a new id and " Copy" right after the original; `active` kept as an index |
| Project.Editor.DeleteLayout | cad-lite-v1.2.25.js:3721-3732 | refused for the last layout or without confirmation; otherwise spliced, `active` pulled back in range, selection cleared |
| Project.Editor.SelectLayout | cad-lite-v1.2.25.js:3677-3685 | that layout becomes active and `selectedId` is cleared |
| Project.Editor.StartDrag | cad-lite-v1.2.25.js:3222-3256 | Ctrl toggles, a plain press selects only the piece unless selected; the group captured with its limits |
| Project.Editor.MoveDrag | cad-lite-v1.2.25.js:4068-4090 | no drag, nothing; otherwise each member at its start plus the clamped delta |
| Project.Editor.EndPointerDrag | cad-lite-v1.2.25.js:1588-1617 | the group snapped to the grid and the drag ended |
| Project.Editor.Nudge | cad-lite-v1.2.25.js:741-769 | each target moved one grid step (four with Shift), snapped and clamped |
| Project.Editor.AddOverlayPhoto | cad-lite-v1.2.25.js:550-562 | the overlays are `AddOverlay` of a `NewOverlay` |
| Project.Editor.DeleteOverlayAt | cad-lite-v1.2.25.js:687-693 | the overlays are `DeleteOverlay` |
| Project.Editor.SelectOverlayAt | cad-lite-v1.2.25.js:244-249 | the selection is `SelectOverlay` |
| Project.Editor.ToggleOverlayClip | cad-lite-v1.2.25.js:1519-1525 | the clip flag flips |
| Project.Editor.ToggleDimTool | cad-lite-v1.2.25.js:4359-4364 | the tool flag flips and, on every press, the half-made dimension and the selected line are forgotten; this is the handler assigned last, which replaces the one at :4150-4157 |
| Project.Editor.DimClick | cad-lite-v1.2.25.js:4190-4235 | off or on a line, nothing; the first click stores the point, the second appends and selects the dimension |
| Project.Editor.PressDimLine | cad-lite-v1.2.25.js:3268-3330 | the line selected, `selectedId` cleared, a drag started by `StartDimDrag` |
| Project.Editor.MoveDimDrag | cad-lite-v1.2.25.js:4160-4182 | the dragged line's offset becomes `DragOffset`; no drag or no line, nothing |
| Project.Editor.DeleteSelectedDim | cad-lite-v1.2.25.js:716-738 | the first dimension with the selected id removed and the selection cleared; none, nothing |
| Project.Editor.DeleteDimRow | cad-lite-v1.2.25.js:3631-3647 | the row's dimension removed; the selection cleared only if it was this one |
| Project.Editor.LoadLayout | cad-lite-v1.2.25.js:4456-4505 | the project fields the file gives, the layout `Loaded`, `selectedId` cleared |

## Left out

- Rendering is not modelled: the DOM, SVG path strings, canvas drawing, PDF export and the slab image fetch are not part of this model. `Overlays` and `Sinks.RoundedRectPath` model the values those drawings are built from.
- Files, local storage, the clipboard, `location.hash` writes and confirm dialogs are not modelled. Their inputs and outcomes are parameters: a parsed file, a `confirmed` flag, a hash string.
- `uid()` and `Math.random()` ids are parameters. Where the source relies on fresh ids, the model assumes they are distinct from the ids in use.
- `Math.sqrt`, `Math.cos` and `Math.sin` are parameters (`sqrt`, `Trig`). Only their values at 0 and 90 degrees are assumed (`Geometry.Exact`), plus an exact square root where a lemma says so.
- IEEE floating point is modelled as exact reals. NaN appears only as a missing number in `Import`; Infinity does not appear.
- JSON is modelled only as far as the share link needs it. Object JSON text parses to an object, and `String` of an object is "[object Object]". Snapshots are opaque strings.
- `snapshotState` and `applySnapshot`'s rebuilding of the state are not modelled. `History` stores and restores snapshot strings. The editor's methods do not push history entries.
- The full-project import branch (`layouts` arrays) and edge profiles are not modelled. Only the single-layout `loadLayout` is.
- The overlay property inputs (x, y, opacity, slab size) are not modelled, nor is the dimension pointer-move's hover marker. Both only set one field or draw.
- LZString's dictionary is a JavaScript object here. A phrase such as `__proto__` would behave differently in the source's plain-object dictionary; that is not captured.
- `decompressFromEncodedURIComponent` is modelled as written, without a space-to-plus replacement.
- Project.GroupBounds: an empty group gives zero bounds instead of the source's infinite ones, so it states nothing for an empty group.
- Project.DragLimits: states nothing for an empty group, for the same reason.
- Pieces.DuplicatePiece: modelled but called from no button, as in the source. The buttons use `CopyPiece`.
- Project.Restacked: its own contract only keeps the ids. What the stack becomes is stated by `Layers.ShiftedSwapsNeighbour` and `Project.BumpLayer`.
- Project.Editor.DuplicateLayout: leaves `active` as an index, as the source does. Copying a layout before the active one therefore changes the layout shown.
- Sinks.DefaultSink: requires a non-empty catalogue. With an empty `models` override the module's `createDefaultSink` throws on `state.models[0].id`; that error is not modelled.
- Sinks.SinkCard.Add: requires a non-empty catalogue, for the same reason.
- Import.ImportPiece: names, colours and sink ids arrive as strings, `""` standing for any falsy value; a number or an object in those fields is not modelled.
- Pointer-to-inch conversion belongs to the caller. Drag and dimension methods take inches, or pixels where the source works in pixels.

## Findings

| source | as written | input that shows it | evidently intended | confidence | as-written member | corrected member |
|---|---|---|---|---|---|---|
| cad-lite-v1.2.25.js:2364-2370 | the v2 branch runs `JSON.parse` on the decompressed text and passes the resulting object to `applySnapshot`, which parses its argument again; `String(object)` is "[object Object]", that parse throws, and the load fails | any hash `copyShareLink` writes for a state whose snapshot is object JSON | hand the decompressed text to `applySnapshot`, as cad-lite-v1.1.28.js:1389-1393 does | not executed | ShareHash.ShareLinkNeverLoadsAsWritten | ShareHash.ShareLinkLoads |
