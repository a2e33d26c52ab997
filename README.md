# Image quilting: a verified model of the quilter core

This project models the core of an Efros–Freeman image-quilting program in
Dafny and proves properties of it. The program builds a large texture from a
small source texture. It places square-ish tiles on a canvas row by row,
and each new tile overlaps its left and upper neighbours by a seam strip.

The model covers three parts:

- **The minimum-cost seam** (`seam_dp.dfy`, `seam_carving.dfy`).
  - A dynamic program fills a cost grid row by row, with one row per step of the seam. Neighbours outside the grid count as +∞, and ties break left, then middle, then right.
  - The scan takes the first cheapest cell of the last row, and the backtrack follows the stored offsets back up.
  - The fill and the backtrack are imperative methods over `array2` grids. They are proved against an abstract dynamic program (`SeamDp.Cell`, `SeamDp.SeamOfGrid`), and that program is proved optimal against every path that moves by at most one per step.
  - The horizontal seam is the same program over the transposed error grid.
- **The overlap error metric** (`error_metrics.dfy`).
  - A windowed sum of squared luminance differences, computed by a double loop.
  - The mean of that sum over the overlap region: none, a left strip, a top strip, or an L-shape made of three rectangles.
  - Proved: the sum splits additively over adjacent windows, the L-shape's rectangles are disjoint with the stated pixel count, and every case equals the overlap's total error over its total pixel count.
- **The quilter** (`tile_grid.dfy`, `candidates.dfy`, `texture_quilter.dfy`).
  - A class with the tile, seam and tolerance parameters and the two feature flags. Its setters change only their own fields.
  - The tile-grid arithmetic and the crop.
  - The candidate selection: a scan that inserts into an error-keyed multimap, the tolerance band, and a uniform draw.
  - The seam-masked, in-place compositing of a tile into the canvas.

Pixels are triples of `real`s (`pixels.dfy`). A texture is an `array2<Rgb>`
indexed `[row, column]`. A tile view into the source is the source array plus
the tile's origin. The random engine is a class holding a stream of draws.

## Model

| member | source | states |
|---|---|---|
| `Pixels.MetricError` | src/ErrorMetrics.cpp:17 | The overlap metric's pointwise error, the squared luminance of the difference, is non-negative and zero for equal pixels. |
| `Pixels.SeamError` | src/SeamCarving.cpp:13-17 | The seam's pointwise error, the squared luminance of the absolute difference, is non-negative and zero for equal pixels. |
| `ErrorMetrics.CalculateErrorSum` | src/ErrorMetrics.cpp:6-21 | The column-outer, row-inner accumulation equals the sum of the metric error over the width×height window, A at (xA+ix, yA+iy) against B at (xB+ix, yB+iy). The sum is non-negative, and zero for an empty window. |
| `ErrorMetrics.EmptyWindowSum` | src/ErrorMetrics.cpp:11-20 | A window with no columns or no rows sums to 0. |
| `ErrorMetrics.WindowSumSplitColumns` | src/ErrorMetrics.cpp:12-19 | A window split into a left and a right part sums to the sum of the parts. |
| `ErrorMetrics.WindowSumSplitRows` | src/ErrorMetrics.cpp:12-19 | A window split into a top and a bottom part sums to the sum of the parts. |
| `ErrorMetrics.CalculateMSE` | src/ErrorMetrics.cpp:23-70 | The mean overlap error is non-negative, and it is 0 for the first tile (tgtX ≤ 0 and tgtY ≤ 0). |
| `ErrorMetrics.LeftStripMean` | src/ErrorMetrics.cpp:36-44 | In the first row the result is the seamW×tileH sum over seamW·tileH, which is the overlap's error over its pixel count. |
| `ErrorMetrics.TopStripMean` | src/ErrorMetrics.cpp:46-54 | In the first column the result is the tileW×seamH sum over tileW·seamH, which is the overlap's error over its pixel count. |
| `ErrorMetrics.LShapeMean` | src/ErrorMetrics.cpp:56-69 | Elsewhere the three rectangle sums are added and divided once by the total pixel count. This equals the overlap's error over its pixel count, not a mean of per-rectangle means. |
| `ErrorMetrics.MseIsOverlapMean` | src/ErrorMetrics.cpp:33-69 | Whenever the tile has an overlap, the result is the metric error summed over exactly the overlap pixels, divided by their positive number. |
| `ErrorMetrics.OverlapSumShape` | src/ErrorMetrics.cpp:56-63 | The error over the overlap equals the left-strip window sum plus the window sum of the part of the top strip right of it. |
| `ErrorMetrics.OverlapCountShape` | src/ErrorMetrics.cpp:65-67 | The number of overlap pixels among the first w tile columns is the left-strip part plus the top-strip part. |
| `ErrorMetrics.LShapePixelCount` | src/ErrorMetrics.cpp:56-67 | The corner, the left strip below it and the top strip right of it are pairwise disjoint and together make up the overlap. Their counts add up to seamW·tileH + seamH·tileW − seamW·seamH. |
| `SeamDp.PickOffset` | src/SeamCarving.cpp:34-39 | The chosen offset is in {−1, 0, +1}, is never an out-of-grid neighbour, is a cheapest neighbour, and is strictly cheaper than every neighbour earlier in the order left, middle, right. |
| `SeamDp.Cell` | src/SeamCarving.cpp:22-40 | The stored offset of every later cell is in {−1, 0, +1} and leads to a cell inside the grid. |
| `SeamDp.TieBreak` | src/SeamCarving.cpp:22-40 | A later cell costs its cheapest in-grid predecessor plus its own error. The stored offset is the first cheapest in the order left, middle, right, and out-of-grid neighbours count as +∞. |
| `SeamDp.Backtrack` | src/SeamCarving.cpp:111-118 | Following the stored offsets back from a cell gives one position per step, each inside the grid, moving by at most one per step. |
| `SeamDp.BacktrackFollowsOffsets` | src/SeamCarving.cpp:111-118 | Every entry of the backtracked path is its successor plus the offset stored at the successor. |
| `SeamDp.FollowsOffsetsIsBacktrack` | src/SeamCarving.cpp:111-118 | Conversely, a path that follows the stored offsets is the backtrack from its last position. |
| `SeamDp.FirstMinCol` | src/SeamCarving.cpp:99-109 | The scan's result is a cheapest cell of the step and strictly cheaper than every cell before it, so it is the first minimum in ascending order. |
| `SeamDp.BacktrackCost` | src/SeamCarving.cpp:19-40 | The summed pointwise error along the backtracked path equals the cost the starting cell stores. |
| `SeamDp.CellIsLowerBound` | src/SeamCarving.cpp:22-40 | No path that moves by at most one per step costs less than the cell it ends at stores. |
| `SeamDp.SeamOfGridIsOptimal` | src/SeamCarving.cpp:99-118 | With at least one cut position the seam exists and has one entry per step. It moves by at most one, ends at the first cheapest last-step cell, and costs what that cell stores. It costs no more than any other such path. |
| `SeamCarving.ComputeVerticalSeamCost` | src/SeamCarving.cpp:3-42 | After the fill, every cell of the height×(width−1) grid holds the dynamic program's cost. Row 0's cost at column c is the squared luminance of the channel-wise absolute difference between canvas pixel (yA, xA+c) and tile pixel (yB, xB+c+1). Every cell below row 0 holds its offset too, while row 0 keeps its old offsets. |
| `SeamCarving.VerticalSeamCostRow` | src/SeamCarving.cpp:22-41 | One pass of the outer loop sets row yi to the dynamic program's cells and leaves every other row as it was. |
| `SeamCarving.VerticalSeamCostCell` | src/SeamCarving.cpp:26-39 | A cell below row 0, computed from the row above as it stands in the grid, is the dynamic program's cell: the cheapest neighbour above, ties going left then middle, plus the cell's own error, with that neighbour's offset. |
| `SeamCarving.ComputeHorizontalSeamCost` | src/SeamCarving.cpp:44-83 | The same for the transposed (height−1)×width grid, filled column by column. Column 0's cost at row r is the squared luminance of the channel-wise absolute difference between canvas pixel (yA+r, xA) and tile pixel (yB+r+1, xB). |
| `SeamCarving.HorizontalSeamCostColumn` | src/SeamCarving.cpp:63-82 | One pass sets column xi to the dynamic program's cells and leaves every other column as it was. |
| `SeamCarving.HorizontalSeamCostCell` | src/SeamCarving.cpp:67-80 | The same for a cell right of column 0, computed from the column to its left. |
| `SeamCarving.ScanLastRow` | src/SeamCarving.cpp:99-109 | The scan finds the first cheapest column of the last row and the column its stored offset leads to. With no column, both stay −1. |
| `SeamCarving.ScanLastColumn` | src/SeamCarving.cpp:137-147 | The same scan over the last column of the transposed grid. |
| `SeamCarving.VerticalSeamFromCosts` | src/SeamCarving.cpp:99-120 | The scan and backtrack over a filled grid return the dynamic program's seam. |
| `SeamCarving.HorizontalSeamFromCosts` | src/SeamCarving.cpp:137-158 | The same for the transposed grid. |
| `SeamCarving.FindVerticalMinCostSeam` | src/SeamCarving.cpp:85-121 | The returned seam is the dynamic program's seam of the vertical error grid. It is None exactly when width is 1 and height is at least 2, where the source would read column −1. |
| `SeamCarving.FindHorizontalMinCostSeam` | src/SeamCarving.cpp:123-159 | The transposed seam. It is None exactly when height is 1 and width is at least 2. |
| `SeamCarving.VerticalSeamIsCheapest` | src/SeamCarving.cpp:85-121 | For width ≥ 2 the vertical seam exists and has height entries, each in [0, width−2], moving by at most one per row. It costs no more than any such path. |
| `SeamCarving.HorizontalSeamIsCheapest` | src/SeamCarving.cpp:123-159 | For height ≥ 2 the horizontal seam exists and has width entries, each in [0, height−2], moving by at most one per column. It costs no more than any such path. |
| `TileGrid.CeilDiv` | src/TextureQuilter.cpp:55-60 | The ceiling of a quotient by a positive divisor: q−1 times the divisor is below a, and q times it is at least a. |
| `TileGrid.CanvasCoversTarget` | src/TextureQuilter.cpp:55-65 | The canvas of tileCount tiles is at least as long as the target, so the crop fits. One tile fewer would fall short. |
| `TileGrid.TileCountPositive` | src/TextureQuilter.cpp:55-60 | The tile count is at least 1 exactly when the target is longer than the seam. |
| `TileGrid.NeighboursOverlapBySeam` | src/TextureQuilter.cpp:74-78 | Consecutive tiles overlap by exactly the seam. |
| `TileGrid.TilesInsideCanvas` | src/TextureQuilter.cpp:62-63 | Every tile origin i·(tile−seam) is non-negative and its tile ends inside the canvas. The last tile ends exactly at the canvas edge. |
| `TileGrid.TilesCoverCanvas` | src/TextureQuilter.cpp:62-87 | Every canvas position lies in some tile. |
| `TileGrid.GridOrigins` | src/TextureQuilter.cpp:72-87 | The visiting order lists countX·countY origins. Visit k is the tile in column k mod countX of row k div countX, at (column·(tileW−seamW), row·(tileH−seamH)). |
| `TileGrid.GridOriginsRowMajor` | src/TextureQuilter.cpp:72-87 | The origins in visiting order are strictly row-major, so no tile is visited twice. |
| `TileGrid.RowPrefixInGrid` | src/TextureQuilter.cpp:72-87 | The rows before row r followed by the first k+1 tiles of row r are a prefix of the whole visiting order. |
| `Candidates.Insert` | src/TextureQuilter.cpp:125 | Inserting into the multimap keeps it sorted by error and adds exactly the new entry. The entry goes at the upper bound of its key, after every equal key, and taking it out gives the old list back. |
| `Candidates.InsertKeepsIterationOrder` | src/TextureQuilter.cpp:116-127 | Inserting in scan order keeps the multimap in iteration order: ascending error, and scan order among equal errors. |
| `Candidates.AcceptWithinTolerance` | src/TextureQuilter.cpp:129-138 | The accepted origins are a prefix of the sorted list. A candidate is accepted exactly when its error is at most the first error times 1+tolerance. With a non-negative tolerance and error the prefix is non-empty. |
| `Quilting.RandomSource.UniformInt` | src/TextureQuilter.cpp:103-109 | A draw over [lo, hi] lies in the closed range and consumes one value of the stream. |
| `Quilting.DefaultSeam` | src/TextureQuilter.cpp:21-22 | The default seam is a sixth of the side, at least 1. It is 1 below 12, and less than the side from 2 on. |
| `Quilting.TextureQuilter.constructor` | src/TextureQuilter.cpp:6-14 | The defaults: 3×3 tiles, one-pixel seams, tolerance 0.1, and both refinements on. |
| `Quilting.TextureQuilter.SetTileParams` | src/TextureQuilter.cpp:16-24 | Sets the tile size, the default seams and tolerance 0.1, and keeps both flags. |
| `Quilting.TextureQuilter.SetTileAndSeamParams` | src/TextureQuilter.cpp:26-38 | Sets its five fields and keeps both flags. |
| `Quilting.TextureQuilter.EnableMSESelection` | src/TextureQuilter.cpp:40-43 | Sets the selection flag and keeps every other field. |
| `Quilting.TextureQuilter.EnableMinCut` | src/TextureQuilter.cpp:45-48 | Sets the min-cut flag and keeps every other field. |
| `Quilting.TextureQuilter.CollectCandidates` | src/TextureQuilter.cpp:114-127 | The multimap holds exactly the kept candidates (origins with srcX < srcW−tileW and srcY < srcH−tileH, kept at canvas (0, 0) or when their error exceeds 0.001), each with its error, in iteration order. |
| `Quilting.TextureQuilter.AcceptedWithinBand` | src/TextureQuilter.cpp:129-138 | Every accepted origin is a kept candidate whose error is within the tolerance band of the smallest kept error. |
| `Quilting.TextureQuilter.CollectOne` | src/TextureQuilter.cpp:120-125 | Visiting origin (srcX, srcY) leaves the multimap holding exactly the kept candidates scanned so far, this one included, in iteration order. |
| `Quilting.TextureQuilter.CollectRow` | src/TextureQuilter.cpp:118-126 | One pass of the inner loop extends the multimap to exactly the kept candidates of the rows up to srcY, in iteration order. |
| `Quilting.TextureQuilter.NothingCollected` | src/TextureQuilter.cpp:114-129 | An empty multimap means no origin is kept, and the accepted list is then empty. |
| `Quilting.TextureQuilter.BandIsAccepted` | src/TextureQuilter.cpp:129-138 | The prefix the acceptance loop takes holds only kept origins within the band, holds every kept origin within the band, and keeps the multimap's order. |
| `Quilting.DrawEntry` | src/TextureQuilter.cpp:140-142 | The drawn entry is the list at the next draw mod its length, and one draw is consumed. |
| `Quilting.TextureQuilter.SelectByError` | src/TextureQuilter.cpp:114-142 | The error-biased branch: the accepted list is exactly the kept origins within the band, in multimap order. The result is that list at the next draw mod its length, and None exactly when the list is empty. |
| `Quilting.TextureQuilter.SelectSourceTile` | src/TextureQuilter.cpp:94-145 | Random policy: the origin is (first draw mod (srcW−tileW), second draw mod (srcH−tileH)) and two draws are consumed; None means one of those ranges is empty and no draw is consumed. Error-biased policy: the accepted list is exactly the kept origins within the tolerance band of the best kept error, in multimap order, and the origin is that list at the next draw mod its length, consuming one draw. None means the list is empty, which with a non-negative tolerance is exactly when no candidate is kept. |
| `Quilting.MaskOutsideOverlap` | src/TextureQuilter.cpp:193-209 | With seams inside their strips, a tile pixel beyond both strips is always taken from the tile, and a pixel on or before a seam never is. |
| `Quilting.CopyMasked` | src/TextureQuilter.cpp:155-216 | The copy loops write exactly the tile pixels the mask allows and leave every other canvas pixel unchanged. |
| `Quilting.TextureQuilter.CutSeams` | src/TextureQuilter.cpp:165-209 | The vertical seam is cut for a tile right of the first column and the horizontal one for a tile below the first row, both against the canvas before any write. ok is false exactly where a one-pixel seam would read outside its cost grid. |
| `Quilting.TextureQuilter.CutVertical` | src/TextureQuilter.cpp:195-196 | At this call and the one at lines 167-168, the vertical seam is the minimum-cost seam of the seam strip against the canvas. ok is false exactly for min-cut, a tile right of the first column, a one-pixel seam and a tile at least two pixels high. |
| `Quilting.TextureQuilter.CutHorizontal` | src/TextureQuilter.cpp:198-199 | At this call and the one at lines 181-182, the horizontal seam, with ok false exactly for min-cut, a tile below the first row, a one-pixel seam and a tile at least two pixels wide. |
| `Quilting.TextureQuilter.PlaceTile` | src/TextureQuilter.cpp:147-218 | Only canvas pixels inside the tile rectangle change. With min-cut off or at the first tile, every tile pixel is copied. In the first row a pixel is written iff xi > vseam[yi], in the first column iff yi > hseam[xi], and elsewhere iff both hold. |
| `Quilting.TextureQuilter.PlacedOutsideOverlap` | src/TextureQuilter.cpp:165-209 | With seams of at least two pixels, every tile pixel outside the overlap strips comes from the tile, whatever the seams are. |
| `Quilting.Crop` | src/TextureQuilter.cpp:91 | The crop is a fresh targetH×targetW texture equal to the top-left corner of the canvas. |
| `Quilting.TextureQuilter.QuiltRow` | src/TextureQuilter.cpp:76-86 | One row of tiles is visited left to right at the row's origins. When it stops early, it has visited the first tiles of the row, and at the next origin either the selection is undefined (no room in the source, or no accepted candidate) or the placement is (a one-pixel seam against a longer tile). With the random policy, source room and seams of at least two pixels, it always completes. |
| `Quilting.TextureQuilter.QuiltTexture` | src/TextureQuilter.cpp:50-92 | The canvas is tileCount·tile − (tileCount−1)·seam on each axis. Tile origins are visited row-major, exactly as `TileGrid.GridOrigins` lists them. The result is the targetW×targetH top-left crop of the canvas. It is None only when the visits so far and one more origin form a prefix of the grid and, at that origin, the selection or the placement is undefined. |

`TileGrid.TileCount` (src/TextureQuilter.cpp:55-60) has no contract of its own: its properties are stated by `TileGrid.CanvasCoversTarget` and `TileGrid.TileCountPositive`.

## Left out

- `src/main.cpp` (command-line parsing, image decoding and encoding, directory creation) is not part of this model. All of it is I/O over libraries that are not shown.
- The progress bar of `quiltTexture` is left out because it is console output only.
- Randomness:
  - The engine's seeding from the system's random device is left out.
  - `Quilting.RandomSource.UniformInt` models a draw as the next value of an injected stream reduced into the range. Only the range is proved, not uniformity.
- Floating point:
  - Every `float` is a `real`, so rounding, overflow and NaN are not modelled.
  - The largest-float sentinel for out-of-grid neighbours is an explicit +∞ (`SeamDp.Ext.Inf`).
  - The float `ceil` of the tile count is integer ceiling division.
  - The constants 0.1f and 0.001f are the reals 0.1 and 0.001.
- `Pixels.Lum` uses the Rec. 709 weights. The texture library's luminance is not shown, and no proof depends on the weights.
- The texture library's textures, views and sub-textures are modelled as `array2<Rgb>` plus an origin offset.
- The thread-local reuse of the seam cost grid is left out: a fresh grid is allocated per call. This is an allocation optimisation with no visible effect.
- Undefined behaviour becomes an explicit `None`, and the quilt stops there. This covers:
  - a seam one pixel wide (or high) with a tile at least two pixels long, where the backtrack would read column −1;
  - an empty candidate multimap, whose first entry the source reads;
  - an empty range given to a uniform distribution.
- `Quilting.TextureQuilter.PlaceTile`: requires that the tile and the canvas are different arrays. The source always passes a view of the source texture, so aliasing cannot occur there.
- `ErrorMetrics.CalculateMSE`: requires positive seams no larger than the tile on both axes, even in a branch that does not use that seam (the first tile reads nothing, and a tile in the first column never uses seamW). It also requires the left strip (for tgtX > 0) and the top strip (for tgtY > 0) inside both textures, which is what the branch reads. The source would divide by zero, in float, with an empty seam in a branch that uses it.
- `Quilting.TextureQuilter.QuiltTexture`: requires 0 ≤ seam < tile on both axes, at least one-pixel seams when a refinement is on, and a non-negative target. Other parameters are outside the model. On some of them the source is undefined: it divides by zero in float or allocates a texture of negative size. On others it runs, for example leaving gaps between tiles with a negative seam.
- `Quilting.TextureQuilter.QuiltTexture`: does not state the canvas's final pixels beyond what `PlaceTile` states per tile, or the random stream's position after the quilt. The tile-by-tile placement contract is not composed over the whole grid.
- `Quilting.TextureQuilter.QuiltRow`: does not state the canvas's pixels or the random stream's position after the row. It states only the origins visited and why a row stops early.
