# Raytracer core in Dafny

This project models the integer and selection logic of the raytracer's frame loop
in `src/main.cpp`. It covers five pieces:

- how `render` enumerates the canvas and cuts it into batches;
- how `get_pixels` raytraces one batch;
- how `raytrace` chooses the hit that colours a ray;
- the two coordinate maps, `canvas_to_view_transform` and `change_to_matrix_coords`;
- the final merge, where every pixel is drawn at its matrix position.

The value types come from `include/generic.h`.

- `generic.dfy` (module `Generic`) holds the records `Point`, `CanvasPoint`, `Color` and
  `Intercept`. It also writes out the two C++ conversions the logic depends on:
  - integer division truncates toward zero (`CDiv`);
  - a `double` stored into an `int` is truncated (`TruncToInt`), and that is defined
    only for values strictly between INT_MIN − 1 and INT_MAX + 1, whose truncation is a
    32-bit value.
- `transforms.dfy` (module `Transforms`) holds the canvas-to-view map and the
  canvas-to-matrix map, with the 32-bit overflow conditions under which each is
  defined.
- `raytrace.dfy` (module `HitSelection`) holds the hit selection.
  - The loop in `raytrace` is a method. It is proved against `Select`, a function
    over the prefix of objects already examined.
  - Each object's ray test is an input, the `Intercept` it reports for this ray.
  - The lighting pass that colours a chosen hit is a parameter,
    `shade(index, hitPoint)`.
- `render.dfy` (module `Render`) holds the batching and drawing.
  - The batch loop of `render` and the loop of `get_pixels` are methods.
  - The window renderer is a map from matrix position to the colour drawn there.
  - The asynchronous batches run one after another, in the order their futures are
    joined.

Hit selection follows the code. A nearest-hit search would pick the nearest hit and
give ties to the first object. The code does keep the first object on ties, because
it compares with a strict `<`. But it stores the running best in an
`int`, so every chosen distance is truncated. A later hit whose distance has the same
whole part therefore does not replace the current choice. `SelectIsFirstNearestByWholeUnits`
states this exactly, and `TruncationKeepsFartherHit` exhibits it.

## Model

| member | source | states |
|---|---|---|
| Generic.CDiv | src/main.cpp:22-23 | the quotient is truncated toward zero: bounded by the dividend from below for non-negative dividends and from above for negative ones |
| Generic.TruncToInt | src/main.cpp:63 | a double in the 32-bit conversion range becomes a 32-bit int no farther than one unit from it, on the side of zero |
| Transforms.CanvasToView | src/main.cpp:21-27 | canvas pixel (x, y) becomes exactly the view point (x, y, 1000), and both coordinates fit a float without loss |
| Transforms.ChangeToMatrixCoords | src/main.cpp:36-40 | MatrixToCanvas undoes the map; canvas columns land in [0, 1000) and canvas rows in (0, 1000] |
| Transforms.OnCanvasDefined | src/main.cpp:120-121 | every coordinate the render loops produce has overflow-free int arithmetic in both transforms |
| Transforms.MatrixCoordsInjective | src/main.cpp:36-40 | distinct canvas pixels go to distinct matrix positions |
| Transforms.MatrixImage | src/main.cpp:36-40 | the matrix positions reached from the canvas are exactly columns [0, 1000) and rows (0, 1000], so row 0 is never produced |
| HitSelection.Select | src/main.cpp:54-69 | after the loop, either nothing was chosen and the state is still (INT_MAX, black, origin), or the chosen object is a hit below INT_MAX and the state holds its colour, its point and its truncated distance |
| HitSelection.Raytrace | src/main.cpp:48-83 | the loop computes Select's state, and the result is the shaded colour of the chosen hit, or black when no object reports a hit |
| HitSelection.NoSelectionIffNoEligibleHit | src/main.cpp:59-69 | no object is chosen if and only if no object reports a hit nearer than INT_MAX |
| HitSelection.NoHitIsBlack | src/main.cpp:71-82 | with no hit at all, the returned colour is black |
| HitSelection.LaterHitsDoNotReplace | src/main.cpp:62-63 | every hit after the chosen object is at least as far as the chosen object's truncated distance |
| HitSelection.FirstNearestUnique | src/main.cpp:59-69 | at most one object is the first one with the least whole-unit distance |
| HitSelection.SelectedIsFirstNearest | src/main.cpp:59-69 | when hits lie in front of the origin, the chosen object is the first one with the least whole-unit distance |
| HitSelection.SelectIsFirstNearestByWholeUnits | src/main.cpp:54-69 | when hits lie in front of the origin, object k is chosen if and only if it is the first one with the least whole-unit distance, and nothing is chosen if and only if no hit is below INT_MAX |
| HitSelection.EarlierHitsAreFarther | src/main.cpp:62 | ties go to the earliest object: every earlier eligible hit is strictly farther than the chosen one |
| HitSelection.InFrontHitsConvertible | include/render_object.h:42-69 | hits at a non-negative distance, as the sphere test reports them (only for distances above 0 and below INT_MAX), can always be converted to int |
| HitSelection.TruncationKeepsFartherHit | src/main.cpp:62-63 | hits at 3.7 then 3.2 choose the first, farther one, with running best 3 |
| Render.FlattenMember | src/main.cpp:122-126 | a coordinate is in the concatenated batches if and only if it is in one batch |
| Render.DistinctBatchesDisjoint | src/main.cpp:122-126 | batches whose concatenation has no repeats share no coordinate |
| Render.FlattenLength | src/main.cpp:123-133 | with all but the last batch of the same size, the total is that size times the full batches plus the last batch |
| Render.ColumnStep | src/main.cpp:121-122 | one more pass of the inner loop appends (i, j) at the end of the column |
| Render.GridStep | src/main.cpp:120-122 | one more pass of the outer loop appends a whole column at the end |
| Render.ColumnMembers | src/main.cpp:121-122 | the inner loop produces exactly (i, j) for j in its bounds, in increasing j, hi - lo of them |
| Render.GridMembers | src/main.cpp:120-122 | the nested loops produce exactly the coordinates of the rectangle |
| Render.GridColumnMajor | src/main.cpp:120-122 | the nested loops produce coordinates with i outer and j inner, strictly increasing, so with no repeats |
| Render.GridLength | src/main.cpp:120-122 | the nested loops produce width times height coordinates |
| Render.EnumerationMembers | src/main.cpp:120-122 | render enumerates exactly [-w/2, w/2) x [-h/2, h/2) |
| Render.EnumerationLength | src/main.cpp:120-122 | render enumerates (2(w/2))(2(h/2)) coordinates, so an odd dimension loses one column or row |
| Render.EnumerationExact | src/main.cpp:120-122 | every coordinate of the rectangle appears exactly once, in i-outer, j-inner order |
| Render.EnumerationMember | src/main.cpp:120-121 | one coordinate is enumerated if and only if it lies in the rectangle |
| Render.PartitionBatches | src/main.cpp:116-134 | the batches concatenate to the enumeration; none is empty; all but the last hold exactly BATCH_SIZE coordinates and none holds more |
| Render.BatchCount | src/main.cpp:123-133 | the number of batches is the coordinate count divided by the batch size, rounded up |
| Render.ScreenConstants | src/main.cpp:112-114 | the screen has 1000000 pixels and a batch 125000 |
| Render.ScreenArea | src/main.cpp:113-122 | the screen's enumeration has AREA coordinates |
| Render.ScreenBatches | src/main.cpp:112-134 | AREA coordinates, cut as the batch loop cuts them, make exactly 8 batches of 125000 |
| Render.EachCoordinateInOneBatch | src/main.cpp:116-134 | every coordinate of the rectangle lies in exactly one batch, and the batches hold nothing else |
| Render.GetPixels | src/main.cpp:94-108 | one pixel per coordinate, in order, each carrying its coordinate and the raytraced colour of its view point |
| Render.BatchTraceable | src/main.cpp:100-104 | every canvas pixel of a batch can be transformed and raytraced |
| Render.BatchesInRectangle | src/main.cpp:116-134 | every batch holds coordinates of the enumerated rectangle only |
| Render.ScreenPartition | src/main.cpp:112-134 | with the screen's constants: 8 batches of 125000 canvas pixels, pairwise disjoint, whose matrix positions are exactly columns [0, 1000) and rows (0, 1000] |
| Render.Draw | src/main.cpp:42-46 | for any pixel whose matrix arithmetic does not overflow, drawing it sets the colour at its matrix position and leaves every other position unchanged |
| Render.ScreenFrame | src/main.cpp:120-145 | the matrix positions of the screen's batches are exactly columns [0, 1000) and rows (0, 1000] |
| Render.FramePosition | src/main.cpp:36-46 | a matrix position is drawn if and only if it lies in columns [0, 1000) and rows (0, 1000] |
| Render.DrawBatches | src/main.cpp:136-147 | after the join loop, the frame has a colour exactly at the matrix positions of the batches' coordinates, each the raytraced colour of the canvas pixel drawn there |
| Render.Render | src/main.cpp:110-148 | the finished frame covers exactly columns [0, 1000) and rows (0, 1000], and each position holds the raytraced colour of its canvas pixel, whatever the batching |

## Left out

- The SDL window, event loop and presentation are not modelled. `SDL_RenderDrawPoint` becomes a map update, so the window's clipping of row 1000 is not modelled; the map keeps that row.
- The `std::async` dispatch and the concurrency it brings are not modelled. The batches run sequentially in join order. Each batch writes distinct positions (`EachCoordinateInOneBatch`, `MatrixCoordsInjective`), so the order does not change the frame.
- The lighting pass in `raytrace` (src/main.cpp:71-78) is not modelled: lights, intensities and `color_scalar` are floating-point code. It is the parameter `shade`, applied to the chosen object and hit point.
- The ray–sphere test, vector algebra, lights, random jitter, scene updates and `free_memory` are not modelled. Each object's `Intercept` for a ray is an input (`traceAt`).
- HitSelection.Raytrace: the hit distances are exact reals, not IEEE doubles. NaN and rounding are not modelled.
- `view_to_canvas_transform` and `get_pixel` are not modelled. Neither is used by the frame loop.
- Render.Render: it takes as a precondition that every canvas pixel's hits can be converted to `int` (`CanvasTraceable`). `raytrace` itself does not check this: a hit at or below INT_MIN − 1 would be undefined behaviour. The sphere test reports a hit only at a distance above 0 (include/render_object.h:56, 64), so the precondition holds for every scene the program builds (`InFrontHitsConvertible`).
