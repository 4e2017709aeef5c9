# A verified model of the reMarkable raster and notebook core

This project models, in Dafny, the core of `remarkablepage`. That package turns a screenshot into strokes for the reMarkable tablet and packs them into a notebook. The model covers three stages:

1. the integer raster pipeline: border padding, convolution, the Laplacian, the back half of the Canny detector and the run-length vectoriser, in the Go code and in the C twin `main.c`;
2. the `.lines` stroke-page encoder;
3. the `.rmdoc` notebook packager.

Each module follows one source file:

| module | file | what it holds |
|---|---|---|
| `Common` | shared | bytes (`Byte`, 0..255), `Option`/`Result`, snapshots of images as `Grid` (rows of bytes) and the bridge `Pixels` from a mutable `array2<Byte>` (indexed `[y, x]`, like `Pix`) to its `Grid`. |
| `Padding` | `custom-padding.go` | `calculatePaddings`, `getRectangleFromPaddings` and `PaddingGray` with its eight replicate/reflect helpers. The helpers are methods that fill the padded buffer loop by loop. Each is proved to leave exactly the cell function of a pure reference definition (`PadWith`). The source's quirks are kept as written: top-replicate reads row `PaddingTop`, reads outside the image give 0, and an anchor equal to the kernel size gives a padding of -1. |
| `Convolution` | `custom_comvolution.go` | `ClampF64` and `ConvolveGray`. Each output pixel is the clamped, unflipped weighted sum of the padded window. |
| `Laplacian` | `custom-laplacian.go` | the two kernels, the dispatch, and the stencils they compute. |
| `Canny` | `canny_edge_detection.go` | non-maximum suppression, the double threshold, `isStrongEdge`, the explicit-stack `traceEdge`, and hysteresis. Hysteresis is characterised exactly: a pixel becomes 255 if and only if it is weak (128) and weakly connected to a weak interior pixel with a 255 in its 3x3 block. |
| `HorizontalLines` | `horizontal_lines.go` | the `isLine`/`from`/`to` scan. It is proved to record exactly the maximal runs, ordered and partitioning the true cells, and to emit the `[from, z, to, z]` / `[from, z]` entries. |
| `Native` | `main.c` | the blur, the Laplace filter, the boolean mask and the C run scanner and writer, over flat row-major buffers (`y * width + x`). |
| `RmPage` | `rmPage.go` | the page and line classes, their append operations and `Export`. The byte layout has proved length formulas and a decoder that inverts it. |
| `RmDoc` | `rmdoc.go` | file-name derivation, the content and metadata records, the ordered archive entries and every fatal-error path. |
| `Resize` | `custom_resize.go` | `ClampInt`, validation and dispatch of `ResizeGray`, output sizes, and the clamped sample windows of the two one-dimensional passes. |

Concurrency in the source is modelled as sequential loops:

- goroutines per row;
- `ParallelForEachPixel`;
- the hysteresis goroutines;
- OpenMP.

Values the program takes from its environment are parameters. Each is modelled as follows:

| source value | in the model |
|---|---|
| `uuid.NewString` | a supply `uuid: nat -> string`; call k returns `uuid(k)` |
| `time.Now` | the parameter `time` |
| zip and JSON library failures | the oracle record `Env` |
| uninitialised C memory | the parameter `memory` |
| `float32` values in the stroke file | opaque 32-bit words |
| the few float operations of `rmPage.go` | function parameters |
| the resampling filters | window and blend functions |

`log.Fatalf` calls and runtime panics become `Err` results. A panic's result carries Go's exact text. A `log.Fatalf` result carries only the fixed text before `: %v`, without the library error that follows it.

The code is followed where the documentation disagrees with it:

- The comment on `K8` (`remarkablepage/custom-laplacian.go:30-34`) shows a 4-neighbour kernel with centre -8. The code uses the 8-neighbour kernel at lines 15-19, and that is modelled.
- `ResizeGray` rejects only negative scale factors (`remarkablepage/custom_resize.go:316-318`). A zero factor is accepted, so the model accepts it too.

## Model

| member | source | states |
|---|---|---|
| Common.Pixels | remarkablepage/custom-padding.go:139-150 | the grid read off a Gray buffer has its dimensions and its pixels |
| Common.Set | remarkablepage/custom-padding.go:148-150 | `setPixel` changes exactly one cell and nothing else |
| Padding.CalculatePaddings | remarkablepage/custom-padding.go:244-256 | each of the three errors occurs exactly under its condition, checked in source order; it succeeds exactly for a non-negative kernel with the anchor in 0..size, and never reports an unknown border; on success left = anchor.X, top = anchor.Y, left+1+right = kernel width, top+1+bottom = kernel height |
| Padding.GetRectangleFromPaddings | remarkablepage/custom-padding.go:261-265 | the padded rectangle minus both margins is the image size |
| Padding.PadWith | remarkablepage/custom-padding.go:139-185 | padding succeeds if and only if the border is one of the three known policies; an unknown border gives the unknown-border error; the result has size (W+left+right) x (H+top+bottom), empty images included; an extent of -1 arises only for an empty image, and `image.Rect` then spans one cell |
| Padding.EmptyImagePadsToZero | remarkablepage/custom-padding.go:139-185 | an image with no column or no row pads to an all-zero buffer under every border |
| Padding.Pad | remarkablepage/custom-padding.go:139-185 | succeeds exactly when the paddings are valid and the border is known; the padded image is (W + kernel width - 1) x (H + kernel height - 1) |
| Padding.PadErrors | remarkablepage/custom-padding.go:142-144 | a padding-computation error is returned unchanged; otherwise the only failure is an unknown border |
| Padding.PadKeepsOriginal | remarkablepage/custom-padding.go:148-150 | under every border, padded(x+left, y+top) = img(x, y) |
| Padding.ConstantMarginsAreZero | remarkablepage/custom-padding.go:146-154 | under the constant border every margin cell is 0 |
| Padding.ReplicateTopBottom | remarkablepage/custom-padding.go:34-52 | top-margin cells of interior columns copy original row `PaddingTop`; bottom-margin cells copy row H-1 |
| Padding.ReplicateLeftRight | remarkablepage/custom-padding.go:54-72 | left/right margin cells of every padded row, corners included, copy padded column `left` / `left+W-1` |
| Padding.ReplicateTopCopiesRowPaddingTop | remarkablepage/custom-padding.go:37 | a two-row image whose rows are 0 and 7 gets 7, not 0, in its top margin |
| Padding.ReflectTopBottom | remarkablepage/custom-padding.go:74-92 | top row y takes original row top-y; bottom row top+H+j takes original row H-2-j (0 outside the image) |
| Padding.ReflectLeft | remarkablepage/custom-padding.go:94-102 | left margin column x copies padded column 2*left-x of the same row when that column lies left of the right margin (2*left-x < left+W); when it lies in the right margin or past the buffer, the cell is 0, because the step runs before rightPaddingReflect fills that margin (for example W=1 with margins of 1: column 0 mirrors column 2) |
| Padding.ReflectRight | remarkablepage/custom-padding.go:104-112 | right margin column left+W+j copies padded column left+W-2-j of the same row |
| Padding.ReflectMirrorsLeft | remarkablepage/custom-padding.go:94-102 | on original rows the left margin mirrors the image without repeating the edge pixel (reflect-101) |
| Padding.ReflectMirrorsRight | remarkablepage/custom-padding.go:104-112 | on original rows the right margin mirrors the image without repeating the edge pixel |
| Padding.ReplicateOfConstant | remarkablepage/custom-padding.go:155-167 | a constant image stays constant across the whole replicate-padded buffer when the margins fit |
| Padding.ReflectOfConstant | remarkablepage/custom-padding.go:168-180 | a constant image stays constant across the whole reflect-padded buffer when the margins fit |
| Padding.CopyOriginal | remarkablepage/custom-padding.go:148-150 | the copy loop leaves the image in the middle and zeros around it |
| Padding.TopPaddingReplicate | remarkablepage/custom-padding.go:34-42 | the top-replicate loop leaves exactly the reference cell values of that step |
| Padding.BottomPaddingReplicate | remarkablepage/custom-padding.go:44-52 | the bottom-replicate loop leaves exactly the reference cell values of that step |
| Padding.LeftPaddingReplicate | remarkablepage/custom-padding.go:54-62 | the left-replicate loop leaves exactly the reference cell values of that step |
| Padding.RightPaddingReplicate | remarkablepage/custom-padding.go:64-72 | the right-replicate loop leaves exactly the reference cell values of that step |
| Padding.TopPaddingReflect | remarkablepage/custom-padding.go:74-82 | the top-reflect loop leaves exactly the reference cell values of that step |
| Padding.BottomPaddingReflect | remarkablepage/custom-padding.go:84-92 | the bottom-reflect loop leaves exactly the reference cell values of that step |
| Padding.LeftPaddingReflect | remarkablepage/custom-padding.go:94-102 | the left-reflect loop leaves exactly the reference cell values of that step |
| Padding.RightPaddingReflect | remarkablepage/custom-padding.go:104-112 | the right-reflect loop leaves exactly the reference cell values of that step |
| Padding.PaddingGray | remarkablepage/custom-padding.go:139-185 | fails exactly when the reference padding fails, with its error; otherwise returns a fresh buffer equal cell by cell to the reference padding |
| Convolution.Size | remarkablepage/custom_comvolution.go:29 | a kernel's size is its width and height |
| Convolution.ClampF64 | remarkablepage/custom_comvolution.go:109-116 | min below min, max above max, the value itself in between; the result lies in [min, max] |
| Convolution.ClampF64Idempotent | remarkablepage/custom_comvolution.go:109-116 | clamping twice equals clamping once |
| Convolution.ToByte | remarkablepage/custom_comvolution.go:54 | `uint8` of a value in [0, 255] truncates it |
| Convolution.PixelIsClampedSum | remarkablepage/custom_comvolution.go:44-54 | an output pixel is the window sum clamped to [0, 255] |
| Convolution.Convolved | remarkablepage/custom_comvolution.go:34-35 | the result has the input's size |
| Convolution.Convolve | remarkablepage/custom_comvolution.go:28-61 | a padding error is returned unchanged and no image is produced; on success the output has the input's size |
| Convolution.RowOfConstant | remarkablepage/custom_comvolution.go:44-52 | over a constant row, the kernel row sum is the constant times the row's weight |
| Convolution.WindowOfConstant | remarkablepage/custom_comvolution.go:44-52 | over a constant window, the sum is the constant times the kernel's total weight |
| Convolution.ConvolveIdentity | remarkablepage/custom_comvolution.go:44-54 | the 1x1 kernel of weight 1 anchored at (0, 0) returns the image unchanged under every border |
| Convolution.ConvolveCell | remarkablepage/custom_comvolution.go:41-57 | each output pixel is the clamped unflipped sum over the padded window at its own position |
| Convolution.IdentityPixel | remarkablepage/custom_comvolution.go:44-54 | with no padding, the identity kernel's window sum is the pixel itself |
| Convolution.WindowPixel | remarkablepage/custom_comvolution.go:43-54 | the nested kernel loops with the `sum` accumulator compute the clamped window sum |
| Convolution.ConvolvePadded | remarkablepage/custom_comvolution.go:34-57 | the pixel loops fill a fresh W x H buffer with the clamped window sums |
| Convolution.ConvolveGray | remarkablepage/custom_comvolution.go:28-61 | fails exactly when the reference convolution fails, with its error; otherwise returns a fresh buffer of the input's size equal to the reference cell by cell |
| Laplacian.SelectKernel | remarkablepage/custom-laplacian.go:9-19 | a kernel exists exactly for K4 and K8; it is 3x3, symmetric, sums to 0 and has a negative centre |
| Laplacian.Laplacian | remarkablepage/custom-laplacian.go:41-52 | on success the output has the input's size |
| Laplacian.CentrePaddings | remarkablepage/custom-laplacian.go:51 | the anchor (1, 1) on a 3x3 kernel gives all four paddings 1 |
| Laplacian.LaplacianErrors | remarkablepage/custom-laplacian.go:42-51 | the invalid-kernel error occurs exactly for other kernel values; a convolution error exactly for an unknown border; success otherwise |
| Laplacian.PaddedForLaplacian | remarkablepage/custom-laplacian.go:51 | the padded image is (W+2) x (H+2) |
| Laplacian.LaplacianCell | remarkablepage/custom-laplacian.go:51 | each output pixel is the kernel's window sum clamped to [0, 255], so negative responses become 0 |
| Laplacian.RowSum3 | remarkablepage/custom_comvolution.go:45-52 | a 3-wide kernel row sums three weighted pixels |
| Laplacian.Kernel4Stencil | remarkablepage/custom-laplacian.go:9-13 | the K4 window sum is the 4-neighbour stencil with centre -4 |
| Laplacian.Kernel8Stencil | remarkablepage/custom-laplacian.go:15-19 | the K8 window sum is the 8-neighbour stencil with centre -8 |
| Laplacian.InteriorWindow | remarkablepage/custom-laplacian.go:51 | away from the border, the padded 3x3 window is the original 3x3 neighbourhood |
| Laplacian.InteriorLaplacian4 | remarkablepage/custom-laplacian.go:9-13 | inside the image, the K4 output is the clamped discrete Laplacian of the original pixels |
| Laplacian.InteriorLaplacian8 | remarkablepage/custom-laplacian.go:15-19 | inside the image, the K8 output is the clamped 8-neighbour Laplacian of the original pixels |
| Laplacian.ConstantWindow | remarkablepage/custom-laplacian.go:51 | for a constant image under replicate or reflect, every padded window is constant |
| Laplacian.PaddedAtMostConstant | remarkablepage/custom-padding.go:139-185 | no cell of a padded constant image exceeds the constant, under every border |
| Laplacian.LaplacianOfConstant | remarkablepage/custom-laplacian.go:9-19 | a constant image of any size gives an all-zero output under all three borders and both kernels |
| Laplacian.ConstantCell | remarkablepage/custom-laplacian.go:9-19 | one pixel of that all-zero output: the centre is the constant, no neighbour exceeds it, and the kernel's weights sum to 0 around a negative centre |
| Laplacian.LaplacianGray | remarkablepage/custom-laplacian.go:41-52 | fails exactly when the reference fails, with its error; otherwise a fresh buffer of the input's size equal to the reference cell by cell |
| Canny.NeighbourBins | remarkablepage/canny_edge_detection.go:117-134 | the neighbour pair of each angle bin, and 255/255 for angles over 180 |
| Canny.SuppressedAt | remarkablepage/canny_edge_detection.go:111-144 | a border pixel is 0; every pixel is its own magnitude or 0 |
| Canny.SuppressionKeepsOrZeroes | remarkablepage/canny_edge_detection.go:111-144 | border pixels become 0; every pixel is its magnitude or 0; a non-zero interior pixel is kept if and only if it is at least both chosen neighbours |
| Canny.SuppressionOutOfRangeAngle | remarkablepage/canny_edge_detection.go:118-140 | with an angle over 180 only a magnitude of 255 survives |
| Canny.SuppressPixel | remarkablepage/canny_edge_detection.go:117-140 | the per-pixel branch computes the reference suppressed value |
| Canny.NonMaximumSuppression | remarkablepage/canny_edge_detection.go:111-144 | a fresh buffer of the input's size, equal to the reference suppression everywhere, border included |
| Canny.ThresholdAt | remarkablepage/canny_edge_detection.go:152-159 | 255 exactly when at least high; 128 exactly when in [low, high); 0 exactly when below both |
| Canny.ThresholdMonotone | remarkablepage/canny_edge_detection.go:152-159 | the threshold preserves order |
| Canny.DoubleThreshold | remarkablepage/canny_edge_detection.go:146-163 | every pixel, border included, is mapped by the threshold into a fresh buffer of the same size |
| Canny.IsStrongEdge | remarkablepage/canny_edge_detection.go:188-197 | true exactly when some pixel of the 3x3 block, centre included, equals 255 |
| Canny.ConnectedEnds | remarkablepage/canny_edge_detection.go:199-218 | both ends of a weak path are weak |
| Canny.ConnectedSelf | remarkablepage/canny_edge_detection.go:199-218 | a weak pixel is connected to itself |
| Canny.ConnectedStep | remarkablepage/canny_edge_detection.go:209-214 | a weak 8-neighbour extends a weak path |
| Canny.ConnectedSymmetric | remarkablepage/canny_edge_detection.go:199-218 | weak connectivity is symmetric |
| Canny.ConnectedTransitive | remarkablepage/canny_edge_detection.go:199-218 | weak connectivity is transitive |
| Canny.ConnectedMonotone | remarkablepage/canny_edge_detection.go:199-218 | more weak pixels never disconnect a path |
| Canny.ClosedHoldsComponent | remarkablepage/canny_edge_detection.go:199-218 | a set closed under weak neighbours holds the whole component of any member |
| Canny.WeakCellsShrink | remarkablepage/canny_edge_detection.go:205-207 | consuming a weak pixel lowers the count of weak pixels (the termination measure) |
| Canny.RowNeighboursSound | remarkablepage/canny_edge_detection.go:210-214 | one row of pushes adds at most 3 points, all weak neighbours |
| Canny.WeakNeighboursSound | remarkablepage/canny_edge_detection.go:209-215 | a pop pushes at most 9 points, all weak 8-neighbours |
| Canny.WeakNeighboursComplete | remarkablepage/canny_edge_detection.go:209-215 | every weak 8-neighbour is pushed |
| Canny.PushWeakRow | remarkablepage/canny_edge_detection.go:210-214 | the inner push loop appends that row's weak neighbours |
| Canny.PushWeakNeighbours | remarkablepage/canny_edge_detection.go:209-215 | the push loops append exactly the weak neighbours, in scan order |
| Canny.TraceInvInit | remarkablepage/canny_edge_detection.go:200 | the invariant of the trace holds on the initial stack |
| Canny.PopSplits | remarkablepage/canny_edge_detection.go:202-203 | popping splits the stack into its prefix and its top |
| Canny.TraceInvSkip | remarkablepage/canny_edge_detection.go:205 | popping a non-weak pixel keeps the invariant |
| Canny.TraceInvConsume | remarkablepage/canny_edge_detection.go:205-215 | consuming a weak pixel and pushing its weak neighbours keeps the invariant |
| Canny.TraceInvDone | remarkablepage/canny_edge_detection.go:201-218 | on an empty stack the consumed pixels are exactly the component of the start, all now 0 |
| Canny.ConsumePixel | remarkablepage/canny_edge_detection.go:205-215 | consuming one weak pixel keeps the invariant and lowers the weak count |
| Canny.TraceStep | remarkablepage/canny_edge_detection.go:202-216 | one iteration keeps the invariant and either lowers the weak count or shrinks the stack with the image unchanged |
| Canny.TraceEdge | remarkablepage/canny_edge_detection.go:199-218 | src becomes 0 and dst 255 exactly on the start's weak component; no other pixel of either changes |
| Canny.ScanStart | remarkablepage/canny_edge_detection.go:166-171 | the scan invariant holds at the first interior pixel of a zeroed result |
| Canny.ScanNextRow | remarkablepage/canny_edge_detection.go:170-182 | the invariant carries over to the next row |
| Canny.ScanDone | remarkablepage/canny_edge_detection.go:165-186 | after the last row the result is 255 exactly on promoted pixels, 0 elsewhere; the input is 0 exactly there |
| Canny.ScanStateWeakStrong | remarkablepage/canny_edge_detection.go:170-182 | during the scan a pixel stays weak unless already promoted, and 255s never change |
| Canny.StrongUnchanged | remarkablepage/canny_edge_detection.go:176 | the strong test sees the same result on the partly consumed image as on the original |
| Canny.PromotedClosed | remarkablepage/canny_edge_detection.go:170-182 | promotion is closed under weak connectivity |
| Canny.ConnectedWithin | remarkablepage/canny_edge_detection.go:199-218 | a path inside a component that is still weak survives |
| Canny.ComponentSurvives | remarkablepage/canny_edge_detection.go:170-182 | a still-weak pixel's component is the same in the partly consumed image as in the original |
| Canny.ScanStep | remarkablepage/canny_edge_detection.go:172-180 | tracing from a weak strong pixel, or skipping any other, advances the scan invariant |
| Canny.ScanPixel | remarkablepage/canny_edge_detection.go:172-180 | one pixel of the scan keeps the invariant |
| Canny.ScanRow | remarkablepage/canny_edge_detection.go:171-181 | one row of the scan keeps the invariant |
| Canny.EdgeTrackingByHysteresis | remarkablepage/canny_edge_detection.go:165-186 | the fresh result is 255 exactly on promoted pixels and 0 elsewhere (strong pixels are not copied); the input loses exactly those pixels |
| Canny.PromotedOnlyWeak | remarkablepage/canny_edge_detection.go:165-186 | a promoted pixel was weak, never strong |
| Canny.SeedComponentPromoted | remarkablepage/canny_edge_detection.go:165-186 | the whole weak component of a seed is promoted |
| Canny.NoWeakNoEdges | remarkablepage/canny_edge_detection.go:165-186 | an input without a 128 pixel gives an all-zero result |
| Canny.Thresholded | remarkablepage/canny_edge_detection.go:76-77 | the threshold of the suppressed image, pixel by pixel |
| Canny.CannyFromGradient | remarkablepage/canny_edge_detection.go:76-79 | the three stages after the gradient, run in order, give 255 exactly on the promoted pixels of the thresholded suppression |
| Canny.CannyEdgesAreWeak | remarkablepage/canny_edge_detection.go:76-79 | every detected edge pixel lies inside the image and has a suppressed magnitude in [low, high) |
| HorizontalLines.Row | remarkablepage/horizontal_lines.go:25-28 | row z of the column-major matrix, one cell per column |
| HorizontalLines.RunEnd | remarkablepage/horizontal_lines.go:29-50 | a run starting at x lies within the row, is all true and ends at the row end or before a false cell |
| HorizontalLines.RunsFrom | remarkablepage/horizontal_lines.go:25-52 | every run found is in row z, all true, and starts at the scan start or after a false cell; there are at most as many runs as cells |
| HorizontalLines.RunsFromOrdered | remarkablepage/horizontal_lines.go:25-52 | runs of one row are separated (a false cell between neighbours) and in increasing order |
| HorizontalLines.RunsAfterGap | remarkablepage/horizontal_lines.go:40-49 | after a false cell no run starts at or before it |
| HorizontalLines.RunsFromCover | remarkablepage/horizontal_lines.go:25-52 | every true cell of the row is covered by a run |
| HorizontalLines.RunsUpToRows | remarkablepage/horizontal_lines.go:25-26 | runs of the first k rows lie in those rows |
| HorizontalLines.RunsUpToMaximal | remarkablepage/horizontal_lines.go:29-50 | every run is maximal: all true, with false or the edge on both sides |
| HorizontalLines.RunsUpToCount | remarkablepage/horizontal_lines.go:25-52 | k rows hold at most k*W runs |
| HorizontalLines.RowOrdered | remarkablepage/horizontal_lines.go:25-52 | the runs of one row are ordered |
| HorizontalLines.ConcatOrdered | remarkablepage/horizontal_lines.go:25-26 | earlier rows' runs followed by one later row's runs stay ordered |
| HorizontalLines.AppendRowOrdered | remarkablepage/horizontal_lines.go:25-52 | appending the runs of the next row keeps the recorded runs ordered |
| HorizontalLines.RunsUpToOrdered | remarkablepage/horizontal_lines.go:25-52 | runs are ordered by row, then by increasing start |
| HorizontalLines.RunsUpToCover | remarkablepage/horizontal_lines.go:25-52 | every true cell of the first k rows is covered |
| HorizontalLines.AllRunsPartition | remarkablepage/horizontal_lines.go:25-52 | the runs are maximal, ordered, at most W*H, cover every true cell, and no cell is in two runs |
| HorizontalLines.ExampleRow | remarkablepage/horizontal_lines.go:25-52 | the row 0,1,1,1,0,1,0 yields runs (1,3) then (5,5) |
| HorizontalLines.Entry | remarkablepage/horizontal_lines.go:57-72 | a run becomes [from, z, to, z] when from differs from to, [from, z] otherwise |
| HorizontalLines.RunsFromSkip | remarkablepage/horizontal_lines.go:27-28 | a false cell outside a run starts nothing |
| HorizontalLines.RunsFromStart | remarkablepage/horizontal_lines.go:29-50 | a true cell starts the run that extends to its last true cell |
| HorizontalLines.ScanCell | remarkablepage/horizontal_lines.go:29-50 | one cell of the state machine keeps the scan invariant, and `isLine` is false after the last column |
| HorizontalLines.ScanRow | remarkablepage/horizontal_lines.go:26-51 | the `isLine`/`from`/`to` loop over one row appends exactly that row's runs |
| HorizontalLines.CollectRuns | remarkablepage/horizontal_lines.go:25-55 | the scan records exactly the reference runs, and `isLine` is false at the end |
| HorizontalLines.GetHorizontalLines | remarkablepage/horizontal_lines.go:19-74 | one output entry per run, entry n formatted from run n |
| Native.PartialSumOfConstant | remarkablepage/main.c:125-133 | over a constant image a kernel prefix sums to the constant times its weights |
| Native.PartialSumBounds | remarkablepage/main.c:125-133 | with non-negative weights the sum lies in [0, 255 times the weight] |
| Native.BlurAt | remarkablepage/main.c:103-134 | a blurred pixel is floor(sum of 1,2,1/2,4,2/1,2,1 weights times pixels / 16) |
| Native.Clamp | remarkablepage/main.c:163 | the Laplace output is the sum clamped to [0, 255] |
| Native.BlurOfConstant | remarkablepage/main.c:103-111 | the blur of a constant image is that constant inside |
| Native.LaplaceOfConstant | remarkablepage/main.c:144-147 | the Laplace kernel sums to 0, so a constant image gives interior output 0 |
| Native.PartialSumStep | remarkablepage/main.c:128-131 | one more kernel term adds its weighted pixel |
| Native.WindowRow | remarkablepage/main.c:128-132 | one row of the kernel loops adds that row's three terms |
| Native.WindowSum | remarkablepage/main.c:125-133 | the kernel loops compute the whole 3x3 weighted sum |
| Native.BlurRow | remarkablepage/main.c:123-135 | one row of the pixel loops blurs that row's interior |
| Native.BlurResult | remarkablepage/main.c:101-140 | the blurred buffer: interior pixels blurred from the un-blurred input, border bytes from the scratch memory |
| Native.BlurredStart | remarkablepage/main.c:113-121 | before the loops nothing is blurred yet |
| Native.BlurredDone | remarkablepage/main.c:121-136 | after the last row the scratch buffer is the blurred buffer |
| Native.Memcpy | remarkablepage/main.c:138 | `memcpy` copies the scratch buffer over the image |
| Native.ApplyGaussianBlur | remarkablepage/main.c:101-140 | as written: when the allocation fails the image is unchanged; otherwise the image becomes the blurred buffer, border taken from the uninitialised memory |
| Native.ApplyGaussianBlurInitialised | remarkablepage/main.c:101-140 | corrected: same blur, border keeps the original pixels |
| Native.BlurBorderFromMemory | remarkablepage/main.c:113-138 | a 3x3 image of 128s with zeroed scratch memory ends with border pixel 0 |
| Native.BlurInitialisedOfConstant | remarkablepage/main.c:101-140 | the corrected blur leaves a constant image unchanged everywhere |
| Native.LaplaceRow | remarkablepage/main.c:152-165 | one row of the pixel loops filters that row's interior |
| Native.ApplyLaplaceFilter | remarkablepage/main.c:142-167 | interior outputs are the clamped 1,4,1/4,-20,4/1,4,1 sums of the input; border output bytes are never written |
| Native.BuildBooleanMatrix | remarkablepage/main.c:170-203 | a fresh W x H matrix with m[i][j] = (image[j*W+i] > 0) |
| Native.Columns | remarkablepage/main.c:194-200 | the column-major mask read as columns of cells |
| Native.ColumnsValid | remarkablepage/main.c:205-217 | a mask covering W x H is a valid input to the run scan |
| Native.Append | remarkablepage/main.c:225-227 | storing (z, from, to) advances `listSize` by 3 and records one more run |
| Native.ScanRow | remarkablepage/main.c:213-257 | the C loop over one row stores exactly that row's runs |
| Native.ScanCell | remarkablepage/main.c:217-256 | one cell of the C state machine keeps the scan invariant, stores a closed run as three ints, and `isLine` is false after the last column |
| Native.RoomForRow | remarkablepage/main.c:207-258 | `listSize` stays within 3*W*H, so every write stays inside the list |
| Native.RoomArithmetic | remarkablepage/main.c:207 | the bound on the list size after one more row |
| Native.CollectRuns | remarkablepage/main.c:205-258 | the C scan stores exactly the same maximal, ordered runs as the Go version |
| Native.WriteSegment | remarkablepage/main.c:263-288 | one run is written as 4 values; a degenerate run repeats its start as (from, z, from, z) |
| Native.GetHorizontalLines | remarkablepage/main.c:205-296 | `result.size` equals the run count and the output holds 4 values per run in order |
| RmPage.Header | remarkablepage/rmPage.go:18 | the 43-byte version-5 header text |
| RmPage.RmLine.constructor | remarkablepage/rmPage.go:70-74 | a new line has brush 17, colour and padding 0, base size 1, unknown 0 and no points |
| RmPage.RmLine.AddPoint | remarkablepage/rmPage.go:84-95 | appends exactly one point (x, y, speed 0.1, direction 0, width 2, pressure 1) at the end |
| RmPage.Values | remarkablepage/rmPage.go:23 | the values of a page's lines, one per line |
| RmPage.ValuesSnoc | remarkablepage/rmPage.go:75 | appending a line appends its value |
| RmPage.LE32 | remarkablepage/rmPage.go:107-109 | a little-endian 32-bit word is 4 bytes |
| RmPage.ReadWord | remarkablepage/rmPage.go:156-167 | a word read back lies in the 32-bit range |
| RmPage.Word | remarkablepage/rmPage.go:138-146 | the bit pattern of an `int32` is a 32-bit word |
| RmPage.Int32Of | remarkablepage/rmPage.go:123 | `int32(len(...))` keeps counts below 2^31 and wraps modulo 2^32 above |
| RmPage.Words | remarkablepage/rmPage.go:156-167 | n words encode to 4n bytes |
| RmPage.EncodePoint | remarkablepage/rmPage.go:156-167 | a point is 24 bytes |
| RmPage.EncodePoints | remarkablepage/rmPage.go:150-152 | n points are 24n bytes |
| RmPage.EncodeLine | remarkablepage/rmPage.go:134-153 | a line is 24 + 24*points bytes |
| RmPage.EncodeLinesLength | remarkablepage/rmPage.go:119-131 | the lines encode to the sum of their sizes |
| RmPage.EncodePage | remarkablepage/rmPage.go:98-132 | a fresh export starts with the 43-byte header and a layer count of 1, and its line-count word reads back as `int32(len(lines))` |
| RmPage.DecodePage | remarkablepage/rmPage.go:98-167 | the reader of that format: bytes that decode start with the header and layer count 1, and the line-count word is the number of lines read |
| RmPage.ExportLength | remarkablepage/rmPage.go:98-167 | a page encodes to 51 + the sum over lines of (24 + 24*points) bytes |
| RmPage.EncodePointsAppend | remarkablepage/rmPage.go:150-152 | encoding one more point appends its 24 bytes |
| RmPage.EncodeLinesAppend | remarkablepage/rmPage.go:128-130 | encoding one more line appends its bytes |
| RmPage.GetWords | remarkablepage/rmPage.go:156-167 | a decoded word sequence has the requested length and 32-bit words |
| RmPage.ReadLE32 | remarkablepage/rmPage.go:156-167 | reading a written word gives it back and leaves the rest |
| RmPage.Words6 | remarkablepage/rmPage.go:160-165 | six words encode as their six little-endian encodings in order |
| RmPage.GetWordsRoundTrip | remarkablepage/rmPage.go:156-167 | decoding n encoded words gives them back and leaves the rest |
| RmPage.SignedWord | remarkablepage/rmPage.go:134-153 | reading an `int32`'s word back as signed gives the `int32` |
| RmPage.PointsRoundTrip | remarkablepage/rmPage.go:147-167 | decoding encoded points gives them back |
| RmPage.LineRoundTrip | remarkablepage/rmPage.go:134-153 | decoding an encoded line, using its embedded point count, gives back its attributes and point words |
| RmPage.LinesRoundTrip | remarkablepage/rmPage.go:119-131 | decoding encoded lines gives them back |
| RmPage.PageRoundTrip | remarkablepage/rmPage.go:98-167 | decoding an exported page gives back every line exactly |
| RmPage.ReMarkablePage.constructor | remarkablepage/rmPage.go:51-63 | a new page has no lines, empty output, debug off, pageHeight 1872 and the three colours |
| RmPage.ReMarkablePage.AddLine | remarkablepage/rmPage.go:66-81 | appends exactly one fresh default line and returns it; earlier lines and other fields unchanged |
| RmPage.ReMarkablePage.TransformPoint | remarkablepage/rmPage.go:170-172 | x is kept (y becomes pageHeight - y) |
| RmPage.ReMarkablePage.AddPixel | remarkablepage/rmPage.go:201-208 | adds one line with exactly three points at the same y: x-0.01, x, x+0.01; out, pageHeight, debug and colors are unchanged |
| RmPage.ReMarkablePage.DrawCircle | remarkablepage/rmPage.go:175-185 | the page's lines become the old lines plus one default line of 361 pen points, point i at the i-th circle coordinate; the output buffer, page height, debug flag and colours are unchanged |
| RmPage.ReMarkablePage.DrawBezierCurve | remarkablepage/rmPage.go:188-198 | the page's lines become the old lines plus one default line of 101 pen points, point i at the curve's x and pageHeight - y; the output buffer, page height, debug flag and colours are unchanged |
| RmPage.ReMarkablePage.WritePoint | remarkablepage/rmPage.go:156-167 | appends the point's 24 bytes to the output; lines, pageHeight, debug and colors are unchanged |
| RmPage.ReMarkablePage.WriteLine | remarkablepage/rmPage.go:134-153 | appends the line's encoding to the output; lines, pageHeight, debug and colors are unchanged |
| RmPage.ReMarkablePage.WriteLineAt | remarkablepage/rmPage.go:128-130 | one iteration of the layer loop appends the next line's encoding; lines, pageHeight, debug and colors are unchanged |
| RmPage.ReMarkablePage.WriteLayer | remarkablepage/rmPage.go:119-131 | appends the line count and every line's encoding; lines, pageHeight, debug and colors are unchanged |
| RmPage.ReMarkablePage.Export | remarkablepage/rmPage.go:98-116 | appends the page's full encoding to the output without resetting it and returns the whole output; the lines, pageHeight, debug and colors are unchanged |
| RmDoc.TrimSlashes | remarkablepage/rmdoc.go:38 | removes exactly the trailing slashes |
| RmDoc.AfterLastSlash | remarkablepage/rmdoc.go:38 | the longest slash-free suffix |
| RmDoc.AfterLastSlashAppend | remarkablepage/rmdoc.go:38 | appending a slash-free text extends the last component |
| RmDoc.AfterLastSlashSnoc | remarkablepage/rmdoc.go:38 | a character other than `/` extends the last component by one |
| RmDoc.Base | remarkablepage/rmdoc.go:38 | `filepath.Base` is never empty and is slash-free or "/" |
| RmDoc.BaseIdempotent | remarkablepage/rmdoc.go:38 | the base of a base is itself |
| RmDoc.BaseAppend | remarkablepage/rmdoc.go:38 | the base of a path followed by a nonempty slash-free text is the path's last component followed by that text |
| RmDoc.VisibleNameOfBase | remarkablepage/rmdoc.go:38-44 | an archive whose base is name + ".rmdoc" is shown as name without "out-" |
| RmDoc.ZipName | remarkablepage/rmdoc.go:339-343 | the zip name always ends in ".rmdoc" and is the stem plus ".rmdoc" |
| RmDoc.Stem | remarkablepage/rmdoc.go:339-343 | a trailing ".rm" is removed; any other name is kept |
| RmDoc.StripOut | remarkablepage/rmdoc.go:41-43 | "out-" is removed only when the name is longer than 4 characters; otherwise the name is kept |
| RmDoc.VisibleNameOfZipName | remarkablepage/rmdoc.go:38-44 | the visible name of a derived zip name is the stem's last component without "out-" |
| RmDoc.Digit | remarkablepage/rmdoc.go:261-287 | a digit is a decimal character |
| RmDoc.DigitValue | remarkablepage/rmdoc.go:261-287 | reading a digit inverts writing it |
| RmDoc.Decimal | remarkablepage/rmdoc.go:261-287 | `fmt.Sprint` of a count gives a non-empty string of digits without a leading zero |
| RmDoc.DecimalRoundTrip | remarkablepage/rmdoc.go:261-287 | parsing the decimal string gives the number back |
| RmDoc.TotalSizeBounds | remarkablepage/rmdoc.go:256-261 | the total size is at least each blob's length |
| RmDoc.ContentOf | remarkablepage/rmdoc.go:193-297 | the content record lists exactly the given page IDs, in order, counts them, and opens the first |
| RmDoc.MetadataOf | remarkablepage/rmdoc.go:317-326 | the metadata record stamps all three times with the time, opens page 0, is pinned at the top level as a "DocumentType", and carries the visible name |
| RmDoc.ContentDescribesPages | remarkablepage/rmdoc.go:193-297 | pageCount and the page list match the page IDs; page i has id pageIDs[i], an idx that is "ba-" followed by the decimal i, and template "Blank", both stamped "1:2"; lastOpened is pageIDs[0]; sizeInBytes is the decimal sum of the blob lengths |
| RmDoc.MetadataDescribesNotebook | remarkablepage/rmdoc.go:317-326 | created, modified and opened times equal the time; last page 0; pinned; the derived visible name |
| RmDoc.PageIDs | remarkablepage/rmdoc.go:46-49 | one page ID per page blob, page i taking the (i+1)-th generated ID |
| RmDoc.PageEntries | remarkablepage/rmdoc.go:87-96 | entry i is `<id>/<pageIDs[i]>.rm` holding blob i |
| RmDoc.FirstFault | remarkablepage/rmdoc.go:63-96 | no fault exactly when every entry from k on is created and written |
| RmDoc.Processed | remarkablepage/rmdoc.go:36-55 | processing succeeds exactly when there is a page, both records marshal, and every entry is created and written; it then yields pages+2 entries; every failure is one of the logged messages, as fixed text without the `: %v` error detail |
| RmDoc.Package | remarkablepage/rmdoc.go:336-353 | a successful package carries the `.rmdoc` name derived from the input and pages+2 entries; every failure is one of the logged messages, as fixed text without the `: %v` error detail |
| RmDoc.PackageSucceeds | remarkablepage/rmdoc.go:336-353 | packaging succeeds exactly when there is a page, both records marshal, and every entry is created and written |
| RmDoc.PackageOk | remarkablepage/rmdoc.go:336-353 | a successful package uses the derived zip name and the content, metadata and page entries built from the inputs |
| RmDoc.PackageEntries | remarkablepage/rmdoc.go:63-96 | the archive holds pages+2 entries, in order `<id>.content`, `<id>.metadata`, then one per page with its blob |
| RmDoc.PackageDocuments | remarkablepage/rmdoc.go:299-331 | the first two entries hold the marshalled content and metadata, and the content's page count is the number of page entries |
| RmDoc.NewPageIDs | remarkablepage/rmdoc.go:46-49 | the ID loop yields exactly the page IDs |
| RmDoc.RmDocument.constructor | remarkablepage/rmdoc.go:27-34 | keeps the data and time; empty records and no buffer |
| RmDoc.RmDocument.CreateContent | remarkablepage/rmdoc.go:101-305 | the size loop and the page loop build the content record; the result is its marshalled text, or the fatal error (index 0 on no pages, or the marshal failure) |
| RmDoc.RmDocument.CreateNotebookMetadata | remarkablepage/rmdoc.go:307-334 | succeeds exactly when the metadata record of the document's time and the visible name marshals, and then returns that text; otherwise the marshal error message |
| RmDoc.RmDocument.WriteZip | remarkablepage/rmdoc.go:57-99 | the first create or write fault aborts; otherwise the buffer holds exactly the ordered entries; no other field changes |
| RmDoc.RmDocument.Process | remarkablepage/rmdoc.go:36-55 | on success the records and the buffer are those of the reference package; on failure the error, buffer untouched |
| RmDoc.RmDocument.Clear | remarkablepage/rmdoc.go:347-350 | empties the data, content, metadata0rm and notebook-metadata fields, keeping the archive buffer |
| RmDoc.NewRmDocument | remarkablepage/rmdoc.go:27-34 | a fresh document, processed |
| RmDoc.CreateRmDoc | remarkablepage/rmdoc.go:336-353 | returns exactly the reference package; on success the data fields are cleared and the buffer holds the entries |
| Resize.ClampInt | remarkablepage/custom_resize.go:13-20 | min below min, max above max, the value otherwise |
| Resize.ClampIntRange | remarkablepage/custom_resize.go:13-20 | with min <= max the result is in [min, max] and clamping is idempotent |
| Resize.WindowInBounds | remarkablepage/custom_resize.go:178-219 | every index between the clamped start and end lies in [0, size) |
| Resize.ResizePlan | remarkablepage/custom_resize.go:315-330 | the negative-scale error is reported exactly for a negative factor; every other failure is the unknown-method error; a plan is one nearest pass, or a horizontal then a vertical pass with one filter |
| Resize.ResizePlanCases | remarkablepage/custom_resize.go:315-330 | a negative factor is rejected, zero is not; an unknown interpolation is rejected; nearest is one pass; linear, Catmull-Rom and Lanczos run the horizontal then the vertical pass with their filter |
| Resize.Trunc | remarkablepage/custom_resize.go:166 | `int(...)` truncates toward zero |
| Resize.Scaled | remarkablepage/custom_resize.go:166-198 | a scaled dimension is the truncated product |
| Resize.ScaledIdentity | remarkablepage/custom_resize.go:166-198 | factor 1 keeps a dimension, factor 0 gives 0 |
| Resize.WindowOf | remarkablepage/custom_resize.go:178-187 | the samples are the source slice between the clamped bounds, empty if they cross |
| Resize.Column | remarkablepage/custom_resize.go:214-219 | column x of an image, one pixel per row |
| Resize.HorizontalGrid | remarkablepage/custom_resize.go:164-194 | the horizontal pass on grids: height kept, each pixel resampled from its row |
| Resize.ReadRow | remarkablepage/custom_resize.go:182-187 | the read loop collects exactly the clamped row window |
| Resize.ReadColumn | remarkablepage/custom_resize.go:214-219 | the read loop collects exactly the clamped column window |
| Resize.ResizeHorizontalGray | remarkablepage/custom_resize.go:164-194 | the fresh result keeps the height, has the scaled width, and each pixel is blended from its clamped row window |
| Resize.ResizeVerticalGray | remarkablepage/custom_resize.go:196-226 | the fresh result keeps the width, has the scaled height, and each pixel is blended from its clamped column window |
| Resize.ResizeSeparableGray | remarkablepage/custom_resize.go:62-99 | the horizontal pass then the vertical pass give the scaled size, each pixel resampled from the horizontally resized image |

## Left out

- Error detail of `log.Fatalf`: the JSON and zip oracles of `Env` report only success or failure. So `ContentJsonError`, `MetadataJsonError`, `CreateEntryError(k)` and `WriteEntryError(k)` carry the fixed text of the logged message, without the `%v` library error that the program prints after it (rmdoc.go:69-94, 301, 330).
- Floating point, where it is more than opaque data. These parts are left out or taken as parameters:
  - `computeGradient` (square root and `atan2`), `ConvolveGrayCanny` with its normalised Gaussian, and `normalizeKernel`;
  - the smoothing and gradient stages of `CannyEdgeDetection` (only the three integer stages after them are modelled);
  - the resampling filter arithmetic and the nearest-neighbour mapping of `custom_resize.go`;
  - the `Filter` types, which are not part of this model;
  - the coordinates computed by `DrawCircle` and `DrawBezierCurve`;
  - all of `hough_transform.go`;
  - `float32` subtraction and addition in `rmPage.go`.
- Resize.Scaled: computes in exact reals, not float64. So the rounding of `float64(n)*fx`, NaN and infinite factors are not modelled.
- Resize.ResizeHorizontalGray: requires a non-negative factor, which only its caller checks; Go would canonicalise a negative-size rectangle, and that is not modelled.
- Resize.ResizeVerticalGray: requires a non-negative factor, for the same reason.
- `DrawFilledRectangle`: left out. Its loop bounds and step are float arithmetic.
- Concurrency:
  - goroutines, WaitGroups and `ParallelForEachPixel` in padding, convolution and resize;
  - the hysteresis goroutines, which race on the shared thresholded image;
  - the `sync.Mutex` of `ReMarkablePage`;
  - the OpenMP pragmas.

  All of these are sequential, row-major loops in the model.
- The RGBA variants (`PaddingRGBA`, `ConvolveRGBA`, `ResizeRGBA` and the RGBA resize passes): left out. They repeat the Gray logic per channel, and `ConvolveRGBA` copies alpha unchanged.
- Non-integer convolution kernels: left out. Weights are integers, because only the integer Laplacians reach `ConvolveGray`.
- The `Kernel` type: it is not part of this model's sources. It is modelled as a width x height grid of weights.
- Image I/O and entry points: not modelled (file access, external libraries, no logic of the core):
  - `custom-imagio.go`;
  - `edge_detector.go` and its `invertColor`;
  - `handle_new_file` in `main.c`;
  - `horizontal_lines_from_file.go`, `image_processing.h` and `main.go`;
  - the test files.
- Image sizes: empty images are modelled. When an empty image meets a kernel of extent 0, the padded extent is -1. `image.Rect` then orders its corners, and the buffer is one zero cell across, with origin -1. The model keeps that cell at index 0; no loop reads or writes it.
- C memory:
  - `malloc` failures in `build_boolean_matrix` and `GetHorizontalLines` are not modelled. In `apply_gaussian_blur` they are modelled, as the `memory` parameter being absent.
  - `int` overflow of `width * height` is not modelled.
  - `bool **` is a rectangular `array2<bool>`.
  - The float output of the C `GetHorizontalLines` holds integer values, exact for all image sizes below 2^24.
- Diagnostics: debug printing (`DebugPrint`, `fmt.Println`, the `debug` flag's messages) and `log.Printf` progress messages produce no state and are left out.
- Library encodings: the zip byte format (local headers, central directory, `Close`) and the JSON text layout (field order, indentation, the always-empty `documentMetadata`, `pageTags` and `tags`) are not modelled. The archive is an ordered list of (name, bytes) entries, and marshalling is an oracle that may fail.
- `uuid.NewString` and `time.Now`: these are inputs, not generated values.
- The object state after `log.Fatalf`: the process ends there, so the model only reports the error.

## Findings

| source | as written | input that shows it | evidently intended | confidence | as-written member | corrected member |
|---|---|---|---|---|---|---|
| remarkablepage/main.c:113-138 | `apply_gaussian_blur` writes only interior pixels into a fresh `malloc` buffer, then copies the whole buffer over the image, so border pixels become uninitialised memory | a 3x3 image of 128s, with scratch memory that happens to be zero, ends with border pixel 0 | border pixels keep their original values | not executed | Native.BlurBorderFromMemory | Native.BlurInitialisedOfConstant |
