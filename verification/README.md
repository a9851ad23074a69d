# tps-georeference, modelled in Dafny

`tps-georeference.py` turns a QGIS `.points` landmark file into a dense
lookup table for georeferencing an image. Each landmark pairs a map
coordinate (x, y) with a pixel coordinate (u, v). The script does four
things:

1. It ingests the landmarks. It swaps x and y, swaps u and v, and shifts v by
   1080 so that the pixel origin is bottom left.
2. It fits a thin-plate spline (Bookstein, "Principal Warps", IEEE PAMI
   11(6), 1989). `computeWl` assembles the (N+3)x(N+3) system
   L = [[K, P], [P^T, 0]]. K is the kernel U(r) = 2 r^2 ln r of the
   landmark distances, with a zero distance first overwritten by 1
   (`radialBasis`). P holds the rows [1, x, y]. The right-hand side is
   [[Xs, Ys], [0]].
3. It evaluates the spline at every pixel of an imgH x imgW canvas
   (`tpsMap`).
4. It builds the output grid and the table rows (x, y, u, v).

The model has five modules:

- `Matrices`: matrices as sequences of rows, with the numpy operations the
  script uses.
- `MeshGrid`: `linspace`, `meshgrid`, `flatten`, and the flat-index
  arithmetic.
- `Kernel`: `radialBasis`, as a method that overwrites the zero entries of
  an `array2` in place.
- `ThinPlateSpline`: `computeWl`, the right-hand side, the spline's value
  and `tpsMap`.
- `Georeference`: ingestion, the fit, the output grid and the lookup table.

The loops of the script are methods with loop invariants:

- the zero fix-up in `radialBasis`;
- the `wP_` fill;
- the two output-grid loops.

Each is proved against a function, and the spline properties are proved as
lemmas about those functions.

`sqrt` and `np.log` are not modelled. They are parameters `sqrt` and `ln`,
and a lemma that needs a fact about them says so in its requires (sqrt(0) =
0, ln(1) = 0). The solve `inv(wL) * wY` is not modelled either. The weights
W are an input, and a property of the fitted spline takes as hypothesis the
predicate `Solves(L, W, Y)`, that is, L W = Y.

Three points of the script's behaviour that a reader might not expect, and
that the model keeps as written:

- **Too few landmarks.** Bookstein's method needs at least three
  landmarks that do not lie on one line. The script does not check this. The
  model proves that with fewer than three landmarks, or with collinear ones,
  L has a nonzero null vector, so L is singular and has no inverse. Whether
  numpy then raises `LinAlgError` or, through rounding, returns a
  meaningless matrix is outside the model, which leaves floating point out.
- **The 1080 shift.** The v shift is the literal 1080, not the canvas height
  given on the command line. The model keeps the literal as `VShift`.
- **The enable column.** It is read and never used. The model proves that
  ingestion loses exactly that column.

## Model

| member | source | states |
|---|---|---|
| `Kernel.Substitute` | tps-georeference.py:84-90 | A zero entry becomes exactly 1, a nonzero entry is left unchanged, so an entry after the fix-up is never zero |
| `Kernel.RadialValue` | tps-georeference.py:92-95 | The kernel value is 2 r^2 ln r for r != 0. It is 0 at r = 0 when ln(1) = 0. The aliasing of `ri_` and `ri` gives the same value as squaring the original distance |
| `Kernel.Substituted` | tps-georeference.py:82-90 | `ri_` after the loop: the same shape as the distances, each entry being the fixed-up (`Substitute`) distance |
| `Kernel.KernelOfSubstituted` | tps-georeference.py:92-95 | The elementwise kernel of the overwritten distances equals the kernel value of every original distance |
| `Kernel.OverwrittenIsSubstituted` | tps-georeference.py:84-90 | A matrix whose every entry is the fixed-up entry of another is that matrix's fix-up |
| `Kernel.KernelMatrix` | tps-georeference.py:92-97 | The returned `ko` has the shape of the distances, and entry (i, j) is the kernel value of distance (i, j) |
| `Kernel.KernelOfOverwritten` | tps-georeference.py:92-95 | `2 * power(ri, 2) * log(ri_)` taken entry by entry: same shape as its input, entry (i, j) is 2 s^2 ln s of entry s there |
| `Kernel.RadialBasis` | tps-georeference.py:81-97 | After the walk over all flat indices, exactly the zero entries of the array passed in are 1 and nothing else changed. The result is the kernel matrix of the original distances |
| `Matrices.Transpose` | tps-georeference.py:112 | `getH` on real data: entry (i, j) of the result is entry (j, i) of the input, with the shape swapped |
| `Matrices.TransposeTwice` | tps-georeference.py:145-147 | Transposing twice gives the matrix back, so `wP.getH()` with `wP = wP_.getH()` is `wP_` |
| `Matrices.Column` | tps-georeference.py:149-150 | `wW[:, c]`: one entry per row, entry i being entry (i, c) |
| `Matrices.AsColumn` | tps-georeference.py:71-75 | `np.asmatrix(v).getH()`: a |v|-by-1 matrix whose row i holds v_i |
| `Matrices.VStack` | tps-georeference.py:114-116 | The rows of the first matrix come first, then those of the second |
| `Matrices.HStack` | tps-georeference.py:118 | Row i is row i of the first matrix followed by row i of the second |
| `Matrices.Zeros` | tps-georeference.py:116 | A rows-by-cols matrix whose every entry is 0 |
| `Matrices.MatVec` | tps-georeference.py:149-150 | Entry i of the product is the inner product of row i with the vector |
| `Matrices.DotAppend` | tps-georeference.py:149-150 | The inner product splits over concatenated blocks (the kernel and affine parts of a row) |
| `MeshGrid.Linspace` | tps-georeference.py:123 | `np.linspace(start, stop, num)` has num points, point k being k/(num-1) of the way from start to stop (start alone when num is 1); LinspaceStep, LinspaceUp and LinspaceDown give its values |
| `MeshGrid.LinspaceUp` | tps-georeference.py:123 | `linspace(1, n, n)` is 1, 2, ..., n |
| `MeshGrid.LinspaceDown` | tps-georeference.py:186 | `linspace(n, 1, n)` is n, n-1, ..., 1 |
| `MeshGrid.LinspaceStep` | tps-georeference.py:123 | Point k of `linspace(start, stop, num)` with num > 1 is start plus k steps of (stop - start) / (num - 1) |
| `MeshGrid.Meshgrid` | tps-georeference.py:123 | Both outputs have one row per entry of y and one column per entry of x. The first repeats x along every row, the second repeats y down every column |
| `MeshGrid.Flatten` | tps-georeference.py:125-126 | The empty matrix flattens to nothing. Its length and the place of each entry are stated by FlattenLength and FlattenAt, for which its body, the rows concatenated in order, is the reference definition |
| `MeshGrid.FlatIndex` | tps-georeference.py:87-88 | A flat index below rows*cols splits into a row below rows and a column below cols that recombine to the index |
| `MeshGrid.UnflatIndex` | tps-georeference.py:87-88 | Row v and column u recombine to an index below rows*cols that splits back into (v, u) |
| `MeshGrid.FlatSuccessor` | tps-georeference.py:84-88 | Stepping the flat index by one moves one column right, or wraps to column 0 of the next row |
| `MeshGrid.FlatEnd` | tps-georeference.py:84 | After index rows*cols - 1 every entry of the matrix has been visited |
| `MeshGrid.FlattenRowCol` | tps-georeference.py:125-126 | Entry (r, c) sits at index r*cols + c of the row-major flattening |
| `MeshGrid.FlattenAt` | tps-georeference.py:125-126 | Index k of the flattening holds entry (k / cols, k % cols) |
| `MeshGrid.FlattenLength` | tps-georeference.py:125-126 | The flattening of a rows-by-cols matrix has rows*cols entries |
| `MeshGrid.GridX` | tps-georeference.py:125 | `X[k]` of the grid: a value in [1..H] that with `GridY` recombines to k = (Y - 1) H + (X - 1) |
| `MeshGrid.GridY` | tps-georeference.py:126 | `Y[k]` of the grid: the whole number Y >= 1 with (Y - 1) H <= k < Y H, that is floor(k / H) + 1 |
| `MeshGrid.CanvasMesh` | tps-georeference.py:123 | The meshgrid of `linspace(1, H, H)` and `linspace(1, W, W)` is two W-by-H matrices, holding c + 1 in column c of the first and r + 1 in row r of the second |
| `MeshGrid.CanvasMeshAt` | tps-georeference.py:123-126 | Flat grid index k of the canvas has X = k % H + 1 and Y = k / H + 1 |
| `MeshGrid.CanvasGrid` | tps-georeference.py:123-128 | The flattened canvas grid has H*W points, point k at (k % H + 1, k / H + 1) |
| `MeshGrid.GridBijective` | tps-georeference.py:123-128 | Every pixel (v, u) of [1..H] x [1..W] is the grid point of exactly one flat index, (u-1)*H + (v-1) |
| `MeshGrid.GridInCanvas` | tps-georeference.py:123-128 | Every grid point lies on the canvas: 1 <= X <= H and 1 <= Y <= W |
| `ThinPlateSpline.Distance` | tps-georeference.py:105 | An entry of `wR`: the square root of the summed squared coordinate differences, the same whichever point is subtracted, and sqrt(0) between equal points |
| `ThinPlateSpline.DistanceSymmetric` | tps-georeference.py:102-105 | The distance is symmetric for any square root, and a point's distance from itself is sqrt(0) |
| `ThinPlateSpline.DistanceMatrix` | tps-georeference.py:102-105 | `wR` is N-by-N, entry (i, j) being the distance between landmarks i and j |
| `ThinPlateSpline.DesignMatrix` | tps-georeference.py:100-110 | The design matrix is N-by-3, row i being [1, xp_i, yp_i] |
| `ThinPlateSpline.DesignRows` | tps-georeference.py:109-110 | The fill loop leaves row i of `wP_` equal to [1, x_i, y_i] for every i. This is the design matrix |
| `ThinPlateSpline.SystemMatrix` | tps-georeference.py:99-120 | The reference L, (N+3)-by-(N+3): row i < N is the kernel row of landmark i then [1, xp_i, yp_i], row N + r is row r of P^T then three zeros. Its body is the reference definition; SystemMatrixBlocks states the blocks entry by entry |
| `ThinPlateSpline.SystemMatrixBlocks` | tps-georeference.py:112-118 | The blocks of L: K = U(d(p_i, p_j)) top left, the rows [1, xp_i, yp_i] top right, their transpose bottom left, zeros bottom right |
| `ThinPlateSpline.AssemblyIsSystemMatrix` | tps-georeference.py:112-118 | The script's `hstack(vstack(wK, wP), vstack(wP_, zeros))` is the row-wise reference system matrix |
| `ThinPlateSpline.SystemRowTop` | tps-georeference.py:102-118 | Row i < N of L is the kernel values of all landmarks at landmark i, then [1, xp_i, yp_i] |
| `ThinPlateSpline.SystemRowBottom` | tps-georeference.py:112-118 | Row N + r of L is the ones, the xp or the yp, followed by three zeros |
| `ThinPlateSpline.SystemMatrixSymmetric` | tps-georeference.py:102-118 | L is symmetric, whatever the square root and logarithm are |
| `ThinPlateSpline.SystemEntrySymmetric` | tps-georeference.py:102-118 | Entry (i, j) of L equals entry (j, i), block by block |
| `ThinPlateSpline.SystemMatrixZeroDiagonal` | tps-georeference.py:84-95 | With sqrt(0) = 0 and ln(1) = 0 the diagonal of L is zero |
| `ThinPlateSpline.ComputeWl` | tps-georeference.py:99-120 | `computeWl` returns the system matrix of the landmarks |
| `ThinPlateSpline.RightHandSide` | tps-georeference.py:165-167 | Y is (N+3)-by-2. Row i < N is (Xs_i, Ys_i) and the last three rows are zero |
| `ThinPlateSpline.Solves` | tps-georeference.py:169 | The hypothesis standing in for `wW = linalg.inv(wL) * wY`: L, W and Y have m rows, and L times column c of W is column c of Y. Its body is the reference definition |
| `ThinPlateSpline.SplineValue` | tps-georeference.py:147-150 | The spline's channel c at (qx, qy): the kernel values at the landmarks times the kernel weights plus W[N][c] + W[N+1][c] qx + W[N+2][c] qy, and just that affine part when every kernel weight is zero |
| `ThinPlateSpline.RowTimesWeights` | tps-georeference.py:147-150 | A row made of N kernel values and [1, qx, qy], times a weight column, is the spline's value at (qx, qy) |
| `ThinPlateSpline.SolvedRow` | tps-georeference.py:161-169 | Under L W = Y, equation j < N says that the spline's value at landmark j is Y[j][c] |
| `ThinPlateSpline.Interpolates` | tps-georeference.py:161-169 | Under L W = Y the fitted spline reproduces every landmark: channel 0 gives Xs_j and channel 1 gives Ys_j at (Xp_j, Yp_j) |
| `ThinPlateSpline.SideConditions` | tps-georeference.py:114-118 | Under L W = Y, the kernel weights of each channel sum to zero and are orthogonal to xp and to yp |
| `ThinPlateSpline.SideConditionRow` | tps-georeference.py:114-118 | Under L W = Y, equation N + r says row r of P^T is orthogonal to the kernel weights of each channel |
| `ThinPlateSpline.CollinearSingular` | tps-georeference.py:169 | If all landmarks lie on one line a + b x + c y = 0, then (0, ..., 0, a, b, c) is a nonzero vector that L maps to zero, so L has no inverse |
| `ThinPlateSpline.LineThrough` | tps-georeference.py:169 | At most two landmarks always lie on one line, and the result gives its coefficients |
| `ThinPlateSpline.FewLandmarksSingular` | tps-georeference.py:161-169 | With fewer than three landmarks L has a nonzero null vector, so L is singular and has no inverse in exact arithmetic |
| `ThinPlateSpline.ThreeOrthogonalIsZero` | tps-georeference.py:114-118 | Weights orthogonal to 1, x and y of three non-collinear points are zero |
| `ThinPlateSpline.ThreeLandmarksAffine` | tps-georeference.py:161-169 | With three non-collinear landmarks the solved kernel weights are zero and the spline is the affine map W[N] + W[N+1] qx + W[N+2] qy |
| `ThinPlateSpline.GridDistances` | tps-georeference.py:130-136 | `wR` of `tpsMap` is N-by-(H*W), entry (i, k) being the distance from landmark i to grid point k |
| `ThinPlateSpline.GridRowIsSplineValue` | tps-georeference.py:130-150 | Row k of `hstack((wK.getH(), wP.getH()))` times a weight column is the spline's value at grid point k |
| `ThinPlateSpline.TpsMap` | tps-georeference.py:122-152 | Output k of channel c is the spline's value at grid point (k % H + 1, k / H + 1) |
| `Georeference.VShift` | tps-georeference.py:74 | The literal 1080 added to every raw v, a constant and not the canvas height; `Ingest` states its use |
| `Georeference.Ingest` | tps-georeference.py:71-77 | Xs = yraw, Ys = xraw, Xp = 1080 + vraw, Yp = uraw, row by row, one control point per row |
| `Georeference.IngestKeepsAllButEnable` | tps-georeference.py:69-77 | Two landmark files ingest to the same control points if and only if they agree row by row on x, y, u and v |
| `Georeference.Fit` | tps-georeference.py:161-167 | The fit builds the system matrix of the ingested basis points and the right-hand side of the ingested targets |
| `Georeference.DescendingMesh` | tps-georeference.py:186 | The meshgrid of `linspace(imgH, 1, imgH)` and `linspace(1, imgW, imgW)` is two imgW-by-imgH matrices, holding imgH - c in column c of the first and r + 1 in row r of the second |
| `Georeference.DescendingMeshAt` | tps-georeference.py:186-197 | `X_02[k]` is imgH - k % imgH, so (imgH + 1) - `X_02[k]` is k % imgH + 1. `Y_02[k]` is k / imgH + 1 |
| `Georeference.OutputGrid` | tps-georeference.py:186-200 | The two loops leave X and Y equal to the grid `tpsMap` walks: X[k] = k % imgH + 1 and Y[k] = k / imgH + 1 |
| `Georeference.LookupTable` | tps-georeference.py:203 | The table has imgH*imgW rows, and row k's (v, u) is grid point k |
| `Georeference.Warp` | tps-georeference.py:177-203 | `tpsMap`, the output grid and `hstack((Yw, Xw, Y, X))` give the lookup table: row k is the spline's channel 1 and channel 0 at grid point k, then (u, v) |
| `Georeference.TableRowsInCanvas` | tps-georeference.py:186-203 | Every row of the table is a pixel of the canvas |
| `Georeference.TableRowOfPixel` | tps-georeference.py:186-203 | Every canvas pixel (v, u) is the table row at index (u-1)*imgH + (v-1) and at no other index |
| `Georeference.TableReproducesLandmarks` | tps-georeference.py:69-203 | Under L W = Y, at the pixel where a landmark's shifted (v, u) lies, the table row gives back that landmark's raw x and y |

## Left out

- Command-line parsing (`sys.argv`, the `int` conversions) is not modelled. imgW and imgH are parameters.
- Reading the landmark file (`np.loadtxt`, header skipping, malformed input) is not modelled. The landmark rows are an input.
- Writing the CSV file (`np.savetxt` with `%.9f`/`%d` formatting and the header) is not modelled. The model stops at the table rows. The `%d` formatting of u and v is exact here because they are whole numbers.
- The progress messages with timestamps are not modelled. They are I/O only.
- The square root and the natural logarithm are parameters, because the model has no real transcendental functions. Properties that depend on them state their assumptions (sqrt(0) = 0, ln(1) = 0).
- The solve `linalg.inv(wL) * wY` is not modelled. Dafny has no numerical linear algebra here. The fitted weights are an input, and properties of the spline assume `Solves`, that is, L W = Y. For too few or collinear landmarks the model proves only that L is singular, through a nonzero null vector (`CollinearSingular`, `FewLandmarksSingular`). Whether numpy raises `LinAlgError` there or returns a meaningless inverse through rounding is not modelled.
- Floating-point rounding is not modelled. All arithmetic is on exact reals, so near-singular systems and `inf`/`nan` results have no counterpart.
- `Kernel.RadialBasis` finds the entry for flat index i as (i / cols, i % cols), not with `ri.item(i)`. The two agree for every array, because `item(i)` reads flat index i in row-major (C) order whatever the memory layout.
- The commented-out block at the end of the script (the line-oriented output kept inside a string literal) is not modelled, because it never runs.
