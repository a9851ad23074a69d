/** The main script of tps-georeference: landmark ingestion, the fit
    (`computeWl` and the right-hand side), the evaluation over the canvas
    (`tpsMap`), the output grid and the assembly of the lookup rows
    (x, y, u, v). Reading the landmark file, the command line, the
    progress messages, the solve `inv(wL) * wY` and writing the CSV file
    are not part of this model. */
module Georeference {
  import opened Matrices
  import opened MeshGrid
  import opened ThinPlateSpline

  /** One data row of the landmark file, columns in file order:
      x, y (map coordinates), u, v (pixel coordinates), enable. */
  datatype RawLandmark = RawLandmark(xraw: real, yraw: real, uraw: real, vraw: real, enable: real)

  /** The landmarks after ingestion, as the four column vectors of the
      script: targets (Xs, Ys) and basis points (Xp, Yp). */
  datatype ControlPoints = ControlPoints(xs: seq<real>, ys: seq<real>, xp: seq<real>, yp: seq<real>)
  {
    /** The four columns describe the same landmarks. */
    predicate WellFormed()
    {
      |xs| == |ys| == |xp| == |yp|
    }
  }

  /** The shift added to every raw v at ingestion: a literal canvas height,
      not the height given on the command line. */
  const VShift: real := 1080.0

  /** Ingestion (`Xs = yraw`, `Ys = xraw`, `Xp = 1080 + vraw`, `Yp = uraw`):
      x and y are swapped, u and v are swapped and v is shifted so that the
      pixel origin is at the bottom left. N is the number of rows; the
      enable column is read and never used. */
  function Ingest(rows: seq<RawLandmark>): (cp: ControlPoints)
    ensures cp.WellFormed() && |cp.xp| == |rows|
    ensures forall i :: 0 <= i < |rows| ==>
              cp.xs[i] == rows[i].yraw && cp.ys[i] == rows[i].xraw &&
              cp.xp[i] == VShift + rows[i].vraw && cp.yp[i] == rows[i].uraw
  {
    ControlPoints(seq(|rows|, i requires 0 <= i < |rows| => rows[i].yraw),
                  seq(|rows|, i requires 0 <= i < |rows| => rows[i].xraw),
                  seq(|rows|, i requires 0 <= i < |rows| => VShift + rows[i].vraw),
                  seq(|rows|, i requires 0 <= i < |rows| => rows[i].uraw))
  }

  /** Two raw landmarks that agree on their four coordinates. */
  predicate SameCoordinates(a: RawLandmark, b: RawLandmark)
  {
    a.xraw == b.xraw && a.yraw == b.yraw && a.uraw == b.uraw && a.vraw == b.vraw
  }

  /** Ingestion loses exactly the enable column: two landmark files give the
      same control points if and only if they have the same number of rows
      and agree row by row on x, y, u and v. */
  lemma IngestKeepsAllButEnable(a: seq<RawLandmark>, b: seq<RawLandmark>)
    ensures Ingest(a) == Ingest(b) <==> |a| == |b| && forall i :: 0 <= i < |a| ==> SameCoordinates(a[i], b[i])
  {
    if Ingest(a) == Ingest(b) {
      assert |a| == |Ingest(a).xp| == |Ingest(b).xp| == |b|;
      forall i | 0 <= i < |a|
        ensures SameCoordinates(a[i], b[i])
      {
        assert Ingest(a).xs[i] == Ingest(b).xs[i] && Ingest(a).ys[i] == Ingest(b).ys[i];
        assert Ingest(a).xp[i] == Ingest(b).xp[i] && Ingest(a).yp[i] == Ingest(b).yp[i];
      }
    }
    if |a| == |b| && forall i :: 0 <= i < |a| ==> SameCoordinates(a[i], b[i]) {
      var ca, cb := Ingest(a), Ingest(b);
      assert ca.xs == cb.xs && ca.ys == cb.ys && ca.xp == cb.xp && ca.yp == cb.yp;
    }
  }

  /** The fitting half of the script (lines `computeWl` to `wY`): ingest the
      landmarks, build the system matrix and the right-hand side. */
  method Fit(rows: seq<RawLandmark>, sqrt: real -> real, ln: real -> real)
    returns (cp: ControlPoints, wL: Matrix, wY: Matrix)
    ensures cp == Ingest(rows)
    ensures wL == SystemMatrix(cp.xp, cp.yp, sqrt, ln)
    ensures wY == RightHandSide(cp.xs, cp.ys)
  {
    cp := Ingest(rows);
    var nps := |cp.xp|;
    wL := ComputeWl(cp.xp, cp.yp, nps, sqrt, ln);
    wY := RightHandSide(cp.xs, cp.ys);
  }

  /** The descending meshgrid of the output grid,
      `np.meshgrid(np.linspace(imgH, 1, imgH), np.linspace(1, imgW, imgW))`:
      imgW rows of imgH columns, holding imgH - c in column c of the first
      and r + 1 in row r of the second. */
  function DescendingMesh(height: nat, width: nat): (g: (Matrix, Matrix))
    ensures IsMatrix(g.0, width, height) && IsMatrix(g.1, width, height)
    ensures forall r, c :: 0 <= r < width && 0 <= c < height ==>
              g.0[r][c] == (height - c) as real && g.1[r][c] == (r + 1) as real
  {
    var x, y := Linspace(height as real, 1.0, height), Linspace(1.0, width as real, width);
    assert forall c :: 0 <= c < height ==> x[c] == (height - c) as real by {
      forall c | 0 <= c < height { LinspaceDown(height, c); }
    }
    assert forall r :: 0 <= r < width ==> y[r] == (r + 1) as real by {
      forall r | 0 <= r < width { LinspaceUp(width, r); }
    }
    Meshgrid(x, y)
  }

  /** `X_02`, the flattened first meshgrid output, holds imgH - k % imgH at
      index k, so that (imgH + 1) - X_02[k] is the v coordinate of grid
      point k; `Y_02` holds its u coordinate. */
  lemma DescendingMeshAt(height: nat, width: nat, k: nat)
    requires k < height * width
    ensures height > 0
    ensures |Flatten(DescendingMesh(height, width).0)| == height * width
    ensures |Flatten(DescendingMesh(height, width).1)| == height * width
    ensures Flatten(DescendingMesh(height, width).0)[k] == (height - k % height) as real
    ensures (height + 1) as real - Flatten(DescendingMesh(height, width).0)[k] == GridX(height, k)
    ensures Flatten(DescendingMesh(height, width).1)[k] == GridY(height, k)
  {
    var mesh := DescendingMesh(height, width);
    assert k < width * height;
    FlatIndex(k, width, height);
    FlattenAt(mesh.0, width, height, k);
    FlattenAt(mesh.1, width, height, k);
    LinspaceDown(height, k % height);
    LinspaceUp(width, k / height);
  }

  /** The output grid of the script: the meshgrid over a descending v axis,
      flattened, and the two loops that fill `X[i] = (imgH + 1) - X_02[i]`
      and `Y[i] = Y_02[i]`. The result is exactly the grid `tpsMap` walks:
      X[k] = k % imgH + 1 and Y[k] = k / imgH + 1. */
  method OutputGrid(imgH: nat, imgW: nat) returns (X: seq<real>, Y: seq<real>)
    ensures |X| == imgH * imgW && |Y| == imgH * imgW
    ensures forall k :: 0 <= k < imgH * imgW ==> X[k] == GridX(imgH, k) && Y[k] == GridY(imgH, k)
  {
    var size := imgH * imgW;
    var mesh := DescendingMesh(imgH, imgW);
    FlattenLength(mesh.0, imgW, imgH);
    FlattenLength(mesh.1, imgW, imgH);
    var X_02, Y_02 := Flatten(mesh.0), Flatten(mesh.1);
    assert |X_02| == size && |Y_02| == size;
    var x := new real[size](i => 0.0);
    for i := 0 to size
      invariant forall k :: 0 <= k < i ==> x[k] == GridX(imgH, k)
    {
      DescendingMeshAt(imgH, imgW, i);
      x[i] := (imgH + 1) as real - X_02[i];
    }
    X := x[..];
    var y := new real[size](i => 0.0);
    for i := 0 to size
      invariant forall k :: 0 <= k < i ==> y[k] == GridY(imgH, k)
    {
      DescendingMeshAt(imgH, imgW, i);
      y[i] := Y_02[i];
    }
    Y := y[..];
  }

  /** One output record: source-image coordinates (x, y) for canvas pixel
      (u, v), in the order of the CSV header `x,y,u,v`. */
  datatype LookupRow = LookupRow(x: real, y: real, u: real, v: real)

  /** The lookup table the script writes: for grid point k, with
      v = k % imgH + 1 and u = k / imgH + 1, the row
      (Yw[k], Xw[k], u, v) where Xw and Yw are the spline's two channels
      at (v, u). */
  function LookupTable(cp: ControlPoints, W: Matrix, imgH: nat, imgW: nat,
                       sqrt: real -> real, ln: real -> real): (table: seq<LookupRow>)
    requires cp.WellFormed() && IsMatrix(W, |cp.xp| + 3, 2)
    ensures |table| == imgH * imgW
    ensures forall k :: 0 <= k < |table| ==> table[k].v == GridX(imgH, k) && table[k].u == GridY(imgH, k)
  {
    seq(imgH * imgW, k requires 0 <= k < imgH * imgW =>
      var v, u := GridX(imgH, k), GridY(imgH, k);
      LookupRow(SplineValue(W, 1, cp.xp, cp.yp, v, u, sqrt, ln),
                SplineValue(W, 0, cp.xp, cp.yp, v, u, sqrt, ln), u, v))
  }

  /** The evaluation half of the script, given the weights: `tpsMap`, the
      output grid, and `hstack((Yw, Xw, Y, X))`. */
  method Warp(cp: ControlPoints, wW: Matrix, imgH: nat, imgW: nat, sqrt: real -> real, ln: real -> real)
    returns (table: seq<LookupRow>)
    requires cp.WellFormed() && IsMatrix(wW, |cp.xp| + 3, 2)
    ensures table == LookupTable(cp, wW, imgH, imgW, sqrt, ln)
  {
    var nps := |cp.xp|;
    var Xw, Yw := TpsMap(wW, imgH, imgW, cp.xp, cp.yp, nps, sqrt, ln);
    var X, Y := OutputGrid(imgH, imgW);
    table := seq(imgH * imgW, k requires 0 <= k < imgH * imgW => LookupRow(Yw[k], Xw[k], Y[k], X[k]));
  }

  /** Every row of the table is a pixel of the canvas: v in [1..imgH] and
      u in [1..imgW]. */
  lemma TableRowsInCanvas(cp: ControlPoints, W: Matrix, imgH: nat, imgW: nat,
                          sqrt: real -> real, ln: real -> real)
    requires cp.WellFormed() && IsMatrix(W, |cp.xp| + 3, 2)
    ensures var table := LookupTable(cp, W, imgH, imgW, sqrt, ln);
      forall k :: 0 <= k < |table| ==>
        1.0 <= table[k].v <= imgH as real && 1.0 <= table[k].u <= imgW as real
  {
    var table := LookupTable(cp, W, imgH, imgW, sqrt, ln);
    forall k | 0 <= k < |table|
      ensures 1.0 <= table[k].v <= imgH as real && 1.0 <= table[k].u <= imgW as real
    {
      GridInCanvas(imgH, imgW, k);
    }
  }

  /** Every pixel (v, u) of the canvas appears in the table exactly once: at
      index (u - 1) * imgH + (v - 1) and at no other index. */
  lemma TableRowOfPixel(cp: ControlPoints, W: Matrix, imgH: nat, imgW: nat,
                        sqrt: real -> real, ln: real -> real, v: nat, u: nat)
    requires cp.WellFormed() && IsMatrix(W, |cp.xp| + 3, 2)
    requires 1 <= v <= imgH && 1 <= u <= imgW
    ensures var table := LookupTable(cp, W, imgH, imgW, sqrt, ln);
      var k := (u - 1) * imgH + (v - 1);
      && k < |table| && table[k].v == v as real && table[k].u == u as real
      && forall k' :: 0 <= k' < |table| && table[k'].v == v as real && table[k'].u == u as real ==> k' == k
  {
    GridBijective(imgH, imgW, v, u);
  }

  /** End to end: if the weights solve the fitted system, then at the pixel
      where a landmark's basis point lies, the table row gives back that
      landmark's original x and y. */
  lemma TableReproducesLandmarks(rows: seq<RawLandmark>, W: Matrix, imgH: nat, imgW: nat,
                                 sqrt: real -> real, ln: real -> real, j: nat, k: nat)
    requires j < |rows| && k < imgH * imgW
    requires var cp := Ingest(rows);
             Solves(SystemMatrix(cp.xp, cp.yp, sqrt, ln), W, RightHandSide(cp.xs, cp.ys), |rows| + 3)
    requires imgH > 0 && VShift + rows[j].vraw == GridX(imgH, k) && rows[j].uraw == GridY(imgH, k)
    ensures LookupTable(Ingest(rows), W, imgH, imgW, sqrt, ln)[k].x == rows[j].xraw
    ensures LookupTable(Ingest(rows), W, imgH, imgW, sqrt, ln)[k].y == rows[j].yraw
  {
    var cp := Ingest(rows);
    Interpolates(cp.xs, cp.ys, cp.xp, cp.yp, W, sqrt, ln, j);
  }
}
