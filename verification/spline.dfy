/** Fitting and evaluating the thin-plate spline (Bookstein, "Principal
    Warps", IEEE PAMI 11(6), 1989): the (N+3)x(N+3) system matrix
    L = [[K, P], [P^T, 0]] built by `computeWl`, the right-hand side
    [[Xs, Ys], [0]], and the dense evaluation `tpsMap` of the fitted
    spline over the canvas grid. The square root is a parameter `sqrt`;
    the solve `inv(L) * Y` is not modelled, and its result W is an input,
    with the relation L W = Y stated as the hypothesis `Solves`. */
module ThinPlateSpline {
  import opened Matrices
  import opened MeshGrid
  import opened Kernel

  /** Euclidean distance between (px, py) and (qx, qy), with the square
      root left abstract: the root of the squared differences, whichever
      point is subtracted from which, and sqrt(0) between equal points. */
  function Distance(px: real, py: real, qx: real, qy: real, sqrt: real -> real): (d: real)
    ensures d == sqrt(Square(qx - px) + Square(qy - py))
    ensures px == qx && py == qy ==> d == sqrt(0.0)
  {
    sqrt(Square(px - qx) + Square(py - qy))
  }

  /** The distance does not depend on the order of its two points, whatever
      the square root is; a point is at distance sqrt(0) from itself. */
  lemma DistanceSymmetric(px: real, py: real, qx: real, qy: real, sqrt: real -> real)
    ensures Distance(px, py, qx, qy, sqrt) == Distance(qx, qy, px, py, sqrt)
    ensures Distance(px, py, px, py, sqrt) == sqrt(0.0)
  {
    assert Square(px - qx) == Square(qx - px);
    assert Square(py - qy) == Square(qy - py);
  }

  /** The landmark-to-landmark distances `wR` of `computeWl`: entry (i, j)
      is the distance from landmark i to landmark j. */
  function DistanceMatrix(xp: seq<real>, yp: seq<real>, sqrt: real -> real): (d: Matrix)
    requires |xp| == |yp|
    ensures IsMatrix(d, |xp|, |xp|)
    ensures forall i, j :: 0 <= i < |xp| && 0 <= j < |xp| ==> d[i][j] == Distance(xp[i], yp[i], xp[j], yp[j], sqrt)
  {
    seq(|xp|, i requires 0 <= i < |xp| =>
      seq(|xp|, j requires 0 <= j < |xp| => Distance(xp[i], yp[i], xp[j], yp[j], sqrt)))
  }

  /** The kernel values of all N landmarks at the point (qx, qy): one
      column of the landmark-to-grid kernel block of `tpsMap`. */
  function KernelRow(xp: seq<real>, yp: seq<real>, qx: real, qy: real,
                     sqrt: real -> real, ln: real -> real): (row: seq<real>)
    requires |xp| == |yp|
    ensures |row| == |xp|
  {
    seq(|xp|, i requires 0 <= i < |xp| => RadialValue(Distance(xp[i], yp[i], qx, qy, sqrt), ln))
  }

  /** The polynomial design block: one row [1, x, y] per point. */
  function DesignMatrix(xs: seq<real>, ys: seq<real>): (p: Matrix)
    requires |xs| == |ys|
    ensures IsMatrix(p, |xs|, 3)
    ensures forall i :: 0 <= i < |xs| ==> p[i][0] == 1.0 && p[i][1] == xs[i] && p[i][2] == ys[i]
  {
    seq(|xs|, i requires 0 <= i < |xs| => [1.0, xs[i], ys[i]])
  }

  /** The loop that fills the zero matrix `wP_` row by row with
      [1, x_i, y_i] (in `computeWl` over the landmarks, in `tpsMap` over
      the grid points). */
  method DesignRows(xs: seq<real>, ys: seq<real>) returns (p: Matrix)
    requires |xs| == |ys|
    ensures IsMatrix(p, |xs|, 3)
    ensures forall i :: 0 <= i < |xs| ==> p[i] == [1.0, xs[i], ys[i]]
    ensures p == DesignMatrix(xs, ys)
  {
    var n := |xs|;
    var a := new real[n, 3]((i, j) => 0.0);
    for i := 0 to n
      invariant forall k :: 0 <= k < i ==> a[k, 0] == 1.0 && a[k, 1] == xs[k] && a[k, 2] == ys[k]
    {
      a[i, 0], a[i, 1], a[i, 2] := 1.0, xs[i], ys[i];
    }
    p := Contents(a);
    forall i | 0 <= i < n
      ensures p[i] == [1.0, xs[i], ys[i]]
    {
      assert p[i][0] == 1.0 && p[i][1] == xs[i] && p[i][2] == ys[i];
    }
  }

  /** Row i of the kernel block K: the kernel values of the distances
      from landmark i to every landmark. */
  function LandmarkKernelRow(xp: seq<real>, yp: seq<real>, i: nat,
                             sqrt: real -> real, ln: real -> real): (row: seq<real>)
    requires |xp| == |yp| && i < |xp|
    ensures |row| == |xp|
  {
    seq(|xp|, j requires 0 <= j < |xp| => RadialValue(Distance(xp[i], yp[i], xp[j], yp[j], sqrt), ln))
  }

  /** The system matrix L = [[K, P], [P^T, 0]], written row by row: row
      i < N is row i of K followed by [1, xp_i, yp_i]; row N + r (r < 3)
      is row r of P^T (all ones, the xp, the yp) followed by three zeros. */
  function SystemMatrix(xp: seq<real>, yp: seq<real>, sqrt: real -> real, ln: real -> real): (wL: Matrix)
    requires |xp| == |yp|
    ensures IsMatrix(wL, |xp| + 3, |xp| + 3)
  {
    var n := |xp|;
    seq(n + 3, i requires 0 <= i < n + 3 =>
      if i < n then LandmarkKernelRow(xp, yp, i, sqrt, ln) + [1.0, xp[i], yp[i]]
      else [Ones(n), xp, yp][i - n] + [0.0, 0.0, 0.0])
  }

  /** The block placement of the system matrix: K = U(d(p_i, p_j)) at
      [0..N) x [0..N); row i of P, [1, xp_i, yp_i], at [0..N) x [N..N+3);
      P^T at [N..N+3) x [0..N); zeros at [N..N+3) x [N..N+3). */
  lemma SystemMatrixBlocks(xp: seq<real>, yp: seq<real>, sqrt: real -> real, ln: real -> real)
    requires |xp| == |yp|
    ensures var wL, n := SystemMatrix(xp, yp, sqrt, ln), |xp|;
      && (forall i, j :: 0 <= i < n && 0 <= j < n ==>
            wL[i][j] == RadialValue(Distance(xp[i], yp[i], xp[j], yp[j], sqrt), ln))
      && (forall i :: 0 <= i < n ==> wL[i][n] == 1.0 && wL[i][n + 1] == xp[i] && wL[i][n + 2] == yp[i])
      && (forall j :: 0 <= j < n ==> wL[n][j] == 1.0 && wL[n + 1][j] == xp[j] && wL[n + 2][j] == yp[j])
      && (forall i, j :: n <= i < n + 3 && n <= j < n + 3 ==> wL[i][j] == 0.0)
  {
    var wL, n := SystemMatrix(xp, yp, sqrt, ln), |xp|;
    forall i, j | n <= i < n + 3 && n <= j < n + 3
      ensures wL[i][j] == 0.0
    {
      assert wL[i] == [Ones(n), xp, yp][i - n] + [0.0, 0.0, 0.0];
    }
    forall j | 0 <= j < n
      ensures wL[n][j] == 1.0 && wL[n + 1][j] == xp[j] && wL[n + 2][j] == yp[j]
    {
      assert wL[n] == Ones(n) + [0.0, 0.0, 0.0];
      assert wL[n + 1] == xp + [0.0, 0.0, 0.0];
      assert wL[n + 2] == yp + [0.0, 0.0, 0.0];
    }
  }

  /** The script's assembly, `hstack((vstack((wK, wP)), vstack((wP_,
      zeros((3, 3))))))` with `wK = radialBasis(wR)` and `wP = wP_^T`, is
      the system matrix. */
  lemma AssemblyIsSystemMatrix(xp: seq<real>, yp: seq<real>, sqrt: real -> real, ln: real -> real)
    requires |xp| == |yp|
    ensures var wP_ := DesignMatrix(xp, yp);
            HStack(VStack(KernelMatrix(DistanceMatrix(xp, yp, sqrt), ln), Transpose(wP_, 3)),
                   VStack(wP_, Zeros(3, 3)))
            == SystemMatrix(xp, yp, sqrt, ln)
  {
    var n := |xp|;
    var wK := KernelMatrix(DistanceMatrix(xp, yp, sqrt), ln);
    var wP_ := DesignMatrix(xp, yp);
    var wP := Transpose(wP_, 3);
    var wL := HStack(VStack(wK, wP), VStack(wP_, Zeros(3, 3)));
    var ref := SystemMatrix(xp, yp, sqrt, ln);
    forall i | 0 <= i < n + 3
      ensures wL[i] == ref[i]
    {
      if i < n {
        assert wK[i] == LandmarkKernelRow(xp, yp, i, sqrt, ln);
        assert wL[i] == wK[i] + wP_[i];
      } else {
        var r := i - n;
        assert wP[r] == [Ones(n), xp, yp][r];
        assert wL[i] == wP[r] + Zeros(3, 3)[r];
      }
    }
  }

  /** Row i < N of the system matrix: the kernel values of all landmarks
      at landmark i (distance is symmetric), followed by [1, xp_i, yp_i]. */
  lemma SystemRowTop(xp: seq<real>, yp: seq<real>, sqrt: real -> real, ln: real -> real, i: nat)
    requires |xp| == |yp| && i < |xp|
    ensures SystemMatrix(xp, yp, sqrt, ln)[i] == KernelRow(xp, yp, xp[i], yp[i], sqrt, ln) + [1.0, xp[i], yp[i]]
  {
    var k1, k2 := LandmarkKernelRow(xp, yp, i, sqrt, ln), KernelRow(xp, yp, xp[i], yp[i], sqrt, ln);
    forall j | 0 <= j < |xp|
      ensures k1[j] == k2[j]
    {
      DistanceSymmetric(xp[i], yp[i], xp[j], yp[j], sqrt);
    }
    assert k1 == k2;
  }

  function Ones(n: nat): (s: seq<real>)
    ensures |s| == n && forall i :: 0 <= i < n ==> s[i] == 1.0
  {
    seq(n, i => 1.0)
  }

  /** Row N + r of the system matrix (r < 3): all ones, then the xp,
      then the yp of the landmarks, followed by three zeros. */
  lemma SystemRowBottom(xp: seq<real>, yp: seq<real>, sqrt: real -> real, ln: real -> real, r: nat)
    requires |xp| == |yp| && r < 3
    ensures SystemMatrix(xp, yp, sqrt, ln)[|xp| + r] == [Ones(|xp|), xp, yp][r] + [0.0, 0.0, 0.0]
  {
  }

  /** The system matrix is symmetric, for any square root and logarithm:
      the kernel block because distances are symmetric, the off-diagonal
      blocks because one is the transpose of the other, and the zero
      corner trivially. */
  lemma SystemMatrixSymmetric(xp: seq<real>, yp: seq<real>, sqrt: real -> real, ln: real -> real)
    requires |xp| == |yp|
    ensures forall i, j :: 0 <= i < |xp| + 3 && 0 <= j < |xp| + 3 ==>
              SystemMatrix(xp, yp, sqrt, ln)[i][j] == SystemMatrix(xp, yp, sqrt, ln)[j][i]
  {
    var wL := SystemMatrix(xp, yp, sqrt, ln);
    forall i, j | 0 <= i < |xp| + 3 && 0 <= j < |xp| + 3
      ensures wL[i][j] == wL[j][i]
    {
      SystemEntrySymmetric(xp, yp, sqrt, ln, i, j);
    }
  }

  /** One entry of the symmetry of the system matrix, block by block. */
  lemma SystemEntrySymmetric(xp: seq<real>, yp: seq<real>, sqrt: real -> real, ln: real -> real, i: nat, j: nat)
    requires |xp| == |yp| && i < |xp| + 3 && j < |xp| + 3
    ensures SystemMatrix(xp, yp, sqrt, ln)[i][j] == SystemMatrix(xp, yp, sqrt, ln)[j][i]
  {
    var n := |xp|;
    var wL := SystemMatrix(xp, yp, sqrt, ln);
    if i < n && j < n {
      assert wL[i] == LandmarkKernelRow(xp, yp, i, sqrt, ln) + [1.0, xp[i], yp[i]];
      assert wL[j] == LandmarkKernelRow(xp, yp, j, sqrt, ln) + [1.0, xp[j], yp[j]];
      DistanceSymmetric(xp[i], yp[i], xp[j], yp[j], sqrt);
    } else if i < n {
      assert wL[i] == LandmarkKernelRow(xp, yp, i, sqrt, ln) + [1.0, xp[i], yp[i]];
      assert wL[j] == [Ones(n), xp, yp][j - n] + [0.0, 0.0, 0.0];
    } else if j < n {
      assert wL[j] == LandmarkKernelRow(xp, yp, j, sqrt, ln) + [1.0, xp[j], yp[j]];
      assert wL[i] == [Ones(n), xp, yp][i - n] + [0.0, 0.0, 0.0];
    } else {
      assert wL[i] == [Ones(n), xp, yp][i - n] + [0.0, 0.0, 0.0];
      assert wL[j] == [Ones(n), xp, yp][j - n] + [0.0, 0.0, 0.0];
    }
  }

  /** With sqrt(0) = 0 and ln(1) = 0 the whole diagonal of the system
      matrix is zero: a landmark is at distance 0 from itself, and the
      zero-distance fix-up in the kernel turns that into the value 0. */
  lemma SystemMatrixZeroDiagonal(xp: seq<real>, yp: seq<real>, sqrt: real -> real, ln: real -> real)
    requires |xp| == |yp|
    requires sqrt(0.0) == 0.0 && ln(1.0) == 0.0
    ensures forall i :: 0 <= i < |xp| + 3 ==> SystemMatrix(xp, yp, sqrt, ln)[i][i] == 0.0
  {
    var n := |xp|;
    var wL := SystemMatrix(xp, yp, sqrt, ln);
    SystemMatrixBlocks(xp, yp, sqrt, ln);
    forall i | 0 <= i < n
      ensures wL[i][i] == 0.0
    {
      DistanceSymmetric(xp[i], yp[i], xp[i], yp[i], sqrt);
    }
  }

  /** `computeWl(xp, yp, n)`: the pairwise distances `wR` (an n-by-n
      array, whose zero entries the kernel overwrites with 1), the kernel
      block `wK = radialBasis(wR)`, the design rows `wP_`, and the block
      assembly. The result is the system matrix. */
  method ComputeWl(xp: seq<real>, yp: seq<real>, n: nat, sqrt: real -> real, ln: real -> real) returns (wL: Matrix)
    requires |xp| == n && |yp| == n
    ensures wL == SystemMatrix(xp, yp, sqrt, ln)
  {
    var wR := new real[n, n]((i, j) requires 0 <= i < n && 0 <= j < n => Distance(xp[i], yp[i], xp[j], yp[j], sqrt));
    assert Contents(wR) == DistanceMatrix(xp, yp, sqrt) by {
      forall i | 0 <= i < n
        ensures Contents(wR)[i] == DistanceMatrix(xp, yp, sqrt)[i]
      {
      }
    }
    var wK := RadialBasis(wR, ln);
    var wP_ := DesignRows(xp, yp);
    var wP := Transpose(wP_, 3);
    var wL_01 := VStack(wK, wP);
    var wL_02 := VStack(wP_, Zeros(3, 3));
    wL := HStack(wL_01, wL_02);
    AssemblyIsSystemMatrix(xp, yp, sqrt, ln);
  }

  /** The right-hand side `wY = vstack((hstack((Xs, Ys)), zeros((3, 2))))`:
      (N+3)-by-2, row i < N is (Xs_i, Ys_i), the last three rows are zero. */
  function RightHandSide(xs: seq<real>, ys: seq<real>): (wY: Matrix)
    requires |xs| == |ys|
    ensures IsMatrix(wY, |xs| + 3, 2)
    ensures forall i :: 0 <= i < |xs| ==> wY[i] == [xs[i], ys[i]]
    ensures forall i :: |xs| <= i < |xs| + 3 ==> wY[i] == [0.0, 0.0]
  {
    var wY_ := HStack(AsColumn(xs), AsColumn(ys));
    var wY := VStack(wY_, Zeros(3, 2));
    assert forall i :: 0 <= i < |xs| ==> wY[i] == [xs[i]] + [ys[i]];
    assert forall i :: |xs| <= i < |xs| + 3 ==> wY[i] == Zeros(3, 2)[i - |xs|];
    wY
  }

  /** `W` solves the linear system `L W = Y`, column by column: the
      hypothesis standing in for `wW = linalg.inv(wL) * wY`. */
  predicate Solves(L: Matrix, W: Matrix, Y: Matrix, m: nat): (b: bool)
    ensures b ==> |L| == m && |W| == m && |Y| == m
  {
    && IsMatrix(L, m, m) && IsMatrix(W, m, 2) && IsMatrix(Y, m, 2)
    && forall j, c :: 0 <= j < m && 0 <= c < 2 ==> Dot(L[j], Column(W, c)) == Y[j][c]
  }

  /** The fitted spline's channel `c` at the point (qx, qy):
      sum_i W[i][c] U(|p_i - q|) + W[N][c] + W[N+1][c] qx + W[N+2][c] qy.
      When every kernel weight of the channel is zero, only the affine part
      is left. */
  function SplineValue(W: Matrix, c: nat, xp: seq<real>, yp: seq<real>, qx: real, qy: real,
                       sqrt: real -> real, ln: real -> real): (v: real)
    requires |xp| == |yp| && IsMatrix(W, |xp| + 3, 2) && c < 2
    ensures (forall i :: 0 <= i < |xp| ==> W[i][c] == 0.0) ==> v == AffinePart(W, c, |xp|, qx, qy)
  {
    var n := |xp|;
    var kernel, w := KernelRow(xp, yp, qx, qy, sqrt, ln), Column(W, c)[..n];
    assert (forall i :: 0 <= i < n ==> W[i][c] == 0.0) ==> Dot(kernel, w) == 0.0 by {
      if forall i :: 0 <= i < n ==> W[i][c] == 0.0 {
        DotZeroRight(kernel, w);
      }
    }
    Dot(kernel, w) + AffinePart(W, c, n, qx, qy)
  }

  /** The affine part W[N][c] + W[N+1][c] qx + W[N+2][c] qy of the spline. */
  function AffinePart(W: Matrix, c: nat, n: nat, qx: real, qy: real): real
    requires IsMatrix(W, n + 3, 2) && c < 2
  {
    W[n][c] + W[n + 1][c] * qx + W[n + 2][c] * qy
  }

  /** A row made of N kernel values and [1, qx, qy], times column `c` of the
      weights, is the spline's value at (qx, qy). */
  lemma RowTimesWeights(row: seq<real>, kernel: seq<real>, qx: real, qy: real, W: Matrix, c: nat)
    requires IsMatrix(W, |kernel| + 3, 2) && c < 2
    requires row == kernel + [1.0, qx, qy]
    ensures Dot(row, Column(W, c)) == Dot(kernel, Column(W, c)[..|kernel|]) + AffinePart(W, c, |kernel|, qx, qy)
  {
    var n := |kernel|;
    var col := Column(W, c);
    assert col == col[..n] + col[n..];
    DotAppend(kernel, [1.0, qx, qy], col[..n], col[n..]);
    Dot3([1.0, qx, qy], col[n..]);
  }

  /** The interpolation property: if W solves the system, the fitted spline
      reproduces every landmark's target coordinates at that landmark's
      basis point (channel 0 gives Xs, channel 1 gives Ys). */
  lemma Interpolates(xs: seq<real>, ys: seq<real>, xp: seq<real>, yp: seq<real>, W: Matrix,
                     sqrt: real -> real, ln: real -> real, j: nat)
    requires |xs| == |ys| == |xp| == |yp| && j < |xp|
    requires Solves(SystemMatrix(xp, yp, sqrt, ln), W, RightHandSide(xs, ys), |xp| + 3)
    ensures SplineValue(W, 0, xp, yp, xp[j], yp[j], sqrt, ln) == xs[j]
    ensures SplineValue(W, 1, xp, yp, xp[j], yp[j], sqrt, ln) == ys[j]
  {
    var Y := RightHandSide(xs, ys);
    assert Y[j] == [xs[j], ys[j]];
    SolvedRow(xp, yp, W, Y, sqrt, ln, j, 0);
    SolvedRow(xp, yp, W, Y, sqrt, ln, j, 1);
  }

  /** Equation j < N of a solved system, read as the spline's value at
      landmark j. */
  lemma SolvedRow(xp: seq<real>, yp: seq<real>, W: Matrix, Y: Matrix, sqrt: real -> real, ln: real -> real,
                  j: nat, c: nat)
    requires |xp| == |yp| && j < |xp| && c < 2
    requires Solves(SystemMatrix(xp, yp, sqrt, ln), W, Y, |xp| + 3)
    ensures SplineValue(W, c, xp, yp, xp[j], yp[j], sqrt, ln) == Y[j][c]
  {
    var row := SystemMatrix(xp, yp, sqrt, ln)[j];
    assert Dot(row, Column(W, c)) == Y[j][c];
    SystemRowTop(xp, yp, sqrt, ln, j);
    RowTimesWeights(row, KernelRow(xp, yp, xp[j], yp[j], sqrt, ln), xp[j], yp[j], W, c);
  }

  /** The side conditions the last three rows of the system impose on a
      solution: in each channel the kernel weights sum to zero and are
      orthogonal to the landmarks' xp and yp. */
  lemma SideConditions(xs: seq<real>, ys: seq<real>, xp: seq<real>, yp: seq<real>, W: Matrix,
                       sqrt: real -> real, ln: real -> real, c: nat)
    requires |xs| == |ys| == |xp| == |yp| && c < 2
    requires Solves(SystemMatrix(xp, yp, sqrt, ln), W, RightHandSide(xs, ys), |xp| + 3)
    ensures Dot(Ones(|xp|), Column(W, c)[..|xp|]) == 0.0
    ensures Dot(xp, Column(W, c)[..|xp|]) == 0.0
    ensures Dot(yp, Column(W, c)[..|xp|]) == 0.0
  {
    var n := |xp|;
    SideConditionRow(xs, ys, xp, yp, W, sqrt, ln, c, 0);
    SideConditionRow(xs, ys, xp, yp, W, sqrt, ln, c, 1);
    SideConditionRow(xs, ys, xp, yp, W, sqrt, ln, c, 2);
    assert [Ones(n), xp, yp][0] == Ones(n);
    assert [Ones(n), xp, yp][1] == xp;
    assert [Ones(n), xp, yp][2] == yp;
  }

  /** Equation N + r of a solved system (r < 3): row r of P^T is orthogonal
      to the kernel weights of channel c. */
  lemma SideConditionRow(xs: seq<real>, ys: seq<real>, xp: seq<real>, yp: seq<real>, W: Matrix,
                         sqrt: real -> real, ln: real -> real, c: nat, r: nat)
    requires |xs| == |ys| == |xp| == |yp| && c < 2 && r < 3
    requires Solves(SystemMatrix(xp, yp, sqrt, ln), W, RightHandSide(xs, ys), |xp| + 3)
    ensures Dot([Ones(|xp|), xp, yp][r], Column(W, c)[..|xp|]) == 0.0
  {
    var n := |xp|;
    var L := SystemMatrix(xp, yp, sqrt, ln);
    var Y := RightHandSide(xs, ys);
    var col := Column(W, c);
    assert col == col[..n] + col[n..];
    SystemRowBottom(xp, yp, sqrt, ln, r);
    DotAppend([Ones(n), xp, yp][r], [0.0, 0.0, 0.0], col[..n], col[n..]);
    DotZeroLeft([0.0, 0.0, 0.0], col[n..]);
    assert Dot(L[n + r], col) == Y[n + r][c];
  }

  /** (a, b, c) is a nonzero affine form vanishing at every landmark: the
      landmarks all lie on the line a + b x + c y = 0. */
  predicate OnLine(xp: seq<real>, yp: seq<real>, a: real, b: real, c: real)
    requires |xp| == |yp|
  {
    (a, b, c) != (0.0, 0.0, 0.0) && forall i :: 0 <= i < |xp| ==> a + b * xp[i] + c * yp[i] == 0.0
  }

  /** Collinear landmarks make the system singular: the nonzero vector
      (0, ..., 0, a, b, c) is mapped to zero, so in exact arithmetic L has
      no inverse. */
  lemma CollinearSingular(xp: seq<real>, yp: seq<real>, sqrt: real -> real, ln: real -> real,
                          a: real, b: real, c: real)
    requires |xp| == |yp| && OnLine(xp, yp, a, b, c)
    ensures |Zeros(1, |xp|)[0] + [a, b, c]| == |xp| + 3
    ensures forall j :: 0 <= j < |xp| + 3 ==>
              Dot(SystemMatrix(xp, yp, sqrt, ln)[j], Zeros(1, |xp|)[0] + [a, b, c]) == 0.0
  {
    var n := |xp|;
    var L := SystemMatrix(xp, yp, sqrt, ln);
    var zs := Zeros(1, n)[0];
    forall j | 0 <= j < n + 3
      ensures Dot(L[j], zs + [a, b, c]) == 0.0
    {
      if j < n {
        SystemRowTop(xp, yp, sqrt, ln, j);
        var kernel := KernelRow(xp, yp, xp[j], yp[j], sqrt, ln);
        DotAppend(kernel, [1.0, xp[j], yp[j]], zs, [a, b, c]);
        DotZeroRight(kernel, zs);
        Dot3([1.0, xp[j], yp[j]], [a, b, c]);
      } else {
        var r := j - n;
        SystemRowBottom(xp, yp, sqrt, ln, r);
        DotAppend([Ones(n), xp, yp][r], [0.0, 0.0, 0.0], zs, [a, b, c]);
        DotZeroRight([Ones(n), xp, yp][r], zs);
        DotZeroLeft([0.0, 0.0, 0.0], [a, b, c]);
      }
    }
  }

  /** With fewer than three landmarks there is always a line through all
      of them: the coefficients of one such line. */
  function LineThrough(xp: seq<real>, yp: seq<real>): (l: (real, real, real))
    requires |xp| == |yp| && |xp| < 3
    ensures OnLine(xp, yp, l.0, l.1, l.2)
  {
    if |xp| == 0 then (1.0, 0.0, 0.0)
    else if |xp| == 1 || (xp[0] == xp[1] && yp[0] == yp[1]) then (- xp[0], 1.0, 0.0)
    else (xp[0] * yp[1] - xp[1] * yp[0], yp[0] - yp[1], xp[1] - xp[0])
  }

  /** Fewer than three landmarks make the system singular: the script does
      not check the landmark count, and in exact arithmetic L then has no
      inverse. */
  lemma FewLandmarksSingular(xp: seq<real>, yp: seq<real>, sqrt: real -> real, ln: real -> real)
    requires |xp| == |yp| && |xp| < 3
    ensures var l := LineThrough(xp, yp);
            var v := Zeros(1, |xp|)[0] + [l.0, l.1, l.2];
            |v| == |xp| + 3 && v[|xp|..] != [0.0, 0.0, 0.0] &&
            forall j :: 0 <= j < |xp| + 3 ==> Dot(SystemMatrix(xp, yp, sqrt, ln)[j], v) == 0.0
  {
    var l := LineThrough(xp, yp);
    CollinearSingular(xp, yp, sqrt, ln, l.0, l.1, l.2);
    var v := Zeros(1, |xp|)[0] + [l.0, l.1, l.2];
    assert v[|xp|..] == [l.0, l.1, l.2];
  }

  /** Three landmarks that do not lie on one line. */
  predicate NonCollinear3(xp: seq<real>, yp: seq<real>)
    requires |xp| == 3 && |yp| == 3
  {
    (xp[1] - xp[0]) * (yp[2] - yp[0]) - (xp[2] - xp[0]) * (yp[1] - yp[0]) != 0.0
  }

  /** Three weights orthogonal to 1, x and y of three non-collinear points
      are all zero. */
  lemma ThreeOrthogonalIsZero(x: seq<real>, y: seq<real>, w: seq<real>)
    requires |x| == 3 && |y| == 3 && |w| == 3 && NonCollinear3(x, y)
    requires w[0] + w[1] + w[2] == 0.0
    requires x[0] * w[0] + x[1] * w[1] + x[2] * w[2] == 0.0
    requires y[0] * w[0] + y[1] * w[1] + y[2] * w[2] == 0.0
    ensures w[0] == 0.0 && w[1] == 0.0 && w[2] == 0.0
  {
    var det := (x[1] - x[0]) * (y[2] - y[0]) - (x[2] - x[0]) * (y[1] - y[0]);
    // Eliminating w[0] = -(w[1] + w[2]):
    assert (x[1] - x[0]) * w[1] + (x[2] - x[0]) * w[2] == 0.0;
    assert (y[1] - y[0]) * w[1] + (y[2] - y[0]) * w[2] == 0.0;
    assert det * w[1] == 0.0 by {
      assert det * w[1] == (y[2] - y[0]) * ((x[1] - x[0]) * w[1] + (x[2] - x[0]) * w[2])
                           - (x[2] - x[0]) * ((y[1] - y[0]) * w[1] + (y[2] - y[0]) * w[2]);
    }
    assert det * w[2] == 0.0 by {
      assert det * w[2] == (x[1] - x[0]) * ((y[1] - y[0]) * w[1] + (y[2] - y[0]) * w[2])
                           - (y[1] - y[0]) * ((x[1] - x[0]) * w[1] + (x[2] - x[0]) * w[2]);
    }
  }

  /** With exactly three non-collinear landmarks the fitted spline is
      purely affine: the side conditions force every kernel weight to zero,
      so at any point the value is W[N][c] + W[N+1][c] qx + W[N+2][c] qy. */
  lemma ThreeLandmarksAffine(xs: seq<real>, ys: seq<real>, xp: seq<real>, yp: seq<real>, W: Matrix,
                             sqrt: real -> real, ln: real -> real, c: nat, qx: real, qy: real)
    requires |xs| == 3 && |ys| == 3 && |xp| == 3 && |yp| == 3 && c < 2
    requires NonCollinear3(xp, yp)
    requires Solves(SystemMatrix(xp, yp, sqrt, ln), W, RightHandSide(xs, ys), 6)
    ensures W[0][c] == 0.0 && W[1][c] == 0.0 && W[2][c] == 0.0
    ensures SplineValue(W, c, xp, yp, qx, qy, sqrt, ln) == W[3][c] + W[4][c] * qx + W[5][c] * qy
  {
    var w := Column(W, c)[..3];
    SideConditions(xs, ys, xp, yp, W, sqrt, ln, c);
    Dot3(Ones(3), w);
    Dot3(xp, w);
    Dot3(yp, w);
    ThreeOrthogonalIsZero(xp, yp, w);
    DotZeroRight(KernelRow(xp, yp, qx, qy, sqrt, ln), w);
  }

  /** The landmark-to-grid distances `wR` of `tpsMap`: entry (i, k) is the
      distance from landmark i to grid point k. */
  function GridDistances(xp: seq<real>, yp: seq<real>, X: seq<real>, Y: seq<real>,
                         sqrt: real -> real): (d: Matrix)
    requires |xp| == |yp| && |X| == |Y|
    ensures IsMatrix(d, |xp|, |X|)
    ensures forall i, k :: 0 <= i < |xp| && 0 <= k < |X| ==> d[i][k] == Distance(xp[i], yp[i], X[k], Y[k], sqrt)
  {
    seq(|xp|, i requires 0 <= i < |xp| =>
      seq(|X|, k requires 0 <= k < |X| => Distance(xp[i], yp[i], X[k], Y[k], sqrt)))
  }

  /** Row k of `hstack((wK.getH(), wP.getH()))` in `tpsMap`, where
      `wP.getH()` is the matrix of design rows `wP_` transposed twice, is the
      kernel row of grid point k followed by [1, X_k, Y_k], so its product
      with a weight column is the spline's value at grid point k. */
  lemma GridRowIsSplineValue(xp: seq<real>, yp: seq<real>, X: seq<real>, Y: seq<real>, W: Matrix,
                             sqrt: real -> real, ln: real -> real, k: nat, c: nat)
    requires |xp| == |yp| && |X| == |Y| && k < |X| && c < 2 && IsMatrix(W, |xp| + 3, 2)
    ensures var wL := HStack(Transpose(KernelMatrix(GridDistances(xp, yp, X, Y, sqrt), ln), |X|), DesignMatrix(X, Y));
            |wL| == |X| && |wL[k]| == |xp| + 3 &&
            Dot(wL[k], Column(W, c)) == SplineValue(W, c, xp, yp, X[k], Y[k], sqrt, ln)
  {
    var wK := KernelMatrix(GridDistances(xp, yp, X, Y, sqrt), ln);
    var wL := HStack(Transpose(wK, |X|), DesignMatrix(X, Y));
    var kernel := KernelRow(xp, yp, X[k], Y[k], sqrt, ln);
    assert Transpose(wK, |X|)[k] == kernel;
    assert wL[k] == kernel + [1.0, X[k], Y[k]];
    RowTimesWeights(wL[k], kernel, X[k], Y[k], W, c);
  }

  /** `tpsMap(wW, imgH, imgW, xp, yp, n)`: enumerates the H*W canvas grid,
      builds the landmark-to-grid distances (an n-by-H*W array whose zero
      entries the kernel overwrites with 1), the kernel block, the grid's
      design rows `wP_` and their transpose `wP`, and evaluates
      `hstack((wK.getH(), wP.getH()))` times each column of the weights.
      Output k of channel c is the spline's value at grid point k. */
  method TpsMap(wW: Matrix, imgH: nat, imgW: nat, xp: seq<real>, yp: seq<real>, n: nat,
                sqrt: real -> real, ln: real -> real) returns (Xw: seq<real>, Yw: seq<real>)
    requires |xp| == n && |yp| == n && IsMatrix(wW, n + 3, 2)
    ensures |Xw| == imgH * imgW && |Yw| == imgH * imgW
    ensures forall k :: 0 <= k < imgH * imgW ==>
              Xw[k] == SplineValue(wW, 0, xp, yp, GridX(imgH, k), GridY(imgH, k), sqrt, ln) &&
              Yw[k] == SplineValue(wW, 1, xp, yp, GridX(imgH, k), GridY(imgH, k), sqrt, ln)
  {
    var grid := CanvasGrid(imgH, imgW);
    var X, Y := grid.0, grid.1;
    var nws := |X|;
    var wR := new real[n, nws]((i, k) requires 0 <= i < n && 0 <= k < nws => Distance(xp[i], yp[i], X[k], Y[k], sqrt));
    assert Contents(wR) == GridDistances(xp, yp, X, Y, sqrt) by {
      forall i | 0 <= i < n
        ensures Contents(wR)[i] == GridDistances(xp, yp, X, Y, sqrt)[i]
      {
      }
    }
    var wK := RadialBasis(wR, ln);
    var wP_ := DesignRows(X, Y);
    var wP := Transpose(wP_, 3);
    TransposeTwice(wP_, 3);
    var wL := HStack(Transpose(wK, nws), Transpose(wP, nws));
    Xw := MatVec(wL, Column(wW, 0));
    Yw := MatVec(wL, Column(wW, 1));
    forall k | 0 <= k < nws
      ensures Xw[k] == SplineValue(wW, 0, xp, yp, X[k], Y[k], sqrt, ln)
      ensures Yw[k] == SplineValue(wW, 1, xp, yp, X[k], Y[k], sqrt, ln)
    {
      GridRowIsSplineValue(xp, yp, X, Y, wW, sqrt, ln, k, 0);
      GridRowIsSplineValue(xp, yp, X, Y, wW, sqrt, ln, k, 1);
    }
  }
}
