/** The raster enumeration of the canvas: `np.linspace`, `np.meshgrid`
    with its default 'xy' indexing, row-major `flatten`, and the flat
    index arithmetic (`i % cols`, `floor(i / cols)`) the script uses to
    walk a matrix entry by entry. */
module MeshGrid {
  import opened Matrices

  /** `np.linspace(start, stop, num)` over exact reals: `num` evenly spaced
      points from `start` to `stop` inclusive, or just `[start]` when
      `num` is 1. */
  function Linspace(start: real, stop: real, num: nat): (s: seq<real>)
    ensures |s| == num
    ensures forall k :: 0 <= k < num ==> s[k] == LinspacePoint(start, stop, num, k)
  {
    seq(num, k requires 0 <= k < num => LinspacePoint(start, stop, num, k))
  }

  /** Point `k` of `np.linspace(start, stop, num)`. */
  function LinspacePoint(start: real, stop: real, num: nat, k: nat): real
  {
    if num > 1 then start + (k as real) * (stop - start) / ((num - 1) as real) else start
  }

  /** `np.linspace(1, n, n)` is the list 1, 2, ..., n. */
  lemma LinspaceUp(n: nat, k: nat)
    requires k < n
    ensures Linspace(1.0, n as real, n)[k] == (k + 1) as real
  {
    if n > 1 {
      LinspaceStep(1.0, n as real, n, k, LinspacePoint(1.0, n as real, n, k));
    }
  }

  /** `np.linspace(n, 1, n)` is the list n, n - 1, ..., 1. */
  lemma LinspaceDown(n: nat, k: nat)
    requires k < n
    ensures Linspace(n as real, 1.0, n)[k] == (n - k) as real
  {
    if n > 1 {
      LinspaceStep(n as real, 1.0, n, k, LinspacePoint(n as real, 1.0, n, k));
      assert (n - k) as real == n as real - k as real;
    }
  }

  /** Point k of `linspace(start, stop, num)` lies k steps of
      (stop - start) / (num - 1) from start. */
  lemma LinspaceStep(start: real, stop: real, num: nat, k: nat, p: real)
    requires num > 1 && p == LinspacePoint(start, stop, num, k)
    ensures p == start + (k as real) * ((stop - start) / ((num - 1) as real))
  {
    var d := (num - 1) as real;
    var q := (k as real) * (stop - start) / d;
    var r := (stop - start) / d;
    assert q * d == (k as real) * (stop - start);
    assert r * d == stop - start;
    assert (q - (k as real) * r) * d == 0.0;
  }

  /** `np.meshgrid(x, y)`: two |y|-by-|x| matrices, the first repeating `x`
      along every row, the second repeating `y` down every column. */
  function Meshgrid(x: seq<real>, y: seq<real>): (g: (Matrix, Matrix))
    ensures IsMatrix(g.0, |y|, |x|) && IsMatrix(g.1, |y|, |x|)
    ensures forall r, c :: 0 <= r < |y| && 0 <= c < |x| ==> g.0[r][c] == x[c] && g.1[r][c] == y[r]
  {
    (seq(|y|, r => x), seq(|y|, r requires 0 <= r < |y| => seq(|x|, c => y[r])))
  }

  /** Row-major `flatten`: the rows of `m` concatenated, the empty matrix
      flattening to nothing. FlattenLength and FlattenAt give the length
      and the place of every entry. */
  function Flatten(m: Matrix): (r: seq<real>)
    ensures |m| == 0 ==> r == []
  {
    if |m| == 0 then [] else m[0] + Flatten(m[1..])
  }

  /** Splitting a flat index into (row, column): for `cols > 0`, index `k`
      below `rows * cols` is `(k / cols) * cols + k % cols`, with the row
      below `rows` and the column below `cols`. */
  lemma FlatIndex(k: nat, rows: nat, cols: nat)
    requires k < rows * cols
    ensures cols > 0
    ensures 0 <= k / cols < rows && 0 <= k % cols < cols
    ensures (k / cols) * cols + k % cols == k
  {
    if k / cols >= rows {
      MulMonotone(rows, k / cols, cols);
    }
  }

  /** Row `v` and column `u` of a `cols`-wide matrix have flat index
      `v * cols + u`, which splits back into `(v, u)` and lies below
      `rows * cols`. */
  lemma UnflatIndex(v: nat, u: nat, rows: nat, cols: nat)
    requires v < rows && u < cols
    ensures v * cols + u < rows * cols
    ensures (v * cols + u) / cols == v && (v * cols + u) % cols == u
  {
    MulMonotone(v + 1, rows, cols);
    var k := v * cols + u;
    var q, r := k / cols, k % cols;
    assert q * cols + r == v * cols + u;
    if q > v {
      MulMonotone(v + 1, q, cols);
    } else if q < v {
      MulMonotone(q + 1, v, cols);
    }
  }

  /** Entry (v, u) comes before flat index `i` in row-major order: the
      walk over indices 0 .. i - 1 has visited it. */
  predicate Precedes(v: int, u: int, i: int, cols: int)
    requires cols > 0
  {
    v < i / cols || (v == i / cols && u < i % cols)
  }

  /** Stepping the flat index by one advances the column, or wraps to the
      start of the next row. */
  lemma FlatSuccessor(i: nat, cols: nat)
    requires cols > 0
    ensures i % cols + 1 < cols ==> (i + 1) / cols == i / cols && (i + 1) % cols == i % cols + 1
    ensures i % cols + 1 == cols ==> (i + 1) / cols == i / cols + 1 && (i + 1) % cols == 0
  {
    var q, r := i / cols, i % cols;
    assert i == q * cols + r;
    if r + 1 < cols {
      assert i + 1 == q * cols + (r + 1);
      UnflatIndex(q, r + 1, q + 1, cols);
    } else {
      assert i + 1 == (q + 1) * cols + 0;
      UnflatIndex(q + 1, 0, q + 2, cols);
    }
  }

  /** After the last flat index every entry of the matrix has been visited. */
  lemma FlatEnd(rows: nat, cols: nat)
    requires cols > 0
    ensures forall v, u :: 0 <= v < rows && 0 <= u < cols ==> Precedes(v, u, rows * cols, cols)
  {
    if rows > 0 {
      assert rows * cols == rows * cols + 0;
      UnflatIndex(rows, 0, rows + 1, cols);
    }
  }

  lemma MulMonotone(a: nat, b: nat, c: nat)
    requires a <= b
    ensures a * c <= b * c
  {
  }

  /** Entry (r, c) of a `cols`-wide matrix sits at index `r * cols + c` of
      its row-major flattening. */
  lemma {:induction false} FlattenRowCol(m: Matrix, rows: nat, cols: nat, r: nat, c: nat)
    requires IsMatrix(m, rows, cols)
    requires r < rows && c < cols
    ensures r * cols + c < |Flatten(m)|
    ensures Flatten(m)[r * cols + c] == m[r][c]
  {
    FlattenLength(m, rows, cols);
    UnflatIndex(r, c, rows, cols);
    if r > 0 {
      assert IsMatrix(m[1..], rows - 1, cols);
      FlattenRowCol(m[1..], rows - 1, cols, r - 1, c);
      assert r * cols + c == cols + ((r - 1) * cols + c);
    }
  }

  /** Flat index `k` of the row-major flattening holds entry
      (k / cols, k % cols). */
  lemma FlattenAt(m: Matrix, rows: nat, cols: nat, k: nat)
    requires IsMatrix(m, rows, cols)
    requires k < rows * cols
    ensures |Flatten(m)| == rows * cols
    ensures Flatten(m)[k] == m[k / cols][k % cols]
  {
    FlatIndex(k, rows, cols);
    FlattenLength(m, rows, cols);
    FlattenRowCol(m, rows, cols, k / cols, k % cols);
  }

  lemma {:induction false} FlattenLength(m: Matrix, rows: nat, cols: nat)
    requires IsMatrix(m, rows, cols)
    ensures |Flatten(m)| == rows * cols
  {
    if rows > 0 {
      FlattenLength(m[1..], rows - 1, cols);
    }
  }

  /** The v coordinate (first mathematical axis) of flat grid index `k`
      on a canvas `height` pixels high: a value in [1..height] that, with
      GridY, recombines to k = (GridY - 1) * height + (GridX - 1). */
  function GridX(height: nat, k: nat): (x: real)
    requires height > 0
    ensures 1.0 <= x <= height as real
    ensures k as real == (GridY(height, k) - 1.0) * (height as real) + (x - 1.0)
  {
    var q, r := k / height, k % height;
    assert k == q * height + r;
    assert (q as real) * (height as real) == (q * height) as real;
    (r + 1) as real
  }

  /** The u coordinate (second mathematical axis) of flat grid index `k`:
      the whole number y >= 1 with (y - 1) * height <= k < y * height. */
  function GridY(height: nat, k: nat): (y: real)
    requires height > 0
    ensures 1.0 <= y && y == y.Floor as real
    ensures (y - 1.0) * (height as real) <= k as real < y * (height as real)
  {
    var q := k / height;
    assert q * height <= k < (q + 1) * height;
    assert (q as real) * (height as real) == (q * height) as real;
    assert ((q + 1) as real) * (height as real) == ((q + 1) * height) as real;
    (q + 1) as real
  }

  /** The meshgrid of the canvas before flattening,
      `np.meshgrid(np.linspace(1, H, H), np.linspace(1, W, W))`: W rows of H
      columns, holding c + 1 in column c of the first and r + 1 in row r of
      the second. */
  function CanvasMesh(height: nat, width: nat): (g: (Matrix, Matrix))
    ensures IsMatrix(g.0, width, height) && IsMatrix(g.1, width, height)
    ensures forall r, c :: 0 <= r < width && 0 <= c < height ==>
              g.0[r][c] == (c + 1) as real && g.1[r][c] == (r + 1) as real
  {
    var x, y := Linspace(1.0, height as real, height), Linspace(1.0, width as real, width);
    assert forall c :: 0 <= c < height ==> x[c] == (c + 1) as real by {
      forall c | 0 <= c < height ensures x[c] == (c + 1) as real { LinspaceUp(height, c); }
    }
    assert forall r :: 0 <= r < width ==> y[r] == (r + 1) as real by {
      forall r | 0 <= r < width ensures y[r] == (r + 1) as real { LinspaceUp(width, r); }
    }
    Meshgrid(x, y)
  }

  lemma CanvasMeshAt(height: nat, width: nat, k: nat)
    requires k < height * width
    ensures |Flatten(CanvasMesh(height, width).0)| == height * width
    ensures |Flatten(CanvasMesh(height, width).1)| == height * width
    ensures height > 0
    ensures Flatten(CanvasMesh(height, width).0)[k] == GridX(height, k)
    ensures Flatten(CanvasMesh(height, width).1)[k] == GridY(height, k)
  {
    var mesh := CanvasMesh(height, width);
    assert k < width * height;
    FlatIndex(k, width, height);
    FlattenAt(mesh.0, width, height, k);
    FlattenAt(mesh.1, width, height, k);
    LinspaceUp(height, k % height);
    LinspaceUp(width, k / height);
  }

  /** `X_, Y_ = np.meshgrid(np.linspace(1, H, H), np.linspace(1, W, W))`
      followed by `flatten()`: H * W grid points whose flat index `k` has
      X = k % H + 1 and Y = k / H + 1. */
  function CanvasGrid(height: nat, width: nat): (g: (seq<real>, seq<real>))
    ensures |g.0| == height * width && |g.1| == height * width
    ensures forall k :: 0 <= k < height * width ==> g.0[k] == GridX(height, k) && g.1[k] == GridY(height, k)
  {
    var mesh := CanvasMesh(height, width);
    FlattenLength(mesh.0, width, height);
    FlattenLength(mesh.1, width, height);
    forall k | 0 <= k < height * width
      ensures Flatten(mesh.0)[k] == GridX(height, k) && Flatten(mesh.1)[k] == GridY(height, k)
    {
      CanvasMeshAt(height, width, k);
    }
    (Flatten(mesh.0), Flatten(mesh.1))
  }

  /** Every pixel (v, u) in [1..H] x [1..W] is the grid point of exactly
      one flat index, namely `(u - 1) * H + (v - 1)`. */
  lemma GridBijective(height: nat, width: nat, v: nat, u: nat)
    requires 1 <= v <= height && 1 <= u <= width
    ensures (u - 1) * height + (v - 1) < height * width
    ensures GridX(height, (u - 1) * height + (v - 1)) == v as real
    ensures GridY(height, (u - 1) * height + (v - 1)) == u as real
    ensures forall k :: 0 <= k < height * width && GridX(height, k) == v as real && GridY(height, k) == u as real
                        ==> k == (u - 1) * height + (v - 1)
  {
    UnflatIndex(u - 1, v - 1, width, height);
    assert (u - 1) * height + (v - 1) < width * height;
    forall k | 0 <= k < height * width && GridX(height, k) == v as real && GridY(height, k) == u as real
      ensures k == (u - 1) * height + (v - 1)
    {
      FlatIndex(k, width, height);
    }
  }

  /** Every flat index of the canvas lies on a pixel of the canvas. */
  lemma GridInCanvas(height: nat, width: nat, k: nat)
    requires k < height * width
    ensures height > 0
    ensures 1.0 <= GridX(height, k) <= height as real
    ensures 1.0 <= GridY(height, k) <= width as real
  {
    FlatIndex(k, width, height);
  }
}
