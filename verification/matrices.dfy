/** Dense real matrices, stored as sequences of rows, with the numpy
    operations the thin-plate-spline script uses: zeros, transpose
    (`getH` on real data), `vstack`, `hstack`, column selection and the
    matrix-vector product. */
module Matrices {

  type Matrix = seq<seq<real>>

  /** `m` has exactly `rows` rows, each of `cols` entries. */
  predicate IsMatrix(m: Matrix, rows: nat, cols: nat)
  {
    |m| == rows && forall i :: 0 <= i < rows ==> |m[i]| == cols
  }

  /** Every row of `m` has `cols` entries (the column count of a matrix
      that may have no rows). */
  predicate HasCols(m: Matrix, cols: nat)
  {
    forall i :: 0 <= i < |m| ==> |m[i]| == cols
  }

  function Square(x: real): (r: real)
    ensures r >= 0.0
  {
    x * x
  }

  /** The snapshot of a two-dimensional array as a matrix value. */
  function Contents(a: array2<real>): (m: Matrix)
    reads a
    ensures IsMatrix(m, a.Length0, a.Length1)
    ensures forall i, j :: 0 <= i < a.Length0 && 0 <= j < a.Length1 ==> m[i][j] == a[i, j]
  {
    seq(a.Length0, i requires 0 <= i < a.Length0 reads a =>
      seq(a.Length1, j requires 0 <= j < a.Length1 reads a => a[i, j]))
  }

  /** `np.zeros((rows, cols))`. */
  function Zeros(rows: nat, cols: nat): (z: Matrix)
    ensures IsMatrix(z, rows, cols)
    ensures forall i, j :: 0 <= i < rows && 0 <= j < cols ==> z[i][j] == 0.0
  {
    seq(rows, i => seq(cols, j => 0.0))
  }

  /** The transpose of a matrix whose rows have `cols` entries. */
  function Transpose(m: Matrix, cols: nat): (t: Matrix)
    requires HasCols(m, cols)
    ensures IsMatrix(t, cols, |m|)
    ensures forall i, j :: 0 <= i < cols && 0 <= j < |m| ==> t[i][j] == m[j][i]
  {
    seq(cols, i requires 0 <= i < cols => seq(|m|, j requires 0 <= j < |m| => m[j][i]))
  }

  /** Transposing twice gives the matrix back. */
  lemma TransposeTwice(m: Matrix, cols: nat)
    requires HasCols(m, cols)
    ensures Transpose(Transpose(m, cols), |m|) == m
  {
    var t := Transpose(Transpose(m, cols), |m|);
    forall i | 0 <= i < |m|
      ensures t[i] == m[i]
    {
    }
  }

  /** `np.vstack((a, b))`: the rows of `a` above the rows of `b`. */
  function VStack(a: Matrix, b: Matrix): (r: Matrix)
    ensures |r| == |a| + |b|
    ensures forall i :: 0 <= i < |a| ==> r[i] == a[i]
    ensures forall i :: 0 <= i < |b| ==> r[|a| + i] == b[i]
  {
    a + b
  }

  /** `np.hstack((a, b))`: row `i` is row `i` of `a` followed by row `i` of `b`. */
  function HStack(a: Matrix, b: Matrix): (r: Matrix)
    requires |a| == |b|
    ensures |r| == |a|
    ensures forall i :: 0 <= i < |a| ==> r[i] == a[i] + b[i]
  {
    seq(|a|, i requires 0 <= i < |a| => a[i] + b[i])
  }

  /** `m[:, c]` as a vector. */
  function Column(m: Matrix, c: nat): (v: seq<real>)
    requires forall i :: 0 <= i < |m| ==> c < |m[i]|
    ensures |v| == |m|
    ensures forall i :: 0 <= i < |m| ==> v[i] == m[i][c]
  {
    seq(|m|, i requires 0 <= i < |m| => m[i][c])
  }

  /** A column vector as an n-by-1 matrix. */
  function AsColumn(v: seq<real>): (m: Matrix)
    ensures IsMatrix(m, |v|, 1)
    ensures forall i :: 0 <= i < |v| ==> m[i][0] == v[i]
  {
    seq(|v|, i requires 0 <= i < |v| => [v[i]])
  }

  /** The inner product of two vectors of equal length. */
  function Dot(a: seq<real>, b: seq<real>): real
    requires |a| == |b|
  {
    if |a| == 0 then 0.0 else a[0] * b[0] + Dot(a[1..], b[1..])
  }

  /** The product of a matrix with a column vector. */
  function MatVec(m: Matrix, v: seq<real>): (r: seq<real>)
    requires HasCols(m, |v|)
    ensures |r| == |m|
    ensures forall i :: 0 <= i < |m| ==> r[i] == Dot(m[i], v)
  {
    seq(|m|, i requires 0 <= i < |m| => Dot(m[i], v))
  }

  /** The inner product splits over concatenation. */
  lemma {:induction false} DotAppend(a1: seq<real>, a2: seq<real>, b1: seq<real>, b2: seq<real>)
    requires |a1| == |b1| && |a2| == |b2|
    ensures Dot(a1 + a2, b1 + b2) == Dot(a1, b1) + Dot(a2, b2)
  {
    if |a1| > 0 {
      assert (a1 + a2)[1..] == a1[1..] + a2;
      assert (b1 + b2)[1..] == b1[1..] + b2;
      DotAppend(a1[1..], a2, b1[1..], b2);
    } else {
      assert a1 + a2 == a2;
      assert b1 + b2 == b2;
    }
  }

  /** A vector of zeros contributes nothing to an inner product. */
  lemma {:induction false} DotZeroRight(a: seq<real>, b: seq<real>)
    requires |a| == |b|
    requires forall i :: 0 <= i < |b| ==> b[i] == 0.0
    ensures Dot(a, b) == 0.0
  {
    if |a| > 0 {
      DotZeroRight(a[1..], b[1..]);
    }
  }

  /** A vector of zeros contributes nothing to an inner product. */
  lemma {:induction false} DotZeroLeft(a: seq<real>, b: seq<real>)
    requires |a| == |b|
    requires forall i :: 0 <= i < |a| ==> a[i] == 0.0
    ensures Dot(a, b) == 0.0
  {
    if |a| > 0 {
      DotZeroLeft(a[1..], b[1..]);
    }
  }

  /** The inner product of three-element vectors, written out. */
  lemma Dot3(a: seq<real>, b: seq<real>)
    requires |a| == 3 && |b| == 3
    ensures Dot(a, b) == a[0] * b[0] + a[1] * b[1] + a[2] * b[2]
  {
    assert Dot(a[2..], b[2..]) == a[2] * b[2] + Dot(a[3..], b[3..]);
    assert Dot(a[1..], b[1..]) == a[1] * b[1] + Dot(a[2..], b[2..]);
  }
}
