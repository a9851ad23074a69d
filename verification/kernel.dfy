/** The thin-plate-spline radial basis U(r) = 2 r^2 ln r, applied entry by
    entry to a matrix of distances (`radialBasis`). The natural logarithm is
    not modelled: it is a parameter `ln`, and the one fact about it the
    script relies on is ln(1) = 0. */
module Kernel {
  import opened Matrices
  import MeshGrid

  /** The value the loop leaves in a distance entry: a zero distance is
      overwritten with 1 so that its logarithm is finite. */
  function Substitute(r: real): (s: real)
    ensures s != 0.0
    ensures r == 0.0 ==> s == 1.0
    ensures r != 0.0 ==> s == r
  {
    if r == 0.0 then 1.0 else r
  }

  /** The kernel value of one distance entry, as the script computes it:
      `ri_` aliases `ri`, so both the squared factor and the logarithm see
      the substituted value. Where the distance is positive this is
      2 r^2 ln r; where it is zero it is 0 provided ln(1) = 0; and it equals
      the value a separate, unaliased substitution would give (squaring the
      original distance), so the aliasing does not change the result. */
  function RadialValue(r: real, ln: real -> real): (k: real)
    ensures r != 0.0 ==> k == 2.0 * Square(r) * ln(r)
    ensures ln(1.0) == 0.0 && r == 0.0 ==> k == 0.0
    ensures ln(1.0) == 0.0 ==> k == 2.0 * Square(r) * ln(Substitute(r))
  {
    var s := Substitute(r);
    2.0 * Square(s) * ln(s)
  }

  /** The matrix the kernel makes of a matrix of distances. */
  function KernelMatrix(r: Matrix, ln: real -> real): (k: Matrix)
    ensures |k| == |r|
    ensures forall i :: 0 <= i < |r| ==> |k[i]| == |r[i]|
    ensures forall i, j :: 0 <= i < |r| && 0 <= j < |r[i]| ==> k[i][j] == RadialValue(r[i][j], ln)
  {
    seq(|r|, i requires 0 <= i < |r| => seq(|r[i]|, j requires 0 <= j < |r[i]| => RadialValue(r[i][j], ln)))
  }

  /** The matrix of distances after the zero entries were overwritten with 1. */
  function Substituted(r: Matrix): (s: Matrix)
    ensures |s| == |r|
    ensures forall i :: 0 <= i < |r| ==> |s[i]| == |r[i]|
    ensures forall i, j :: 0 <= i < |r| && 0 <= j < |r[i]| ==> s[i][j] == Substitute(r[i][j])
  {
    seq(|r|, i requires 0 <= i < |r| => seq(|r[i]|, j requires 0 <= j < |r[i]| => Substitute(r[i][j])))
  }

  /** `np.multiply(2 * np.power(ri, 2), np.log(ri_))` over the overwritten
      distances, both factors reading the same (aliased) array. */
  function KernelOfOverwritten(s: Matrix, ln: real -> real): (k: Matrix)
    ensures |k| == |s|
    ensures forall i :: 0 <= i < |s| ==> |k[i]| == |s[i]|
    ensures forall i, j :: 0 <= i < |s| && 0 <= j < |s[i]| ==> k[i][j] == 2.0 * Square(s[i][j]) * ln(s[i][j])
  {
    seq(|s|, i requires 0 <= i < |s| => seq(|s[i]|, j requires 0 <= j < |s[i]| => 2.0 * Square(s[i][j]) * ln(s[i][j])))
  }

  /** Taking the kernel of the overwritten distances, as the script does,
      gives the kernel value of every original distance. */
  lemma KernelOfSubstituted(r: Matrix, ln: real -> real)
    ensures KernelOfOverwritten(Substituted(r), ln) == KernelMatrix(r, ln)
  {
    var lhs, rhs := KernelOfOverwritten(Substituted(r), ln), KernelMatrix(r, ln);
    forall i | 0 <= i < |r|
      ensures lhs[i] == rhs[i]
    {
      assert forall j :: 0 <= j < |r[i]| ==> lhs[i][j] == RadialValue(r[i][j], ln);
    }
  }

  lemma OverwrittenIsSubstituted(after: Matrix, before: Matrix, rows: nat, cols: nat)
    requires IsMatrix(after, rows, cols) && IsMatrix(before, rows, cols)
    requires forall v, u :: 0 <= v < rows && 0 <= u < cols ==> after[v][u] == Substitute(before[v][u])
    ensures after == Substituted(before)
  {
    forall v | 0 <= v < rows
      ensures after[v] == Substituted(before)[v]
    {
    }
  }

  /** `radialBasis(ri)`: walks the flat indices 0 .. rows*cols - 1, splits
      each into (row, column) = (i / cols, i % cols), overwrites a zero
      entry with 1 in place, and then returns 2 * ri^2 * ln(ri) elementwise
      over the overwritten array. The array passed in is changed: exactly
      its zero entries become 1. */
  method RadialBasis(ri: array2<real>, ln: real -> real) returns (ko: Matrix)
    modifies ri
    ensures Contents(ri) == Substituted(old(Contents(ri)))
    ensures ko == KernelMatrix(old(Contents(ri)), ln)
  {
    ghost var before := Contents(ri);
    var rows, cols := ri.Length0, ri.Length1;
    var i := 0;
    while i < rows * cols
      invariant 0 <= i <= rows * cols
      invariant forall v, u :: 0 <= v < rows && 0 <= u < cols ==>
                  ri[v, u] == if MeshGrid.Precedes(v, u, i, cols) then Substitute(before[v][u]) else before[v][u]
    {
      MeshGrid.FlatIndex(i, rows, cols);
      MeshGrid.FlatSuccessor(i, cols);
      var u := i % cols;
      var v := i / cols;
      if ri[v, u] == 0.0 {
        ri[v, u] := 1.0;
      }
      i := i + 1;
    }
    if cols > 0 {
      MeshGrid.FlatEnd(rows, cols);
    }
    var after := Contents(ri);
    OverwrittenIsSubstituted(after, before, rows, cols);
    ko := KernelOfOverwritten(after, ln);
    KernelOfSubstituted(before, ln);
  }
}
