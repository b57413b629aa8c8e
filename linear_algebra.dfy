/**
 * The few real-valued linear-algebra operations the distribution relies
 * on: row-times-vector sums, matrix-vector products, and the solution of
 * an upper-triangular system by back-substitution.
 */
module LinearAlgebra {

  type Vector = seq<real>
  type Matrix = seq<seq<real>>

  ghost predicate IsSquare(m: Matrix, n: nat)
  {
    |m| == n && forall r :: 0 <= r < n ==> |m[r]| == n
  }

  ghost predicate UpperTriangular(m: Matrix)
    requires IsSquare(m, |m|)
  {
    forall r, c :: 0 <= c < r < |m| ==> m[r][c] == 0.0
  }

  ghost predicate NonzeroDiagonal(m: Matrix)
    requires IsSquare(m, |m|)
  {
    forall r :: 0 <= r < |m| ==> m[r][r] != 0.0
  }

  /** Sum of u[j] * v[j] over j in [lo, |u|). */
  function SumFrom(u: Vector, v: Vector, lo: nat): real
    requires |u| == |v| && lo <= |u|
    decreases |u| - lo
  {
    if lo == |u| then 0.0 else u[lo] * v[lo] + SumFrom(u, v, lo + 1)
  }

  function Dot(u: Vector, v: Vector): real
    requires |u| == |v|
  {
    SumFrom(u, v, 0)
  }

  function MatVec(m: Matrix, v: Vector): Vector
    requires forall r :: 0 <= r < |m| ==> |m[r]| == |v|
  {
    seq(|m|, r requires 0 <= r < |m| => Dot(m[r], v))
  }

  /** m * v + shift. */
  function Affine(m: Matrix, v: Vector, shift: Vector): Vector
    requires |shift| == |m| && forall r :: 0 <= r < |m| ==> |m[r]| == |v|
  {
    seq(|m|, r requires 0 <= r < |m| => Dot(m[r], v) + shift[r])
  }

  function Difference(u: Vector, v: Vector): Vector
    requires |u| == |v|
  {
    seq(|u|, j requires 0 <= j < |u| => u[j] - v[j])
  }

  /** A partial sum only sees the entries of v from lo on. */
  lemma {:induction false} SumFromAgree(u: Vector, v: Vector, w: Vector, lo: nat)
    requires |u| == |v| == |w| && lo <= |u|
    requires forall j :: lo <= j < |u| ==> v[j] == w[j]
    ensures SumFrom(u, v, lo) == SumFrom(u, w, lo)
    decreases |u| - lo
  {
    if lo < |u| {
      SumFromAgree(u, v, w, lo + 1);
    }
  }

  /** Zero coefficients in [lo, hi) contribute nothing. */
  lemma {:induction false} SumFromSkipZeros(u: Vector, v: Vector, lo: nat, hi: nat)
    requires |u| == |v| && lo <= hi <= |u|
    requires forall j :: lo <= j < hi ==> u[j] == 0.0
    ensures SumFrom(u, v, lo) == SumFrom(u, v, hi)
    decreases hi - lo
  {
    if lo < hi {
      SumFromSkipZeros(u, v, lo + 1, hi);
    }
  }

  /** Raising coefficient c of u by e raises every partial sum that covers c by e * v[c]. */
  lemma {:induction false} SumFromBump(u: Vector, u': Vector, v: Vector, c: nat, e: real, lo: nat)
    requires |u| == |u'| == |v| && c < |u| && lo <= |u|
    requires u' == u[c := u[c] + e]
    ensures SumFrom(u', v, lo) == SumFrom(u, v, lo) + (if lo <= c then e * v[c] else 0.0)
    decreases |u| - lo
  {
    if lo < |u| {
      SumFromBump(u, u', v, c, e, lo + 1);
      if lo == c {
        assert u'[lo] * v[lo] == u[lo] * v[lo] + e * v[c];
      }
    }
  }

  /** On an upper-triangular matrix, row r only meets the entries of v from r on. */
  lemma TriangularRow(m: Matrix, v: Vector, r: nat)
    requires IsSquare(m, |v|) && UpperTriangular(m) && r < |v|
    ensures Dot(m[r], v) == SumFrom(m[r], v, r)
  {
    SumFromSkipZeros(m[r], v, 0, r);
  }

  /**
   * Back-substitution for rows i .. n-1 of m * x == b: the entries of x
   * below i are left 0, and every row from i on holds.
   */
  function BackSubstitute(m: Matrix, b: Vector, i: nat): (x: Vector)
    requires IsSquare(m, |b|) && NonzeroDiagonal(m) && i <= |b|
    ensures |x| == |b|
    ensures forall j :: 0 <= j < i ==> x[j] == 0.0
    ensures forall r :: i <= r < |b| ==> SumFrom(m[r], x, r) == b[r]
    decreases |b| - i
  {
    if i == |b| then seq(|b|, _ => 0.0)
    else
      var y := BackSubstitute(m, b, i + 1);
      var xi := (b[i] - SumFrom(m[i], y, i + 1)) / m[i][i];
      BackSubstituteStep(m, b, i, y, xi, y[i := xi]);
      y[i := xi]
  }

  lemma BackSubstituteStep(m: Matrix, b: Vector, i: nat, y: Vector, xi: real, x: Vector)
    requires IsSquare(m, |b|) && NonzeroDiagonal(m) && i < |b| && |y| == |b|
    requires forall r :: i < r < |b| ==> SumFrom(m[r], y, r) == b[r]
    requires xi == (b[i] - SumFrom(m[i], y, i + 1)) / m[i][i]
    requires x == y[i := xi]
    ensures forall r :: i <= r < |b| ==> SumFrom(m[r], x, r) == b[r]
  {
    forall r | i <= r < |b|
      ensures SumFrom(m[r], x, r) == b[r]
    {
      if r == i {
        var s := SumFrom(m[i], y, i + 1);
        SumFromAgree(m[i], x, y, i + 1);
        assert SumFrom(m[i], x, i) == m[i][i] * xi + s;
        assert m[i][i] * ((b[i] - s) / m[i][i]) == b[i] - s;
      } else {
        SumFromAgree(m[r], x, y, r);
      }
    }
  }

  /** The solution of m * x == b for an upper-triangular m with a nonzero diagonal. */
  function Solve(m: Matrix, b: Vector): (x: Vector)
    requires IsSquare(m, |b|) && UpperTriangular(m) && NonzeroDiagonal(m)
    ensures |x| == |b| && MatVec(m, x) == b
  {
    var x := BackSubstitute(m, b, 0);
    forall r | 0 <= r < |b| ensures Dot(m[r], x) == b[r] {
      TriangularRow(m, x, r);
    }
    x
  }

  lemma CancelNonzero(d: real, a: real, b: real)
    requires d != 0.0 && d * a == d * b
    ensures a == b
  {
    assert d * (a - b) == 0.0;
  }

  /** An upper-triangular matrix with a nonzero diagonal is injective. */
  lemma SolutionUnique(m: Matrix, x: Vector, y: Vector)
    requires IsSquare(m, |x|) && |y| == |x| && UpperTriangular(m) && NonzeroDiagonal(m)
    requires MatVec(m, x) == MatVec(m, y)
    ensures x == y
  {
    AgreeFrom(m, x, y, 0);
  }

  lemma {:induction false} AgreeFrom(m: Matrix, x: Vector, y: Vector, i: nat)
    requires IsSquare(m, |x|) && |y| == |x| && UpperTriangular(m) && NonzeroDiagonal(m) && i <= |x|
    requires MatVec(m, x) == MatVec(m, y)
    ensures forall j :: i <= j < |x| ==> x[j] == y[j]
    decreases |x| - i
  {
    if i < |x| {
      AgreeFrom(m, x, y, i + 1);
      SumFromAgree(m[i], x, y, i + 1);
      TriangularRow(m, x, i);
      TriangularRow(m, y, i);
      assert Dot(m[i], x) == MatVec(m, x)[i] == MatVec(m, y)[i] == Dot(m[i], y);
      var d, rest := m[i][i], SumFrom(m[i], x, i + 1);
      assert SumFrom(m[i], y, i + 1) == rest;
      calc {
        d * x[i] + rest;
        SumFrom(m[i], x, i);
        Dot(m[i], x);
        Dot(m[i], y);
        SumFrom(m[i], y, i);
        d * y[i] + rest;
      }
      CancelNonzero(d, x[i], y[i]);
    }
  }
}
