/**
 * What the packed parameter vector means: the mean, the upper-triangular
 * factor it unpacks to, the sample m + C * z drawn from noise z, and the
 * Jacobian of that sample with respect to the parameters.
 */
module Parameterization {
  import opened Layout
  import opened LinearAlgebra

  /** The mean vector: the first k parameters. */
  function Mean(k: nat, params: Vector): Vector
    requires |params| >= k
  {
    params[..k]
  }

  /** Cell (r, c) of the factor: the parameter of entry Index(r, c) on and above the diagonal, 0 below. */
  function FactorEntry(k: nat, params: Vector, r: nat, c: nat): real
    requires r < k && c < k && |params| >= NumParameters(k)
  {
    if r <= c then params[k + Index(k, r, c)] else 0.0
  }

  function FactorOf(k: nat, params: Vector): (m: Matrix)
    requires |params| >= NumParameters(k)
    ensures IsSquare(m, k)
  {
    seq(k, r requires 0 <= r < k =>
      seq(k, c requires 0 <= c < k => FactorEntry(k, params, r, c)))
  }

  /** The sample drawn from noise z: C * z + mean. */
  function Sample(k: nat, params: Vector, z: Vector): Vector
    requires |params| >= NumParameters(k) && |z| == k
  {
    Affine(FactorOf(k, params), z, Mean(k, params))
  }

  /**
   * Entry (p, j) of the Jacobian of the sample with respect to the
   * parameters, given the noise z the sample was drawn from.
   */
  function JacobianEntry(k: nat, z: Vector, p: nat, j: int): real
    requires |z| == k && p < NumParameters(k)
  {
    if p < k then
      if p == j then 1.0 else 0.0
    else if j == RowOf(k, p - k) then z[ColOf(k, p - k)]
    else 0.0
  }

  /**
   * The factor is upper-triangular, and each cell on or above the diagonal
   * holds exactly one factor parameter: the one RowOf/ColOf send there.
   */
  lemma FactorHoldsEachParameterOnce(k: nat, params: Vector)
    requires |params| >= NumParameters(k)
    ensures UpperTriangular(FactorOf(k, params))
    ensures forall i :: 0 <= i < Entries(k) ==> FactorOf(k, params)[RowOf(k, i)][ColOf(k, i)] == params[k + i]
    ensures forall r, c :: 0 <= r <= c < k ==>
      FactorOf(k, params)[r][c] == params[k + Index(k, r, c)] &&
      RowOf(k, Index(k, r, c)) == r && ColOf(k, Index(k, r, c)) == c
  {
    CellBijection(k);
  }

  /** The sample is linear in the parameters: a perturbation e of parameter p moves sample[j] by e * JacobianEntry. */
  lemma JacobianIsExactDerivative(k: nat, params: Vector, z: Vector, p: nat, j: nat, e: real)
    requires |params| >= NumParameters(k) && |z| == k && p < NumParameters(k) && j < k
    ensures Sample(k, params[p := params[p] + e], z)[j] == Sample(k, params, z)[j] + e * JacobianEntry(k, z, p, j)
  {
    var params' := params[p := params[p] + e];
    var m, m' := FactorOf(k, params), FactorOf(k, params');
    assert Sample(k, params', z)[j] == Dot(m'[j], z) + params'[j];
    assert Sample(k, params, z)[j] == Dot(m[j], z) + params[j];
    PerturbedRowMoves(k, params, params', z, p, j, e);
  }

  /** The row-j form of JacobianIsExactDerivative: Dot(C[j], z) + mean[j] moves by e * JacobianEntry(p, j). */
  lemma PerturbedRowMoves(k: nat, params: Vector, params': Vector, z: Vector, p: nat, j: nat, e: real)
    requires |params| >= NumParameters(k) && |z| == k && p < NumParameters(k) && j < k
    requires params' == params[p := params[p] + e]
    ensures Dot(FactorOf(k, params')[j], z) + params'[j] ==
      Dot(FactorOf(k, params)[j], z) + params[j] + e * JacobianEntry(k, z, p, j)
  {
    var m, m' := FactorOf(k, params), FactorOf(k, params');
    var d := JacobianEntry(k, z, p, j);
    PerturbedFactorRow(k, params, p, e, j);
    if p < k {
      assert Dot(m'[j], z) == Dot(m[j], z);
      if p == j {
        assert d == 1.0 && params'[j] == params[j] + e;
      } else {
        assert d == 0.0 && params'[j] == params[j];
      }
    } else if j == RowOf(k, p - k) {
      var c0 := ColOf(k, p - k);
      SumFromBump(m[j], m'[j], z, c0, e, 0);
      assert d == z[c0];
      assert Dot(m'[j], z) == Dot(m[j], z) + e * d;
      assert params'[j] == params[j];
    } else {
      assert d == 0.0;
      assert Dot(m'[j], z) == Dot(m[j], z);
      assert params'[j] == params[j];
    }
  }

  /**
   * Perturbing parameter p changes one row of the factor at most: the row
   * RowOf(p - k), in the single cell ColOf(p - k). Mean parameters leave it alone.
   */
  lemma PerturbedFactorRow(k: nat, params: Vector, p: nat, e: real, j: nat)
    requires |params| >= NumParameters(k) && p < NumParameters(k) && j < k
    ensures var m, m' := FactorOf(k, params), FactorOf(k, params[p := params[p] + e]);
      if k <= p && j == RowOf(k, p - k) then
        var c0 := ColOf(k, p - k);
        m'[j] == m[j][c0 := m[j][c0] + e]
      else m'[j] == m[j]
  {
    var m, m' := FactorOf(k, params), FactorOf(k, params[p := params[p] + e]);
    if k <= p && j == RowOf(k, p - k) {
      var c0 := ColOf(k, p - k);
      forall c | 0 <= c < k
        ensures m'[j][c] == m[j][c0 := m[j][c0] + e][c]
      {
        if j <= c { CellOfIndex(k, j, c); }
      }
    } else {
      forall c | 0 <= c < k
        ensures m'[j][c] == m[j][c]
      {
        if k <= p && j <= c { CellOfIndex(k, j, c); }
      }
    }
  }

  /**
   * When the factor's diagonal is nonzero, the x solving C * x == sample - mean
   * is the noise z the sample was drawn from.
   */
  lemma RecoveredNoiseIsDrawnNoise(k: nat, params: Vector, z: Vector, x: Vector)
    requires |params| >= NumParameters(k) && |z| == k && |x| == k
    requires NonzeroDiagonal(FactorOf(k, params))
    requires MatVec(FactorOf(k, params), x) == Difference(Sample(k, params, z), Mean(k, params))
    ensures x == z
  {
    var m := FactorOf(k, params);
    FactorHoldsEachParameterOnce(k, params);
    assert Difference(Sample(k, params, z), Mean(k, params)) == MatVec(m, z);
    SolutionUnique(m, x, z);
  }

  /**
   * The whole pipeline: draw a sample from z, recover x from it, and the
   * Jacobian entries computed from x are the exact partial derivatives of
   * the sample.
   */
  lemma GradientFromRecoveredNoise(k: nat, params: Vector, z: Vector, x: Vector, p: nat, j: nat, e: real)
    requires |params| >= NumParameters(k) && |z| == k && |x| == k && p < NumParameters(k) && j < k
    requires NonzeroDiagonal(FactorOf(k, params))
    requires MatVec(FactorOf(k, params), x) == Difference(Sample(k, params, z), Mean(k, params))
    ensures Sample(k, params[p := params[p] + e], z)[j] == Sample(k, params, z)[j] + e * JacobianEntry(k, x, p, j)
  {
    RecoveredNoiseIsDrawnNoise(k, params, z, x);
    assert x == z;
    JacobianIsExactDerivative(k, params, x, p, j, e);
  }

  /** Two attributes: parameters [m0, m1, a, b, c] give the factor [[a, b], [0, c]]. */
  lemma TwoAttributeFactor(m0: real, m1: real, a: real, b: real, c: real)
    ensures FactorOf(2, [m0, m1, a, b, c]) == [[a, b], [0.0, c]]
  {
    var params := [m0, m1, a, b, c];
    assert FactorOf(2, params)[0] == [a, b] by {
      assert FactorEntry(2, params, 0, 0) == a && FactorEntry(2, params, 0, 1) == b;
    }
    assert FactorOf(2, params)[1] == [0.0, c] by {
      assert RowStart(2, 1) == 2;
      assert FactorEntry(2, params, 1, 0) == 0.0 && FactorEntry(2, params, 1, 1) == c;
    }
  }

  /** Noise [1, 0] gives the sample [m0 + a, m1]. */
  lemma TwoAttributeSample(m0: real, m1: real, a: real, b: real, c: real)
    ensures Sample(2, [m0, m1, a, b, c], [1.0, 0.0]) == [m0 + a, m1]
  {
    var z := [1.0, 0.0];
    TwoAttributeFactor(m0, m1, a, b, c);
    assert Dot([a, b], z) == a by {
      assert SumFrom([a, b], z, 1) == b * 0.0 + SumFrom([a, b], z, 2);
    }
    assert Dot([0.0, c], z) == 0.0 by {
      assert SumFrom([0.0, c], z, 1) == c * 0.0 + SumFrom([0.0, c], z, 2);
    }
  }

  /** From the sample of TwoAttributeSample the noise [1, 0] is recovered. */
  lemma TwoAttributeRecovery(m0: real, m1: real, a: real, b: real, c: real, x: Vector)
    requires a != 0.0 && c != 0.0 && |x| == 2
    requires MatVec(FactorOf(2, [m0, m1, a, b, c]), x) ==
      Difference(Sample(2, [m0, m1, a, b, c], [1.0, 0.0]), Mean(2, [m0, m1, a, b, c]))
    ensures x == [1.0, 0.0]
  {
    assert NonzeroDiagonal(FactorOf(2, [m0, m1, a, b, c])) by {
      TwoAttributeFactor(m0, m1, a, b, c);
    }
    RecoveredNoiseIsDrawnNoise(2, [m0, m1, a, b, c], [1.0, 0.0], x);
  }

  /** Two attributes: factor entries 0, 1, 2 are the cells (0, 0), (0, 1) and (1, 1). */
  lemma TwoAttributeCells()
    ensures RowOf(2, 0) == 0 && ColOf(2, 0) == 0
    ensures RowOf(2, 1) == 0 && ColOf(2, 1) == 1
    ensures RowOf(2, 2) == 1 && ColOf(2, 2) == 1
  {
    assert RowStart(2, 1) == 2;
    RowOfUnique(2, 0, 0);
    RowOfUnique(2, 1, 0);
    RowOfUnique(2, 2, 1);
  }

  /** The two-attribute Jacobian, mean block: the identity. */
  lemma TwoAttributeJacobianMeans(z: Vector)
    requires |z| == 2
    ensures JacobianEntry(2, z, 0, 0) == 1.0 && JacobianEntry(2, z, 0, 1) == 0.0
    ensures JacobianEntry(2, z, 1, 0) == 0.0 && JacobianEntry(2, z, 1, 1) == 1.0
  {
  }

  /**
   * The two-attribute Jacobian, factor block: a (parameter 2) and b
   * (parameter 3) move attribute 0 by z[0] and z[1], c (parameter 4) moves
   * attribute 1 by z[1].
   */
  lemma TwoAttributeJacobianFactor(z: Vector)
    requires |z| == 2
    ensures JacobianEntry(2, z, 2, 0) == z[0] && JacobianEntry(2, z, 2, 1) == 0.0
    ensures JacobianEntry(2, z, 3, 0) == z[1] && JacobianEntry(2, z, 3, 1) == 0.0
    ensures JacobianEntry(2, z, 4, 0) == 0.0 && JacobianEntry(2, z, 4, 1) == z[1]
  {
    TwoAttributeCells();
  }
}
