/**
 * The Gaussian distribution of the mixed logit discrete choice model:
 * a mean and an upper-triangular Cholesky factor packed into one flat
 * parameter vector, with the layout tables, the factor, the sampling
 * transform, the cached triangular solve and the attribute gradient.
 *
 * The source's static methods all work on one PrivateData record; here
 * they are the methods of that class.
 */
module GaussianDistribution {
  import opened Layout
  import opened LinearAlgebra
  import opened Parameterization

  class PrivateData {
    var choleskyFactorDimension: int
    var numCholeskyFactorEntries: int
    /** For factor parameter p: the factor row it fills (the attribute its gradient is nonzero for). */
    var nonzeroColumnIndices: array<int>
    /** For factor parameter p: the parameter index at which its row's segment starts. */
    var startIndices: array<int>
    /** The solution of the triangular system of the last precompute. */
    var cachedSolution: array<real>
    var choleskyFactor: array2<real>

    constructor ()
      ensures choleskyFactorDimension == 0 && numCholeskyFactorEntries == 0
      ensures nonzeroColumnIndices.Length == 0 && startIndices.Length == 0 && cachedSolution.Length == 0
      ensures choleskyFactor.Length0 == 0 && choleskyFactor.Length1 == 0
    {
      choleskyFactorDimension := 0;
      numCholeskyFactorEntries := 0;
      nonzeroColumnIndices := new int[0];
      startIndices := new int[0];
      cachedSolution := new real[0];
      choleskyFactor := new real[0, 0];
    }

    /** The layout tables as Init leaves them. */
    ghost predicate LayoutValid()
      reads this, nonzeroColumnIndices, startIndices
    {
      var k := choleskyFactorDimension;
      k >= 0 && numCholeskyFactorEntries == Entries(k) &&
      TablesHold(k, nonzeroColumnIndices[..], startIndices[..])
    }

    /** The factor matrix as a sequence of rows. */
    function Factor(): (m: Matrix)
      reads this`choleskyFactor, choleskyFactor
      ensures |m| == choleskyFactor.Length0
      ensures forall r :: 0 <= r < |m| ==> |m[r]| == choleskyFactor.Length1
      ensures forall r, c :: 0 <= r < choleskyFactor.Length0 && 0 <= c < choleskyFactor.Length1 ==>
        m[r][c] == choleskyFactor[r, c]
    {
      var a := choleskyFactor;
      seq(a.Length0, r requires 0 <= r < a.Length0 reads a =>
        seq(a.Length1, c requires 0 <= c < a.Length1 reads a => a[r, c]))
    }

    /**
     * Reads the dimension K from the first attribute dimension, and fills
     * the tables row by row: row r takes the next K - r factor entries.
     */
    method Init(attributeDimensions: seq<int>) returns (numParameters: int)
      requires |attributeDimensions| >= 1 && attributeDimensions[0] >= 1
      modifies this`choleskyFactorDimension, this`numCholeskyFactorEntries,
        this`nonzeroColumnIndices, this`startIndices
      ensures choleskyFactorDimension == attributeDimensions[0]
      ensures numParameters == NumParameters(choleskyFactorDimension)
      ensures numCholeskyFactorEntries == Entries(choleskyFactorDimension)
      ensures numParameters == choleskyFactorDimension + numCholeskyFactorEntries
      ensures fresh(nonzeroColumnIndices) && fresh(startIndices)
      ensures nonzeroColumnIndices.Length == numParameters && startIndices.Length == numParameters
      ensures LayoutValid()
    {
      var numAttributes := attributeDimensions[0];
      numParameters := NumParameters(numAttributes);
      choleskyFactorDimension := numAttributes;
      numCholeskyFactorEntries := Entries(choleskyFactorDimension);
      var nonzero, starts := FillLayoutTables(numAttributes);
      nonzeroColumnIndices := nonzero;
      startIndices := starts;
    }

    /**
     * Unpacks the factor parameters into a fresh K x K matrix: zero
     * everywhere, then parameter K + i in the cell of factor entry i.
     */
    method SetupCholeskyFactor(parameters: seq<real>)
      requires choleskyFactorDimension >= 0 && numCholeskyFactorEntries == Entries(choleskyFactorDimension)
      requires |parameters| >= NumParameters(choleskyFactorDimension)
      modifies this`choleskyFactor
      ensures fresh(choleskyFactor)
      ensures choleskyFactor.Length0 == choleskyFactorDimension && choleskyFactor.Length1 == choleskyFactorDimension
      ensures forall r, c :: 0 <= c < r < choleskyFactorDimension ==> choleskyFactor[r, c] == 0.0
      ensures forall i :: 0 <= i < Entries(choleskyFactorDimension) ==>
        choleskyFactor[RowOf(choleskyFactorDimension, i), ColOf(choleskyFactorDimension, i)]
          == parameters[choleskyFactorDimension + i]
      ensures Factor() == FactorOf(choleskyFactorDimension, parameters)
    {
      var k := choleskyFactorDimension;
      choleskyFactor := UnpackFactor(k, parameters);
      forall r | 0 <= r < k
        ensures Factor()[r] == FactorOf(k, parameters)[r]
      {
      }
      FactorHoldsEachParameterOnce(k, parameters);
    }

    /** Called whenever the parameters change. */
    method SetupDistribution(parameters: seq<real>)
      requires choleskyFactorDimension >= 0 && numCholeskyFactorEntries == Entries(choleskyFactorDimension)
      requires |parameters| >= NumParameters(choleskyFactorDimension)
      modifies this`choleskyFactor
      ensures fresh(choleskyFactor)
      ensures choleskyFactor.Length0 == choleskyFactorDimension && choleskyFactor.Length1 == choleskyFactorDimension
      ensures Factor() == FactorOf(choleskyFactorDimension, parameters)
    {
      SetupCholeskyFactor(parameters);
    }

    /**
     * beta = C * noise + mean, where noise is the standard-normal vector the
     * source draws entry by entry and mean is the first K parameters.
     */
    method DrawBeta(parameters: seq<real>, noise: Vector) returns (beta: Vector)
      requires choleskyFactor.Length0 == choleskyFactor.Length1 == |noise| <= |parameters|
      ensures beta == Affine(Factor(), noise, parameters[..|noise|])
    {
      var n := choleskyFactor.Length1;
      var out := new real[n];
      for r := 0 to n
        invariant forall q :: 0 <= q < r ==> out[q] == Dot(Factor()[q], noise) + parameters[q]
      {
        var acc := 0.0;
        var c := n;
        while c > 0
          invariant 0 <= c <= n
          invariant acc == SumFrom(Factor()[r], noise, c)
        {
          c := c - 1;
          acc := choleskyFactor[r, c] * noise[c] + acc;
        }
        out[r] := acc + parameters[r];
      }
      beta := out[..];
    }

    /** Caches the solution x of C * x == beta - mean. */
    method SamplingAccumulatePrecompute(parameters: seq<real>, betaVector: Vector)
      requires choleskyFactor.Length0 == choleskyFactor.Length1 == |betaVector| <= |parameters|
      requires UpperTriangular(Factor()) && NonzeroDiagonal(Factor())
      modifies this`cachedSolution
      ensures fresh(cachedSolution) && cachedSolution.Length == |betaVector|
      ensures MatVec(Factor(), cachedSolution[..]) == Difference(betaVector, parameters[..|betaVector|])
    {
      var rightHandSide := Difference(betaVector, parameters[..|betaVector|]);
      var solution := Solve(Factor(), rightHandSide);
      cachedSolution := new real[|solution|](j requires 0 <= j < |solution| => solution[j]);
      assert cachedSolution[..] == solution;
    }

    /**
     * Entry (rowIndex, colIndex) of the derivative of beta with respect to
     * the parameters: rowIndex is the parameter, colIndex the attribute.
     * A negative rowIndex falls into the mean branch, as in the source.
     */
    function AttributeGradientWithRespectToParameter(
      parameters: seq<real>, betaVector: Vector, rowIndex: int, colIndex: int): (g: real)
      reads this, nonzeroColumnIndices, startIndices, cachedSolution
      requires LayoutValid()
      requires |betaVector| == choleskyFactorDimension && cachedSolution.Length == choleskyFactorDimension
      requires rowIndex < NumParameters(choleskyFactorDimension)
      ensures rowIndex >= 0 ==> g == JacobianEntry(choleskyFactorDimension, cachedSolution[..], rowIndex, colIndex)
      ensures rowIndex < 0 ==> g == (if rowIndex == colIndex then 1.0 else 0.0)
    {
      var numAttributes := |betaVector|;
      if rowIndex < numAttributes then
        if rowIndex == colIndex then 1.0 else 0.0
      else
        TablesHoldAt(numAttributes, nonzeroColumnIndices[..], startIndices[..], rowIndex);
        var nonzeroColumnIndex := nonzeroColumnIndices[rowIndex];
        if nonzeroColumnIndex == colIndex then
          cachedSolution[rowIndex - startIndices[rowIndex] + nonzeroColumnIndex]
        else 0.0
    }

    /**
     * The two walks agree: the row and column that Init's tables give
     * factor parameter p are the cell SetupCholeskyFactor wrote it into.
     */
    lemma TablesDecodeToFactorCell(parameters: seq<real>, p: int)
      requires LayoutValid() && choleskyFactorDimension <= p < NumParameters(choleskyFactorDimension)
      requires |parameters| >= NumParameters(choleskyFactorDimension)
      requires choleskyFactor.Length0 == choleskyFactor.Length1 == choleskyFactorDimension
      requires Factor() == FactorOf(choleskyFactorDimension, parameters)
      ensures var r, c := nonzeroColumnIndices[p], nonzeroColumnIndices[p] + p - startIndices[p];
        0 <= r <= c < choleskyFactorDimension && choleskyFactor[r, c] == parameters[p]
    {
      var k := choleskyFactorDimension;
      TablesHoldAt(k, nonzeroColumnIndices[..], startIndices[..], p);
      var r, c := RowOf(k, p - k), ColOf(k, p - k);
      assert nonzeroColumnIndices[p] + p - startIndices[p] == c;
      assert Index(k, r, c) == p - k;
      assert choleskyFactor[r, c] == Factor()[r][c] == FactorEntry(k, parameters, r, c);
    }
  }

  /**
   * The layout tables for k attributes: the k mean slots hold 0, and the
   * slot of factor entry i holds its row and the parameter index at which
   * that row's segment starts.
   */
  ghost predicate TablesHold(k: nat, nonzero: seq<int>, starts: seq<int>)
  {
    TablesFilled(k, nonzero, starts, Entries(k))
  }

  /** The layout tables once the walk has filled the slots of the first `filled` factor entries. */
  ghost predicate TablesFilled(k: nat, nonzero: seq<int>, starts: seq<int>, filled: nat)
  {
    |nonzero| == NumParameters(k) && |starts| == NumParameters(k) && filled <= Entries(k) &&
    (forall p :: 0 <= p < k ==> nonzero[p] == 0 && starts[p] == 0) &&
    (forall i :: 0 <= i < filled ==>
      nonzero[k + i] == RowOf(k, i) && starts[k + i] == k + RowStart(k, RowOf(k, i)))
  }

  /** Writing the row and row start of entry i into its slot extends the filled prefix by one. */
  lemma TablesFilledStep(k: nat, nonzero: seq<int>, starts: seq<int>, i: nat, row: int, first: int)
    requires TablesFilled(k, nonzero, starts, i) && i < Entries(k)
    requires row == RowOf(k, i) && first == RowStart(k, row)
    ensures TablesFilled(k, nonzero[k + i := row], starts[k + i := k + first], i + 1)
  {
    var nonzero', starts' := nonzero[k + i := row], starts[k + i := k + first];
    forall j | 0 <= j < i + 1
      ensures nonzero'[k + j] == RowOf(k, j) && starts'[k + j] == k + RowStart(k, RowOf(k, j))
    {
      if j < i {
        assert nonzero'[k + j] == nonzero[k + j] && starts'[k + j] == starts[k + j];
      }
    }
  }

  /** What the tables say about factor parameter p: its row and its row's first parameter. */
  lemma TablesHoldAt(k: nat, nonzero: seq<int>, starts: seq<int>, p: nat)
    requires TablesHold(k, nonzero, starts) && k <= p < NumParameters(k)
    ensures nonzero[p] == RowOf(k, p - k) && starts[p] == k + RowStart(k, RowOf(k, p - k))
  {
    var i := p - k;
    assert nonzero[k + i] == RowOf(k, i);
  }

  /**
   * The table-filling loop of Init: a counter walk over the factor entries
   * that moves to the next row whenever the entry index reaches the end of
   * the current row's segment.
   */
  method FillLayoutTables(k: nat) returns (nonzero: array<int>, starts: array<int>)
    requires k >= 1
    ensures fresh(nonzero) && fresh(starts)
    ensures TablesHold(k, nonzero[..], starts[..])
  {
    var numParameters := NumParameters(k);
    nonzero := new int[numParameters](_ => 0);
    starts := new int[numParameters](_ => 0);
    var limit, add, rowNum, start := k, k - 1, 0, 0;
    for i := 0 to Entries(k)
      invariant WalkAt(k, i, rowNum, start, limit, add)
      invariant TablesFilled(k, nonzero[..], starts[..], i)
    {
      WalkStep(k, i, rowNum, start, limit, add);
      if i == limit {
        limit := limit + add;
        add := add - 1;
        rowNum := rowNum + 1;
        start := i;
      }
      assert WalkAt(k, i + 1, rowNum, start, limit, add) && rowNum == RowOf(k, i) && start == RowStart(k, rowNum);
      TablesFilledStep(k, nonzero[..], starts[..], i, rowNum, start);
      nonzero[k + i] := rowNum;
      starts[k + i] := k + start;
    }
  }

  /**
   * The unpacking loop of SetupCholeskyFactor: the same counter walk as
   * Init's, writing parameter k + i into the cell (row, row + i - start) of
   * a zeroed k x k matrix.
   */
  method UnpackFactor(k: nat, parameters: seq<real>) returns (factor: array2<real>)
    requires |parameters| >= NumParameters(k)
    ensures fresh(factor) && factor.Length0 == k && factor.Length1 == k
    ensures forall r, c :: 0 <= r < k && 0 <= c < k ==> factor[r, c] == FactorEntry(k, parameters, r, c)
  {
    factor := new real[k, k]((_, _) => 0.0);
    var limit, add, rowNum, start := k, k - 1, 0, 0;
    for i := 0 to Entries(k)
      invariant k >= 1 ==> WalkAt(k, i, rowNum, start, limit, add)
      invariant forall r, c :: 0 <= r < k && 0 <= c < k ==> factor[r, c] == PartialFactorEntry(k, parameters, i, r, c)
    {
      assert k >= 1;
      WalkStep(k, i, rowNum, start, limit, add);
      if i == limit {
        limit := limit + add;
        add := add - 1;
        rowNum := rowNum + 1;
        start := i;
      }
      PartialFactorStep(k, parameters, i, i + 1);
      factor[rowNum, rowNum + i - start] := parameters[k + i];
    }
    assert forall r, c :: 0 <= r < k && 0 <= c < k ==> PartialFactorEntry(k, parameters, Entries(k), r, c) == FactorEntry(k, parameters, r, c);
  }

  /** Cell (r, c) of the factor once the first `written` factor entries have been unpacked. */
  ghost function PartialFactorEntry(k: nat, parameters: seq<real>, written: nat, r: nat, c: nat): real
    requires r < k && c < k && |parameters| >= NumParameters(k)
  {
    if r <= c && Index(k, r, c) < written then parameters[k + Index(k, r, c)] else 0.0
  }

  /** Unpacking entry i (so that `next` == i + 1 entries are written) changes exactly the cell (RowOf(i), ColOf(i)). */
  lemma PartialFactorStep(k: nat, parameters: seq<real>, i: nat, next: nat)
    requires i < Entries(k) && |parameters| >= NumParameters(k) && next == i + 1
    ensures forall r: nat, c: nat :: r < k && c < k ==>
      PartialFactorEntry(k, parameters, next, r, c) ==
        (if r == RowOf(k, i) && c == ColOf(k, i) then parameters[k + i]
         else PartialFactorEntry(k, parameters, i, r, c))
  {
    forall r: nat, c: nat | r < k && c < k
      ensures PartialFactorEntry(k, parameters, next, r, c) ==
        (if r == RowOf(k, i) && c == ColOf(k, i) then parameters[k + i]
         else PartialFactorEntry(k, parameters, i, r, c))
    {
      if r <= c {
        CellOfIndex(k, r, c);
      }
    }
  }
}
