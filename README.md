# Gaussian mixing distribution of the mixed logit model

This project models the Gaussian distribution that mlpack's mixed logit
discrete choice model uses for random coefficients. It is written in Dafny and
proves properties of the model.

The distribution has K attributes. It is described by one flat parameter
vector of length P = K(K+3)/2:

- the first K parameters are the mean;
- the remaining K(K+1)/2 parameters are the entries of an upper-triangular
  K x K Cholesky-style factor C, stored row by row (row r holds columns
  r .. K-1).

A coefficient vector is drawn as beta = C * z + mean, where z is
standard-normal noise. The gradient of beta with respect to the parameters
needs two things:

- z, recovered from beta by solving C * x = beta - mean;
- two tables built once at initialisation, which give each factor parameter
  its row and the parameter index at which that row's segment starts.

The model has four modules.

- `Layout` holds the index arithmetic of the packed layout:
  - the parameter count;
  - the row segment starts;
  - the row and column of each factor entry, and its inverse;
  - the counter walk (limit / add / row / start) that the source's loops use
    to step through the rows.
- `LinearAlgebra` holds real dot products, matrix-vector products, and the
  solution of an upper-triangular system by back-substitution together with
  its uniqueness.
- `Parameterization` holds the meaning of a parameter vector:
  - the factor it unpacks to;
  - the sample m + C z;
  - the Jacobian of the sample with respect to the parameters.

  It also holds the proofs that the Jacobian is the exact derivative and
  that the solve recovers the noise.
- `GaussianDistribution` holds the class `PrivateData`, with the source's
  fields and its static operations as methods:
  - `Init`;
  - `SetupCholeskyFactor` and `SetupDistribution`;
  - `DrawBeta`;
  - `SamplingAccumulatePrecompute`;
  - `AttributeGradientWithRespectToParameter`.

  Each method is proved against a specification function:
  - `Init` against the table predicate `TablesHold`;
  - `SetupCholeskyFactor` against `FactorOf`;
  - `DrawBeta` against the affine map C * noise + mean (`Affine` over `Factor()`);
  - `SamplingAccumulatePrecompute` against the system C * x = beta - mean (`MatVec` and `Difference`);
  - `AttributeGradientWithRespectToParameter` against `JacobianEntry`.

The noise z that `DrawBeta` uses is an input. The source draws it from a
random number generator. Reals stand for `double`. Integers are unbounded.

## Model

All source paths are under `fastlib/trunk/contrib/dongryel/thesis_research/mlpack/mixed_logit_dcm/`.

| member | source | states |
|---|---|---|
| Layout.Entries | fastlib/trunk/contrib/dongryel/thesis_research/mlpack/mixed_logit_dcm/gaussian_distribution.h:173-175 | the entry count K(K+1)/2 of num_cholesky_factor_entries_; a definition without a contract, whose properties RowStartOfLastRow and NumParameters state |
| Layout.RowStart | fastlib/trunk/contrib/dongryel/thesis_research/mlpack/mixed_logit_dcm/gaussian_distribution.h:60-70 | the value of the `start` counter for row r, the sum of the lengths K, K-1, ... of the rows before it; a definition whose properties RowStartClosedForm, RowStartIncreasing and RowStartBounded state |
| Layout.NumParameters | fastlib/trunk/contrib/dongryel/thesis_research/mlpack/mixed_logit_dcm/gaussian_distribution.h:171-175 | the parameter count K(K+3)/2 equals K means plus the K(K+1)/2 factor entries |
| Layout.RowStartClosedForm | fastlib/trunk/contrib/dongryel/thesis_research/mlpack/mixed_logit_dcm/gaussian_distribution.h:60-70 | row r's segment starts at entry r(2K-r+1)/2, the sum of the lengths K, K-1, ... of the rows before it |
| Layout.RowStartOfLastRow | fastlib/trunk/contrib/dongryel/thesis_research/mlpack/mixed_logit_dcm/gaussian_distribution.h:173-175 | the K row segments together cover exactly num_cholesky_factor_entries_ = K(K+1)/2 entries |
| Layout.RowStartIncreasing | fastlib/trunk/contrib/dongryel/thesis_research/mlpack/mixed_logit_dcm/gaussian_distribution.h:60-70 | every row holds at least one entry, so the row starts increase strictly |
| Layout.RowStartBounded | fastlib/trunk/contrib/dongryel/thesis_research/mlpack/mixed_logit_dcm/gaussian_distribution.h:60-70 | no row starts past the last factor entry |
| Layout.RowOf | fastlib/trunk/contrib/dongryel/thesis_research/mlpack/mixed_logit_dcm/gaussian_distribution.h:64-71 | factor entry i lies in a row r < K whose segment [RowStart(r), RowStart(r+1)) contains i |
| Layout.RowFrom | fastlib/trunk/contrib/dongryel/thesis_research/mlpack/mixed_logit_dcm/gaussian_distribution.h:64-70 | a search from row r finds a row at or after r whose segment contains i |
| Layout.ColOf | fastlib/trunk/contrib/dongryel/thesis_research/mlpack/mixed_logit_dcm/gaussian_distribution.h:71 | the column row + i - start of entry i is on or above the diagonal and inside the matrix |
| Layout.Index | fastlib/trunk/contrib/dongryel/thesis_research/mlpack/mixed_logit_dcm/gaussian_distribution.h:71-72 | a cell (r, c) with r <= c < K is held by a factor entry in range |
| Layout.RowOfUnique | fastlib/trunk/contrib/dongryel/thesis_research/mlpack/mixed_logit_dcm/gaussian_distribution.h:64-70 | the row segments partition the entries: an entry inside row r's segment has RowOf equal to r |
| Layout.WalkStep | fastlib/trunk/contrib/dongryel/thesis_research/mlpack/mixed_logit_dcm/gaussian_distribution.h:187-197 | one step of the limit/add/row_num/start walk keeps its counters on the row segments, never moves past row K-1, and leaves row_num = RowOf(i) and row_num + i - start = ColOf(i) |
| Layout.CellOfIndex | fastlib/trunk/contrib/dongryel/thesis_research/mlpack/mixed_logit_dcm/gaussian_distribution.h:64-73 | the entry that holds cell (r, c) is sent back to (r, c) |
| Layout.CellBijection | fastlib/trunk/contrib/dongryel/thesis_research/mlpack/mixed_logit_dcm/gaussian_distribution.h:64-73 | factor entries and upper-triangular cells are in bijection: both round trips hold and distinct entries go to distinct cells |
| LinearAlgebra.TriangularRow | fastlib/trunk/contrib/dongryel/thesis_research/mlpack/mixed_logit_dcm/gaussian_distribution.h:101-103 | row r of an upper-triangular matrix only meets the entries of the vector from r on |
| LinearAlgebra.BackSubstitute | fastlib/trunk/contrib/dongryel/thesis_research/mlpack/mixed_logit_dcm/gaussian_distribution.h:101-103 | back-substitution from row i on satisfies every equation from row i down |
| LinearAlgebra.Solve | fastlib/trunk/contrib/dongryel/thesis_research/mlpack/mixed_logit_dcm/gaussian_distribution.h:101-103 | for an upper-triangular matrix with a nonzero diagonal the result x has m * x == b |
| LinearAlgebra.SolutionUnique | fastlib/trunk/contrib/dongryel/thesis_research/mlpack/mixed_logit_dcm/gaussian_distribution.h:101-103 | such a matrix is injective, so the solution of the system is unique |
| LinearAlgebra.AgreeFrom | fastlib/trunk/contrib/dongryel/thesis_research/mlpack/mixed_logit_dcm/gaussian_distribution.h:101-103 | two vectors with the same product agree from every row i on, by induction from the last row |
| Parameterization.FactorOf | fastlib/trunk/contrib/dongryel/thesis_research/mlpack/mixed_logit_dcm/gaussian_distribution.h:57-73 | the factor that the parameters unpack to is K x K |
| Parameterization.FactorHoldsEachParameterOnce | fastlib/trunk/contrib/dongryel/thesis_research/mlpack/mixed_logit_dcm/gaussian_distribution.h:57-73 | the factor is upper-triangular; cell (RowOf(i), ColOf(i)) holds parameter K + i; and each cell on or above the diagonal holds exactly the parameter of its entry |
| Parameterization.Sample | fastlib/trunk/contrib/dongryel/thesis_research/mlpack/mixed_logit_dcm/gaussian_distribution.h:158-162 | the sample C z + mean; a definition, tied to DrawBeta by its contract and to the parameters by JacobianIsExactDerivative |
| Parameterization.JacobianEntry | fastlib/trunk/contrib/dongryel/thesis_research/mlpack/mixed_logit_dcm/gaussian_distribution.h:116-142 | the three branches of the gradient (identity block, the factor row's noise entry, 0); a definition, proved the exact derivative of Sample by JacobianIsExactDerivative |
| Parameterization.PerturbedFactorRow | fastlib/trunk/contrib/dongryel/thesis_research/mlpack/mixed_logit_dcm/gaussian_distribution.h:129-141 | changing factor parameter p changes only row RowOf(p-K) of the factor, in the one cell ColOf(p-K); changing a mean parameter leaves the factor unchanged |
| Parameterization.JacobianIsExactDerivative | fastlib/trunk/contrib/dongryel/thesis_research/mlpack/mixed_logit_dcm/gaussian_distribution.h:109-143 | adding e to parameter p moves sample[j] by exactly e times the Jacobian entry (p, j): 1 on the mean identity block, z[column] in the row of a factor parameter, 0 elsewhere |
| Parameterization.PerturbedRowMoves | fastlib/trunk/contrib/dongryel/thesis_research/mlpack/mixed_logit_dcm/gaussian_distribution.h:116-142 | row j of C z + mean moves by e times the Jacobian entry (p, j) when parameter p is raised by e, in each of the source's three branches |
| Parameterization.RecoveredNoiseIsDrawnNoise | fastlib/trunk/contrib/dongryel/thesis_research/mlpack/mixed_logit_dcm/gaussian_distribution.h:97-103 | when the diagonal is nonzero, the x solving C x = sample - mean is the noise z the sample was drawn from |
| Parameterization.GradientFromRecoveredNoise | fastlib/trunk/contrib/dongryel/thesis_research/mlpack/mixed_logit_dcm/gaussian_distribution.h:91-143 | the Jacobian entries computed from the recovered x are the exact partial derivatives of the sample drawn from z |
| Parameterization.TwoAttributeFactor | fastlib/trunk/contrib/dongryel/thesis_research/mlpack/mixed_logit_dcm/gaussian_distribution.h:57-73 | for K = 2 the parameters [m0, m1, a, b, c] unpack to [[a, b], [0, c]] |
| Parameterization.TwoAttributeSample | fastlib/trunk/contrib/dongryel/thesis_research/mlpack/mixed_logit_dcm/gaussian_distribution.h:158-162 | for K = 2 the noise [1, 0] gives the sample [m0 + a, m1] |
| Parameterization.TwoAttributeRecovery | fastlib/trunk/contrib/dongryel/thesis_research/mlpack/mixed_logit_dcm/gaussian_distribution.h:97-103 | for K = 2 with a, c nonzero, that sample recovers the noise [1, 0] |
| Parameterization.TwoAttributeCells | fastlib/trunk/contrib/dongryel/thesis_research/mlpack/mixed_logit_dcm/gaussian_distribution.h:64-71 | for K = 2 the factor entries 0, 1, 2 are the cells (0, 0), (0, 1), (1, 1) |
| Parameterization.TwoAttributeJacobianMeans | fastlib/trunk/contrib/dongryel/thesis_research/mlpack/mixed_logit_dcm/gaussian_distribution.h:116-124 | for K = 2 the mean block of the Jacobian is the 2 x 2 identity |
| Parameterization.TwoAttributeJacobianFactor | fastlib/trunk/contrib/dongryel/thesis_research/mlpack/mixed_logit_dcm/gaussian_distribution.h:126-142 | for K = 2, a and b (parameters 2 and 3) move attribute 0 by z[0] and z[1], c (parameter 4) moves attribute 1 by z[1], and every other factor entry of the Jacobian is 0 |
| GaussianDistribution.PrivateData.constructor | fastlib/trunk/contrib/dongryel/thesis_research/mlpack/mixed_logit_dcm/gaussian_distribution.h:42-45 | the dimension and the entry count start at 0, and the tables, the cache and the factor start empty |
| GaussianDistribution.PrivateData.Factor | fastlib/trunk/contrib/dongryel/thesis_research/mlpack/mixed_logit_dcm/gaussian_distribution.h:39 | the factor array read as a sequence of rows, cell for cell |
| GaussianDistribution.PrivateData.Init | fastlib/trunk/contrib/dongryel/thesis_research/mlpack/mixed_logit_dcm/gaussian_distribution.h:165-204 | sets the dimension to attribute_dimensions_in[0], returns the parameter count K(K+3)/2, sets the entry count to K(K+1)/2, and leaves fresh tables of length P that satisfy LayoutValid |
| GaussianDistribution.FillLayoutTables | fastlib/trunk/contrib/dongryel/thesis_research/mlpack/mixed_logit_dcm/gaussian_distribution.h:176-203 | the zero-filled tables, after the counter walk, hold 0 in the mean slots and, in slot K + i, the row RowOf(i) and K + RowStart(RowOf(i)) |
| GaussianDistribution.TablesHold | fastlib/trunk/contrib/dongryel/thesis_research/mlpack/mixed_logit_dcm/gaussian_distribution.h:176-203 | the contents of the tables after Init: 0 in the mean slots, and in slot K + i the row RowOf(i) and K + RowStart(RowOf(i)); a definition that Init establishes and the gradient and TablesDecodeToFactorCell use |
| GaussianDistribution.TablesFilledStep | fastlib/trunk/contrib/dongryel/thesis_research/mlpack/mixed_logit_dcm/gaussian_distribution.h:198-202 | writing the row and the row start of entry i into slot K + i extends the filled prefix of the tables by one entry |
| GaussianDistribution.TablesHoldAt | fastlib/trunk/contrib/dongryel/thesis_research/mlpack/mixed_logit_dcm/gaussian_distribution.h:198-202 | the table entries of factor parameter p are its row and K plus the start of that row |
| GaussianDistribution.PrivateData.SetupCholeskyFactor | fastlib/trunk/contrib/dongryel/thesis_research/mlpack/mixed_logit_dcm/gaussian_distribution.h:54-74 | the factor becomes a fresh K x K matrix: zero below the diagonal, parameter K + i in cell (RowOf(i), ColOf(i)), equal to FactorOf of the parameters |
| GaussianDistribution.UnpackFactor | fastlib/trunk/contrib/dongryel/thesis_research/mlpack/mixed_logit_dcm/gaussian_distribution.h:57-73 | after the counter walk over the K(K+1)/2 entries, every cell of the zeroed K x K matrix holds the parameter of its factor entry on and above the diagonal and 0 below it |
| GaussianDistribution.PartialFactorStep | fastlib/trunk/contrib/dongryel/thesis_research/mlpack/mixed_logit_dcm/gaussian_distribution.h:71-72 | writing entry i changes exactly the cell (RowOf(i), ColOf(i)) of the partly unpacked factor |
| GaussianDistribution.PrivateData.SetupDistribution | fastlib/trunk/contrib/dongryel/thesis_research/mlpack/mixed_logit_dcm/gaussian_distribution.h:80-85 | leaves the same factor as SetupCholeskyFactor |
| GaussianDistribution.PrivateData.DrawBeta | fastlib/trunk/contrib/dongryel/thesis_research/mlpack/mixed_logit_dcm/gaussian_distribution.h:147-163 | beta = C * noise + the first K parameters, computed by row and column loops |
| GaussianDistribution.PrivateData.SamplingAccumulatePrecompute | fastlib/trunk/contrib/dongryel/thesis_research/mlpack/mixed_logit_dcm/gaussian_distribution.h:91-104 | the cached solution is fresh, of length K, and solves C * x = beta - mean |
| GaussianDistribution.PrivateData.AttributeGradientWithRespectToParameter | fastlib/trunk/contrib/dongryel/thesis_research/mlpack/mixed_logit_dcm/gaussian_distribution.h:109-143 | through the tables and the cached solution, the result for 0 <= row_index < P is the Jacobian entry (row_index, col_index) of the sample at the cached noise; a negative row_index takes the mean branch and gives 1 exactly when it equals col_index |
| GaussianDistribution.PrivateData.TablesDecodeToFactorCell | fastlib/trunk/contrib/dongryel/thesis_research/mlpack/mixed_logit_dcm/gaussian_distribution.h:131-137 | the two walks agree: the row nonzero_column_indices_[p] and the column nonzero + p - start_indices_[p] that Init's tables give parameter p name the upper-triangular cell that SetupCholeskyFactor_ wrote parameter p into |

## Left out

- DrawBeta: the noise vector is a parameter. The source fills it with `core::math::RandGaussian(1.0)` draws, and randomness is outside the model.
- Floating point: `double` is modelled as `real`, so rounding and the tolerance of the round trip are not modelled.
- SamplingAccumulatePrecompute: requires an upper-triangular factor with a nonzero diagonal. `arma::solve` also solves general square systems, and it reports failure on a singular matrix. Neither the general solver nor that failure is modelled. The factor from SetupCholeskyFactor is always upper-triangular.
- Init: requires K = attribute_dimensions_in[0] >= 1; the source does not check K. For K = 0 the source runs and leaves empty tables; the model does not cover that call of Init. For K = -1 or -2 the parameter count is negative and the `resize` at line 176 fails; for K <= -3 the loop writes before the start of the tables (line 198). SetupCholeskyFactor and the layout predicate do admit K = 0.
- Init: the source computes K(K+3)/2 and K(K+1)/2 in 32-bit `int`. Overflow for very large K is not modelled.
- AttributeGradientWithRespectToParameter: requires row_index < P, |beta_vector| = K and a cached solution of length K. A row_index >= P would read past the tables at line 132; the source does not check it. A negative row_index is modelled: it takes the mean branch at line 117.
- AttributeGradientWithRespectToParameter: the source does not detect a stale cache, and neither does the model. The `parameters` argument is unused, in the source as in the model.
- The `const_cast` views over `parameters.memptr()` in DrawBeta and SamplingAccumulatePrecompute are modelled as the prefix of the first K parameters. The aliasing itself is not modelled.
- DrawBeta: computes `cholesky_factor_ * random_gaussian_vector` with explicit loops; the armadillo matrix product is not part of this model.
- SetupCholeskyFactor requires at least P parameters. DrawBeta and SamplingAccumulatePrecompute require at least K, the length of the mean they read. The source checks neither length.
- Like the source, the model does not validate the parameter length and has no separate error for a degenerate factor.
