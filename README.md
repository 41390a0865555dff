# geospatialOT cost construction and partial optimal transport, in Dafny

This project models the two exact, non-solver parts of the geospatialOT library over
Dafny `real` numbers:

- **Cost construction** (`geot/cost.py`). `space_cost_matrix` turns two point lists into a
  distance matrix, optionally converted to hours at a speed and optionally passed through a
  scale function. `spacetime_cost_matrix` expands an N×N spatial matrix to a T·N × T·N block
  matrix whose block (t_pred, t_gt) is the spatial matrix raised to a waiting-time floor.
- **Partial transport** (`geot/partialot.py`). The `PartialOT` object stores the cost
  matrix extended by a sink row and column filled with the waste penalty, optionally
  divided by its maximum. Calling it appends a sink entry to each mass vector so that
  both sum to the same total, then hands them to an exact or a regularised solver.
  `partial_ot_relocation` pads the shorter of two location lists with an import location,
  puts uniform mass on every point, overrides part of the distance matrix with φ, and
  returns the exact plan or its cost.

Modules: `Errors` (error values), `Matrices` (matrices as `seq<seq<real>>`, sums, maxima),
`Slices` (the numpy slice assignments on `array2<real>`), `Cost` and `PartialOt`.

The solvers (`wasserstein.EMD()`, `ot.emd`, `SinkhornLoss`) and the distance `cdist` are
function parameters. The model assumes of the distance only what `Cost.IsDistance` says:
it is non-negative, symmetric, and zero between a point and itself. Exceptions become
`Err` values: a failed `assert` is `AssertionError`, `np.max` of a zero-size array is
`EmptyMatrix`, and incompatible batch sizes are `ShapeError`. A division by a zero
maximum or a zero mass sum, which numpy would turn into NaN or infinity, is `NotANumber`;
the one other such division, by a zero `speed_factor`, is excluded by a precondition
(see Left out).

The Python default arguments are Dafny default parameter values with the same
constants: `spacetime_cost_matrix` takes 3 time steps, forward cost 0 and backward
cost 1; `PartialOT` normalises, uses the penalty "max", takes the regularised path and
neither renormalises to 1 nor is spatiotemporal; `partial_ot_relocation` takes no cost
matrix, the import location (0, 0), φ = 0 and returns the distance.

In these places the model follows what the code does, which is not always what its comments and defaults suggest:

- The corner cell of the extended matrix holds the penalty, not 0. The last row is
  filled first, then the last column (partialot.py:30-31).
- A non-square matrix given to `spacetime_cost_matrix` fails its `assert`
  (cost.py:51-53), so the model returns `AssertionError` rather than a shape error.
- `PartialOT` never checks the dimensions of its matrix itself. With a numeric penalty a
  zero-size matrix is accepted. Only the penalty "max" fails on it, inside `np.max`.
- The cost override in `partial_ot_relocation` follows the slices as written (see Findings).

## Model

| member | source | states |
|---|---|---|
| `Cost.SpaceCost` | geot/cost.py:7-28 | the result has len(coords1) rows and len(coords2) columns, or len(coords1) columns when coords2 is omitted |
| `Cost.SpaceCostEntry` | geot/cost.py:15-27 | each entry is dist, or dist/1000/speed_factor when a speed is given, with the scale function applied last |
| `Cost.SpaceCostSelf` | geot/cost.py:15-17 | without coords2 the matrix is square and symmetric for a symmetric distance, and its diagonal is zero when there is no scale function or it maps 0 to 0 |
| `Cost.SpaceCostNonNegative` | geot/cost.py:17-23 | with no scale function and a positive speed (or none), every cost is non-negative |
| `Cost.Waiting` | geot/cost.py:61-67 | the waiting time between two equal slots is 0, and it is never negative when both costs are non-negative |
| `Cost.SpacetimeCost` | geot/cost.py:46-49 | the space-time matrix, defined cell by cell with slot i//N and station i%N, has shape T·N × T·N |
| `Cost.SpacetimeBlockEntry` | geot/cost.py:57-70 | cell (t_pred·N+i, t_gt·N+j) is max(M[i][j], w), with w = (t_pred−t_gt)·backward_cost when t_pred > t_gt and (t_gt−t_pred)·forward_cost otherwise |
| `Cost.SpacetimeDiagonalBlock` | geot/cost.py:66-70 | for a non-negative M, every diagonal block (t, t) equals M |
| `Cost.SpacetimeLowerBounds` | geot/cost.py:61-70 | every cell is at least its spatial cost and at least the waiting time of its block |
| `Cost.SpacetimeSymmetric` | geot/cost.py:61-70 | with forward_cost = backward_cost, a symmetric M gives a symmetric space-time matrix |
| `Cost.SpacetimeBlock` | geot/cost.py:59-70 | one loop step sets block (t_pred, t_gt) to the floored spatial matrix and leaves every other cell unchanged |
| `Cost.SpacetimeBlockRow` | geot/cost.py:58-70 | the inner loop sets every block of prediction slot t_pred and leaves every other cell unchanged |
| `Cost.SpacetimeFill` | geot/cost.py:56-70 | the nested loop turns the zero matrix into the space-time matrix, cell for cell |
| `Cost.SpacetimeCostMatrix` | geot/cost.py:31-71 | with defaults T = 3, forward cost 0 and backward cost 1, a non-square input fails the assertion; otherwise the result is a new array equal to `SpacetimeCost` of the input |
| `Slices.AssignBlock` | geot/partialot.py:29 | the block starting at (r0, c0) receives the given matrix and every other cell is unchanged |
| `Slices.FillRect` | geot/partialot.py:30-31 | every cell of the rectangle holds the scalar and every other cell is unchanged |
| `Slices.DivideAll` | geot/partialot.py:33-36 | every cell is divided by the same constant |
| `Matrices.MatMax` | geot/partialot.py:26 | the result bounds every entry of the matrix and is one of its entries |
| `PartialOt.ResolvePenalty` | geot/partialot.py:25-26 | "max" becomes the maximum of the matrix and fails on a zero-size matrix; a number is kept |
| `PartialOt.Extend` | geot/partialot.py:27-31 | the extended matrix has one more row and one more column than the input |
| `PartialOt.Normalize` | geot/partialot.py:33-36 | dividing by the maximum keeps the shape of the matrix |
| `PartialOt.ExtendedCostMatrix` | geot/partialot.py:25-36 | when it succeeds the stored matrix is (clen+1)×(cwid+1); it fails with `EmptyMatrix` exactly when the penalty "max" meets a zero-size matrix, and otherwise only with `NotANumber` when normalising |
| `PartialOt.ExtendLayout` | geot/partialot.py:27-31 | the extended matrix is (clen+1)×(cwid+1), holds the input in its top-left block, and holds the penalty in every cell of the last row and of the last column, the corner included |
| `PartialOt.ExtendMax` | geot/partialot.py:27-31 | the maximum of the extended matrix is the larger of the input's maximum and the penalty |
| `PartialOt.MaxPenaltyKeepsMaximum` | geot/partialot.py:25-31 | with penalty "max" the extended matrix has the same maximum as the input |
| `PartialOt.NormalizeMax` | geot/partialot.py:33-36 | dividing by a positive maximum divides every entry by the same constant, leaves all entries at most 1, and makes the maximum exactly 1 |
| `PartialOt.ExtendedCostMatrixCases` | geot/partialot.py:25-36 | when construction fails; the stored matrix's shape; without normalisation it is the extended matrix; with normalisation and a positive maximum it is that matrix divided by its maximum, with maximum 1 |
| `PartialOt.DefaultCostMatrix` | geot/partialot.py:11-36 | with the defaults normalize_c=True and penalty_unb="max" and a positive maximum, the stored matrix holds every entry divided by the input's maximum, 1 in every cell of the sink row and column, and has maximum 1 |
| `PartialOt.SelectBackend` | geot/partialot.py:37-48 | the exact solver when compute_exact is set, otherwise the regularised solver with blur 0.1, reach 0.01, scaling 0.1, mode "unbalanced" and the spatiotemporal flag |
| `PartialOt.ExtendedArray` | geot/partialot.py:27-31 | the new array holds exactly the extended matrix |
| `PartialOt.NormalizeArray` | geot/partialot.py:33-36 | the array afterwards holds its old contents divided by their maximum |
| `PartialOt.BuildCostMatrix` | geot/partialot.py:25-36 | the new array holds the matrix `ExtendedCostMatrix` describes |
| `PartialOt.PartialOT.constructor` | geot/partialot.py:8-48 | with the defaults of lines 11-15, stores the two flags, the extended (and possibly normalised) matrix built by slice assignment in a new array, and the selected backend |
| `PartialOt.Construct` | geot/partialot.py:8-48 | with the same defaults, construction fails exactly when the penalty or the normalisation cannot be computed, and otherwise yields an object as the constructor describes |
| `PartialOt.PartialOT.Call` | geot/partialot.py:50-73 | on an object as constructed, different batch sizes fail; on the exact path more than one row fails the assertion and the result is the exact solver on `ExactInputs`; otherwise it is the regularised solver on the balanced batch |
| `PartialOt.BalanceRow` | geot/partialot.py:52-58 | both vectors keep their entries and gain one sink entry; both sinks are non-negative and at most one is positive; both sums become max(Σa, Σb); equal sums give zero sinks; a = b gives equal extended vectors |
| `PartialOt.Balance` | geot/partialot.py:52-58 | a batch is balanced row by row, and batches of different sizes fail |
| `PartialOt.BalanceConservesMass` | geot/partialot.py:52-58 | every balanced row pair has equal sums, the larger of the two original sums |
| `PartialOt.ExactMarginals` | geot/partialot.py:64-69 | the two marginals have equal sums; with norm_sum_1 both sum to 1; otherwise b is unchanged, a is scaled to Σb, and a is unchanged when the sums already agree; zero sums give NaN |
| `PartialOt.ExactInputs` | geot/partialot.py:52-63 | different batch sizes fail first, then anything but exactly one row per side fails the assertion; one row pair gives the renormalised balanced row |
| `PartialOt.ExactInputsBalanced` | geot/partialot.py:52-69 | for one row pair with non-zero mass the exact solver receives two vectors one entry longer than the rows, with equal sums; without norm_sum_1 these are the balanced rows themselves |
| `PartialOt.IdenticalInputs` | geot/partialot.py:52-69 | identical inputs reach either solver as identical extended distributions |
| `PartialOt.PadLocations` | geot/partialot.py:83-90 | both lists have length max(len(pred), len(gt)), keep their own points first, and are padded with the import location |
| `PartialOt.UniformWeights` | geot/partialot.py:93-95 | new_len weights of 1/new_len each, summing to 1 |
| `PartialOt.OverrideAsWritten` | geot/partialot.py:100-103 | the override as the slices are written keeps the n×n shape; which cells it hits is stated by the three lemmas below |
| `PartialOt.OverrideWhenPredictionLonger` | geot/partialot.py:102-103 | for len_diff > 0 the as-written override puts φ on exactly the padded ground-truth columns |
| `PartialOt.OverrideWhenLengthsEqual` | geot/partialot.py:102-103 | for len_diff = 0 the as-written override puts φ in every cell |
| `PartialOt.OverrideWhenPredictionShorter` | geot/partialot.py:100-101 | for len_diff < 0 the as-written override puts φ on the rows from index abs(len_diff) on and keeps the rest |
| `PartialOt.EqualLengthsCounterexample` | geot/partialot.py:102-103 | one predicted and one true point 5 m apart get the cost matrix [[0]] instead of [[5]] |
| `PartialOt.ShorterPredictionCounterexample` | geot/partialot.py:100-101 | a real prediction row is overwritten (3 against 4 points) and a padded row is not (1 against 3 points) |
| `PartialOt.OverrideIntended` | geot/partialot.py:97-103 | the corrected override keeps the shape of the cost matrix |
| `PartialOt.IntendedRelocationCost` | geot/partialot.py:97-103 | under the corrected override, a pair of real points costs their distance and any pair with a padded point costs φ |
| `PartialOt.RelocationCost` | geot/partialot.py:97-103 | a given cost matrix is used unchanged; otherwise the matrix is N′×N′ for N′ = max(len(pred), len(gt)), and when the prediction list is longer it equals the intended override |
| `PartialOt.TotalCost` | geot/partialot.py:106 | the cost of a non-negative plan under a non-negative cost matrix is non-negative |
| `PartialOt.PartialOtRelocation` | geot/partialot.py:81-112 | with the defaults of line 81, returns the plan exactly when return_matrix is set; the solver receives uniform weights and the given or overridden cost matrix; the scalar is the sum of plan ⊙ cost |

## Left out

- The solvers `wasserstein.EMD()`, `ot.emd` and `SinkhornLoss` are function parameters. Nothing is stated about their results, so the zero cost of identical inputs is not proved. The model only proves what they receive: equal sums, and vectors one entry longer than the input rows.
- `SinkhornLoss` is not imported in partialot.py. The model assumes the name is provided by the caller's environment.
- `PartialOt.PartialOT.Call`: the regularised solver's per-row output tensor is modelled as one `real`. Autodiff, `detach`, `.numpy()` and `astype(float)` are left out.
- `PartialOt.PartialOT.Call`: 1-D input tensors are not modelled. Inputs are 2-D batches, one `seq<real>` per row, and torch broadcasting between batch sizes is reduced to equal batch sizes (anything else fails in `torch.cat`).
- `PartialOt.PartialOT.constructor`: the source sets `self.cost_matrix` only on the exact path, where the regularised path passes the matrix to `SinkhornLoss`. The model always keeps it in `costMatrix` and hands it to the regularised solver on each call.
- Floating point: NaN and infinities are reported as `NotANumber` instead of being carried through the arithmetic. The renormalisation at partialot.py:69, which only corrects rounding, is exact here and leaves `a` unchanged.
- `PartialOt.PadLocations`: the padding at partialot.py:84-89 raises on every input with (n, 2) location arrays. `np.expand_dims(...).repeat(len_diff)` flattens the import location to a 1-D vector, and `repeat` raises for a negative `len_diff`. For len_diff ≥ 0, including 0, `np.concatenate` at line 89 joins a 2-D array with that 1-D vector and raises on the mismatch of dimensions. So as written `partial_ot_relocation` never reaches lines 93-112. The model uses what the padding evidently means, abs(len_diff) copies of the import location, and models the rest of the function on top of it.
- `Cost.SpaceCost`: `scale_function` receives the whole matrix in the source. The model accepts only elementwise functions, which covers the documented example `x**2`.
- `Cost.SpaceCost`: `cdist` (a Euclidean square root) is a parameter with the properties of `Cost.IsDistance`. A zero `speed_factor`, which numpy would turn into infinities or NaN, is excluded by a precondition rather than reported as `NotANumber`.
- `PartialOt.PartialOtRelocation`: the solver and the distance have no defaults, because they stand for calls into libraries. They are the last parameters and are passed by name after defaulted ones.
- `Cost.Waiting`: the waiting time grows with the distance between the slots, but that is not stated.
- `Cost.SpacetimeCostMatrix`: an empty N = 0 matrix returns the empty result at once. The source runs its loop over empty blocks, which gives the same result.
- `partial_ot_fixed_locations` is an empty stub with nothing to model. The argparse and collections imports of cost.py are unused.
- geot/plotting.py is visualisation only. tests/test_partial_ot.py only prints; its identical-inputs example is what `PartialOt.IdenticalInputs` states.

## Findings

| source | as written | input that shows it | evidently intended | confidence | as-written member | corrected member |
|---|---|---|---|---|---|---|
| geot/partialot.py:102-103 | `cost_matrix[:, -len_diff:] = import_cost_phi` with len_diff = 0 is `[:, 0:]`, which overwrites every column | once the padding at lines 84-89 is repaired as `PartialOt.PadLocations` does (as written it raises first, see Left out): one predicted and one true point 5 m apart get the cost matrix [[φ]], so the distance is φ whatever the points | no override when no point was padded | high, not executed | `PartialOt.EqualLengthsCounterexample` | `PartialOt.IntendedRelocationCost` |
| geot/partialot.py:100-101 | `cost_matrix[-len_diff:, :]` with len_diff < 0 overwrites the rows from abs(len_diff) on, but the padded prediction rows are the last abs(len_diff) | once the padding at lines 84-89 is repaired as `PartialOt.PadLocations` does (as written, line 84 raises first for len_diff < 0): 3 predicted and 4 true points: rows 1 to 3 get φ, and rows 1 and 2 are real predictions; 1 predicted and 3 true points: the padded row 1 keeps its distances | φ on the last abs(len_diff) rows, the padded ones, only | high, not executed | `PartialOt.ShorterPredictionCounterexample` | `PartialOt.IntendedRelocationCost` |

`PartialOt.PartialOtRelocation` keeps the slices as written, so on the repaired padding it models what the code computes. The corrected override is `PartialOt.OverrideIntended`. `PartialOt.OverrideWhenPredictionLonger` proves the two agree in the one case the code gets right, len_diff > 0.
