# Derivatives of contracted Cartesian Gaussians

A Dafny model of the evaluator in `gbasis/deriv.py`. It evaluates a
Cartesian derivative of every contracted Gaussian of a shell at every point
of a grid.

- The kernel `_eval_deriv_contractions` handles one primitive (exponent α,
  angular component (lx, ly, lz)) at one point, axis by axis, with
  Δ = r_a − c_a and g = exp(−α Δ²):
  - an axis whose order n is ≤ 0 contributes Δ^l g;
  - a differentiated axis contributes g times the Hermite expansion
    Σ_h C(n, h) P(l, n − h) (−√α)^h Δ^max(0, l − n + h) H_h(√α Δ).
    Two masks zero the terms with h < max(0, n − l) and the terms with
    h > n; h runs up to the largest order over all differentiated axes.
- The axis factors multiply. Each product is scaled by the normalisation
  constant norm[l][k] and contracted over the primitives against the
  coefficients. Segmented coefficients give an L × N array; generalized
  K × M coefficients give an M × L × N array.
- The entry point `eval_deriv_shell` checks its arguments in a fixed
  order, reshapes a single point into a one-row grid, and delegates to the
  kernel. `eval_shell` is the same call with orders (0, 0, 0).

Everything in `gbasis/deriv.py` is expression code without state, so the
model is made of datatypes, functions and lemmas.

- `special.dfy` (module `Special`): C(n, k), P(n, k), factorials and the
  physicists' Hermite polynomials, written as exact recurrences. They stand
  in for `scipy.special`. C and P are 0 outside 0 ≤ k ≤ n, as scipy's are.
- `deriv.dfy` (module `Deriv`): the kernel.
  - It is grouped as the source groups it: the no-derivative part, then the
    product of the Gaussians of the differentiated axes, then the product of
    their Hermite sums, then the contraction.
  - Real arithmetic replaces floating point.
  - `exp` and the square root are parameters (`Numerics`). Every lemma holds
    for any choice of them, unless its `requires` states what it needs, such
    as `sqrt(α)² = α`.
  - Products of per-axis factors are written with `Mul`, which is the
    ordinary product.
- `deriv_properties.dfy` (module `DerivProperties`): what the kernel
  guarantees.
  - The per-axis reference `AxisFactor`, the n-th derivative of Δ^l g
    written with the expansion.
  - The masks, the clamp and the truncation of the sum.
  - Closed forms of the first and second derivatives.
  - The factorisation of a primitive into one `AxisFactor` per axis.
  - Every entry as the contraction of the per-axis factored primitives.
  - Negative orders, zero orders, the additivity of the contraction, and the
    behaviour of grids and coefficient layouts.
- `deriv_shell.dfy` (module `DerivShell`): the two entry points.
  - numpy arrays are modelled by their shape and their row-major entries
    (`NdArray`), and Python exceptions by `Error` values.
  - Any value that is not an array is `NotAnArray`; any value that is not a
    shell is `NotAShell`.

## Model

| member | source | states |
|---|---|---|
| Special.Comb | gbasis/deriv.py:129 | comb(n, k) is positive exactly when 0 ≤ k ≤ n, and 0 otherwise |
| Special.Perm | gbasis/deriv.py:130 | perm(n, k) is positive exactly when 0 ≤ k ≤ n, and 0 otherwise |
| Special.PermFactorial | gbasis/deriv.py:130 | the falling-factorial recurrence for perm agrees with n! / (n − k)! |
| Special.CombFactorial | gbasis/deriv.py:129 | Pascal's rule for comb agrees with C(n, k) · k! = n! / (n − k)! |
| Special.HermiteOddAtZero | gbasis/deriv.py:145 | every odd Hermite polynomial vanishes at 0 |
| Deriv.MaxOrder | gbasis/deriv.py:120 | the Hermite index range ends at the largest order of the differentiated axes: every order is at most it, and it is attained when positive |
| Deriv.ContractionBlock | gbasis/deriv.py:153-154 | one coefficient vector gives an L × N array |
| Deriv.EvalDerivContractions | gbasis/deriv.py:12-154 | segmented coefficients give an L × N matrix, and K × M coefficients give an M × L × N tensor |
| DerivProperties.MasksMatchVanishingCoefficients | gbasis/deriv.py:128-138 | a term is masked exactly when C(n, h) · P(l, n − h) is 0, so the masks change nothing in exact arithmetic |
| DerivProperties.LowTermsVanish | gbasis/deriv.py:130-136 | terms with h < max(0, n − l) contribute 0, and P(l, n − h) is 0 there |
| DerivProperties.ClampOnlyInMaskedTerms | gbasis/deriv.py:125-126 | the clamped power of Δ differs from l − n + h only in terms the first mask zeroes |
| DerivProperties.SumTruncation | gbasis/deriv.py:120-138 | summing up to any larger maximum order gives the axis's own sum over h = 0..n |
| DerivProperties.GaussianDerivative | gbasis/deriv.py:128-146 | for l = 0 the expansion collapses to (−√α)^n H_n(√α Δ) g |
| DerivProperties.FirstDerivativeClosedForm | gbasis/deriv.py:128-146 | for n = 1 and s² = α the axis factor is l Δ^(l−1) g − 2α Δ^(l+1) g, which is −2α Δ g when l = 0 |
| DerivProperties.SecondDerivativeOfGaussian | gbasis/deriv.py:128-146 | for l = 0, n = 2 the axis factor is (4α² Δ² − 2α) g |
| DerivProperties.OddDerivativeVanishesAtCenter | gbasis/deriv.py:144-145 | an odd-order derivative of the s-type axis factor is 0 at Δ = 0 |
| DerivProperties.AxisPieces | gbasis/deriv.py:95-151 | an axis's no-derivative piece, Gaussian and Hermite sum multiply to its AxisFactor; an undifferentiated axis's piece is that factor alone |
| DerivProperties.PrimitiveFactorsByAxis | gbasis/deriv.py:94-151 | the kernel's grouping of a primitive equals the product of one AxisFactor per axis |
| DerivProperties.ZeroOrderIsPlainGaussian | gbasis/deriv.py:101-115 | with no positive order, deriv_part stays 1 and a primitive is the plain Π Δ_a^l_a g_a |
| DerivProperties.SPrimitiveFirstDerivative | gbasis/deriv.py:128-151 | the x-derivative of an s-type primitive is −2α Δx gx gy gz |
| DerivProperties.ClampAxis | gbasis/deriv.py:95-110 | a negative order routes its axis exactly as order 0 does, and the Hermite range is unchanged |
| DerivProperties.ClampPrimitive | gbasis/deriv.py:95-151 | replacing the negative orders by 0 leaves every primitive value unchanged |
| DerivProperties.NegativeOrdersAsZero | gbasis/deriv.py:95-101 | the whole evaluation with negative orders equals the one with those orders set to 0 |
| DerivProperties.ZeroOrderContraction | gbasis/deriv.py:101-154 | with no positive order an entry is Σ_k coeff_k · norm[l][k] · (plain Cartesian Gaussian) |
| DerivProperties.ZeroOrderEvaluation | gbasis/deriv.py:94-154 | the same, for every entry of both coefficient layouts |
| DerivProperties.SumAdd | gbasis/deriv.py:154 | the contraction's sum is additive |
| DerivProperties.ContractionAdditive | gbasis/deriv.py:153-154 | one entry is additive in the coefficients: the entry for w1 + w2 is the sum of the entries for w1 and w2 |
| DerivProperties.EntryFactorsByAxis | gbasis/deriv.py:94-154 | for any orders, an entry is Σ_k coeff_k · norm[l][k] · (product of the three AxisFactors of primitive k) |
| DerivProperties.EvaluationFactorsByAxis | gbasis/deriv.py:12-154 | the same, for every entry of both coefficient layouts and any orders |
| DerivProperties.CoefficientLinearity | gbasis/deriv.py:153-154 | the evaluation for the sum of two coefficient vectors is the entrywise sum of the evaluations |
| DerivProperties.SegmentedIsOneColumn | gbasis/deriv.py:31-51 | a length-K coefficient vector evaluates as the K × 1 matrix holding it, minus the leading axis |
| DerivProperties.GridConcatenation | gbasis/deriv.py:79-81 | splitting the grid splits every output row the same way, so each point is evaluated on its own |
| DerivShell.Reshaped | gbasis/deriv.py:195-196 | a 1-D array of 3 entries becomes one 1 × 3 row with the same entries; the result is an N × 3 grid exactly when the input is accepted |
| DerivShell.Points | gbasis/deriv.py:197-200 | row p of an N × 3 grid is entries 3p .. 3p + 2 |
| DerivShell.EvalDerivShell | gbasis/deriv.py:193-216 | the errors in check order (TypeError for coords, ValueError for coords, TypeError for orders, ValueError for orders, TypeError for the shell), with the source's messages; success exactly when all checks pass, with the L × N or M × L × N shape |
| DerivShell.EvalShell | gbasis/deriv.py:219-250 | only the coordinate checks can fail, as in eval_deriv_shell; on success the output has the documented shape |
| DerivShell.SinglePointIsOneRowGrid | gbasis/deriv.py:195-196 | a single point and the one-row grid holding it give the same result |
| DerivShell.PointsEvaluatedIndependently | gbasis/deriv.py:193-216 | column p of a grid's result is the result at row p alone |
| DerivShell.EvalShellIsPlainContraction | gbasis/deriv.py:250 | eval_shell's entries are the contracted plain Cartesian Gaussians |
| DerivShell.EvalShellIsNonPositiveOrders | gbasis/deriv.py:250 | eval_shell equals eval_deriv_shell with orders (0, 0, 0), or with any orders none of which is positive |
| DerivShell.SFunctionFirstDerivative | gbasis/deriv.py:157-216 | worked case: an s-type primitive with α = 1 has x-derivative −2 c · nrm · e⁻¹ at (1, 0, 0), and 0 at its center |

## Left out

- Floating point. The model is exact real arithmetic, so rounding,
  overflow and NaN are not modelled.
- `np.exp` and `alphas ** 0.5` are parameters of the model (`Numerics`).
  Lemmas that need `sqrt(α)² = α` or `exp(0) = 1` state it as a
  precondition.
- That the Hermite expansion is the n-th derivative of Δ^l g. This is a
  calculus fact. Only its algebraic consequences are proved: the closed
  forms, the zero-order reduction and the vanishing terms.
- The numpy broadcasting layout (`gbasis/deriv.py:79-87`, `112`). It is
  replaced by explicit indices over primitive, axis, component and point.
- The internals of `ContractedCartesianGaussians` (`gbasis/contractions`).
  It is not part of this model. A shell is the record `Shell` of the five
  attributes read at `gbasis/deriv.py:211-215`. Its shape guarantees
  (`ShellShapes`) are a precondition, because the kernel does not check
  shapes (`gbasis/deriv.py:55-56`).
- Keyword-only argument enforcement (`gbasis/deriv.py:157`, `219`), and the
  note about the performance of 1-D versus 2-D coefficients.
- Element types of the arrays. Coordinates are reals and orders are
  integers. `eval_shell` passes `np.zeros`, float zeros, which are the same
  values as the integer zeros used here. `eval_deriv_shell` checks only
  that its arguments are numpy arrays and never checks the element type,
  so the model does not either.
- `EvalShell`: it takes a genuine shell, so calling `eval_shell` with
  anything else is not modelled. Line 250 of `gbasis/deriv.py` reads
  `shell.coord.shape` without checking the type of `shell`:
  - a value with no `coord` attribute, or whose `coord` has no `shape`,
    raises an AttributeError before any check runs;
  - otherwise `eval_deriv_shell` runs with `orders = np.zeros(coord.shape)`.
    The coordinate checks come first (lines 193-200). Then a `coord` whose
    shape is not (3,) raises the orders ValueError (lines 203-207), and a
    (3,)-shaped one raises the shell TypeError (lines 208-209).
- Negative angular-momentum entries are excluded by the type `Component`.
  They are undefined input for the kernel.
- `tests/test_libcint.py`. It compares against a foreign integral library
  and data files that are not part of this model.
