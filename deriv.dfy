/** The kernel of gbasis/deriv.py: the value, at each point of a grid, of a
    Cartesian derivative of every contracted Gaussian of a shell.

    For a primitive with exponent alpha, an angular component (lx, ly, lz) and
    a point r, each axis a contributes a factor built from d = r_a - c_a and
    g = exp(-alpha d^2): d^l g on an axis whose order n is <= 0, and otherwise
    g times a sum over h of C(n, h) P(l, n - h) (-sqrt alpha)^h d^(l - n + h)
    H_h(sqrt alpha d), the n-th derivative of d^l g written with Hermite
    polynomials. The factors of the three axes multiply; the products are
    scaled by the primitive normalisation and contracted over the primitives.

    Floating point is replaced by real arithmetic, and exp and the square
    root are taken as parameters (Numerics), so that every statement below is
    about the algebraic structure of the kernel and holds for any choice of
    them unless a lemma says otherwise. */
module Deriv {
  import opened Special

  type Vec3 = v: seq<real> | |v| == 3 witness [0.0, 0.0, 0.0]

  /** Derivative order per axis; negative entries are allowed and mean order 0. */
  type Orders = v: seq<int> | |v| == 3 witness [0, 0, 0]

  /** One Cartesian angular-momentum component (lx, ly, lz). */
  type Component = v: seq<nat> | |v| == 3 witness [0, 0, 0]

  /** Contraction coefficients: a vector of length K (segmented) or a K x M
      matrix (generalized); the column count is kept so that a matrix with no
      rows still has a shape. */
  datatype Coefficients =
    | Segmented(weights: seq<real>)
    | Generalized(columns: nat, rows: seq<seq<real>>)

  /** The evaluated derivative: L x N for segmented coefficients, M x L x N for
      generalized ones. */
  datatype Evaluation =
    | Matrix(matrix: seq<seq<real>>)
    | Tensor(tensor: seq<seq<seq<real>>>)

  /** The transcendental functions the kernel calls: numpy's exp, and the
      power 0.5 applied to the exponents. */
  datatype Numerics = Numerics(exp: real -> real, sqrt: real -> real)

  /** The shapes the kernel assumes of its arguments without checking them:
      K exponents, K coefficient rows (each of M entries), and an L x K table
      of normalisation constants, one row per angular component. */
  predicate ConsistentShapes(comps: seq<Component>, alphas: seq<real>, coeffs: Coefficients,
                             norm: seq<seq<real>>)
  {
    && |norm| == |comps|
    && (forall l :: 0 <= l < |norm| ==> |norm[l]| == |alphas|)
    && match coeffs
       case Segmented(w) => |w| == |alphas|
       case Generalized(m, rows) =>
         |rows| == |alphas| && forall k :: 0 <= k < |rows| ==> |rows[k]| == m
  }

  function Max(a: int, b: int): int { if a < b then b else a }

  /** The product of two reals. The kernel's products of per-axis factors are
      written with it, so that lemmas about how those factors are grouped can
      compare the factors themselves; its body keeps it the ordinary product. */
  function Mul(x: real, y: real): real { x * y }

  /** The unnormalised one-dimensional Gaussian exp(-alpha d^2). */
  function Gauss(num: Numerics, alpha: real, d: real): real
  {
    num.exp(-alpha * (d * d))
  }

  /** Does any axis carry a positive order (the derivative branch is taken)? */
  predicate AnyDerivative(orders: Orders)
  {
    orders[0] > 0 || orders[1] > 0 || orders[2] > 0
  }

  /** The largest order over the differentiated axes, which fixes how many
      Hermite terms are formed on every such axis; 0 when there is none. */
  function MaxOrder(orders: Orders): (r: nat)
    ensures forall a :: 0 <= a < 3 ==> orders[a] <= r
    ensures r > 0 ==> exists a :: 0 <= a < 3 && orders[a] == r
  {
    Max(Max(Max(0, orders[0]), orders[1]), orders[2])
  }

  // ---------------------------------------------------------------------
  // One axis of the Hermite expansion

  /** The power of d in term h, with the negative values clamped to 0. */
  function PowerIndex(l: nat, n: nat, h: nat): nat
  {
    if l - n + h < 0 then 0 else l - n + h
  }

  /** First zero mask: terms below max(0, n - l). */
  predicate BelowAngmomRange(n: nat, l: nat, h: nat)
  {
    h < Max(0, n - l)
  }

  /** Second zero mask: terms beyond this axis's own order. */
  predicate BeyondOrder(n: nat, h: nat)
  {
    n < h
  }

  /** The coefficient of H_h in the expansion on an axis of order n and
      angular momentum l, after both zero masks. */
  function TermCoeff(n: nat, l: nat, h: nat, s: real, d: real): real
  {
    if BelowAngmomRange(n, l, h) then 0.0
    else if BeyondOrder(n, h) then 0.0
    else Comb(n, h) as real * Perm(l, n - h) as real * Pow(-s, h) * Pow(d, PowerIndex(l, n, h))
  }

  function HermiteTerm(n: nat, l: nat, h: nat, s: real, d: real): real
  {
    TermCoeff(n, l, h, s, d) * Hermite(h, s * d)
  }

  /** The sum of the terms h = 0 .. count - 1. */
  function HermiteSum(n: nat, l: nat, s: real, d: real, count: nat): real
  {
    if count == 0 then 0.0
    else HermiteSum(n, l, s, d, count - 1) + HermiteTerm(n, l, count - 1, s, d)
  }

  // ---------------------------------------------------------------------
  // One primitive at one point, as the kernel groups it

  function Rel(point: Vec3, center: Vec3, a: nat): real
    requires a < 3
  {
    point[a] - center[a]
  }

  /** Factor of axis a in the no-derivative product: d^l g when the axis is
      not differentiated, 1 when it is left to the derivative part. */
  function ZerothAxis(point: Vec3, orders: Orders, center: Vec3, comp: Component, alpha: real,
                      num: Numerics, a: nat): real
    requires a < 3
  {
    var d := Rel(point, center, a);
    if orders[a] <= 0 then Mul(Pow(d, comp[a]), Gauss(num, alpha, d)) else 1.0
  }

  function GaussAxis(point: Vec3, orders: Orders, center: Vec3, alpha: real, num: Numerics,
                     a: nat): real
    requires a < 3
  {
    if orders[a] > 0 then Gauss(num, alpha, Rel(point, center, a)) else 1.0
  }

  function HermiteAxis(point: Vec3, orders: Orders, center: Vec3, comp: Component, alpha: real,
                       num: Numerics, a: nat): real
    requires a < 3
  {
    if orders[a] > 0
    then HermiteSum(orders[a], comp[a], num.sqrt(alpha), Rel(point, center, a), MaxOrder(orders) + 1)
    else 1.0
  }

  function ZerothPart(point: Vec3, orders: Orders, center: Vec3, comp: Component, alpha: real,
                      num: Numerics): real
  {
    Mul(Mul(ZerothAxis(point, orders, center, comp, alpha, num, 0),
            ZerothAxis(point, orders, center, comp, alpha, num, 1)),
        ZerothAxis(point, orders, center, comp, alpha, num, 2))
  }

  /** Product of the Gaussians of the differentiated axes. */
  function GaussProduct(point: Vec3, orders: Orders, center: Vec3, alpha: real, num: Numerics): real
  {
    Mul(Mul(GaussAxis(point, orders, center, alpha, num, 0),
            GaussAxis(point, orders, center, alpha, num, 1)),
        GaussAxis(point, orders, center, alpha, num, 2))
  }

  /** Product of the Hermite sums of the differentiated axes. */
  function HermiteProduct(point: Vec3, orders: Orders, center: Vec3, comp: Component, alpha: real,
                          num: Numerics): real
  {
    Mul(Mul(HermiteAxis(point, orders, center, comp, alpha, num, 0),
            HermiteAxis(point, orders, center, comp, alpha, num, 1)),
        HermiteAxis(point, orders, center, comp, alpha, num, 2))
  }

  /** The derivative part: 1 when no axis is differentiated, otherwise the
      Gaussians of the differentiated axes times their Hermite sums. */
  function DerivPart(point: Vec3, orders: Orders, center: Vec3, comp: Component, alpha: real,
                     num: Numerics): real
  {
    if !AnyDerivative(orders) then 1.0
    else Mul(GaussProduct(point, orders, center, alpha, num), HermiteProduct(point, orders, center, comp, alpha, num))
  }

  function PrimitiveValue(point: Vec3, orders: Orders, center: Vec3, comp: Component, alpha: real,
                          num: Numerics): real
  {
    Mul(ZerothPart(point, orders, center, comp, alpha, num), DerivPart(point, orders, center, comp, alpha, num))
  }

  // ---------------------------------------------------------------------
  // Contraction over the primitives and the output array

  function Sum(xs: seq<real>): real
  {
    if xs == [] then 0.0 else Sum(xs[..|xs| - 1]) + xs[|xs| - 1]
  }

  /** One entry of the output: the coefficient-weighted sum, over the
      primitives k, of norm[l][k] times the primitive's value. */
  function Contracted(weights: seq<real>, normRow: seq<real>, point: Vec3, orders: Orders,
                      center: Vec3, comp: Component, alphas: seq<real>, num: Numerics): real
    requires |weights| == |alphas| && |normRow| == |alphas|
  {
    Sum(seq(|alphas|, k requires 0 <= k < |alphas| =>
      Mul(weights[k], Mul(normRow[k], PrimitiveValue(point, orders, center, comp, alphas[k], num)))))
  }

  function Column(rows: seq<seq<real>>, m: nat, j: nat): (c: seq<real>)
    requires j < m && forall k :: 0 <= k < |rows| ==> |rows[k]| == m
    ensures |c| == |rows| && forall k :: 0 <= k < |rows| ==> c[k] == rows[k][j]
  {
    seq(|rows|, k requires 0 <= k < |rows| => rows[k][j])
  }

  /** The evaluation of one set of coefficients for every angular component
      and every point: an L x N array. */
  function ContractionBlock(weights: seq<real>, coords: seq<Vec3>, orders: Orders, center: Vec3,
                            comps: seq<Component>, alphas: seq<real>, norm: seq<seq<real>>,
                            num: Numerics): (r: seq<seq<real>>)
    requires |weights| == |alphas| && |norm| == |comps|
    requires forall l :: 0 <= l < |norm| ==> |norm[l]| == |alphas|
    ensures |r| == |comps| && forall l :: 0 <= l < |r| ==> |r[l]| == |coords|
  {
    seq(|comps|, l requires 0 <= l < |comps| =>
      seq(|coords|, p requires 0 <= p < |coords| =>
        Contracted(weights, norm[l], coords[p], orders, center, comps[l], alphas, num)))
  }

  /** _eval_deriv_contractions: the derivative of the given orders of every
      contraction, for every angular component, at every point. */
  function EvalDerivContractions(coords: seq<Vec3>, orders: Orders, center: Vec3,
                                 comps: seq<Component>, alphas: seq<real>, coeffs: Coefficients,
                                 norm: seq<seq<real>>, num: Numerics): (r: Evaluation)
    requires ConsistentShapes(comps, alphas, coeffs, norm)
    ensures coeffs.Segmented? ==>
      && r.Matrix?
      && |r.matrix| == |comps|
      && forall l :: 0 <= l < |comps| ==> |r.matrix[l]| == |coords|
    ensures coeffs.Generalized? ==>
      && r.Tensor?
      && |r.tensor| == coeffs.columns
      && forall j :: 0 <= j < coeffs.columns ==>
           && |r.tensor[j]| == |comps|
           && forall l :: 0 <= l < |comps| ==> |r.tensor[j][l]| == |coords|
  {
    match coeffs
    case Segmented(w) => Matrix(ContractionBlock(w, coords, orders, center, comps, alphas, norm, num))
    case Generalized(m, rows) =>
      Tensor(seq(m, j requires 0 <= j < m =>
        ContractionBlock(Column(rows, m, j), coords, orders, center, comps, alphas, norm, num)))
  }
}
