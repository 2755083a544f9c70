/** What the kernel of gbasis/deriv.py guarantees: the routing of the axes,
    the two zero masks and the exponent clamp of the Hermite expansion, the
    closed forms the expansion reduces to, the factorisation of a primitive
    into one factor per axis, and the shape and grid behaviour of the output. */
module DerivProperties {
  import opened Special
  import opened Deriv

  // ---------------------------------------------------------------------
  // The per-axis reference: the n-th derivative of d^l g along one axis

  /** The factor one axis contributes to a primitive, summing the Hermite
      expansion over its own order only: d^l g for n <= 0, and
      g * sum_(h = 0 .. n) of the masked terms otherwise. */
  function AxisFactor(n: int, l: nat, s: real, d: real, g: real): real
  {
    if n <= 0 then Mul(Pow(d, l), g) else Mul(g, HermiteSum(n, l, s, d, n + 1))
  }

  /** The plain (underived) Cartesian Gaussian of one primitive:
      the product over the axes of d^l exp(-alpha d^2). */
  function CartesianGaussian(point: Vec3, center: Vec3, comp: Component, alpha: real,
                             num: Numerics): real
  {
    var dx, dy, dz := Rel(point, center, 0), Rel(point, center, 1), Rel(point, center, 2);
    Mul(Mul(Mul(Pow(dx, comp[0]), Gauss(num, alpha, dx)),
            Mul(Pow(dy, comp[1]), Gauss(num, alpha, dy))),
        Mul(Pow(dz, comp[2]), Gauss(num, alpha, dz)))
  }

  /** Orders with the negative entries replaced by 0. */
  function ClampOrders(orders: Orders): Orders
  {
    [Max(0, orders[0]), Max(0, orders[1]), Max(0, orders[2])]
  }

  // ---------------------------------------------------------------------
  // The terms of the Hermite expansion

  /** The two zero masks remove exactly the terms whose combinatorial
      coefficient C(n, h) P(l, n - h) vanishes: the masked terms would be 0
      in exact arithmetic, and no unmasked term is. */
  lemma MasksMatchVanishingCoefficients(n: nat, l: nat, h: nat)
    ensures BelowAngmomRange(n, l, h) || BeyondOrder(n, h)
        <==> Comb(n, h) * Perm(l, n - h) == 0
  {
    if Comb(n, h) > 0 && Perm(l, n - h) > 0 {
      assert Comb(n, h) * Perm(l, n - h) > 0;
    }
  }

  /** Terms below max(0, n - l) are zero, and so is P(l, n - h) there. */
  lemma LowTermsVanish(n: nat, l: nat, h: nat, s: real, d: real)
    requires h < Max(0, n - l)
    ensures HermiteTerm(n, l, h, s, d) == 0.0 && Perm(l, n - h) == 0
  {
  }

  /** The clamp on the power of d only ever changes a term the first mask
      has already zeroed: in every contributing term the power is the
      genuine l - n + h. */
  lemma ClampOnlyInMaskedTerms(n: nat, l: nat, h: nat)
    ensures !BelowAngmomRange(n, l, h) ==> PowerIndex(l, n, h) == l - n + h
    ensures PowerIndex(l, n, h) != l - n + h ==> BelowAngmomRange(n, l, h)
  {
  }

  /** The terms beyond an axis's own order are zero, so summing up to the
      largest order of all differentiated axes gives the axis's own sum. */
  lemma {:induction false} SumTruncation(n: nat, l: nat, s: real, d: real, top: nat)
    requires n <= top
    ensures HermiteSum(n, l, s, d, top + 1) == HermiteSum(n, l, s, d, n + 1)
  {
    if n < top {
      SumTruncation(n, l, s, d, top - 1);
      assert TermCoeff(n, l, top, s, d) == 0.0;
    }
  }

  // ---------------------------------------------------------------------
  // Closed forms of the expansion

  lemma {:induction false} GaussianLowSum(n: nat, s: real, d: real, count: nat)
    requires count <= n
    ensures HermiteSum(n, 0, s, d, count) == 0.0
  {
    if count > 0 {
      GaussianLowSum(n, s, d, count - 1);
      assert BelowAngmomRange(n, 0, count - 1);
    }
  }

  /** With l = 0 the expansion collapses to its last term: the n-th
      derivative of exp(-alpha d^2) is (-sqrt alpha)^n H_n(sqrt alpha d) times
      the Gaussian. */
  lemma GaussianDerivative(n: nat, s: real, d: real, g: real)
    requires n >= 1
    ensures AxisFactor(n, 0, s, d, g) == Pow(-s, n) * Hermite(n, s * d) * g
  {
    GaussianLowSum(n, s, d, n);
    assert Comb(n, n) == 1 && Perm(0, 0) == 1 && PowerIndex(0, n, n) == 0;
    assert TermCoeff(n, 0, n, s, d) == Pow(-s, n);
  }

  /** The first derivative of d^l exp(-alpha d^2): l d^(l-1) g - 2 alpha d^(l+1) g,
      which for l = 0 is -2 alpha d g. */
  lemma FirstDerivativeClosedForm(l: nat, alpha: real, s: real, d: real, g: real)
    requires s * s == alpha
    ensures AxisFactor(1, l, s, d, g)
         == (if l == 0 then 0.0 else l as real * Pow(d, l - 1)) * g - 2.0 * alpha * Pow(d, l + 1) * g
  {
    var t0 := if l == 0 then 0.0 else l as real * Pow(d, l - 1);
    FirstOrderTerms(l, alpha, s, d);
    assert HermiteSum(1, l, s, d, 1) == HermiteTerm(1, l, 0, s, d);
    assert HermiteSum(1, l, s, d, 2) == HermiteTerm(1, l, 0, s, d) + HermiteTerm(1, l, 1, s, d);
    DistributeGauss(t0, 2.0 * alpha * Pow(d, l + 1), g);
  }

  lemma DistributeGauss(a: real, b: real, g: real)
    ensures (a - b) * g == a * g - b * g
  {
  }

  /** The two terms of a first-order expansion. */
  lemma FirstOrderTerms(l: nat, alpha: real, s: real, d: real)
    requires s * s == alpha
    ensures HermiteTerm(1, l, 0, s, d) == if l == 0 then 0.0 else l as real * Pow(d, l - 1)
    ensures HermiteTerm(1, l, 1, s, d) == -(2.0 * alpha * Pow(d, l + 1))
  {
    if l > 0 {
      assert Perm(l, 1) == l;
      assert PowerIndex(l, 1, 0) == l - 1;
      assert TermCoeff(1, l, 0, s, d) == l as real * Pow(d, l - 1);
    }
    assert Pow(-s, 1) == -s;
    assert TermCoeff(1, l, 1, s, d) == -s * Pow(d, l);
    assert Hermite(1, s * d) == 2.0 * (s * d);
    assert Pow(d, l + 1) == d * Pow(d, l);
    TermProduct(s, d, Pow(d, l), alpha);
  }

  lemma TermProduct(s: real, d: real, p: real, alpha: real)
    requires s * s == alpha
    ensures (-s * p) * (2.0 * (s * d)) == -(2.0 * alpha * (d * p))
  {
    calc {
      (-s * p) * (2.0 * (s * d));
      -(2.0 * (s * s) * (d * p));
      -(2.0 * alpha * (d * p));
    }
  }

  /** The second derivative of exp(-alpha d^2) is (4 alpha^2 d^2 - 2 alpha) g. */
  lemma SecondDerivativeOfGaussian(alpha: real, s: real, d: real, g: real)
    requires s * s == alpha
    ensures AxisFactor(2, 0, s, d, g) == (4.0 * alpha * alpha * d * d - 2.0 * alpha) * g
  {
    GaussianDerivative(2, s, d, g);
    assert Pow(-s, 1) == -s * 1.0;
    assert Pow(-s, 2) == -s * (-s * 1.0);
    assert Hermite(2, s * d) == 2.0 * (s * d) * (2.0 * (s * d)) - 2.0 * 1.0;
    SecondOrderProduct(alpha, s, d, g);
  }

  lemma SecondOrderProduct(alpha: real, s: real, d: real, g: real)
    requires s * s == alpha
    ensures -s * (-s * 1.0) * (2.0 * (s * d) * (2.0 * (s * d)) - 2.0 * 1.0) * g
         == (4.0 * alpha * alpha * d * d - 2.0 * alpha) * g
  {
    calc {
      -s * (-s * 1.0) * (2.0 * (s * d) * (2.0 * (s * d)) - 2.0 * 1.0) * g;
      (s * s) * (4.0 * (s * s) * (d * d) - 2.0) * g;
      alpha * (4.0 * alpha * (d * d) - 2.0) * g;
      (4.0 * alpha * alpha * d * d - 2.0 * alpha) * g;
    }
  }

  /** A derivative of odd order of exp(-alpha d^2) vanishes at the center. */
  lemma OddDerivativeVanishesAtCenter(n: nat, s: real, g: real)
    requires n % 2 == 1
    ensures AxisFactor(n, 0, s, 0.0, g) == 0.0
  {
    GaussianDerivative(n, s, 0.0, g);
    HermiteOddAtZero(n);
  }

  // ---------------------------------------------------------------------
  // One primitive

  /** Regrouping the kernel's product into one factor per axis, on plain values. */
  lemma Regroup(z0: real, z1: real, z2: real, g0: real, g1: real, g2: real,
                h0: real, h1: real, h2: real)
    ensures Mul(Mul(Mul(z0, z1), z2), Mul(Mul(Mul(g0, g1), g2), Mul(Mul(h0, h1), h2)))
         == Mul(Mul(Mul(z0, Mul(g0, h0)), Mul(z1, Mul(g1, h1))), Mul(z2, Mul(g2, h2)))
  {
    calc {
      Mul(Mul(Mul(z0, z1), z2), Mul(Mul(Mul(g0, g1), g2), Mul(Mul(h0, h1), h2)));
      (z0 * z1 * z2) * ((g0 * g1 * g2) * (h0 * h1 * h2));
      (z0 * (g0 * h0)) * (z1 * (g1 * h1)) * (z2 * (g2 * h2));
      Mul(Mul(Mul(z0, Mul(g0, h0)), Mul(z1, Mul(g1, h1))), Mul(z2, Mul(g2, h2)));
    }
  }

  /** Each axis's three pieces (no-derivative factor, Gaussian, Hermite sum)
      multiply to its AxisFactor, and on an undifferentiated axis the first
      piece alone is the AxisFactor. */
  lemma AxisPieces(point: Vec3, orders: Orders, center: Vec3, comp: Component, alpha: real,
                   num: Numerics, a: nat)
    requires a < 3
    ensures
      var d := Rel(point, center, a);
      Mul(ZerothAxis(point, orders, center, comp, alpha, num, a),
          Mul(GaussAxis(point, orders, center, alpha, num, a),
              HermiteAxis(point, orders, center, comp, alpha, num, a)))
      == AxisFactor(orders[a], comp[a], num.sqrt(alpha), d, Gauss(num, alpha, d))
    ensures
      var d := Rel(point, center, a);
      orders[a] <= 0 ==>
        ZerothAxis(point, orders, center, comp, alpha, num, a)
        == AxisFactor(orders[a], comp[a], num.sqrt(alpha), d, Gauss(num, alpha, d))
  {
    var d := Rel(point, center, a);
    if orders[a] > 0 {
      SumTruncation(orders[a], comp[a], num.sqrt(alpha), d, MaxOrder(orders));
    }
  }

  /** The kernel's grouping (undifferentiated axes, then all Gaussians of the
      differentiated axes, then all their Hermite sums) is the product of one
      AxisFactor per axis. */
  lemma PrimitiveFactorsByAxis(point: Vec3, orders: Orders, center: Vec3, comp: Component,
                               alpha: real, num: Numerics)
    ensures
      var s := num.sqrt(alpha);
      var dx, dy, dz := Rel(point, center, 0), Rel(point, center, 1), Rel(point, center, 2);
      PrimitiveValue(point, orders, center, comp, alpha, num)
      == Mul(Mul(AxisFactor(orders[0], comp[0], s, dx, Gauss(num, alpha, dx)),
                 AxisFactor(orders[1], comp[1], s, dy, Gauss(num, alpha, dy))),
             AxisFactor(orders[2], comp[2], s, dz, Gauss(num, alpha, dz)))
  {
    AxisPieces(point, orders, center, comp, alpha, num, 0);
    AxisPieces(point, orders, center, comp, alpha, num, 1);
    AxisPieces(point, orders, center, comp, alpha, num, 2);
    var z0, z1, z2 := ZerothAxis(point, orders, center, comp, alpha, num, 0),
      ZerothAxis(point, orders, center, comp, alpha, num, 1), ZerothAxis(point, orders, center, comp, alpha, num, 2);
    if AnyDerivative(orders) {
      Regroup(z0, z1, z2,
        GaussAxis(point, orders, center, alpha, num, 0),
        GaussAxis(point, orders, center, alpha, num, 1),
        GaussAxis(point, orders, center, alpha, num, 2),
        HermiteAxis(point, orders, center, comp, alpha, num, 0),
        HermiteAxis(point, orders, center, comp, alpha, num, 1),
        HermiteAxis(point, orders, center, comp, alpha, num, 2));
    } else {
      assert PrimitiveValue(point, orders, center, comp, alpha, num) == Mul(Mul(Mul(z0, z1), z2), 1.0);
    }
  }

  /** With no positive order the derivative part stays 1 and a primitive is
      the plain Cartesian Gaussian. */
  lemma ZeroOrderIsPlainGaussian(point: Vec3, orders: Orders, center: Vec3, comp: Component,
                                 alpha: real, num: Numerics)
    requires !AnyDerivative(orders)
    ensures DerivPart(point, orders, center, comp, alpha, num) == 1.0
    ensures PrimitiveValue(point, orders, center, comp, alpha, num)
         == CartesianGaussian(point, center, comp, alpha, num)
  {
  }

  /** The first x-derivative of an s-type primitive is -2 alpha dx times the
      Gaussian. */
  lemma SPrimitiveFirstDerivative(point: Vec3, center: Vec3, alpha: real, num: Numerics)
    requires num.sqrt(alpha) * num.sqrt(alpha) == alpha
    ensures
      var dx, dy, dz := Rel(point, center, 0), Rel(point, center, 1), Rel(point, center, 2);
      PrimitiveValue(point, [1, 0, 0], center, [0, 0, 0], alpha, num)
      == -2.0 * alpha * dx * Gauss(num, alpha, dx) * Gauss(num, alpha, dy) * Gauss(num, alpha, dz)
  {
    var dx := Rel(point, center, 0);
    PrimitiveFactorsByAxis(point, [1, 0, 0], center, [0, 0, 0], alpha, num);
    FirstDerivativeClosedForm(0, alpha, num.sqrt(alpha), dx, Gauss(num, alpha, dx));
  }

  // ---------------------------------------------------------------------
  // Negative orders

  lemma ClampPrimitive(point: Vec3, orders: Orders, center: Vec3, comp: Component, alpha: real,
                       num: Numerics)
    ensures PrimitiveValue(point, orders, center, comp, alpha, num)
         == PrimitiveValue(point, ClampOrders(orders), center, comp, alpha, num)
  {
    var clamped := ClampOrders(orders);
    ClampAxis(point, orders, center, comp, alpha, num, 0);
    ClampAxis(point, orders, center, comp, alpha, num, 1);
    ClampAxis(point, orders, center, comp, alpha, num, 2);
    SameParts(point, orders, clamped, center, comp, alpha, num);
  }

  /** Two order vectors whose axes agree piece by piece give the same primitive. */
  lemma SameParts(point: Vec3, o1: Orders, o2: Orders, center: Vec3, comp: Component, alpha: real,
                  num: Numerics)
    requires AnyDerivative(o1) == AnyDerivative(o2)
    requires forall a :: 0 <= a < 3 ==>
      ZerothAxis(point, o1, center, comp, alpha, num, a) == ZerothAxis(point, o2, center, comp, alpha, num, a)
    requires forall a :: 0 <= a < 3 ==>
      GaussAxis(point, o1, center, alpha, num, a) == GaussAxis(point, o2, center, alpha, num, a)
    requires forall a :: 0 <= a < 3 ==>
      HermiteAxis(point, o1, center, comp, alpha, num, a) == HermiteAxis(point, o2, center, comp, alpha, num, a)
    ensures PrimitiveValue(point, o1, center, comp, alpha, num) == PrimitiveValue(point, o2, center, comp, alpha, num)
  {
    assert ZerothPart(point, o1, center, comp, alpha, num) == ZerothPart(point, o2, center, comp, alpha, num);
    assert DerivPart(point, o1, center, comp, alpha, num) == DerivPart(point, o2, center, comp, alpha, num);
  }

  lemma ClampAxis(point: Vec3, orders: Orders, center: Vec3, comp: Component, alpha: real,
                  num: Numerics, a: nat)
    requires a < 3
    ensures ZerothAxis(point, orders, center, comp, alpha, num, a)
         == ZerothAxis(point, ClampOrders(orders), center, comp, alpha, num, a)
    ensures GaussAxis(point, orders, center, alpha, num, a)
         == GaussAxis(point, ClampOrders(orders), center, alpha, num, a)
    ensures HermiteAxis(point, orders, center, comp, alpha, num, a)
         == HermiteAxis(point, ClampOrders(orders), center, comp, alpha, num, a)
  {
    assert MaxOrder(ClampOrders(orders)) == MaxOrder(orders);
  }

  lemma ClampBlock(weights: seq<real>, coords: seq<Vec3>, orders: Orders, center: Vec3,
                   comps: seq<Component>, alphas: seq<real>, norm: seq<seq<real>>, num: Numerics)
    requires |weights| == |alphas| && |norm| == |comps|
    requires forall l :: 0 <= l < |norm| ==> |norm[l]| == |alphas|
    ensures ContractionBlock(weights, coords, orders, center, comps, alphas, norm, num)
         == ContractionBlock(weights, coords, ClampOrders(orders), center, comps, alphas, norm, num)
  {
    var clamped := ClampOrders(orders);
    var b1 := ContractionBlock(weights, coords, orders, center, comps, alphas, norm, num);
    var b2 := ContractionBlock(weights, coords, clamped, center, comps, alphas, norm, num);
    forall l, p | 0 <= l < |comps| && 0 <= p < |coords|
      ensures b1[l][p] == b2[l][p]
    {
      var f1 := seq(|alphas|, k requires 0 <= k < |alphas| =>
        Mul(weights[k], Mul(norm[l][k], PrimitiveValue(coords[p], orders, center, comps[l], alphas[k], num))));
      var f2 := seq(|alphas|, k requires 0 <= k < |alphas| =>
        Mul(weights[k], Mul(norm[l][k], PrimitiveValue(coords[p], clamped, center, comps[l], alphas[k], num))));
      forall k | 0 <= k < |alphas| ensures f1[k] == f2[k] {
        ClampPrimitive(coords[p], orders, center, comps[l], alphas[k], num);
      }
      assert f1 == f2;
    }
    forall l | 0 <= l < |comps| ensures b1[l] == b2[l] {
    }
  }

  /** A negative order takes the no-derivative path exactly like order 0:
      the evaluation with the negative entries replaced by 0 is identical. */
  lemma NegativeOrdersAsZero(coords: seq<Vec3>, orders: Orders, center: Vec3,
                             comps: seq<Component>, alphas: seq<real>, coeffs: Coefficients,
                             norm: seq<seq<real>>, num: Numerics)
    requires ConsistentShapes(comps, alphas, coeffs, norm)
    ensures EvalDerivContractions(coords, orders, center, comps, alphas, coeffs, norm, num)
         == EvalDerivContractions(coords, ClampOrders(orders), center, comps, alphas, coeffs, norm, num)
  {
    match coeffs
    case Segmented(w) =>
      ClampBlock(w, coords, orders, center, comps, alphas, norm, num);
    case Generalized(m, rows) =>
      var t1 := EvalDerivContractions(coords, orders, center, comps, alphas, coeffs, norm, num).tensor;
      var t2 := EvalDerivContractions(coords, ClampOrders(orders), center, comps, alphas, coeffs, norm, num).tensor;
      forall j | 0 <= j < m ensures t1[j] == t2[j] {
        ClampBlock(Column(rows, m, j), coords, orders, center, comps, alphas, norm, num);
      }
  }

  // ---------------------------------------------------------------------
  // The contraction

  /** The reference for a zero-order entry: the coefficient-weighted sum over
      the primitives of norm[l][k] times the plain Cartesian Gaussian. */
  function PlainContracted(weights: seq<real>, normRow: seq<real>, point: Vec3, center: Vec3,
                           comp: Component, alphas: seq<real>, num: Numerics): real
    requires |weights| == |alphas| && |normRow| == |alphas|
  {
    Sum(seq(|alphas|, k requires 0 <= k < |alphas| =>
      Mul(weights[k], Mul(normRow[k], CartesianGaussian(point, center, comp, alphas[k], num)))))
  }

  lemma ZeroOrderContraction(weights: seq<real>, normRow: seq<real>, point: Vec3, orders: Orders,
                             center: Vec3, comp: Component, alphas: seq<real>, num: Numerics)
    requires |weights| == |alphas| && |normRow| == |alphas|
    requires !AnyDerivative(orders)
    ensures Contracted(weights, normRow, point, orders, center, comp, alphas, num)
         == PlainContracted(weights, normRow, point, center, comp, alphas, num)
  {
    var xs := seq(|alphas|, k requires 0 <= k < |alphas| =>
      Mul(weights[k], Mul(normRow[k], PrimitiveValue(point, orders, center, comp, alphas[k], num))));
    var ys := seq(|alphas|, k requires 0 <= k < |alphas| =>
      Mul(weights[k], Mul(normRow[k], CartesianGaussian(point, center, comp, alphas[k], num))));
    forall k | 0 <= k < |alphas| ensures xs[k] == ys[k] {
      ZeroOrderIsPlainGaussian(point, orders, center, comp, alphas[k], num);
    }
    assert xs == ys;
  }

  /** With no positive order the whole evaluation is the contraction of the
      plain Cartesian Gaussians, in either coefficient layout. */
  lemma ZeroOrderEvaluation(coords: seq<Vec3>, orders: Orders, center: Vec3,
                            comps: seq<Component>, alphas: seq<real>, coeffs: Coefficients,
                            norm: seq<seq<real>>, num: Numerics)
    requires ConsistentShapes(comps, alphas, coeffs, norm) && !AnyDerivative(orders)
    ensures
      var r := EvalDerivContractions(coords, orders, center, comps, alphas, coeffs, norm, num);
      match coeffs
      case Segmented(w) =>
        forall l, p :: 0 <= l < |comps| && 0 <= p < |coords| ==>
          r.matrix[l][p] == PlainContracted(w, norm[l], coords[p], center, comps[l], alphas, num)
      case Generalized(m, rows) =>
        forall j, l, p :: 0 <= j < m && 0 <= l < |comps| && 0 <= p < |coords| ==>
          r.tensor[j][l][p]
          == PlainContracted(Column(rows, m, j), norm[l], coords[p], center, comps[l], alphas, num)
  {
    match coeffs
    case Segmented(w) =>
      forall l, p | 0 <= l < |comps| && 0 <= p < |coords| {
        ZeroOrderContraction(w, norm[l], coords[p], orders, center, comps[l], alphas, num);
      }
    case Generalized(m, rows) =>
      forall j, l, p | 0 <= j < m && 0 <= l < |comps| && 0 <= p < |coords| {
        ZeroOrderContraction(Column(rows, m, j), norm[l], coords[p], orders, center, comps[l], alphas, num);
      }
  }

  /** The reference for a primitive at a point: the product of one
      AxisFactor per axis. */
  function FactoredPrimitive(point: Vec3, orders: Orders, center: Vec3, comp: Component, alpha: real,
                             num: Numerics): real
  {
    var s := num.sqrt(alpha);
    var dx, dy, dz := Rel(point, center, 0), Rel(point, center, 1), Rel(point, center, 2);
    Mul(Mul(AxisFactor(orders[0], comp[0], s, dx, Gauss(num, alpha, dx)),
            AxisFactor(orders[1], comp[1], s, dy, Gauss(num, alpha, dy))),
        AxisFactor(orders[2], comp[2], s, dz, Gauss(num, alpha, dz)))
  }

  /** The reference for an entry of any order: the coefficient-weighted sum
      over the primitives of norm[l][k] times the factored primitive. */
  function FactoredContracted(weights: seq<real>, normRow: seq<real>, point: Vec3, orders: Orders,
                              center: Vec3, comp: Component, alphas: seq<real>, num: Numerics): real
    requires |weights| == |alphas| && |normRow| == |alphas|
  {
    Sum(seq(|alphas|, k requires 0 <= k < |alphas| =>
      Mul(weights[k], Mul(normRow[k], FactoredPrimitive(point, orders, center, comp, alphas[k], num)))))
  }

  lemma EntryFactorsByAxis(weights: seq<real>, normRow: seq<real>, point: Vec3, orders: Orders,
                           center: Vec3, comp: Component, alphas: seq<real>, num: Numerics)
    requires |weights| == |alphas| && |normRow| == |alphas|
    ensures Contracted(weights, normRow, point, orders, center, comp, alphas, num)
         == FactoredContracted(weights, normRow, point, orders, center, comp, alphas, num)
  {
    var xs := seq(|alphas|, k requires 0 <= k < |alphas| =>
      Mul(weights[k], Mul(normRow[k], PrimitiveValue(point, orders, center, comp, alphas[k], num))));
    var ys := seq(|alphas|, k requires 0 <= k < |alphas| =>
      Mul(weights[k], Mul(normRow[k], FactoredPrimitive(point, orders, center, comp, alphas[k], num))));
    forall k | 0 <= k < |alphas| ensures xs[k] == ys[k] {
      PrimitiveFactorsByAxis(point, orders, center, comp, alphas[k], num);
    }
    assert xs == ys;
  }

  /** Every entry of the evaluation, for any orders and either coefficient
      layout, is the contraction of the per-axis factored primitives. */
  lemma EvaluationFactorsByAxis(coords: seq<Vec3>, orders: Orders, center: Vec3,
                                comps: seq<Component>, alphas: seq<real>, coeffs: Coefficients,
                                norm: seq<seq<real>>, num: Numerics)
    requires ConsistentShapes(comps, alphas, coeffs, norm)
    ensures
      var r := EvalDerivContractions(coords, orders, center, comps, alphas, coeffs, norm, num);
      match coeffs
      case Segmented(w) =>
        forall l, p :: 0 <= l < |comps| && 0 <= p < |coords| ==>
          r.matrix[l][p] == FactoredContracted(w, norm[l], coords[p], orders, center, comps[l], alphas, num)
      case Generalized(m, rows) =>
        forall j, l, p :: 0 <= j < m && 0 <= l < |comps| && 0 <= p < |coords| ==>
          r.tensor[j][l][p]
          == FactoredContracted(Column(rows, m, j), norm[l], coords[p], orders, center, comps[l], alphas, num)
  {
    match coeffs
    case Segmented(w) =>
      forall l, p | 0 <= l < |comps| && 0 <= p < |coords| {
        EntryFactorsByAxis(w, norm[l], coords[p], orders, center, comps[l], alphas, num);
      }
    case Generalized(m, rows) =>
      forall j, l, p | 0 <= j < m && 0 <= l < |comps| && 0 <= p < |coords| {
        EntryFactorsByAxis(Column(rows, m, j), norm[l], coords[p], orders, center, comps[l], alphas, num);
      }
  }

  function AddWeights(w1: seq<real>, w2: seq<real>): (w: seq<real>)
    requires |w1| == |w2|
    ensures |w| == |w1| && forall k :: 0 <= k < |w| ==> w[k] == w1[k] + w2[k]
  {
    seq(|w1|, k requires 0 <= k < |w1| => w1[k] + w2[k])
  }

  /** A sum of pointwise sums is the sum of the two sums. */
  lemma {:induction false} SumAdd(xs: seq<real>, ys: seq<real>, zs: seq<real>)
    requires |xs| == |ys| == |zs|
    requires forall k :: 0 <= k < |zs| ==> zs[k] == xs[k] + ys[k]
    ensures Sum(zs) == Sum(xs) + Sum(ys)
  {
    if zs != [] {
      var n := |zs| - 1;
      SumAdd(xs[..n], ys[..n], zs[..n]);
    }
  }

  lemma MulDistributes(a: real, b: real, x: real)
    ensures Mul(a + b, x) == Mul(a, x) + Mul(b, x)
  {
  }

  /** The contraction is additive in the coefficients: contracting against the
      sum of two coefficient vectors gives the sum of the two contractions. */
  lemma ContractionAdditive(w1: seq<real>, w2: seq<real>, normRow: seq<real>, point: Vec3,
                            orders: Orders, center: Vec3, comp: Component, alphas: seq<real>,
                            num: Numerics)
    requires |w1| == |alphas| && |w2| == |alphas| && |normRow| == |alphas|
    ensures Contracted(AddWeights(w1, w2), normRow, point, orders, center, comp, alphas, num)
         == Contracted(w1, normRow, point, orders, center, comp, alphas, num)
            + Contracted(w2, normRow, point, orders, center, comp, alphas, num)
  {
    var w := AddWeights(w1, w2);
    var xs := seq(|alphas|, k requires 0 <= k < |alphas| =>
      Mul(w1[k], Mul(normRow[k], PrimitiveValue(point, orders, center, comp, alphas[k], num))));
    var ys := seq(|alphas|, k requires 0 <= k < |alphas| =>
      Mul(w2[k], Mul(normRow[k], PrimitiveValue(point, orders, center, comp, alphas[k], num))));
    var zs := seq(|alphas|, k requires 0 <= k < |alphas| =>
      Mul(w[k], Mul(normRow[k], PrimitiveValue(point, orders, center, comp, alphas[k], num))));
    forall k | 0 <= k < |alphas| ensures zs[k] == xs[k] + ys[k] {
      MulDistributes(w1[k], w2[k], Mul(normRow[k], PrimitiveValue(point, orders, center, comp, alphas[k], num)));
    }
    SumAdd(xs, ys, zs);
  }

  /** Segmented coefficients: the evaluation for the sum of two coefficient
      vectors is the entrywise sum of the two evaluations. */
  lemma CoefficientLinearity(coords: seq<Vec3>, orders: Orders, center: Vec3,
                             comps: seq<Component>, alphas: seq<real>, w1: seq<real>,
                             w2: seq<real>, norm: seq<seq<real>>, num: Numerics)
    requires ConsistentShapes(comps, alphas, Segmented(w1), norm) && |w2| == |w1|
    ensures
      var r := EvalDerivContractions(coords, orders, center, comps, alphas, Segmented(AddWeights(w1, w2)), norm, num);
      var r1 := EvalDerivContractions(coords, orders, center, comps, alphas, Segmented(w1), norm, num);
      var r2 := EvalDerivContractions(coords, orders, center, comps, alphas, Segmented(w2), norm, num);
      forall l, p :: 0 <= l < |comps| && 0 <= p < |coords| ==>
        r.matrix[l][p] == r1.matrix[l][p] + r2.matrix[l][p]
  {
    forall l, p | 0 <= l < |comps| && 0 <= p < |coords| {
      ContractionAdditive(w1, w2, norm[l], coords[p], orders, center, comps[l], alphas, num);
    }
  }

  // ---------------------------------------------------------------------
  // Coefficient layouts and grids

  /** A segmented coefficient vector evaluates as the one-column matrix
      holding the same coefficients. */
  lemma SegmentedIsOneColumn(coords: seq<Vec3>, orders: Orders, center: Vec3,
                             comps: seq<Component>, alphas: seq<real>, weights: seq<real>,
                             norm: seq<seq<real>>, num: Numerics)
    requires ConsistentShapes(comps, alphas, Segmented(weights), norm)
    ensures
      var column := Generalized(1, seq(|weights|, k requires 0 <= k < |weights| => [weights[k]]));
      EvalDerivContractions(coords, orders, center, comps, alphas, column, norm, num)
      == Tensor([EvalDerivContractions(coords, orders, center, comps, alphas, Segmented(weights), norm, num).matrix])
  {
    var rows := seq(|weights|, k requires 0 <= k < |weights| => [weights[k]]);
    assert Column(rows, 1, 0) == weights;
  }

  /** Splitting the grid into two consecutive parts splits every output row
      the same way: each point is evaluated on its own, in grid order. */
  lemma GridConcatenation(c1: seq<Vec3>, c2: seq<Vec3>, orders: Orders, center: Vec3,
                          comps: seq<Component>, alphas: seq<real>, coeffs: Coefficients,
                          norm: seq<seq<real>>, num: Numerics)
    requires ConsistentShapes(comps, alphas, coeffs, norm)
    ensures
      var r := EvalDerivContractions(c1 + c2, orders, center, comps, alphas, coeffs, norm, num);
      var r1 := EvalDerivContractions(c1, orders, center, comps, alphas, coeffs, norm, num);
      var r2 := EvalDerivContractions(c2, orders, center, comps, alphas, coeffs, norm, num);
      && (r.Matrix? ==> forall l :: 0 <= l < |comps| ==> r.matrix[l] == r1.matrix[l] + r2.matrix[l])
      && (r.Tensor? ==> forall j, l :: 0 <= j < |r.tensor| && 0 <= l < |comps| ==>
            r.tensor[j][l] == r1.tensor[j][l] + r2.tensor[j][l])
  {
    match coeffs
    case Segmented(w) =>
      BlockConcatenation(w, c1, c2, orders, center, comps, alphas, norm, num);
    case Generalized(m, rows) =>
      forall j | 0 <= j < m {
        BlockConcatenation(Column(rows, m, j), c1, c2, orders, center, comps, alphas, norm, num);
      }
  }

  lemma BlockConcatenation(weights: seq<real>, c1: seq<Vec3>, c2: seq<Vec3>, orders: Orders,
                           center: Vec3, comps: seq<Component>, alphas: seq<real>,
                           norm: seq<seq<real>>, num: Numerics)
    requires |weights| == |alphas| && |norm| == |comps|
    requires forall l :: 0 <= l < |norm| ==> |norm[l]| == |alphas|
    ensures
      var b := ContractionBlock(weights, c1 + c2, orders, center, comps, alphas, norm, num);
      var b1 := ContractionBlock(weights, c1, orders, center, comps, alphas, norm, num);
      var b2 := ContractionBlock(weights, c2, orders, center, comps, alphas, norm, num);
      forall l :: 0 <= l < |comps| ==> b[l] == b1[l] + b2[l]
  {
    var b := ContractionBlock(weights, c1 + c2, orders, center, comps, alphas, norm, num);
    var b1 := ContractionBlock(weights, c1, orders, center, comps, alphas, norm, num);
    var b2 := ContractionBlock(weights, c2, orders, center, comps, alphas, norm, num);
    forall l | 0 <= l < |comps| ensures b[l] == b1[l] + b2[l] {
      assert |b[l]| == |b1[l] + b2[l]|;
      forall p | 0 <= p < |c1 + c2| ensures b[l][p] == (b1[l] + b2[l])[p] {
        if p < |c1| {
          assert (c1 + c2)[p] == c1[p];
        } else {
          assert (c1 + c2)[p] == c2[p - |c1|];
        }
      }
    }
  }
}
