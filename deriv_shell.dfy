/** The public entry points of gbasis/deriv.py: eval_deriv_shell checks its
    arguments in a fixed order, reshapes a single point into a one-row grid
    and hands the shell's data to the kernel; eval_shell is the same call
    with all derivative orders 0.

    numpy arrays are modelled by their shape and their entries in row-major
    order; any other Python value passed where an array is expected is
    NotAnArray. The shell is the data a ContractedCartesianGaussians
    exposes (center, exponents, coefficients, angular components,
    normalisation), and any other value passed as a shell is NotAShell. */
module DerivShell {
  import opened Deriv
  import opened DerivProperties

  datatype NdArray<T> = NotAnArray | Array(shape: seq<nat>, flat: seq<T>)

  /** Number of entries of an array of the given shape. */
  function Size(shape: seq<nat>): nat
  {
    if shape == [] then 1 else shape[0] * Size(shape[1..])
  }

  /** An array holds exactly as many entries as its shape says. */
  predicate WellFormed<T>(x: NdArray<T>)
  {
    x.Array? ==> |x.flat| == Size(x.shape)
  }

  datatype Error = TypeError(message: string) | ValueError(message: string)

  datatype Result<T> = Success(value: T) | Failure(error: Error)

  datatype Shell = Shell(coord: Vec3, exps: seq<real>, coeffs: Coefficients,
                         angmomComponents: seq<Component>, norm: seq<seq<real>>)

  datatype ShellArg = NotAShell | Cartesian(shell: Shell)

  /** The shapes a ContractedCartesianGaussians guarantees of its data. */
  predicate ShellShapes(s: Shell)
  {
    ConsistentShapes(s.angmomComponents, s.exps, s.coeffs, s.norm)
  }

  const CoordsTypeMessage := "Coordinates must be provided as a numpy array."
  const CoordsShapeMessage :=
    "Coordinates must be provided as a two-dimensional numpy array with 3 columns."
  const OrdersTypeMessage := "Orders of the derivatives must be a numpy array"
  const OrdersShapeMessage :=
    "Orders of derivatives must be given as a one-dimensional numpy array with three entries"
  const ShellTypeMessage := "Each \"shell\" must be a ContractedCartesianGaussians instance."

  /** A grid of shape (N, 3). */
  predicate IsGrid(c: NdArray<real>)
  {
    c.Array? && |c.shape| == 2 && c.shape[1] == 3
  }

  /** The coordinates the entry point accepts: one point of shape (3,), or a
      grid of shape (N, 3). */
  predicate AcceptedCoords(coords: NdArray<real>)
  {
    coords.Array? && (coords.shape == [3] || IsGrid(coords))
  }

  /** Number of points in accepted coordinates. */
  function NumPoints(coords: NdArray<real>): nat
    requires AcceptedCoords(coords)
  {
    if |coords.shape| == 1 then 1 else coords.shape[0]
  }

  predicate AcceptedOrders(orders: NdArray<int>)
  {
    orders.Array? && orders.shape == [3]
  }

  /** The reshape of a one-dimensional array of three entries into a single
      row; every other value is left as it is. */
  function Reshaped(coords: NdArray<real>): (c: NdArray<real>)
    requires WellFormed(coords)
    ensures WellFormed(c) && c.Array? == coords.Array?
    ensures c.Array? ==> c.flat == coords.flat
    ensures IsGrid(c) <==> AcceptedCoords(coords)
  {
    assert Size([3]) == 3;
    if coords.Array? && |coords.shape| == 1 && Size(coords.shape) == 3 then
      assert coords.shape == [3] by { assert coords.shape[1..] == []; }
      Array([1, 3], coords.flat)
    else coords
  }

  lemma GridSize(c: NdArray<real>)
    requires WellFormed(c) && IsGrid(c)
    ensures |c.flat| == 3 * c.shape[0]
  {
    assert Size(c.shape[1..]) == 3 by {
      assert c.shape[1..][1..] == [];
    }
  }

  /** The rows of an N x 3 grid: point p is entries 3p, 3p + 1, 3p + 2. */
  function Points(c: NdArray<real>): (pts: seq<Vec3>)
    requires WellFormed(c) && IsGrid(c)
    ensures |pts| == c.shape[0] && |c.flat| == 3 * |pts|
    ensures forall p, a :: 0 <= p < |pts| && 0 <= a < 3 ==> pts[p][a] == c.flat[3 * p + a]
  {
    GridSize(c);
    seq(c.shape[0], p requires 0 <= p < c.shape[0] => c.flat[3 * p..3 * p + 3])
  }

  /** The output shape: L x N for segmented coefficients, M x L x N for
      generalized ones. */
  predicate ShapedOutput(e: Evaluation, s: Shell, n: nat)
  {
    match s.coeffs
    case Segmented(_) =>
      && e.Matrix?
      && |e.matrix| == |s.angmomComponents|
      && forall l :: 0 <= l < |e.matrix| ==> |e.matrix[l]| == n
    case Generalized(m, _) =>
      && e.Tensor?
      && |e.tensor| == m
      && forall j :: 0 <= j < m ==>
           && |e.tensor[j]| == |s.angmomComponents|
           && forall l :: 0 <= l < |e.tensor[j]| ==> |e.tensor[j][l]| == n
  }

  /** eval_deriv_shell: the arguments are checked in order (coordinates are an
      array, coordinates form a grid, orders are an array, orders have shape
      (3,), the shell is a shell), the first failing check decides the error,
      and otherwise the kernel evaluates the shell on the grid. */
  function EvalDerivShell(coords: NdArray<real>, orders: NdArray<int>, shell: ShellArg,
                          num: Numerics): (r: Result<Evaluation>)
    requires WellFormed(coords) && WellFormed(orders)
    requires shell.Cartesian? ==> ShellShapes(shell.shell)
    ensures coords.NotAnArray? ==> r == Failure(TypeError(CoordsTypeMessage))
    ensures coords.Array? && !AcceptedCoords(coords) ==> r == Failure(ValueError(CoordsShapeMessage))
    ensures AcceptedCoords(coords) && orders.NotAnArray? ==> r == Failure(TypeError(OrdersTypeMessage))
    ensures AcceptedCoords(coords) && orders.Array? && !AcceptedOrders(orders)
            ==> r == Failure(ValueError(OrdersShapeMessage))
    ensures AcceptedCoords(coords) && AcceptedOrders(orders) && shell.NotAShell?
            ==> r == Failure(TypeError(ShellTypeMessage))
    ensures r.Success? <==> AcceptedCoords(coords) && AcceptedOrders(orders) && shell.Cartesian?
    ensures r.Success? ==> ShapedOutput(r.value, shell.shell, NumPoints(coords))
  {
    if coords.NotAnArray? then Failure(TypeError(CoordsTypeMessage))
    else
      var c := Reshaped(coords);
      if !IsGrid(c) then Failure(ValueError(CoordsShapeMessage))
      else if orders.NotAnArray? then Failure(TypeError(OrdersTypeMessage))
      else if orders.shape != [3] then Failure(ValueError(OrdersShapeMessage))
      else if shell.NotAShell? then Failure(TypeError(ShellTypeMessage))
      else
        assert |orders.flat| == 3 by { assert Size([3]) == 3; }
        var s := shell.shell;
        Success(EvalDerivContractions(Points(c), orders.flat, s.coord, s.angmomComponents, s.exps,
                                      s.coeffs, s.norm, num))
  }

  /** eval_shell: the derivative of order (0, 0, 0); only the coordinate
      checks can fail, and they fail as in eval_deriv_shell. */
  function EvalShell(coords: NdArray<real>, shell: Shell, num: Numerics): (r: Result<Evaluation>)
    requires WellFormed(coords) && ShellShapes(shell)
    ensures r.Failure? <==> !AcceptedCoords(coords)
    ensures r.Failure? ==>
      r.error == if coords.NotAnArray? then TypeError(CoordsTypeMessage) else ValueError(CoordsShapeMessage)
    ensures r.Success? ==> ShapedOutput(r.value, shell, NumPoints(coords))
  {
    assert Size([3]) == 3;
    EvalDerivShell(coords, Array([3], [0, 0, 0]), Cartesian(shell), num)
  }

  // ---------------------------------------------------------------------
  // What the entry points guarantee

  /** A single point of shape (3,) is evaluated exactly as the one-row grid
      of shape (1, 3) holding it. */
  lemma SinglePointIsOneRowGrid(v: seq<real>, orders: NdArray<int>, shell: ShellArg, num: Numerics)
    requires |v| == 3 && WellFormed(orders)
    requires shell.Cartesian? ==> ShellShapes(shell.shell)
    ensures WellFormed(Array([3], v)) && WellFormed(Array([1, 3], v))
    ensures EvalDerivShell(Array([3], v), orders, shell, num)
         == EvalDerivShell(Array([1, 3], v), orders, shell, num)
  {
    assert Size([3]) == 3;
    assert Size([1, 3]) == 3 by { assert [1, 3][1..] == [3]; }
  }

  /** Each point of a grid is evaluated on its own: column p of the output is
      the evaluation at row p of the grid alone. */
  lemma PointsEvaluatedIndependently(coords: NdArray<real>, orders: NdArray<int>, shell: Shell,
                                     num: Numerics, p: nat)
    requires WellFormed(coords) && IsGrid(coords) && p < coords.shape[0]
    requires WellFormed(orders) && AcceptedOrders(orders) && ShellShapes(shell)
    ensures WellFormed(Array([3], Points(coords)[p]))
    ensures
      var r := EvalDerivShell(coords, orders, Cartesian(shell), num);
      var one := EvalDerivShell(Array([3], Points(coords)[p]), orders, Cartesian(shell), num);
      && r.Success? && one.Success?
      && match shell.coeffs
         case Segmented(_) =>
           forall l :: 0 <= l < |shell.angmomComponents| ==> r.value.matrix[l][p] == one.value.matrix[l][0]
         case Generalized(m, _) =>
           forall j, l :: 0 <= j < m && 0 <= l < |shell.angmomComponents| ==>
             r.value.tensor[j][l][p] == one.value.tensor[j][l][0]
  {
    assert Size([3]) == 3;
    var pt := Points(coords)[p];
    var single := Reshaped(Array([3], pt));
    assert Points(single)[0] == pt;
    assert Reshaped(coords) == coords;
  }

  /** eval_shell evaluates the contracted Cartesian Gaussians themselves:
      every entry is the coefficient-weighted sum over the primitives of
      norm[l][k] times the plain Gaussian at the point. */
  lemma EvalShellIsPlainContraction(coords: NdArray<real>, shell: Shell, num: Numerics)
    requires WellFormed(coords) && AcceptedCoords(coords) && ShellShapes(shell)
    ensures
      var r := EvalShell(coords, shell, num);
      var pts := Points(Reshaped(coords));
      && r.Success?
      && match shell.coeffs
         case Segmented(w) =>
           forall l, p :: 0 <= l < |shell.angmomComponents| && 0 <= p < |pts| ==>
             r.value.matrix[l][p]
             == PlainContracted(w, shell.norm[l], pts[p], shell.coord, shell.angmomComponents[l], shell.exps, num)
         case Generalized(m, rows) =>
           forall j, l, p :: 0 <= j < m && 0 <= l < |shell.angmomComponents| && 0 <= p < |pts| ==>
             r.value.tensor[j][l][p]
             == PlainContracted(Column(rows, m, j), shell.norm[l], pts[p], shell.coord,
                                shell.angmomComponents[l], shell.exps, num)
  {
    assert Size([3]) == 3;
    var zero: Orders := [0, 0, 0];
    ZeroOrderEvaluation(Points(Reshaped(coords)), zero, shell.coord, shell.angmomComponents, shell.exps,
                        shell.coeffs, shell.norm, num);
  }

  /** eval_shell is eval_deriv_shell with orders (0, 0, 0), and so also with
      any orders none of which is positive. */
  lemma EvalShellIsNonPositiveOrders(coords: NdArray<real>, shell: Shell, orders: Orders, num: Numerics)
    requires WellFormed(coords) && ShellShapes(shell)
    requires !AnyDerivative(orders)
    ensures WellFormed(Array([3], orders))
    ensures EvalShell(coords, shell, num) == EvalDerivShell(coords, Array([3], orders), Cartesian(shell), num)
  {
    assert Size([3]) == 3;
    if AcceptedCoords(coords) {
      var s := shell;
      var zero: Orders := [0, 0, 0];
      assert ClampOrders(orders) == zero;
      assert ClampOrders(zero) == zero;
      var pts := Points(Reshaped(coords));
      NegativeOrdersAsZero(pts, orders, s.coord, s.angmomComponents, s.exps, s.coeffs, s.norm, num);
      NegativeOrdersAsZero(pts, zero, s.coord, s.angmomComponents, s.exps, s.coeffs, s.norm, num);
    }
  }

  /** A worked case: one s-type primitive with exponent 1 at the origin,
      coefficient c and normalisation nrm. Its x-derivative at (1, 0, 0) is
      -2 c nrm exp(-1), and at the origin it is 0. */
  lemma SFunctionFirstDerivative(c: real, nrm: real, num: Numerics)
    requires num.exp(0.0) == 1.0 && num.sqrt(1.0) * num.sqrt(1.0) == 1.0
    ensures
      var shell := Shell([0.0, 0.0, 0.0], [1.0], Segmented([c]), [[0, 0, 0]], [[nrm]]);
      var orders := Array([3], [1, 0, 0]);
      && WellFormed(orders) && ShellShapes(shell)
      && EvalDerivShell(Array([1, 3], [1.0, 0.0, 0.0]), orders, Cartesian(shell), num)
         == Success(Matrix([[-2.0 * c * nrm * num.exp(-1.0)]]))
      && EvalDerivShell(Array([1, 3], [0.0, 0.0, 0.0]), orders, Cartesian(shell), num)
         == Success(Matrix([[0.0]]))
  {
    assert Size([3]) == 3;
    assert Size([1, 3]) == 3 by { assert [1, 3][1..] == [3]; }
    var center: Vec3 := [0.0, 0.0, 0.0];
    var unit: Vec3 := [1.0, 0.0, 0.0];
    SPrimitiveFirstDerivative(unit, center, 1.0, num);
    SPrimitiveFirstDerivative(center, center, 1.0, num);
    assert Gauss(num, 1.0, 0.0) == 1.0;
    assert Gauss(num, 1.0, 1.0) == num.exp(-1.0);
    OnePointOnePrimitive(unit, c, nrm, num, -2.0 * c * nrm * num.exp(-1.0));
    OnePointOnePrimitive(center, c, nrm, num, 0.0);
  }

  /** The shell of SFunctionFirstDerivative at a single point p. */
  lemma OnePointOnePrimitive(p: Vec3, c: real, nrm: real, num: Numerics, expected: real)
    requires Mul(c, Mul(nrm, PrimitiveValue(p, [1, 0, 0], [0.0, 0.0, 0.0], [0, 0, 0], 1.0, num))) == expected
    ensures
      var shell := Shell([0.0, 0.0, 0.0], [1.0], Segmented([c]), [[0, 0, 0]], [[nrm]]);
      var orders := Array([3], [1, 0, 0]);
      && WellFormed(orders) && WellFormed(Array([1, 3], p)) && ShellShapes(shell)
      && EvalDerivShell(Array([1, 3], p), orders, Cartesian(shell), num) == Success(Matrix([[expected]]))
  {
    assert Size([3]) == 3;
    assert Size([1, 3]) == 3 by { assert [1, 3][1..] == [3]; }
    var grid := Array([1, 3], p);
    var pts := Points(grid);
    assert pts[0] == p by {
      assert forall a :: 0 <= a < 3 ==> pts[0][a] == p[a];
    }
    assert pts == [p];
    var xs := seq(1, k requires 0 <= k < 1 =>
      Mul([c][k], Mul([nrm][k], PrimitiveValue(p, [1, 0, 0], [0.0, 0.0, 0.0], [0, 0, 0], [1.0][k], num))));
    assert xs == [expected];
    assert Sum(xs) == Sum(xs[..0]) + expected;
    var orders: Orders := [1, 0, 0];
    var center: Vec3 := [0.0, 0.0, 0.0];
    var comps: seq<Component> := [[0, 0, 0]];
    assert Contracted([c], [nrm], p, orders, center, comps[0], [1.0], num) == expected;
    var block := ContractionBlock([c], [p], orders, center, comps, [1.0], [[nrm]], num);
    assert block[0][0] == expected;
    assert block[0] == [expected];
    assert block == [[expected]];
    var shell := Shell(center, [1.0], Segmented([c]), comps, [[nrm]]);
    assert EvalDerivShell(grid, Array([3], orders), Cartesian(shell), num) == Success(Matrix(block));
  }
}
