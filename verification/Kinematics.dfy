/** The damped least-squares step of the arm solver and the loop around it.
    Forward kinematics is a parameter: nothing proved here depends on the link table. */
module Kinematics {
  import opened Reals
  import opened LinearAlgebra
  import opened GaussJordan
  import opened Wrappers

  const DAMPING2: real := 0.06 * 0.06
  const POSITION_TOLERANCE: real := 0.001
  const ROTATION_TOLERANCE: real := 0.005
  const MAX_ITERATIONS: nat := 120
  const DELTA: real := 0.00001
  const STEP_LIMIT: real := 0.20

  const JOINT_LOW: seq<real> := [-3.0543, -4.6251, -2.8274, -4.6251, -3.0543, -3.0543]
  const JOINT_HIGH: seq<real> := [3.0543, 1.4835, 2.8274, 1.4835, 3.0543, 3.0543]

  type Vector3 = v: Vector | |v| == 3 witness [0.0, 0.0, 0.0]
  type Vector6 = v: Vector | |v| == 6 witness [0.0, 0.0, 0.0, 0.0, 0.0, 0.0]

  /** What the solver asks of the arm: the flange pose of a joint vector, its
      position, and the rotation vector from one pose to another. */
  datatype Arm<!Pose> = Arm(
    flange: Vector -> Pose,
    position: Pose -> Vector3,
    orientationError: (Pose, Pose) -> Vector3)

  ghost predicate IsJacobian(j: Matrix) {
    |j| == 6 && forall r | 0 <= r < 6 :: |j[r]| == 6
  }

  /** The augmented system `(J J^T + damping^2 I | e)`. */
  ghost function NormalEquations(j: Matrix, e: Vector6): (m: Matrix)
    requires IsJacobian(j)
    ensures IsSystem(m)
  {
    seq(6, r requires 0 <= r < 6 =>
      seq(7, c requires 0 <= c < 7 =>
        if c == 6 then e[r] else Dot(j[r], j[c], 6) + (if r == c then DAMPING2 else 0.0)))
  }

  ghost function Transposed(j: Matrix, y: Vector6): Vector6
    requires IsJacobian(j)
  {
    Combine(j, y, 6, 6)
  }

  ghost function Unit(r: nat): Vector6 {
    seq(6, i => if i == r then 1.0 else 0.0)
  }

  /** `(A A^T)[r] . x == A[r] . (A^T x)`. */
  lemma GramRow(rows: Matrix, x: Vector, r: nat)
    requires r < |rows| == |x| && forall i | 0 <= i < |rows| :: |rows[i]| == |x|
    ensures Dot(Apply(rows, rows[r]), x, |x|) == Dot(rows[r], Combine(rows, x, |x|, |x|), |x|)
  {
    CombineDot(rows, x, rows[r], |x|);
    DotSymmetric(rows[r], Combine(rows, x, |x|, |x|), |x|);
  }

  lemma DotUnit(unit: Vector, x: Vector, r: nat)
    requires r < |unit| == |x| && forall i | 0 <= i < |unit| :: unit[i] == if i == r then 1.0 else 0.0
    ensures Dot(unit, x, |x|) == x[r]
  {
    DotOneTerm(unit, x, r, |x|);
  }

  /** Row `r` of `A A^T + d I` applied to `x`, in any dimension. */
  lemma RegularisedRow(rows: Matrix, d: real, unit: Vector, x: Vector, r: nat)
    requires r < |rows| == |x| == |unit| && forall i | 0 <= i < |rows| :: |rows[i]| == |x|
    requires forall i | 0 <= i < |unit| :: unit[i] == if i == r then 1.0 else 0.0
    ensures Dot(Plus(Apply(rows, rows[r]), d, unit), x, |x|)
         == Dot(rows[r], Combine(rows, x, |x|, |x|), |x|) + d * x[r]
  {
    GramRow(rows, x, r);
    DotUnit(unit, x, r);
    DotPlus(Apply(rows, rows[r]), d, unit, x, |x|);
  }

  lemma NormalRowIs(j: Matrix, e: Vector6, r: nat, c: nat)
    requires IsJacobian(j) && r < 6 && c < 6
    ensures NormalEquations(j, e)[r][c] == Plus(Apply(j, j[r]), DAMPING2, Unit(r))[c]
  {
    DotSymmetric(j[r], j[c], 6);
  }

  /** Row `r` of the system applied to `x` is `(J (J^T x) + damping^2 x)[r]`. */
  lemma NormalRow(j: Matrix, e: Vector6, x: Vector6, r: nat)
    requires IsJacobian(j) && r < 6
    ensures Dot(NormalEquations(j, e)[r], x, 6) == Dot(j[r], Transposed(j, x), 6) + DAMPING2 * x[r]
  {
    var row := Plus(Apply(j, j[r]), DAMPING2, Unit(r));
    forall c | 0 <= c < 6 ensures NormalEquations(j, e)[r][c] == row[c] {
      NormalRowIs(j, e, r, c);
    }
    DotCongruent(NormalEquations(j, e)[r], row, x, |x|);
    RegularisedRow(j, DAMPING2, Unit(r), x, r);
  }

  /** `x . (J J^T + damping^2 I) x >= damping^2 |x|^2`. */
  lemma PositiveDefinite(j: Matrix, e: Vector6, x: Vector6)
    requires IsJacobian(j)
    ensures Dot(x, seq(6, r requires 0 <= r < 6 => Dot(NormalEquations(j, e)[r], x, 6)), 6) >= DAMPING2 * Norm2(x)
  {
    var w := Transposed(j, x);
    var d := seq(6, r requires 0 <= r < 6 => Dot(NormalEquations(j, e)[r], x, 6));
    forall r | 0 <= r < 6 ensures d[r] == Plus(Apply(j, w), DAMPING2, x)[r] {
      NormalRow(j, e, x, r);
    }
    assert d == Plus(Apply(j, w), DAMPING2, x);
    DotSymmetric(x, d, 6);
    DotPlus(Apply(j, w), DAMPING2, x, x, 6);
    CombineDot(j, x, w, 6);
    Norm2Nonnegative(w, 6);
  }

  lemma NotWithin(j: Matrix, e: Vector6, x: Vector6, i: nat, eps: real)
    requires IsJacobian(j) && i < 6 && x[i] == 1.0 && 0.0 <= eps < PIVOT_FLOOR
    ensures !Within(NormalEquations(j, e), x, 0, eps)
  {
    var m := NormalEquations(j, e);
    if Within(m, x, 0, eps) {
      var d := seq(6, r requires 0 <= r < 6 => Dot(m[r], x, 6));
      assert forall r | 0 <= r < 6 :: Abs(d[r]) <= eps;
      PositiveDefinite(j, e, x);
      DotBound(x, d, eps, 6);
      BudgetIsSmall(x, i, eps);
    }
  }

  lemma BudgetIsSmall(x: Vector6, i: nat, eps: real)
    requires i < 6 && x[i] == 1.0 && 0.0 <= eps < PIVOT_FLOOR
    ensures Budget(x, eps, 6) < 2.0 * (DAMPING2 * Norm2(x))
  {
    BudgetClosed(x, eps, 6);
    SquareWithin(x, i, 6);
    NonnegativeTimes(PIVOT_FLOOR - eps, 6.0 + Norm2(x));
  }

  /** No Jacobian and no error vector can make the elimination give up. */
  lemma NeverNearlySingular(j: Matrix, e: Vector6)
    requires IsJacobian(j)
    ensures !NearlySingular(NormalEquations(j, e))
  {
    var m := NormalEquations(j, e);
    forall x: Vector, eps: real | |x| == 6 && 1.0 in x && 0.0 <= eps < PIVOT_FLOOR
      ensures !Within(m, x, 0, eps)
    {
      var i :| 0 <= i < 6 && x[i] == 1.0;
      NotWithin(j, e, x, i, eps);
    }
  }

  /** `|J v - e|^2 + damping^2 |v|^2`. */
  ghost function Cost(j: Matrix, e: Vector6, v: Vector6): real
    requires IsJacobian(j)
  {
    Norm2(Plus(Apply(j, v), -1.0, e)) + DAMPING2 * Norm2(v)
  }

  /** The unique minimiser of the damped cost. */
  ghost predicate Minimises(j: Matrix, e: Vector6, v: Vector6)
    requires IsJacobian(j)
  {
    forall u: Vector6 :: u != v ==> Cost(j, e, v) < Cost(j, e, u)
  }

  lemma ResidualOfSolution(j: Matrix, e: Vector6, y: Vector6)
    requires IsJacobian(j) && Solves(NormalEquations(j, e), y)
    ensures Plus(Apply(j, Transposed(j, y)), -1.0, e) == seq(6, r requires 0 <= r < 6 => -(DAMPING2 * y[r]))
  {
    forall r | 0 <= r < 6
      ensures Apply(j, Transposed(j, y))[r] - e[r] == -(DAMPING2 * y[r])
    {
      NormalRow(j, e, y, r);
      assert NormalEquations(j, e)[r][6] == e[r];
    }
  }

  /** Exactly how much worse any other step is: the excess is a sum of squares. */
  lemma CostExpansion(j: Matrix, e: Vector6, y: Vector6, v: Vector6)
    requires IsJacobian(j) && Solves(NormalEquations(j, e), y)
    ensures var dq := Transposed(j, y);
      var h := Plus(v, -1.0, dq);
      Cost(j, e, v) == Cost(j, e, dq) + Norm2(Apply(j, h)) + DAMPING2 * Norm2(h)
  {
    var dq := Transposed(j, y);
    var h := Plus(v, -1.0, dq);
    assert v == Plus(dq, 1.0, h);
    var res, ah := Plus(Apply(j, dq), -1.0, e), Apply(j, h);
    forall r | 0 <= r < 6 ensures Plus(Apply(j, v), -1.0, e)[r] == Plus(res, 1.0, ah)[r] {
      DotSymmetric(j[r], v, 6);
      DotSymmetric(j[r], dq, 6);
      DotSymmetric(j[r], h, 6);
      DotPlus(dq, 1.0, h, j[r], 6);
    }
    assert Plus(Apply(j, v), -1.0, e) == Plus(res, 1.0, ah);
    Norm2Plus(res, ah);
    Norm2Plus(dq, h);
    ResidualOfSolution(j, e, y);
    ScaledDot(res, y, ah);
    Adjoint(j, y, h);
  }

  lemma ScaledDot(res: Vector6, y: Vector6, x: Vector6)
    requires forall r | 0 <= r < 6 :: res[r] == -(DAMPING2 * y[r])
    ensures Dot(res, x, 6) == -(DAMPING2 * Dot(y, x, 6))
  {
    var zero := seq(6, i => 0.0);
    assert res == Plus(zero, -DAMPING2, y);
    DotPlus(zero, -DAMPING2, y, x, 6);
    DotZero(zero, x, 6);
  }

  /** `J^T y` for the solution `y` is the unique minimiser of the damped cost. */
  lemma SolutionMinimises(j: Matrix, e: Vector6, y: Vector6)
    requires IsJacobian(j) && Solves(NormalEquations(j, e), y)
    ensures Minimises(j, e, Transposed(j, y))
  {
    var dq := Transposed(j, y);
    forall u: Vector6 | u != dq ensures Cost(j, e, dq) < Cost(j, e, u) {
      CostExpansion(j, e, y, u);
      var h := Plus(u, -1.0, dq);
      Norm2Nonnegative(Apply(j, h), 6);
      var i :| 0 <= i < 6 && u[i] != dq[i];
      var n := Norm2(h);
      PositiveNorm(h, i);
      PositiveExcess(Norm2(Apply(j, h)), n);
    }
  }

  lemma PositiveExcess(a: real, n: real)
    requires a >= 0.0 && n > 0.0
    ensures a + DAMPING2 * n > 0.0
  {
  }

  lemma PositiveNorm(h: Vector, i: nat)
    requires i < |h| && h[i] != 0.0
    ensures Norm2(h) > 0.0
  {
    var a := Abs(h[i]);
    SquareWithin(h, i, |h|);
    PositiveTimes(a, a);
    assert Times(a, a) == Times(h[i], h[i]);
  }

  lemma MinimiserIsUnique(j: Matrix, e: Vector6, v: Vector6, w: Vector6)
    requires IsJacobian(j) && Minimises(j, e, v) && Minimises(j, e, w)
    ensures v == w
  {
    var a, b := Cost(j, e, v), Cost(j, e, w);
  }

  // ----- the iteration -----

  function Bound(low: real, x: real, high: real): real {
    if high < x then (if low < high then high else low) else if low < x then x else low
  }

  ghost function Perturbed(q: Vector, k: nat): Vector
    requires k < |q|
  {
    q[k := q[k] + DELTA]
  }

  /** The position and orientation error of a joint vector. */
  function Residual<P>(arm: Arm<P>, goal: P, q: Vector): Vector6 {
    var cur := arm.flange(q);
    var dw := arm.orientationError(cur, goal);
    var p, g := arm.position(cur), arm.position(goal);
    [g[0] - p[0], g[1] - p[1], g[2] - p[2], dw[0], dw[1], dw[2]]
  }

  /** Both error vectors are shorter than their tolerances. */
  predicate Converged(e: Vector6) {
    && e[0] * e[0] + e[1] * e[1] + e[2] * e[2] < POSITION_TOLERANCE * POSITION_TOLERANCE
    && e[3] * e[3] + e[4] * e[4] + e[5] * e[5] < ROTATION_TOLERANCE * ROTATION_TOLERANCE
  }

  /** The flange is less than a millimetre from the goal and turned less than 0.005 rad from it. */
  predicate Reaches<P>(arm: Arm<P>, goal: P, q: Vector) {
    var at := arm.flange(q);
    var p, g, w := arm.position(at), arm.position(goal), arm.orientationError(at, goal);
    && (p[0] - g[0]) * (p[0] - g[0]) + (p[1] - g[1]) * (p[1] - g[1]) + (p[2] - g[2]) * (p[2] - g[2]) < 0.000001
    && w[0] * w[0] + w[1] * w[1] + w[2] * w[2] < 0.000025
  }

  lemma SquareOfOpposite(a: real, b: real)
    ensures (a - b) * (a - b) == (b - a) * (b - a)
  {
  }

  /** That is what the solver looks at. */
  lemma ConvergedIff<P>(arm: Arm<P>, goal: P, q: Vector)
    ensures Converged(Residual(arm, goal, q)) <==> Reaches(arm, goal, q)
  {
    var p, g := arm.position(arm.flange(q)), arm.position(goal);
    SquareOfOpposite(p[0], g[0]);
    SquareOfOpposite(p[1], g[1]);
    SquareOfOpposite(p[2], g[2]);
  }

  /** The forward-difference Jacobian. */
  ghost function Jacobian<P>(arm: Arm<P>, q: Vector): (j: Matrix)
    requires |q| >= 6
    ensures IsJacobian(j)
  {
    var cur := arm.flange(q);
    seq(6, r requires 0 <= r < 6 =>
      seq(6, k requires 0 <= k < 6 =>
        var pert := arm.flange(Perturbed(q, k));
        if r < 3 then (arm.position(pert)[r] - arm.position(cur)[r]) / DELTA
        else arm.orientationError(cur, pert)[r - 3] / DELTA))
  }

  /** One joint after a step: the step is limited, then the joint is. */
  function MovedJoint(q: real, dq: real, k: nat): real
    requires k < 6
  {
    Bound(JOINT_LOW[k], q + Bound(-STEP_LIMIT, dq, STEP_LIMIT), JOINT_HIGH[k])
  }

  ghost function Moved(q: Vector, dq: Vector6): (r: Vector)
    requires |q| >= 6
    ensures |r| == |q|
  {
    seq(|q|, k requires 0 <= k < |q| => if k < 6 then MovedJoint(q[k], dq[k], k) else q[k])
  }

  /** `next` follows `q`: the clamped move along the minimiser at `q`. */
  ghost predicate Follows<P>(arm: Arm<P>, goal: P, q: Vector, next: Vector)
    requires |q| >= 6
  {
    && !Reaches(arm, goal, q)
    && exists dq: Vector6 ::
      && Minimises(Jacobian(arm, q), Residual(arm, goal, q), dq)
      && next == Moved(q, dq)
  }

  ghost predicate IsSearch<P>(arm: Arm<P>, goal: P, path: seq<Vector>) {
    && |path| >= 1
    && (forall i | 0 <= i < |path| :: |path[i]| >= 6)
    && (forall i | 0 <= i < |path| - 1 :: Follows(arm, goal, path[i], path[i + 1]))
  }

  /** The search from a seed is determined: the step at each point is unique. */
  lemma {:induction false} SearchIsDetermined<P>(arm: Arm<P>, goal: P, path: seq<Vector>, path': seq<Vector>, n: nat)
    requires IsSearch(arm, goal, path) && IsSearch(arm, goal, path')
    requires path[0] == path'[0] && n < |path| && n < |path'|
    ensures path[n] == path'[n]
  {
    if n > 0 {
      SearchIsDetermined(arm, goal, path, path', n - 1);
      var q := path[n - 1];
      assert Follows(arm, goal, q, path[n]) && Follows(arm, goal, path'[n - 1], path'[n]);
      var dq: Vector6 :| Minimises(Jacobian(arm, q), Residual(arm, goal, q), dq) && path[n] == Moved(q, dq);
      var dq': Vector6 :| Minimises(Jacobian(arm, q), Residual(arm, goal, q), dq') && path'[n] == Moved(q, dq');
      MinimiserIsUnique(Jacobian(arm, q), Residual(arm, goal, q), dq, dq');
    }
  }

  predicate InLimits(q: Vector)
    requires |q| >= 6
  {
    forall k | 0 <= k < 6 :: JOINT_LOW[k] <= q[k] <= JOINT_HIGH[k]
  }

  /** A step keeps the joints inside their travel, and once inside, moves none
      of them by more than the step limit. */
  lemma MovedStaysInLimits(q: Vector, dq: Vector6)
    requires |q| >= 6
    ensures InLimits(Moved(q, dq))
    ensures InLimits(q) ==> forall k | 0 <= k < 6 :: Abs(Moved(q, dq)[k] - q[k]) <= 0.2
  {
  }

  /** One column: the change of position and orientation, per radian. */
  method FillColumn(j: array2<real>, k: nat, p0: Vector, p1: Vector, dr: Vector)
    requires j.Length0 == 6 && j.Length1 == 6 && k < 6 && |p0| == |p1| == |dr| == 3
    modifies j
    ensures forall r, c | 0 <= r < 6 && 0 <= c < 6 && c != k :: j[r, c] == old(j[r, c])
    ensures forall r | 0 <= r < 6 :: j[r, k] == if r < 3 then (p1[r] - p0[r]) / DELTA else dr[r - 3] / DELTA
  {
    j[0, k] := (p1[0] - p0[0]) / DELTA;
    j[1, k] := (p1[1] - p0[1]) / DELTA;
    j[2, k] := (p1[2] - p0[2]) / DELTA;
    j[3, k] := dr[0] / DELTA;
    j[4, k] := dr[1] / DELTA;
    j[5, k] := dr[2] / DELTA;
  }

  method FillJacobian<P>(arm: Arm<P>, q: Vector, j: array2<real>)
    requires |q| >= 6 && j.Length0 == 6 && j.Length1 == 6
    modifies j
    ensures Rows(j) == Jacobian(arm, q)
  {
    var cur := arm.flange(q);
    for k := 0 to 6
      invariant forall r, c | 0 <= r < 6 && 0 <= c < k :: j[r, c] == Jacobian(arm, q)[r][c]
    {
      var pert := arm.flange(q[k := q[k] + DELTA]);
      assert pert == arm.flange(Perturbed(q, k));
      FillColumn(j, k, arm.position(cur), arm.position(pert), arm.orientationError(cur, pert));
    }
    assert forall r | 0 <= r < 6 :: Rows(j)[r] == Jacobian(arm, q)[r];
  }

  method RowProduct(j: array2<real>, r: nat, c: nat) returns (sum: real)
    requires j.Length0 == 6 && j.Length1 == 6 && r < 6 && c < 6
    ensures sum == Dot(Rows(j)[r], Rows(j)[c], 6)
  {
    sum := 0.0;
    for k := 0 to 6
      invariant sum == Dot(Rows(j)[r], Rows(j)[c], k)
    {
      sum := sum + j[r, k] * j[c, k];
    }
  }

  method FillNormalEquations(j: array2<real>, e: Vector6, aug: array2<real>)
    requires j.Length0 == 6 && j.Length1 == 6 && aug.Length0 == 6 && aug.Length1 == 7 && j != aug
    modifies aug
    ensures Rows(aug) == NormalEquations(Rows(j), e)
  {
    ghost var m := NormalEquations(Rows(j), e);
    for r := 0 to 6
      invariant forall i, c | 0 <= i < r && 0 <= c < 6 :: aug[i, c] == m[i][c]
    {
      for c := 0 to 6
        invariant forall i, k | 0 <= i < r && 0 <= k < 6 :: aug[i, k] == m[i][k]
        invariant forall k | 0 <= k < c :: aug[r, k] == m[r][k]
      {
        var sum := RowProduct(j, r, c);
        aug[r, c] := sum + (if r == c then DAMPING2 else 0.0);
      }
    }
    for r := 0 to 6
      invariant forall i, c | 0 <= i < 6 && 0 <= c < 6 :: aug[i, c] == m[i][c]
      invariant forall i | 0 <= i < r :: aug[i, 6] == m[i][6]
    {
      aug[r, 6] := e[r];
    }
    assert forall r | 0 <= r < 6 :: Rows(aug)[r] == m[r];
  }

  method ApplyStep(j: array2<real>, y: array<real>, q: Vector) returns (next: Vector)
    requires j.Length0 == 6 && j.Length1 == 6 && y.Length == 6 && |q| >= 6
    ensures next == Moved(q, Transposed(Rows(j), y[..]))
  {
    next := q;
    ghost var m := Rows(j);
    ghost var dqs := Transposed(m, y[..]);
    for k := 0 to 6
      invariant |next| == |q|
      invariant forall i | 0 <= i < |q| :: next[i] == if i < k then MovedJoint(q[i], dqs[i], i) else q[i]
    {
      var dq := 0.0;
      ghost var column := seq(6, r requires 0 <= r < 6 => m[r][k]);
      for r := 0 to 6
        invariant dq == Dot(column, y[..], r)
      {
        dq := dq + j[r, k] * y[r];
      }
      CombineCoordinate(m, y[..], 6, 6, column, k);
      DotSymmetric(column, y[..], 6);
      next := next[k := Bound(JOINT_LOW[k], next[k] + Bound(-STEP_LIMIT, dq, STEP_LIMIT), JOINT_HIGH[k])];
    }
  }

  /** The step direction: the solver succeeds and its solution minimises. */
  method SolveDamped(j: array2<real>, e: Vector6, y: array<real>) returns (ok: bool)
    requires j.Length0 == 6 && j.Length1 == 6 && y.Length == 6
    modifies y
    ensures ok && Minimises(Rows(j), e, Transposed(Rows(j), y[..]))
  {
    var aug := new real[6, 7];
    FillNormalEquations(j, e, aug);
    ghost var m := Rows(j);
    NeverNearlySingular(m, e);
    ok := Solve6(aug, y);
    assert Rows(j) == m;
    assert Solves(NormalEquations(m, e), y[..]);
    SolutionMinimises(m, e, y[..]);
  }

  /** One pass of the loop body for a joint vector that has not converged. */
  method DampedStep<P>(arm: Arm<P>, goal: P, q: Vector) returns (ok: bool, next: Vector)
    requires |q| >= 6 && !Reaches(arm, goal, q)
    ensures ok && Follows(arm, goal, q, next)
    ensures |next| == |q| && next[6..] == q[6..] && InLimits(next)
    ensures InLimits(q) ==> forall k | 0 <= k < 6 :: Abs(next[k] - q[k]) <= 0.2
  {
    var e := Residual(arm, goal, q);
    var j, y := new real[6, 6], new real[6];
    FillJacobian(arm, q, j);
    ok := SolveDamped(j, e, y);
    next := ApplyStep(j, y, q);
    ghost var dq := Transposed(Rows(j), y[..]);
    assert Minimises(Jacobian(arm, q), e, dq) && next == Moved(q, dq);
    MovedStaysInLimits(q, dq);
  }

  /** The whole search. The linear solver never fails, so a missing result means
      exactly a short seed or 120 steps without convergence. */
  method InverseKinematics<P>(arm: Arm<P>, goal: P, seed: Vector)
    returns (result: Option<Vector>, ghost path: seq<Vector>)
    ensures |seed| < 6 ==> result == None
    ensures |seed| >= 6 ==> IsSearch(arm, goal, path) && path[0] == seed && |path| <= 121
    ensures |seed| >= 6 && result == None ==> |path| == 121
    ensures result.Some? ==>
      && |seed| >= 6 && result.value == path[|path| - 1] && |path| <= 120
      && Reaches(arm, goal, result.value)
      && (result.value == seed || InLimits(result.value))
      && |result.value| == |seed| && result.value[6..] == seed[6..]
  {
    path := [];
    if |seed| < 6 {
      return None, path;
    }
    var q := seed;
    path := [q];
    for iter := 0 to MAX_ITERATIONS
      invariant |path| == iter + 1 && IsSearch(arm, goal, path)
      invariant path[0] == seed && path[iter] == q && |q| == |seed|
      invariant (q == seed || InLimits(q)) && q[6..] == seed[6..]
    {
      ConvergedIff(arm, goal, q);
      if Converged(Residual(arm, goal, q)) {
        return Some(q), path;
      }
      var ok, next := DampedStep(arm, goal, q);
      if !ok {
        assert false;
      }
      path := path + [next];
      q := next;
    }
    return None, path;
  }
}
