/** A step of the arm solver comes nearer to its goal. Everything here is said of the arm
    itself: its position, its orientation error and how they change with the joints. */
module KinematicsDescent {
  import opened LinearAlgebra
  import opened Kinematics

  /** The squared distance to the goal, in position and in orientation together. */
  function SquaredDistance<P>(arm: Arm<P>, goal: P, q: Vector): real {
    var at := arm.flange(q);
    Norm2(Plus(arm.position(at), -1.0, arm.position(goal))) + Norm2(arm.orientationError(at, goal))
  }

  /** How the first six joints differ. */
  ghost function Change(q: Vector, v: Vector): Vector6
    requires |q| >= 6 && |v| >= 6
  {
    seq(6, k requires 0 <= k < 6 => v[k] - q[k])
  }

  /** From `q` to `v` the flange moves and turns as the matrix says. */
  ghost predicate MovesBy<P>(arm: Arm<P>, q: Vector, v: Vector, m: Matrix)
    requires |q| >= 6 && |v| >= 6 && IsJacobian(m)
  {
    forall r | 0 <= r < 3 ::
      && arm.position(arm.flange(v))[r] == arm.position(arm.flange(q))[r] + Dot(m[r], Change(q, v), 6)
      && arm.orientationError(arm.flange(q), arm.flange(v))[r] == Dot(m[r + 3], Change(q, v), 6)
  }

  /** What is left to turn from `v` is what was left from `q`, less the turn between them. */
  ghost predicate TurnsAdd<P>(arm: Arm<P>, goal: P, q: Vector, v: Vector) {
    forall r | 0 <= r < 3 ::
      arm.orientationError(arm.flange(v), goal)[r]
      == arm.orientationError(arm.flange(q), goal)[r] - arm.orientationError(arm.flange(q), arm.flange(v))[r]
  }

  /** Near `q`, and as far as `next`, the arm is affine in its joints. */
  ghost predicate IsAffine<P>(arm: Arm<P>, goal: P, q: Vector, next: Vector, m: Matrix)
    requires |q| >= 6 && |next| >= 6 && IsJacobian(m)
  {
    && (forall k | 0 <= k < 6 :: MovesBy(arm, q, q[k := q[k] + DELTA], m))
    && MovesBy(arm, q, next, m) && TurnsAdd(arm, goal, q, next)
  }

  /** Neither the limit on a step nor the limits of the joints were met. */
  predicate Unlimited(q: Vector, next: Vector) {
    && |q| >= 6 && |q| == |next| && q[6..] == next[6..]
    && forall k | 0 <= k < 6 ::
         -0.2 < next[k] - q[k] < 0.2 && JOINT_LOW[k] < next[k] < JOINT_HIGH[k]
  }

  lemma PerturbedEntry(m: Matrix, q: Vector, r: nat, k: nat)
    requires IsJacobian(m) && |q| >= 6 && r < 6 && k < 6
    ensures Dot(m[r], Change(q, q[k := q[k] + DELTA]), 6) == m[r][k] * DELTA
  {
    DotOneTerm(m[r], Change(q, q[k := q[k] + DELTA]), k, 6);
  }

  lemma Quotient(a: real)
    ensures (a * DELTA) / DELTA == a
  {
  }

  /** The differences taken by the solver find the matrix. */
  lemma JacobianIsFound<P>(arm: Arm<P>, q: Vector, m: Matrix)
    requires |q| >= 6 && IsJacobian(m) && forall k | 0 <= k < 6 :: MovesBy(arm, q, q[k := q[k] + DELTA], m)
    ensures Jacobian(arm, q) == m
  {
    var j := Jacobian(arm, q);
    forall r, k | 0 <= r < 6 && 0 <= k < 6 ensures j[r][k] == m[r][k] {
      assert MovesBy(arm, q, q[k := q[k] + DELTA], m);
      assert Perturbed(q, k) == q[k := q[k] + DELTA];
      PerturbedEntry(m, q, r, k);
      Quotient(m[r][k]);
      if r >= 3 {
        assert m[r - 3 + 3] == m[r];
      }
    }
    assert forall r | 0 <= r < 6 :: j[r] == m[r];
  }

  lemma UnlimitedStep(q: Vector, dq: Vector6)
    requires |q| >= 6 && Unlimited(q, Moved(q, dq))
    ensures Change(q, Moved(q, dq)) == dq
  {
  }

  lemma OneMore(e: Vector, n: nat)
    requires n < |e|
    ensures Dot(e, e, n + 1) == Dot(e, e, n) + e[n] * e[n]
  {
  }

  lemma Squares(e: Vector6)
    ensures Norm2(e) == e[0] * e[0] + e[1] * e[1] + e[2] * e[2] + e[3] * e[3] + e[4] * e[4] + e[5] * e[5]
  {
    OneMore(e, 0);
    OneMore(e, 1);
    OneMore(e, 2);
    OneMore(e, 3);
    OneMore(e, 4);
    OneMore(e, 5);
  }

  lemma ThreeSquares(e: Vector3)
    ensures Norm2(e) == e[0] * e[0] + e[1] * e[1] + e[2] * e[2]
  {
    OneMore(e, 0);
    OneMore(e, 1);
    OneMore(e, 2);
  }

  /** The residual is that distance. */
  lemma ResidualIsDistance<P>(arm: Arm<P>, goal: P, q: Vector)
    ensures Norm2(Residual(arm, goal, q)) == SquaredDistance(arm, goal, q)
  {
    var at := arm.flange(q);
    var p, g, w := arm.position(at), arm.position(goal), arm.orientationError(at, goal);
    Squares(Residual(arm, goal, q));
    ThreeSquares(Plus(p, -1.0, g));
    ThreeSquares(w);
    SquareOfOpposite(p[0], g[0]);
    SquareOfOpposite(p[1], g[1]);
    SquareOfOpposite(p[2], g[2]);
  }

  lemma {:induction false} OppositeNorm(a: Vector, b: Vector, n: nat)
    requires n <= |a| == |b| && forall i | 0 <= i < |a| :: b[i] == -a[i]
    ensures Dot(a, a, n) == Dot(b, b, n)
  {
    if n > 0 {
      OppositeNorm(a, b, n - 1);
    }
  }

  /** What remains after the step is what the step did not account for. */
  lemma ResidualAfter<P>(arm: Arm<P>, goal: P, q: Vector, next: Vector, m: Matrix)
    requires |q| >= 6 && |next| >= 6 && IsJacobian(m) && IsAffine(arm, goal, q, next, m)
    ensures Norm2(Residual(arm, goal, next)) == Norm2(Plus(Apply(m, Change(q, next)), -1.0, Residual(arm, goal, q)))
  {
    var e, e', dq := Residual(arm, goal, q), Residual(arm, goal, next), Change(q, next);
    var rest := Plus(Apply(m, dq), -1.0, e);
    forall r | 0 <= r < 6 ensures e'[r] == -rest[r] {
      var i := if r < 3 then r else r - 3;
      assert arm.position(arm.flange(next))[i] == arm.position(arm.flange(q))[i] + Dot(m[i], dq, 6);
      assert arm.orientationError(arm.flange(q), arm.flange(next))[i] == Dot(m[i + 3], dq, 6);
    }
    OppositeNorm(rest, e', 6);
  }

  lemma NoStepCosts(j: Matrix, e: Vector6, zero: Vector6)
    requires IsJacobian(j) && forall i | 0 <= i < 6 :: zero[i] == 0.0
    ensures Cost(j, e, zero) == Norm2(e)
  {
    var rest := Plus(Apply(j, zero), -1.0, e);
    forall r | 0 <= r < 6 ensures rest[r] == -e[r] {
      DotSymmetric(j[r], zero, 6);
      DotZero(zero, j[r], 6);
    }
    OppositeNorm(e, rest, 6);
    DotZero(zero, zero, 6);
  }

  /** The minimiser of the damped cost leaves less than there was, unless it is zero. */
  lemma MinimiserGains(j: Matrix, e: Vector6, dq: Vector6, zero: Vector6)
    requires IsJacobian(j) && Minimises(j, e, dq) && dq != zero && forall i | 0 <= i < 6 :: zero[i] == 0.0
    ensures Norm2(Plus(Apply(j, dq), -1.0, e)) < Norm2(e)
  {
    NoStepCosts(j, e, zero);
    Norm2Nonnegative(dq, 6);
    assert Cost(j, e, dq) < Cost(j, e, zero);
  }

  /** Where position and orientation are affine in the joints and no limit is met, every step
      of the search other than none at all ends strictly nearer to the goal. */
  lemma StepComesNearer<P>(arm: Arm<P>, goal: P, q: Vector, next: Vector, m: Matrix)
    requires |q| >= 6 && |next| >= 6 && IsJacobian(m) && Follows(arm, goal, q, next)
    requires IsAffine(arm, goal, q, next, m) && Unlimited(q, next)
    ensures next == q || SquaredDistance(arm, goal, next) < SquaredDistance(arm, goal, q)
  {
    JacobianIsFound(arm, q, m);
    var e := Residual(arm, goal, q);
    var dq: Vector6 :| Minimises(Jacobian(arm, q), e, dq) && next == Moved(q, dq);
    UnlimitedStep(q, dq);
    var zero := seq(6, i => 0.0);
    if dq == zero {
      assert next == q;
    } else {
      MinimiserGains(m, e, dq, zero);
      ResidualAfter(arm, goal, q, next, m);
      ResidualIsDistance(arm, goal, q);
      ResidualIsDistance(arm, goal, next);
    }
  }

  /** So does a whole search. */
  lemma {:induction false} SearchComesNearer<P>(arm: Arm<P>, goal: P, path: seq<Vector>, m: Matrix)
    requires IsSearch(arm, goal, path) && IsJacobian(m)
    requires forall i | 0 <= i < |path| - 1 ::
      IsAffine(arm, goal, path[i], path[i + 1], m) && Unlimited(path[i], path[i + 1])
    ensures var last := path[|path| - 1];
      last == path[0] || SquaredDistance(arm, goal, last) < SquaredDistance(arm, goal, path[0])
    decreases |path|
  {
    if |path| > 1 {
      var n := |path| - 1;
      SearchComesNearer(arm, goal, path[..n], m);
      StepComesNearer(arm, goal, path[n - 1], path[n], m);
    }
  }

  // ----- how fast -----

  /** The rows are perpendicular unit vectors. */
  ghost predicate IsOrthonormal(m: Matrix)
    requires IsJacobian(m)
  {
    forall r, c | 0 <= r < 6 && 0 <= c < 6 :: Dot(m[r], m[c], 6) == if r == c then 1.0 else 0.0
  }

  ghost function Scaled(f: real, e: Vector6): Vector6 {
    seq(6, i requires 0 <= i < 6 => f * e[i])
  }

  /** `m (m^T y) == y`. */
  lemma ThereAndBack(m: Matrix, y: Vector6, r: nat)
    requires IsJacobian(m) && IsOrthonormal(m) && r < 6
    ensures Dot(m[r], Transposed(m, y), 6) == y[r]
  {
    forall c | 0 <= c < 6 ensures Apply(m, m[r])[c] == if c == r then 1.0 else 0.0 {
      assert Dot(m[c], m[r], 6) == if c == r then 1.0 else 0.0;
    }
    GramRow(m, y, r);
    DotUnit(Apply(m, m[r]), y, r);
  }

  lemma Shares(a: real, f: real)
    requires f * (1.0 + DAMPING2) == 1.0
    ensures f * a + DAMPING2 * (f * a) == a && f * a - a == (-(DAMPING2 * f)) * a
  {
  }

  /** The damped step of such a matrix. */
  lemma OrthonormalStep(m: Matrix, e: Vector6, f: real)
    requires IsJacobian(m) && IsOrthonormal(m) && f * (1.0 + DAMPING2) == 1.0
    ensures Minimises(m, e, Transposed(m, Scaled(f, e)))
    ensures Plus(Apply(m, Transposed(m, Scaled(f, e))), -1.0, e) == Scaled(-(DAMPING2 * f), e)
  {
    var y := Scaled(f, e);
    forall r | 0 <= r < 6
      ensures Dot(NormalEquations(m, e)[r], y, 6) == e[r]
      ensures Dot(m[r], Transposed(m, y), 6) - e[r] == -(DAMPING2 * f) * e[r] {
      ThereAndBack(m, y, r);
      NormalRow(m, e, y, r);
      Shares(e[r], f);
    }
    SolutionMinimises(m, e, y);
  }

  lemma {:induction false} ScaledNorm(f: real, e: Vector6, n: nat)
    requires n <= 6
    ensures Dot(Scaled(f, e), Scaled(f, e), n) == f * f * Dot(e, e, n)
  {
    if n > 0 {
      ScaledNorm(f, e, n - 1);
      ScaledSquare(f, e[n - 1], Dot(e, e, n - 1));
    }
  }

  lemma ScaledSquare(f: real, a: real, d: real)
    ensures f * f * (d + a * a) == f * f * d + (f * a) * (f * a)
  {
  }

  lemma StepIs<P>(arm: Arm<P>, goal: P, q: Vector, next: Vector, m: Matrix, e: Vector6, f: real)
    requires |q| >= 6 && |next| >= 6 && IsJacobian(m) && IsOrthonormal(m) && Follows(arm, goal, q, next)
    requires forall k | 0 <= k < 6 :: MovesBy(arm, q, q[k := q[k] + DELTA], m)
    requires Unlimited(q, next) && e == Residual(arm, goal, q) && f * (1.0 + DAMPING2) == 1.0
    ensures Plus(Apply(m, Change(q, next)), -1.0, e) == Scaled(-(DAMPING2 * f), e)
  {
    JacobianIsFound(arm, q, m);
    var dq: Vector6 :| Minimises(Jacobian(arm, q), e, dq) && next == Moved(q, dq);
    UnlimitedStep(q, dq);
    OrthonormalStep(m, e, f);
    MinimiserIsUnique(m, e, dq, Transposed(m, Scaled(f, e)));
  }

  /** Where the joints move the flange without distortion, what is left of the way after a step
      that meets no limit is 0.0036 / 1.0036 of what it was. */
  lemma UndistortedStepShrinks<P>(arm: Arm<P>, goal: P, q: Vector, next: Vector, m: Matrix, share: real)
    requires |q| >= 6 && |next| >= 6 && IsJacobian(m) && IsOrthonormal(m) && Follows(arm, goal, q, next)
    requires IsAffine(arm, goal, q, next, m) && Unlimited(q, next) && share * 1.0036 == 0.0036
    ensures SquaredDistance(arm, goal, next) == share * share * SquaredDistance(arm, goal, q)
  {
    var e, f := Residual(arm, goal, q), 1.0 / 1.0036;
    StepIs(arm, goal, q, next, m, e, f);
    ResidualAfter(arm, goal, q, next, m);
    ScaledNorm(-(DAMPING2 * f), e, 6);
    ResidualIsDistance(arm, goal, q);
    ResidualIsDistance(arm, goal, next);
    assert -(DAMPING2 * f) == -share;
  }
}
