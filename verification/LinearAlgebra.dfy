/** Finite-dimensional real vectors, just enough of them for the damped
    least-squares step of the arm solver. */
module LinearAlgebra {
  import opened Reals

  type Vector = seq<real>
  type Matrix = seq<seq<real>>

  /** The inner product of the first `n` coordinates. */
  function Dot(a: Vector, b: Vector, n: nat): real
    requires n <= |a| && n <= |b|
  {
    if n == 0 then 0.0 else Dot(a, b, n - 1) + a[n - 1] * b[n - 1]
  }

  function Norm2(a: Vector): real {
    Dot(a, a, |a|)
  }

  function Plus(a: Vector, f: real, b: Vector): (r: Vector)
    requires |a| == |b|
    ensures |r| == |a|
  {
    seq(|a|, i requires 0 <= i < |a| => a[i] + f * b[i])
  }

  /** `x[0] * rows[0] + ... + x[n-1] * rows[n-1]`, a vector of dimension `m`. */
  function Combine(rows: Matrix, x: Vector, n: nat, m: nat): (r: Vector)
    requires n <= |rows| && n <= |x|
    requires forall i | 0 <= i < n :: |rows[i]| == m
    ensures |r| == m
  {
    if n == 0 then seq(m, i => 0.0) else Plus(Combine(rows, x, n - 1, m), x[n - 1], rows[n - 1])
  }

  /** The matrix-vector product. */
  function Apply(rows: Matrix, x: Vector): (r: Vector)
    requires forall i | 0 <= i < |rows| :: |rows[i]| == |x|
    ensures |r| == |rows|
  {
    seq(|rows|, i requires 0 <= i < |rows| => Dot(rows[i], x, |x|))
  }

  lemma {:induction false} DotSymmetric(a: Vector, b: Vector, n: nat)
    requires n <= |a| && n <= |b|
    ensures Dot(a, b, n) == Dot(b, a, n)
  {
    if n > 0 {
      DotSymmetric(a, b, n - 1);
    }
  }

  lemma {:induction false} DotPlus(a: Vector, f: real, b: Vector, x: Vector, n: nat)
    requires |a| == |b| && n <= |a| && n <= |x|
    ensures Dot(Plus(a, f, b), x, n) == Dot(a, x, n) + f * Dot(b, x, n)
  {
    if n > 0 {
      DotPlus(a, f, b, x, n - 1);
      var p := Plus(a, f, b)[n - 1];
      assert p * x[n - 1] == a[n - 1] * x[n - 1] + f * (b[n - 1] * x[n - 1]);
      assert f * (Dot(b, x, n - 1) + b[n - 1] * x[n - 1])
          == f * Dot(b, x, n - 1) + f * (b[n - 1] * x[n - 1]);
    }
  }

  /** Agreeing vectors have equal inner products. */
  lemma {:induction false} DotCongruent(a: Vector, a': Vector, x: Vector, n: nat)
    requires n <= |a| && n <= |a'| && n <= |x|
    requires forall i | 0 <= i < n :: a[i] == a'[i]
    ensures Dot(a, x, n) == Dot(a', x, n)
  {
    if n > 0 {
      DotCongruent(a, a', x, n - 1);
    }
  }

  lemma {:induction false} DotZero(a: Vector, x: Vector, n: nat)
    requires n <= |a| && n <= |x|
    requires forall i | 0 <= i < n :: a[i] * x[i] == 0.0
    ensures Dot(a, x, n) == 0.0
  {
    if n > 0 {
      DotZero(a, x, n - 1);
    }
  }

  /** An inner product with at most two nonzero terms, at `i` and `j`. */
  lemma {:induction false} DotTwoTerms(a: Vector, x: Vector, i: nat, j: nat, n: nat)
    requires i < j < n <= |a| && n <= |x|
    requires forall k | 0 <= k < n && k != i && k != j :: a[k] * x[k] == 0.0
    ensures Dot(a, x, n) == a[i] * x[i] + a[j] * x[j]
  {
    if n - 1 > j {
      DotTwoTerms(a, x, i, j, n - 1);
    } else {
      DotOneTerm(a, x, i, n - 1);
    }
  }

  lemma {:induction false} DotOneTerm(a: Vector, x: Vector, i: nat, n: nat)
    requires i < n <= |a| && n <= |x|
    requires forall k | 0 <= k < n && k != i :: a[k] * x[k] == 0.0
    ensures Dot(a, x, n) == a[i] * x[i]
  {
    if n - 1 > i {
      DotOneTerm(a, x, i, n - 1);
    } else {
      DotZero(a, x, n - 1);
    }
  }

  lemma {:induction false} SquareWithin(a: Vector, i: nat, n: nat)
    requires i < n <= |a|
    ensures Times(a[i], a[i]) <= Dot(a, a, n)
  {
    Norm2Nonnegative(a, n - 1);
    if i < n - 1 {
      SquareWithin(a, i, n - 1);
    }
  }

  lemma {:induction false} Norm2Nonnegative(a: Vector, n: nat)
    requires n <= |a|
    ensures Dot(a, a, n) >= 0.0
  {
    if n > 0 {
      Norm2Nonnegative(a, n - 1);
    }
  }

  function Budget(v: Vector, e: real, n: nat): real
    requires n <= |v|
  {
    if n == 0 then 0.0 else Budget(v, e, n - 1) + e * (1.0 + v[n - 1] * v[n - 1])
  }

  lemma {:induction false} BudgetClosed(v: Vector, e: real, n: nat)
    requires n <= |v|
    ensures Budget(v, e, n) == e * (n as real + Dot(v, v, n))
  {
    if n > 0 {
      BudgetClosed(v, e, n - 1);
      Distribute(e, (n - 1) as real + Dot(v, v, n - 1), 1.0 + v[n - 1] * v[n - 1]);
    }
  }

  lemma Distribute(e: real, a: real, b: real)
    ensures e * (a + b) == e * a + e * b
  {
  }

  /** `2 v.d <= e * (n + |v|^2)` when every `|d[i]| <= e`. */
  lemma {:induction false} DotBound(v: Vector, d: Vector, e: real, n: nat)
    requires n <= |v| && n <= |d|
    requires forall i | 0 <= i < n :: Abs(d[i]) <= e
    ensures 2.0 * Dot(v, d, n) <= Budget(v, e, n)
  {
    if n > 0 {
      DotBound(v, d, e, n - 1);
      TermBound(v[n - 1], d[n - 1], e);
    }
  }

  lemma TermBound(v: real, d: real, e: real)
    requires Abs(d) <= e
    ensures 2.0 * (v * d) <= e * (1.0 + v * v)
  {
    var w := Abs(v);
    NonnegativeTimes(w, e - Abs(d));
    NonnegativeTimes((w - 1.0) * (w - 1.0), e);
    assert (w - 1.0) * (w - 1.0) * e == e * (1.0 + v * v) - 2.0 * (w * e);
  }

  /** A combination of rows dotted with `v` is the combination of the dots. */
  lemma {:induction false} CombineDot(rows: Matrix, x: Vector, v: Vector, n: nat)
    requires n <= |rows| && n <= |x|
    requires forall i | 0 <= i < |rows| :: |rows[i]| == |v|
    ensures Dot(Combine(rows, x, n, |v|), v, |v|) == Dot(Apply(rows, v), x, n)
  {
    if n == 0 {
      DotZero(Combine(rows, x, 0, |v|), v, |v|);
    } else {
      CombineDot(rows, x, v, n - 1);
      DotPlus(Combine(rows, x, n - 1, |v|), x[n - 1], rows[n - 1], v, |v|);
    }
  }

  /** The transpose is the adjoint: `(A^T x) . v == x . (A v)`. */
  lemma Adjoint(rows: Matrix, x: Vector, v: Vector)
    requires |x| == |rows|
    requires forall i | 0 <= i < |rows| :: |rows[i]| == |v|
    ensures Dot(Combine(rows, x, |rows|, |v|), v, |v|) == Dot(x, Apply(rows, v), |rows|)
  {
    CombineDot(rows, x, v, |rows|);
    DotSymmetric(x, Apply(rows, v), |rows|);
  }

  /** A coordinate of `A^T x` is the inner product of `x` with a column. */
  lemma {:induction false} CombineCoordinate(rows: Matrix, x: Vector, n: nat, m: nat, col: Vector, j: nat)
    requires n <= |rows| && n <= |x| && n <= |col| && j < m
    requires forall i | 0 <= i < n :: |rows[i]| == m && col[i] == rows[i][j]
    ensures Combine(rows, x, n, m)[j] == Dot(col, x, n)
  {
    if n > 0 {
      CombineCoordinate(rows, x, n - 1, m, col, j);
    }
  }

  /** `|a + b|^2 == |a|^2 + 2 a.b + |b|^2`. */
  lemma Norm2Plus(a: Vector, b: Vector)
    requires |a| == |b|
    ensures Norm2(Plus(a, 1.0, b)) == Norm2(a) + 2.0 * Dot(a, b, |a|) + Norm2(b)
  {
    var n, s := |a|, Plus(a, 1.0, b);
    DotPlus(a, 1.0, b, s, n);
    DotSymmetric(a, s, n);
    DotSymmetric(b, s, n);
    DotPlus(a, 1.0, b, a, n);
    DotPlus(a, 1.0, b, b, n);
    DotSymmetric(a, b, n);
  }
}
