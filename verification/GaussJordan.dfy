/** `solve6`: in-place Gauss-Jordan elimination with partial pivoting on a 6 x 7
    augmented matrix, over exact reals. */
module GaussJordan {
  import opened Reals
  import opened LinearAlgebra

  const PIVOT_FLOOR: real := 0.000000000001

  ghost predicate IsSystem(m: Matrix) {
    |m| == 6 && forall r | 0 <= r < 6 :: |m[r]| == 7
  }

  /** The contents of a two-dimensional array, row by row. */
  ghost function Rows(a: array2<real>): (m: Matrix)
    reads a
    ensures |m| == a.Length0 && forall r | 0 <= r < |m| :: |m[r]| == a.Length1
  {
    seq(a.Length0, r requires 0 <= r < a.Length0 reads a =>
      seq(a.Length1, c requires 0 <= c < a.Length1 reads a => a[r, c]))
  }

  /** `x` satisfies all six equations. */
  ghost predicate Solves(m: Matrix, x: Vector)
    requires IsSystem(m) && |x| == 6
  {
    forall r | 0 <= r < 6 :: Dot(m[r], x, |x|) == m[r][6]
  }

  ghost predicate SameSolutions(m: Matrix, m': Matrix)
    requires IsSystem(m) && IsSystem(m')
  {
    forall x: Vector | |x| == 6 :: Solves(m, x) <==> Solves(m', x)
  }

  /** Applied to `x`, rows above `col` vanish and the others are at most `e` in size. */
  ghost predicate Within(m: Matrix, x: Vector, col: nat, e: real)
    requires IsSystem(m) && |x| == 6
  {
    forall r | 0 <= r < 6 :: if r < col then Dot(m[r], x, |x|) == 0.0 else Abs(Dot(m[r], x, |x|)) <= e
  }

  /** Some vector with a coordinate equal to one is mapped by the coefficient
      columns to a vector whose every coordinate is below the pivot floor. */
  ghost predicate NearlySingular(m: Matrix)
    requires IsSystem(m)
  {
    exists x: Vector, e: real ::
      |x| == 6 && 1.0 in x && 0.0 <= e < PIVOT_FLOOR && Within(m, x, 0, e)
  }

  /** A vector that the partly eliminated system maps into `Within` is mapped by the
      original system to something no larger: what relates a small pivot found
      late to the matrix the caller supplied. */
  ghost predicate Dominates(m0: Matrix, m: Matrix, col: nat)
    requires IsSystem(m0) && IsSystem(m)
  {
    forall x: Vector, e: real | |x| == 6 && e >= 0.0 && Within(m, x, col, e) :: Within(m0, x, 0, e)
  }

  /** The first `col` columns are diagonal with a nonzero diagonal. */
  ghost predicate Reduced(m: Matrix, col: nat)
    requires IsSystem(m)
  {
    && (forall i, j | 0 <= i < 6 && 0 <= j < col && j < 6 && i != j :: m[i][j] == 0.0)
    && (forall j | 0 <= j < col && j < 6 :: m[j][j] != 0.0)
  }

  ghost function Swapped(m: Matrix, i: nat, j: nat): (r: Matrix)
    requires i < |m| && j < |m|
    ensures |r| == |m|
  {
    m[i := m[j]][j := m[i]]
  }

  ghost function Eliminated(m: Matrix, col: nat): (r: Matrix)
    requires IsSystem(m) && col < 6 && m[col][col] != 0.0
    ensures IsSystem(r)
  {
    seq(6, r requires 0 <= r < 6 =>
      if r == col then m[col] else Plus(m[r], -(m[r][col] / m[col][col]), m[col]))
  }

  lemma SwapKeepsMeaning(m0: Matrix, m: Matrix, i: nat, j: nat)
    requires IsSystem(m0) && IsSystem(m) && i <= j < 6
    requires SameSolutions(m0, m) && Dominates(m0, m, i) && Reduced(m, i)
    ensures SameSolutions(m0, Swapped(m, i, j))
    ensures Dominates(m0, Swapped(m, i, j), i)
    ensures Reduced(Swapped(m, i, j), i)
  {
    var s := Swapped(m, i, j);
    forall x: Vector | |x| == 6 ensures Solves(m, x) <==> Solves(s, x) {
      assert s[i] == m[j] && s[j] == m[i];
      assert m == Swapped(s, i, j);
    }
    forall x: Vector, e: real | |x| == 6 && e >= 0.0 && Within(s, x, i, e) ensures Within(m0, x, 0, e) {
      forall r | 0 <= r < 6
        ensures if r < i then Dot(m[r], x, |x|) == 0.0 else Abs(Dot(m[r], x, |x|)) <= e
      {
        assert m[r] == s[if r == i then j else if r == j then i else r];
      }
      assert Within(m, x, i, e);
    }
  }

  lemma EliminateRow(m: Matrix, col: nat, r: nat, x: Vector)
    requires IsSystem(m) && col < 6 && r < 6 && r != col && m[col][col] != 0.0 && |x| == 6
    ensures Dot(Eliminated(m, col)[r], x, |x|)
         == Dot(m[r], x, |x|) - m[r][col] / m[col][col] * Dot(m[col], x, |x|)
    ensures Eliminated(m, col)[r][6] == m[r][6] - m[r][col] / m[col][col] * m[col][6]
  {
    DotPlus(m[r], -(m[r][col] / m[col][col]), m[col], x, |x|);
  }

  lemma EliminateSolution(m: Matrix, col: nat, x: Vector)
    requires IsSystem(m) && col < 6 && m[col][col] != 0.0 && |x| == 6
    ensures Solves(m, x) <==> Solves(Eliminated(m, col), x)
  {
    var t := Eliminated(m, col);
    assert t[col] == m[col];
    forall r | 0 <= r < 6 && r != col
      ensures Dot(m[col], x, |x|) == m[col][6] ==>
        (Dot(m[r], x, |x|) == m[r][6] <==> Dot(t[r], x, |x|) == t[r][6])
    {
      EliminateRow(m, col, r, x);
    }
  }

  lemma EliminateWithin(m: Matrix, col: nat, x: Vector, e: real)
    requires IsSystem(m) && col < 6 && m[col][col] != 0.0 && |x| == 6 && e >= 0.0
    requires Within(Eliminated(m, col), x, col + 1, e)
    ensures Within(m, x, col, e)
  {
    var t := Eliminated(m, col);
    assert t[col] == m[col] && Dot(t[col], x, |x|) == 0.0;
    forall r | 0 <= r < 6 && r != col ensures Dot(m[r], x, |x|) == Dot(t[r], x, |x|) {
      EliminateRow(m, col, r, x);
      assert m[r][col] / m[col][col] * 0.0 == 0.0;
    }
  }

  lemma EliminateKeepsMeaning(m0: Matrix, m: Matrix, col: nat)
    requires IsSystem(m0) && IsSystem(m) && col < 6 && m[col][col] != 0.0
    requires SameSolutions(m0, m) && Dominates(m0, m, col)
    ensures SameSolutions(m0, Eliminated(m, col))
    ensures Dominates(m0, Eliminated(m, col), col + 1)
  {
    var t := Eliminated(m, col);
    forall x: Vector | |x| == 6 ensures Solves(m0, x) <==> Solves(t, x) {
      EliminateSolution(m, col, x);
    }
    forall x: Vector, e: real | |x| == 6 && e >= 0.0 && Within(t, x, col + 1, e) ensures Within(m0, x, 0, e) {
      EliminateWithin(m, col, x, e);
    }
  }

  lemma EliminateReduces(m: Matrix, col: nat)
    requires IsSystem(m) && col < 6 && m[col][col] != 0.0 && Reduced(m, col)
    ensures Reduced(Eliminated(m, col), col + 1)
  {
  }

  /** The vector that shows a column without a usable pivot to be nearly
      dependent on the columns before it. */
  ghost function Dependency(m: Matrix, col: nat): (x: Vector)
    requires IsSystem(m) && col < 6 && Reduced(m, col)
    ensures |x| == 6
  {
    seq(6, j requires 0 <= j < 6 =>
      if j < col then -(m[j][col] / m[j][j]) else if j == col then 1.0 else 0.0)
  }

  lemma DependencyImage(m: Matrix, col: nat, r: nat)
    requires IsSystem(m) && col < 6 && Reduced(m, col) && r < 6
    ensures Dot(m[r], Dependency(m, col), |Dependency(m, col)|) == if r < col then 0.0 else m[r][col]
  {
    var x := Dependency(m, col);
    forall k | 0 <= k < 6 && k != col && k != r ensures m[r][k] * x[k] == 0.0 {
      assert m[r][k] == 0.0 || x[k] == 0.0;
    }
    if r < col {
      DotTwoTerms(m[r], x, r, col, |x|);
      Cancel(m[r][r], m[r][col]);
    } else if r > col {
      assert x[r] == 0.0;
      DotTwoTerms(m[r], x, col, r, |x|);
    } else {
      DotOneTerm(m[r], x, col, |x|);
    }
  }

  lemma Cancel(p: real, a: real)
    requires p != 0.0
    ensures p * -(a / p) + a * 1.0 == 0.0
  {
  }

  lemma SmallPivotMeansNearlySingular(m0: Matrix, m: Matrix, col: nat, pivot: nat)
    requires IsSystem(m0) && IsSystem(m) && col <= pivot < 6
    requires Dominates(m0, m, col) && Reduced(m, col)
    requires forall r | col <= r < 6 :: Abs(m[r][col]) <= Abs(m[pivot][col])
    requires Abs(m[pivot][col]) < PIVOT_FLOOR
    ensures NearlySingular(m0)
  {
    var x, e := Dependency(m, col), Abs(m[pivot][col]);
    forall r | 0 <= r < 6
      ensures Dot(m[r], x, |x|) == if r < col then 0.0 else m[r][col]
    {
      DependencyImage(m, col, r);
    }
    assert Within(m, x, col, e);
    assert x[col] == 1.0;
    assert Within(m0, x, 0, e);
  }

  lemma DiagonalSolution(m: Matrix, x: Vector, y: Vector)
    requires IsSystem(m) && Reduced(m, 6) && |x| == 6 && |y| == 6
    requires forall i | 0 <= i < 6 :: y[i] == m[i][6] / m[i][i]
    ensures Solves(m, x) <==> x == y
  {
    forall i | 0 <= i < 6 ensures Dot(m[i], x, |x|) == m[i][6] <==> x[i] == y[i] {
      DotOneTerm(m[i], x, i, |x|);
      Quotient(m[i][i], x[i], m[i][6]);
    }
    if Solves(m, x) {
      assert forall i | 0 <= i < 6 :: x[i] == y[i];
    }
  }

  lemma Quotient(a: real, x: real, b: real)
    requires a != 0.0
    ensures a * x == b <==> x == b / a
  {
  }

  /** The row at or below `col` with the largest entry in that column. */
  method FindPivot(a: array2<real>, col: nat) returns (pivot: nat)
    requires a.Length0 == 6 && a.Length1 == 7 && col < 6
    ensures col <= pivot < 6
    ensures forall r | col <= r < 6 :: Abs(a[r, col]) <= Abs(a[pivot, col])
  {
    pivot := col;
    for r := col + 1 to 6
      invariant col <= pivot < 6
      invariant forall k | col <= k < r :: Abs(a[k, col]) <= Abs(a[pivot, col])
    {
      if Abs(a[r, col]) > Abs(a[pivot, col]) {
        pivot := r;
      }
    }
  }

  method SwapRows(a: array2<real>, i: nat, j: nat)
    requires a.Length0 == 6 && a.Length1 == 7 && i < 6 && j < 6
    modifies a
    ensures Rows(a) == Swapped(old(Rows(a)), i, j)
  {
    for c := 0 to 7
      invariant forall k | c <= k < 7 :: a[i, k] == old(a[i, k]) && a[j, k] == old(a[j, k])
      invariant forall k | 0 <= k < c :: a[i, k] == old(a[j, k]) && a[j, k] == old(a[i, k])
      invariant forall r, k | 0 <= r < 6 && r != i && r != j && 0 <= k < 7 :: a[r, k] == old(a[r, k])
    {
      a[i, c], a[j, c] := a[j, c], a[i, c];
    }
    forall r | 0 <= r < 6 ensures Rows(a)[r] == Swapped(old(Rows(a)), i, j)[r] {
    }
  }

  /** Subtracts `f` times row `col` from row `r`, in columns `col` and later. */
  method SubtractRow(a: array2<real>, r: nat, col: nat, f: real)
    requires a.Length0 == 6 && a.Length1 == 7 && col < 6 && r < 6 && r != col
    modifies a
    ensures forall i, k | 0 <= i < 6 && 0 <= k < 7 ::
      a[i, k] == if i == r && k >= col then old(a[r, k]) - f * old(a[col, k]) else old(a[i, k])
  {
    for c := col to 7
      invariant forall i, k | 0 <= i < 6 && 0 <= k < 7 && !(i == r && col <= k < c) :: a[i, k] == old(a[i, k])
      invariant forall k | col <= k < c :: a[r, k] == old(a[r, k]) - f * old(a[col, k])
    {
      a[r, c] := a[r, c] - f * a[col, c];
    }
  }

  lemma EliminatedRow(m: Matrix, col: nat, r: nat, row: Vector)
    requires IsSystem(m) && col < 6 && m[col][col] != 0.0 && Reduced(m, col)
    requires r < 6 && r != col && |row| == 7
    requires forall k | 0 <= k < 7 ::
      row[k] == if k >= col then m[r][k] - m[r][col] / m[col][col] * m[col][k] else m[r][k]
    ensures Eliminated(m, col)[r] == row
  {
    var f := m[r][col] / m[col][col];
    forall k | 0 <= k < 7 ensures Eliminated(m, col)[r][k] == row[k] {
      assert Eliminated(m, col)[r][k] == m[r][k] + -f * m[col][k];
      if k < col {
        assert m[col][k] == 0.0;
      }
    }
  }

  method EliminateColumn(a: array2<real>, col: nat)
    requires a.Length0 == 6 && a.Length1 == 7 && col < 6 && a[col, col] != 0.0
    requires Reduced(Rows(a), col)
    modifies a
    ensures Rows(a) == Eliminated(old(Rows(a)), col)
  {
    ghost var m := Rows(a);
    ghost var t := Eliminated(m, col);
    for r := 0 to 6
      invariant forall i | 0 <= i < 6 :: Rows(a)[i] == if i < r then t[i] else m[i]
    {
      assert Rows(a)[col] == m[col] && Rows(a)[r] == m[r];
      if r != col {
        ghost var before := Rows(a);
        var f := a[r, col] / a[col, col];
        assert f == m[r][col] / m[col][col];
        SubtractRow(a, r, col, f);
        assert forall i | 0 <= i < 6 && i != r :: Rows(a)[i] == before[i];
        EliminatedRow(m, col, r, Rows(a)[r]);
      }
    }
  }

  /** True exactly with the unique solution of the system as given; false only on
      a system that is nearly singular. */
  method Solve6(a: array2<real>, out: array<real>) returns (ok: bool)
    requires a.Length0 == 6 && a.Length1 == 7 && out.Length == 6
    modifies a, out
    ensures ok ==> forall x: Vector | |x| == 6 :: Solves(old(Rows(a)), x) <==> x == out[..]
    ensures !ok ==> NearlySingular(old(Rows(a)))
  {
    ghost var m0 := Rows(a);
    for col := 0 to 6
      invariant SameSolutions(m0, Rows(a)) && Dominates(m0, Rows(a), col) && Reduced(Rows(a), col)
    {
      var pivot := FindPivot(a, col);
      ghost var m := Rows(a);
      if Abs(a[pivot, col]) < PIVOT_FLOOR {
        SmallPivotMeansNearlySingular(m0, m, col, pivot);
        return false;
      }
      if pivot != col {
        SwapKeepsMeaning(m0, m, col, pivot);
        SwapRows(a, col, pivot);
      }
      m := Rows(a);
      EliminateKeepsMeaning(m0, m, col);
      EliminateReduces(m, col);
      EliminateColumn(a, col);
    }
    ghost var m := Rows(a);
    assert forall k | 0 <= k < 6 :: a[k, k] == m[k][k];
    for i := 0 to 6
      invariant Rows(a) == m && forall k | 0 <= k < 6 :: a[k, k] != 0.0
      invariant forall k | 0 <= k < i :: out[k] == a[k, 6] / a[k, k]
    {
      out[i] := a[i, 6] / a[i, i];
    }
    forall x: Vector | |x| == 6 ensures Solves(m0, x) <==> x == out[..] {
      DiagonalSolution(Rows(a), x, out[..]);
    }
    return true;
  }
}
