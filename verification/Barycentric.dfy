/** Screen triangles: covering a pixel centre, stated once by convex combination and once
    by the affine weights that the rasteriser computes. */
module Barycentric {
  import opened Reals

  datatype Corner = Corner(x: real, y: real, z: real, light: real)

  datatype Colour = Colour(red: int, green: int, blue: int)

  datatype Triangle = Triangle(p0: Corner, p1: Corner, p2: Corner, base: Colour)

  const MIN_DET := 0.000000001

  /** Twice the signed area. */
  function Det(t: Triangle): real {
    Times(t.p1.y - t.p2.y, t.p0.x - t.p2.x) + Times(t.p2.x - t.p1.x, t.p0.y - t.p2.y)
  }

  predicate Degenerate(t: Triangle) {
    Abs(Det(t)) < MIN_DET
  }

  /** The cross product of two edges. */
  function Cross(t: Triangle): real {
    Times(t.p1.x - t.p0.x, t.p2.y - t.p0.y) - Times(t.p2.x - t.p0.x, t.p1.y - t.p0.y)
  }

  /** A triangle is left out exactly if twice its area is less than a thousand-millionth. */
  lemma DegenerateIff(t: Triangle)
    ensures Degenerate(t) <==> -0.000000001 < Cross(t) < 0.000000001
  {
    var a, b, c, d := t.p1.x - t.p0.x, t.p2.y - t.p0.y, t.p2.x - t.p0.x, t.p1.y - t.p0.y;
    assert Det(t) == Times(d - b, -c) + Times(c - a, -b);
    CrossExpands(a, b, c, d);
  }

  lemma CrossExpands(a: real, b: real, c: real, d: real)
    ensures Times(d - b, -c) + Times(c - a, -b) == Times(a, b) - Times(c, d)
  {
  }

  function Inverse(t: Triangle): (inv: real)
    requires !Degenerate(t)
    ensures Times(Det(t), inv) == 1.0
  {
    1.0 / Det(t)
  }

  /** The weight of the first corner at a point of the screen. */
  function WeightA(t: Triangle, x: real, y: real): real
    requires !Degenerate(t)
  {
    Times(Times(t.p1.y - t.p2.y, x - t.p2.x) + Times(t.p2.x - t.p1.x, y - t.p2.y), Inverse(t))
  }

  /** The weight of the second corner. */
  function WeightB(t: Triangle, x: real, y: real): real
    requires !Degenerate(t)
  {
    Times(Times(t.p2.y - t.p0.y, x - t.p2.x) + Times(t.p0.x - t.p2.x, y - t.p2.y), Inverse(t))
  }

  predicate Inside(a: real, b: real) {
    a >= 0.0 && b >= 0.0 && a + b <= 1.0
  }

  function Blend(a: real, b: real, u0: real, u1: real, u2: real): real {
    u2 + Times(a, u0 - u2) + Times(b, u1 - u2)
  }

  /** The point is the convex combination of the corners with these weights. */
  predicate Combines(t: Triangle, a: real, b: real, x: real, y: real) {
    Inside(a, b) && x == Blend(a, b, t.p0.x, t.p1.x, t.p2.x) && y == Blend(a, b, t.p0.y, t.p1.y, t.p2.y)
  }

  /** The point lies in the closed triangle. */
  ghost predicate Covers(t: Triangle, x: real, y: real) {
    exists a, b :: Combines(t, a, b, x, y)
  }

  // ----- the weights are the convex combination -----

  /** Two linear equations with determinant `det`, solved by the weights. */
  lemma Solve(e1: real, e2: real, f1: real, f2: real, d: real, f: real, inv: real)
    requires Times(Times(f2, e1) - Times(e2, f1), inv) == 1.0
    ensures var a := Times(Times(f2, d) - Times(e2, f), inv);
      var b := Times(Times(e1, f) - Times(f1, d), inv);
      Times(a, e1) + Times(b, e2) == d
  {
  }

  lemma Negate(x: real, y: real)
    ensures Times(-x, y) == -Times(x, y) && Times(x, -y) == -Times(x, y) && Times(x, y) == Times(y, x)
  {
  }

  lemma WeightsCombine(t: Triangle, x: real, y: real)
    requires !Degenerate(t)
    ensures x == Blend(WeightA(t, x, y), WeightB(t, x, y), t.p0.x, t.p1.x, t.p2.x)
    ensures y == Blend(WeightA(t, x, y), WeightB(t, x, y), t.p0.y, t.p1.y, t.p2.y)
  {
    var e1, e2, f1, f2 := t.p0.x - t.p2.x, t.p1.x - t.p2.x, t.p0.y - t.p2.y, t.p1.y - t.p2.y;
    var d, f, inv := x - t.p2.x, y - t.p2.y, Inverse(t);
    Negate(e2, f);
    Negate(f1, d);
    Solve(e1, e2, f1, f2, d, f, inv);
    Solve(f1, f2, e1, e2, f, d, -inv);
    Negate(Times(e2, f1) - Times(f2, e1), inv);
    Negate(Times(e2, f) - Times(f2, d), inv);
    Negate(Times(f1, d) - Times(e1, f), inv);
  }

  lemma CombinationIsWeights(t: Triangle, a: real, b: real, x: real, y: real)
    requires !Degenerate(t) && Combines(t, a, b, x, y)
    ensures a == WeightA(t, x, y) && b == WeightB(t, x, y)
  {
  }

  /** For a triangle with area, a point is covered exactly if both weights are nonnegative
      and their sum is at most one. */
  lemma CoversIff(t: Triangle, x: real, y: real)
    requires !Degenerate(t)
    ensures Covers(t, x, y) <==> Inside(WeightA(t, x, y), WeightB(t, x, y))
  {
    if Covers(t, x, y) {
      var a, b :| Combines(t, a, b, x, y);
      CombinationIsWeights(t, a, b, x, y);
    }
    if Inside(WeightA(t, x, y), WeightB(t, x, y)) {
      WeightsCombine(t, x, y);
      assert Combines(t, WeightA(t, x, y), WeightB(t, x, y), x, y);
    }
  }

  // ----- forward differences -----

  lemma Shift(c: real, u: real, k: real, inv: real)
    ensures Times(Times(c, u + 1.0) + k, inv) == Times(Times(c, u) + k, inv) + Times(c, inv)
  {
  }

  /** One pixel to the right, and one down, adds a constant to each weight. */
  lemma WeightsAreAffine(t: Triangle, x: real, y: real)
    requires !Degenerate(t)
    ensures WeightA(t, x + 1.0, y) == WeightA(t, x, y) + Times(t.p1.y - t.p2.y, Inverse(t))
    ensures WeightB(t, x + 1.0, y) == WeightB(t, x, y) + Times(t.p2.y - t.p0.y, Inverse(t))
    ensures WeightA(t, x, y + 1.0) == WeightA(t, x, y) + Times(t.p2.x - t.p1.x, Inverse(t))
    ensures WeightB(t, x, y + 1.0) == WeightB(t, x, y) + Times(t.p0.x - t.p2.x, Inverse(t))
  {
    var u, v, inv := x - t.p2.x, y - t.p2.y, Inverse(t);
    Shift(t.p1.y - t.p2.y, u, Times(t.p2.x - t.p1.x, v), inv);
    Shift(t.p2.y - t.p0.y, u, Times(t.p0.x - t.p2.x, v), inv);
    Shift(t.p2.x - t.p1.x, v, Times(t.p1.y - t.p2.y, u), inv);
    Shift(t.p0.x - t.p2.x, v, Times(t.p2.y - t.p0.y, u), inv);
  }

  // ----- the bounding box -----

  function Min(a: real, b: real, c: real): real {
    if a <= b && a <= c then a else if b <= c then b else c
  }

  function Max(a: real, b: real, c: real): real {
    if a >= b && a >= c then a else if b >= c then b else c
  }

  lemma BlendAbove(a: real, b: real, u0: real, u1: real, u2: real, low: real)
    requires Inside(a, b) && low <= u0 && low <= u1 && low <= u2
    ensures low <= Blend(a, b, u0, u1, u2)
  {
    var c := 1.0 - a - b;
    NonnegativeTimes(a, u0 - low);
    NonnegativeTimes(b, u1 - low);
    NonnegativeTimes(c, u2 - low);
    assert Blend(a, b, u0, u1, u2) - low == Times(a, u0 - low) + Times(b, u1 - low) + Times(c, u2 - low);
  }

  lemma BlendBelow(a: real, b: real, u0: real, u1: real, u2: real, high: real)
    requires Inside(a, b) && u0 <= high && u1 <= high && u2 <= high
    ensures Blend(a, b, u0, u1, u2) <= high
  {
    BlendAbove(a, b, -u0, -u1, -u2, -high);
    assert Blend(a, b, -u0, -u1, -u2) == -Blend(a, b, u0, u1, u2);
  }

  /** A covered point lies in the box around the corners. */
  lemma CoveredIsBoxed(t: Triangle, x: real, y: real)
    requires Covers(t, x, y)
    ensures Min(t.p0.x, t.p1.x, t.p2.x) <= x <= Max(t.p0.x, t.p1.x, t.p2.x)
    ensures Min(t.p0.y, t.p1.y, t.p2.y) <= y <= Max(t.p0.y, t.p1.y, t.p2.y)
  {
    var a, b :| Combines(t, a, b, x, y);
    BlendAbove(a, b, t.p0.x, t.p1.x, t.p2.x, Min(t.p0.x, t.p1.x, t.p2.x));
    BlendBelow(a, b, t.p0.x, t.p1.x, t.p2.x, Max(t.p0.x, t.p1.x, t.p2.x));
    BlendAbove(a, b, t.p0.y, t.p1.y, t.p2.y, Min(t.p0.y, t.p1.y, t.p2.y));
    BlendBelow(a, b, t.p0.y, t.p1.y, t.p2.y, Max(t.p0.y, t.p1.y, t.p2.y));
  }
}
