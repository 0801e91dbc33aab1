/** The z-buffer rasteriser of the robot view. */
module DepthRasters {
  import opened Wrappers
  import opened Reals
  import opened Barycentric

  /** The largest finite single-precision number. */
  const FAR: real := 340282346638528859811704183484516925440.0

  datatype Cell = Cell(depth: real, colour: Option<Colour>)

  const BLANK := Cell(FAR, None)

  function Centre(x: int): real {
    x as real + 0.5
  }

  /** Conversion to an integer drops the fraction; a channel keeps eight bits. */
  function Channel(v: real): int {
    (if v >= 0.0 then v.Floor else -(-v).Floor) % 256
  }

  function Lit(c: Colour, light: real): Colour {
    Colour(Channel(Times(c.red as real, light)), Channel(Times(c.green as real, light)),
           Channel(Times(c.blue as real, light)))
  }

  /** The triangle passes through the pixel's centre at depth `z` and brightness `l`: they are
      the convex combination of those of the corners that the centre is of the corners. */
  ghost predicate Hits(t: Triangle, x: int, y: int, z: real, l: real) {
    !Degenerate(t) && exists a, b :: HitsWith(t, a, b, x, y, z, l)
  }

  predicate HitsWith(t: Triangle, a: real, b: real, x: int, y: int, z: real, l: real) {
    && a >= 0.0 && b >= 0.0 && a + b <= 1.0
    && x as real + 0.5 == Convex(a, b, t.p0.x, t.p1.x, t.p2.x)
    && y as real + 0.5 == Convex(a, b, t.p0.y, t.p1.y, t.p2.y)
    && z == Convex(a, b, t.p0.z, t.p1.z, t.p2.z)
    && l == Convex(a, b, t.p0.light, t.p1.light, t.p2.light)
  }

  /** The first number times its share, and so on; the shares add up to one. */
  function Convex(a: real, b: real, u0: real, u1: real, u2: real): real {
    Times(a, u0) + Times(b, u1) + Times(1.0 - a - b, u2)
  }

  /** What one triangle does to one pixel, by the geometry alone. */
  ghost predicate Shades(cell: Cell, t: Triangle, x: int, y: int, cell': Cell) {
    && (forall z, l | Hits(t, x, y, z, l) && z < cell.depth :: cell' == Cell(z, Some(Lit(t.base, l))))
    && (cell' != cell ==> exists z, l :: Hits(t, x, y, z, l) && z < cell.depth)
  }

  // ----- by the weights -----

  function LightAt(t: Triangle, x: int, y: int): real
    requires !Degenerate(t)
  {
    Blend(WeightA(t, Centre(x), Centre(y)), WeightB(t, Centre(x), Centre(y)), t.p0.light, t.p1.light, t.p2.light)
  }

  function DepthAt(t: Triangle, x: int, y: int): real
    requires !Degenerate(t)
  {
    Blend(WeightA(t, Centre(x), Centre(y)), WeightB(t, Centre(x), Centre(y)), t.p0.z, t.p1.z, t.p2.z)
  }

  function ColourAt(t: Triangle, x: int, y: int): Colour
    requires !Degenerate(t)
  {
    Lit(t.base, LightAt(t, x, y))
  }

  lemma BlendIsConvex(a: real, b: real, u0: real, u1: real, u2: real)
    ensures Blend(a, b, u0, u1, u2) == Convex(a, b, u0, u1, u2)
  {
  }

  /** The pixel's centre is covered by a triangle with area. */
  ghost predicate Reaches(t: Triangle, x: int, y: int) {
    !Degenerate(t) && Covers(t, Centre(x), Centre(y))
  }

  /** A triangle passes through a pixel it reaches once, where the weights say. */
  lemma HitsIff(t: Triangle, x: int, y: int, z: real, l: real)
    ensures Hits(t, x, y, z, l) <==> Reaches(t, x, y) && z == DepthAt(t, x, y) && l == LightAt(t, x, y)
  {
    if Hits(t, x, y, z, l) {
      var a, b :| HitsWith(t, a, b, x, y, z, l);
      HitIsWeights(t, a, b, x, y, z, l);
    } else if Reaches(t, x, y) {
      var a, b :| Combines(t, a, b, Centre(x), Centre(y));
      BlendIsConvex(a, b, t.p0.x, t.p1.x, t.p2.x);
      BlendIsConvex(a, b, t.p0.y, t.p1.y, t.p2.y);
      HitIsWeights(t, a, b, x, y, Convex(a, b, t.p0.z, t.p1.z, t.p2.z),
                   Convex(a, b, t.p0.light, t.p1.light, t.p2.light));
      assert z == DepthAt(t, x, y) && l == LightAt(t, x, y) ==> HitsWith(t, a, b, x, y, z, l);
    }
  }

  lemma HitIsWeights(t: Triangle, a: real, b: real, x: int, y: int, z: real, l: real)
    requires !Degenerate(t) && HitsWith(t, a, b, x, y, z, l)
    ensures Reaches(t, x, y) && z == DepthAt(t, x, y) && l == LightAt(t, x, y)
  {
    BlendIsConvex(a, b, t.p0.x, t.p1.x, t.p2.x);
    BlendIsConvex(a, b, t.p0.y, t.p1.y, t.p2.y);
    assert Combines(t, a, b, Centre(x), Centre(y));
    CombinationIsWeights(t, a, b, Centre(x), Centre(y));
    BlendIsConvex(a, b, t.p0.z, t.p1.z, t.p2.z);
    BlendIsConvex(a, b, t.p0.light, t.p1.light, t.p2.light);
  }

  ghost function Shade(cell: Cell, t: Triangle, x: int, y: int): Cell {
    if Reaches(t, x, y) && DepthAt(t, x, y) < cell.depth then Cell(DepthAt(t, x, y), Some(ColourAt(t, x, y))) else cell
  }

  /** What the weights give is what the geometry says, and nothing else is. */
  lemma ShadeIff(cell: Cell, t: Triangle, x: int, y: int, cell': Cell)
    ensures Shades(cell, t, x, y, cell') <==> cell' == Shade(cell, t, x, y)
  {
    forall z, l ensures Hits(t, x, y, z, l) <==> Reaches(t, x, y) && z == DepthAt(t, x, y) && l == LightAt(t, x, y) {
      HitsIff(t, x, y, z, l);
    }
    if Reaches(t, x, y) {
      assert Hits(t, x, y, DepthAt(t, x, y), LightAt(t, x, y));
    }
  }

  ghost function Painted(cell: Cell, ts: seq<Triangle>, x: int, y: int): Cell {
    if ts == [] then cell
    else
      var n := |ts| - 1;
      Shade(Painted(cell, ts[..n], x, y), ts[n], x, y)
  }

  // ----- what a list of triangles leaves in a pixel -----

  /** Among the first `n` triangles, none passes through the pixel at less than this depth. */
  ghost predicate NoneNearer(ts: seq<Triangle>, n: nat, x: int, y: int, depth: real)
    requires n <= |ts|
  {
    forall j, z, l | 0 <= j < n && Hits(ts[j], x, y, z, l) :: z >= depth
  }

  ghost predicate NoneAsNear(ts: seq<Triangle>, n: nat, x: int, y: int, depth: real)
    requires n <= |ts|
  {
    forall j, z, l | 0 <= j < n && Hits(ts[j], x, y, z, l) :: z > depth
  }

  /** The pixel has the depth and the colour of triangle `k` at its centre, and every triangle
      before it lies behind it there. */
  ghost predicate ShowsAt(ts: seq<Triangle>, k: nat, x: int, y: int, c: Cell, l: real) {
    && k < |ts| && c.depth < FAR && Hits(ts[k], x, y, c.depth, l) && c.colour == Some(Lit(ts[k].base, l))
    && NoneAsNear(ts, k, x, y, c.depth)
  }

  /** What the pixel holds after the list: nothing nearer than any triangle through it, and
      unless it is blank, the first of the nearest ones. */
  ghost predicate Shows(ts: seq<Triangle>, x: int, y: int, c: Cell) {
    && NoneNearer(ts, |ts|, x, y, c.depth)
    && (c == BLANK || exists k: nat, l :: ShowsAt(ts, k, x, y, c, l))
  }

  lemma NearerShows(ts: seq<Triangle>, t: Triangle, x: int, y: int, c: Cell, z: real, l: real)
    requires Shows(ts, x, y, c) && Hits(t, x, y, z, l) && z < c.depth
    ensures Shows(ts + [t], x, y, Cell(z, Some(Lit(t.base, l))))
  {
    var us, n := ts + [t], |ts|;
    assert us[n] == t && forall j | 0 <= j < n :: us[j] == ts[j];
    forall z', l' | Hits(t, x, y, z', l') ensures z' == z {
      HitsIff(t, x, y, z, l);
      HitsIff(t, x, y, z', l');
    }
    assert ShowsAt(us, n, x, y, Cell(z, Some(Lit(t.base, l))), l);
  }

  lemma OtherShows(ts: seq<Triangle>, t: Triangle, x: int, y: int, c: Cell)
    requires Shows(ts, x, y, c) && forall z, l | Hits(t, x, y, z, l) :: z >= c.depth
    ensures Shows(ts + [t], x, y, c)
  {
    var us, n := ts + [t], |ts|;
    assert us[n] == t && forall j | 0 <= j < n :: us[j] == ts[j];
    if c != BLANK {
      var k: nat, l :| ShowsAt(ts, k, x, y, c, l);
      assert ShowsAt(us, k, x, y, c, l);
    }
  }

  /** The pixel shows the first of the nearest triangles, at the depth and in the colour that
      triangle has at the pixel's centre; it stays blank exactly if no triangle nearer than
      the initial depth passes through it. */
  lemma {:induction false} NearestWins(ts: seq<Triangle>, x: int, y: int)
    ensures Shows(ts, x, y, Painted(BLANK, ts, x, y))
  {
    if ts != [] {
      var n := |ts| - 1;
      var c, c' := Painted(BLANK, ts[..n], x, y), Painted(BLANK, ts, x, y);
      NearestWins(ts[..n], x, y);
      assert ts == ts[..n] + [ts[n]];
      ShadeIff(c, ts[n], x, y, c');
      if z, l :| Hits(ts[n], x, y, z, l) && z < c.depth {
        NearerShows(ts[..n], ts[n], x, y, c, z, l);
      } else {
        OtherShows(ts[..n], ts[n], x, y, c);
      }
    }
  }

  /** The depth does not depend on the order, nor on repetitions, of the triangles. */
  lemma DepthIgnoresOrder(ts: seq<Triangle>, us: seq<Triangle>, x: int, y: int)
    requires forall t :: t in ts <==> t in us
    ensures Painted(BLANK, ts, x, y).depth == Painted(BLANK, us, x, y).depth
  {
    DepthAtMost(ts, us, x, y);
    DepthAtMost(us, ts, x, y);
  }

  lemma {:induction false} PaintedAtMost(cell: Cell, ts: seq<Triangle>, x: int, y: int)
    ensures Painted(cell, ts, x, y).depth <= cell.depth
  {
    if ts != [] {
      PaintedAtMost(cell, ts[..|ts| - 1], x, y);
    }
  }

  lemma DepthAtMost(ts: seq<Triangle>, us: seq<Triangle>, x: int, y: int)
    requires forall t | t in us :: t in ts
    ensures Painted(BLANK, ts, x, y).depth <= Painted(BLANK, us, x, y).depth
  {
    NearestWins(ts, x, y);
    NearestWins(us, x, y);
    var c := Painted(BLANK, us, x, y);
    if c == BLANK {
      PaintedAtMost(BLANK, ts, x, y);
    } else {
      var k: nat, l :| ShowsAt(us, k, x, y, c, l);
      assert us[k] in us;
      var j :| 0 <= j < |ts| && ts[j] == us[k];
      assert Hits(ts[j], x, y, c.depth, l);
    }
  }

  // ----- colours -----

  /** A channel is a byte: beyond its range the brightness wraps around. */
  lemma ChannelIsByte(v: real)
    ensures 0 <= Channel(v) < 256
    ensures v >= 0.0 ==> (v.Floor - Channel(v)) % 256 == 0
  {
  }

  /** Within the range of a byte, a channel is the exact brightness with the fraction dropped. */
  lemma ChannelIsRounded(base: int, light: real)
    requires 0 <= base < 256 && 0.0 <= light <= 1.0
    ensures var v := Times(base as real, light);
      0 <= Channel(v) <= base && Channel(v) as real <= v < Channel(v) as real + 1.0
  {
    NonnegativeTimes(base as real, light);
    NonnegativeTimes(base as real, 1.0 - light);
    var v := Times(base as real, light);
    assert v <= base as real;
  }

  /** Each channel is that of the base colour, dimmed. */
  lemma LitDims(c: Colour, light: real)
    requires 0 <= c.red < 256 && 0 <= c.green < 256 && 0 <= c.blue < 256 && 0.0 <= light <= 1.0
    ensures var d := Lit(c, light);
      && d.red as real <= Times(c.red as real, light) < d.red as real + 1.0
      && d.green as real <= Times(c.green as real, light) < d.green as real + 1.0
      && d.blue as real <= Times(c.blue as real, light) < d.blue as real + 1.0
  {
    ChannelIsRounded(c.red, light);
    ChannelIsRounded(c.green, light);
    ChannelIsRounded(c.blue, light);
  }

  // ----- addresses -----

  function Address(w: nat, x: int, y: int): int {
    y * w + x
  }

  lemma AddressInRange(w: nat, h: nat, x: int, y: int)
    requires 0 <= x < w && 0 <= y < h
    ensures 0 <= Address(w, x, y) < w * h
  {
    assert y * w <= (h - 1) * w;
    assert (h - 1) * w + w == h * w;
  }

  lemma RowsGrow(w: nat, y: int, k: nat)
    requires k > 0
    ensures (y + k) * w >= y * w + w
  {
  }

  lemma AddressIsUnique(w: nat, x: int, y: int, u: int, v: int)
    requires 0 <= x < w && 0 <= u < w && Address(w, x, y) == Address(w, u, v)
    ensures x == u && y == v
  {
    if y < v {
      RowsGrow(w, y, v - y);
    } else if v < y {
      RowsGrow(w, v, y - v);
    }
  }

  // ----- the object -----

  function LowPixel(a: real, b: real, c: real): int {
    var low := Min(a, b, c).Floor;
    if low < 0 then 0 else low
  }

  function HighPixel(a: real, b: real, c: real, size: nat): int {
    var high := Ceil(Max(a, b, c));
    if high > size - 1 then size - 1 else high
  }

  /** The clipped box misses no pixel that the triangle reaches. */
  lemma BoxMissesNothing(t: Triangle, x: int, y: int, w: nat, h: nat)
    requires 0 <= x < w && 0 <= y < h && Reaches(t, x, y)
    ensures LowPixel(t.p0.x, t.p1.x, t.p2.x) <= x <= HighPixel(t.p0.x, t.p1.x, t.p2.x, w)
    ensures LowPixel(t.p0.y, t.p1.y, t.p2.y) <= y <= HighPixel(t.p0.y, t.p1.y, t.p2.y, h)
  {
    CoveredIsBoxed(t, Centre(x), Centre(y));
    PixelIsBoxed(x, Min(t.p0.x, t.p1.x, t.p2.x), Max(t.p0.x, t.p1.x, t.p2.x));
    PixelIsBoxed(y, Min(t.p0.y, t.p1.y, t.p2.y), Max(t.p0.y, t.p1.y, t.p2.y));
  }

  lemma PixelIsBoxed(x: int, low: real, high: real)
    requires low <= Centre(x) <= high
    ensures low.Floor <= x <= Ceil(high)
  {
  }

  class DepthRaster {
    const w: nat
    const h: nat
    const depth: array<real>
    const image: array2<Option<Colour>>

    ghost predicate Valid() {
      depth.Length == w * h && image.Length0 == h && image.Length1 == w
    }

    predicate Within(x: int, y: int) {
      0 <= x < w && 0 <= y < h
    }

    ghost function CellAt(x: int, y: int): Cell
      requires Valid() && Within(x, y)
      reads depth, image
    {
      AddressInRange(w, h, x, y);
      Cell(depth[Address(w, x, y)], image[y, x])
    }

    constructor (w: nat, h: nat)
      ensures Valid() && fresh(depth) && fresh(image) && this.w == w && this.h == h
      ensures forall x, y | Within(x, y) :: CellAt(x, y) == BLANK
    {
      this.w, this.h := w, h;
      depth := new real[w * h](_ => FAR);
      image := new Option<Colour>[h, w]((_, _) => None);
      new;
      forall x, y | Within(x, y) ensures CellAt(x, y) == BLANK {
        AddressInRange(w, h, x, y);
      }
    }

    method Plot(x: int, y: int, z: real, colour: Colour)
      requires Valid() && Within(x, y)
      modifies depth, image
      ensures CellAt(x, y) == Cell(z, Some(colour))
      ensures forall u, v | Within(u, v) && (u != x || v != y) :: CellAt(u, v) == old(CellAt(u, v))
    {
      AddressInRange(w, h, x, y);
      depth[Address(w, x, y)] := z;
      image[y, x] := Some(colour);
      forall u, v | Within(u, v) && (u != x || v != y) ensures CellAt(u, v) == old(CellAt(u, v)) {
        AddressInRange(w, h, u, v);
        if Address(w, u, v) == Address(w, x, y) {
          AddressIsUnique(w, u, v, x, y);
        }
      }
    }

    /** The body of the inner loop, for the weights `a` and `b` of this pixel. */
    method ShadePixel(t: Triangle, x: int, y: int, a: real, b: real)
      requires Valid() && Within(x, y) && !Degenerate(t)
      requires a == WeightA(t, Centre(x), Centre(y)) && b == WeightB(t, Centre(x), Centre(y))
      modifies depth, image
      ensures CellAt(x, y) == Shade(old(CellAt(x, y)), t, x, y)
      ensures forall u, v | Within(u, v) && (u != x || v != y) :: CellAt(u, v) == old(CellAt(u, v))
    {
      CoversIff(t, Centre(x), Centre(y));
      AddressInRange(w, h, x, y);
      if a < 0.0 || b < 0.0 || a + b > 1.0 {
        return;
      }
      var z := t.p2.z + Times(a, t.p0.z - t.p2.z) + Times(b, t.p1.z - t.p2.z);
      if z >= depth[Address(w, x, y)] {
        return;
      }
      var l := t.p2.light + Times(a, t.p0.light - t.p2.light) + Times(b, t.p1.light - t.p2.light);
      Plot(x, y, z, Lit(t.base, l));
    }

    /** One row of the box; the weights are advanced by a constant per pixel. */
    method ShadeRow(t: Triangle, y: int, x0: int, x1: int, aRow: real, bRow: real, inv: real)
      requires Valid() && !Degenerate(t) && 0 <= y < h && 0 <= x0 <= x1 < w && inv == Inverse(t)
      requires aRow == WeightA(t, Centre(x0), Centre(y)) && bRow == WeightB(t, Centre(x0), Centre(y))
      modifies depth, image
      ensures forall u, v | Within(u, v) ::
        CellAt(u, v) == if v == y && x0 <= u <= x1 then Shade(old(CellAt(u, v)), t, u, v) else old(CellAt(u, v))
    {
      var dadx, dbdx := Times(t.p1.y - t.p2.y, inv), Times(t.p2.y - t.p0.y, inv);
      var a, b := aRow, bRow;
      var x := x0;
      while x <= x1
        invariant x0 <= x <= x1 + 1
        invariant a == WeightA(t, Centre(x), Centre(y)) && b == WeightB(t, Centre(x), Centre(y))
        invariant forall u, v | Within(u, v) ::
          CellAt(u, v) == if v == y && x0 <= u < x then Shade(old(CellAt(u, v)), t, u, v) else old(CellAt(u, v))
      {
        ShadePixel(t, x, y, a, b);
        WeightsAreAffine(t, Centre(x), Centre(y));
        x, a, b := x + 1, a + dadx, b + dbdx;
      }
    }

    /** Every pixel of the image gets what the geometry says, although only the pixels of
        the clipped box are visited and no weight is computed from scratch. */
    method Draw(t: Triangle)
      requires Valid()
      modifies depth, image
      ensures forall u, v | Within(u, v) :: Shades(old(CellAt(u, v)), t, u, v, CellAt(u, v))
    {
      if Abs(Det(t)) >= MIN_DET {
        var x0, x1 := LowPixel(t.p0.x, t.p1.x, t.p2.x), HighPixel(t.p0.x, t.p1.x, t.p2.x, w);
        var y0, y1 := LowPixel(t.p0.y, t.p1.y, t.p2.y), HighPixel(t.p0.y, t.p1.y, t.p2.y, h);
        forall u, v | Within(u, v) && Reaches(t, u, v) ensures x0 <= u <= x1 && y0 <= v <= y1 {
          BoxMissesNothing(t, u, v, w, h);
        }
        if x0 <= x1 && y0 <= y1 {
          ShadeBox(t, x0, x1, y0, y1);
        }
      }
      forall u, v | Within(u, v) ensures Shades(old(CellAt(u, v)), t, u, v, CellAt(u, v)) {
        ShadeIff(old(CellAt(u, v)), t, u, v, CellAt(u, v));
      }
    }

    method ShadeBox(t: Triangle, x0: int, x1: int, y0: int, y1: int)
      requires Valid() && !Degenerate(t) && 0 <= y0 <= y1 < h && 0 <= x0 <= x1 < w
      modifies depth, image
      ensures forall u, v | Within(u, v) ::
        CellAt(u, v) == if y0 <= v <= y1 && x0 <= u <= x1 then Shade(old(CellAt(u, v)), t, u, v) else old(CellAt(u, v))
    {
      var inv := Inverse(t);
      var dady, dbdy := Times(t.p2.x - t.p1.x, inv), Times(t.p0.x - t.p2.x, inv);
      var aRow, bRow := WeightA(t, Centre(x0), Centre(y0)), WeightB(t, Centre(x0), Centre(y0));
      var y := y0;
      while y <= y1
        invariant y0 <= y <= y1 + 1
        invariant aRow == WeightA(t, Centre(x0), Centre(y)) && bRow == WeightB(t, Centre(x0), Centre(y))
        invariant forall u, v | Within(u, v) ::
          CellAt(u, v) == if y0 <= v < y && x0 <= u <= x1 then Shade(old(CellAt(u, v)), t, u, v) else old(CellAt(u, v))
      {
        ShadeRow(t, y, x0, x1, aRow, bRow, inv);
        WeightsAreAffine(t, Centre(x0), Centre(y));
        y, aRow, bRow := y + 1, aRow + dady, bRow + dbdy;
      }
    }

    /** After a whole list of triangles, a pixel that was blank shows the first of the nearest. */
    method DrawAll(ts: seq<Triangle>)
      requires Valid()
      modifies depth, image
      ensures forall u, v | Within(u, v) :: CellAt(u, v) == Painted(old(CellAt(u, v)), ts, u, v)
      ensures forall u, v | Within(u, v) && old(CellAt(u, v)) == BLANK :: Shows(ts, u, v, CellAt(u, v))
    {
      for i := 0 to |ts|
        invariant forall u, v | Within(u, v) :: CellAt(u, v) == Painted(old(CellAt(u, v)), ts[..i], u, v)
      {
        label Before:
        Draw(ts[i]);
        assert ts[..i + 1][..i] == ts[..i];
        forall u, v | Within(u, v) ensures CellAt(u, v) == Shade(old@Before(CellAt(u, v)), ts[i], u, v) {
          ShadeIff(old@Before(CellAt(u, v)), ts[i], u, v, CellAt(u, v));
        }
      }
      assert ts[..|ts|] == ts;
      forall u, v | Within(u, v) && old(CellAt(u, v)) == BLANK ensures Shows(ts, u, v, CellAt(u, v)) {
        NearestWins(ts, u, v);
      }
    }
  }
}
