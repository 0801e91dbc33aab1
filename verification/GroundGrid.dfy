/** The ground grid: cells keyed by packed indices, and the lookup of the nearest ground
    centroid in a window of cells. */
module GroundGrid {
  import opened Wrappers
  import opened Reals
  import opened PointClouds

  const WORD: int := 0x1_0000_0000
  const HALF: int := 0x8000_0000

  datatype Config = Config(cell: real, radius: real, minHeight: real, maxHeight: real)

  predicate ValidConfig(c: Config) {
    c.cell > 0.0 && c.radius >= 0.0 && c.minHeight >= 0.0 && c.maxHeight > c.minHeight
  }

  // ----- keys -----

  predicate IsInt32(i: int) {
    -HALF <= i < HALF
  }

  /** Exclusive-or of two numbers written in binary. */
  function Xor(a: nat, b: nat): nat {
    if a == 0 && b == 0 then 0 else (if a % 2 == b % 2 then 0 else 1) + 2 * Xor(a / 2, b / 2)
  }

  /** A 64-bit integer as the word that represents it, and back. */
  function AsWord64(i: int): nat {
    i % (WORD * WORD)
  }

  function AsInt64(w: nat): int {
    if w < HALF * WORD then w else w - WORD * WORD
  }

  /** The first index shifted into the high half, exclusive-or the second as an unsigned word. */
  function CellKey(x: int, y: int): int {
    AsInt64(Xor(AsWord64(x * WORD), y % WORD))
  }

  function Pow2(k: nat): (p: nat)
    ensures p > 0
  {
    if k == 0 then 1 else 2 * Pow2(k - 1)
  }

  lemma {:induction false} XorNothing(a: nat)
    ensures Xor(a, 0) == a
  {
    if a != 0 {
      XorNothing(a / 2);
    }
  }

  lemma HalfOfDouble(h: nat, p: nat)
    ensures h * (2 * p) % 2 == 0 && h * (2 * p) / 2 == h * p
  {
    assert h * (2 * p) == 2 * (h * p);
  }

  /** Where the halves do not overlap, exclusive-or is addition. */
  lemma {:induction false} XorOfHalves(h: nat, l: nat, k: nat)
    requires l < Pow2(k)
    ensures Xor(h * Pow2(k), l) == h * Pow2(k) + l
  {
    if k == 0 {
      XorNothing(h);
    } else {
      XorOfHalves(h, l / 2, k - 1);
      HalfOfDouble(h, Pow2(k - 1));
    }
  }

  lemma {:induction false} Pow2Add(a: nat, b: nat)
    ensures Pow2(a + b) == Pow2(a) * Pow2(b)
  {
    if a > 0 {
      Pow2Add(a - 1, b);
    }
  }

  lemma Pow2Is()
    ensures Pow2(32) == WORD
  {
    assert Pow2(4) == 0x10;
    Pow2Add(4, 4);
    Pow2Add(8, 8);
    Pow2Add(16, 16);
  }

  /** The key holds the first index in its high half and the second, as an unsigned word,
      in its low half. */
  lemma KeyIsSum(x: int, y: int)
    requires IsInt32(x)
    ensures CellKey(x, y) == x * WORD + y % WORD
  {
    var h := if x < 0 then x + WORD else x;
    assert AsWord64(x * WORD) == h * WORD;
    Pow2Is();
    XorOfHalves(h, y % WORD, 32);
  }

  lemma HalvesAreApart(x: int, a: nat, u: int, b: nat)
    requires a < WORD && b < WORD
    ensures x * WORD + a == u * WORD + b ==> x == u && a == b
    ensures IsInt32(x) ==> -HALF * WORD <= x * WORD + a < HALF * WORD
  {
  }

  lemma SameWord(y: int, v: int)
    requires IsInt32(y) && IsInt32(v) && y % WORD == v % WORD
    ensures y == v
  {
  }

  /** No two pairs of 32-bit indices share a key, and every key is a 64-bit integer. */
  lemma KeyIsInjective(x: int, y: int, u: int, v: int)
    requires IsInt32(x) && IsInt32(y) && IsInt32(u) && IsInt32(v)
    ensures CellKey(x, y) == CellKey(u, v) ==> x == u && y == v
    ensures -HALF * WORD <= CellKey(x, y) < HALF * WORD
  {
    KeyIsSum(x, y);
    KeyIsSum(u, v);
    HalvesAreApart(x, y % WORD, u, v % WORD);
    if x == u && y % WORD == v % WORD {
      SameWord(y, v);
    }
  }

  function CellOf(v: real, cell: real): int
    requires cell > 0.0
  {
    (v / cell).Floor
  }

  /** The index of a coordinate says between which multiples of the cell size it lies. */
  lemma CellOfBounds(v: real, cell: real, i: int)
    requires cell > 0.0
    ensures CellOf(v, cell) == i <==> Times(i as real, cell) <= v < Times((i + 1) as real, cell)
  {
    var q := v / cell;
    assert Times(q, cell) == v;
    CompareTimes(i as real, q, cell);
    CompareTimes((i + 1) as real, q, cell);
  }

  lemma CompareTimes(a: real, b: real, c: real)
    requires c > 0.0
    ensures a <= b <==> Times(a, c) <= Times(b, c)
    ensures a < b <==> Times(a, c) < Times(b, c)
  {
  }

  // ----- cells -----

  datatype GroundCell = GroundCell(sumX: real, sumY: real, sumZ: real, count: nat)

  const EMPTY_CELL := GroundCell(0.0, 0.0, 0.0, 0)

  function Add(g: GroundCell, r: Reading): GroundCell {
    GroundCell(g.sumX + r.x, g.sumY + r.y, g.sumZ + r.z, g.count + 1)
  }

  predicate IsIn(r: Reading, cell: real, i: int, j: int)
    requires cell > 0.0
  {
    CellOf(r.x, cell) == i && CellOf(r.y, cell) == j
  }

  /** The points of one cell, summed and counted, straight from the definition. */
  function Gather(points: seq<Reading>, cell: real, i: int, j: int): GroundCell
    requires cell > 0.0
  {
    if points == [] then EMPTY_CELL
    else
      var n := |points| - 1;
      var before := Gather(points[..n], cell, i, j);
      if IsIn(points[n], cell, i, j) then Add(before, points[n]) else before
  }

  type Cells = map<int, GroundCell>

  function Insert(cells: Cells, cell: real, r: Reading): Cells
    requires cell > 0.0
  {
    var key := CellKey(CellOf(r.x, cell), CellOf(r.y, cell));
    cells[key := Add(if key in cells then cells[key] else EMPTY_CELL, r)]
  }

  function CellsOf(points: seq<Reading>, cell: real): Cells
    requires cell > 0.0
  {
    if points == [] then map[] else Insert(CellsOf(points[..|points| - 1], cell), cell, points[|points| - 1])
  }

  /** The cell indices of the points fit the key. */
  predicate Representable(points: seq<Reading>, cell: real)
    requires cell > 0.0
  {
    forall r | r in points :: IsInt32(CellOf(r.x, cell)) && IsInt32(CellOf(r.y, cell))
  }

  /** The map holds exactly the cells with points, each with their sums. */
  lemma {:induction false} CellsAreGathered(points: seq<Reading>, cell: real, i: int, j: int)
    requires cell > 0.0 && Representable(points, cell) && IsInt32(i) && IsInt32(j)
    ensures var cells := CellsOf(points, cell);
      var g := Gather(points, cell, i, j);
      if g.count > 0 then CellKey(i, j) in cells && cells[CellKey(i, j)] == g
      else CellKey(i, j) !in cells && g == EMPTY_CELL
  {
    if points != [] {
      var n := |points| - 1;
      var r := points[n];
      CellsAreGathered(points[..n], cell, i, j);
      assert r in points;
      KeyIsInjective(CellOf(r.x, cell), CellOf(r.y, cell), i, j);
    }
  }

  // ----- centroids -----

  function Mean(sum: real, count: nat): (m: real)
    requires count > 0
    ensures Times(m, count as real) == sum
  {
    sum / count as real
  }

  lemma {:induction false} SumsAreBounded(points: seq<Reading>, cell: real, i: int, j: int)
    requires cell > 0.0
    ensures var g := Gather(points, cell, i, j);
      var n := g.count as real;
      && Times(Times(i as real, cell), n) <= g.sumX && Times(Times(j as real, cell), n) <= g.sumY
      && (g.count > 0 ==> g.sumX < Times(Times((i + 1) as real, cell), n))
      && (g.count > 0 ==> g.sumY < Times(Times((j + 1) as real, cell), n))
      && (g.count == 0 ==> g == EMPTY_CELL)
  {
    if points != [] {
      var m := |points| - 1;
      var r := points[m];
      var before := Gather(points[..m], cell, i, j);
      SumsAreBounded(points[..m], cell, i, j);
      if IsIn(r, cell, i, j) {
        CellOfBounds(r.x, cell, i);
        CellOfBounds(r.y, cell, j);
        AddOne(Times(i as real, cell), before.count);
        AddOne(Times(j as real, cell), before.count);
        AddOne(Times((i + 1) as real, cell), before.count);
        AddOne(Times((j + 1) as real, cell), before.count);
      }
    }
  }

  lemma AddOne(a: real, n: nat)
    ensures Times(a, (n + 1) as real) == Times(a, n as real) + a
    ensures Times(a, 0.0) == 0.0
  {
  }

  /** The centroid of a cell's points lies in that cell. */
  lemma CentroidStaysInCell(points: seq<Reading>, cell: real, i: int, j: int)
    requires cell > 0.0 && Gather(points, cell, i, j).count > 0
    ensures var g := Gather(points, cell, i, j);
      CellOf(Mean(g.sumX, g.count), cell) == i && CellOf(Mean(g.sumY, g.count), cell) == j
  {
    var g := Gather(points, cell, i, j);
    SumsAreBounded(points, cell, i, j);
    MeanIsBetween(g.sumX, g.count, Times(i as real, cell), Times((i + 1) as real, cell));
    MeanIsBetween(g.sumY, g.count, Times(j as real, cell), Times((j + 1) as real, cell));
    CellOfBounds(Mean(g.sumX, g.count), cell, i);
    CellOfBounds(Mean(g.sumY, g.count), cell, j);
  }

  lemma MeanIsBetween(sum: real, count: nat, low: real, high: real)
    requires count > 0 && Times(low, count as real) <= sum < Times(high, count as real)
    ensures low <= Mean(sum, count) < high
  {
  }

  // ----- the same from the points themselves -----

  /** The points between these multiples of the cell size, in their order. */
  function PointsIn(points: seq<Reading>, cell: real, i: int, j: int): seq<Reading> {
    if points == [] then []
    else
      var n := |points| - 1;
      var r := points[n];
      PointsIn(points[..n], cell, i, j)
        + if Times(i as real, cell) <= r.x < Times((i + 1) as real, cell)
             && Times(j as real, cell) <= r.y < Times((j + 1) as real, cell) then [r] else []
  }

  function Total(rs: seq<Reading>, coordinate: Reading -> real): real {
    if rs == [] then 0.0 else Total(rs[..|rs| - 1], coordinate) + coordinate(rs[|rs| - 1])
  }

  const X: Reading -> real := (r: Reading) => r.x
  const Y: Reading -> real := (r: Reading) => r.y
  const Z: Reading -> real := (r: Reading) => r.z

  /** The sums and the count are those of the points that lie in the cell. */
  lemma {:induction false} SumsAreTotals(points: seq<Reading>, cell: real, i: int, j: int)
    requires cell > 0.0
    ensures var rs := PointsIn(points, cell, i, j);
      Gather(points, cell, i, j) == GroundCell(Total(rs, X), Total(rs, Y), Total(rs, Z), |rs|)
  {
    if points != [] {
      var n := |points| - 1;
      var rs, r := PointsIn(points[..n], cell, i, j), points[n];
      SumsAreTotals(points[..n], cell, i, j);
      CellOfBounds(r.x, cell, i);
      CellOfBounds(r.y, cell, j);
      assert (rs + [r])[..|rs|] == rs;
      assert rs + [] == rs;
    }
  }

  function Average(rs: seq<Reading>, coordinate: Reading -> real): real
    requires rs != []
  {
    Total(rs, coordinate) / |rs| as real
  }

  function Square(v: real): real {
    Times(v, v)
  }

  /** A candidate is the average height of the cell's points, and the squared distance to the
      average of their positions. */
  lemma CandidateIs(points: seq<Reading>, cell: real, i: int, j: int, x: real, y: real)
    requires cell > 0.0 && PointsIn(points, cell, i, j) != []
    ensures var rs := PointsIn(points, cell, i, j);
      && Gather(points, cell, i, j).count > 0
      && Candidate(Gather(points, cell, i, j), x, y).height == Average(rs, Z)
      && Candidate(Gather(points, cell, i, j), x, y).distance2
         == Square(Average(rs, X) - x) + Square(Average(rs, Y) - y)
  {
    var rs := PointsIn(points, cell, i, j);
    SumsAreTotals(points, cell, i, j);
    SquareOfDifference(x, Average(rs, X));
    SquareOfDifference(y, Average(rs, Y));
  }

  lemma SquareOfDifference(a: real, b: real)
    ensures Square(b - a) == Times(a - b, a - b)
  {
  }

  // ----- the search -----

  function Distance2(g: GroundCell, x: real, y: real): real
    requires g.count > 0
  {
    var dx, dy := x - Mean(g.sumX, g.count), y - Mean(g.sumY, g.count);
    Times(dx, dx) + Times(dy, dy)
  }

  datatype Hit = Hit(distance2: real, height: real)

  function Candidate(g: GroundCell, x: real, y: real): Hit
    requires g.count > 0
  {
    Hit(Distance2(g, x, y), Mean(g.sumZ, g.count))
  }

  /** One cell of the window against the best so far. */
  function Consider(best: Option<Hit>, cells: Cells, c: Config, x: real, y: real, i: int, j: int): Option<Hit> {
    var key := CellKey(i, j);
    if key !in cells || cells[key].count == 0 then best
    else
      var hit := Candidate(cells[key], x, y);
      if hit.distance2 <= Times(c.radius, c.radius) && (best == None || hit.distance2 < best.value.distance2)
        then Some(hit) else best
  }

  function ScanRow(best: Option<Hit>, cells: Cells, c: Config, x: real, y: real, i: int, j0: int, j1: int): Option<Hit>
    decreases j1 - j0
  {
    if j1 <= j0 then best
    else Consider(ScanRow(best, cells, c, x, y, i, j0, j1 - 1), cells, c, x, y, i, j1 - 1)
  }

  /** The rows `i0` to `i1 - 1` of the window, in order. */
  function ScanRows(cells: Cells, c: Config, x: real, y: real, i0: int, i1: int, j0: int, j1: int): Option<Hit>
    decreases i1 - i0
  {
    if i1 <= i0 then None
    else ScanRow(ScanRows(cells, c, x, y, i0, i1 - 1, j0, j1), cells, c, x, y, i1 - 1, j0, j1)
  }

  function Reach(c: Config): int
    requires ValidConfig(c)
  {
    Ceil(c.radius / c.cell)
  }

  function Search(cells: Cells, c: Config, x: real, y: real): Option<Hit>
    requires ValidConfig(c)
  {
    var i, j, r := CellOf(x, c.cell), CellOf(y, c.cell), Reach(c);
    ScanRows(cells, c, x, y, i - r, i + r + 1, j - r, j + r + 1)
  }

  function LocalGroundHeight(cells: Cells, c: Config, x: real, y: real): Option<real>
    requires ValidConfig(c)
  {
    match Search(cells, c, x, y)
    case None => None
    case Some(hit) => Some(hit.height)
  }

  // ----- the brute-force answer -----

  /** Cell `(i, j)` has ground points, and their centroid is within the search radius. */
  predicate InRange(points: seq<Reading>, c: Config, x: real, y: real, i: int, j: int)
    requires ValidConfig(c)
  {
    var g := Gather(points, c.cell, i, j);
    g.count > 0 && Distance2(g, x, y) <= Times(c.radius, c.radius)
  }

  /** `(i, j)` is a cell in range, and no cell in range is nearer. */
  ghost predicate Nearest(points: seq<Reading>, c: Config, x: real, y: real, i: int, j: int)
    requires ValidConfig(c)
  {
    && InRange(points, c, x, y, i, j)
    && forall u, v | InRange(points, c, x, y, u, v) ::
         Distance2(Gather(points, c.cell, i, j), x, y) <= Distance2(Gather(points, c.cell, u, v), x, y)
  }

  /** Row by row. */
  predicate Before(u: int, v: int, i: int, j: int) {
    u < i || (u == i && v < j)
  }

  /** `height` is the mean height of the ground points of the first of the nearest cells. */
  ghost predicate Answers(points: seq<Reading>, c: Config, x: real, y: real, i: int, j: int, height: real)
    requires ValidConfig(c)
  {
    var g := Gather(points, c.cell, i, j);
    && Nearest(points, c, x, y, i, j) && height == Mean(g.sumZ, g.count)
    && forall u, v | InRange(points, c, x, y, u, v) && Before(u, v, i, j) ::
         Distance2(g, x, y) < Distance2(Gather(points, c.cell, u, v), x, y)
  }

  /** There is one such cell at most. */
  lemma AnswerIsUnique(points: seq<Reading>, c: Config, x: real, y: real, i: int, j: int, h: real,
                       u: int, v: int, k: real)
    requires ValidConfig(c) && Answers(points, c, x, y, i, j, h) && Answers(points, c, x, y, u, v, k)
    ensures i == u && j == v && h == k
  {
    assert InRange(points, c, x, y, i, j) && InRange(points, c, x, y, u, v);
  }

  /** The best hit over the cells `(i, j)` with `i0 <= i < i1` and `j0 <= j < j1`, and those
      of row `i1` with `j < j2`. */
  ghost predicate BestOf(points: seq<Reading>, c: Config, x: real, y: real, i0: int, i1: int, j0: int, j1: int, j2: int,
                         best: Option<Hit>)
    requires ValidConfig(c)
  {
    && (best.Some? ==> exists i, j :: FirstBest(points, c, x, y, i0, i1, j0, j1, j2, i, j, best.value))
    && (forall i, j | Visited(i, j, i0, i1, j0, j1, j2) && InRange(points, c, x, y, i, j) ::
          best.Some? && best.value.distance2 <= Distance2(Gather(points, c.cell, i, j), x, y))
  }

  /** The hit is that of cell `(i, j)`, and no cell visited before that was as near. */
  ghost predicate FirstBest(points: seq<Reading>, c: Config, x: real, y: real, i0: int, i1: int, j0: int, j1: int,
                            j2: int, i: int, j: int, hit: Hit)
    requires ValidConfig(c)
  {
    && Visited(i, j, i0, i1, j0, j1, j2) && InRange(points, c, x, y, i, j)
    && hit == Candidate(Gather(points, c.cell, i, j), x, y)
    && forall u, v | Visited(u, v, i0, i1, j0, j1, j2) && InRange(points, c, x, y, u, v) && Before(u, v, i, j) ::
         hit.distance2 < Distance2(Gather(points, c.cell, u, v), x, y)
  }

  predicate Visited(i: int, j: int, i0: int, i1: int, j0: int, j1: int, j2: int) {
    (i0 <= i < i1 && j0 <= j < j1) || (i == i1 && j0 <= j < j2)
  }

  lemma OneMoreVisited(points: seq<Reading>, c: Config, x: real, y: real, i0: int, i1: int, j0: int, j1: int, j2: int,
                       i: int, j: int, hit: Hit)
    requires ValidConfig(c) && i0 <= i1 && j0 <= j2 && FirstBest(points, c, x, y, i0, i1, j0, j1, j2, i, j, hit)
    ensures FirstBest(points, c, x, y, i0, i1, j0, j1, j2 + 1, i, j, hit)
  {
    forall u, v | Visited(u, v, i0, i1, j0, j1, j2 + 1) && InRange(points, c, x, y, u, v) && Before(u, v, i, j)
      ensures hit.distance2 < Distance2(Gather(points, c.cell, u, v), x, y) {
      assert Visited(u, v, i0, i1, j0, j1, j2);
    }
  }

  lemma NowBest(points: seq<Reading>, c: Config, x: real, y: real, i0: int, i1: int, j0: int, j1: int, j2: int,
                best: Option<Hit>, hit: Hit)
    requires ValidConfig(c) && i0 <= i1 && j0 <= j2 && BestOf(points, c, x, y, i0, i1, j0, j1, j2, best)
    requires InRange(points, c, x, y, i1, j2) && hit == Candidate(Gather(points, c.cell, i1, j2), x, y)
    requires best == None || hit.distance2 < best.value.distance2
    ensures FirstBest(points, c, x, y, i0, i1, j0, j1, j2 + 1, i1, j2, hit)
  {
    forall u, v | Visited(u, v, i0, i1, j0, j1, j2 + 1) && InRange(points, c, x, y, u, v) && Before(u, v, i1, j2)
      ensures hit.distance2 < Distance2(Gather(points, c.cell, u, v), x, y) {
      assert Visited(u, v, i0, i1, j0, j1, j2);
    }
  }

  lemma ConsiderKeepsBest(points: seq<Reading>, c: Config, x: real, y: real, i0: int, i1: int, j0: int, j1: int, j2: int,
                          best: Option<Hit>)
    requires ValidConfig(c) && Representable(points, c.cell) && IsInt32(i1) && IsInt32(j2) && i0 <= i1 && j0 <= j2
    requires BestOf(points, c, x, y, i0, i1, j0, j1, j2, best)
    ensures BestOf(points, c, x, y, i0, i1, j0, j1, j2 + 1, Consider(best, CellsOf(points, c.cell), c, x, y, i1, j2))
  {
    CellsAreGathered(points, c.cell, i1, j2);
    var best' := Consider(best, CellsOf(points, c.cell), c, x, y, i1, j2);
    if best' == best && best.Some? {
      var i, j :| FirstBest(points, c, x, y, i0, i1, j0, j1, j2, i, j, best.value);
      OneMoreVisited(points, c, x, y, i0, i1, j0, j1, j2, i, j, best.value);
    } else if best' != best {
      NowBest(points, c, x, y, i0, i1, j0, j1, j2, best, best'.value);
    }
    forall i, j | Visited(i, j, i0, i1, j0, j1, j2 + 1) && InRange(points, c, x, y, i, j)
      ensures best'.Some? && best'.value.distance2 <= Distance2(Gather(points, c.cell, i, j), x, y) {
      assert Visited(i, j, i0, i1, j0, j1, j2) || (i == i1 && j == j2);
    }
  }

  lemma {:induction false} RowKeepsBest(points: seq<Reading>, c: Config, x: real, y: real, i0: int, i1: int,
                                        j0: int, j1: int, j2: int, best: Option<Hit>)
    requires ValidConfig(c) && Representable(points, c.cell) && IsInt32(i1) && i0 <= i1 && j0 <= j2 <= j1
    requires forall j | j0 <= j < j1 :: IsInt32(j)
    requires BestOf(points, c, x, y, i0, i1, j0, j1, j0, best)
    ensures BestOf(points, c, x, y, i0, i1, j0, j1, j2, ScanRow(best, CellsOf(points, c.cell), c, x, y, i1, j0, j2))
    decreases j2 - j0
  {
    if j2 > j0 {
      RowKeepsBest(points, c, x, y, i0, i1, j0, j1, j2 - 1, best);
      ConsiderKeepsBest(points, c, x, y, i0, i1, j0, j1, j2 - 1,
                        ScanRow(best, CellsOf(points, c.cell), c, x, y, i1, j0, j2 - 1));
    }
  }

  lemma NextRowBest(points: seq<Reading>, c: Config, x: real, y: real, i0: int, i1: int, j0: int, j1: int,
                    best: Option<Hit>)
    requires ValidConfig(c) && i0 <= i1 && BestOf(points, c, x, y, i0, i1, j0, j1, j1, best)
    ensures BestOf(points, c, x, y, i0, i1 + 1, j0, j1, j0, best)
  {
    forall u, v ensures Visited(u, v, i0, i1 + 1, j0, j1, j0) <==> Visited(u, v, i0, i1, j0, j1, j1) {
    }
    if best.Some? {
      var i, j :| FirstBest(points, c, x, y, i0, i1, j0, j1, j1, i, j, best.value);
      assert FirstBest(points, c, x, y, i0, i1 + 1, j0, j1, j0, i, j, best.value);
    }
  }

  lemma {:induction false} RowsKeepBest(points: seq<Reading>, c: Config, x: real, y: real, i0: int, i1: int,
                                        j0: int, j1: int)
    requires ValidConfig(c) && Representable(points, c.cell) && i0 <= i1 && j0 <= j1
    requires forall i | i0 <= i < i1 :: IsInt32(i)
    requires forall j | j0 <= j < j1 :: IsInt32(j)
    ensures BestOf(points, c, x, y, i0, i1, j0, j1, j0, ScanRows(CellsOf(points, c.cell), c, x, y, i0, i1, j0, j1))
    decreases i1 - i0
  {
    if i1 > i0 {
      RowsKeepBest(points, c, x, y, i0, i1 - 1, j0, j1);
      var best := ScanRows(CellsOf(points, c.cell), c, x, y, i0, i1 - 1, j0, j1);
      RowKeepsBest(points, c, x, y, i0, i1 - 1, j0, j1, j1, best);
      NextRowBest(points, c, x, y, i0, i1 - 1, j0, j1,
                  ScanRow(best, CellsOf(points, c.cell), c, x, y, i1 - 1, j0, j1));
    }
  }

  // ----- the window suffices -----

  lemma SquareGrows(r: real, a: real)
    requires 0.0 <= r < a
    ensures Times(r, r) < Times(a, a)
  {
    NonnegativeTimes(a - r, r);
    PositiveTimes(a - r, a);
    assert Times(a - r, a) + Times(a - r, r) == Times(a, a) - Times(r, r);
  }

  lemma SquareBound(d: real, e: real, r: real)
    requires r >= 0.0 && Times(d, d) + Times(e, e) <= Times(r, r)
    ensures -r <= d <= r
  {
    var a := Abs(d);
    assert Times(d, d) == Times(a, a) && Times(e, e) >= 0.0;
    if a > r {
      SquareGrows(r, a);
    }
  }

  /** Points at most `radius` apart are at most `ceil(radius / cell)` cells apart. */
  lemma CellsApart(a: real, b: real, c: Config)
    requires ValidConfig(c) && a - b <= c.radius
    ensures CellOf(a, c.cell) - CellOf(b, c.cell) <= Reach(c)
  {
    var p, q, s := a / c.cell, b / c.cell, c.radius / c.cell;
    assert Times(p, c.cell) == a && Times(q, c.cell) == b && Times(s, c.cell) == c.radius;
    CompareTimes(p, q + s, c.cell);
    assert Times(q + s, c.cell) == Times(q, c.cell) + Times(s, c.cell);
  }

  lemma WindowSuffices(points: seq<Reading>, c: Config, x: real, y: real, i: int, j: int)
    requires ValidConfig(c) && InRange(points, c, x, y, i, j)
    ensures CellOf(x, c.cell) - Reach(c) <= i <= CellOf(x, c.cell) + Reach(c)
    ensures CellOf(y, c.cell) - Reach(c) <= j <= CellOf(y, c.cell) + Reach(c)
  {
    var g := Gather(points, c.cell, i, j);
    var gx, gy := Mean(g.sumX, g.count), Mean(g.sumY, g.count);
    CentroidStaysInCell(points, c.cell, i, j);
    SquareBound(x - gx, y - gy, c.radius);
    SquareBound(y - gy, x - gx, c.radius);
    CellsApart(x, gx, c);
    CellsApart(gx, x, c);
    CellsApart(y, gy, c);
    CellsApart(gy, y, c);
  }

  /** The window around a coordinate stays within the range of 32-bit indices. */
  predicate WindowFits(v: real, c: Config)
    requires ValidConfig(c)
  {
    -HALF <= CellOf(v, c.cell) - Reach(c) && CellOf(v, c.cell) + Reach(c) < HALF
  }

  /** The windowed lookup is the brute-force answer: the mean height of the first of the nearest
      centroids among all ground cells in range, and none exactly if no centroid is in range. */
  lemma LookupIsNearest(points: seq<Reading>, c: Config, x: real, y: real)
    requires ValidConfig(c) && Representable(points, c.cell) && WindowFits(x, c) && WindowFits(y, c)
    ensures var h := LocalGroundHeight(CellsOf(points, c.cell), c, x, y);
      && (h.Some? <==> exists i, j :: InRange(points, c, x, y, i, j))
      && (h.Some? ==> exists i, j :: Answers(points, c, x, y, i, j, h.value))
  {
    var i, j, r := CellOf(x, c.cell), CellOf(y, c.cell), Reach(c);
    ReachIsNatural(c);
    var best := Search(CellsOf(points, c.cell), c, x, y);
    RowsKeepBest(points, c, x, y, i - r, i + r + 1, j - r, j + r + 1);
    forall u, v | InRange(points, c, x, y, u, v)
      ensures Visited(u, v, i - r, i + r + 1, j - r, j + r + 1, j - r) {
      WindowSuffices(points, c, x, y, u, v);
    }
    if best.Some? {
      var u, v :| FirstBest(points, c, x, y, i - r, i + r + 1, j - r, j + r + 1, j - r, u, v, best.value);
      assert Answers(points, c, x, y, u, v, best.value.height);
    }
  }

  lemma ReachIsNatural(c: Config)
    requires ValidConfig(c)
    ensures Reach(c) >= 0
  {
  }
}
