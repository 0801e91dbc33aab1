/** The ground-relative obstacle filter: obstacle points are kept if their height above
    the nearest ground lies in a band. */
module GroundFilters {
  import opened Wrappers
  import opened Octets
  import opened PointClouds
  import opened GroundGrid

  /** The point's height above the local ground is within the band. */
  predicate Keeps(cells: Cells, c: Config, r: Reading)
    requires ValidConfig(c)
  {
    var ground := LocalGroundHeight(cells, c, r.x, r.y);
    ground.Some? && c.minHeight <= r.z - ground.value <= c.maxHeight
  }

  function Kept(rs: seq<Reading>, cells: Cells, c: Config): seq<Reading>
    requires ValidConfig(c)
  {
    if rs == [] then []
    else
      var n := |rs| - 1;
      Kept(rs[..n], cells, c) + if Keeps(cells, c, rs[n]) then [rs[n]] else []
  }

  lemma {:induction false} KeptReadsAs(cloud: Cloud, decode: Decoder, rs: seq<Reading>, cells: Cells, c: Config)
    requires ValidConfig(c) && forall r | r in rs :: ReadsAs(cloud, decode, r)
    ensures forall r | r in Kept(rs, cells, c) :: ReadsAs(cloud, decode, r)
  {
    if rs != [] {
      KeptReadsAs(cloud, decode, rs[..|rs| - 1], cells, c);
      assert rs[|rs| - 1] in rs;
    }
  }

  /** Reading the filtered cloud gives exactly the points kept, in their order. */
  lemma FilteredReadsAsKept(cloud: Cloud, decode: Decoder, cells: Cells, c: Config)
    requires ValidConfig(c)
    ensures var kept := Kept(Readings(cloud, decode), cells, c);
      Readings(Rewritten(cloud, kept), decode) == kept
  {
    ReadingsReadAgain(cloud, decode, 0, 0);
    KeptReadsAs(cloud, decode, Readings(cloud, decode), cells, c);
    ReadBack(cloud, decode, Kept(Readings(cloud, decode), cells, c));
  }

  lemma {:induction false} NoPointsNoCells(points: seq<Reading>, cell: real)
    requires cell > 0.0
    ensures CellsOf(points, cell) == map[] <==> points == []
  {
    if points != [] {
      var n := |points| - 1;
      assert CellKey(CellOf(points[n].x, cell), CellOf(points[n].y, cell)) in CellsOf(points, cell);
    }
  }

  class GroundFilter {
    const config: Config
    const decode: Decoder
    var cells: Cells
    var frame: string
    ghost var ground: seq<Reading>

    /** The grid is that of the last ground cloud. */
    ghost predicate Valid()
      reads this
    {
      ValidConfig(config) && cells == CellsOf(ground, config.cell)
    }

    constructor (config: Config, decode: Decoder)
      requires ValidConfig(config)
      ensures Valid() && ground == [] && frame == "" && this.config == config && this.decode == decode
    {
      this.config, this.decode := config, decode;
      cells, frame, ground := map[], "", [];
    }

    method OnGround(cloud: Cloud)
      requires Valid()
      modifies this
      ensures Valid()
      ensures if Supported(cloud) then ground == Readings(cloud, decode) && frame == cloud.frame
        else ground == old(ground) && frame == old(frame)
    {
      if !Supported(cloud) {
        return;
      }
      cells := map[];
      frame := cloud.frame;
      var points := ReadPoints(cloud, decode);
      for k := 0 to |points|
        invariant cells == CellsOf(points[..k], config.cell)
        invariant frame == cloud.frame
      {
        var r := points[k];
        assert points[..k + 1][..k] == points[..k];
        var key := CellKey(CellOf(r.x, config.cell), CellOf(r.y, config.cell));
        var cell := if key in cells then cells[key] else EMPTY_CELL;
        cells := cells[key := Add(cell, r)];
      }
      assert points[..|points|] == points;
      ground := points;
    }

    /** The better of the best so far and one cell of the window. */
    method Probe(before: Option<Hit>, x: real, y: real, i: int, j: int, limit: real) returns (best: Option<Hit>)
      requires limit == config.radius * config.radius
      ensures best == Consider(before, cells, config, x, y, i, j)
    {
      best := before;
      var key := CellKey(i, j);
      if key in cells && cells[key].count > 0 {
        var hit := Candidate(cells[key], x, y);
        if hit.distance2 <= limit && (best == None || hit.distance2 < best.value.distance2) {
          best := Some(hit);
        }
      }
    }

    /** The best of one row of the window. */
    method SearchRow(before: Option<Hit>, x: real, y: real, i: int, j0: int, j1: int) returns (best: Option<Hit>)
      requires Valid() && j0 <= j1
      ensures best == ScanRow(before, cells, config, x, y, i, j0, j1)
    {
      best := before;
      var limit := config.radius * config.radius;
      for j := j0 to j1
        invariant best == ScanRow(before, cells, config, x, y, i, j0, j)
      {
        best := Probe(best, x, y, i, j, limit);
      }
    }

    method GroundHeight(x: real, y: real) returns (height: Option<real>)
      requires Valid()
      ensures height == LocalGroundHeight(cells, config, x, y)
    {
      EmptyGridFindsNothing(cells, config, x, y);
      if cells == map[] {
        return None;
      }
      ReachIsNatural(config);
      var ci, cj, r := CellOf(x, config.cell), CellOf(y, config.cell), Reach(config);
      var best := None;
      for i := ci - r to ci + r + 1
        invariant best == ScanRows(cells, config, x, y, ci - r, i, cj - r, cj + r + 1)
      {
        best := SearchRow(best, x, y, i, cj - r, cj + r + 1);
      }
      if best == None {
        return None;
      }
      return Some(best.value.height);
    }

    method InBand(r: Reading) returns (keep: bool)
      requires Valid()
      ensures keep <==> Keeps(cells, config, r)
    {
      var height := GroundHeight(r.x, r.y);
      if height == None {
        return false;
      }
      var above := r.z - height.value;
      return !(above < config.minHeight || above > config.maxHeight);
    }

    /** The bytes and the number of the points kept. */
    method Collect(points: seq<Reading>) returns (data: Bytes, count: nat)
      requires Valid()
      ensures data == Concat(Kept(points, cells, config)) && count == |Kept(points, cells, config)|
    {
      data, count := [], 0;
      for k := 0 to |points|
        invariant data == Concat(Kept(points[..k], cells, config)) && count == |Kept(points[..k], cells, config)|
      {
        KeptNext(points, k, cells, config);
        var keep := InBand(points[k]);
        if keep {
          data, count := data + points[k].bytes, count + 1;
        }
      }
      assert points[..|points|] == points;
    }

    /** Nothing is published without a matching ground cloud; otherwise exactly the points
        kept, in their order, in a one-row cloud. */
    method OnObstacles(cloud: Cloud) returns (filtered: Option<Cloud>)
      requires Valid()
      ensures filtered == if !Supported(cloud) || ground == [] || cloud.frame != frame then None
        else Some(Rewritten(cloud, Kept(Readings(cloud, decode), cells, config)))
      ensures filtered.Some? ==>
        var kept := Kept(Readings(cloud, decode), cells, config);
        && Readings(filtered.value, decode) == kept
        && filtered.value == cloud.(height := 1, width := |kept|, rowStep := |kept| * cloud.pointStep,
                                    dense := false, data := filtered.value.data)
    {
      FilteredReadsAsKept(cloud, decode, cells, config);
      NoPointsNoCells(ground, config.cell);
      if !Supported(cloud) {
        return None;
      }
      if cells == map[] || cloud.frame != frame {
        return None;
      }
      var points := ReadPoints(cloud, decode);
      var data, count := Collect(points);
      return Some(cloud.(height := 1, width := count, rowStep := count * cloud.pointStep, dense := false, data := data));
    }
  }

  lemma KeptAppend(rs: seq<Reading>, r: Reading, cells: Cells, c: Config)
    requires ValidConfig(c)
    ensures var kept := Kept(rs, cells, c);
      && Kept(rs + [r], cells, c) == (if Keeps(cells, c, r) then kept + [r] else kept)
      && Concat(kept + [r]) == Concat(kept) + r.bytes
  {
  }

  lemma KeptNext(points: seq<Reading>, k: nat, cells: Cells, c: Config)
    requires ValidConfig(c) && k < |points|
    ensures var kept, next := Kept(points[..k], cells, c), Kept(points[..k + 1], cells, c);
      && |next| == |kept| + (if Keeps(cells, c, points[k]) then 1 else 0)
      && Concat(next) == if Keeps(cells, c, points[k]) then Concat(kept) + points[k].bytes else Concat(kept)
  {
    KeptAppend(points[..k], points[k], cells, c);
    assert points[..k + 1] == points[..k] + [points[k]];
  }

  lemma {:induction false} EmptyRowFindsNothing(c: Config, x: real, y: real, i: int, j0: int, j1: int)
    ensures ScanRow(None, map[], c, x, y, i, j0, j1) == None
    decreases j1 - j0
  {
    if j1 > j0 {
      EmptyRowFindsNothing(c, x, y, i, j0, j1 - 1);
    }
  }

  lemma {:induction false} EmptyRowsFindNothing(c: Config, x: real, y: real, i0: int, i1: int, j0: int, j1: int)
    ensures ScanRows(map[], c, x, y, i0, i1, j0, j1) == None
    decreases i1 - i0
  {
    if i1 > i0 {
      EmptyRowsFindNothing(c, x, y, i0, i1 - 1, j0, j1);
      EmptyRowFindsNothing(c, x, y, i1 - 1, j0, j1);
    }
  }

  lemma EmptyGridFindsNothing(cells: Cells, c: Config, x: real, y: real)
    requires ValidConfig(c)
    ensures cells == map[] ==> LocalGroundHeight(cells, c, x, y) == None
  {
    var i, j, r := CellOf(x, c.cell), CellOf(y, c.cell), Reach(c);
    EmptyRowsFindNothing(c, x, y, i - r, i + r + 1, j - r, j + r + 1);
  }

  /** A point is kept exactly if the brute-force ground under it exists and the point's
      height above it lies in the band. */
  lemma KeptIffInBand(ground: seq<Reading>, c: Config, r: Reading)
    requires ValidConfig(c) && Representable(ground, c.cell) && WindowFits(r.x, c) && WindowFits(r.y, c)
    ensures Keeps(CellsOf(ground, c.cell), c, r) <==>
      exists i, j, h :: Answers(ground, c, r.x, r.y, i, j, h) && c.minHeight <= r.z - h <= c.maxHeight
  {
    var height := LocalGroundHeight(CellsOf(ground, c.cell), c, r.x, r.y);
    LookupIsNearest(ground, c, r.x, r.y);
    if i, j, h :| Answers(ground, c, r.x, r.y, i, j, h) {
      assert InRange(ground, c, r.x, r.y, i, j);
      var u, v :| Answers(ground, c, r.x, r.y, u, v, height.value);
      AnswerIsUnique(ground, c, r.x, r.y, i, j, h, u, v, height.value);
    }
  }
}
