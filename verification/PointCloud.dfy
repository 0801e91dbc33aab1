/** Point clouds as byte buffers with named fields, and reading their points in order. */
module PointClouds {
  import opened Wrappers
  import opened Octets

  const FLOAT_SIZE: nat := 4

  datatype Field = Field(name: string, float32: bool, offset: nat)

  datatype Cloud = Cloud(frame: string, fields: seq<Field>, height: nat, width: nat, pointStep: nat, rowStep: nat,
                         dense: bool, data: Bytes)

  /** The value of four bytes, if it is finite. */
  type Decoder = Bytes -> Option<real>

  datatype Reading = Reading(bytes: Bytes, x: real, y: real, z: real)

  function FindField(fields: seq<Field>, name: string): Option<Field> {
    if fields == [] then None
    else if fields[0].name == name then Some(fields[0])
    else FindField(fields[1..], name)
  }

  predicate IsFloat(fields: seq<Field>, name: string) {
    FindField(fields, name).Some? && FindField(fields, name).value.float32
  }

  predicate Supported(c: Cloud) {
    IsFloat(c.fields, "x") && IsFloat(c.fields, "y") && IsFloat(c.fields, "z")
  }

  function ReadFloat(point: Bytes, field: Option<Field>, decode: Decoder): Option<real> {
    if field == None || !field.value.float32 || field.value.offset + FLOAT_SIZE > |point| then None
    else decode(point[field.value.offset..field.value.offset + FLOAT_SIZE])
  }

  /** A point counts only if all three coordinates can be read. */
  function Read(fields: seq<Field>, point: Bytes, decode: Decoder): Option<Reading> {
    var x := ReadFloat(point, FindField(fields, "x"), decode);
    var y := ReadFloat(point, FindField(fields, "y"), decode);
    var z := ReadFloat(point, FindField(fields, "z"), decode);
    if x.Some? && y.Some? && z.Some? then Some(Reading(point, x.value, y.value, z.value)) else None
  }

  /** The first field of this name is a float that lies within the point and reads as `v`. */
  ghost predicate HasCoordinate(fields: seq<Field>, name: string, point: Bytes, decode: Decoder, v: real) {
    exists i :: FirstNamed(fields, name, i) && fields[i].float32 && fields[i].offset + 4 <= |point|
      && decode(point[fields[i].offset..fields[i].offset + 4]) == Some(v)
  }

  predicate FirstNamed(fields: seq<Field>, name: string, i: int) {
    0 <= i < |fields| && fields[i].name == name && forall k | 0 <= k < i :: fields[k].name != name
  }

  lemma {:induction false} FindFieldIs(fields: seq<Field>, name: string) returns (i: int)
    ensures match FindField(fields, name)
      case None => forall k | 0 <= k < |fields| :: fields[k].name != name
      case Some(f) => FirstNamed(fields, name, i) && fields[i] == f
  {
    i := 0;
    if fields != [] && fields[0].name != name {
      i := FindFieldIs(fields[1..], name);
      i := i + 1;
    }
  }

  lemma CoordinateIff(fields: seq<Field>, name: string, point: Bytes, decode: Decoder, v: real)
    ensures ReadFloat(point, FindField(fields, name), decode) == Some(v)
       <==> HasCoordinate(fields, name, point, decode, v)
  {
    var i := FindFieldIs(fields, name);
    if k :| FirstNamed(fields, name, k) {
      assert k == i;
    }
  }

  /** A point is read as these coordinates exactly if they are those of the fields named x, y
      and z; its bytes are kept. */
  lemma ReadIff(fields: seq<Field>, point: Bytes, decode: Decoder, r: Reading)
    ensures Read(fields, point, decode) == Some(r) <==>
      && r.bytes == point
      && HasCoordinate(fields, "x", point, decode, r.x)
      && HasCoordinate(fields, "y", point, decode, r.y)
      && HasCoordinate(fields, "z", point, decode, r.z)
  {
    CoordinateIff(fields, "x", point, decode, r.x);
    CoordinateIff(fields, "y", point, decode, r.y);
    CoordinateIff(fields, "z", point, decode, r.z);
  }

  lemma IsFloatIff(fields: seq<Field>, name: string)
    ensures IsFloat(fields, name) <==> exists i :: FirstNamed(fields, name, i) && fields[i].float32
  {
    var i := FindFieldIs(fields, name);
    if k :| FirstNamed(fields, name, k) {
      assert k == i;
    }
  }

  /** A cloud is supported exactly if the first fields named x, y and z are floats. */
  lemma SupportedIff(c: Cloud)
    ensures Supported(c) <==>
      forall name | name in ["x", "y", "z"] :: exists i :: FirstNamed(c.fields, name, i) && c.fields[i].float32
  {
    var names := ["x", "y", "z"];
    forall name ensures IsFloat(c.fields, name) <==> exists i :: FirstNamed(c.fields, name, i) && c.fields[i].float32 {
      IsFloatIff(c.fields, name);
    }
    assert names[0] in names && names[1] in names && names[2] in names;
  }

  function Offset(c: Cloud, row: nat, column: nat): nat {
    row * c.rowStep + column * c.pointStep
  }

  function ToSeq<T>(o: Option<T>): seq<T> {
    match o
    case None => []
    case Some(v) => [v]
  }

  /** The readable points from a place on, row by row; data that ends early ends the cloud. */
  function ReadingsFrom(c: Cloud, decode: Decoder, row: nat, column: nat): seq<Reading>
    decreases c.height - row, c.width - column
  {
    if row >= c.height then []
    else if column >= c.width then ReadingsFrom(c, decode, row + 1, 0)
    else
      var at := Offset(c, row, column);
      if at + c.pointStep > |c.data| then []
      else ToSeq(Read(c.fields, c.data[at..at + c.pointStep], decode)) + ReadingsFrom(c, decode, row, column + 1)
  }

  function Readings(c: Cloud, decode: Decoder): seq<Reading> {
    ReadingsFrom(c, decode, 0, 0)
  }

  predicate HasPoint(c: Cloud, row: nat, column: nat) {
    Offset(c, row, column) + c.pointStep <= |c.data|
  }

  function ReadingAt(c: Cloud, decode: Decoder, row: nat, column: nat): Option<Reading>
    requires HasPoint(c, row, column)
  {
    Read(c.fields, c.data[Offset(c, row, column)..Offset(c, row, column) + c.pointStep], decode)
  }

  lemma NextPoint(c: Cloud, decode: Decoder, row: nat, column: nat, before: seq<Reading>)
    requires row < c.height && column < c.width
    ensures if HasPoint(c, row, column) then
        before + ToSeq(ReadingAt(c, decode, row, column)) + ReadingsFrom(c, decode, row, column + 1)
          == before + ReadingsFrom(c, decode, row, column)
      else before == before + ReadingsFrom(c, decode, row, column)
  {
  }

  lemma NextRow(c: Cloud, decode: Decoder, row: nat, column: nat)
    ensures row < c.height && column >= c.width ==>
      ReadingsFrom(c, decode, row, column) == ReadingsFrom(c, decode, row + 1, 0)
    ensures row >= c.height ==> ReadingsFrom(c, decode, row, column) == []
  {
  }

  /** One row; `ended` tells that the data ended early. */
  method ReadRow(c: Cloud, decode: Decoder, row: nat) returns (points: seq<Reading>, ended: bool)
    requires row < c.height
    ensures ReadingsFrom(c, decode, row, 0) == points + if ended then [] else ReadingsFrom(c, decode, row + 1, 0)
  {
    points := [];
    for column := 0 to c.width
      invariant ReadingsFrom(c, decode, row, 0) == points + ReadingsFrom(c, decode, row, column)
    {
      NextPoint(c, decode, row, column, points);
      if !HasPoint(c, row, column) {
        return points, true;
      }
      points := points + ToSeq(ReadingAt(c, decode, row, column));
    }
    NextRow(c, decode, row, c.width);
    return points, false;
  }

  method ReadPoints(c: Cloud, decode: Decoder) returns (points: seq<Reading>)
    ensures points == Readings(c, decode)
  {
    points := [];
    for row := 0 to c.height
      invariant Readings(c, decode) == points + ReadingsFrom(c, decode, row, 0)
    {
      var more, ended := ReadRow(c, decode, row);
      Reassociate(points, more, if ended then [] else ReadingsFrom(c, decode, row + 1, 0));
      points := points + more;
      if ended {
        assert points + [] == points;
        return;
      }
    }
    NextRow(c, decode, c.height, 0);
  }

  lemma Reassociate<T>(a: seq<T>, b: seq<T>, c: seq<T>)
    ensures a + b + c == a + (b + c)
  {
  }

  // ----- writing readings back -----

  function Concat(rs: seq<Reading>): Bytes {
    if rs == [] then [] else Concat(rs[..|rs| - 1]) + rs[|rs| - 1].bytes
  }

  /** A one-row cloud of the given points, laid out like `c`. */
  function Rewritten(c: Cloud, rs: seq<Reading>): Cloud {
    c.(height := 1, width := |rs|, rowStep := |rs| * c.pointStep, dense := false, data := Concat(rs))
  }

  predicate ReadsAs(c: Cloud, decode: Decoder, r: Reading) {
    |r.bytes| == c.pointStep && Read(c.fields, r.bytes, decode) == Some(r)
  }

  lemma {:induction false} ReadingsReadAgain(c: Cloud, decode: Decoder, row: nat, column: nat)
    ensures forall r | r in ReadingsFrom(c, decode, row, column) :: ReadsAs(c, decode, r)
    decreases c.height - row, c.width - column
  {
    if row < c.height {
      if column >= c.width {
        ReadingsReadAgain(c, decode, row + 1, 0);
      } else {
        ReadingsReadAgain(c, decode, row, column + 1);
      }
    }
  }

  function Multiple(k: nat, n: nat): nat {
    k * n
  }

  lemma MultipleGrows(k: nat, n: nat)
    ensures Multiple(k + 1, n) == Multiple(k, n) + n
    ensures Multiple(0, n) == 0
  {
  }

  lemma SliceLeft<T>(a: seq<T>, b: seq<T>, i: nat, j: nat)
    requires i <= j <= |a|
    ensures (a + b)[i..j] == a[i..j]
  {
  }

  lemma SliceRight<T>(a: seq<T>, b: seq<T>)
    ensures (a + b)[|a|..|a| + |b|] == b
  {
  }

  lemma {:induction false} ConcatSlices(rs: seq<Reading>, n: nat, k: nat)
    requires forall r | r in rs :: |r.bytes| == n
    ensures |Concat(rs)| == Multiple(|rs|, n)
    ensures k < |rs| ==>
      Multiple(k, n) + n <= |Concat(rs)| && Concat(rs)[Multiple(k, n)..Multiple(k, n) + n] == rs[k].bytes
  {
    MultipleGrows(0, n);
    if rs != [] {
      var m := |rs| - 1;
      ConcatSlices(rs[..m], n, k);
      MultipleGrows(m, n);
      assert rs[m] in rs;
      var body := Concat(rs[..m]);
      if k < m {
        SliceLeft(body, rs[m].bytes, Multiple(k, n), Multiple(k, n) + n);
      } else if k == m {
        SliceRight(body, rs[m].bytes);
      }
    }
  }

  lemma {:induction false} ReadBackFrom(c: Cloud, decode: Decoder, rs: seq<Reading>, k: nat)
    requires k <= |rs| && forall r | r in rs :: ReadsAs(c, decode, r)
    ensures ReadingsFrom(Rewritten(c, rs), decode, 0, k) == rs[k..]
    decreases |rs| - k
  {
    var f := Rewritten(c, rs);
    if k < |rs| {
      ReadBackFrom(c, decode, rs, k + 1);
      RewrittenPoint(c, decode, rs, k);
      NextPoint(f, decode, 0, k, []);
      assert rs[k..] == [rs[k]] + rs[k + 1..];
    } else {
      NextRow(f, decode, 0, k);
      NextRow(f, decode, 1, 0);
    }
  }

  lemma RewrittenPoint(c: Cloud, decode: Decoder, rs: seq<Reading>, k: nat)
    requires k < |rs| && forall r | r in rs :: ReadsAs(c, decode, r)
    ensures HasPoint(Rewritten(c, rs), 0, k) && ReadingAt(Rewritten(c, rs), decode, 0, k) == Some(rs[k])
  {
    ConcatSlices(rs, c.pointStep, k);
    assert Offset(Rewritten(c, rs), 0, k) == Multiple(k, c.pointStep);
    assert rs[k] in rs;
  }

  /** Points written back into a cloud of the same layout are read again as they were. */
  lemma ReadBack(c: Cloud, decode: Decoder, rs: seq<Reading>)
    requires forall r | r in rs :: ReadsAs(c, decode, r)
    ensures Readings(Rewritten(c, rs), decode) == rs
  {
    ReadBackFrom(c, decode, rs, 0);
  }
}
