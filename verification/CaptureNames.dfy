/** File names of captured images: printing them from the metadata, and reading the
    metadata back out of a name. */
module CaptureNames {
  import opened Wrappers

  // ----- text -----

  predicate IsIllegal(c: char) {
    c in "<>:\"/\\|?*" || c as int < 32
  }

  /** Control characters, and what some file system does not allow in a name. */
  lemma IllegalIs(c: char)
    ensures IsIllegal(c) <==> 0 <= c as int <= 31 || c in {'<', '>', ':', '"', '/', '\\', '|', '?', '*'}
  {
  }

  /** White space as the string class counts it: ASCII, and the Unicode separators. */
  predicate IsSpace(c: char) {
    var u := c as int;
    || u == 0x20 || 0x09 <= u <= 0x0D || u == 0x85 || u == 0xA0 || u == 0x1680
    || 0x2000 <= u <= 0x200A || u == 0x2028 || u == 0x2029 || u == 0x202F || u == 0x205F || u == 0x3000
  }

  function TrimLeft(s: string): string {
    if s != "" && IsSpace(s[0]) then TrimLeft(s[1..]) else s
  }

  function TrimRight(s: string): string {
    if s != "" && IsSpace(s[|s| - 1]) then TrimRight(s[..|s| - 1]) else s
  }

  function Trimmed(s: string): string {
    TrimRight(TrimLeft(s))
  }

  predicate IsBlank(s: string) {
    Trimmed(s) == ""
  }

  function Replaced(s: string): string {
    seq(|s|, i requires 0 <= i < |s| => if IsIllegal(s[i]) then '-' else s[i])
  }

  function Sanitised(s: string): string {
    Trimmed(Replaced(s))
  }

  predicate HasEnds(s: string) {
    s != "" ==> !IsSpace(s[0]) && !IsSpace(s[|s| - 1])
  }

  lemma {:induction false} TrimLeftMeans(s: string) returns (k: nat)
    ensures k <= |s| && TrimLeft(s) == s[k..] && forall i | 0 <= i < k :: IsSpace(s[i])
    ensures k < |s| ==> !IsSpace(s[k])
  {
    if s != "" && IsSpace(s[0]) {
      var j := TrimLeftMeans(s[1..]);
      k := j + 1;
      assert s[1..][j..] == s[k..];
      assert forall i | 0 < i < k :: s[i] == s[1..][i - 1];
    } else {
      k := 0;
    }
  }

  lemma {:induction false} TrimRightMeans(s: string) returns (k: nat)
    ensures k <= |s| && TrimRight(s) == s[..k] && forall i | k <= i < |s| :: IsSpace(s[i])
    ensures k > 0 ==> !IsSpace(s[k - 1])
  {
    if s != "" && IsSpace(s[|s| - 1]) {
      var n := |s| - 1;
      k := TrimRightMeans(s[..n]);
      assert s[..n][..k] == s[..k];
      assert forall i | k <= i < n :: s[i] == s[..n][i];
    } else {
      k := |s|;
    }
  }

  /** Trimming keeps a middle part, drops only white space, and leaves none at the ends. */
  lemma TrimmedMeans(s: string) returns (a: nat, b: nat)
    ensures a <= b <= |s| && Trimmed(s) == s[a..b] && HasEnds(Trimmed(s))
    ensures forall i | 0 <= i < a || b <= i < |s| :: IsSpace(s[i])
  {
    a := TrimLeftMeans(s);
    var t := s[a..];
    var m := TrimRightMeans(t);
    b := a + m;
    assert t[..m] == s[a..b];
    assert forall i | b <= i < |s| :: s[i] == t[i - a];
    assert m > 0 ==> t[0] == s[a];
  }

  lemma TrimmedIsStable(s: string)
    requires HasEnds(s)
    ensures Trimmed(s) == s
  {
  }

  /** Every character that is no white space survives trimming. */
  lemma TrimmedKeeps(s: string, i: nat)
    requires i < |s| && !IsSpace(s[i])
    ensures s[i] in Trimmed(s)
  {
    var a, b := TrimmedMeans(s);
    assert Trimmed(s)[i - a] == s[i];
  }

  lemma TrimmedAdds(s: string, c: char)
    requires c in Trimmed(s)
    ensures c in s
  {
    var a, b := TrimmedMeans(s);
    var i :| 0 <= i < |s[a..b]| && s[a..b][i] == c;
    assert s[a + i] == c;
  }

  /** Sanitising twice is sanitising once; a field that is not blank does not become empty;
      and neither an illegal character nor white space at the ends is left. */
  lemma SanitisedIsStable(s: string)
    ensures Sanitised(Sanitised(s)) == Sanitised(s)
    ensures !IsBlank(s) ==> Sanitised(s) != ""
    ensures forall c | c in Sanitised(s) :: !IsIllegal(c) && c !in {'<', '>', ':', '"', '/', '\\', '|', '?', '*'}
    ensures HasEnds(Sanitised(s))
  {
    var r := Replaced(s);
    var t := Trimmed(r);
    var a, b := TrimmedMeans(r);
    forall c | c in t ensures !IsIllegal(c) {
      TrimmedAdds(r, c);
      assert !IsIllegal('-');
    }
    assert Replaced(t) == t by {
      assert forall i | 0 <= i < |t| :: t[i] in t;
    }
    TrimmedIsStable(t);
    if !IsBlank(s) {
      var p, q := TrimmedMeans(s);
      assert p < |s| && !IsSpace(s[p]) by {
        assert Trimmed(s)[0] == s[p];
      }
      assert !IsSpace(r[p]);
      TrimmedKeeps(r, p);
    }
  }

  /** Sanitising neither adds nor loses a legal character other than '-' and white space. */
  lemma SanitisedKeeps(s: string, c: char)
    requires !IsSpace(c) && c as int >= 32 && c !in {'<', '>', ':', '"', '/', '\\', '|', '?', '*', '-'}
    ensures c in Sanitised(s) <==> c in s
  {
    var r := Replaced(s);
    if c in s {
      var i :| 0 <= i < |s| && s[i] == c;
      TrimmedKeeps(r, i);
    }
    if c in Sanitised(s) {
      TrimmedAdds(r, c);
      var i :| 0 <= i < |r| && r[i] == c;
      assert s[i] == c;
    }
  }

  // ----- dates -----

  datatype DateTime =
    DateTime(year: int, month: int, day: int, hour: int, minute: int, second: int, millisecond: int)

  /** There is no year zero; the year before year 1 is -1. */
  predicate IsLeap(year: int) {
    var y := if year < 1 then year + 1 else year;
    (y % 4 == 0 && y % 100 != 0) || y % 400 == 0
  }

  function DaysIn(year: int, month: int): int {
    if month == 2 then (if IsLeap(year) then 29 else 28)
    else if month in {4, 6, 9, 11} then 30
    else 31
  }

  predicate IsValid(d: DateTime) {
    && d.year != 0 && 1 <= d.month <= 12 && 1 <= d.day <= DaysIn(d.year, d.month)
    && 0 <= d.hour < 24 && 0 <= d.minute < 60 && 0 <= d.second < 60
    && 0 <= d.millisecond < 1000
  }

  lemma ByFour(k: int, q: int, r: int)
    requires k == 4 * q + r && 0 <= r < 4
    ensures k % 4 == r && k / 4 == q
  {
  }

  lemma ByHundred(k: int, q: int, r: int)
    requires k == 100 * q + r && 0 <= r < 100
    ensures k % 100 == r && k / 100 == q
  {
  }

  lemma ByFourHundred(k: int, q: int, r: int)
    requires k == 400 * q + r && 0 <= r < 400
    ensures k % 400 == r && k / 400 == q
  {
  }

  lemma Centuries(k: nat, q: int, r: int, c: int, d: int)
    requires k == 400 * q + r && 0 <= r < 400 && r == 100 * c + d && 0 <= d < 100
    ensures (k % 4 == 0 && k % 100 != 0) || k % 400 == 0 <==> k % 4 == 0 && k % 400 !in {100, 200, 300}
  {
    ByFourHundred(k, q, r);
    ByHundred(k, 4 * q + c, d);
    ByFour(k, 100 * q + 25 * c + d / 4, d % 4);
  }

  lemma OppositeDivides(k: int)
    requires k >= 0
    ensures (-k) % 4 == 0 <==> k % 4 == 0
    ensures (-k) % 100 == 0 <==> k % 100 == 0
    ensures (-k) % 400 == 0 <==> k % 400 == 0
  {
    var p, q, s, a, b, c := k / 4, k / 100, k / 400, k % 4, k % 100, k % 400;
    assert k == 4 * p + a;
    assert k == 100 * q + b;
    assert k == 400 * s + c;
    if a == 0 {
      ByFour(-k, -p, 0);
    } else {
      ByFour(-k, -p - 1, 4 - a);
    }
    if b == 0 {
      ByHundred(-k, -q, 0);
    } else {
      ByHundred(-k, -q - 1, 100 - b);
    }
    if c == 0 {
      ByFourHundred(-k, -s, 0);
    } else {
      ByFourHundred(-k, -s - 1, 400 - c);
    }
  }

  /** The Gregorian calendar: a leap year every four, but none in three of four full centuries;
      years before year 1 are counted back from -1. */
  lemma LeapIff(year: int)
    requires year != 0
    ensures var k := if year > 0 then year else -year - 1;
      IsLeap(year) <==> k % 4 == 0 && k % 400 !in {100, 200, 300}
  {
    var k := if year > 0 then year else -year - 1;
    var r := k % 400;
    Centuries(k, k / 400, r, r / 100, r % 100);
    OppositeDivides(k);
  }

  /** Of the months but February, the odd ones up to July and the even ones after it have 31
      days, and the others 30. */
  lemma DateIff(d: DateTime)
    ensures IsValid(d) <==>
      && d.year != 0 && 1 <= d.month <= 12 && 1 <= d.day
      && d.day <= (if d.month == 2 then (if IsLeap(d.year) then 29 else 28) else 30 + (d.month + d.month / 8) % 2)
      && 0 <= d.hour <= 23 && 0 <= d.minute <= 59 && 0 <= d.second <= 59 && 0 <= d.millisecond <= 999
  {
  }

  /** The time cut to the second. */
  function WholeSecond(d: DateTime): DateTime {
    d.(millisecond := 0)
  }

  predicate IsDigit(c: char) {
    '0' <= c <= '9'
  }

  predicate AllDigits(s: string) {
    forall i | 0 <= i < |s| :: IsDigit(s[i])
  }

  function Digit(n: int): char
    requires 0 <= n < 10
  {
    (n + 48) as char
  }

  function Two(n: int): string
    requires 0 <= n < 100
  {
    [Digit(n / 10), Digit(n % 10)]
  }

  function Decimal(n: nat): string {
    if n < 10 then [Digit(n)] else Decimal(n / 10) + [Digit(n % 10)]
  }

  /** At least four digits, and a minus sign for years before year 1. */
  function YearText(year: int): string {
    if year < 0 then ['-'] + FourDigits(-year) else FourDigits(year)
  }

  function FourDigits(n: nat): string {
    if n < 10000 then Two(n / 100) + Two(n % 100) else Decimal(n)
  }

  function Stamp(d: DateTime): string
    requires IsValid(d)
  {
    YearText(d.year) + Two(d.month) + Two(d.day) + Two(d.hour) + Two(d.minute) + Two(d.second)
  }

  function Value(c: char): int
    requires IsDigit(c)
  {
    c as int - 48
  }

  function Number(s: string): int
    requires AllDigits(s) && |s| == 2
  {
    10 * Value(s[0]) + Value(s[1])
  }

  /** The number that decimal digits stand for. */
  function Worth(s: string): int
    requires AllDigits(s)
  {
    if s == "" then 0 else 10 * Worth(s[..|s| - 1]) + Value(s[|s| - 1])
  }

  lemma {:induction false} DecimalIsWorth(n: nat)
    ensures AllDigits(Decimal(n)) && Worth(Decimal(n)) == n && (n >= 1000 ==> |Decimal(n)| >= 4)
    decreases n
  {
    if n >= 10 {
      DecimalIsWorth(n / 10);
      assert Decimal(n)[..|Decimal(n)| - 1] == Decimal(n / 10);
      LongEnough(n);
    } else {
      assert Decimal(n)[..0] == "";
    }
  }

  lemma LongEnough(n: nat)
    requires n >= 10
    ensures n >= 1000 ==> |Decimal(n)| >= 4
  {
    if n >= 1000 {
      var a, b := n / 10, n / 10 / 10;
      assert b >= 10 && Decimal(b) == Decimal(b / 10) + [Digit(b % 10)];
    }
  }

  lemma TwoIsWorth(s: string, n: int)
    requires AllDigits(s) && 0 <= n < 100
    ensures AllDigits(s + Two(n)) && Worth(s + Two(n)) == 100 * Worth(s) + n
  {
    var t := s + [Digit(n / 10)];
    assert s + Two(n) == t + [Digit(n % 10)];
    assert (t + [Digit(n % 10)])[..|t|] == t && t[..|s|] == s;
    assert AllDigits(t);
  }

  /** A year is printed with its sign if it is negative, and with at least four digits. */
  lemma YearIsPrinted(year: int)
    ensures var t := if year < 0 then YearText(year)[1..] else YearText(year);
      && |t| >= 4 && AllDigits(t) && Worth(t) == (if year < 0 then -year else year)
      && (year < 0 ==> YearText(year)[0] == '-')
  {
    var n := if year < 0 then -year else year;
    if n < 10000 {
      TwoIsWorth("", n / 100);
      assert "" + Two(n / 100) == Two(n / 100);
      TwoIsWorth(Two(n / 100), n % 100);
    } else {
      DecimalIsWorth(n);
    }
    if year < 0 {
      assert YearText(year)[1..] == FourDigits(n);
    }
  }

  /** Fourteen digits as a date, if they are one. They hold no milliseconds. */
  function ReadStamp(s: string): Option<DateTime>
    requires |s| == 14 && AllDigits(s)
  {
    var d := DateTime(100 * Number(s[0..2]) + Number(s[2..4]), Number(s[4..6]), Number(s[6..8]), Number(s[8..10]),
                      Number(s[10..12]), Number(s[12..14]), 0);
    if IsValid(d) then Some(d) else None
  }

  /** A four-digit year's time is printed as fourteen digits, which give it back cut to the second. */
  lemma StampReads(d: DateTime)
    requires IsValid(d) && 1 <= d.year <= 9999
    ensures |Stamp(d)| == 14 && AllDigits(Stamp(d)) && ReadStamp(Stamp(d)) == Some(WholeSecond(d))
  {
  }

  lemma ReadYearIsShort(s: string)
    requires |s| == 14 && AllDigits(s) && ReadStamp(s).Some?
    ensures 1 <= ReadStamp(s).value.year <= 9999
  {
  }

  // ----- printing -----

  datatype Metadata = Metadata(vehicle: string, train: string, car: string, point: string, capturedAt: DateTime)

  predicate IsComplete(m: Metadata) {
    !IsBlank(m.vehicle) && !IsBlank(m.train) && !IsBlank(m.car) && !IsBlank(m.point) && IsValid(m.capturedAt)
  }

  function WithoutDots(s: string): string {
    if s != "" && s[0] == '.' then WithoutDots(s[1..]) else s
  }

  function Joined(vehicle: string, car: string, point: string, stamp: string, extension: string): string {
    vehicle + "_" + car + "_" + point + "," + stamp + "." + extension
  }

  function FileNameOf(m: Metadata, extension: string): string {
    if !IsComplete(m) then ""
    else Joined(Sanitised(m.vehicle), Sanitised(m.car), Sanitised(m.point), Stamp(m.capturedAt),
                Sanitised(WithoutDots(extension)))
  }

  method FileName(m: Metadata, extension: string) returns (name: string)
    ensures name == FileNameOf(m, extension)
  {
    if !IsComplete(m) {
      return "";
    }
    var ext := extension;
    while ext != "" && ext[0] == '.'
      invariant WithoutDots(ext) == WithoutDots(extension)
      decreases |ext|
    {
      ext := ext[1..];
    }
    name := Joined(Sanitised(m.vehicle), Sanitised(m.car), Sanitised(m.point), Stamp(m.capturedAt), Sanitised(ext));
  }

  // ----- the pattern of a name -----

  predicate IsAlphanumeric(c: char) {
    'a' <= c <= 'z' || 'A' <= c <= 'Z' || '0' <= c <= '9'
  }

  datatype Parts = Parts(vehicle: string, car: string, point: string, stamp: string, extension: string)

  /** The pattern: two fields without '_', one without ',', fourteen digits and an
      alphanumeric extension; its end also matches before a final line feed. */
  predicate Matches(name: string, p: Parts) {
    && p.vehicle != "" && '_' !in p.vehicle && p.car != "" && '_' !in p.car && p.point != "" && ',' !in p.point
    && |p.stamp| == 14 && AllDigits(p.stamp)
    && p.extension != "" && (forall c | c in p.extension :: IsAlphanumeric(c))
    && var whole := Joined(p.vehicle, p.car, p.point, p.stamp, p.extension);
       (name == whole || name == whole + "\n")
  }

  function IndexOf(s: string, c: char): (i: nat)
    ensures i <= |s| && c !in s[..i] && (i < |s| ==> s[i] == c)
  {
    if s == "" || s[0] == c then 0
    else
      var i := IndexOf(s[1..], c);
      assert s[..i + 1] == [s[0]] + s[1..][..i];
      i + 1
  }

  /** The text before the first `c` and the text after it, if both the first part and `c` are there. */
  function Cut(s: string, c: char): (r: Option<(string, string)>)
    ensures r.Some? ==> s == r.value.0 + [c] + r.value.1 && c !in r.value.0 && r.value.0 != ""
  {
    var i := IndexOf(s, c);
    if i == 0 || i == |s| then None else Some((s[..i], s[i + 1..]))
  }

  function WithoutLineFeed(s: string): string {
    if s != "" && s[|s| - 1] == '\n' then s[..|s| - 1] else s
  }

  function Match(name: string): Option<Parts> {
    match Cut(name, '_')
    case None => None
    case Some((vehicle, rest1)) =>
      match Cut(rest1, '_')
      case None => None
      case Some((car, rest2)) =>
        match Cut(rest2, ',')
        case None => None
        case Some((point, tail)) =>
          if |tail| < 16 || !AllDigits(tail[..14]) || tail[14] != '.' then None
          else
            var extension := WithoutLineFeed(tail[15..]);
            if extension != "" && (forall c | c in extension :: IsAlphanumeric(c))
              then Some(Parts(vehicle, car, point, tail[..14], extension)) else None
  }

  lemma {:induction false} IndexOfFirst(a: string, c: char, b: string)
    requires c !in a
    ensures IndexOf(a + [c] + b, c) == |a|
  {
    var s := a + [c] + b;
    if a != "" {
      IndexOfFirst(a[1..], c, b);
      assert s[1..] == a[1..] + [c] + b && s[0] == a[0];
    } else {
      assert s[0] == c;
    }
  }

  lemma CutFirst(a: string, c: char, b: string)
    requires c !in a && a != ""
    ensures Cut(a + [c] + b, c) == Some((a, b))
  {
    IndexOfFirst(a, c, b);
    var s := a + [c] + b;
    assert s[..|a|] == a && s[|a| + 1..] == b;
  }

  lemma JoinedIs(p: Parts, end: string)
    ensures Joined(p.vehicle, p.car, p.point, p.stamp, p.extension) + end
         == p.vehicle + ['_'] + (p.car + ['_'] + (p.point + [','] + (p.stamp + ['.'] + (p.extension + end))))
  {
  }

  lemma TailMatches(p: Parts, end: string)
    requires |p.stamp| == 14 && AllDigits(p.stamp) && (end == "" || end == "\n")
    requires p.extension != "" && forall c | c in p.extension :: IsAlphanumeric(c)
    ensures var tail := p.stamp + ['.'] + (p.extension + end);
      |tail| >= 16 && tail[..14] == p.stamp && tail[14] == '.' && WithoutLineFeed(tail[15..]) == p.extension
  {
    var tail := p.stamp + ['.'] + (p.extension + end);
    assert tail[15..] == p.extension + end;
    assert p.extension[|p.extension| - 1] in p.extension;
    assert (p.extension + end)[..|p.extension|] == p.extension;
  }

  lemma MatchFinds(name: string, p: Parts)
    requires Matches(name, p)
    ensures Match(name) == Some(p)
  {
    var end := if name == Joined(p.vehicle, p.car, p.point, p.stamp, p.extension) then "" else "\n";
    var tail := p.stamp + ['.'] + (p.extension + end);
    JoinedIs(p, end);
    assert name == Joined(p.vehicle, p.car, p.point, p.stamp, p.extension) + end;
    CutFirst(p.vehicle, '_', p.car + ['_'] + (p.point + [','] + tail));
    CutFirst(p.car, '_', p.point + [','] + tail);
    CutFirst(p.point, ',', tail);
    TailMatches(p, end);
  }

  lemma NameIs(name: string, p: Parts, end: string)
    requires end == "" || end == "\n"
    requires name == p.vehicle + ['_'] + (p.car + ['_'] + (p.point + [','] + (p.stamp + ['.'] + (p.extension + end))))
    ensures var whole := Joined(p.vehicle, p.car, p.point, p.stamp, p.extension);
      name == whole || name == whole + "\n"
  {
  }

  lemma TailIs(tail: string) returns (end: string)
    requires |tail| >= 16 && tail[14] == '.'
    ensures tail == tail[..14] + ['.'] + (WithoutLineFeed(tail[15..]) + end) && (end == "" || end == "\n")
  {
    var rest := tail[15..];
    end := if rest[|rest| - 1] == '\n' then "\n" else "";
    assert rest == WithoutLineFeed(rest) + end;
    assert tail == tail[..14] + ['.'] + rest;
  }

  lemma MatchIsSound(name: string)
    requires Match(name).Some?
    ensures Matches(name, Match(name).value)
  {
    var p := Match(name).value;
    var rest1 := Cut(name, '_').value.1;
    var rest2 := Cut(rest1, '_').value.1;
    var tail := Cut(rest2, ',').value.1;
    var end := TailIs(tail);
    NameIs(name, p, end);
  }

  /** A name has at most one reading, and it is the one that is found. */
  lemma MatchIff(name: string, p: Parts)
    ensures Match(name) == Some(p) <==> Matches(name, p)
  {
    if Match(name) == Some(p) {
      MatchIsSound(name);
    }
    if Matches(name, p) {
      MatchFinds(name, p);
    }
  }

  // ----- reading a name -----

  function Lower(s: string): string {
    seq(|s|, i requires 0 <= i < |s| => if 'A' <= s[i] <= 'Z' then s[i] - 'A' + 'a' else s[i])
  }

  predicate LooksLikeImage(extension: string) {
    Lower(extension) in ["jpg", "jpeg", "png", "ply", "pcd"]
  }

  datatype Record = Record(fileName: string, vehicle: string, car: string, point: string, capturedAt: Option<DateTime>)

  function ParseFileName(name: string): Option<Record> {
    match Match(name)
    case None => None
    case Some(p) =>
      if |p.stamp| == 14 && AllDigits(p.stamp) && LooksLikeImage(p.extension)
        then Some(Record(name, p.vehicle, p.car, p.point, ReadStamp(p.stamp))) else None
  }

  lemma ImageIsAlphanumeric(extension: string)
    requires LooksLikeImage(extension)
    ensures extension != "" && forall c | c in extension :: IsAlphanumeric(c)
  {
    var low := Lower(extension);
    assert forall i | 0 <= i < |low| :: low[i] in low && IsAlphanumeric(low[i]);
    forall c | c in extension ensures IsAlphanumeric(c) {
      var i :| 0 <= i < |extension| && extension[i] == c;
      assert IsAlphanumeric(low[i]);
    }
  }

  predicate ReadsAs(m: Metadata, name: string, time: DateTime) {
    ParseFileName(name) == Some(Record(name, Sanitised(m.vehicle), Sanitised(m.car), Sanitised(m.point), Some(time)))
  }

  /** What a name can carry: separators occur only between the fields, the year has four
      digits and the extension is one that is looked for. */
  predicate IsNameable(m: Metadata, extension: string) {
    && '_' !in m.vehicle && '_' !in m.car && ',' !in m.point && 1 <= m.capturedAt.year <= 9999
    && LooksLikeImage(Sanitised(WithoutDots(extension)))
  }

  lemma SeparatorsAreKept(m: Metadata)
    ensures '_' in Sanitised(m.vehicle) <==> '_' in m.vehicle
    ensures '_' in Sanitised(m.car) <==> '_' in m.car
    ensures ',' in Sanitised(m.point) <==> ',' in m.point
  {
    SanitisedKeeps(m.vehicle, '_');
    SanitisedKeeps(m.car, '_');
    SanitisedKeeps(m.point, ',');
  }

  lemma CleanNameReadsBack(m: Metadata, extension: string)
    requires IsComplete(m) && IsNameable(m, extension)
    ensures ReadsAs(m, FileNameOf(m, extension), WholeSecond(m.capturedAt))
  {
    var ext := Sanitised(WithoutDots(extension));
    var p := Parts(Sanitised(m.vehicle), Sanitised(m.car), Sanitised(m.point), Stamp(m.capturedAt), ext);
    SanitisedIsStable(m.vehicle);
    SanitisedIsStable(m.car);
    SanitisedIsStable(m.point);
    SeparatorsAreKept(m);
    StampReads(m.capturedAt);
    ImageIsAlphanumeric(ext);
    MatchFinds(FileNameOf(m, extension), p);
  }

  lemma ReadBackIsClean(m: Metadata, extension: string, time: DateTime)
    requires IsComplete(m) && ReadsAs(m, FileNameOf(m, extension), time) && 1 <= m.capturedAt.year <= 9999
    ensures IsNameable(m, extension) && time == WholeSecond(m.capturedAt)
  {
    var name := FileNameOf(m, extension);
    var p := Match(name).value;
    MatchIsSound(name);
    SeparatorsAreKept(m);
    StampReads(m.capturedAt);
    TailIsRead(m, extension, p);
  }

  /** What was read as time and extension is what was printed. */
  lemma TailIsRead(m: Metadata, extension: string, p: Parts)
    requires IsComplete(m) && Matches(FileNameOf(m, extension), p) && |Stamp(m.capturedAt)| == 14
    requires p.vehicle == Sanitised(m.vehicle) && p.car == Sanitised(m.car) && p.point == Sanitised(m.point)
    ensures p.stamp == Stamp(m.capturedAt) && p.extension == Sanitised(WithoutDots(extension))
  {
    var ext, stamp := Sanitised(WithoutDots(extension)), Stamp(m.capturedAt);
    var end := if FileNameOf(m, extension) == Joined(p.vehicle, p.car, p.point, p.stamp, p.extension) then "" else "\n";
    JoinedIs(p, end);
    JoinedIs(Parts(p.vehicle, p.car, p.point, stamp, ext), "");
    SameTail(p.vehicle + ['_'], p.car + ['_'] + (p.point + [','] + (p.stamp + ['.'] + (p.extension + end))),
             p.car + ['_'] + (p.point + [','] + (stamp + ['.'] + (ext + ""))));
    SameTail(p.car + ['_'], p.point + [','] + (p.stamp + ['.'] + (p.extension + end)),
             p.point + [','] + (stamp + ['.'] + (ext + "")));
    SameTail(p.point + [','], p.stamp + ['.'] + (p.extension + end), stamp + ['.'] + (ext + ""));
    SameRest(p.stamp, stamp, p.extension + end, ext + "");
    NoLineFeed(WithoutDots(extension), p.extension, end);
  }

  lemma SameTail(a: string, b: string, c: string)
    requires a + b == a + c
    ensures b == c
  {
    assert b == (a + b)[|a|..] && c == (a + c)[|a|..];
  }

  lemma SameRest(a: string, b: string, c: string, d: string)
    requires |a| == |b| && a + ['.'] + c == b + ['.'] + d
    ensures a == b && c == d
  {
    assert a == (a + ['.'] + c)[..|a|] && b == (b + ['.'] + d)[..|a|];
    assert c == (a + ['.'] + c)[|a| + 1..] && d == (b + ['.'] + d)[|b| + 1..];
  }

  lemma NoLineFeed(s: string, ext: string, end: string)
    requires ext + end == Sanitised(s) + "" && (end == "" || end == "\n")
    ensures ext == Sanitised(s)
  {
    SanitisedIsStable(s);
    assert IsIllegal('\n');
    assert (ext + "\n")[|ext|] == '\n' && '\n' in ext + "\n";
    assert ext + "" == ext && Sanitised(s) + "" == Sanitised(s);
  }

  /** A printed name reads back as exactly the sanitised fields and the time cut to the
      second, if and only if vehicle and car have no '_', the point has no ',', the year has
      four digits and the extension is one of the image extensions. */
  lemma PrintedNameReadsBack(m: Metadata, extension: string)
    requires IsComplete(m)
    ensures ReadsAs(m, FileNameOf(m, extension), WholeSecond(m.capturedAt)) <==> IsNameable(m, extension)
  {
    if ReadsAs(m, FileNameOf(m, extension), WholeSecond(m.capturedAt)) {
      ReadYearIsShort(Match(FileNameOf(m, extension)).value.stamp);
      ReadBackIsClean(m, extension, WholeSecond(m.capturedAt));
    } else if IsNameable(m, extension) {
      CleanNameReadsBack(m, extension);
    }
  }

  /** It reads back as the very time of the capture if and only if, besides, that time is a
      whole second. */
  lemma SameTimeReadsBack(m: Metadata, extension: string)
    requires IsComplete(m)
    ensures ReadsAs(m, FileNameOf(m, extension), m.capturedAt)
       <==> IsNameable(m, extension) && m.capturedAt.millisecond == 0
  {
    if ReadsAs(m, FileNameOf(m, extension), m.capturedAt) {
      ReadYearIsShort(Match(FileNameOf(m, extension)).value.stamp);
      ReadBackIsClean(m, extension, m.capturedAt);
    } else if IsNameable(m, extension) {
      CleanNameReadsBack(m, extension);
    }
  }

  /** A capture half a second past noon: its name reads back, but as noon. */
  lemma MillisecondsAreLost() returns (m: Metadata, extension: string)
    ensures IsComplete(m) && IsNameable(m, extension)
    ensures m.capturedAt == DateTime(2026, 3, 14, 12, 0, 0, 500)
    ensures FileNameOf(m, extension) == "V_C_P,20260314120000.jpg"
    ensures ReadsAs(m, FileNameOf(m, extension), DateTime(2026, 3, 14, 12, 0, 0, 0))
    ensures !ReadsAs(m, FileNameOf(m, extension), m.capturedAt)
  {
    extension := ['j', 'p', 'g'];
    m := Metadata(['V'], ['T'], ['C'], ['P'], DateTime(2026, 3, 14, 12, 0, 0, 500));
    assert IsComplete(m) by {
      TrimmedIsStable(m.vehicle);
      TrimmedIsStable(m.train);
      TrimmedIsStable(m.car);
      TrimmedIsStable(m.point);
    }
    IsImage(extension);
    SampleName(m, extension);
    PrintedNameReadsBack(m, extension);
    SameTimeReadsBack(m, extension);
  }

  lemma OneLetter(c: char)
    requires 'A' <= c <= 'Z'
    ensures Sanitised([c]) == [c]
  {
    assert Replaced([c]) == [c];
    TrimmedIsStable([c]);
  }

  lemma SampleStamp(d: DateTime)
    requires d == DateTime(2026, 3, 14, 12, 0, 0, 500)
    ensures IsValid(d) && Stamp(d) == "20260314120000"
  {
    assert Two(d.month) == "03" && Two(d.day) == "14" && Two(d.hour) == "12" && Two(d.minute) == "00";
    assert YearText(d.year) == Two(20) + Two(26);
    assert Two(20) == "20" && Two(26) == "26";
  }

  lemma JpgIsKept(extension: string)
    requires extension == "jpg"
    ensures Sanitised(WithoutDots(extension)) == "jpg"
  {
    assert Replaced(extension) == extension;
    TrimmedIsStable(extension);
  }

  lemma SampleJoined(a: string, b: string, c: string, stamp: string, extension: string)
    requires a == "V" && b == "C" && c == "P" && stamp == "20260314120000" && extension == "jpg"
    ensures Joined(a, b, c, stamp, extension) == "V_C_P,20260314120000.jpg"
  {
  }

  lemma SampleName(m: Metadata, extension: string)
    requires m == Metadata(['V'], ['T'], ['C'], ['P'], DateTime(2026, 3, 14, 12, 0, 0, 500)) && extension == "jpg"
    requires IsComplete(m)
    ensures FileNameOf(m, extension) == "V_C_P,20260314120000.jpg"
  {
    OneLetter('V');
    OneLetter('C');
    OneLetter('P');
    SampleStamp(m.capturedAt);
    JpgIsKept(extension);
    SampleJoined(Sanitised(m.vehicle), Sanitised(m.car), Sanitised(m.point), Stamp(m.capturedAt),
                 Sanitised(WithoutDots(extension)));
  }

  lemma IsImage(extension: string)
    requires extension == "jpg"
    ensures LooksLikeImage(Sanitised(WithoutDots(extension)))
  {
    JpgIsKept(extension);
    assert Lower(extension) == extension;
  }

  /** The same letters, each small or capital. */
  predicate InEitherCase(s: string, small: string) {
    |s| == |small| && forall i | 0 <= i < |s| :: s[i] == small[i] || s[i] as int == small[i] as int - 32
  }

  /** These five, in either case, are the files looked for. */
  lemma ImagesAre(extension: string)
    ensures LooksLikeImage(extension) <==>
      exists e :: e in ["jpg", "jpeg", "png", "ply", "pcd"] && InEitherCase(extension, e)
  {
    var low := Lower(extension);
    if LooksLikeImage(extension) {
      assert InEitherCase(extension, low);
    }
    if e :| e in ["jpg", "jpeg", "png", "ply", "pcd"] && InEitherCase(extension, e) {
      assert forall i | 0 <= i < |e| :: 'a' <= e[i] <= 'z';
      assert low == e;
    }
  }
}
