/** The wire format of the control link: the encoder, one decoding step, and
    what a stream of bytes means, independently of any decoder object. */
module Framing {
  import opened Octets

  const MAGIC: nat := 0x4D4C_4853
  const WORD: nat := 0x1_0000_0000
  const MAX_BODY: nat := 32 * 1024 * 1024
  const COMPACT_THRESHOLD: nat := 64 * 1024
  const PREFIX: nat := 8
  const BODY_MIN: nat := 4

  datatype Frame = Frame(header: Bytes, payload: Bytes)

  datatype Status = Ok | NeedMore | BadMagic | TooLarge

  /** One call of `next` on the unread bytes. `consumed` is zero unless `Ok`. */
  datatype Step = Step(status: Status, frame: Frame, consumed: nat)

  /** What a stream decodes to: `status` says why decoding stopped at `rest`. */
  datatype Decoded = Decoded(frames: seq<Frame>, status: Status, rest: Bytes)

  const NO_FRAME := Frame([], [])

  /** A 32-bit little-endian field; a larger value is truncated as the cast does. */
  function WriteU32(v: nat): (r: Bytes)
    ensures |r| == 4
  {
    [v % 256, v / 0x100 % 256, v / 0x1_0000 % 256, v / 0x100_0000 % 256]
  }

  function FromDigits(a: nat, b: nat, c: nat, d: nat): nat {
    a + 0x100 * b + 0x1_0000 * c + 0x100_0000 * d
  }

  function ReadU32(s: Bytes, at: nat): (v: nat)
    requires at + 4 <= |s|
    ensures v < WORD
  {
    FromDigits(s[at], s[at + 1], s[at + 2], s[at + 3])
  }

  lemma ReadWritten(v: nat, s: Bytes, at: nat)
    requires at + 4 <= |s| && s[at..at + 4] == WriteU32(v)
    ensures ReadU32(s, at) == v % WORD
  {
    assert s[at] == s[at..at + 4][0] && s[at + 1] == s[at..at + 4][1];
    assert s[at + 2] == s[at..at + 4][2] && s[at + 3] == s[at..at + 4][3];
    Digits(v);
  }

  lemma Digits(v: nat)
    ensures v % 256 + 0x100 * (v / 0x100 % 256) + 0x1_0000 * (v / 0x1_0000 % 256)
          + 0x100_0000 * (v / 0x100_0000 % 256) == v % WORD
  {
    var q := v / 0x100_0000;
    assert v / 0x1_0000 / 0x100 == q && v / 0x100 / 0x100 == v / 0x1_0000;
    assert v == 0x100_0000 * q + v % 0x100_0000;
    assert v % 0x100_0000 == 0x1_0000 * (v / 0x1_0000 % 256) + v % 0x1_0000;
    assert v % 0x1_0000 == 0x100 * (v / 0x100 % 256) + v % 0x100;
    assert q == 256 * (q / 256) + q % 256;
    assert v == WORD * (q / 256) + (0x100_0000 * (q % 256) + v % 0x100_0000);
  }

  lemma LowDigit(v: int, a: int, q: int)
    requires v == a + 0x100 * q && 0 <= a < 0x100
    ensures v % 0x100 == a && v / 0x100 == q
  {
  }

  lemma ShiftTwice(v: nat)
    ensures v / 0x1_0000 == v / 0x100 / 0x100
  {
  }

  lemma ShiftThrice(v: nat)
    ensures v / 0x100_0000 == v / 0x1_0000 / 0x100
  {
  }

  lemma DigitsOf(a: nat, b: nat, c: nat, d: nat)
    requires a < 0x100 && b < 0x100 && c < 0x100 && d < 0x100
    ensures WriteU32(FromDigits(a, b, c, d)) == [a, b, c, d]
  {
    var v := FromDigits(a, b, c, d);
    var v1, v2 := b + 0x100 * c + 0x1_0000 * d, c + 0x100 * d;
    LowDigit(v, a, v1);
    LowDigit(v1, b, v2);
    LowDigit(v2, c, d);
    LowDigit(d, d, 0);
    ShiftTwice(v);
    ShiftThrice(v);
  }

  lemma WriteRead(s: Bytes, at: nat)
    requires at + 4 <= |s|
    ensures WriteU32(ReadU32(s, at)) == s[at..at + 4]
  {
    var a: nat, b: nat, c: nat, d: nat := s[at], s[at + 1], s[at + 2], s[at + 3];
    DigitsOf(a, b, c, d);
    assert s[at..at + 4] == [a, b, c, d];
  }

  /** `encodeFrame`: no size check, and both length fields are truncated. */
  function Encode(f: Frame): (r: Bytes)
    ensures |r| == PREFIX + BODY_MIN + |f.header| + |f.payload|
  {
    WriteU32(MAGIC) + WriteU32(BODY_MIN + |f.header| + |f.payload|) + WriteU32(|f.header|)
      + f.header + f.payload
  }

  function EncodeAll(frames: seq<Frame>): Bytes {
    if frames == [] then [] else Encode(frames[0]) + EncodeAll(frames[1..])
  }

  /** The body fits under the cap the decoder enforces. */
  predicate Fits(f: Frame) {
    BODY_MIN + |f.header| + |f.payload| <= MAX_BODY
  }

  /** One decoding step: the checks in the order the decoder makes them. */
  function Next(s: Bytes): (r: Step)
    ensures r.status == Ok ==> PREFIX + BODY_MIN <= r.consumed <= |s|
    ensures r.status != Ok ==> r == Step(r.status, NO_FRAME, 0)
  {
    if |s| < PREFIX then Step(NeedMore, NO_FRAME, 0)
    else if ReadU32(s, 0) != MAGIC then Step(BadMagic, NO_FRAME, 0)
    else
      var bodyLen := ReadU32(s, 4);
      if bodyLen < BODY_MIN || bodyLen > MAX_BODY then Step(TooLarge, NO_FRAME, 0)
      else if |s| < PREFIX + bodyLen then Step(NeedMore, NO_FRAME, 0)
      else
        var headerLen := ReadU32(s, 8);
        if BODY_MIN + headerLen > bodyLen then Step(TooLarge, NO_FRAME, 0)
        else Step(Ok, Frame(s[12..12 + headerLen], s[12 + headerLen..8 + bodyLen]), PREFIX + bodyLen)
  }

  /** Draining: every frame up to the first point where no frame can be taken. */
  function Decode(s: Bytes): (r: Decoded)
    ensures r.status != Ok
    ensures r.status == TooLarge ==> |r.rest| >= PREFIX
  {
    var n := Next(s);
    if n.status != Ok then Decoded([], n.status, s)
    else
      var d := Decode(s[n.consumed..]);
      Decoded([n.frame] + d.frames, d.status, d.rest)
  }

  /** Taking one frame off the front while draining. */
  lemma DecodeTakes(taken: seq<Frame>, s: Bytes)
    requires Next(s).status == Ok
    ensures var n := Next(s);
      var d, d' := Decode(s), Decode(s[n.consumed..]);
      d.(frames := taken + d.frames) == d'.(frames := (taken + [n.frame]) + d'.frames)
  {
    var n := Next(s);
    Associative(taken, [n.frame], Decode(s[n.consumed..]).frames);
  }

  /** Draining ends with what was taken when no further frame can be. */
  lemma DecodeEnds(taken: seq<Frame>, s: Bytes)
    requires Next(s).status != Ok
    ensures var d := Decode(s); d.(frames := taken + d.frames) == Decoded(taken, Next(s).status, s)
  {
  }

  // ----- one frame -----

  /** Where the five parts of a frame lie in a stream that begins with it. */
  lemma Layout(a: Bytes, b: Bytes, c: Bytes, h: Bytes, p: Bytes, tail: Bytes, s: Bytes)
    requires |a| == |b| == |c| == 4 && s == a + b + c + h + p + tail
    ensures |s| >= 12 + |h| + |p|
    ensures s[0..4] == a && s[4..8] == b && s[8..12] == c
    ensures s[12..12 + |h|] == h && s[12 + |h|..12 + |h| + |p|] == p
  {
  }

  lemma EncodedFields(f: Frame, tail: Bytes, s: Bytes)
    requires s == Encode(f) + tail
    ensures |s| >= |Encode(f)|
    ensures ReadU32(s, 0) == MAGIC
    ensures ReadU32(s, 4) == (BODY_MIN + |f.header| + |f.payload|) % WORD
    ensures ReadU32(s, 8) == |f.header| % WORD
    ensures s[12..12 + |f.header|] == f.header
    ensures s[12 + |f.header|..12 + |f.header| + |f.payload|] == f.payload
  {
    var n := BODY_MIN + |f.header| + |f.payload|;
    Layout(WriteU32(MAGIC), WriteU32(n), WriteU32(|f.header|), f.header, f.payload, tail, s);
    ReadWritten(MAGIC, s, 0);
    ReadWritten(n, s, 4);
    ReadWritten(|f.header|, s, 8);
  }

  /** An encoded frame that fits is decoded to itself, whatever follows it. */
  lemma NextOfEncoded(f: Frame, tail: Bytes)
    requires Fits(f)
    ensures Next(Encode(f) + tail) == Step(Ok, f, |Encode(f)|)
  {
    var s := Encode(f) + tail;
    EncodedFields(f, tail, s);
    NotTruncated(BODY_MIN + |f.header| + |f.payload|);
    NotTruncated(|f.header|);
    NextFromFields(s, |f.header|, |f.payload|);
  }

  lemma NotTruncated(n: nat)
    requires n <= MAX_BODY
    ensures n % WORD == n
  {
  }

  lemma NextFromFields(s: Bytes, h: nat, p: nat)
    requires |s| >= 12 + h + p && BODY_MIN + h + p <= MAX_BODY
    requires ReadU32(s, 0) == MAGIC && ReadU32(s, 4) == BODY_MIN + h + p && ReadU32(s, 8) == h
    ensures Next(s) == Step(Ok, Frame(s[12..12 + h], s[12 + h..12 + h + p]), 12 + h + p)
  {
  }

  /** The encoder's output decodes to the frame exactly when the body fits: above
      the cap the decoder refuses it, and once a length field wraps it reads
      something else. */
  lemma RoundTripIffFits(f: Frame)
    ensures Next(Encode(f)).status == Ok && Next(Encode(f)).frame == f <==> Fits(f)
  {
    if Fits(f) {
      NextOfEncoded(f, []);
      assert Encode(f) + [] == Encode(f);
    } else {
      assert Encode(f) == Encode(f) + [];
      EncodedFields(f, [], Encode(f));
    }
  }

  /** Every accepted frame re-encodes to exactly the bytes consumed. */
  lemma NextIsEncoded(s: Bytes)
    requires Next(s).status == Ok
    ensures Fits(Next(s).frame)
    ensures Encode(Next(s).frame) == s[..Next(s).consumed]
  {
    var f := Next(s).frame;
    WriteRead(s, 0);
    WriteRead(s, 4);
    WriteRead(s, 8);
    assert s[..Next(s).consumed]
        == s[0..4] + s[4..8] + s[8..12] + s[12..12 + |f.header|] + s[12 + |f.header|..Next(s).consumed];
  }

  /** A step that did not ask for more bytes is not changed by more bytes. */
  lemma NextIsStable(s: Bytes, t: Bytes)
    requires Next(s).status != NeedMore
    ensures Next(s + t) == Next(s)
  {
  }

  // ----- streams -----

  /** Decoding a stream in two parts: continue from the unread rest, unless the
      first part already stopped at an error. */
  function Continue(d: Decoded, more: Bytes): Decoded {
    if d.status != NeedMore then d.(rest := d.rest + more)
    else
      var d' := Decode(d.rest + more);
      Decoded(d.frames + d'.frames, d'.status, d'.rest)
  }

  lemma Associative<T>(a: seq<T>, b: seq<T>, c: seq<T>)
    ensures a + (b + c) == a + b + c
  {
  }

  lemma Cut<T>(a: seq<T>, b: seq<T>)
    ensures (a + b)[..|a|] == a && (a + b)[|a|..] == b
  {
  }

  lemma DropAppend<T>(s: seq<T>, t: seq<T>, n: nat)
    requires n <= |s|
    ensures (s + t)[n..] == s[n..] + t
  {
  }

  lemma {:induction false} DecodeAppend(s: Bytes, t: Bytes)
    ensures Decode(s + t) == Continue(Decode(s), t)
    decreases |s|
  {
    var n := Next(s);
    if n.status == Ok {
      NextIsStable(s, t);
      DropAppend(s, t, n.consumed);
      DecodeAppend(s[n.consumed..], t);
      ContinueAfter(n.frame, Decode(s[n.consumed..]), t);
    } else if n.status != NeedMore {
      NextIsStable(s, t);
    } else {
      ContinueFromNothing(s, t);
    }
  }

  lemma ContinueFromNothing(s: Bytes, t: Bytes)
    ensures Continue(Decoded([], NeedMore, s), t) == Decode(s + t)
  {
  }

  lemma ContinueAfter(f: Frame, d: Decoded, t: Bytes)
    ensures Continue(d.(frames := [f] + d.frames), t)
         == var c := Continue(d, t); c.(frames := [f] + c.frames)
  {
  }

  /** Nothing is lost or invented: the stream is its frames, re-encoded, and the rest. */
  lemma {:induction false} DecodeConserves(s: Bytes)
    ensures s == EncodeAll(Decode(s).frames) + Decode(s).rest
    ensures forall f | f in Decode(s).frames :: Fits(f)
    ensures Next(Decode(s).rest).status == Decode(s).status
    decreases |s|
  {
    var n := Next(s);
    if n.status == Ok {
      NextIsEncoded(s);
      DecodeConserves(s[n.consumed..]);
      Reassemble(s, n.consumed, n.frame, Decode(s[n.consumed..]));
    } else {
      assert s == [] + s;
    }
  }

  lemma Reassemble(s: Bytes, k: nat, f: Frame, d: Decoded)
    requires k <= |s| && Encode(f) == s[..k] && s[k..] == EncodeAll(d.frames) + d.rest
    ensures s == EncodeAll([f] + d.frames) + d.rest
  {
  }

  lemma EncodeAllCons(f: Frame, frames: seq<Frame>)
    ensures EncodeAll([f] + frames) == Encode(f) + EncodeAll(frames)
  {
  }

  /** Frames that fit decode to themselves, and to nothing else. */
  lemma {:induction false} DecodeOfEncoded(frames: seq<Frame>, tail: Bytes)
    requires forall f | f in frames :: Fits(f)
    ensures Decode(EncodeAll(frames) + tail)
         == Decoded(frames + Decode(tail).frames, Decode(tail).status, Decode(tail).rest)
  {
    if frames == [] {
      assert EncodeAll(frames) + tail == tail;
      assert frames + Decode(tail).frames == Decode(tail).frames;
    } else {
      DecodeOfEncoded(frames[1..], tail);
      DecodeCons(frames[0], EncodeAll(frames[1..]) + tail);
      Associative(Encode(frames[0]), EncodeAll(frames[1..]), tail);
      Associative([frames[0]], frames[1..], Decode(tail).frames);
      assert frames == [frames[0]] + frames[1..];
    }
  }

  lemma DecodeCons(f: Frame, rest: Bytes)
    requires Fits(f)
    ensures Decode(Encode(f) + rest)
         == Decoded([f] + Decode(rest).frames, Decode(rest).status, Decode(rest).rest)
  {
    NextOfEncoded(f, rest);
    Cut(Encode(f), rest);
  }

  lemma RoundTrip(frames: seq<Frame>)
    requires forall f | f in frames :: Fits(f)
    ensures Decode(EncodeAll(frames)) == Decoded(frames, NeedMore, [])
  {
    DecodeOfEncoded(frames, []);
    assert EncodeAll(frames) + [] == EncodeAll(frames);
    assert frames + [] == frames;
  }

  /** However the stream is cut, what has arrived decodes without error to a
      prefix of the frames sent. */
  lemma PrefixOfEncoded(frames: seq<Frame>, s: Bytes, t: Bytes)
    requires forall f | f in frames :: Fits(f)
    requires s + t == EncodeAll(frames)
    ensures Decode(s).status == NeedMore
    ensures Decode(s).frames <= frames
  {
    DecodeAppend(s, t);
    RoundTrip(frames);
  }

  lemma {:induction false} EncodeAllAppend(a: seq<Frame>, b: seq<Frame>)
    ensures EncodeAll(a + b) == EncodeAll(a) + EncodeAll(b)
  {
    if a == [] {
      assert a + b == b;
    } else {
      EncodeAllAppend(a[1..], b);
      EncodeAllCons(a[0], a[1..] + b);
      assert a + b == [a[0]] + (a[1..] + b);
      Associative(Encode(a[0]), EncodeAll(a[1..]), EncodeAll(b));
    }
  }

  /** Decoding forgets nothing that matters: two frame lists with the same
      encoding are the same list. */
  lemma EncodingIsInjective(a: seq<Frame>, b: seq<Frame>)
    requires forall f | f in a + b :: Fits(f)
    requires EncodeAll(a) == EncodeAll(b)
    ensures a == b
  {
    assert forall f | f in a :: f in a + b;
    assert forall f | f in b :: f in a + b;
    RoundTrip(a);
    RoundTrip(b);
  }
}
