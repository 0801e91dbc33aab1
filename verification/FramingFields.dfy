/** The verdict of one decoding step in terms of the bytes on the wire, and which streams can
    still become a frame. */
module FramingFields {
  import opened Octets
  import opened Framing

  const MAGIC_ON_WIRE: Bytes := [0x53, 0x48, 0x4C, 0x4D]
  const LIMIT: nat := 33554432

  /** Four bytes, the least significant first. */
  function Little(s: Bytes, at: nat): nat
    requires at + 4 <= |s|
  {
    s[at] as nat + 256 * (s[at + 1] as nat + 256 * (s[at + 2] as nat + 256 * s[at + 3] as nat))
  }

  lemma LittleIsRead(s: Bytes, at: nat)
    requires at + 4 <= |s|
    ensures Little(s, at) == ReadU32(s, at)
  {
  }

  lemma MagicIff(s: Bytes)
    requires |s| >= 4
    ensures s[..4] == MAGIC_ON_WIRE <==> ReadU32(s, 0) == MAGIC
  {
    assert s[..4] == [s[0], s[1], s[2], s[3]];
  }

  /** A frame on the wire: magic, the length of the rest, the length of the header, header and
      payload. */
  lemma FrameOnWire(f: Frame)
    requires Fits(f)
    ensures var s := Encode(f);
      && |s| == 12 + |f.header| + |f.payload| && s[..4] == MAGIC_ON_WIRE
      && Little(s, 4) == 4 + |f.header| + |f.payload| && Little(s, 8) == |f.header|
      && s[12..12 + |f.header|] == f.header && s[12 + |f.header|..] == f.payload
  {
    assert Encode(f) + [] == Encode(f);
    EncodedFields(f, [], Encode(f));
    NotTruncated(BODY_MIN + |f.header| + |f.payload|);
    NotTruncated(|f.header|);
    MagicIff(Encode(f));
    LittleIsRead(Encode(f), 4);
    LittleIsRead(Encode(f), 8);
  }

  /** Eight bytes or more: wrong magic and an impossible body length are errors at once, an
      impossible header length once the body is complete; and whatever is complete is a frame. */
  lemma Verdict(s: Bytes)
    requires |s| >= 8
    ensures Next(s).status == BadMagic <==> s[..4] != MAGIC_ON_WIRE
    ensures s[..4] == MAGIC_ON_WIRE ==>
      var n := Little(s, 4);
      && (Next(s).status == NeedMore <==> 4 <= n <= LIMIT && |s| < 8 + n)
      && (Next(s).status == TooLarge <==> n < 4 || n > LIMIT || (|s| >= 8 + n && 4 + Little(s, 8) > n))
      && (Next(s).status == Ok ==>
            var h := Little(s, 8);
            Next(s) == Step(Ok, Frame(s[12..12 + h], s[12 + h..8 + n]), 8 + n))
  {
    MagicIff(s);
    LittleIsRead(s, 4);
    if |s| >= 12 {
      LittleIsRead(s, 8);
    }
  }

  /** The decoder never waits for more than the largest frame. */
  lemma WaitIsBounded(s: Bytes)
    requires Next(s).status == NeedMore
    ensures |s| < 8 + LIMIT
  {
    if |s| >= 8 {
      Verdict(s);
    }
  }

  // ----- which streams can become a frame -----

  /** What is there agrees with the magic, and the lengths, read with zeros for the bytes of the
      second that are missing, fit each other and the limit. */
  predicate CanComplete(s: Bytes) {
    && (forall i | 0 <= i < |s| && i < 4 :: s[i] == MAGIC_ON_WIRE[i])
    && (|s| >= 8 ==> 4 <= Little(s, 4) <= LIMIT && 4 + Little(Padded(s), 8) <= Little(s, 4))
  }

  function Padded(s: Bytes): Bytes {
    s + [0, 0, 0, 0]
  }

  /** A continuation that keeps the lengths as small as they can be. */
  function Filled(s: Bytes, size: nat): (r: Bytes)
    requires |s| <= size
    ensures |r| == size && s <= r
  {
    s + seq(size - |s|, i requires 0 <= i < size - |s| =>
      if i + |s| < 4 then MAGIC_ON_WIRE[i + |s|] else if i + |s| == 7 then 1 else 0)
  }

  /** The body length of such a continuation. */
  function FilledLength(s: Bytes): nat {
    Little(Filled(if |s| <= 8 then s else s[..8], 8), 4)
  }

  lemma FillCompletes(s: Bytes) returns (r: Bytes)
    requires CanComplete(s) && Next(s).status == NeedMore
    ensures s <= r && Next(r).status == Ok
  {
    var n := FilledLength(s);
    FilledLengthFits(s);
    if |s| >= 8 {
      Verdict(s);
    }
    r := Filled(s, 8 + n);
    assert r[..4] == MAGIC_ON_WIRE;
    assert Little(r, 4) == n;
    FilledHeaderFits(s, r, n);
    Verdict(r);
  }

  lemma FilledLengthFits(s: Bytes)
    requires CanComplete(s)
    ensures 4 <= FilledLength(s) <= LIMIT && (|s| >= 8 ==> FilledLength(s) == Little(s, 4))
  {
    var r := Filled(if |s| <= 8 then s else s[..8], 8);
    if |s| < 8 {
      assert r[7] == 1;
    } else {
      assert forall i | 4 <= i < 8 :: r[i] == s[i];
    }
  }

  lemma FilledHeaderFits(s: Bytes, r: Bytes, n: nat)
    requires CanComplete(s) && n >= 4 && |s| <= 8 + n && r == Filled(s, 8 + n) && (|s| >= 8 ==> n == Little(s, 4))
    ensures 4 + Little(r, 8) <= n
  {
    if |s| >= 8 {
      assert forall i | 8 <= i < 12 :: r[i] == if i < |s| then s[i] else 0;
      assert forall i | 8 <= i < 12 :: Padded(s)[i] == if i < |s| then s[i] else 0;
    } else {
      assert forall i | 8 <= i < 12 :: r[i] == 0;
    }
  }

  /** The padding reads no more than whatever really follows. */
  lemma PaddedIsLeast(s: Bytes, t: Bytes)
    requires |s| >= 8 && |s + t| >= 12
    ensures Little(Padded(s), 8) <= Little(s + t, 8)
  {
    assert forall i | 8 <= i < 12 :: Padded(s)[i] <= (s + t)[i];
  }

  lemma SameLength(s: Bytes, t: Bytes)
    requires |s| >= 8
    ensures Little(s + t, 4) == Little(s, 4)
  {
    assert forall i | 4 <= i < 8 :: (s + t)[i] == s[i];
  }

  lemma CompletedCan(s: Bytes, t: Bytes)
    requires Next(s + t).status == Ok
    ensures CanComplete(s)
  {
    var r := s + t;
    Verdict(r);
    forall i | 0 <= i < |s| && i < 4 ensures s[i] == MAGIC_ON_WIRE[i] {
      assert s[i] == r[..4][i];
    }
    if |s| >= 8 {
      SameLength(s, t);
      PaddedIsLeast(s, t);
    }
  }

  predicate Becomes(s: Bytes, t: Bytes) {
    Next(s + t).status == Ok
  }

  /** Some bytes make it a frame. */
  ghost predicate BecomesFrame(s: Bytes) {
    exists t: Bytes :: Becomes(s, t)
  }

  lemma PrefixBecomes(s: Bytes, r: Bytes)
    requires s <= r && Next(r).status == Ok
    ensures BecomesFrame(s)
  {
    var t := r[|s|..];
    assert s + t == r;
    assert Becomes(s, t);
  }

  lemma CanBecome(s: Bytes)
    requires CanComplete(s) && Next(s).status == NeedMore
    ensures BecomesFrame(s)
  {
    var r := FillCompletes(s);
    PrefixBecomes(s, r);
  }

  lemma OnlyThenBecomes(s: Bytes)
    requires BecomesFrame(s)
    ensures CanComplete(s)
  {
    var t: Bytes :| Becomes(s, t);
    CompletedCan(s, t);
  }

  /** Among the streams that need more bytes, exactly these can still become a frame. For any
      other the decoder waits although no byte can help any more. */
  lemma CompletesIff(s: Bytes)
    requires Next(s).status == NeedMore
    ensures BecomesFrame(s) <==> CanComplete(s)
  {
    if BecomesFrame(s) {
      OnlyThenBecomes(s);
    } else if CanComplete(s) {
      CanBecome(s);
    }
  }

  /** Seven wrong bytes are such a stream. */
  lemma WaitsInVain(b: Bytes)
    requires 0 < |b| < 8 && b[0] != MAGIC_ON_WIRE[0]
    ensures Next(b).status == NeedMore && !BecomesFrame(b)
  {
    CompletesIff(b);
  }
}
