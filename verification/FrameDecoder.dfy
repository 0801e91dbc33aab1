/** The streaming decoder object: a buffer, an offset into it, and compaction. */
module FrameDecoders {
  import opened Octets
  import opened Framing

  class FrameDecoder {
    var buf: Bytes
    var offset: nat

    ghost predicate Valid()
      reads this
    {
      offset <= |buf| && offset < COMPACT_THRESHOLD
    }

    /** The bytes not yet handed out: all that later behaviour depends on. */
    ghost function Unread(): Bytes
      reads this
      requires Valid()
    {
      buf[offset..]
    }

    constructor ()
      ensures Valid() && Unread() == []
    {
      buf, offset := [], 0;
    }

    method Append(chunk: Bytes)
      requires Valid()
      modifies this
      ensures Valid() && Unread() == old(Unread()) + chunk
    {
      buf := buf + chunk;
    }

    method Buffered() returns (n: nat)
      requires Valid()
      ensures n == |Unread()|
    {
      n := |buf| - offset;
    }

    /** Compaction drops what was consumed and is invisible otherwise. */
    method Compact()
      requires offset <= |buf|
      modifies this
      ensures offset == 0 && buf == old(buf[offset..])
    {
      if offset != 0 {
        buf := buf[offset..];
        offset := 0;
      }
    }

    method NextFrame() returns (status: Status, frame: Frame)
      requires Valid()
      modifies this
      ensures Valid()
      ensures status == Next(old(Unread())).status && frame == Next(old(Unread())).frame
      ensures Unread() == old(Unread())[Next(old(Unread())).consumed..]
    {
      ghost var s := Unread();
      frame := NO_FRAME;
      if |buf| - offset < PREFIX {
        return NeedMore, frame;
      }
      ReadShifted(buf, offset, 0);
      if ReadU32(buf, offset) != MAGIC {
        return BadMagic, frame;
      }
      ReadShifted(buf, offset, 4);
      var bodyLen := ReadU32(buf, offset + 4);
      if bodyLen < BODY_MIN || bodyLen > MAX_BODY {
        return TooLarge, frame;
      }
      if |buf| - offset < PREFIX + bodyLen {
        return NeedMore, frame;
      }
      var body := offset + PREFIX;
      ReadShifted(buf, offset, 8);
      var headerLen := ReadU32(buf, body);
      if BODY_MIN + headerLen > bodyLen {
        return TooLarge, frame;
      }
      var split := body + BODY_MIN + headerLen;
      frame := Frame(buf[body + BODY_MIN..split], buf[split..body + bodyLen]);
      SliceShifted(buf, offset, 12, 12 + headerLen);
      SliceShifted(buf, offset, 12 + headerLen, 8 + bodyLen);
      Consume(PREFIX + bodyLen);
      return Ok, frame;
    }

    /** Moves past the frame just taken; the offset never reaches the threshold. */
    method Consume(n: nat)
      requires Valid() && n <= |Unread()|
      modifies this
      ensures Valid() && Unread() == old(Unread())[n..]
      ensures offset == |buf| ==> buf == []
    {
      offset := offset + n;
      if offset >= COMPACT_THRESHOLD || offset == |buf| {
        Compact();
      }
    }

    method Reset()
      modifies this
      ensures Valid() && Unread() == []
    {
      buf, offset := [], 0;
    }
  }

  lemma ReadShifted(buf: Bytes, offset: nat, at: nat)
    requires offset + at + 4 <= |buf|
    ensures ReadU32(buf[offset..], at) == ReadU32(buf, offset + at)
  {
  }

  lemma SliceShifted(buf: Bytes, offset: nat, lo: nat, hi: nat)
    requires lo <= hi && offset + hi <= |buf|
    ensures buf[offset..][lo..hi] == buf[offset + lo..offset + hi]
  {
  }

  /** The drain loop every caller runs after an append. */
  method Drain(decoder: FrameDecoder) returns (frames: seq<Frame>, status: Status)
    requires decoder.Valid()
    modifies decoder
    ensures decoder.Valid()
    ensures Decode(old(decoder.Unread())) == Decoded(frames, status, decoder.Unread())
  {
    frames := [];
    while true
      invariant decoder.Valid()
      invariant Decode(old(decoder.Unread()))
             == var d := Decode(decoder.Unread()); d.(frames := frames + d.frames)
      decreases |decoder.Unread()|
    {
      var frame;
      ghost var s := decoder.Unread();
      status, frame := decoder.NextFrame();
      if status != Ok {
        DecodeEnds(frames, s);
        return;
      }
      DecodeTakes(frames, s);
      frames := frames + [frame];
    }
  }

  function Concat(chunks: seq<Bytes>): Bytes {
    if chunks == [] then [] else Concat(chunks[..|chunks| - 1]) + chunks[|chunks| - 1]
  }

  lemma ConcatOne(chunk: Bytes)
    ensures Concat([chunk]) == chunk
  {
    assert [chunk][..0] == [];
  }

  lemma ConcatTake(chunks: seq<Bytes>, i: nat)
    requires i < |chunks|
    ensures Concat(chunks[..i + 1]) == Concat(chunks[..i]) + chunks[i]
  {
    assert chunks[..i + 1][..i] == chunks[..i];
  }

  /** After an error nothing that arrives later changes frames or error. */
  lemma {:induction false} ErrorIsFinal(chunks: seq<Bytes>, i: nat)
    requires i <= |chunks| && Decode(Concat(chunks[..i])).status != NeedMore
    ensures Decode(Concat(chunks)).frames == Decode(Concat(chunks[..i])).frames
    ensures Decode(Concat(chunks)).status == Decode(Concat(chunks[..i])).status
    decreases |chunks| - i
  {
    if i == |chunks| {
      assert chunks[..i] == chunks;
    } else {
      ConcatTake(chunks, i);
      DecodeAppend(Concat(chunks[..i]), chunks[i]);
      ErrorIsFinal(chunks, i + 1);
    }
  }

  /** Reading a connection chunk by chunk, draining after each one and closing at
      the first error: frames and error depend only on the bytes, not on the cuts. */
  method Receive(chunks: seq<Bytes>) returns (frames: seq<Frame>, status: Status)
    ensures frames == Decode(Concat(chunks)).frames && status == Decode(Concat(chunks)).status
  {
    var decoder := new FrameDecoder();
    frames, status := [], NeedMore;
    for i := 0 to |chunks|
      invariant decoder.Valid() && fresh(decoder)
      invariant status == NeedMore
      invariant Decode(Concat(chunks[..i])) == Decoded(frames, NeedMore, decoder.Unread())
    {
      DecodeAppend(Concat(chunks[..i]), chunks[i]);
      ConcatTake(chunks, i);
      decoder.Append(chunks[i]);
      var more;
      more, status := Drain(decoder);
      frames := frames + more;
      if status != NeedMore {
        ErrorIsFinal(chunks, i + 1);
        return;
      }
    }
    assert chunks[..|chunks|] == chunks;
  }

  /** Frames that fit arrive intact through any chunking of their encoding. */
  method Deliver(frames: seq<Frame>, chunks: seq<Bytes>) returns (received: seq<Frame>, status: Status)
    requires forall f | f in frames :: Fits(f)
    requires Concat(chunks) == EncodeAll(frames)
    ensures received == frames && status == NeedMore
  {
    RoundTrip(frames);
    received, status := Receive(chunks);
  }
}
