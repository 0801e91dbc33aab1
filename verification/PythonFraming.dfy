/** The second implementation of the wire format, in the Python SDK. */
module PythonFraming {
  import opened Octets
  import opened Framing
  import FrameDecoders
  import Fields = FramingFields

  const MAGIC_BYTES: Bytes := [0x53, 0x48, 0x4C, 0x4D]

  datatype FramingError = BodyOverLimit | InvalidMagic | InvalidBodyLength | InvalidHeaderLength

  datatype Encoding = Encoded(bytes: Bytes) | Refused(error: FramingError)

  /** One `feed` call: the frames it returned, or the error it raised. */
  datatype Feed = Returned(frames: seq<Frame>) | Raised(error: FramingError)

  function EncodeFrame(f: Frame): Encoding {
    var bodyLength := BODY_MIN + |f.header| + |f.payload|;
    if bodyLength > MAX_BODY then Refused(BodyOverLimit)
    else Encoded(MAGIC_BYTES + (WriteU32(bodyLength) + WriteU32(|f.header|)) + f.header + f.payload)
  }

  lemma MagicIsWritten()
    ensures WriteU32(MAGIC) == MAGIC_BYTES
  {
  }

  lemma MagicBytes(s: Bytes)
    requires |s| >= 4
    ensures s[..4] == MAGIC_BYTES <==> ReadU32(s, 0) == MAGIC
  {
  }

  /** The two encoders agree wherever the Python one does not refuse, and it
      refuses exactly the frames whose encoding no decoder accepts. */
  lemma EncodersAgree(f: Frame)
    ensures EncodeFrame(f) == if Fits(f) then Encoded(Encode(f)) else Refused(BodyOverLimit)
    ensures EncodeFrame(f).Encoded? <==> Next(Encode(f)).status == Ok && Next(Encode(f)).frame == f
  {
    RoundTripIffFits(f);
    var n := WriteU32(BODY_MIN + |f.header| + |f.payload|);
    MagicIsWritten();
    Associative(MAGIC_BYTES, n, WriteU32(|f.header|));
  }

  /** Which of the two length checks a malformed frame fails first. */
  function LengthError(s: Bytes): FramingError
    requires |s| >= PREFIX
  {
    if BODY_MIN <= ReadU32(s, 4) <= MAX_BODY then InvalidHeaderLength else InvalidBodyLength
  }

  /** Of a frame that is refused for its lengths, the first if the body cannot be so long, the
      second if the header does not fit the body. */
  lemma LengthErrorIff(s: Bytes)
    requires Next(s).status == TooLarge
    ensures |s| >= 8
    ensures LengthError(s) == InvalidBodyLength <==> Fields.Little(s, 4) < 4 || Fields.Little(s, 4) > 33554432
    ensures LengthError(s) == InvalidHeaderLength <==>
      4 <= Fields.Little(s, 4) <= 33554432 && |s| >= 12 && 4 + Fields.Little(s, 8) > Fields.Little(s, 4)
  {
    Fields.Verdict(s);
    Fields.LittleIsRead(s, 4);
  }

  class FrameDecoder {
    var buffer: Bytes

    constructor ()
      ensures buffer == []
    {
      buffer := [];
    }

    method Reset()
      modifies this
      ensures buffer == []
    {
      buffer := [];
    }

    /** One pass of the loop in `FeedBytes`: the frame at the front of the buffer, if any. */
    method Take() returns (status: Status, frame: Frame)
      modifies this
      ensures status == Next(old(buffer)).status && frame == Next(old(buffer)).frame
      ensures buffer == old(buffer)[Next(old(buffer)).consumed..]
    {
      frame := NO_FRAME;
      if |buffer| < PREFIX {
        return NeedMore, frame;
      }
      MagicBytes(buffer);
      if buffer[..4] != MAGIC_BYTES {
        return BadMagic, frame;
      }
      var bodyLength := ReadU32(buffer, 4);
      if bodyLength < BODY_MIN || bodyLength > MAX_BODY {
        return TooLarge, frame;
      }
      var total := PREFIX + bodyLength;
      if |buffer| < total {
        return NeedMore, frame;
      }
      var headerLength := ReadU32(buffer, 8);
      if BODY_MIN + headerLength > bodyLength {
        return TooLarge, frame;
      }
      var headerEnd := 12 + headerLength;
      frame := Frame(buffer[12..headerEnd], buffer[headerEnd..total]);
      buffer := buffer[total..];
      return Ok, frame;
    }

    /** Returns every complete frame, or raises at the first malformed one; in the
        latter case the frames this call had already taken off the buffer are lost. */
    method FeedBytes(data: Bytes) returns (r: Feed)
      modifies this
      ensures buffer == Decode(old(buffer) + data).rest
      ensures match Decode(old(buffer) + data).status
        case NeedMore => r == Returned(Decode(old(buffer) + data).frames)
        case BadMagic => r == Raised(InvalidMagic)
        case TooLarge => r == Raised(LengthError(buffer))
        case Ok => false
    {
      buffer := buffer + data;
      ghost var s := buffer;
      var frames: seq<Frame> := [];
      while true
        invariant Decode(s) == var d := Decode(buffer); d.(frames := frames + d.frames)
        decreases |buffer|
      {
        ghost var b := buffer;
        var status, frame := Take();
        if status != Ok {
          DecodeEnds(frames, b);
          match status {
            case NeedMore => return Returned(frames);
            case BadMagic => return Raised(InvalidMagic);
            case TooLarge => return Raised(LengthError(buffer));
          }
        }
        DecodeTakes(frames, b);
        frames := frames + [frame];
      }
    }
  }

  // ----- a whole connection -----

  /** What a caller has after feeding chunks in turn until one call raises: the frames
      returned, the number of calls that returned, and what the decoder still holds. */
  datatype Session = Session(frames: seq<Frame>, returned: nat, buffer: Bytes)

  /** One more call. One that raises returns none of the frames at the front of its buffer. */
  function FeedOne(s: Session, chunk: Bytes): Session {
    var d := Decode(s.buffer + chunk);
    if d.status != NeedMore then s.(buffer := d.rest) else Session(s.frames + d.frames, s.returned + 1, d.rest)
  }

  /** Feeding chunk after chunk; after a call that raised there is no other. */
  function Fed(chunks: seq<Bytes>): (s: Session)
    ensures s.returned <= |chunks|
    decreases |chunks|
  {
    if chunks == [] then Session([], 0, [])
    else
      var n := |chunks| - 1;
      var before := Fed(chunks[..n]);
      if before.returned < n then before else FeedOne(before, chunks[n])
  }

  lemma FedNext(chunks: seq<Bytes>, i: nat)
    requires i < |chunks| && Fed(chunks[..i]).returned == i
    ensures Fed(chunks[..i + 1]) == FeedOne(Fed(chunks[..i]), chunks[i])
  {
    assert chunks[..i + 1][..i] == chunks[..i];
  }

  lemma {:induction false} FedStays(chunks: seq<Bytes>, i: nat)
    requires i <= |chunks| && Fed(chunks[..i]).returned < i
    ensures Fed(chunks) == Fed(chunks[..i])
    decreases |chunks|
  {
    if i < |chunks| {
      var n := |chunks| - 1;
      assert chunks[..n][..i] == chunks[..i];
      FedStays(chunks[..n], i);
    } else {
      assert chunks[..i] == chunks;
    }
  }

  /** A decoder fed chunk after chunk, until a call raises. */
  method FeedAll(chunks: seq<Bytes>) returns (s: Session)
    ensures s == Fed(chunks)
  {
    var decoder := new FrameDecoder();
    var frames, returned := [], 0;
    while returned < |chunks|
      invariant returned <= |chunks| && fresh(decoder)
      invariant Fed(chunks[..returned]) == Session(frames, returned, decoder.buffer)
      decreases |chunks| - returned
    {
      FedNext(chunks, returned);
      var r := decoder.FeedBytes(chunks[returned]);
      if r.Raised? {
        FedStays(chunks, returned + 1);
        return Session(frames, returned, decoder.buffer);
      }
      frames, returned := frames + r.frames, returned + 1;
    }
    assert chunks[..|chunks|] == chunks;
    return Session(frames, returned, decoder.buffer);
  }

  // ----- against the meaning of the bytes -----

  /** The bytes of the first `i` chunks decode without error, and with the next chunk, if
      there is one, they do not. */
  predicate ErrorAt(chunks: seq<Bytes>, i: nat) {
    && i <= |chunks| && Decode(FrameDecoders.Concat(chunks[..i])).status == NeedMore
    && (i < |chunks| ==> Decode(FrameDecoders.Concat(chunks[..i + 1])).status != NeedMore)
  }

  /** One more chunk, after bytes that decode without error. */
  lemma NextChunk(chunks: seq<Bytes>, k: nat)
    requires k < |chunks| && Decode(FrameDecoders.Concat(chunks[..k])).status == NeedMore
    ensures var d := Decode(FrameDecoders.Concat(chunks[..k]));
      var more := Decode(d.rest + chunks[k]);
      Decode(FrameDecoders.Concat(chunks[..k + 1])) == Decoded(d.frames + more.frames, more.status, more.rest)
  {
    FrameDecoders.ConcatTake(chunks, k);
    DecodeAppend(FrameDecoders.Concat(chunks[..k]), chunks[k]);
  }

  /** What a session tells of the bytes. */
  predicate Tells(chunks: seq<Bytes>, s: Session) {
    if s.returned == |chunks| then Decode(FrameDecoders.Concat(chunks)) == Decoded(s.frames, NeedMore, s.buffer)
    else ErrorAt(chunks, s.returned) && s.frames == Decode(FrameDecoders.Concat(chunks[..s.returned])).frames
  }

  lemma TellsMore(chunks: seq<Bytes>, n: nat, s: Session)
    requires |chunks| == n + 1 && Tells(chunks[..n], s) && s.returned < n
    ensures Tells(chunks, s)
  {
    assert chunks[..n][..s.returned] == chunks[..s.returned];
    assert chunks[..n][..s.returned + 1] == chunks[..s.returned + 1];
  }

  lemma TellsNext(chunks: seq<Bytes>, n: nat, s: Session)
    requires |chunks| == n + 1 && Tells(chunks[..n], s) && s.returned == n
    ensures Tells(chunks, FeedOne(s, chunks[n]))
  {
    NextChunk(chunks, n);
    assert chunks[..n + 1] == chunks;
  }

  lemma {:induction false} FedTells(chunks: seq<Bytes>)
    ensures Tells(chunks, Fed(chunks))
    decreases |chunks|
  {
    if chunks != [] {
      var n := |chunks| - 1;
      FedTells(chunks[..n]);
      if Fed(chunks[..n]).returned < n {
        TellsMore(chunks, n, Fed(chunks[..n]));
      } else {
        TellsNext(chunks, n, Fed(chunks[..n]));
      }
    } else {
      assert Decode([]) == Decoded([], NeedMore, []);
    }
  }

  /** There is one such place, and the session ends there: its frames are those of the bytes
      before the chunk with the error. */
  lemma FedIff(chunks: seq<Bytes>, i: nat)
    ensures ErrorAt(chunks, i) <==> i == Fed(chunks).returned
    ensures ErrorAt(chunks, i) ==> Fed(chunks).frames == Decode(FrameDecoders.Concat(chunks[..i])).frames
  {
    var n := Fed(chunks).returned;
    FedTells(chunks);
    assert chunks[..|chunks|] == chunks;
    if ErrorAt(chunks, i) && i < n {
      ErrorStays(chunks, i + 1, n);
    } else if ErrorAt(chunks, i) && n < i {
      ErrorStays(chunks, n + 1, i);
    }
  }

  lemma ErrorStays(chunks: seq<Bytes>, i: nat, k: nat)
    requires i <= k <= |chunks| && Decode(FrameDecoders.Concat(chunks[..i])).status != NeedMore
    ensures Decode(FrameDecoders.Concat(chunks[..k])).status != NeedMore
  {
    assert chunks[..k][..i] == chunks[..i];
    FrameDecoders.ErrorIsFinal(chunks[..k], i);
  }

  lemma NoFrameIff(s: Bytes)
    ensures Decode(s).frames == [] <==> Next(s).status != Ok
  {
  }

  lemma ShorterByNothing<T>(a: seq<T>, b: seq<T>)
    ensures a == a + b <==> b == []
  {
    assert |a + b| == |a| + |b|;
  }

  /** What the bytes before chunk `i` leave over, and that chunk. */
  function Pending(chunks: seq<Bytes>, i: nat): Bytes
    requires i < |chunks|
  {
    Decode(FrameDecoders.Concat(chunks[..i])).rest + chunks[i]
  }

  lemma RaisingCall(chunks: seq<Bytes>, i: nat)
    requires ErrorAt(chunks, i) && i < |chunks|
    ensures Decode(FrameDecoders.Concat(chunks)).frames
         == Decode(FrameDecoders.Concat(chunks[..i])).frames + Decode(Pending(chunks, i)).frames
  {
    NextChunk(chunks, i);
    FrameDecoders.ErrorIsFinal(chunks, i + 1);
  }

  /** The bytes decode to the frames returned and those that the raising call found at the
      front of its buffer. So none is lost exactly if there is no error, or the first chunk
      that brings one begins, with what was left over, with no frame. */
  lemma LostFramesIff(chunks: seq<Bytes>, i: nat)
    requires ErrorAt(chunks, i)
    ensures Decode(FrameDecoders.Concat(chunks)).frames
         == Fed(chunks).frames + if i < |chunks| then Decode(Pending(chunks, i)).frames else []
    ensures Fed(chunks).frames == Decode(FrameDecoders.Concat(chunks)).frames
       <==> i == |chunks| || Next(Pending(chunks, i)).status != Ok
  {
    FedIff(chunks, i);
    if i == |chunks| {
      assert chunks[..i] == chunks;
    } else {
      RaisingCall(chunks, i);
      ShorterByNothing(Fed(chunks).frames, Decode(Pending(chunks, i)).frames);
      NoFrameIff(Pending(chunks, i));
    }
  }

  /** The call returns every time exactly if the C++ decoder meets no error. */
  lemma ReturnsIff(chunks: seq<Bytes>)
    ensures Fed(chunks).returned == |chunks| <==> Decode(FrameDecoders.Concat(chunks)).status == NeedMore
  {
    assert chunks[..|chunks|] == chunks;
    FedIff(chunks, |chunks|);
  }

  lemma NoMagic(bad: Bytes)
    requires |bad| >= PREFIX && bad[0] != MAGIC_BYTES[0]
    ensures Decode(bad).frames == [] && Decode(bad).status == BadMagic
  {
    MagicBytes(bad);
    assert bad[..4][0] == bad[0];
  }

  /** The same bytes, a good frame and then some that begin no frame: in one chunk the frame
      is lost, in two it is not. */
  lemma CutsMatter(f: Frame, bad: Bytes)
    requires Fits(f) && |bad| >= PREFIX && bad[0] != MAGIC_BYTES[0]
    ensures FrameDecoders.Concat([Encode(f) + bad]) == FrameDecoders.Concat([Encode(f), bad])
    ensures Decode(FrameDecoders.Concat([Encode(f) + bad])).frames == [f]
    ensures Fed([Encode(f) + bad]).frames == [] && Fed([Encode(f), bad]).frames == [f]
  {
    NoMagic(bad);
    DecodeCons(f, bad);
    FrameDecoders.ConcatOne(Encode(f) + bad);
    FedInOne(Encode(f) + bad);
    FedInTwo(f, bad);
  }

  /** Bytes whose last chunk brings the error. */
  lemma ErrorInLast(chunks: seq<Bytes>, n: nat)
    requires |chunks| == n + 1 && Decode(FrameDecoders.Concat(chunks[..n])).status == NeedMore
    requires Decode(FrameDecoders.Concat(chunks)).status != NeedMore
    ensures Fed(chunks).frames == Decode(FrameDecoders.Concat(chunks[..n])).frames
  {
    assert chunks[..n + 1] == chunks;
    FedIff(chunks, n);
  }

  lemma FedInOne(chunk: Bytes)
    requires Decode(chunk).status != NeedMore
    ensures Fed([chunk]).frames == []
  {
    FrameDecoders.ConcatOne(chunk);
    assert [chunk][..0] == [];
    ErrorInLast([chunk], 0);
  }

  lemma FedInTwo(f: Frame, bad: Bytes)
    requires Fits(f) && Decode(bad).status != NeedMore
    ensures Fed([Encode(f), bad]).frames == [f] && FrameDecoders.Concat([Encode(f), bad]) == Encode(f) + bad
  {
    OneFrame(f);
    DecodeCons(f, bad);
    TwoChunks(Encode(f), bad);
    ErrorInLast([Encode(f), bad], 1);
  }

  lemma OneFrame(f: Frame)
    requires Fits(f)
    ensures Decode(Encode(f)) == Decoded([f], NeedMore, [])
  {
    DecodeCons(f, []);
    assert Encode(f) + [] == Encode(f);
  }

  lemma TwoChunks(a: Bytes, b: Bytes)
    ensures FrameDecoders.Concat([a, b][..1]) == a && FrameDecoders.Concat([a, b]) == a + b
  {
    FrameDecoders.ConcatOne(a);
    FrameDecoders.ConcatTake([a, b], 1);
    assert [a, b][..1] == [a] && [a, b][..2] == [a, b];
  }
}
