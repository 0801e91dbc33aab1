/** The buffers of the control-link server: what is written to a connection and
    what is queued from it. System calls are parameters: each read or write
    outcome is supplied by the environment. */
module TcpServers {
  import opened Octets
  import opened Framing
  import opened FrameDecoders

  const MAX_OUTBOUND: nat := 4 * 1024 * 1024

  datatype WriteOutcome = Sent(n: nat) | WriteBlocked | WriteInterrupted | WriteFailed

  datatype ReadOutcome = Got(bytes: Bytes) | EndOfFile | ReadBlocked | ReadInterrupted | ReadFailed

  /** What the server observed since the last drain. */
  datatype LinkEvents = LinkEvents(clientConnected: bool, clientDisconnected: bool, protocolError: bool,
                                   frames: seq<Frame>)

  const NO_EVENTS := LinkEvents(false, false, false, [])

  /** The history of one connection: encoded frames accepted for it, bytes written
      to it, bytes read from it, and frames queued from it. */
  datatype Connection = Connection(accepted: seq<Bytes>, written: Bytes, received: Bytes, queued: seq<Frame>)

  const NO_HISTORY := Connection([], [], [], [])

  /** The bytes written begin a concatenation of whole accepted frames, and the
      frames queued are the first ones of the bytes received. */
  ghost predicate InStep(c: Connection) {
    && c.written <= Concat(c.accepted)
    && c.queued <= Decode(c.received).frames
  }

  /** The frames queued from all of these connections, in order. */
  ghost function AllQueued(cs: seq<Connection>): seq<Frame> {
    if cs == [] then [] else AllQueued(cs[..|cs| - 1]) + cs[|cs| - 1].queued
  }

  lemma AllQueuedAppend(cs: seq<Connection>, c: Connection)
    ensures AllQueued(cs + [c]) == AllQueued(cs) + c.queued
  {
    assert (cs + [c])[..|cs|] == cs;
  }

  lemma NothingWaits(handed: seq<Frame>)
    ensures handed + NO_EVENTS.frames == handed
  {
  }

  /** Taking some more frames from the current connection. */
  lemma QueueGrows(earlier: seq<Frame>, queued: seq<Frame>, handed: seq<Frame>, waiting: seq<Frame>, more: seq<Frame>)
    requires handed + waiting == earlier + queued
    ensures handed + (waiting + more) == earlier + (queued + more)
  {
    Associative(handed, waiting, more);
    Associative(earlier, queued, more);
  }

  /** The bytes a read loop collects before it stops. */
  ghost function BytesOf(outcomes: seq<ReadOutcome>): Bytes {
    if outcomes == [] then []
    else match outcomes[0]
      case Got(b) => b + BytesOf(outcomes[1..])
      case ReadInterrupted => BytesOf(outcomes[1..])
      case _ => []
  }

  /** The read loop stops because the peer closed or a read failed. */
  ghost predicate Ends(outcomes: seq<ReadOutcome>) {
    outcomes != [] && match outcomes[0]
      case Got(_) => Ends(outcomes[1..])
      case ReadInterrupted => Ends(outcomes[1..])
      case ReadBlocked => false
      case _ => true
  }

  /** The bytes a socket has room for before it blocks, fails or takes nothing. */
  function Room(outcomes: seq<WriteOutcome>): nat {
    if outcomes == [] then 0
    else match outcomes[0]
      case Sent(n) => if n == 0 then 0 else n + Room(outcomes[1..])
      case WriteInterrupted => Room(outcomes[1..])
      case _ => 0
  }

  /** One turn of the write loop, and what is left of it. */
  lemma RoomOne(outcomes: seq<WriteOutcome>, i: nat)
    requires i < |outcomes|
    ensures Room(outcomes[i..]) == match outcomes[i]
      case Sent(n) => if n == 0 then 0 else n + Room(outcomes[i + 1..])
      case WriteInterrupted => Room(outcomes[i + 1..])
      case _ => 0
  {
    assert outcomes[i..][0] == outcomes[i] && outcomes[i..][1..] == outcomes[i + 1..];
  }

  /** What remains of a queue after so many bytes were taken off its front, if it had them. */
  function Dropped(out: Bytes, n: nat): Bytes {
    if n < |out| then out[n..] else []
  }

  /** Dropping once and then again. */
  lemma DropTwice(out: Bytes, n: nat, more: nat)
    ensures Dropped(Dropped(out, n), more) == Dropped(out, n + more)
  {
  }

  lemma OneMore(c: Connection, out: Bytes, encoded: Bytes)
    requires c.written + out == Concat(c.accepted)
    ensures c.written + (out + encoded) == Concat(c.accepted + [encoded])
  {
    var accepted := c.accepted + [encoded];
    ConcatTake(accepted, |c.accepted|);
    assert accepted[..|c.accepted|] == c.accepted && accepted[..|accepted|] == accepted;
    Associative(c.written, out, encoded);
  }

  lemma WriteSome(written: Bytes, out: Bytes, k: nat)
    requires k <= |out|
    ensures (written + out[..k]) + out[k..] == written + out && written <= written + out[..k]
  {
    Associative(written, out[..k], out[k..]);
    assert out == out[..k] + out[k..];
  }

  /** One turn of the read loop, and what is left of it. */
  lemma ReadOne(received: Bytes, outcomes: seq<ReadOutcome>, i: nat)
    requires i < |outcomes|
    ensures match outcomes[i]
      case Got(b) =>
        && received + BytesOf(outcomes[i..]) == received + b + BytesOf(outcomes[i + 1..])
        && Ends(outcomes[i..]) == Ends(outcomes[i + 1..])
      case ReadInterrupted =>
        BytesOf(outcomes[i..]) == BytesOf(outcomes[i + 1..]) && Ends(outcomes[i..]) == Ends(outcomes[i + 1..])
      case ReadBlocked => received + BytesOf(outcomes[i..]) == received && !Ends(outcomes[i..])
      case _ => received + BytesOf(outcomes[i..]) == received && Ends(outcomes[i..])
  {
    assert outcomes[i..][0] == outcomes[i] && outcomes[i..][1..] == outcomes[i + 1..];
    if outcomes[i].Got? {
      Associative(received, outcomes[i].bytes, BytesOf(outcomes[i + 1..]));
    }
  }

  lemma AllRead(received: Bytes, outcomes: seq<ReadOutcome>)
    ensures received + BytesOf(outcomes[|outcomes|..]) == received && !Ends(outcomes[|outcomes|..])
  {
  }

  class TcpServer {
    var connected: bool
    var outBuffer: Bytes
    var events: LinkEvents
    const decoder: FrameDecoder

    /** The connection in progress, or the one frames are already waiting for. */
    ghost var current: Connection
    /** Every connection that has ended. */
    ghost var ended: seq<Connection>
    /** Every frame that was handed over, in order. */
    ghost var handed: seq<Frame>

    ghost predicate Valid()
      reads this, decoder
    {
      && decoder.Valid()
      && current.written + outBuffer == Concat(current.accepted)
      && Decode(current.received)
         == (var d := Decode(decoder.Unread()); d.(frames := current.queued + d.frames))
      && (!connected ==> current.written == [] && current.received == [] && current.queued == []
                         && decoder.Unread() == [])
      && (forall c | c in ended :: InStep(c))
      && handed + events.frames == AllQueued(ended) + current.queued
    }

    constructor ()
      ensures Valid() && fresh(decoder)
      ensures !connected && outBuffer == [] && events == NO_EVENTS && current == NO_HISTORY && ended == [] && handed == []
    {
      decoder := new FrameDecoder();
      connected, outBuffer, events := false, [], NO_EVENTS;
      current, ended, handed := NO_HISTORY, [], [];
      new;
      assert Decode([]) == Decoded([], NeedMore, []);
    }

    /** Queues an encoded frame whole, or drops it whole if it is lossy and the
        backlog is over the limit. Frames queued with no client connected wait
        for the next one. */
    method Send(encoded: Bytes, lossy: bool)
      requires Valid()
      modifies this
      ensures Valid() && ended == old(ended) && events == old(events) && connected == old(connected)
      ensures handed == old(handed)
      ensures var dropped := lossy && |old(outBuffer)| > 4194304;
        && outBuffer == (if dropped then old(outBuffer) else old(outBuffer) + encoded)
        && current == old(current).(accepted := if dropped then old(current.accepted)
                                                else old(current.accepted) + [encoded])
    {
      if lossy && |outBuffer| > MAX_OUTBOUND {
        return;
      }
      OneMore(current, outBuffer, encoded);
      outBuffer := outBuffer + encoded;
      current := current.(accepted := current.accepted + [encoded]);
    }

    /** So many bytes, or all there are, were written. */
    method Erase(n: nat)
      requires Valid() && connected
      modifies this`current, this`outBuffer
      ensures Valid() && outBuffer == Dropped(old(outBuffer), n)
      ensures current == old(current).(written := current.written) && old(current.written) <= current.written
      ensures current.written + outBuffer == old(current.written + outBuffer)
    {
      var k := if n <= |outBuffer| then n else |outBuffer|;
      WriteSome(current.written, outBuffer, k);
      current := current.(written := current.written + outBuffer[..k]);
      outBuffer := outBuffer[k..];
    }

    /** Writes as much as the socket takes; a partial write leaves the rest queued. */
    method HandleWritable(outcomes: seq<WriteOutcome>)
      requires Valid() && connected
      modifies this
      ensures Valid() && connected && ended == old(ended) && events == old(events) && handed == old(handed)
      ensures current == old(current).(written := current.written)
      ensures old(current.written) <= current.written
      ensures current.written + outBuffer == old(current.written + outBuffer)
      ensures outBuffer == Dropped(old(outBuffer), Room(outcomes))
    {
      var i := 0;
      assert outcomes[0..] == outcomes;
      while outBuffer != [] && i < |outcomes|
        invariant Valid() && connected && ended == old(ended) && events == old(events) && handed == old(handed)
        invariant current == old(current).(written := current.written)
        invariant old(current.written) <= current.written
        invariant current.written + outBuffer == old(current.written + outBuffer)
        invariant i <= |outcomes|
        invariant Dropped(outBuffer, Room(outcomes[i..])) == Dropped(old(outBuffer), Room(outcomes))
        decreases |outcomes| - i
      {
        RoomOne(outcomes, i);
        match outcomes[i] {
          case Sent(n) =>
            if n == 0 {
              return;
            }
            DropTwice(outBuffer, n, Room(outcomes[i + 1..]));
            Erase(n);
          case WriteInterrupted =>
          case _ =>
            return;
        }
        i := i + 1;
      }
    }

    /** Ends the connection. The decoder and the output queue start afresh, so no
        byte of this connection reaches the next one. */
    method CloseClient(notify: bool)
      requires Valid()
      modifies this, decoder
      ensures Valid() && !connected && outBuffer == [] && current == NO_HISTORY
      ensures ended == old(ended) + [old(current)] && handed == old(handed)
      ensures events == old(events).(clientDisconnected :=
        old(events.clientDisconnected) || (notify && old(connected)))
    {
      assert InStep(current) by {
        assert current.written <= current.written + outBuffer;
      }
      AllQueuedAppend(ended, current);
      ended := ended + [current];
      decoder.Reset();
      outBuffer, current := [], NO_HISTORY;
      if connected && notify {
        events := events.(clientDisconnected := true);
      }
      connected := false;
      assert Decode([]) == Decoded([], NeedMore, []);
    }

    /** Hands over everything observed so far. */
    method TakeEvents() returns (taken: LinkEvents)
      requires Valid()
      modifies this`events, this`handed
      ensures Valid() && taken == old(events) && events == NO_EVENTS && handed == old(handed) + taken.frames
    {
      taken := events;
      NothingWaits(handed + events.frames);
      handed := handed + events.frames;
      events := NO_EVENTS;
    }

    /** A control client is accepted unless one is connected already; the bytes read
        while classifying it are the first bytes of its stream. */
    method Accept(initial: Bytes)
      requires Valid()
      modifies this, decoder
      ensures Valid() && handed == old(handed)
      ensures old(connected) ==>
        && connected && current == old(current) && ended == old(ended)
        && outBuffer == old(outBuffer) && events == old(events) && decoder.Unread() == old(decoder.Unread())
      ensures !old(connected) && Decode(initial).status == NeedMore ==>
        && connected && current == old(current).(received := initial, queued := Decode(initial).frames)
        && ended == old(ended) && outBuffer == old(outBuffer) && events.clientConnected
      ensures !old(connected) ==> events.frames == old(events.frames) + Decode(initial).frames
      ensures !old(connected) && Decode(initial).status != NeedMore ==>
        && !connected && events.protocolError
        && ended == old(ended) + [old(current).(received := initial, queued := Decode(initial).frames)]
    {
      if connected {
        return;
      }
      decoder.Reset();
      decoder.Append(initial);
      connected := true;
      events := events.(clientConnected := true);
      current := current.(received := initial);
      assert [] + initial == initial;
      assert forall d: Decoded :: d.(frames := [] + d.frames) == d;
      DrainDecoder();
    }

    /** Queues every complete frame; at the first malformed one, closes. */
    method DrainDecoder()
      requires Valid() && connected
      modifies this, decoder
      ensures Valid() && handed == old(handed)
      ensures var d := Decode(old(decoder.Unread()));
        && events.frames == old(events.frames) + d.frames
        && (d.status == NeedMore ==>
              && connected && ended == old(ended) && outBuffer == old(outBuffer)
              && events == old(events).(frames := events.frames)
              && current == old(current).(queued := old(current.queued) + d.frames))
        && (d.status != NeedMore ==>
              && !connected && outBuffer == [] && current == NO_HISTORY && events.protocolError
              && events.clientDisconnected
              && ended == old(ended) + [old(current).(queued := old(current.queued) + d.frames)])
    {
      ghost var unread := decoder.Unread();
      var frames, status := Drain(decoder);
      Drained(current.queued, unread);
      QueueGrows(AllQueued(ended), current.queued, handed, events.frames, frames);
      events := events.(frames := events.frames + frames);
      current := current.(queued := current.queued + frames);
      if status != NeedMore {
        events := events.(protocolError := true);
        CloseClient(true);
      }
    }

    /** The bytes of one successful read go to the decoder. */
    method Absorb(b: Bytes)
      requires Valid() && connected
      modifies this`current, decoder
      ensures Valid() && current == old(current).(received := old(current.received) + b)
    {
      Continued(current.received, decoder.Unread(), current.queued, b);
      decoder.Append(b);
      current := current.(received := current.received + b);
    }

    /** The read loop: appends to the decoder until the socket is dry or gone. */
    method ReadAll(outcomes: seq<ReadOutcome>) returns (gone: bool)
      requires Valid() && connected
      modifies this, decoder
      ensures Valid() && connected && ended == old(ended) && outBuffer == old(outBuffer) && events == old(events)
      ensures handed == old(handed)
      ensures current == old(current).(received := old(current.received) + BytesOf(outcomes))
      ensures gone == Ends(outcomes)
    {
      var i := 0;
      ghost var received := current.received + BytesOf(outcomes);
      while i < |outcomes|
        invariant i <= |outcomes| && Valid() && connected && ended == old(ended)
        invariant outBuffer == old(outBuffer) && events == old(events) && handed == old(handed)
        invariant current == old(current).(received := current.received)
        invariant current.received + BytesOf(outcomes[i..]) == received
        invariant Ends(outcomes[i..]) == Ends(outcomes)
      {
        ReadOne(current.received, outcomes, i);
        match outcomes[i] {
          case Got(b) =>
            Absorb(b);
          case ReadInterrupted =>
          case ReadBlocked =>
            return false;
          case _ =>
            return true;
        }
        i := i + 1;
      }
      AllRead(current.received, outcomes);
      return false;
    }

    /** Reads until the socket is dry, then drains; a peer that closes, or a failed
        read, ends the connection without draining. */
    method HandleReadable(outcomes: seq<ReadOutcome>)
      requires Valid() && connected
      modifies this, decoder
      ensures Valid() && handed == old(handed)
      ensures var d := Decode(old(current.received) + BytesOf(outcomes));
        if Ends(outcomes) then events.frames == old(events.frames)
        else
          && |old(current.queued)| <= |d.frames|
          && events.frames == old(events.frames) + d.frames[|old(current.queued)|..]
      ensures var received := old(current.received) + BytesOf(outcomes);
        var d := Decode(received);
        if Ends(outcomes) then !connected && ended == old(ended) + [old(current).(received := received)]
        else if d.status != NeedMore then
          && !connected && events.protocolError
          && ended == old(ended) + [old(current).(received := received, queued := d.frames)]
        else
          && connected && ended == old(ended) && outBuffer == old(outBuffer)
          && current == old(current).(received := received, queued := d.frames)
    {
      var gone := ReadAll(outcomes);
      if gone {
        CloseClient(true);
      } else {
        DrainDecoder();
      }
    }
  }

  /** Appending to the unread bytes is appending to the whole stream. */
  lemma Continued(received: Bytes, unread: Bytes, queued: seq<Frame>, b: Bytes)
    requires Decode(received) == var d := Decode(unread); d.(frames := queued + d.frames)
    ensures Decode(received + b) == var d := Decode(unread + b); d.(frames := queued + d.frames)
  {
    DecodeAppend(received, b);
    DecodeAppend(unread, b);
    var d := Decode(unread);
    Associative(queued, d.frames, Decode(d.rest + b).frames);
  }

  /** What remains after a drain yields no further frame. */
  lemma Drained(queued: seq<Frame>, unread: Bytes)
    ensures var d := Decode(unread);
      Decode(d.rest) == Decoded([], d.status, d.rest)
      && (queued + d.frames) + Decode(d.rest).frames == queued + d.frames
  {
  }

  /** A peer that sends whole encoded frames: what this server queues is, in order,
      a prefix of what the peer encoded, whatever was lost at the close. */
  lemma QueuedIsPrefixOfSent(c: Connection, sent: seq<Frame>, lost: Bytes)
    requires InStep(c) && (forall f | f in sent :: Fits(f))
    requires c.received + lost == EncodeAll(sent)
    ensures c.queued <= sent && Decode(c.received).status == NeedMore
  {
    PrefixOfEncoded(sent, c.received, lost);
  }

  // ----- what is handed over -----

  /** The first `counts[k]` frames of what each peer sent, peer after peer. */
  function Beginnings(sent: seq<seq<Frame>>, counts: seq<nat>): seq<Frame>
    requires |sent| == |counts| && forall k | 0 <= k < |sent| :: counts[k] <= |sent[k]|
  {
    if sent == [] then []
    else
      var n := |sent| - 1;
      Beginnings(sent[..n], counts[..n]) + sent[n][..counts[n]]
  }

  predicate AreBeginnings(frames: seq<Frame>, sent: seq<seq<Frame>>, counts: seq<nat>) {
    && |sent| == |counts| && (forall k | 0 <= k < |sent| :: counts[k] <= |sent[k]|)
    && frames == Beginnings(sent, counts)
  }

  /** The bytes received begin the encoding of whole frames. */
  ghost predicate FromPeer(c: Connection, sent: seq<Frame>) {
    (forall f | f in sent :: Fits(f)) && c.received <= EncodeAll(sent)
  }

  ghost predicate Peers(cs: seq<Connection>, sent: seq<seq<Frame>>) {
    |cs| == |sent| && forall k | 0 <= k < |cs| :: InStep(cs[k]) && FromPeer(cs[k], sent[k])
  }

  lemma PeersBefore(cs: seq<Connection>, sent: seq<seq<Frame>>, n: nat)
    requires Peers(cs, sent) && |cs| == n + 1
    ensures Peers(cs[..n], sent[..n])
  {
  }

  lemma QueueFromPeer(c: Connection, sent: seq<Frame>)
    requires InStep(c) && FromPeer(c, sent)
    ensures c.queued <= sent
  {
    var lost := Remainder(c.received, EncodeAll(sent));
    QueuedIsPrefixOfSent(c, sent, lost);
  }

  lemma Remainder(a: Bytes, b: Bytes) returns (rest: Bytes)
    requires a <= b
    ensures a + rest == b
  {
    rest := b[|a|..];
  }

  lemma BeginningsAppend(sent: seq<seq<Frame>>, n: nat, counts: seq<nat>, last: nat, frames: seq<Frame>)
    requires |sent| == n + 1 && AreBeginnings(frames, sent[..n], counts) && last <= |sent[n]|
    ensures AreBeginnings(frames + sent[n][..last], sent, counts + [last])
  {
    assert (counts + [last])[..n] == counts;
    assert forall k | 0 <= k < n :: sent[k] == sent[..n][k];
  }

  /** Where a beginning of two lists ends. */
  lemma BeginningOfBoth(frames: seq<Frame>, a: seq<Frame>, b: seq<Frame>) returns (k: nat)
    requires frames <= a + b
    ensures if |frames| <= |a| then k == 0 && frames <= a else k <= |b| && frames == a + b[..k]
  {
    k := if |frames| <= |a| then 0 else |frames| - |a|;
  }

  lemma NoneOfLast(sent: seq<seq<Frame>>, n: nat, counts: seq<nat>, frames: seq<Frame>)
    requires |sent| == n + 1 && AreBeginnings(frames, sent[..n], counts)
    ensures AreBeginnings(frames, sent, counts + [0])
  {
    BeginningsAppend(sent, n, counts, 0, frames);
    assert frames + sent[n][..0] == frames;
  }

  lemma SomeOfLast(sent: seq<seq<Frame>>, n: nat, counts: seq<nat>, k: nat, earlier: seq<Frame>, queued: seq<Frame>)
    requires |sent| == n + 1 && AreBeginnings(earlier, sent[..n], counts) && queued <= sent[n] && k <= |queued|
    ensures AreBeginnings(earlier + queued[..k], sent, counts + [k])
  {
    BeginningsAppend(sent, n, counts, k, earlier);
    assert queued[..k] == sent[n][..k];
  }

  /** Frames that begin the queued ones of all connections, in order, are beginnings of what
      the peers sent. */
  lemma {:induction false} BeginningOfQueued(cs: seq<Connection>, sent: seq<seq<Frame>>, frames: seq<Frame>)
    returns (counts: seq<nat>)
    requires Peers(cs, sent) && frames <= AllQueued(cs)
    ensures AreBeginnings(frames, sent, counts)
    decreases |cs|
  {
    counts := [];
    if cs != [] {
      var n := |cs| - 1;
      var earlier := AllQueued(cs[..n]);
      PeersBefore(cs, sent, n);
      QueueFromPeer(cs[n], sent[n]);
      var k := BeginningOfBoth(frames, earlier, cs[n].queued);
      if |frames| <= |earlier| {
        counts := BeginningOfQueued(cs[..n], sent[..n], frames);
        NoneOfLast(sent, n, counts, frames);
      } else {
        counts := BeginningOfQueued(cs[..n], sent[..n], earlier);
        SomeOfLast(sent, n, counts, k, earlier, cs[n].queued);
      }
      counts := counts + [k];
    }
  }

  /** Whatever was handed over so far is, connection by connection and in order, a beginning
      of what each peer sent, however the bytes were cut and wherever connections were lost. */
  lemma HandedOverWasSent(server: TcpServer, sent: seq<seq<Frame>>) returns (counts: seq<nat>)
    requires server.Valid() && |sent| == |server.ended| + 1 && FromPeer(server.current, sent[|server.ended|])
    requires forall k | 0 <= k < |server.ended| :: FromPeer(server.ended[k], sent[k])
    ensures AreBeginnings(server.handed, sent, counts)
  {
    var cs := server.ended + [server.current];
    CurrentIsInStep(server);
    AllQueuedAppend(server.ended, server.current);
    assert server.handed <= server.handed + server.events.frames;
    counts := BeginningOfQueued(cs, sent, server.handed);
  }

  lemma CurrentIsInStep(server: TcpServer)
    requires server.Valid()
    ensures InStep(server.current)
  {
    assert server.current.written <= server.current.written + server.outBuffer;
  }

  lemma {:induction false} ConcatOfEncodings(frames: seq<Frame>, encoded: seq<Bytes>)
    requires |frames| == |encoded| && forall i | 0 <= i < |frames| :: encoded[i] == Encode(frames[i])
    ensures Concat(encoded) == EncodeAll(frames)
  {
    if frames != [] {
      var n := |frames| - 1;
      ConcatOfEncodings(frames[..n], encoded[..n]);
      EncodeAllAppend(frames[..n], [frames[n]]);
      assert frames == frames[..n] + [frames[n]];
      EncodeAllCons(frames[n], []);
      assert [frames[n]] + [] == [frames[n]];
      assert Encode(frames[n]) + [] == Encode(frames[n]);
    }
  }

  /** The peer's decoder, reset when it connected, never loses step: the bytes of
      any connection decode without error to a prefix of the frames sent. */
  lemma PeerNeverDesynchronises(c: Connection, frames: seq<Frame>)
    requires InStep(c) && |frames| == |c.accepted|
    requires forall i | 0 <= i < |frames| :: Fits(frames[i]) && c.accepted[i] == Encode(frames[i])
    ensures Decode(c.written).status == NeedMore && Decode(c.written).frames <= frames
  {
    ConcatOfEncodings(frames, c.accepted);
    var rest := Concat(c.accepted)[|c.written|..];
    assert c.written + rest == Concat(c.accepted);
    PrefixOfEncoded(frames, c.written, rest);
  }
}
