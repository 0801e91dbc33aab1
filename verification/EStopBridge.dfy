/** The dedicated E-Stop link of the operator's station: the only external heartbeat
    the safety manager receives. Parsing of envelopes is a parameter. */
module EStopBridges {
  import opened Wrappers
  import opened Octets
  import opened Framing
  import opened TcpServers

  const DEFAULT_TIMEOUT := 1000

  datatype Kind = HeartbeatKind | RequestKind | OtherKind

  datatype Envelope = Envelope(kind: Kind, robot: string, channel: string)

  type Parser = Bytes -> Option<Envelope>

  const ESTOP := "cmd/estop"
  const ESTOP_RELEASE := "cmd/estop_release"

  datatype Refusal = RobotMismatch | UnknownChannel | Unreachable

  datatype Act = Published(alive: bool, sequence: nat) | Echoed | Forwarded(release: bool) | Refused(reason: Refusal)

  datatype Bridge =
    Bridge(robotId: string, timeout: nat, connected: bool, received: bool, heartbeatAt: int, sequence: nat)

  datatype Effect = Effect(b: Bridge, acts: seq<Act>)

  function After(first: Effect, second: Effect): Effect {
    Effect(second.b, first.acts + second.acts)
  }

  predicate Alive(b: Bridge, now: int) {
    b.connected && b.received && now - b.heartbeatAt <= b.timeout
  }

  function Publish(b: Bridge, now: int): Effect {
    Effect(b.(sequence := b.sequence + 1), [Published(Alive(b, now), b.sequence + 1)])
  }

  predicate ForThisRobot(robotId: string, e: Envelope) {
    e.robot == "" || e.robot == robotId
  }

  /** The frame is a heartbeat addressed to this robot. */
  predicate IsHeartbeat(robotId: string, f: Frame, parse: Parser) {
    var e := parse(f.header);
    e.Some? && (e.value.robot == "" || e.value.robot == robotId) && e.value.kind == HeartbeatKind
  }

  function HandleFrame(b: Bridge, f: Frame, parse: Parser, now: int, ready: bool): Effect {
    match parse(f.header)
    case None => Effect(b, [])
    case Some(e) =>
      if !ForThisRobot(b.robotId, e) then Effect(b, if e.kind == RequestKind then [Refused(RobotMismatch)] else [])
      else if e.kind == HeartbeatKind then Effect(b.(received := true, heartbeatAt := now), [Echoed])
      else if e.kind != RequestKind then Effect(b, [])
      else if e.channel == ESTOP || e.channel == ESTOP_RELEASE then
        Effect(b, [if ready then Forwarded(e.channel == ESTOP_RELEASE) else Refused(Unreachable)])
      else Effect(b, [Refused(UnknownChannel)])
  }

  function HandleAll(b: Bridge, frames: seq<Frame>, parse: Parser, now: int, ready: bool): Effect
    decreases |frames|
  {
    if frames == [] then Effect(b, [])
    else
      var n := |frames| - 1;
      var before := HandleAll(b, frames[..n], parse, now, ready);
      After(before, HandleFrame(before.b, frames[n], parse, now, ready))
  }

  /** A lost link or a broken stream withdraws the heartbeat and says so at once. */
  function Withdraw(b: Bridge, lost: bool, now: int): Effect {
    if lost then Publish(b.(received := false), now) else Effect(b, [])
  }

  function HandleFlags(b: Bridge, events: LinkEvents, now: int): Effect {
    var b0 := if events.clientConnected then b.(received := false) else b;
    var e := Withdraw(b0, events.clientDisconnected, now);
    After(e, Withdraw(e.b, events.protocolError, now))
  }

  function PollLink(b: Bridge, events: LinkEvents, parse: Parser, now: int, ready: bool): Effect {
    var e := HandleFlags(b, events, now);
    After(e, HandleAll(e.b, events.frames, parse, now, ready))
  }

  datatype Input =
    | LinkChanged(connected: bool)
    | Poll(events: LinkEvents, parse: Parser, now: int, ready: bool)
    | Timer(now: int)

  function BridgeStep(b: Bridge, input: Input): Effect {
    match input
    case LinkChanged(connected) => Effect(b.(connected := connected), [])
    case Poll(events, parse, now, ready) => PollLink(b, events, parse, now, ready)
    case Timer(now) => Publish(b, now)
  }

  function InitialBridge(robotId: string, timeout: nat): Bridge {
    Bridge(robotId, timeout, false, false, 0, 0)
  }

  // ----- what is published -----

  /** A frame reaches the safety manager exactly if it is an E-Stop request addressed to
      this robot and the service is there; a frame for another robot does nothing else
      than, for a request, being refused; and every frame has at most one answer. */
  lemma FrameActs(b: Bridge, f: Frame, parse: Parser, now: int, ready: bool)
    ensures var e := HandleFrame(b, f, parse, now, ready);
      var m := parse(f.header);
      var request := m.Some? && (m.value.robot == "" || m.value.robot == b.robotId) && m.value.kind == RequestKind;
      && (Forwarded(false) in e.acts <==> request && ready && m.value.channel == ESTOP)
      && (Forwarded(true) in e.acts <==> request && ready && m.value.channel == ESTOP_RELEASE)
      && (Refused(RobotMismatch) in e.acts <==>
            m.Some? && m.value.kind == RequestKind && m.value.robot != "" && m.value.robot != b.robotId)
      && (e.b != b ==> IsHeartbeat(b.robotId, f, parse))
      && |e.acts| <= 1
  {
  }

  predicate HasHeartbeat(robotId: string, frames: seq<Frame>, parse: Parser) {
    exists i :: 0 <= i < |frames| && IsHeartbeat(robotId, frames[i], parse)
  }

  /** A batch of frames brings a heartbeat exactly if one of them is a heartbeat for this
      robot; no frame is ever published as a heartbeat itself. */
  lemma {:induction false} HandleAllHears(b: Bridge, frames: seq<Frame>, parse: Parser, now: int, ready: bool)
    ensures var e := HandleAll(b, frames, parse, now, ready);
      && e.b == (if HasHeartbeat(b.robotId, frames, parse) then b.(received := true, heartbeatAt := now) else b)
      && forall a | a in e.acts :: !a.Published?
    decreases |frames|
  {
    if frames != [] {
      var n := |frames| - 1;
      HandleAllHears(b, frames[..n], parse, now, ready);
      assert HasHeartbeat(b.robotId, frames, parse) <==>
             HasHeartbeat(b.robotId, frames[..n], parse) || IsHeartbeat(b.robotId, frames[n], parse) by {
        if i :| 0 <= i < |frames| && IsHeartbeat(b.robotId, frames[i], parse) {
          assert i < n ==> frames[..n][i] == frames[i];
        }
        if i :| 0 <= i < n && IsHeartbeat(b.robotId, frames[..n][i], parse) {
          assert frames[i] == frames[..n][i];
        }
      }
    }
  }

  predicate Resets(events: LinkEvents) {
    events.clientConnected || events.clientDisconnected || events.protocolError
  }

  /** A poll publishes only `false`, and leaves a heartbeat behind exactly if its frames
      bring one, or there was one and nothing happened to the link. */
  lemma PollHears(b: Bridge, events: LinkEvents, parse: Parser, now: int, ready: bool)
    ensures var e := PollLink(b, events, parse, now, ready);
      var heard := HasHeartbeat(b.robotId, events.frames, parse);
      && e.b.received == (heard || (b.received && !Resets(events)))
      && e.b.heartbeatAt == (if heard then now else b.heartbeatAt)
      && e.b.connected == b.connected && e.b.robotId == b.robotId && e.b.timeout == b.timeout
      && (forall a | a in e.acts && a.Published? :: !a.alive)
      && ((exists a :: a in e.acts && a.Published?) <==> events.clientDisconnected || events.protocolError)
  {
    var e := HandleFlags(b, events, now);
    HandleAllHears(e.b, events.frames, parse, now, ready);
    if events.clientDisconnected || events.protocolError {
      assert e.acts[0].Published? && e.acts[0] in PollLink(b, events, parse, now, ready).acts;
    }
  }

  lemma PollPublishesFalse(b: Bridge, events: LinkEvents, parse: Parser, now: int, ready: bool)
    ensures forall a | a in PollLink(b, events, parse, now, ready).acts && a.Published? :: !a.alive
  {
    PollHears(b, events, parse, now, ready);
  }

  // ----- every run -----

  function RunAll(b: Bridge, inputs: seq<Input>): Effect
    decreases |inputs|
  {
    if inputs == [] then Effect(b, [])
    else
      var n := |inputs| - 1;
      var before := RunAll(b, inputs[..n]);
      After(before, BridgeStep(before.b, inputs[n]))
  }

  predicate Hears(robotId: string, input: Input) {
    input.Poll? && HasHeartbeat(robotId, input.events.frames, input.parse)
  }

  /** Input `i` brought the heartbeat that still counts. */
  predicate HeardAt(robotId: string, inputs: seq<Input>, i: nat) {
    && i < |inputs| && Hears(robotId, inputs[i])
    && forall k | i < k < |inputs| && inputs[k].Poll? :: !Resets(inputs[k].events) && !Hears(robotId, inputs[k])
  }

  predicate ConnectedAfter(inputs: seq<Input>) {
    if inputs == [] then false
    else
      var n := |inputs| - 1;
      if inputs[n].LinkChanged? then inputs[n].connected else ConnectedAfter(inputs[..n])
  }

  /** The heartbeat fields are exactly what the history of the link says. */
  lemma {:induction false} BridgeRemembers(robotId: string, timeout: nat, inputs: seq<Input>)
    ensures var b := RunAll(InitialBridge(robotId, timeout), inputs).b;
      && b.robotId == robotId && b.timeout == timeout && b.connected == ConnectedAfter(inputs)
      && (b.received <==> exists i: nat :: HeardAt(robotId, inputs, i))
      && (forall i: nat | HeardAt(robotId, inputs, i) :: b.heartbeatAt == inputs[i].now)
    decreases |inputs|
  {
    if inputs != [] {
      var n := |inputs| - 1;
      var before := RunAll(InitialBridge(robotId, timeout), inputs[..n]).b;
      BridgeRemembers(robotId, timeout, inputs[..n]);
      var last := inputs[n];
      if last.Poll? {
        PollHears(before, last.events, last.parse, last.now, last.ready);
      }
      if Hears(robotId, last) {
        assert HeardAt(robotId, inputs, n);
      }
      forall i: nat ensures HeardAt(robotId, inputs, i) <==>
          (i == n && Hears(robotId, last)) ||
          (HeardAt(robotId, inputs[..n], i) && (last.Poll? ==> !Resets(last.events) && !Hears(robotId, last))) {
        HeardStep(robotId, inputs, i);
      }
    }
  }

  lemma HeardStep(robotId: string, inputs: seq<Input>, i: nat)
    requires inputs != []
    ensures var n := |inputs| - 1;
      var last := inputs[n];
      HeardAt(robotId, inputs, i) <==>
        (i == n && Hears(robotId, last)) ||
        (HeardAt(robotId, inputs[..n], i) && (last.Poll? ==> !Resets(last.events) && !Hears(robotId, last)))
  {
  }

  /** The timer publishes `true` exactly when the link is up and a heartbeat for this robot
      was received on it no longer ago than the timeout. */
  lemma AliveIff(robotId: string, timeout: nat, inputs: seq<Input>, now: int)
    ensures var e := BridgeStep(RunAll(InitialBridge(robotId, timeout), inputs).b, Timer(now));
      e.acts == [Published(ConnectedAfter(inputs)
                           && exists i: nat :: HeardAt(robotId, inputs, i) && now - inputs[i].now <= timeout,
                           e.b.sequence)]
  {
    BridgeRemembers(robotId, timeout, inputs);
  }

  // ----- what reaches the safety manager -----

  /** The requests forwarded, in order: a release or an engagement. */
  function Forwards(acts: seq<Act>): seq<bool> {
    if acts == [] then []
    else
      var n := |acts| - 1;
      Forwards(acts[..n]) + if acts[n].Forwarded? then [acts[n].release] else []
  }

  lemma {:induction false} ForwardsAppend(a: seq<Act>, b: seq<Act>)
    ensures Forwards(a + b) == Forwards(a) + Forwards(b)
  {
    if b == [] {
      assert a + b == a;
    } else {
      var n := |b| - 1;
      ForwardsAppend(a, b[..n]);
      assert (a + b)[..|a| + n] == a + b[..n];
    }
  }

  /** The frame asks for an E-Stop of this robot, or for its release. */
  predicate IsRequest(robotId: string, f: Frame, parse: Parser) {
    var e := parse(f.header);
    && e.Some? && (e.value.robot == "" || e.value.robot == robotId) && e.value.kind == RequestKind
    && (e.value.channel == "cmd/estop" || e.value.channel == "cmd/estop_release")
  }

  function RequestsIn(robotId: string, frames: seq<Frame>, parse: Parser): seq<bool> {
    if frames == [] then []
    else
      var n := |frames| - 1;
      var f := frames[n];
      RequestsIn(robotId, frames[..n], parse)
        + if IsRequest(robotId, f, parse) then [parse(f.header).value.channel == "cmd/estop_release"] else []
  }

  /** The requests of all polls at which the service was there. */
  function RequestsOf(robotId: string, inputs: seq<Input>): seq<bool> {
    if inputs == [] then []
    else
      var n := |inputs| - 1;
      RequestsOf(robotId, inputs[..n])
        + if inputs[n].Poll? && inputs[n].ready then RequestsIn(robotId, inputs[n].events.frames, inputs[n].parse) else []
  }

  lemma OneForwards(b: Bridge, f: Frame, parse: Parser, now: int, ready: bool)
    ensures Forwards(HandleFrame(b, f, parse, now, ready).acts)
         == if ready && IsRequest(b.robotId, f, parse) then [parse(f.header).value.channel == "cmd/estop_release"] else []
  {
    var acts := HandleFrame(b, f, parse, now, ready).acts;
    if acts != [] {
      assert acts[..0] == [];
    }
  }

  lemma {:induction false} HandleAllForwards(b: Bridge, frames: seq<Frame>, parse: Parser, now: int, ready: bool)
    ensures Forwards(HandleAll(b, frames, parse, now, ready).acts)
         == if ready then RequestsIn(b.robotId, frames, parse) else []
    decreases |frames|
  {
    if frames != [] {
      var n := |frames| - 1;
      var before := HandleAll(b, frames[..n], parse, now, ready);
      HandleAllForwards(b, frames[..n], parse, now, ready);
      HandleAllHears(b, frames[..n], parse, now, ready);
      OneForwards(before.b, frames[n], parse, now, ready);
      ForwardsAppend(before.acts, HandleFrame(before.b, frames[n], parse, now, ready).acts);
    }
  }

  lemma FlagsForwardNothing(b: Bridge, events: LinkEvents, now: int)
    ensures var e := HandleFlags(b, events, now); Forwards(e.acts) == [] && e.b.robotId == b.robotId
  {
    var e := HandleFlags(b, events, now);
    NothingForwarded(e.acts);
  }

  lemma {:induction false} NothingForwarded(acts: seq<Act>)
    requires forall a | a in acts :: !a.Forwarded?
    ensures Forwards(acts) == []
  {
    if acts != [] {
      NothingForwarded(acts[..|acts| - 1]);
    }
  }

  lemma StepForwards(b: Bridge, input: Input)
    ensures Forwards(BridgeStep(b, input).acts)
         == if input.Poll? && input.ready then RequestsIn(b.robotId, input.events.frames, input.parse) else []
  {
    match input {
      case Poll(events, parse, now, ready) =>
        var e := HandleFlags(b, events, now);
        FlagsForwardNothing(b, events, now);
        HandleAllForwards(e.b, events.frames, parse, now, ready);
        ForwardsAppend(e.acts, HandleAll(e.b, events.frames, parse, now, ready).acts);
      case _ => NothingForwarded(BridgeStep(b, input).acts);
    }
  }

  /** Over a whole run, what reaches the safety manager is exactly the E-Stop requests and
      releases for this robot among the frames of all polls at which its service was there,
      each once and in order: links that come and go, heartbeats and frames for other robots
      add nothing and hold nothing back. */
  lemma {:induction false} ForwardsAreRequests(robotId: string, timeout: nat, inputs: seq<Input>)
    ensures Forwards(RunAll(InitialBridge(robotId, timeout), inputs).acts) == RequestsOf(robotId, inputs)
    decreases |inputs|
  {
    if inputs != [] {
      var n := |inputs| - 1;
      var before := RunAll(InitialBridge(robotId, timeout), inputs[..n]);
      ForwardsAreRequests(robotId, timeout, inputs[..n]);
      BridgeRemembers(robotId, timeout, inputs[..n]);
      StepForwards(before.b, inputs[n]);
      ForwardsAppend(before.acts, BridgeStep(before.b, inputs[n]).acts);
    }
  }

  // ----- the object -----

  class EStopBridge {
    const robotId: string
    const timeout: nat
    var connected: bool
    var received: bool
    var heartbeatAt: int
    var sequence: nat
    ghost var acts: seq<Act>

    ghost function Value(): Effect
      reads this
    {
      Effect(Bridge(robotId, timeout, connected, received, heartbeatAt, sequence), acts)
    }

    constructor (robotId: string, timeout: nat := DEFAULT_TIMEOUT)
      ensures Value() == Effect(InitialBridge(robotId, timeout), [])
    {
      this.robotId, this.timeout := robotId, timeout;
      connected, received, heartbeatAt, sequence := false, false, 0, 0;
      acts := [];
    }

    method SetLink(up: bool)
      modifies this
      ensures Value() == After(old(Value()), BridgeStep(old(Value()).b, LinkChanged(up)))
    {
      connected := up;
    }

    method PublishHeartbeat(now: int)
      modifies this`sequence, this`acts
      ensures Value() == After(old(Value()), Publish(old(Value()).b, now))
    {
      var alive := connected && received && now - heartbeatAt <= timeout;
      sequence := sequence + 1;
      acts := acts + [Published(alive, sequence)];
    }

    method Forward(release: bool, ready: bool)
      modifies this`acts
      ensures acts == old(acts) + [if ready then Forwarded(release) else Refused(Unreachable)]
    {
      if !ready {
        acts := acts + [Refused(Unreachable)];
        return;
      }
      acts := acts + [Forwarded(release)];
    }

    method OnFrame(f: Frame, parse: Parser, now: int, ready: bool)
      modifies this`received, this`heartbeatAt, this`acts
      ensures Value() == After(old(Value()), HandleFrame(old(Value()).b, f, parse, now, ready))
    {
      var envelope := parse(f.header);
      if envelope == None {
        return;
      }
      var e := envelope.value;
      if e.robot != "" && e.robot != robotId {
        if e.kind == RequestKind {
          acts := acts + [Refused(RobotMismatch)];
        }
        return;
      }
      if e.kind == HeartbeatKind {
        received, heartbeatAt := true, now;
        acts := acts + [Echoed];
        return;
      }
      if e.kind != RequestKind {
        return;
      }
      if e.channel == ESTOP {
        Forward(false, ready);
      } else if e.channel == ESTOP_RELEASE {
        Forward(true, ready);
      } else {
        acts := acts + [Refused(UnknownChannel)];
      }
    }

    method OnFrames(frames: seq<Frame>, parse: Parser, now: int, ready: bool)
      modifies this`received, this`heartbeatAt, this`acts
      ensures Value() == After(old(Value()), HandleAll(old(Value()).b, frames, parse, now, ready))
    {
      for i := 0 to |frames|
        invariant Value() == After(old(Value()), HandleAll(old(Value()).b, frames[..i], parse, now, ready))
      {
        OnFrame(frames[i], parse, now, ready);
        assert frames[..i + 1][..i] == frames[..i];
      }
      assert frames[..|frames|] == frames;
    }

    method Drop(now: int)
      modifies this`received, this`sequence, this`acts
      ensures Value() == After(old(Value()), Withdraw(old(Value()).b, true, now))
    {
      received := false;
      PublishHeartbeat(now);
    }

    method OnFlags(events: LinkEvents, now: int)
      modifies this`received, this`sequence, this`acts
      ensures Value() == After(old(Value()), HandleFlags(old(Value()).b, events, now))
    {
      if events.clientConnected {
        received := false;
      }
      if events.clientDisconnected {
        Drop(now);
      }
      if events.protocolError {
        Drop(now);
      }
    }

    method OnPoll(events: LinkEvents, parse: Parser, now: int, ready: bool)
      modifies this
      ensures Value() == After(old(Value()), BridgeStep(old(Value()).b, Poll(events, parse, now, ready)))
    {
      OnFlags(events, now);
      OnFrames(events.frames, parse, now, ready);
    }
  }
}
