/** Runs in which every message takes exactly the longest delay: what such a run keeps, step
    by step, while nothing has gone wrong yet. */
module LinkLossCourse {
  import opened Wrappers
  import opened ControlMessages
  import opened LinkLoss
  import F = Framing
  import opened Octets
  import T = TcpServers
  import B = EStopBridges
  import M = SafetyManager
  import G = SafetyGates

  /** The manager hears nothing but live beats before `until`; `since` is when a RESUME was
      accepted, if it was. */
  datatype Course = Course(timeout: nat, delay: nat, since: Option<int>, until: int)

  const ONE_BEAT := T.NO_EVENTS.(frames := [F.Frame([], [])])

  const ANY_IS_A_BEAT: B.Parser := (header: Bytes) => Some(B.Envelope(B.HeartbeatKind, "", ""))

  function Heartbeat(now: int): B.Input {
    B.Poll(ONE_BEAT, ANY_IS_A_BEAT, now, true)
  }

  lemma HeartbeatIsHeard(b: B.Bridge, now: int)
    ensures var e := B.BridgeStep(b, Heartbeat(now));
      e.b == b.(received := true, heartbeatAt := now) && Beats(e.acts) == []
  {
  }

  // ----- the course -----

  predicate Told(x: Stamped<M.Manager>, c: Course) {
    c.since.Some? && c.since.value <= x.at < c.until ==> x.value.fsm.state == Normal
  }

  /** The manager is NORMAL since the RESUME, and before it waits for one, or for the first
      beat; every beat it heard was `delay` old. */
  predicate Manned(m: M.Manager, beatSeen: int, c: Course) {
    && !M.EStopActive(m) && !m.fsm.faultLatched
    && m.fsm.state == (if c.since.Some? then Normal else if m.alive then ControlledStop else Initializing)
    && (c.since.Some? || beatSeen > 0 ==> m.alive)
    && (m.alive ==> m.heartbeatAt == beatSeen + c.delay)
  }

  ghost predicate OnCourse(s: Sys, c: Course) {
    && s.bridge.connected && s.bridge.timeout == c.timeout && s.gate.authority == BaseActive
    && (forall i | 0 <= i < |s.beats| && s.beats[i].at + c.delay < c.until :: s.beats[i].value)
    && (s.now < c.until ==> Manned(s.manager, s.beatSeen, c))
    && (forall i | 0 <= i < |s.states| :: Told(s.states[i], c))
    && (s.seen.None? ==> s.states != [] && s.states[0].at <= 0)
    && (s.seen.Some? ==> Told(s.seen.value, c) && s.gate.stateAt == s.seen.value.at + c.delay)
  }

  /** The steps taken: heartbeats and timers, and messages when they are `delay` old. The
      bridge's timer finds the link alive and the manager's its watchdog fed. */
  ghost predicate Punctual(s: Sys, step: Step, c: Course) {
    match step
    case Wait(_) => true
    case BridgeInput(i) =>
      i == Heartbeat(s.now) || (i == B.Timer(s.now) && (s.now + c.delay < c.until ==> B.Alive(s.bridge, s.now)))
    case ManagerInput(i) =>
      i == M.Timer(s.now)
      && (s.now < c.until && s.manager.alive ==> s.now - s.manager.heartbeatAt <= M.HEARTBEAT_TIMEOUT)
    case GateInput(i) => i.BaseCommand?
    case GateTimer(_) => true
    case DeliverBeat => s.beats != [] && s.beats[0].at + c.delay == s.now
    case DeliverState => s.states != [] && s.states[0].at + c.delay == s.now
  }

  lemma BridgeKeepsCourse(s: Sys, i: B.Input, c: Course)
    requires OnCourse(s, c) && Punctual(s, BridgeInput(i), c)
    ensures OnCourse(Apply(s, BridgeInput(i)), c)
  {
    if i == Heartbeat(s.now) {
      HeartbeatIsHeard(s.bridge, s.now);
    } else {
      TimerBeats(s.bridge, s.now);
    }
  }

  lemma PublishKeepsTold(s: Sys, e: M.Effect, c: Course)
    requires OnCourse(s, c)
    requires s.now < c.until && c.since.Some? ==> forall p | p in e.published :: p.fsm.state == Normal
    ensures var states := Publish(s, e).states; forall i | 0 <= i < |states| :: Told(states[i], c)
  {
    var states := Publish(s, e).states;
    forall i | 0 <= i < |states| ensures Told(states[i], c) {
      if i >= |s.states| {
        assert e.published[i - |s.states|] in e.published;
      }
    }
  }

  lemma TimerKeepsCourse(s: Sys, c: Course)
    requires OnCourse(s, c) && Punctual(s, ManagerInput(M.Timer(s.now)), c)
    ensures OnCourse(Apply(s, ManagerInput(M.Timer(s.now))), c)
  {
    PublishKeepsTold(s, M.Step(s.manager, M.Timer(s.now)), c);
  }

  lemma BeatKeepsCourse(s: Sys, c: Course)
    requires OnCourse(s, c) && Punctual(s, DeliverBeat, c)
    ensures OnCourse(Apply(s, DeliverBeat), c)
  {
    PublishKeepsTold(s, M.Step(s.manager, M.Heartbeat(s.beats[0].value, s.now)), c);
  }

  lemma StepKeepsCourse(s: Sys, step: Step, c: Course)
    requires OnCourse(s, c) && Punctual(s, step, c)
    ensures OnCourse(Apply(s, step), c)
  {
    match step {
      case BridgeInput(i) => BridgeKeepsCourse(s, i, c);
      case ManagerInput(i) => TimerKeepsCourse(s, c);
      case DeliverBeat => BeatKeepsCourse(s, c);
      case _ =>
    }
  }
}
