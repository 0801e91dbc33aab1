/** Bridge, safety manager and gate joined by in-order channels and one clock, and how
    soon the base stops when the link, the bridge or the manager is lost. */
module LinkLoss {
  import opened Wrappers
  import opened ControlMessages
  import B = EStopBridges
  import M = SafetyManager
  import G = SafetyGates

  const PERIOD := 50

  datatype Stamped<T> = Stamped(value: T, at: int)

  /** `beats` and `states` are the messages under way, oldest first; `beatSeen` and `seen`
      tell of the last one delivered; `beatAt`, `watchAt` and `gateAt` of the last timer
      ticks of bridge, manager and gate, and `output` of what the gate published then. */
  datatype Sys = Sys(now: int, bridge: B.Bridge, manager: M.Manager, gate: G.Gate,
                     beats: seq<Stamped<bool>>, beatSeen: int, beatAt: int, watchAt: int,
                     states: seq<Stamped<M.Manager>>, seen: Option<Stamped<M.Manager>>, gateAt: int, output: G.Output)

  datatype Failure = NoFailure | BridgeDead | ManagerDead

  datatype Step =
    | Wait(time: nat)
    | BridgeInput(b: B.Input)
    | ManagerInput(m: M.Input)
    | GateInput(g: G.Input)
    | GateTimer(later: int)
    | DeliverBeat
    | DeliverState

  function Stamp<T>(values: seq<T>, at: int): (r: seq<Stamped<T>>)
    ensures |r| == |values|
    ensures forall i | 0 <= i < |r| :: r[i] == Stamped(values[i], at)
  {
    seq(|values|, i requires 0 <= i < |values| => Stamped(values[i], at))
  }

  function Beats(acts: seq<B.Act>): seq<bool> {
    if acts == [] then []
    else
      var n := |acts| - 1;
      Beats(acts[..n]) + if acts[n].Published? then [acts[n].alive] else []
  }

  function Initial(robotId: string, timeout: nat, armEnabled: bool, now: int): Sys {
    var start := M.Start(true, now);
    Sys(now, B.InitialBridge(robotId, timeout), start.m, G.InitialGate(armEnabled), [], now, now, now,
        Stamp(start.published, now), None, now, G.Output(None, None))
  }

  function Publish(s: Sys, e: M.Effect): Sys {
    s.(manager := e.m, states := s.states + Stamp(e.published, s.now))
  }

  function Apply(s: Sys, step: Step): Sys {
    match step
    case Wait(d) => s.(now := s.now + d)
    case BridgeInput(i) =>
      var e := B.BridgeStep(s.bridge, i);
      s.(bridge := e.b, beats := s.beats + Stamp(Beats(e.acts), s.now), beatAt := if i.Timer? then s.now else s.beatAt)
    case ManagerInput(i) => Publish(s, M.Step(s.manager, i)).(watchAt := if i.Timer? then s.now else s.watchAt)
    case GateInput(i) => s.(gate := G.Receive(s.gate, i))
    case GateTimer(later) => s.(gateAt := s.now, output := G.Tick(s.gate, s.now, later))
    case DeliverBeat =>
      if s.beats == [] then s
      else
        Publish(s, M.Step(s.manager, M.Heartbeat(s.beats[0].value, s.now)))
          .(beats := s.beats[1..], beatSeen := s.beats[0].at)
    case DeliverState =>
      if s.states == [] then s
      else
        s.(gate := G.Receive(s.gate, G.SafetyInput(s.states[0].value.fsm.state, s.now)),
           seen := Some(s.states[0]), states := s.states[1..])
  }

  predicate IsNow(i: B.Input, now: int) {
    match i
    case LinkChanged(_) => true
    case Poll(_, _, at, _) => at == now
    case Timer(at) => at == now
  }

  predicate GateIsNow(i: G.Input, now: int) {
    match i
    case BaseCommand(_, at) => at == now
    case ArmCommand(_, at) => at == now
    case SafetyInput(_, _) => false
    case AuthorityInput(_) => true
  }

  /** Time may pass until a message has been under way for `delay`, or a timer has not
      ticked for its period. */
  predicate MayWait(s: Sys, time: nat, failure: Failure, delay: nat) {
    var t := s.now + time;
    && (failure != BridgeDead ==> t - s.beatAt <= PERIOD)
    && (failure != ManagerDead ==> t - s.watchAt <= PERIOD)
    && t - s.gateAt <= PERIOD
    && (failure != ManagerDead && s.beats != [] ==> t - s.beats[0].at <= delay)
    && (s.states != [] ==> t - s.states[0].at <= delay)
  }

  predicate Enabled(s: Sys, step: Step, failure: Failure, delay: nat) {
    match step
    case Wait(time) => MayWait(s, time, failure, delay)
    case BridgeInput(i) => failure != BridgeDead && IsNow(i, s.now)
    case ManagerInput(i) => failure != ManagerDead && !i.Heartbeat? && (i.Timer? ==> i.now == s.now)
    case GateInput(i) => GateIsNow(i, s.now)
    case GateTimer(later) => s.now <= later
    case DeliverBeat => failure != ManagerDead && s.beats != []
    case DeliverState => s.states != []
  }

  function After(s: Sys, steps: seq<Step>): Sys {
    if steps == [] then s else Apply(After(s, steps[..|steps| - 1]), steps[|steps| - 1])
  }

  predicate AllEnabled(s: Sys, steps: seq<Step>, failure: Failure, delay: nat) {
    forall i | 0 <= i < |steps| :: Enabled(After(s, steps[..i]), steps[i], failure, delay)
  }

  // ----- what every step keeps -----

  predicate Ordered<T>(queue: seq<Stamped<T>>, from: int, to: int) {
    && (forall i | 0 <= i < |queue| :: from <= queue[i].at <= to)
    && (forall i, j | 0 <= i < j < |queue| :: queue[i].at <= queue[j].at)
  }

  function LastState(s: Sys): SafetyState {
    if s.states != [] then s.states[|s.states| - 1].value.fsm.state
    else if s.seen.Some? then s.seen.value.value.fsm.state
    else Initializing
  }

  /** The manager and its messages are sound, the last message tells its state, and the
      gate holds the last message delivered. */
  ghost predicate Faithful(s: Sys) {
    && M.Sound(s.manager) && s.manager.required
    && (forall i | 0 <= i < |s.states| :: M.Sound(s.states[i].value) && s.states[i].value.required)
    && (s.seen.Some? ==> M.Sound(s.seen.value.value) && s.seen.value.value.required)
    && LastState(s) == s.manager.fsm.state
    && s.gate.state == (if s.seen.Some? then s.seen.value.value.fsm.state else Initializing)
  }

  ghost predicate Timely(s: Sys, delay: nat) {
    && Ordered(s.states, s.now - delay, s.now) && Ordered(s.beats, s.beatSeen, s.now)
    && s.beatAt <= s.now && s.beatSeen <= s.now && s.watchAt <= s.now && s.now - PERIOD <= s.gateAt <= s.now
    && s.bridge.heartbeatAt <= s.now && s.manager.heartbeatAt <= s.now && s.gate.stateAt <= s.now
    && (s.seen.Some? ==> s.seen.value.at <= s.now && s.gate.stateAt - s.seen.value.at <= delay)
  }

  /** A message is sent in every period, by a timer that ticked last at `tick`. */
  predicate Regular<T>(queue: seq<Stamped<T>>, seen: int, tick: int, now: int) {
    && now - tick <= PERIOD
    && tick <= (if queue == [] then seen else queue[|queue| - 1].at)
    && (queue != [] ==> queue[0].at - seen <= PERIOD)
    && (forall i | 0 < i < |queue| :: queue[i].at - queue[i - 1].at <= PERIOD)
  }

  lemma RegularAppend<T>(queue: seq<Stamped<T>>, seen: int, tick: int, now: int, values: seq<T>, tick': int)
    requires Regular(queue, seen, tick, now) && tick' <= now && (tick' == tick || (tick' == now && values != []))
    requires seen <= now && forall i | 0 <= i < |queue| :: queue[i].at <= now
    ensures Regular(queue + Stamp(values, now), seen, tick', now)
  {
  }

  lemma RegularRest<T>(queue: seq<Stamped<T>>, seen: int, tick: int, now: int)
    requires Regular(queue, seen, tick, now) && queue != []
    ensures Regular(queue[1..], queue[0].at, tick, now)
  {
  }

  /** What was sent last was sent in the last period, and whatever is not under way for
      `delay` yet was preceded by a message no more than a period older. */
  lemma RegularIsRecent<T>(queue: seq<Stamped<T>>, seen: int, tick: int, now: int, delay: nat)
    requires Regular(queue, seen, tick, now) && (queue != [] ==> now - queue[0].at <= delay)
    ensures now - seen <= PERIOD + delay
  {
  }

  /** While the bridge lives, a beat is sent in every period. */
  ghost predicate Beating(s: Sys) {
    Regular(s.beats, s.beatSeen, s.beatAt, s.now)
  }

  function SeenAt(s: Sys): int {
    if s.seen.Some? then s.seen.value.at else if s.states != [] then s.states[0].at else s.watchAt
  }

  /** While the manager lives, its state is told in every period. */
  ghost predicate Telling(s: Sys) {
    Regular(s.states, SeenAt(s), s.watchAt, s.now)
  }

  /** While the manager lives, beats are delivered in time and its watchdog is fed. */
  ghost predicate Watching(s: Sys, delay: nat) {
    && s.now - s.watchAt <= PERIOD
    && (s.beats != [] ==> s.now - s.beats[0].at <= delay)
    && (s.manager.alive ==> s.watchAt - s.manager.heartbeatAt <= M.HEARTBEAT_TIMEOUT)
  }

  ghost predicate Inv(s: Sys, failure: Failure, delay: nat) {
    && Faithful(s) && Timely(s, delay)
    && (failure != BridgeDead ==> Beating(s))
    && (failure != ManagerDead ==> Watching(s, delay) && Telling(s))
  }

  lemma InitialInv(robotId: string, timeout: nat, armEnabled: bool, now: nat, delay: nat)
    ensures Inv(Initial(robotId, timeout, armEnabled, now), NoFailure, delay)
  {
  }

  lemma PublishKeepsFaithful(s: Sys, input: M.Input)
    requires Faithful(s)
    ensures Faithful(Publish(s, M.Step(s.manager, input)))
  {
    var e := M.Step(s.manager, input);
    M.StepKeepsSound(s.manager, input);
    var s' := Publish(s, e);
    forall i | 0 <= i < |s'.states| ensures M.Sound(s'.states[i].value) && s'.states[i].value.required {
      if i >= |s.states| {
        assert e.published[i - |s.states|] in e.published;
      }
    }
  }

  lemma DeliverKeepsFaithful(s: Sys)
    requires Faithful(s)
    ensures Faithful(Apply(s, DeliverState))
  {
  }

  lemma SameMessages(s: Sys, q: Sys)
    requires Faithful(s) && q.manager == s.manager && q.states == s.states && q.seen == s.seen
    requires q.gate.state == s.gate.state
    ensures Faithful(q)
  {
  }

  lemma StepKeepsFaithful(s: Sys, step: Step)
    requires Faithful(s)
    ensures Faithful(Apply(s, step)) || (step.GateInput? && step.g.SafetyInput?)
  {
    match step {
      case ManagerInput(i) => PublishKeepsFaithful(s, i);
      case DeliverBeat =>
        if s.beats != [] {
          PublishKeepsFaithful(s, M.Heartbeat(s.beats[0].value, s.now));
        }
      case DeliverState => DeliverKeepsFaithful(s);
      case GateInput(i) =>
        if !i.SafetyInput? {
          SameMessages(s, Apply(s, step));
        }
      case _ => SameMessages(s, Apply(s, step));
    }
  }

  lemma OrderedAppend<T>(queue: seq<Stamped<T>>, from: int, to: int, values: seq<T>)
    requires Ordered(queue, from, to) && from <= to
    ensures Ordered(queue + Stamp(values, to), from, to)
  {
  }

  /** What a step of the bridge does to its clock readings. */
  lemma BridgeReads(b: B.Bridge, i: B.Input, now: int)
    requires IsNow(i, now)
    ensures var b' := B.BridgeStep(b, i).b;
      && (b'.heartbeatAt == b.heartbeatAt || b'.heartbeatAt == now)
      && (!B.Hears(b.robotId, i) ==> b'.heartbeatAt == b.heartbeatAt && (b'.received ==> b.received))
      && b'.robotId == b.robotId && b'.timeout == b.timeout
  {
    if i.Poll? {
      B.PollHears(b, i.events, i.parse, i.now, i.ready);
    }
  }

  lemma ManagerReads(m: M.Manager, i: M.Input, now: int)
    requires (i.Heartbeat? || i.Timer?) ==> i.now == now
    ensures var m' := M.Step(m, i).m;
      && (m'.heartbeatAt == m.heartbeatAt || m'.heartbeatAt == now)
      && (!i.Heartbeat? || !i.alive ==> m'.heartbeatAt == m.heartbeatAt && (m'.alive ==> m.alive))
      && (i.Heartbeat? ==> m'.alive == i.alive && (i.alive ==> m'.heartbeatAt == now))
      && (i.Timer? && m'.alive && m.required ==> now - m.heartbeatAt <= M.HEARTBEAT_TIMEOUT)
  {
  }

  lemma StepKeepsTimely(s: Sys, step: Step, failure: Failure, delay: nat)
    requires Timely(s, delay) && Enabled(s, step, failure, delay)
    ensures Timely(Apply(s, step), delay)
  {
    match step {
      case BridgeInput(i) =>
        BridgeReads(s.bridge, i, s.now);
        OrderedAppend(s.beats, s.beatSeen, s.now, Beats(B.BridgeStep(s.bridge, i).acts));
      case ManagerInput(i) =>
        ManagerReads(s.manager, i, s.now);
        OrderedAppend(s.states, s.now - delay, s.now, M.Step(s.manager, i).published);
      case DeliverBeat =>
        var i := M.Heartbeat(s.beats[0].value, s.now);
        ManagerReads(s.manager, i, s.now);
        OrderedAppend(s.states, s.now - delay, s.now, M.Step(s.manager, i).published);
      case _ =>
    }
  }

  lemma {:induction false} BeatsOf(acts: seq<B.Act>)
    ensures |Beats(acts)| <= |acts|
    ensures forall x | x in Beats(acts) :: exists a :: a in acts && a.Published? && a.alive == x
    ensures forall a | a in acts && a.Published? :: a.alive in Beats(acts)
  {
    if acts != [] {
      var n := |acts| - 1;
      BeatsOf(acts[..n]);
      assert acts == acts[..n] + [acts[n]];
    }
  }

  lemma TimerBeats(b: B.Bridge, now: int)
    ensures Beats(B.BridgeStep(b, B.Timer(now)).acts) == [B.Alive(b, now)]
  {
  }

  lemma BridgeKeepsBeating(s: Sys, i: B.Input)
    requires Beating(s) && IsNow(i, s.now) && s.beatSeen <= s.now && Ordered(s.beats, s.beatSeen, s.now)
    ensures Beating(Apply(s, BridgeInput(i)))
  {
    var values := Beats(B.BridgeStep(s.bridge, i).acts);
    if i.Timer? {
      TimerBeats(s.bridge, s.now);
    }
    RegularAppend(s.beats, s.beatSeen, s.beatAt, s.now, values, if i.Timer? then s.now else s.beatAt);
  }

  lemma StepKeepsBeating(s: Sys, step: Step, failure: Failure, delay: nat)
    requires Timely(s, delay) && Beating(s) && Enabled(s, step, failure, delay) && failure != BridgeDead
    ensures Beating(Apply(s, step))
  {
    match step {
      case BridgeInput(i) => BridgeKeepsBeating(s, i);
      case DeliverBeat => RegularRest(s.beats, s.beatSeen, s.beatAt, s.now);
      case _ =>
    }
  }

  lemma PublishKeepsTelling(s: Sys, e: M.Effect, watchAt: int)
    requires Telling(s) && (watchAt == s.watchAt || (watchAt == s.now && e.published != []))
    requires s.watchAt <= s.now && SeenAt(s) <= s.now && forall i | 0 <= i < |s.states| :: s.states[i].at <= s.now
    ensures Telling(Publish(s, e).(watchAt := watchAt))
  {
    RegularAppend(s.states, SeenAt(s), s.watchAt, s.now, e.published, watchAt);
  }

  lemma StepKeepsTelling(s: Sys, step: Step, failure: Failure, delay: nat)
    requires Timely(s, delay) && Telling(s) && Enabled(s, step, failure, delay) && failure != ManagerDead
    requires s.seen.Some? ==> s.seen.value.at <= s.now
    ensures Telling(Apply(s, step))
  {
    match step {
      case ManagerInput(i) => PublishKeepsTelling(s, M.Step(s.manager, i), if i.Timer? then s.now else s.watchAt);
      case DeliverBeat => PublishKeepsTelling(s, M.Step(s.manager, M.Heartbeat(s.beats[0].value, s.now)), s.watchAt);
      case DeliverState => RegularRest(s.states, SeenAt(s), s.watchAt, s.now);
      case _ =>
    }
  }

  lemma StepKeepsWatching(s: Sys, step: Step, failure: Failure, delay: nat)
    requires Timely(s, delay) && Watching(s, delay) && Enabled(s, step, failure, delay) && failure != ManagerDead
    requires s.manager.required
    ensures Watching(Apply(s, step), delay)
  {
  }

  lemma StepKeepsInv(s: Sys, step: Step, failure: Failure, delay: nat)
    requires Inv(s, failure, delay) && Enabled(s, step, failure, delay)
    ensures Inv(Apply(s, step), failure, delay)
  {
    StepKeepsFaithful(s, step);
    StepKeepsTimely(s, step, failure, delay);
    if failure != BridgeDead {
      StepKeepsBeating(s, step, failure, delay);
    }
    if failure != ManagerDead {
      StepKeepsWatching(s, step, failure, delay);
      StepKeepsTelling(s, step, failure, delay);
    }
  }
}
