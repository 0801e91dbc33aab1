/** A schedule that keeps to a course: in every millisecond the timers that are due, the
    messages that are `delay` old, and a command for the base. */
module LinkLossSchedule {
  import opened Wrappers
  import opened ControlMessages
  import opened LinkLoss
  import opened LinkLossCourse
  import B = EStopBridges
  import M = SafetyManager
  import G = SafetyGates

  const FORWARD := G.Twist((1.0, 0.0, 0.0), (0.0, 0.0, 0.0))

  /** `on` holds of the systems of interest, and is kept by every punctual step; heartbeats
      come only if the world `hears` them. */
  datatype World = World(on: Sys -> bool, failure: Failure, hears: bool, c: Course)

  predicate Allowed(step: Step, hears: bool) {
    step.BridgeInput? && !hears ==> step.b.Timer?
  }

  ghost predicate MayGo(s: Sys, step: Step, w: World) {
    Enabled(s, step, w.failure, w.c.delay) && Allowed(step, w.hears) && Punctual(s, step, w.c)
  }

  /** Always true; naming it says where the invariants of `on` are used. */
  predicate Recalled(s: Sys) {
    true
  }

  ghost predicate Lawful(w: World) {
    && (forall s, step :: w.on(s) && MayGo(s, step, w) ==> w.on(Apply(s, step)))
    && (forall s {:trigger Recalled(s)} :: Recalled(s) && w.on(s) ==> Inv(s, w.failure, w.c.delay) && OnCourse(s, w.c))
  }

  ghost predicate On(s: Sys, w: World) {
    Lawful(w) && w.on(s)
  }

  lemma Recall(s: Sys, w: World)
    requires On(s, w)
    ensures Inv(s, w.failure, w.c.delay) && OnCourse(s, w.c)
  {
    assert Recalled(s);
  }

  lemma Go(s: Sys, step: Step, w: World) returns (q: Sys)
    requires On(s, w) && MayGo(s, step, w)
    ensures On(q, w) && q == Apply(s, step)
  {
    q := Apply(s, step);
  }

  // ----- timers -----

  /** The last multiple of the period, shifted by `phase`, up to `now`. */
  function LastTick(now: int, phase: int): (t: int)
    ensures t <= now < t + PERIOD
  {
    now - (now - phase) % PERIOD
  }

  predicate IsTick(t: int) {
    t % PERIOD == 0
  }

  /** Every timer ticks once a period. The bridge ticks at multiples of the period, the manager
      one delay after each of them, and the gate two. */
  function BridgeTick(now: int): int {
    LastTick(now, 0)
  }

  function ManagerTick(now: int, w: World): int {
    LastTick(now, w.c.delay)
  }

  function GateTick(now: int, w: World): int {
    LastTick(now, 2 * w.c.delay)
  }

  lemma NextTick(now: int, phase: int)
    ensures LastTick(now, phase) == if (now - phase) % PERIOD == 0 then now else LastTick(now - 1, phase)
  {
  }

  /** The beat sent last, delivered or not. */
  function LastBeat(s: Sys): int {
    if s.beats == [] then s.beatSeen else s.beats[|s.beats| - 1].at
  }

  predicate Gaps(s: Sys) {
    && (s.beats != [] ==> s.beats[0].at - s.beatSeen <= PERIOD)
    && (forall i | 0 < i < |s.beats| :: s.beats[i].at - s.beats[i - 1].at <= PERIOD)
  }

  /** The state sent last, delivered or not. */
  function LastTold(s: Sys): int {
    if s.states == [] then SeenAt(s) else s.states[|s.states| - 1].at
  }

  /** Why all is well until the course ends: heartbeats still arrive; or the last one came a
      timeout and a period before the first dead beat; or the bridge is gone, and the last
      beat came a watchdog period and a tick before the end; or the manager is gone, and the
      course ends with its last message. */
  predicate Fed(s: Sys, w: World) {
    match w.failure
    case NoFailure =>
      w.hears
      || (s.bridge.received && IsTick(s.bridge.heartbeatAt + w.c.timeout)
          && w.c.until == s.bridge.heartbeatAt + w.c.timeout + PERIOD + w.c.delay)
    case BridgeDead =>
      !w.hears && Gaps(s) && IsTick(LastBeat(s))
      && w.c.until == LastBeat(s) + w.c.delay + M.HEARTBEAT_TIMEOUT + PERIOD
    case ManagerDead => w.hears && w.c.until == LastTold(s) + 1 && IsTick(LastTold(s) - w.c.delay)
  }

  // ----- one millisecond -----

  /** The clock has just advanced: nothing has happened yet. */
  ghost predicate Open(s: Sys, w: World) {
    && On(s, w) && Fed(s, w)
    && (w.failure != BridgeDead ==> s.beatAt >= BridgeTick(s.now - 1))
    && (w.failure != ManagerDead ==> s.watchAt >= ManagerTick(s.now - 1, w))
    && s.gateAt >= GateTick(s.now - 1, w)
  }

  /** The gate's timer has been served. */
  ghost predicate Gated(s: Sys, w: World) {
    Open(s, w) && s.gateAt >= GateTick(s.now, w)
  }

  predicate NoneDue<T>(queue: seq<Stamped<T>>, now: int, delay: nat) {
    queue != [] ==> queue[0].at + delay > now
  }

  /** All that was due has happened. */
  ghost predicate Done(s: Sys, w: World) {
    && On(s, w) && Fed(s, w)
    && (w.failure != BridgeDead ==> s.beatAt >= BridgeTick(s.now))
    && (w.failure != ManagerDead ==> s.watchAt >= ManagerTick(s.now, w) && NoneDue(s.beats, s.now, w.c.delay))
    && NoneDue(s.states, s.now, w.c.delay)
    && s.gateAt >= GateTick(s.now, w)
  }

  lemma HearsOne(s: Sys)
    ensures Apply(s, BridgeInput(Heartbeat(s.now))) == s.(bridge := s.bridge.(received := true, heartbeatAt := s.now))
  {
    HeartbeatIsHeard(s.bridge, s.now);
    assert s.beats + Stamp([], s.now) == s.beats;
  }

  lemma Hear(s: Sys, w: World) returns (q: Sys)
    requires On(s, w) && w.hears && w.failure != BridgeDead
    ensures On(q, w) && q == s.(bridge := s.bridge.(received := true, heartbeatAt := s.now))
  {
    HearsOne(s);
    q := Go(s, BridgeInput(Heartbeat(s.now)), w);
  }

  lemma LinkIsAlive(s: Sys, w: World)
    requires On(s, w) && Fed(s, w) && w.failure != BridgeDead && s.now % PERIOD == 0
    requires w.hears ==> s.bridge.received && s.bridge.heartbeatAt == s.now
    ensures s.now + w.c.delay < w.c.until ==> B.Alive(s.bridge, s.now)
  {
    Recall(s, w);
  }

  lemma BridgeTicks(s: Sys, w: World) returns (q: Sys)
    requires On(s, w) && Fed(s, w) && w.failure != BridgeDead && s.beatAt >= BridgeTick(s.now - 1)
    requires w.hears ==> s.bridge.received && s.bridge.heartbeatAt == s.now
    ensures On(q, w) && q.beatAt >= BridgeTick(q.now)
    ensures q == s.(bridge := q.bridge, beats := q.beats, beatAt := q.beatAt)
    ensures q.bridge == s.bridge.(sequence := q.bridge.sequence)
  {
    NextTick(s.now, 0);
    q := s;
    if s.now % PERIOD == 0 {
      LinkIsAlive(s, w);
      q := Go(s, BridgeInput(B.Timer(s.now)), w);
    }
  }

  lemma Feeding(s: Sys, q: Sys, w: World)
    requires Fed(s, w) && q.bridge == s.bridge && LastBeat(q) == LastBeat(s) && (Gaps(s) ==> Gaps(q))
    requires w.failure == ManagerDead ==> LastTold(q) == LastTold(s)
    ensures Fed(q, w)
  {
  }

  lemma BeatIsTaken(s: Sys, w: World) returns (q: Sys)
    requires On(s, w) && Fed(s, w) && w.failure != ManagerDead
    requires s.beats != [] && s.beats[0].at + w.c.delay == s.now
    ensures On(q, w) && Fed(q, w) && |q.beats| < |s.beats|
    ensures q == s.(manager := q.manager, beats := q.beats, beatSeen := q.beatSeen, states := q.states)
  {
    q := Go(s, DeliverBeat, w);
    Feeding(s, q, w);
  }

  lemma BeatsAreInTime(s: Sys, w: World)
    requires On(s, w) && w.failure != ManagerDead && s.beats != []
    ensures s.beats[0].at + w.c.delay >= s.now
  {
    Recall(s, w);
  }

  /** The manager hears every beat that is due. */
  lemma {:induction false} BeatsArrive(s: Sys, w: World) returns (q: Sys)
    requires On(s, w) && Fed(s, w) && w.failure != ManagerDead
    ensures On(q, w) && Fed(q, w) && NoneDue(q.beats, q.now, w.c.delay)
    ensures q == s.(manager := q.manager, beats := q.beats, beatSeen := q.beatSeen, states := q.states)
    decreases |s.beats|
  {
    q := s;
    if s.beats != [] {
      BeatsAreInTime(s, w);
      if s.beats[0].at + w.c.delay == s.now {
        q := BeatIsTaken(s, w);
        q := BeatsArrive(q, w);
      }
    }
  }

  /** Its watchdog stays fed. */
  lemma WatchdogIsFed(s: Sys, w: World)
    requires On(s, w) && Fed(s, w) && w.failure != ManagerDead && NoneDue(s.beats, s.now, w.c.delay)
    requires s.now < w.c.until && s.manager.alive && (s.now - w.c.delay) % PERIOD == 0
    ensures s.now - s.manager.heartbeatAt <= M.HEARTBEAT_TIMEOUT
  {
    Recall(s, w);
    if w.failure == NoFailure {
      RegularIsRecent(s.beats, s.beatSeen, s.beatAt, s.now, w.c.delay);
    }
  }

  lemma ManagerTicks(s: Sys, w: World) returns (q: Sys)
    requires On(s, w) && Fed(s, w) && w.failure != ManagerDead && NoneDue(s.beats, s.now, w.c.delay)
    requires s.watchAt >= ManagerTick(s.now - 1, w)
    ensures On(q, w) && Fed(q, w) && q.watchAt >= ManagerTick(q.now, w)
    ensures q == s.(manager := q.manager, states := q.states, watchAt := q.watchAt)
  {
    NextTick(s.now, w.c.delay);
    q := s;
    if (s.now - w.c.delay) % PERIOD == 0 {
      if s.now < w.c.until && s.manager.alive {
        WatchdogIsFed(s, w);
      }
      q := Go(s, ManagerInput(M.Timer(s.now)), w);
      Feeding(s, q, w);
    }
  }

  lemma StatesAreInTime(s: Sys, w: World)
    requires On(s, w) && s.states != []
    ensures s.states[0].at + w.c.delay >= s.now
  {
    Recall(s, w);
  }

  /** The gate hears every state that is due. */
  lemma {:induction false} StatesArrive(s: Sys, w: World) returns (q: Sys)
    requires On(s, w)
    ensures On(q, w) && NoneDue(q.states, q.now, w.c.delay) && LastTold(q) == LastTold(s)
    ensures q == s.(gate := q.gate, states := q.states, seen := q.seen)
    decreases |s.states|
  {
    q := s;
    if s.states != [] {
      StatesAreInTime(s, w);
      if s.states[0].at + w.c.delay == s.now {
        q := Go(s, DeliverState, w);
        q := StatesArrive(q, w);
      }
    }
  }

  predicate SameOutput(s: Sys, q: Sys) {
    q.gateAt == s.gateAt && q.output == s.output
  }

  /** The base is commanded forward, and the gate ticks if it is due. */
  lemma GateTicks(s: Sys, w: World) returns (q: Sys)
    requires On(s, w) && s.gateAt >= GateTick(s.now - 1, w)
    ensures On(q, w) && q.gateAt >= GateTick(q.now, w)
    ensures q == s.(gate := s.gate.(command := FORWARD, commandAt := s.now), gateAt := q.gateAt, output := q.output)
    ensures if IsTick(s.now - 2 * w.c.delay) then q.gateAt == q.now && q.output == G.Tick(q.gate, q.now, q.now)
      else SameOutput(s, q)
  {
    NextTick(s.now, 2 * w.c.delay);
    q := Go(s, GateInput(G.BaseCommand(FORWARD, s.now)), w);
    if IsTick(s.now - 2 * w.c.delay) {
      q := Go(q, GateTimer(s.now), w);
    }
  }

  /** The gate's turn comes first: it has not heard yet what is due now. */
  lemma GateTurn(s: Sys, w: World) returns (q: Sys)
    requires Open(s, w)
    ensures Gated(q, w) && q.now == s.now && q.bridge == s.bridge
    ensures q == s.(gate := s.gate.(command := FORWARD, commandAt := s.now), gateAt := q.gateAt, output := q.output)
    ensures if IsTick(s.now - 2 * w.c.delay) then q.gateAt == q.now && q.output == G.Tick(q.gate, q.now, q.now)
      else SameOutput(s, q)
  {
    q := GateTicks(s, w);
    Feeding(s, q, w);
  }

  lemma ManagerTurn(s: Sys, w: World) returns (q: Sys)
    requires On(s, w) && Fed(s, w) && w.failure != ManagerDead && s.watchAt >= ManagerTick(s.now - 1, w)
    ensures On(q, w) && Fed(q, w) && q.watchAt >= ManagerTick(q.now, w) && NoneDue(q.beats, q.now, w.c.delay)
    ensures q == s.(manager := q.manager, beats := q.beats, beatSeen := q.beatSeen, states := q.states,
                    watchAt := q.watchAt)
  {
    q := BeatsArrive(s, w);
    q := ManagerTicks(q, w);
  }

  lemma BridgeTurn(s: Sys, w: World) returns (q: Sys)
    requires Open(s, w) && w.failure != BridgeDead
    ensures On(q, w) && Fed(q, w) && q.beatAt >= BridgeTick(q.now)
    ensures q == s.(bridge := q.bridge, beats := q.beats, beatAt := q.beatAt)
    ensures Listened(s, q, w)
  {
    q := s;
    if w.hears {
      q := Hear(s, w);
    }
    q := BridgeTicks(q, w);
  }

  /** The bridge remembers the heartbeat of now, if there is one. */
  predicate Listened(s: Sys, q: Sys, w: World) {
    q.bridge == s.bridge.(sequence := q.bridge.sequence,
                          received := w.hears || s.bridge.received,
                          heartbeatAt := if w.hears then q.now else s.bridge.heartbeatAt)
  }

  lemma StateTurn(s: Sys, w: World) returns (q: Sys)
    requires On(s, w) && Fed(s, w)
    ensures On(q, w) && Fed(q, w) && NoneDue(q.states, q.now, w.c.delay)
    ensures q == s.(gate := q.gate, states := q.states, seen := q.seen)
  {
    q := StatesArrive(s, w);
    Feeding(s, q, w);
  }

  /** Everything else that is due now. */
  lemma FinishRest(s: Sys, w: World) returns (q: Sys)
    requires Gated(s, w) && (w.failure == BridgeDead ==> !w.hears)
    ensures Done(q, w) && q.now == s.now && Listened(s, q, w) && SameOutput(s, q)
  {
    q := s;
    if w.failure != BridgeDead {
      q := BridgeTurn(q, w);
    }
    if w.failure != ManagerDead {
      q := ManagerTurn(q, w);
    }
    q := StateTurn(q, w);
  }

  /** Everything that is due now. */
  lemma Finish(s: Sys, w: World) returns (q: Sys)
    requires Open(s, w) && (w.failure == BridgeDead ==> !w.hears)
    ensures Done(q, w) && q.now == s.now && Listened(s, q, w)
    ensures !IsTick(s.now - 2 * w.c.delay) ==> SameOutput(s, q)
  {
    q := GateTurn(s, w);
    q := FinishRest(q, w);
  }

  lemma Advance(s: Sys, w: World) returns (q: Sys)
    requires Done(s, w)
    ensures Open(q, w) && q == s.(now := s.now + 1)
  {
    assert MayWait(s, 1, w.failure, w.c.delay);
    q := Go(s, Wait(1), w);
    Feeding(s, q, w);
  }

  lemma NoTick(now: int, phase: int, until: int)
    requires now < until && LastTick(until, phase) <= now
    ensures !IsTick(until - phase) && LastTick(until - 1, phase) <= now
  {
    NextTick(until, phase);
  }

  lemma {:induction false} Proceed(s: Sys, w: World, until: int) returns (q: Sys)
    requires Done(s, w) && until >= s.now && (w.failure == BridgeDead ==> !w.hears)
    ensures Done(q, w) && q.now == until && (until > s.now ==> Listened(s, q, w)) && (until == s.now ==> q == s)
    ensures GateTick(until, w) <= s.now ==> SameOutput(s, q)
    decreases until - s.now
  {
    q := s;
    if until > s.now {
      if GateTick(until, w) <= s.now {
        NoTick(s.now, 2 * w.c.delay, until);
      }
      q := Proceed(s, w, until - 1);
      q := Advance(q, w);
      q := Finish(q, w);
    }
  }

  // ----- the end of the course -----

  /** The last state the gate heard is NORMAL, and it is not stale. */
  predicate Passes(s: Sys, now: int) {
    s.gate.state == Normal && now - s.gate.stateAt <= G.STATE_TIMEOUT
  }

  /** While the manager lives, one delay after the end of the course the gate still passes. */
  lemma ManagedPasses(s: Sys, w: World)
    requires Done(s, w) && w.failure != ManagerDead && s.now + 1 == w.c.until + w.c.delay
    requires w.c.since.Some? && 0 < w.c.since.value <= w.c.until - PERIOD - 1
    ensures Passes(s, s.now + 1)
  {
    Recall(s, w);
    RegularIsRecent(s.states, SeenAt(s), s.watchAt, s.now, w.c.delay);
  }

  /** Without a manager, it passes until what it heard last is stale. */
  lemma UnmanagedPasses(s: Sys, w: World)
    requires Done(s, w) && w.failure == ManagerDead && s.now >= LastTold(s) + w.c.delay
    requires w.c.since.Some? && w.c.since.value < w.c.until && s.now + 1 <= LastTold(s) + w.c.delay + G.STATE_TIMEOUT
    ensures Passes(s, s.now + 1)
  {
    Recall(s, w);
  }

  lemma TicksGoOn(t: int, periods: int)
    requires IsTick(t)
    ensures IsTick(t + periods * PERIOD)
  {
  }

  lemma OneTickAPeriod(now: int, phase: int)
    requires IsTick(now - phase)
    ensures LastTick(now + PERIOD - 1, phase) == now
  {
  }

  /** The gate ticks two delays after the bridge would. */
  lemma EndIsTick(s: Sys, w: World)
    requires Fed(s, w) && w.failure != ManagerDead && (w.failure == NoFailure ==> !w.hears)
    ensures IsTick(w.c.until - w.c.delay)
  {
    if w.failure == NoFailure {
      TicksGoOn(s.bridge.heartbeatAt + w.c.timeout, 1);
    } else {
      TicksGoOn(LastBeat(s), 16);
    }
  }

  /** A tick of the gate that passes what the base is commanded. */
  lemma Drives(s: Sys, w: World) returns (q: Sys)
    requires Done(s, w) && Passes(s, s.now + 1) && IsTick(s.now + 1 - 2 * w.c.delay)
    ensures Gated(q, w) && q.now == q.gateAt == s.now + 1 && q.bridge == s.bridge
    ensures q.output.base == Some(FORWARD) && G.Tick(q.gate, q.now, q.now) == q.output
  {
    Recall(s, w);
    q := Advance(s, w);
    q := GateTurn(q, w);
  }

  /** One period later the gate is about to tick again, and has published nothing since. */
  lemma UntilNextTick(s: Sys, w: World) returns (q: Sys)
    requires Gated(s, w) && (w.failure == BridgeDead ==> !w.hears) && IsTick(s.now - 2 * w.c.delay)
    ensures On(q, w) && q.now == s.now + PERIOD && SameOutput(s, q)
  {
    OneTickAPeriod(s.now, 2 * w.c.delay);
    q := FinishRest(s, w);
    q := Proceed(q, w, s.now + PERIOD - 1);
    q := Advance(q, w);
  }
}
