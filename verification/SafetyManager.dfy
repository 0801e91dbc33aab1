/** The safety manager: its state, the steps it takes, and what every run of it keeps. */
module SafetyManager {
  import opened ControlMessages
  import opened SafetyStateMachine

  const HEARTBEAT_TIMEOUT := 750

  datatype Manager = Manager(required: bool, alive: bool, heartbeatAt: int, physical: bool, software: bool,
                             sequence: nat, fsm: Fsm)

  datatype Operation = EngageSoftwareEStop | ReleaseSoftwareEStop | Resume | ClearTheFault | UnknownOperation

  datatype Input =
    | Command(operation: Operation)
    | StopEvent
    | FaultEvent
    | UnknownEvent
    | PhysicalEStop(active: bool)
    | Heartbeat(alive: bool, now: int)
    | Timer(now: int)

  /** Each publication is the manager as it was when the message was made. */
  datatype Effect = Effect(m: Manager, published: seq<Manager>)

  function Message(m: Manager): SafetyMessage {
    SafetyMessage(m.fsm.state, m.sequence)
  }

  predicate EStopActive(m: Manager) {
    m.physical || m.software
  }

  function After(first: Effect, second: Effect): Effect {
    Effect(second.m, first.published + second.published)
  }

  /** An accepted event advances the sequence number and is published at once. */
  function Dispatch(m: Manager, e: Event): Effect {
    if !Accepts(m.fsm.state, e) then Effect(m, [])
    else
      var m' := m.(fsm := Next(m.fsm, e), sequence := m.sequence + 1);
      Effect(m', [m'])
  }

  predicate ResumeAllowed(m: Manager) {
    (m.required ==> m.alive) && !EStopActive(m)
  }

  predicate CommandAccepted(m: Manager, op: Operation) {
    match op
    case EngageSoftwareEStop => true
    case ReleaseSoftwareEStop => !m.physical
    case Resume => ResumeAllowed(m) && m.fsm.state == ControlledStop
    case ClearTheFault => !EStopActive(m) && m.fsm.state == Fault
    case UnknownOperation => false
  }

  function OnCommand(m: Manager, op: Operation): Effect {
    match op
    case EngageSoftwareEStop => Dispatch(m.(software := true), EmergencyStopEngaged)
    case ReleaseSoftwareEStop =>
      var m1 := m.(software := false);
      if !m1.physical && m1.fsm.state == EStopLatched then Dispatch(m1, EmergencyStopReleased) else Effect(m1, [])
    case Resume => if ResumeAllowed(m) then Dispatch(m, ResumeRequested) else Effect(m, [])
    case ClearTheFault => if EStopActive(m) then Effect(m, []) else Dispatch(m, ClearFault)
    case UnknownOperation => Effect(m, [])
  }

  function OnPhysicalEStop(m: Manager, active: bool): Effect {
    var m1 := m.(physical := active);
    if EStopActive(m1) then Dispatch(m1, EmergencyStopEngaged)
    else if m1.fsm.state == EStopLatched then Dispatch(m1, EmergencyStopReleased)
    else Effect(m1, [])
  }

  function OnHeartbeat(m: Manager, alive: bool, now: int): Effect {
    if alive then
      var m1 := m.(heartbeatAt := now, alive := true);
      if m1.fsm.state == Initializing then Dispatch(m1, InputsReady) else Effect(m1, [])
    else
      var d := if m.alive then Dispatch(m, LinkLost) else Effect(m, []);
      d.(m := d.m.(alive := false))
  }

  function OnTimer(m: Manager, now: int): Effect {
    var d := if m.required && m.alive && now - m.heartbeatAt > HEARTBEAT_TIMEOUT
      then Dispatch(m.(alive := false), WatchdogTimeout) else Effect(m, []);
    d.(published := d.published + [d.m])
  }

  function Step(m: Manager, input: Input): Effect {
    match input
    case Command(op) => OnCommand(m, op)
    case StopEvent => Dispatch(m, StopRequested)
    case FaultEvent => Dispatch(m, HealthFault)
    case UnknownEvent => Effect(m, [])
    case PhysicalEStop(active) => OnPhysicalEStop(m, active)
    case Heartbeat(alive, now) => OnHeartbeat(m, alive, now)
    case Timer(now) => OnTimer(m, now)
  }

  function Start(required: bool, now: int): Effect {
    var m := Manager(required, false, now, false, false, 0, INITIAL);
    var d := if required then Effect(m, []) else Dispatch(m, InputsReady);
    d.(published := d.published + [d.m])
  }

  function RunAll(start: Effect, inputs: seq<Input>): Effect
    decreases |inputs|
  {
    if inputs == [] then start
    else
      var n := |inputs| - 1;
      var before := RunAll(start, inputs[..n]);
      After(before, Step(before.m, inputs[n]))
  }

  // ----- what every step keeps -----

  /** E-Stop is latched exactly while a flag is set; a latched fault shows as FAULT or is
      kept behind an E-Stop; NORMAL needs the heartbeat wherever one is required. */
  predicate Sound(m: Manager) {
    && (m.fsm.state == EStopLatched <==> EStopActive(m))
    && (m.fsm.state == Fault ==> m.fsm.faultLatched)
    && (m.fsm.faultLatched ==> m.fsm.state == Fault || m.fsm.state == EStopLatched)
    && (m.fsm.state == Normal && m.required ==> m.alive)
  }

  /** What a NORMAL message guarantees about the moment it was sent. */
  predicate Clear(m: Manager) {
    !m.physical && !m.software && !m.fsm.faultLatched && (m.required ==> m.alive)
  }

  lemma NormalIsClear(m: Manager)
    requires Sound(m) && m.fsm.state == Normal
    ensures Clear(m)
  {
  }

  predicate SameSource(a: Manager, b: Manager) {
    Follows(Message(a), Message(b)) && a.required == b.required
  }

  /** The step keeps the invariant, publishes only states that satisfy it, and
      publishes every change of state. */
  ghost predicate GoodStep(m: Manager, e: Effect) {
    && Sound(e.m) && SameSource(m, e.m)
    && (forall p | p in e.published :: Sound(p) && SameSource(m, p) && SameSource(p, e.m))
    && (forall i, j | 0 <= i < j < |e.published| :: SameSource(e.published[i], e.published[j]))
    && (e.published == [] ==> e.m.fsm.state == m.fsm.state)
    && (e.published != [] ==> e.published[|e.published| - 1].fsm.state == e.m.fsm.state)
  }

  lemma CommandKeepsSound(m: Manager, op: Operation)
    requires Sound(m)
    ensures GoodStep(m, OnCommand(m, op))
  {
  }

  lemma PhysicalKeepsSound(m: Manager, active: bool)
    requires Sound(m)
    ensures GoodStep(m, OnPhysicalEStop(m, active))
  {
  }

  lemma HeartbeatKeepsSound(m: Manager, alive: bool, now: int)
    requires Sound(m)
    ensures GoodStep(m, OnHeartbeat(m, alive, now))
  {
  }

  lemma TimerKeepsSound(m: Manager, now: int)
    requires Sound(m)
    ensures GoodStep(m, OnTimer(m, now))
  {
  }

  lemma StepKeepsSound(m: Manager, input: Input)
    requires Sound(m)
    ensures GoodStep(m, Step(m, input))
  {
    match input {
      case Command(op) => CommandKeepsSound(m, op);
      case PhysicalEStop(active) => PhysicalKeepsSound(m, active);
      case Heartbeat(alive, now) => HeartbeatKeepsSound(m, alive, now);
      case Timer(now) => TimerKeepsSound(m, now);
      case _ =>
    }
  }

  /** Only an operator's RESUME reaches NORMAL, and only while the guards hold. */
  lemma NormalNeedsResume(m: Manager, input: Input)
    requires m.fsm.state != Normal && Step(m, input).m.fsm.state == Normal
    ensures input == Command(Resume) && CommandAccepted(m, Resume) && ResumeAllowed(m)
  {
  }

  lemma ResumePublishes(m: Manager, op: Operation, p: Manager)
    requires m.fsm.state != Normal && p in OnCommand(m, op).published && p.fsm.state == Normal
    ensures op == Resume && CommandAccepted(m, Resume)
  {
  }

  /** Nor does anything else publish NORMAL out of another state. */
  lemma NormalIsPublishedByResume(m: Manager, input: Input, p: Manager)
    requires m.fsm.state != Normal && p in Step(m, input).published && p.fsm.state == Normal
    ensures input == Command(Resume) && CommandAccepted(m, Resume)
  {
    if input.Command? {
      ResumePublishes(m, input.operation, p);
    }
  }

  /** The verdict returned to the caller is the one the guards and the table give. */
  lemma AcceptedMeans(m: Manager, op: Operation)
    requires Sound(m)
    ensures CommandAccepted(m, op) <==>
      (match op
       case EngageSoftwareEStop => OnCommand(m, op).m.fsm.state == EStopLatched
       case ReleaseSoftwareEStop => !EStopActive(OnCommand(m, op).m)
       case Resume => OnCommand(m, op).m.fsm.state == Normal && m.fsm.state != Normal
       case ClearTheFault => m.fsm.faultLatched && !OnCommand(m, op).m.fsm.faultLatched
       case UnknownOperation => false)
  {
  }

  // ----- what stops it -----

  /** What takes the manager out of NORMAL: a stop request, a fault, an E-Stop of either kind,
      the loss of a heartbeat that was alive, and more than 750 ms without one where it is
      required. */
  predicate Stops(m: Manager, input: Input) {
    match input
    case Command(op) => op == EngageSoftwareEStop
    case StopEvent => true
    case FaultEvent => true
    case UnknownEvent => false
    case PhysicalEStop(active) => active || m.software
    case Heartbeat(alive, _) => !alive && m.alive
    case Timer(now) => m.required && m.alive && now - m.heartbeatAt > 750
  }

  /** A stop is published at once as a CONTROLLED_STOP; where motion is not permitted anyway,
      the state stays as it is. */
  predicate StopsMotion(m: Manager, e: Effect) {
    && e.m.fsm == m.fsm.(state := if m.fsm.state == Normal then ControlledStop else m.fsm.state)
    && (m.fsm.state == Normal ==> e.published != [] && e.published[0].fsm.state == ControlledStop)
  }

  /** An emergency stop is latched in every state, and published at once; a fault that was
      shown before is kept behind it. */
  predicate LatchesEStop(m: Manager, e: Effect) {
    && e.m.fsm.state == EStopLatched && e.published == [e.m]
    && (e.m.fsm.faultLatched <==> m.fsm.faultLatched || m.fsm.state == Fault)
  }

  /** What each of them does, from every state. */
  lemma StopsTakeEffect(m: Manager, input: Input)
    requires Stops(m, input)
    ensures var e := Step(m, input);
      && e.m.fsm.state != Normal && (forall p | p in e.published :: p.fsm.state != Normal)
      && match input
         case FaultEvent =>
           && e.m.fsm == Fsm(if m.fsm.state == EStopLatched then EStopLatched else Fault, true)
           && e.published == [e.m]
         case PhysicalEStop(active) => LatchesEStop(m, e) && e.m.physical == active
         case Command(_) => LatchesEStop(m, e) && e.m.software
         case _ => StopsMotion(m, e) && (input != StopEvent ==> !e.m.alive)
  {
  }

  /** Nothing else does. */
  lemma LeavesNormalIff(m: Manager, input: Input)
    requires Sound(m) && m.fsm.state == Normal
    ensures Step(m, input).m.fsm.state != Normal <==> Stops(m, input)
  {
    if Stops(m, input) {
      StopsTakeEffect(m, input);
    }
  }

  // ----- what starts it -----

  /** Motion is permitted again exactly by a RESUME in CONTROLLED_STOP with both E-Stop flags
      clear and, where one is required, the heartbeat alive; it is accepted exactly then. */
  lemma ResumeIff(m: Manager)
    requires Sound(m) && m.fsm.state != Normal
    ensures var ready := m.fsm.state == ControlledStop && !m.physical && !m.software && (m.required ==> m.alive);
      && (CommandAccepted(m, Resume) <==> ready)
      && (OnCommand(m, Resume).m.fsm.state == Normal <==> ready)
      && (!ready ==> OnCommand(m, Resume) == Effect(m, []))
  {
  }

  /** Where both flags are clear after it, a release ends the E-Stop, in FAULT if one was
      reported and in CONTROLLED_STOP otherwise; while a flag is left, nothing ends it. */
  lemma ReleaseEndsEStop(m: Manager, input: Input)
    requires Sound(m) && input in {Command(ReleaseSoftwareEStop), PhysicalEStop(false)}
    ensures var e := Step(m, input);
      && e.m.software == (m.software && input.PhysicalEStop?) && e.m.physical == (m.physical && input.Command?)
      && e.m.fsm == m.fsm.(state := if m.fsm.state != EStopLatched || e.m.software || e.m.physical then m.fsm.state
                                    else if m.fsm.faultLatched then Fault else ControlledStop)
      && (input.Command? ==> (CommandAccepted(m, ReleaseSoftwareEStop) <==> !m.physical))
  {
  }

  /** A fault is cleared exactly where it shows, into CONTROLLED_STOP. */
  lemma ClearIs(m: Manager)
    requires Sound(m)
    ensures CommandAccepted(m, ClearTheFault) <==> m.fsm.state == Fault
    ensures OnCommand(m, ClearTheFault).m.fsm == if m.fsm.state == Fault then Fsm(ControlledStop, false) else m.fsm
  {
  }

  /** A live heartbeat is noted, and ends the initialisation but nothing else; without one the
      manager is started into CONTROLLED_STOP only where none is required. */
  lemma BeatIsNoted(m: Manager, now: int)
    ensures var e := Step(m, Heartbeat(true, now));
      && e.m.alive && e.m.heartbeatAt == now
      && e.m.fsm == m.fsm.(state := if m.fsm.state == Initializing then ControlledStop else m.fsm.state)
    ensures Start(m.required, now).m.fsm == Fsm(if m.required then Initializing else ControlledStop, false)
  {
  }

  /** What a step does not concern stays as it was. */
  predicate KeepsInputs(m: Manager, input: Input, m': Manager) {
    && m'.required == m.required
    && (!input.PhysicalEStop? ==> m'.physical == m.physical)
    && (input !in {Command(EngageSoftwareEStop), Command(ReleaseSoftwareEStop)} ==> m'.software == m.software)
    && (!(input.Heartbeat? && input.alive) ==> m'.heartbeatAt == m.heartbeatAt)
    && (!input.Heartbeat? && !(input.Timer? && Stops(m, input)) ==> m'.alive == m.alive)
  }

  /** At most one event is published, under the next number; a tick publishes in any case. */
  predicate Counts(m: Manager, input: Input, e: Effect) {
    var events := if input.Timer? then |e.published| - 1 else |e.published|;
    && 0 <= events <= 1 && e.m.sequence == m.sequence + events
    && (input.Timer? || events == 1 ==> Message(e.published[|e.published| - 1]) == Message(e.m))
    && forall p | p in e.published :: p.physical == e.m.physical && p.software == e.m.software
  }

  lemma PhysicalCounts(m: Manager, active: bool)
    ensures Counts(m, PhysicalEStop(active), OnPhysicalEStop(m, active))
    ensures KeepsInputs(m, PhysicalEStop(active), OnPhysicalEStop(m, active).m)
  {
  }

  lemma HeartbeatCounts(m: Manager, alive: bool, now: int)
    ensures Counts(m, Heartbeat(alive, now), OnHeartbeat(m, alive, now))
    ensures KeepsInputs(m, Heartbeat(alive, now), OnHeartbeat(m, alive, now).m)
  {
  }

  lemma CommandCounts(m: Manager, op: Operation)
    ensures Counts(m, Command(op), OnCommand(m, op)) && KeepsInputs(m, Command(op), OnCommand(m, op).m)
  {
  }

  lemma TimerCounts(m: Manager, now: int)
    ensures Counts(m, Timer(now), OnTimer(m, now)) && KeepsInputs(m, Timer(now), OnTimer(m, now).m)
  {
  }

  /** Every publication of an event has the next sequence number; a tick repeats the last one. */
  lemma EventsAreCounted(m: Manager, input: Input)
    ensures Counts(m, input, Step(m, input)) && KeepsInputs(m, input, Step(m, input).m)
  {
    match input {
      case Command(op) => CommandCounts(m, op);
      case PhysicalEStop(active) => PhysicalCounts(m, active);
      case Heartbeat(alive, now) => HeartbeatCounts(m, alive, now);
      case Timer(now) => TimerCounts(m, now);
      case _ =>
    }
  }

  /** Unknown commands and events do nothing. */
  lemma UnknownIsIgnored(m: Manager)
    ensures Step(m, UnknownEvent) == Effect(m, []) && Step(m, Command(UnknownOperation)) == Effect(m, [])
    ensures !CommandAccepted(m, UnknownOperation) && CommandAccepted(m, EngageSoftwareEStop)
  {
  }

  // ----- every run -----

  ghost predicate SoundStream(out: seq<Manager>) {
    && (forall p | p in out :: Sound(p))
    && (forall i, j | 0 <= i < j < |out| :: SameSource(out[i], out[j]))
  }

  ghost predicate SoundRun(e: Effect) {
    && Sound(e.m) && SoundStream(e.published)
    && e.published != [] && e.published[|e.published| - 1].fsm.state == e.m.fsm.state
    && forall p | p in e.published :: SameSource(p, e.m)
  }

  lemma StreamGrows(out: seq<Manager>, m: Manager, more: seq<Manager>)
    requires SoundStream(out) && SoundStream(more) && forall p | p in out :: SameSource(p, m)
    requires forall p | p in more :: SameSource(m, p)
    ensures SoundStream(out + more)
  {
    var all := out + more;
    forall i, j | 0 <= i < j < |all| ensures SameSource(all[i], all[j]) {
      if i < |out| <= j {
        assert all[i] in out && all[j] in more;
        assert SameSource(all[i], m) && SameSource(m, all[j]);
      }
    }
  }

  lemma StepKeepsSoundRun(before: Effect, input: Input)
    requires SoundRun(before)
    ensures SoundRun(After(before, Step(before.m, input)))
  {
    var e := Step(before.m, input);
    StepKeepsSound(before.m, input);
    StreamGrows(before.published, before.m, e.published);
    var all := before.published + e.published;
    forall p | p in all ensures SameSource(p, e.m) {
      if p in before.published {
        assert SameSource(p, before.m);
      }
    }
  }

  /** In every run: E-Stop latched exactly while a flag is set, every message sound when
      it was sent, and any two messages with one sequence number naming one state, so
      that receivers see a stream in which each message `Follows` the earlier ones. */
  lemma {:induction false} RunsAreSound(required: bool, now: int, inputs: seq<Input>)
    ensures SoundRun(RunAll(Start(required, now), inputs))
    decreases |inputs|
  {
    if inputs != [] {
      var n := |inputs| - 1;
      RunsAreSound(required, now, inputs[..n]);
      StepKeepsSoundRun(RunAll(Start(required, now), inputs[..n]), inputs[n]);
    }
  }

  /** Every NORMAL message was sent with both E-Stop flags clear, no fault latched and,
      where one is required, the heartbeat alive. */
  lemma NormalMessagesAreClear(required: bool, now: int, inputs: seq<Input>, p: Manager)
    requires p in RunAll(Start(required, now), inputs).published && p.fsm.state == Normal
    ensures Clear(p)
  {
    RunsAreSound(required, now, inputs);
    NormalIsClear(p);
  }

  lemma FaultSurvivesCommand(m: Manager, op: Operation)
    requires m.fsm.faultLatched && op != ClearTheFault
    ensures OnCommand(m, op).m.fsm.faultLatched
    ensures forall p | p in OnCommand(m, op).published :: p.fsm.faultLatched
  {
  }

  lemma FaultSurvivesStep(m: Manager, input: Input)
    requires m.fsm.faultLatched && input != Command(ClearTheFault)
    ensures Step(m, input).m.fsm.faultLatched
    ensures forall p | p in Step(m, input).published :: p.fsm.faultLatched
  {
    if input.Command? {
      FaultSurvivesCommand(m, input.operation);
    }
  }

  /** A fault outlives any number of E-Stop cycles, resumes and link losses: without an
      explicit clear it stays latched and nothing published meanwhile is NORMAL. */
  lemma {:induction false} FaultSurvives(start: Effect, inputs: seq<Input>)
    requires SoundRun(start) && start.m.fsm.faultLatched
    requires forall i | 0 <= i < |inputs| :: inputs[i] != Command(ClearTheFault)
    ensures var e := RunAll(start, inputs);
      && SoundRun(e) && e.m.fsm.faultLatched
      && |start.published| <= |e.published|
      && forall k | |start.published| <= k < |e.published| :: e.published[k].fsm.state in {Fault, EStopLatched}
    decreases |inputs|
  {
    if inputs != [] {
      var n := |inputs| - 1;
      FaultSurvives(start, inputs[..n]);
      var before := RunAll(start, inputs[..n]);
      StepKeepsSoundRun(before, inputs[n]);
      FaultSurvivesStep(before.m, inputs[n]);
      StepKeepsSound(before.m, inputs[n]);
      var e := Step(before.m, inputs[n]);
      forall k | |start.published| <= k < |before.published + e.published|
        ensures (before.published + e.published)[k].fsm.state in {Fault, EStopLatched} {
        if k >= |before.published| {
          assert (before.published + e.published)[k] in e.published;
        }
      }
    }
  }
}
