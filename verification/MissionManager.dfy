/** The mission manager node: its state and, for every message, service call,
    action callback and timer tick, the state that results and what is noted in
    the trace. The object that implements these steps is in MissionNode. */
module MissionManager {
  import opened Wrappers
  import opened ControlMessages
  import opened MissionStateMachine

  // ----- messages -----

  /** `finite` is the verdict of the finiteness and orientation check. */
  datatype Pose = Pose(frame: string, x: real, y: real, heading: real, finite: bool)

  datatype Waypoint = Waypoint(id: string, pose: Pose, operation: nat, capabilities: seq<string>)

  datatype Plan = Plan(missionId: string, mapId: string, waypoints: seq<Waypoint>, returnToDock: bool,
                       hasDock: bool, dock: Waypoint, capabilities: seq<string>)

  datatype Operation = Start | Pause | Resume | Stop | Reset | UnknownOperation

  const NAVIGATE_ONLY: nat := 0
  const NAVIGATION := "navigation"
  const NO_POSE := Pose("", 0.0, 0.0, 0.0, false)
  const NO_PLAN := Plan("", "", [], false, false, Waypoint("", NO_POSE, NAVIGATE_ONLY, []), [])

  // ----- state -----

  datatype Goal = ToWaypoint(index: nat) | ToDock

  datatype GoalPhase = NoGoal | Active | Succeeded | GoalFailed

  /** The action client side: `active` is the goal the behaviour tree is ticking. */
  datatype Nav = Nav(phase: GoalPhase, generation: nat, handle: Option<nat>, unsendable: bool, active: Option<Goal>)

  datatype PendingStart = PendingStart(requested: bool, generation: nat, sequence: Option<nat>)

  datatype Inputs = Inputs(safety: Option<SafetyMessage>, authority: Option<Authority>, odometryAt: Option<int>,
                           commandAt: Option<int>, commandZero: bool, stoppedAt: Option<int>, baseStopped: bool)

  datatype Mission = Mission(fsm: Fsm, plan: Option<Plan>, index: nat, start: PendingStart, inputs: Inputs, nav: Nav,
                             operation: Option<nat>, askedAt: Option<int>, capabilities: set<string>, mapFrame: string)

  function InitialMission(capabilities: set<string>, mapFrame: string): Mission {
    Mission(INITIAL, None, 0, PendingStart(false, 0, None), Inputs(None, None, None, None, true, None, false),
            Nav(NoGoal, 0, None, false, None), None, None, capabilities, mapFrame)
  }

  // ----- trace -----

  /** What the trace records. `Moved` is an accepted transition; `Answered` and
      `Finished` are action callbacks as they arrive. */
  datatype Entry =
    | Configured(plan: Plan)
    | StartAccepted(accepted: Plan, start: nat)
    | StartCancelled
    | Asked(start: nat)
    | Moved(from: State, event: Event, to: State)
    | GoalSent(generation: nat, goal: Goal, pose: Pose)
    | Answered(generation: nat, taken: bool)
    | Finished(generation: nat, succeeded: bool)
    | Visited(goal: Goal, generation: nat)
    | Heard(message: SafetyMessage)

  datatype Effect = Effect(m: Mission, entries: seq<Entry>)

  // ----- plan validation -----

  predicate HasAll(capabilities: set<string>, required: seq<string>) {
    forall c | c in required :: c in capabilities
  }

  /** Only the navigation executor is registered, and it needs its capability. */
  predicate ValidOperation(operation: nat, capabilities: set<string>) {
    operation == NAVIGATE_ONLY && NAVIGATION in capabilities
  }

  predicate ValidWaypoint(w: Waypoint, capabilities: set<string>) {
    w.id != "" && w.pose.finite && ValidOperation(w.operation, capabilities) && HasAll(capabilities, w.capabilities)
  }

  predicate ValidDock(p: Plan, capabilities: set<string>) {
    p.hasDock && p.dock.pose.finite && ValidOperation(p.dock.operation, capabilities)
      && HasAll(capabilities, p.dock.capabilities)
  }

  predicate ValidPlan(p: Plan, capabilities: set<string>) {
    && p.missionId != "" && p.mapId != "" && p.waypoints != []
    && HasAll(capabilities, p.capabilities)
    && (forall i | 0 <= i < |p.waypoints| :: ValidWaypoint(p.waypoints[i], capabilities))
    && (forall i, j | 0 <= i < j < |p.waypoints| :: p.waypoints[i].id != p.waypoints[j].id)
    && (p.returnToDock ==> ValidDock(p, capabilities))
  }

  function Framed(w: Waypoint, frame: string): Waypoint {
    if w.pose.frame == "" then w.(pose := w.pose.(frame := frame)) else w
  }

  /** The snapshot kept: poses without a frame get the map frame. */
  function Adopted(p: Plan, frame: string): Plan {
    p.(waypoints := seq(|p.waypoints|, i requires 0 <= i < |p.waypoints| => Framed(p.waypoints[i], frame)),
       dock := if p.hasDock then Framed(p.dock, frame) else p.dock)
  }

  function PoseFor(p: Plan, g: Goal): Pose {
    match g
    case ToDock => p.dock.pose
    case ToWaypoint(i) => if i < |p.waypoints| then p.waypoints[i].pose else NO_POSE
  }

  // ----- guards -----

  predicate Age(at: Option<int>, now: int, limit: int) {
    at.Some? && now - at.value <= limit
  }

  predicate DependenciesReady(i: Inputs, now: int) {
    && i.safety.Some? && i.safety.value.state == Normal
    && i.authority == Some(BaseActive)
    && Age(i.odometryAt, now, 1000)
  }

  predicate Quiesced(m: Mission, now: int) {
    && m.nav.phase != Active && m.nav.handle == None
    && Age(m.inputs.commandAt, now, 250) && m.inputs.commandZero
    && Age(m.inputs.stoppedAt, now, 500) && m.inputs.baseStopped
  }

  predicate Replaceable(s: State) {
    s == Idle || s == Ready || s == Completed || s == Failed
  }

  // ----- helpers shared by the handlers -----

  function ClearStart(m: Mission): Mission {
    m.(start := m.start.(requested := false, sequence := None), askedAt := None)
  }

  function CancelNavigation(n: Nav): Nav {
    n.(generation := n.generation + 1, handle := None, phase := NoGoal)
  }

  /** The tree's halt: cancels only if a goal is being ticked. */
  function HaltTree(n: Nav): Nav {
    if n.active.Some? then CancelNavigation(n).(active := None) else n
  }

  function Halted(m: Mission): Mission {
    m.(nav := if m.operation == Some(NAVIGATE_ONLY) then HaltTree(m.nav) else m.nav, operation := None)
  }

  /** An event is put to the state machine; an accepted one has its side effects. */
  function Dispatch(m: Mission, e: Event): Effect {
    if !Accepts(m.fsm.state, e) then Effect(m, [])
    else
      var m1 := m.(fsm := Next(m.fsm, e));
      var m2 := if m1.fsm.state == Pausing then Halted(m1) else m1;
      var m3 := if e == StartRequested then m2.(index := 0) else m2;
      var m4 := if m3.fsm.state == Idle then ClearStart(m3.(plan := None, index := 0)) else m3;
      Effect(m4, [Moved(m.fsm.state, e, m1.fsm.state)])
  }

  function AskDependencies(m: Mission, now: int, safetyReady: bool): Effect {
    if m.askedAt.Some? && now - m.askedAt.value < 500 then Effect(m, [])
    else Effect(m.(askedAt := Some(now)), if safetyReady then [Asked(m.start.generation)] else [])
  }

  /** A pending start is withdrawn; without one nothing happens. */
  function CancelStart(m: Mission): Effect {
    if m.start.requested && m.fsm.state == Ready then Effect(ClearStart(m), [StartCancelled])
    else Effect(m, [])
  }

  function After(first: Effect, second: Effect): Effect {
    Effect(second.m, first.entries + second.entries)
  }

  // ----- service handlers -----

  predicate ConfigureAccepted(m: Mission, p: Plan) {
    Replaceable(m.fsm.state) && ValidPlan(p, m.capabilities)
  }

  /** A valid plan replaces the one held, if any, and always withdraws a start. */
  function Configure(m: Mission, p: Plan): Effect {
    if !ConfigureAccepted(m, p) then Effect(m, [])
    else
      var plan := Adopted(p, m.mapFrame);
      Effect(ClearStart(m).(fsm := m.fsm.(state := Ready, returnToDock := plan.returnToDock),
                            plan := Some(plan), index := 0),
             [Configured(plan)])
  }

  predicate Mismatched(m: Mission, missionId: string) {
    missionId != "" && m.plan.Some? && missionId != m.plan.value.missionId
  }

  function ControlEvent(m: Mission, operation: Operation): Event
    requires operation != Start && operation != UnknownOperation
  {
    match operation
    case Pause => PauseRequested
    case Resume => ResumeRequested
    case Stop => if m.fsm.state == Completed || m.fsm.state == Failed then ResetRequested else StopRequested
    case Reset => ResetRequested
  }

  predicate ControlAccepted(m: Mission, missionId: string, operation: Operation) {
    && !Mismatched(m, missionId)
    && operation != UnknownOperation
    && if operation == Start then m.plan.Some? && m.fsm.state == Ready
       else Accepts(m.fsm.state, ControlEvent(m, operation))
  }

  function StartPending(m: Mission): Mission {
    m.(start := PendingStart(true, m.start.generation + 1,
                             if m.inputs.safety.Some? then Some(m.inputs.safety.value.sequence) else None))
  }

  function Control(m: Mission, missionId: string, operation: Operation, now: int, safetyReady: bool): Effect {
    if !ControlAccepted(m, missionId, operation) then Effect(m, [])
    else if operation == Start then
      var m1 := StartPending(m);
      After(Effect(m1, [StartAccepted(m.plan.value, m1.start.generation)]), AskDependencies(m1, now, safetyReady))
    else
      var d := Dispatch(m, ControlEvent(m, operation));
      if operation == Resume then After(d, AskDependencies(d.m, now, safetyReady)) else d
  }

  // ----- subscriptions -----

  function OnSafety(m: Mission, msg: SafetyMessage): Effect {
    var changed := m.start.sequence.Some? && msg.sequence != m.start.sequence.value;
    var m1 := m.(inputs := m.inputs.(safety := Some(msg)));
    var heard := Effect(m1, [Heard(msg)]);
    if m.fsm.state == Ready && m.start.requested then
      if msg.state == EStopLatched || msg.state == Fault || (changed && msg.state != Normal) then
        After(heard, CancelStart(m1))
      else if m.start.sequence == None then
        Effect(m1.(start := m1.start.(sequence := Some(msg.sequence))), [Heard(msg)])
      else heard
    else if msg.state != Normal && (IsMoving(m.fsm.state) || m.fsm.state == Recovering) then
      After(heard, Dispatch(m1, SafetyStop))
    else heard
  }

  /** The answer to a resume request that was sent for start generation `g`. */
  function OnResumeAnswer(m: Mission, g: nat, accepted: bool, state: SafetyState): Effect {
    if !accepted && state != Normal && m.start.requested && g == m.start.generation then CancelStart(m)
    else Effect(m, [])
  }

  function OnGoalAnswer(m: Mission, g: nat, taken: bool): Effect {
    var n :=
      if g != m.nav.generation then m.nav
      else if !taken then m.nav.(unsendable := true, phase := GoalFailed)
      else m.nav.(handle := Some(g));
    Effect(m.(nav := n), [Answered(g, taken)])
  }

  function OnGoalResult(m: Mission, g: nat, succeeded: bool): Effect {
    var n :=
      if g != m.nav.generation then m.nav
      else m.nav.(handle := None, phase := if succeeded then Succeeded else GoalFailed);
    Effect(m.(nav := n), [Finished(g, succeeded)])
  }

  // ----- the timer -----

  datatype TreeStatus = TreeRunning | TreeSuccess | TreeFailure

  datatype Ticked = Ticked(status: TreeStatus, nav: Nav, entries: seq<Entry>)

  /** `navigate_to`: report and consume an outcome, or send the goal. */
  function Navigate(n: Nav, goal: Goal, pose: Option<Pose>, serverReady: bool): Ticked {
    match n.phase
    case Active => Ticked(TreeRunning, n, [])
    case Succeeded => Ticked(TreeSuccess, n.(phase := NoGoal), [Visited(goal, n.generation)])
    case GoalFailed => Ticked(TreeFailure, n.(phase := NoGoal), [])
    case NoGoal =>
      if pose == None || !serverReady then Ticked(TreeFailure, n.(unsendable := true), [])
      else Ticked(TreeRunning, n.(generation := n.generation + 1, phase := Active),
                  [GoalSent(n.generation + 1, goal, pose.value)])
  }

  /** The one-goal behaviour tree around it. */
  function TickTree(n: Nav, goal: Goal, pose: Option<Pose>, serverReady: bool): Ticked {
    if n.active.Some? && n.active.value != goal then Ticked(TreeFailure, n, [])
    else
      var t := Navigate(n, goal, pose, serverReady);
      t.(nav := t.nav.(active := if t.status == TreeRunning then Some(goal) else None))
  }

  function GoalPose(m: Mission, goal: Goal): Option<Pose>
    requires m.plan.Some?
  {
    var p := m.plan.value;
    if goal == ToDock then (if p.hasDock then Some(p.dock.pose) else None)
    else if m.index < |p.waypoints| then Some(p.waypoints[m.index].pose)
    else None
  }

  function CurrentGoal(m: Mission): Goal {
    if m.fsm.state == Returning then ToDock else ToWaypoint(m.index)
  }

  /** A tick while the mission is moving. */
  function TickMoving(m: Mission, serverReady: bool): Effect
    requires m.plan.Some?
  {
    var p := m.plan.value;
    var returning := m.fsm.state == Returning;
    if !returning && m.index >= |p.waypoints| then Dispatch(m, InspectionComplete)
    else
      var goal := CurrentGoal(m);
      var operation := if returning then p.dock.operation else p.waypoints[m.index].operation;
      if operation != NAVIGATE_ONLY then Dispatch(m, FatalStepFailure)
      else
        var t := TickTree(m.nav, goal, GoalPose(m, goal), serverReady);
        var m1 := m.(operation := Some(operation), nav := t.nav);
        match t.status
        case TreeRunning => Effect(m1, t.entries)
        case TreeFailure =>
          var event := if t.nav.unsendable then PauseRequested else FatalStepFailure;
          After(Effect(m1, t.entries), Dispatch(m1.(nav := m1.nav.(unsendable := false)), event))
        case TreeSuccess =>
          var m2 := m1.(operation := None);
          if returning then After(Effect(m2, t.entries), Dispatch(m2, ReturnComplete))
          else
            var m3 := m2.(index := m2.index + 1);
            if m3.index >= |p.waypoints| then After(Effect(m3, t.entries), Dispatch(m3, InspectionComplete))
            else Effect(m3, t.entries)
  }

  function Tick(m: Mission, now: int, serverReady: bool, safetyReady: bool): Effect {
    if m.fsm.state == Ready && m.start.requested then
      if DependenciesReady(m.inputs, now) then Dispatch(ClearStart(m), StartRequested)
      else AskDependencies(m, now, safetyReady)
    else if m.fsm.state == Pausing then
      if Quiesced(m, now) then Dispatch(m, MotionQuiesced) else Effect(m, [])
    else if m.fsm.state == Recovering then
      if DependenciesReady(m.inputs, now) then Dispatch(m, RecoveryReady)
      else AskDependencies(m, now, safetyReady)
    else if IsMoving(m.fsm.state) && m.plan.Some? then TickMoving(m, serverReady)
    else Effect(m, [])
  }

  // ----- one step of the node -----

  datatype Input =
    | ConfigureCall(plan: Plan)
    | ControlCall(missionId: string, operation: Operation, now: int, safetyReady: bool)
    | SafetyInput(message: SafetyMessage)
    | AuthorityInput(authority: Authority)
    | OdometryInput(now: int)
    | CommandInput(zero: bool, now: int)
    | StoppedInput(base: bool, stopped: bool, now: int)
    | ResumeAnswer(start: nat, accepted: bool, state: SafetyState)
    | GoalAnswer(generation: nat, taken: bool)
    | GoalResult(generation: nat, succeeded: bool)
    | Timer(now: int, serverReady: bool, safetyReady: bool)

  function Step(m: Mission, input: Input): Effect {
    match input
    case ConfigureCall(p) => Configure(m, p)
    case ControlCall(id, op, now, ready) => Control(m, id, op, now, ready)
    case SafetyInput(msg) => OnSafety(m, msg)
    case AuthorityInput(a) => Effect(m.(inputs := m.inputs.(authority := Some(a))), [])
    case OdometryInput(now) => Effect(m.(inputs := m.inputs.(odometryAt := Some(now))), [])
    case CommandInput(zero, now) =>
      Effect(m.(inputs := m.inputs.(commandAt := Some(now), commandZero := zero)), [])
    case StoppedInput(base, stopped, now) =>
      if base then Effect(m.(inputs := m.inputs.(stoppedAt := Some(now), baseStopped := stopped)), [])
      else Effect(m, [])
    case ResumeAnswer(g, accepted, state) => OnResumeAnswer(m, g, accepted, state)
    case GoalAnswer(g, taken) => OnGoalAnswer(m, g, taken)
    case GoalResult(g, succeeded) => OnGoalResult(m, g, succeeded)
    case Timer(now, serverReady, safetyReady) => Tick(m, now, serverReady, safetyReady)
  }

  // ----- runs -----

  datatype Run = Run(m: Mission, log: seq<Entry>)

  function StepRun(r: Run, input: Input): Run {
    var e := Step(r.m, input);
    Run(e.m, r.log + e.entries)
  }

  /** What the node's environment guarantees. The action client answers each goal
      sent at most once, and finishes at most once a goal that was taken; safety
      messages arrive in the order they were sent, and one sequence number is
      one safety state. */
  ghost predicate Allowed(r: Run, input: Input) {
    match input
    case GoalAnswer(g, _) =>
      && WasSent(r.log, g)
      && (forall taken :: Answered(g, taken) !in r.log)
      && (forall ok :: Finished(g, ok) !in r.log)
    case GoalResult(g, _) => Answered(g, true) in r.log && forall ok :: Finished(g, ok) !in r.log
    case SafetyInput(msg) => r.m.inputs.safety.Some? ==> Follows(r.m.inputs.safety.value, msg)
    case _ => true
  }

  ghost predicate WasSent(log: seq<Entry>, g: nat) {
    exists goal, pose :: GoalSent(g, goal, pose) in log
  }

  ghost predicate Reachable(r: Run, inputs: seq<Input>, capabilities: set<string>, mapFrame: string)
    decreases |inputs|
  {
    if inputs == [] then r == Run(InitialMission(capabilities, mapFrame), [])
    else
      var n := |inputs| - 1;
      exists before: Run ::
        && Reachable(before, inputs[..n], capabilities, mapFrame)
        && Allowed(before, inputs[n])
        && r == StepRun(before, inputs[n])
  }
}
