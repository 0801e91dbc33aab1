/** What calls, messages and ticks come to, told by the fields of the mission manager. */
module MissionHandlers {
  import opened Wrappers
  import opened ControlMessages
  import opened MissionStateMachine
  import opened MissionManager
  import opened MissionInvariants

  // ----- plans -----

  predicate Available(asked: seq<string>, capabilities: set<string>) {
    forall i | 0 <= i < |asked| :: asked[i] in capabilities
  }

  /** Only driving to a pose is an operation here, and the robot must be capable of it. */
  predicate Drivable(w: Waypoint, capabilities: set<string>) {
    w.pose.finite && w.operation == 0 && "navigation" in capabilities && Available(w.capabilities, capabilities)
  }

  /** A plan is taken exactly if no mission is under way, it is complete, no two waypoints share
      an id, and the robot can do all of it, the dock included where it is to return there. */
  lemma PlanIsTakenIff(m: Mission, p: Plan)
    ensures ConfigureAccepted(m, p) <==>
      && m.fsm.state in {Idle, Ready, Completed, Failed}
      && p.missionId != "" && p.mapId != "" && |p.waypoints| > 0
      && Available(p.capabilities, m.capabilities)
      && (forall i | 0 <= i < |p.waypoints| :: p.waypoints[i].id != "" && Drivable(p.waypoints[i], m.capabilities))
      && (forall i, j | 0 <= i < j < |p.waypoints| :: p.waypoints[i].id != p.waypoints[j].id)
      && (p.returnToDock ==> p.hasDock && Drivable(p.dock, m.capabilities))
    ensures !ConfigureAccepted(m, p) ==> Configure(m, p) == Effect(m, [])
  {
    forall asked: seq<string> ensures HasAll(m.capabilities, asked) <==> Available(asked, m.capabilities) {
      assert forall i | 0 <= i < |asked| :: asked[i] in asked;
    }
  }

  /** The same place, in the frame of the map if it names none. */
  predicate Placed(w: Waypoint, w': Waypoint, mapFrame: string) {
    w' == w.(pose := w'.pose)
    && w'.pose == w.pose.(frame := if w.pose.frame == "" then mapFrame else w.pose.frame)
  }

  /** The plan kept is the plan sent, with every pose in a frame; whatever was pending or
      under way before is forgotten, and the mission is ready at its first waypoint. */
  lemma PlanIsKept(m: Mission, p: Plan)
    requires ConfigureAccepted(m, p)
    ensures var e := Configure(m, p);
      && e.m.plan.Some? && e.entries == [Configured(e.m.plan.value)]
      && var q := e.m.plan.value;
      && q == p.(waypoints := q.waypoints, dock := q.dock) && |q.waypoints| == |p.waypoints|
      && (forall i | 0 <= i < |p.waypoints| :: Placed(p.waypoints[i], q.waypoints[i], m.mapFrame))
      && (if p.hasDock then Placed(p.dock, q.dock, m.mapFrame) else q.dock == p.dock)
      && e.m == m.(plan := Some(q), index := 0, start := m.start.(requested := false, sequence := None),
                   askedAt := None, fsm := m.fsm.(state := Ready, returnToDock := p.returnToDock))
  {
  }

  // ----- orders -----

  /** An order is taken exactly if it names this mission or none and suits the state. */
  lemma OrderIsTakenIff(m: Mission, id: string, op: Operation)
    requires Core(m)
    ensures ControlAccepted(m, id, op) <==>
      && (id == "" || m.plan == None || id == m.plan.value.missionId)
      && match op
         case Start => m.fsm.state == Ready
         case Pause => m.fsm.state in {Running, Returning, Pausing, Paused}
         case Resume => m.fsm.state == Paused
         case Stop => true
         case Reset => m.fsm.state in {Completed, Failed}
         case UnknownOperation => false
  {
  }

  /** Nothing is being driven to, and what may still be answered is out of date. */
  predicate GoalDropped(m: Mission, m': Mission) {
    && m'.operation == None && m'.nav.active == None
    && (m.nav.active.Some? ==> m'.nav == Nav(NoGoal, m.nav.generation + 1, None, m.nav.unsendable, None))
    && (m.nav.active == None ==> m'.nav == m.nav)
  }

  /** Motion is halted, to end in `target`; the phase halted is remembered and all else kept. */
  predicate HaltedFor(m: Mission, m': Mission, target: State) {
    && m'.fsm == m.fsm.(state := Pausing, haltTarget := target, resumeTarget := m.fsm.state)
    && GoalDropped(m, m') && m' == m.(fsm := m'.fsm, nav := m'.nav, operation := None)
  }

  /** Nothing of the mission is left. */
  predicate Cleared(m: Mission, m': Mission) {
    m' == m.(fsm := m.fsm.(state := Idle), plan := None, index := 0,
             start := m.start.(requested := false, sequence := None), askedAt := None)
  }

  lemma PauseIs(m: Mission)
    requires Core(m) && m.fsm.state in {Running, Returning, Pausing, Paused}
    ensures var m' := Dispatch(m, PauseRequested).m;
      if IsMoving(m.fsm.state) then HaltedFor(m, m', Paused) else m' == m
  {
  }

  lemma StopIs(m: Mission)
    requires Core(m)
    ensures var m' := Dispatch(m, StopRequested).m;
      if IsMoving(m.fsm.state) then HaltedFor(m, m', Idle)
      else if m.fsm.state == Pausing then m' == m.(fsm := m.fsm.(haltTarget := Idle))
      else Cleared(m, m')
  {
  }

  lemma ResetIs(m: Mission)
    requires Core(m) && m.fsm.state in {Completed, Failed}
    ensures Cleared(m, Dispatch(m, ResetRequested).m)
  {
  }

  lemma StartIs(m: Mission, id: string, now: int, ready: bool)
    requires ControlAccepted(m, id, Start)
    ensures var e := Control(m, id, Start, now, ready);
      && e.m == m.(start := e.m.start, askedAt := e.m.askedAt)
      && e.m.start == PendingStart(true, m.start.generation + 1,
           if m.inputs.safety == None then None else Some(m.inputs.safety.value.sequence))
      && e.entries != [] && e.entries[0] == StartAccepted(m.plan.value, m.start.generation + 1)
  {
  }

  /** A pause or a stop halts motion first; a stop or a reset elsewhere forgets the mission; a
      resume begins the recovery of a paused one; a start only waits to begin. */
  lemma OrderIsCarriedOut(m: Mission, id: string, op: Operation, now: int, ready: bool)
    requires Core(m)
    ensures var e := Control(m, id, op, now, ready);
      if !ControlAccepted(m, id, op) then e == Effect(m, [])
      else match op
        case Start =>
          && e.m == m.(start := e.m.start, askedAt := e.m.askedAt)
          && e.m.start == PendingStart(true, m.start.generation + 1,
               if m.inputs.safety == None then None else Some(m.inputs.safety.value.sequence))
          && e.entries != [] && e.entries[0] == StartAccepted(m.plan.value, m.start.generation + 1)
        case Pause => if IsMoving(m.fsm.state) then HaltedFor(m, e.m, Paused) else e.m == m
        case Resume => e.m == m.(fsm := m.fsm.(state := Recovering), askedAt := e.m.askedAt)
        case Stop =>
          if IsMoving(m.fsm.state) then HaltedFor(m, e.m, Idle)
          else if m.fsm.state == Pausing then e.m == m.(fsm := m.fsm.(haltTarget := Idle))
          else Cleared(m, e.m)
        case _ => Cleared(m, e.m)
  {
    match op {
      case Start =>
        if ControlAccepted(m, id, Start) {
          StartIs(m, id, now, ready);
        }
      case Pause =>
        if ControlAccepted(m, id, Pause) {
          PauseIs(m);
        }
      case Stop =>
        if m.fsm.state in {Completed, Failed} {
          ResetIs(m);
        } else {
          StopIs(m);
        }
      case Reset =>
        if ControlAccepted(m, id, Reset) {
          ResetIs(m);
        }
      case _ =>
    }
  }

  // ----- asking for safety and authority -----

  /** Half a second has passed since the last time, or there was none. */
  predicate Due(m: Mission, now: int) {
    m.askedAt == None || now - m.askedAt.value >= 500
  }

  lemma TickAsksIff(m: Mission, now: int, serverReady: bool, ready: bool, start: nat)
    requires Core(m)
    ensures Asked(start) in Tick(m, now, serverReady, ready).entries <==>
      && ((m.fsm.state == Ready && m.start.requested) || m.fsm.state == Recovering)
      && !DependenciesReady(m.inputs, now) && Due(m, now) && ready && start == m.start.generation
  {
    if IsMoving(m.fsm.state) {
      var t, m1, event := TickMovingShape(m, serverReady);
      TreeTickIs(m, serverReady);
    }
  }

  lemma OrderAsksIff(m: Mission, id: string, op: Operation, now: int, ready: bool, start: nat)
    requires Core(m)
    ensures Asked(start) in Control(m, id, op, now, ready).entries <==>
      && op in {Start, Resume} && ControlAccepted(m, id, op) && Due(m, now) && ready
      && start == m.start.generation + (if op == Start then 1 else 0)
  {
  }

  /** Safety is asked to resume when a start is accepted, when a resume is, and on every tick
      that finds either waiting in vain; no more often than every half second. */
  lemma AskedIff(m: Mission, input: Input, start: nat)
    requires Core(m)
    ensures Asked(start) in Step(m, input).entries <==>
      match input
      case ControlCall(id, op, now, ready) =>
        && op in {Start, Resume} && ControlAccepted(m, id, op) && Due(m, now) && ready
        && start == m.start.generation + (if op == Start then 1 else 0)
      case Timer(now, _, ready) =>
        && ((m.fsm.state == Ready && m.start.requested) || m.fsm.state == Recovering)
        && !DependenciesReady(m.inputs, now) && Due(m, now) && ready && start == m.start.generation
      case _ => false
  {
    match input {
      case ControlCall(id, op, now, ready) => OrderAsksIff(m, id, op, now, ready, start);
      case Timer(now, serverReady, ready) => TickAsksIff(m, now, serverReady, ready, start);
      case SafetyInput(msg) => SafetyAsksNothing(m, msg, start);
      case _ =>
    }
  }

  lemma SafetyAsksNothing(m: Mission, msg: SafetyMessage, start: nat)
    ensures Asked(start) !in OnSafety(m, msg).entries
  {
  }

  /** The time is noted whenever it was due, whether the service was there or not. */
  lemma AskingIsNoted(m: Mission, now: int, serverReady: bool, ready: bool)
    requires (m.fsm.state == Ready && m.start.requested) || m.fsm.state == Recovering
    requires !DependenciesReady(m.inputs, now)
    ensures Tick(m, now, serverReady, ready).m == if Due(m, now) then m.(askedAt := Some(now)) else m
  {
  }

  // ----- messages -----

  /** A safety message is noted; one that is not NORMAL halts motion, resumable in its phase,
      and cancels a recovery. */
  lemma SafetyHalts(m: Mission, msg: SafetyMessage)
    requires Core(m) && msg.state != Normal && m.fsm.state in {Running, Returning, Recovering}
    ensures var m1, m' := m.(inputs := m.inputs.(safety := Some(msg))), OnSafety(m, msg).m;
      if m.fsm.state == Recovering then m' == m1.(fsm := m.fsm.(state := Paused)) else HaltedFor(m1, m', Paused)
  {
  }

  /** The other messages are noted and do nothing else; feedback about the arm is no concern. */
  lemma MessagesAreNoted(m: Mission, input: Input)
    requires input.AuthorityInput? || input.OdometryInput? || input.CommandInput? || input.StoppedInput?
    ensures var e := Step(m, input);
      && e.entries == [] && e.m == m.(inputs := e.m.inputs) && e.m.inputs.safety == m.inputs.safety
      && e.m.inputs.authority == (if input.AuthorityInput? then Some(input.authority) else m.inputs.authority)
      && e.m.inputs.odometryAt == (if input.OdometryInput? then Some(input.now) else m.inputs.odometryAt)
      && (e.m.inputs.commandAt, e.m.inputs.commandZero)
         == (if input.CommandInput? then (Some(input.now), input.zero) else (m.inputs.commandAt, m.inputs.commandZero))
      && (e.m.inputs.stoppedAt, e.m.inputs.baseStopped)
         == (if input.StoppedInput? && input.base then (Some(input.now), input.stopped)
             else (m.inputs.stoppedAt, m.inputs.baseStopped))
  {
  }

  // ----- goals -----

  /** A waypoint or the dock is to be driven to. */
  ghost predicate Driving(m: Mission, phase: GoalPhase) {
    Core(m) && IsMoving(m.fsm.state) && m.nav.phase == phase
  }

  /** An answer or a result that is late concerns nobody. A goal taken has a handle until its
      result comes, and a goal refused counts as one that could not be sent. */
  lemma CallbacksAreNoted(m: Mission, g: nat, yes: bool)
    ensures var n := m.nav;
      && OnGoalAnswer(m, g, yes).m == m.(nav :=
           if g != n.generation then n
           else if yes then n.(handle := Some(g)) else n.(phase := GoalFailed, unsendable := true))
      && OnGoalResult(m, g, yes).m == m.(nav :=
           if g != n.generation then n else n.(handle := None, phase := if yes then Succeeded else GoalFailed))
  {
  }

  /** A goal outstanding is waited for. */
  lemma OutstandingGoalWaits(m: Mission, now: int, serverReady: bool, safetyReady: bool)
    requires Driving(m, Active)
    ensures Tick(m, now, serverReady, safetyReady) == Effect(m, [])
  {
  }

  /** Where none is, one is sent under the next generation, to the pose of the current waypoint
      or of the dock. */
  lemma GoalIsSent(m: Mission, now: int, safetyReady: bool)
    requires Driving(m, NoGoal)
    ensures var e := Tick(m, now, true, safetyReady);
      var goal := if m.fsm.state == Returning then ToDock else ToWaypoint(m.index);
      && m.plan.Some?
      && var p := m.plan.value;
      && (goal != ToDock ==> m.index < |p.waypoints|)
      && e.entries == [GoalSent(m.nav.generation + 1, goal,
                                if goal == ToDock then p.dock.pose else p.waypoints[m.index].pose)]
      && e.m == m.(operation := Some(0), nav := m.nav.(generation := m.nav.generation + 1, phase := Active,
                                                       active := Some(goal)))
  {
  }

  /** The mission is halted, by the tree itself. */
  predicate GaveUp(m: Mission, m': Mission, target: State) {
    && m'.fsm == m.fsm.(state := Pausing, haltTarget := target, resumeTarget := m.fsm.state)
    && m'.nav == m.nav.(phase := NoGoal, active := None, unsendable := false) && m'.operation == None
    && m' == m.(fsm := m'.fsm, nav := m'.nav, operation := None)
  }

  lemma GivesUp(m: Mission, e: Event, unsendable: bool)
    requires Core(m) && IsMoving(m.fsm.state) && e in {PauseRequested, FatalStepFailure}
    ensures var m1 := m.(operation := Some(0),
                         nav := m.nav.(phase := NoGoal, active := None, unsendable := unsendable));
      GaveUp(m, Dispatch(m1.(nav := m1.nav.(unsendable := false)), e).m, if e == PauseRequested then Paused else Failed)
  {
  }

  lemma TreeEnds(n: Nav, goal: Goal, pose: Option<Pose>, serverReady: bool)
    requires n.active == Some(goal) && n.phase in {Succeeded, GoalFailed}
    ensures TickTree(n, goal, pose, serverReady) ==
      Ticked(if n.phase == Succeeded then TreeSuccess else TreeFailure, n.(phase := NoGoal, active := None),
             if n.phase == Succeeded then [Visited(goal, n.generation)] else [])
  {
  }

  /** Without a server the mission pauses. */
  lemma NoServerPauses(m: Mission, now: int, safetyReady: bool)
    requires Driving(m, NoGoal)
    ensures GaveUp(m, Tick(m, now, false, safetyReady).m, Paused)
  {
  }

  /** A goal that failed fails the mission, unless it could not be sent or was refused. */
  lemma FailedGoalHalts(m: Mission, now: int, serverReady: bool, safetyReady: bool)
    requires Driving(m, GoalFailed)
    ensures GaveUp(m, Tick(m, now, serverReady, safetyReady).m, if m.nav.unsendable then Paused else Failed)
  {
    TreeEnds(m.nav, CurrentGoal(m), GoalPose(m, CurrentGoal(m)), serverReady);
    GivesUp(m, if m.nav.unsendable then PauseRequested else FatalStepFailure, m.nav.unsendable);
  }

  /** So a refused goal pauses the mission on the next tick. */
  lemma RefusedGoalPauses(m: Mission, now: int, serverReady: bool, safetyReady: bool)
    requires Driving(m, Active)
    ensures var refused := OnGoalAnswer(m, m.nav.generation, false).m;
      GaveUp(refused, Tick(refused, now, serverReady, safetyReady).m, Paused)
  {
    FailedGoalHalts(OnGoalAnswer(m, m.nav.generation, false).m, now, serverReady, safetyReady);
  }

  /** What a visit leaves: the goal is done with, and a waypoint is counted. */
  function AfterVisit(m: Mission): Mission {
    m.(operation := None, nav := m.nav.(phase := NoGoal, active := None),
       index := if m.fsm.state == Running then m.index + 1 else m.index)
  }

  lemma VisitEnds(m: Mission, event: Event)
    requires Core(m) && IsMoving(m.fsm.state)
    requires event == if m.fsm.state == Returning then ReturnComplete else InspectionComplete
    ensures Dispatch(AfterVisit(m), event).m == AfterVisit(m).(fsm := m.fsm.(state :=
      if m.fsm.state == Running && m.fsm.returnToDock then Returning else Completed))
  {
  }

  /** A goal reached is a visit. The next waypoint follows, after the last one the dock if the
      plan returns there, and then the mission is completed. */
  lemma ReachedGoalMovesOn(m: Mission, now: int, serverReady: bool, safetyReady: bool)
    requires Driving(m, Succeeded)
    ensures var e := Tick(m, now, serverReady, safetyReady);
      && m.plan.Some? && m.nav.active.Some? && e.entries != []
      && e.entries[0] == Visited(m.nav.active.value, m.nav.generation)
      && e.m == AfterVisit(m).(fsm := m.fsm.(state :=
           if m.fsm.state == Returning then Completed
           else if m.index + 1 < |m.plan.value.waypoints| then Running
           else if m.plan.value.returnToDock then Returning else Completed))
  {
    TreeEnds(m.nav, CurrentGoal(m), GoalPose(m, CurrentGoal(m)), serverReady);
    VisitEnds(m, if m.fsm.state == Returning then ReturnComplete else InspectionComplete);
  }
}
