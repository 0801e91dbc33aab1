/** What every step of the mission manager keeps. Each invariant is a predicate of
    the state, or of the state and the trace so far, with one lemma per step. */
module MissionInvariants {
  import opened Wrappers
  import opened ControlMessages
  import opened MissionStateMachine
  import opened MissionManager

  predicate Halting(s: State) {
    s == Pausing || s == Paused || s == Recovering
  }

  // ----- the state alone -----

  /** The plan held fits the lifecycle state and the progress made. */
  ghost predicate PlanFits(m: Mission, p: Plan) {
    && (forall i | 0 <= i < |p.waypoints| :: p.waypoints[i].operation == NAVIGATE_ONLY)
    && (p.returnToDock ==> p.hasDock && p.dock.operation == NAVIGATE_ONLY)
    && |p.waypoints| > 0
    && m.fsm.returnToDock == p.returnToDock
    && m.index <= |p.waypoints|
    && (m.fsm.state == Returning || m.fsm.state == Completed ==> m.index == |p.waypoints|)
    && (m.fsm.state == Returning ==> p.returnToDock)
    && (Halting(m.fsm.state) ==>
          if m.fsm.resumeTarget == Running then m.index < |p.waypoints|
          else m.index == |p.waypoints| && p.returnToDock)
  }

  ghost predicate Lifecycle(m: Mission) {
    && WellFormed(m.fsm)
    && (m.fsm.state == Idle <==> m.plan == None)
    && (m.start.requested ==> m.fsm.state == Ready)
    && (m.plan.Some? ==> PlanFits(m, m.plan.value))
  }

  predicate WaypointLeft(m: Mission) {
    m.fsm.state == Running && m.plan.Some? ==> m.index < |m.plan.value.waypoints|
  }

  /** A goal is ticked only while moving, and it is the one the progress calls for. */
  ghost predicate TreeFits(m: Mission) {
    && (m.nav.active.Some? <==> m.nav.phase != NoGoal)
    && (m.nav.active.Some? <==> m.operation.Some?)
    && (m.nav.active.Some? ==>
          IsMoving(m.fsm.state) && m.nav.active.value == CurrentGoal(m) && m.operation == Some(NAVIGATE_ONLY))
  }

  ghost predicate SafeWhileMoving(m: Mission) {
    IsMoving(m.fsm.state) ==> m.inputs.safety.Some? && m.inputs.safety.value.state == Normal
  }

  ghost predicate Core(m: Mission) {
    Lifecycle(m) && WaypointLeft(m) && TreeFits(m) && SafeWhileMoving(m)
  }

  /** Callbacks are the one kind of step that needs more than `Core`: a callback
      that matches the current generation finds a goal being ticked. */
  ghost predicate Matched(m: Mission, input: Input) {
    match input
    case GoalAnswer(g, taken) => g == m.nav.generation ==> m.nav.phase == Active
    case GoalResult(g, ok) => g == m.nav.generation ==> m.nav.phase == Active
    case _ => true
  }

  lemma ConfigureKeepsCore(m: Mission, p: Plan)
    requires Core(m)
    ensures Core(Configure(m, p).m)
  {
  }

  lemma HoldIsPausing(m: Mission, e: Event)
    requires WellFormed(m.fsm) && IsMoving(m.fsm.state) && (IsHold(e) || e == StopRequested || e == FatalStepFailure)
    ensures var f := Next(m.fsm, e);
      && Dispatch(m, e).m == Halted(m.(fsm := f)) && f.state == Pausing && WellFormed(f)
      && f.resumeTarget == m.fsm.state && f.returnToDock == m.fsm.returnToDock
  {
  }

  /** Leaving motion halts whatever is being ticked, in whatever shape it is. */
  lemma HaltFromMoving(m: Mission, e: Event)
    requires Lifecycle(m) && WaypointLeft(m) && IsMoving(m.fsm.state)
    requires IsHold(e) || e == StopRequested || e == FatalStepFailure
    requires m.nav.active.Some? ==> m.operation == Some(NAVIGATE_ONLY)
    requires m.nav.active == None ==> m.nav.phase == NoGoal
    ensures Dispatch(m, e).m.fsm.state == Pausing
    ensures Dispatch(m, e).m.nav.active == None
    ensures Core(Dispatch(m, e).m)
  {
    HoldIsPausing(m, e);
  }

  lemma DispatchKeepsLifecycle(m: Mission, e: Event)
    requires Lifecycle(m) && !IsMoving(m.fsm.state)
    requires e != MissionConfigured && e != StartRequested && e != RecoveryReady
    ensures Lifecycle(Dispatch(m, e).m) && !IsMoving(Dispatch(m, e).m.fsm.state)
  {
  }

  lemma DispatchElsewhere(m: Mission, e: Event)
    requires Lifecycle(m) && TreeFits(m) && !IsMoving(m.fsm.state)
    requires e != MissionConfigured && e != StartRequested && e != RecoveryReady
    ensures Core(Dispatch(m, e).m)
  {
    DispatchKeepsLifecycle(m, e);
  }

  lemma DispatchKeepsCore(m: Mission, e: Event)
    requires Core(m)
    requires e in {PauseRequested, ResumeRequested, StopRequested, ResetRequested}
    ensures Core(Dispatch(m, e).m)
  {
    if !IsMoving(m.fsm.state) {
      DispatchElsewhere(m, e);
    } else if Accepts(m.fsm.state, e) {
      HaltFromMoving(m, e);
    }
  }

  lemma StartMotion(m: Mission)
    requires Lifecycle(m) && TreeFits(m) && m.fsm.state == Ready
    requires m.inputs.safety.Some? && m.inputs.safety.value.state == Normal
    ensures Core(Dispatch(ClearStart(m), StartRequested).m)
  {
  }

  lemma ResumeMotion(m: Mission)
    requires Lifecycle(m) && TreeFits(m) && m.fsm.state == Recovering
    requires m.inputs.safety.Some? && m.inputs.safety.value.state == Normal
    ensures Core(Dispatch(m, RecoveryReady).m)
  {
  }

  lemma FinishPhase(m: Mission, e: Event)
    requires Lifecycle(m) && m.plan.Some? && SafeWhileMoving(m)
    requires m.nav.active == None && m.nav.phase == NoGoal && m.operation == None
    requires (m.fsm.state == Running && e == InspectionComplete && m.index == |m.plan.value.waypoints|)
          || (m.fsm.state == Returning && e == ReturnComplete)
    ensures Core(Dispatch(m, e).m)
  {
  }

  lemma ControlKeepsCore(m: Mission, missionId: string, operation: Operation, now: int, safetyReady: bool)
    requires Core(m)
    ensures Core(Control(m, missionId, operation, now, safetyReady).m)
  {
    if ControlAccepted(m, missionId, operation) && operation != Start {
      DispatchKeepsCore(m, ControlEvent(m, operation));
    }
  }

  lemma OnSafetyKeepsCore(m: Mission, msg: SafetyMessage)
    requires Core(m)
    ensures Core(OnSafety(m, msg).m)
  {
    var m1 := m.(inputs := m.inputs.(safety := Some(msg)));
    if msg.state != Normal {
      if IsMoving(m.fsm.state) {
        HaltFromMoving(m1, SafetyStop);
      } else if m.fsm.state == Recovering {
        DispatchElsewhere(m1, SafetyStop);
      }
    }
  }

  lemma TickTreeKeeps(m: Mission, pose: Option<Pose>, serverReady: bool)
    requires Lifecycle(m) && TreeFits(m) && IsMoving(m.fsm.state)
    ensures var t := TickTree(m.nav, CurrentGoal(m), pose, serverReady);
      && (t.status == TreeRunning ==> t.nav.phase == Active && t.nav.active == Some(CurrentGoal(m)))
      && (t.status != TreeRunning ==> t.nav.phase == NoGoal && t.nav.active == None)
  {
  }

  function TreeTick(m: Mission, serverReady: bool): Ticked
    requires m.plan.Some?
  {
    TickTree(m.nav, CurrentGoal(m), GoalPose(m, CurrentGoal(m)), serverReady)
  }

  /** What ticking the tree does, phase by phase. */
  function TreeOutcome(n: Nav, goal: Goal, pose: Pose, serverReady: bool): Ticked {
    match n.phase
    case Active => Ticked(TreeRunning, n, [])
    case Succeeded => Ticked(TreeSuccess, n.(phase := NoGoal, active := None), [Visited(goal, n.generation)])
    case GoalFailed => Ticked(TreeFailure, n.(phase := NoGoal, active := None), [])
    case NoGoal =>
      if serverReady then
        Ticked(TreeRunning, n.(generation := n.generation + 1, phase := Active, active := Some(goal)),
               [GoalSent(n.generation + 1, goal, pose)])
      else Ticked(TreeFailure, n.(unsendable := true, active := None), [])
  }

  lemma TreeTickIs(m: Mission, serverReady: bool)
    requires Core(m) && IsMoving(m.fsm.state) && m.plan.Some?
    ensures TreeTick(m, serverReady)
         == TreeOutcome(m.nav, CurrentGoal(m), PoseFor(m.plan.value, CurrentGoal(m)), serverReady)
  {
  }

  /** The tree's verdict `t` took the mission from `m` to `m1`, and `event`, if any, is next. */
  ghost predicate Verdict(m: Mission, t: Ticked, m1: Mission, event: Option<Event>)
    requires m.plan.Some?
  {
    && m1 == m.(nav := t.nav.(unsendable := m1.nav.unsendable), operation := m1.operation, index := m1.index)
    && match t.status
       case TreeRunning => event == None && m1.index == m.index && m1.operation == Some(NAVIGATE_ONLY)
       case TreeFailure =>
         && t.entries == [] && m1.index == m.index && m1.operation == Some(NAVIGATE_ONLY)
         && (event == Some(PauseRequested) || event == Some(FatalStepFailure))
       case TreeSuccess =>
         && m1.operation == None
         && (if m.fsm.state == Returning then event == Some(ReturnComplete) && m1.index == m.index
             else
               && m1.index == m.index + 1
               && event == (if m1.index >= |m.plan.value.waypoints| then Some(InspectionComplete) else None))
  }

  function Concluded(t: Ticked, m1: Mission, event: Option<Event>): Effect {
    if event == None then Effect(m1, t.entries)
    else Effect(Dispatch(m1, event.value).m, t.entries + Dispatch(m1, event.value).entries)
  }

  /** A tick while moving: the tree is ticked, and its verdict either ends the tick or
      is followed by one event. */
  lemma TickMovingShape(m: Mission, serverReady: bool) returns (t: Ticked, m1: Mission, event: Option<Event>)
    requires Core(m) && IsMoving(m.fsm.state) && m.plan.Some?
    ensures t == TreeTick(m, serverReady) && Verdict(m, t, m1, event)
    ensures TickMoving(m, serverReady) == Concluded(t, m1, event)
  {
    t := TickTree(m.nav, CurrentGoal(m), GoalPose(m, CurrentGoal(m)), serverReady);
    TickTreeKeeps(m, GoalPose(m, CurrentGoal(m)), serverReady);
    m1 := m.(operation := Some(NAVIGATE_ONLY), nav := t.nav);
    event := None;
    match t.status {
      case TreeRunning =>
      case TreeFailure =>
        event := Some(if t.nav.unsendable then PauseRequested else FatalStepFailure);
        m1 := m1.(nav := m1.nav.(unsendable := false));
      case TreeSuccess =>
        m1 := m1.(operation := None);
        if m.fsm.state == Returning {
          event := Some(ReturnComplete);
        } else {
          m1 := m1.(index := m.index + 1);
          if m1.index >= |m.plan.value.waypoints| {
            event := Some(InspectionComplete);
          }
        }
    }
  }

  lemma TickMovingKeepsCore(m: Mission, serverReady: bool)
    requires Core(m) && IsMoving(m.fsm.state) && m.plan.Some?
    ensures Core(TickMoving(m, serverReady).m)
  {
    var t, m1, event := TickMovingShape(m, serverReady);
    TickTreeKeeps(m, GoalPose(m, CurrentGoal(m)), serverReady);
    ConcludedKeepsCore(m, t, m1, event);
  }

  lemma ConcludedKeepsCore(m: Mission, t: Ticked, m1: Mission, event: Option<Event>)
    requires Core(m) && IsMoving(m.fsm.state) && m.plan.Some? && Verdict(m, t, m1, event)
    requires t.status == TreeRunning ==> t.nav.phase == Active && t.nav.active == Some(CurrentGoal(m))
    requires t.status != TreeRunning ==> t.nav.phase == NoGoal && t.nav.active == None
    ensures Core(Concluded(t, m1, event).m)
  {
    if t.status == TreeFailure {
      HaltFromMoving(m1, event.value);
    } else if event.Some? {
      FinishPhase(m1, event.value);
    }
  }

  lemma TickKeepsCore(m: Mission, now: int, serverReady: bool, safetyReady: bool)
    requires Core(m)
    ensures Core(Tick(m, now, serverReady, safetyReady).m)
  {
    match m.fsm.state {
      case Ready =>
        if DependenciesReady(m.inputs, now) {
          StartMotion(m);
        }
      case Pausing => DispatchElsewhere(m, MotionQuiesced);
      case Recovering =>
        if DependenciesReady(m.inputs, now) {
          ResumeMotion(m);
        }
      case Running => TickMovingKeepsCore(m, serverReady);
      case Returning => TickMovingKeepsCore(m, serverReady);
      case _ =>
    }
  }

  lemma StepKeepsCore(m: Mission, input: Input)
    requires Core(m) && Matched(m, input)
    ensures Core(Step(m, input).m)
  {
    match input {
      case ConfigureCall(p) => ConfigureKeepsCore(m, p);
      case ControlCall(id, op, now, ready) => ControlKeepsCore(m, id, op, now, ready);
      case SafetyInput(msg) => OnSafetyKeepsCore(m, msg);
      case Timer(now, serverReady, safetyReady) => TickKeepsCore(m, now, serverReady, safetyReady);
      case _ =>
    }
  }
}
