/** The mission manager as the object it is: handlers that update fields in place,
    each proved to take the step that MissionManager gives for it. */
module MissionNodes {
  import opened Wrappers
  import opened ControlMessages
  import opened MissionStateMachine
  import opened MissionManager
  import opened MissionInvariants
  import opened MissionCallbacks
  import opened RequestCache

  /** What a service answers: the verdict and the state published with it. */
  datatype Response = Response(accepted: bool, state: State)

  function ConfigureStep(m: Mission, p: Plan): (Mission, Response) {
    var m' := Configure(m, p).m;
    (m', Response(ConfigureAccepted(m, p), m'.fsm.state))
  }

  function ControlStep(m: Mission, missionId: string, op: Operation, now: int, safetyReady: bool): (Mission, Response) {
    var m' := Control(m, missionId, op, now, safetyReady).m;
    (m', Response(ControlAccepted(m, missionId, op), m'.fsm.state))
  }

  /** The side effects of an accepted transition to `to`. */
  function Followed(m: Mission, event: Event, to: State): Mission {
    var m2 := if to == Pausing then Halted(m) else m;
    var m3 := if event == StartRequested then m2.(index := 0) else m2;
    if to == Idle then ClearStart(m3.(plan := None, index := 0)) else m3
  }

  /** An operation other than START, once the mission id was checked. */
  function OperationEffect(m: Mission, event: Event, now: int, safetyReady: bool): Effect {
    var d := Dispatch(m, event);
    if Accepts(m.fsm.state, event) && event == ResumeRequested
      then After(d, AskDependencies(d.m, now, safetyReady)) else d
  }

  lemma ControlIsOperation(m: Mission, missionId: string, op: Operation, now: int, safetyReady: bool)
    requires !Mismatched(m, missionId) && op != Start && op != UnknownOperation
    ensures Control(m, missionId, op, now, safetyReady) == OperationEffect(m, ControlEvent(m, op), now, safetyReady)
  {
  }

  function StepDone(m: Mission, returning: bool): Effect
    requires m.plan.Some?
  {
    if returning then Dispatch(m, ReturnComplete)
    else
      var m2 := m.(index := m.index + 1);
      if m2.index >= |m2.plan.value.waypoints| then Dispatch(m2, InspectionComplete) else Effect(m2, [])
  }

  function FinishStep(m: Mission, status: TreeStatus, failure: Event, returning: bool): Effect
    requires m.plan.Some?
  {
    match status
    case TreeRunning => Effect(m, [])
    case TreeFailure => Dispatch(m, failure)
    case TreeSuccess => StepDone(m.(operation := None), returning)
  }

  function BlameFor(t: Ticked): Event {
    if t.nav.unsendable then PauseRequested else FatalStepFailure
  }

  function Blamed(t: Ticked): Nav {
    if t.status == TreeFailure then t.nav.(unsendable := false) else t.nav
  }

  function Executed(m: Mission, t: Ticked): Mission {
    m.(operation := Some(NAVIGATE_ONLY), nav := Blamed(t))
  }

  function StepAfter(m: Mission, t: Ticked, returning: bool): Effect
    requires m.plan.Some?
  {
    var f := FinishStep(Executed(m, t), t.status, BlameFor(t), returning);
    Effect(f.m, t.entries + f.entries)
  }

  lemma AfterIsAssociative(log: seq<Entry>, es: seq<Entry>, e: Effect)
    ensures log + es + e.entries == log + (es + e.entries)
  {
  }

  /** What a safety message that was noted leads to. */
  function Reaction(m: Mission, msg: SafetyMessage, changed: bool): Effect {
    if m.fsm.state == Ready && m.start.requested then
      if msg.state == EStopLatched || msg.state == Fault || (changed && msg.state != Normal) then CancelStart(m)
      else if m.start.sequence == None then Effect(m.(start := m.start.(sequence := Some(msg.sequence))), [])
      else Effect(m, [])
    else if msg.state != Normal && (IsMoving(m.fsm.state) || m.fsm.state == Recovering) then Dispatch(m, SafetyStop)
    else Effect(m, [])
  }

  lemma HearingIs(m: Mission, log: seq<Entry>, msg: SafetyMessage)
    ensures var changed := m.start.sequence.Some? && msg.sequence != m.start.sequence.value;
      var m1 := m.(inputs := m.inputs.(safety := Some(msg)));
      After(Effect(m, log), OnSafety(m, msg)) == After(Effect(m1, log + [Heard(msg)]), Reaction(m1, msg, changed))
  {
    var changed := m.start.sequence.Some? && msg.sequence != m.start.sequence.value;
    var m1 := m.(inputs := m.inputs.(safety := Some(msg)));
    var heard := Effect(m1, [Heard(msg)]);
    assert OnSafety(m, msg) == After(heard, Reaction(m1, msg, changed));
    AfterIsAssociative(log, [Heard(msg)], Reaction(m1, msg, changed));
  }

  lemma TickMovingIs(m: Mission, serverReady: bool)
    requires m.plan.Some?
    ensures TickMoving(m, serverReady) ==
            (var returning := m.fsm.state == Returning;
             var p := m.plan.value;
             if !returning && m.index >= |p.waypoints| then Dispatch(m, InspectionComplete)
             else if (if returning then p.dock.operation else p.waypoints[m.index].operation) != NAVIGATE_ONLY
               then Dispatch(m, FatalStepFailure)
             else StepAfter(m, TickTree(m.nav, CurrentGoal(m), GoalPose(m, CurrentGoal(m)), serverReady), returning))
  {
  }

  class MissionNode {
    const fsm: StateMachine
    const capabilities: set<string>
    const mapFrame: string
    var plan: Option<Plan>
    var index: nat
    var startRequested: bool
    var startGeneration: nat
    var startSequence: Option<nat>
    var inputs: Inputs
    var goalPhase: GoalPhase
    var goalGeneration: nat
    var goalHandle: Option<nat>
    var goalUnsendable: bool
    var treeGoal: Option<Goal>
    var activeOperation: Option<nat>
    var askedAt: Option<int>
    var configureCache: Cache<Response>
    var controlCache: Cache<Response>
    ghost var log: seq<Entry>

    ghost function NavValue(): Nav
      reads this
    {
      Nav(goalPhase, goalGeneration, goalHandle, goalUnsendable, treeGoal)
    }

    ghost function Value(): Mission
      reads this, fsm
    {
      Mission(fsm.Value(), plan, index, PendingStart(startRequested, startGeneration, startSequence), inputs,
              NavValue(), activeOperation, askedAt, capabilities, mapFrame)
    }

    ghost function Snapshot(): Run
      reads this, fsm
    {
      Run(Value(), log)
    }

    ghost predicate Holds()
      reads this, fsm
    {
      Core(Value()) && Callbacks(NavValue(), log)
    }

    ghost predicate CachesValid()
      reads this
    {
      RequestCache.Valid(configureCache) && RequestCache.Valid(controlCache)
    }

    constructor (capabilities: set<string>, mapFrame: string)
      ensures fresh(fsm) && this.capabilities == capabilities && this.mapFrame == mapFrame
      ensures Snapshot() == Run(InitialMission(capabilities, mapFrame), [])
      ensures Holds() && CachesValid()
    {
      fsm := new StateMachine();
      this.capabilities, this.mapFrame := capabilities, mapFrame;
      plan, index := None, 0;
      startRequested, startGeneration, startSequence := false, 0, None;
      inputs := Inputs(None, None, None, None, true, None, false);
      goalPhase, goalGeneration, goalHandle, goalUnsendable := NoGoal, 0, None, false;
      treeGoal, activeOperation, askedAt := None, None, None;
      configureCache, controlCache := EmptyCache(), EmptyCache();
      log := [];
    }

    // ----- plan validation -----

    method HasEvery(required: seq<string>) returns (ok: bool)
      ensures ok <==> HasAll(capabilities, required)
    {
      for i := 0 to |required|
        invariant forall c | c in required[..i] :: c in capabilities
      {
        if required[i] !in capabilities {
          return false;
        }
      }
      assert required[..|required|] == required;
      return true;
    }

    method ValidateWaypoint(w: Waypoint) returns (ok: bool)
      ensures ok <==> ValidWaypoint(w, capabilities)
    {
      if w.id == "" || !w.pose.finite || !ValidOperation(w.operation, capabilities) {
        return false;
      }
      ok := HasEvery(w.capabilities);
    }

    /** The checks in their order; `seen` plays the part of the id set. */
    method ValidatePlan(p: Plan) returns (ok: bool)
      ensures ok <==> ValidPlan(p, capabilities)
    {
      if p.missionId == "" || p.mapId == "" || p.waypoints == [] {
        return false;
      }
      var available := HasEvery(p.capabilities);
      if !available {
        return false;
      }
      var seen: set<string> := {};
      for i := 0 to |p.waypoints|
        invariant forall id :: id in seen <==> exists k | 0 <= k < i :: p.waypoints[k].id == id
        invariant forall k | 0 <= k < i :: ValidWaypoint(p.waypoints[k], capabilities)
        invariant forall j, k | 0 <= j < k < i :: p.waypoints[j].id != p.waypoints[k].id
      {
        var w := p.waypoints[i];
        if w.id in seen {
          return false;
        }
        seen := seen + {w.id};
        var valid := ValidateWaypoint(w);
        if !valid {
          return false;
        }
      }
      if p.returnToDock {
        if !p.hasDock || !p.dock.pose.finite || !ValidOperation(p.dock.operation, capabilities) {
          return false;
        }
        ok := HasEvery(p.dock.capabilities);
        return;
      }
      return true;
    }

    // ----- helpers -----

    method ClearPendingStart()
      modifies this`startRequested, this`startSequence, this`askedAt
      ensures !startRequested && startSequence == None && askedAt == None
    {
      startRequested, startSequence, askedAt := false, None, None;
    }

    method CancelGoal()
      modifies this`goalGeneration, this`goalHandle, this`goalPhase
      ensures NavValue() == CancelNavigation(old(NavValue()))
    {
      goalGeneration, goalHandle, goalPhase := goalGeneration + 1, None, NoGoal;
    }

    method HaltGoal()
      modifies this`goalGeneration, this`goalHandle, this`goalPhase, this`treeGoal
      ensures NavValue() == HaltTree(old(NavValue()))
    {
      if treeGoal.Some? {
        CancelGoal();
        treeGoal := None;
      }
    }

    method HaltOperation()
      modifies this`goalGeneration, this`goalHandle, this`goalPhase, this`treeGoal, this`activeOperation
      ensures Value() == Halted(old(Value()))
    {
      if activeOperation.Some? {
        if activeOperation.value == NAVIGATE_ONLY {
          HaltGoal();
        }
        activeOperation := None;
      }
    }

    method DropPlan()
      modifies this`plan, this`index, this`startRequested, this`startSequence, this`askedAt
      ensures Value() == ClearStart(old(Value()).(plan := None, index := 0))
    {
      plan, index := None, 0;
      ClearPendingStart();
    }

    /** What an accepted transition brings with it. */
    method FollowUp(event: Event, to: State)
      modifies this
      ensures Value() == Followed(old(Value()), event, to)
      ensures unchanged(`configureCache, `controlCache, `log)
    {
      if to == Pausing {
        HaltOperation();
      }
      if event == StartRequested {
        index := 0;
      }
      if to == Idle {
        DropPlan();
      }
    }

    method Put(event: Event) returns (accepted: bool)
      modifies this, fsm
      ensures accepted == Accepts(old(fsm.state), event)
      ensures Effect(Value(), log) == After(Effect(old(Value()), old(log)), Dispatch(old(Value()), event))
      ensures unchanged(`configureCache, `controlCache)
    {
      var t := fsm.Dispatch(event);
      if !t.accepted {
        return false;
      }
      FollowUp(event, t.to);
      log := log + [Moved(t.from, event, t.to)];
      return true;
    }

    method RequestDependencies(now: int, safetyReady: bool)
      modifies this`askedAt, this`log
      ensures Effect(Value(), log)
           == After(Effect(old(Value()), old(log)), AskDependencies(old(Value()), now, safetyReady))
    {
      if askedAt.Some? && now - askedAt.value < 500 {
        return;
      }
      askedAt := Some(now);
      if safetyReady {
        log := log + [Asked(startGeneration)];
      }
    }

    method CancelPendingStart()
      modifies this`startRequested, this`startSequence, this`askedAt, this`log
      ensures Effect(Value(), log) == After(Effect(old(Value()), old(log)), CancelStart(old(Value())))
    {
      if !startRequested || fsm.state != Ready {
        return;
      }
      ClearPendingStart();
      log := log + [StartCancelled];
    }

    // ----- services -----

    /** A new plan goes through the state machine step by step. */
    method Reconfigure(returnToDock: bool)
      requires Replaceable(fsm.state)
      modifies fsm
      ensures fsm.Value() == old(fsm.Value()).(state := Ready, returnToDock := returnToDock)
    {
      var t;
      if fsm.state == Ready {
        t := fsm.Dispatch(StopRequested);
      } else if fsm.state == Completed || fsm.state == Failed {
        t := fsm.Dispatch(ResetRequested);
      }
      fsm.SetReturnToDock(returnToDock);
      t := fsm.Dispatch(MissionConfigured);
    }

    method AdoptPlan(p: Plan)
      requires Replaceable(fsm.state) && ValidPlan(p, capabilities)
      modifies this, fsm
      ensures Effect(Value(), log) == After(Effect(old(Value()), old(log)), Configure(old(Value()), p))
      ensures unchanged(`configureCache, `controlCache)
    {
      ClearPendingStart();
      plan := Some(Adopted(p, mapFrame));
      index := 0;
      Reconfigure(p.returnToDock);
      log := log + [Configured(plan.value)];
    }

    /** The configure call itself, without the cache. */
    method PutPlan(p: Plan) returns (accepted: bool)
      modifies this, fsm
      ensures accepted == ConfigureAccepted(old(Value()), p)
      ensures Effect(Value(), log) == After(Effect(old(Value()), old(log)), Configure(old(Value()), p))
      ensures unchanged(`configureCache, `controlCache)
    {
      accepted := Replaceable(fsm.state);
      if accepted {
        accepted := ValidatePlan(p);
      }
      if accepted {
        AdoptPlan(p);
      }
    }

    /** The configure service, cache and all: the state and the answer are those of
        serving the request once. */
    method OnConfigure(id: string, p: Plan) returns (r: Response)
      requires Holds() && CachesValid()
      modifies this, fsm
      ensures Holds() && CachesValid()
      ensures Served(Value(), configureCache, r) ==
              Serve(old(Value()), old(configureCache), id, m => ConfigureStep(m, p), Response(false, old(fsm.state)))
      ensures Snapshot() == if id == "" || id in old(configureCache).responses then old(Snapshot())
        else StepRun(old(Snapshot()), ConfigureCall(p))
      ensures controlCache == old(controlCache)
    {
      if id == "" {
        return Response(false, fsm.state);
      }
      if id in configureCache.responses {
        return configureCache.responses[id];
      }
      var accepted := PutPlan(p);
      r := Response(accepted, fsm.state);
      RememberKeepsValid(configureCache, id, r);
      configureCache := Remember(configureCache, id, r);
      Stepped(old(Snapshot()), ConfigureCall(p));
    }

    method AcceptStart(now: int, safetyReady: bool)
      requires plan.Some?
      modifies this`startRequested, this`startGeneration, this`startSequence, this`askedAt, this`log
      ensures Effect(Value(), log) ==
              After(Effect(StartPending(old(Value())), old(log) + [StartAccepted(plan.value, old(startGeneration) + 1)]),
                    AskDependencies(StartPending(old(Value())), now, safetyReady))
    {
      startRequested, startGeneration := true, startGeneration + 1;
      startSequence := if inputs.safety.Some? then Some(inputs.safety.value.sequence) else None;
      log := log + [StartAccepted(plan.value, startGeneration)];
      RequestDependencies(now, safetyReady);
    }

    /** An operation that is one event; only RESUME asks for the dependencies at once. */
    method PutOperation(event: Event, now: int, safetyReady: bool) returns (accepted: bool)
      modifies this, fsm
      ensures accepted == Accepts(old(fsm.state), event)
      ensures Effect(Value(), log) ==
              After(Effect(old(Value()), old(log)), OperationEffect(old(Value()), event, now, safetyReady))
      ensures unchanged(`configureCache, `controlCache)
    {
      accepted := Put(event);
      if accepted && event == ResumeRequested {
        RequestDependencies(now, safetyReady);
      }
    }

    /** The event an operation stands for; STOP also clears a finished mission. */
    method EventFor(op: Operation) returns (event: Event)
      requires op != Start && op != UnknownOperation
      ensures event == ControlEvent(Value(), op)
    {
      match op {
        case Pause => event := PauseRequested;
        case Resume => event := ResumeRequested;
        case Stop => event := if fsm.state == Completed || fsm.state == Failed then ResetRequested else StopRequested;
        case Reset => event := ResetRequested;
      }
    }

    /** The operator's call itself, without the cache. */
    method PutControl(missionId: string, op: Operation, now: int, safetyReady: bool) returns (accepted: bool)
      modifies this, fsm
      ensures accepted == ControlAccepted(old(Value()), missionId, op)
      ensures Effect(Value(), log)
           == After(Effect(old(Value()), old(log)), Control(old(Value()), missionId, op, now, safetyReady))
      ensures unchanged(`configureCache, `controlCache)
    {
      if missionId != "" && plan.Some? && missionId != plan.value.missionId {
        return false;
      }
      if op == Start {
        if plan == None || fsm.state != Ready {
          return false;
        }
        AcceptStart(now, safetyReady);
        return true;
      }
      if op == UnknownOperation {
        return false;
      }
      ControlIsOperation(Value(), missionId, op, now, safetyReady);
      var event := EventFor(op);
      accepted := PutOperation(event, now, safetyReady);
    }

    /** The control service, cache and all. */
    method OnControl(id: string, missionId: string, op: Operation, now: int, safetyReady: bool) returns (r: Response)
      requires Holds() && CachesValid()
      modifies this, fsm
      ensures Holds() && CachesValid()
      ensures Served(Value(), controlCache, r) ==
              Serve(old(Value()), old(controlCache), id, m => ControlStep(m, missionId, op, now, safetyReady),
                    Response(false, old(fsm.state)))
      ensures Snapshot() == if id == "" || id in old(controlCache).responses then old(Snapshot())
        else StepRun(old(Snapshot()), ControlCall(missionId, op, now, safetyReady))
      ensures configureCache == old(configureCache)
    {
      if id == "" {
        return Response(false, fsm.state);
      }
      if id in controlCache.responses {
        return controlCache.responses[id];
      }
      var accepted := PutControl(missionId, op, now, safetyReady);
      r := Response(accepted, fsm.state);
      RememberKeepsValid(controlCache, id, r);
      controlCache := Remember(controlCache, id, r);
      Stepped(old(Snapshot()), ControlCall(missionId, op, now, safetyReady));
    }

    // ----- subscriptions -----

    /** What the pending start makes of a message. */
    method CheckPendingStart(msg: SafetyMessage, changed: bool)
      requires fsm.state == Ready && startRequested
      modifies this`startRequested, this`startSequence, this`askedAt, this`log
      ensures Effect(Value(), log) == After(Effect(old(Value()), old(log)), Reaction(old(Value()), msg, changed))
      ensures startRequested ==> startSequence.Some?
    {
      if msg.state == EStopLatched || msg.state == Fault || (changed && msg.state != Normal) {
        CancelPendingStart();
      } else if startSequence == None {
        startSequence := Some(msg.sequence);
      }
    }

    method React(msg: SafetyMessage, changed: bool)
      requires startRequested ==> fsm.state == Ready
      modifies this, fsm
      ensures Effect(Value(), log) == After(Effect(old(Value()), old(log)), Reaction(old(Value()), msg, changed))
      ensures unchanged(`configureCache, `controlCache)
    {
      var state := fsm.state;
      if state == Ready && startRequested {
        CheckPendingStart(msg, changed);
      } else if msg.state != Normal && (state == Running || state == Returning || state == Recovering) {
        var accepted := Put(SafetyStop);
      }
    }

    method Hear(msg: SafetyMessage)
      requires startRequested ==> fsm.state == Ready
      modifies this, fsm
      ensures Effect(Value(), log) == After(Effect(old(Value()), old(log)), MissionManager.OnSafety(old(Value()), msg))
      ensures unchanged(`configureCache, `controlCache)
    {
      var changed := startSequence.Some? && msg.sequence != startSequence.value;
      inputs := inputs.(safety := Some(msg));
      log := log + [Heard(msg)];
      HearingIs(old(Value()), old(log), msg);
      React(msg, changed);
    }

    method OnSafety(msg: SafetyMessage)
      requires Holds() && Allowed(Snapshot(), SafetyInput(msg))
      modifies this, fsm
      ensures Holds() && Snapshot() == StepRun(old(Snapshot()), SafetyInput(msg))
      ensures unchanged(`configureCache, `controlCache)
    {
      Hear(msg);
      Stepped(old(Snapshot()), SafetyInput(msg));
    }

    method OnAuthority(authority: Authority)
      modifies this`inputs
      ensures Snapshot() == StepRun(old(Snapshot()), AuthorityInput(authority))
    {
      inputs := inputs.(authority := Some(authority));
    }

    method OnOdometry(now: int)
      modifies this`inputs
      ensures Snapshot() == StepRun(old(Snapshot()), OdometryInput(now))
    {
      inputs := inputs.(odometryAt := Some(now));
    }

    method OnSafeCommand(zero: bool, now: int)
      modifies this`inputs
      ensures Snapshot() == StepRun(old(Snapshot()), CommandInput(zero, now))
    {
      inputs := inputs.(commandAt := Some(now), commandZero := zero);
    }

    method OnMotionStopped(base: bool, stopped: bool, now: int)
      modifies this`inputs
      ensures Snapshot() == StepRun(old(Snapshot()), StoppedInput(base, stopped, now))
    {
      if !base {
        return;
      }
      inputs := inputs.(stoppedAt := Some(now), baseStopped := stopped);
    }

    /** The answer to the resume request sent for start generation `g`. */
    method OnResumeAnswered(g: nat, accepted: bool, state: SafetyState)
      modifies this
      ensures Snapshot() == StepRun(old(Snapshot()), ResumeAnswer(g, accepted, state))
      ensures unchanged(`configureCache, `controlCache)
    {
      if !accepted && state != Normal {
        if startRequested && g == startGeneration {
          CancelPendingStart();
        }
      }
    }

    // ----- action callbacks -----

    method NoteAnswer(g: nat, taken: bool)
      modifies this`log, this`goalUnsendable, this`goalPhase, this`goalHandle
      ensures Snapshot() == StepRun(old(Snapshot()), GoalAnswer(g, taken))
    {
      log := log + [Answered(g, taken)];
      if g == goalGeneration {
        if !taken {
          goalUnsendable, goalPhase := true, GoalFailed;
        } else {
          goalHandle := Some(g);
        }
      }
    }

    method OnGoalAnswered(g: nat, taken: bool)
      requires Holds() && Allowed(Snapshot(), GoalAnswer(g, taken))
      modifies this
      ensures Holds() && Snapshot() == StepRun(old(Snapshot()), GoalAnswer(g, taken))
      ensures unchanged(`configureCache, `controlCache)
    {
      NoteAnswer(g, taken);
      Stepped(old(Snapshot()), GoalAnswer(g, taken));
    }

    method NoteResult(g: nat, succeeded: bool)
      modifies this`log, this`goalPhase, this`goalHandle
      ensures Snapshot() == StepRun(old(Snapshot()), GoalResult(g, succeeded))
    {
      log := log + [Finished(g, succeeded)];
      if g == goalGeneration {
        goalHandle := None;
        goalPhase := if succeeded then Succeeded else GoalFailed;
      }
    }

    method OnGoalFinished(g: nat, succeeded: bool)
      requires Holds() && Allowed(Snapshot(), GoalResult(g, succeeded))
      modifies this
      ensures Holds() && Snapshot() == StepRun(old(Snapshot()), GoalResult(g, succeeded))
      ensures unchanged(`configureCache, `controlCache)
    {
      NoteResult(g, succeeded);
      Stepped(old(Snapshot()), GoalResult(g, succeeded));
    }

    // ----- the timer -----

    /** Reports and consumes an outcome, or sends the goal. */
    method NavigateTo(goal: Goal, serverReady: bool) returns (status: TreeStatus)
      requires plan.Some?
      modifies this`goalPhase, this`goalGeneration, this`goalUnsendable, this`log
      ensures var t := Navigate(old(NavValue()), goal, GoalPose(old(Value()), goal), serverReady);
        status == t.status && NavValue() == t.nav && log == old(log) + t.entries
    {
      match goalPhase {
        case Active => return TreeRunning;
        case Succeeded =>
          goalPhase := NoGoal;
          log := log + [Visited(goal, goalGeneration)];
          return TreeSuccess;
        case GoalFailed =>
          goalPhase := NoGoal;
          return TreeFailure;
        case NoGoal =>
      }
      var pose := None;
      if goal == ToDock {
        if plan.value.hasDock {
          pose := Some(plan.value.dock.pose);
        }
      } else if index < |plan.value.waypoints| {
        pose := Some(plan.value.waypoints[index].pose);
      }
      if pose == None || !serverReady {
        goalUnsendable := true;
        return TreeFailure;
      }
      goalGeneration, goalPhase := goalGeneration + 1, Active;
      log := log + [GoalSent(goalGeneration, goal, pose.value)];
      return TreeRunning;
    }

    method TickGoal(goal: Goal, serverReady: bool) returns (status: TreeStatus)
      requires plan.Some?
      modifies this`goalPhase, this`goalGeneration, this`goalUnsendable, this`treeGoal, this`log
      ensures var t := TickTree(old(NavValue()), goal, GoalPose(old(Value()), goal), serverReady);
        status == t.status && NavValue() == t.nav && log == old(log) + t.entries
    {
      if treeGoal.Some? && treeGoal.value != goal {
        return TreeFailure;
      }
      treeGoal := Some(goal);
      status := NavigateTo(goal, serverReady);
      if status != TreeRunning {
        treeGoal := None;
      }
    }

    /** The executor of the navigation operation: a failure is blamed on the step
        unless the goal could not be sent. */
    method Execute(goal: Goal, serverReady: bool) returns (status: TreeStatus, failure: Event)
      requires plan.Some?
      modifies this`goalPhase, this`goalGeneration, this`goalUnsendable, this`treeGoal, this`activeOperation, this`log
      ensures var t := TickTree(old(NavValue()), goal, GoalPose(old(Value()), goal), serverReady);
        && status == t.status && failure == BlameFor(t) && activeOperation == Some(NAVIGATE_ONLY)
        && NavValue() == Blamed(t) && log == old(log) + t.entries
    {
      activeOperation := Some(NAVIGATE_ONLY);
      status := TickGoal(goal, serverReady);
      failure := TakeBlame(status == TreeFailure);
    }

    method TakeBlame(failed: bool) returns (failure: Event)
      modifies this`goalUnsendable
      ensures failure == if old(goalUnsendable) then PauseRequested else FatalStepFailure
      ensures NavValue() == if failed then old(NavValue()).(unsendable := false) else old(NavValue())
    {
      failure := if goalUnsendable then PauseRequested else FatalStepFailure;
      if failed {
        goalUnsendable := false;
      }
    }

    method Succeed(returning: bool)
      requires plan.Some?
      modifies this, fsm
      ensures Effect(Value(), log) == After(Effect(old(Value()), old(log)), StepDone(old(Value()), returning))
      ensures unchanged(`configureCache, `controlCache)
    {
      var accepted;
      if returning {
        accepted := Put(ReturnComplete);
        return;
      }
      index := index + 1;
      if index >= |plan.value.waypoints| {
        accepted := Put(InspectionComplete);
      }
    }

    /** What the verdict on a step that was ticked leads to. */
    method Finish(status: TreeStatus, failure: Event, returning: bool)
      requires plan.Some?
      modifies this, fsm
      ensures Effect(Value(), log) ==
              After(Effect(old(Value()), old(log)), FinishStep(old(Value()), status, failure, returning))
      ensures unchanged(`configureCache, `controlCache)
    {
      match status {
        case TreeRunning =>
        case TreeFailure => var accepted := Put(failure);
        case TreeSuccess =>
          activeOperation := None;
          Succeed(returning);
      }
    }

    method TickStep(goal: Goal, returning: bool, serverReady: bool)
      requires plan.Some?
      modifies this, fsm
      ensures var t := TickTree(old(NavValue()), goal, GoalPose(old(Value()), goal), serverReady);
        Effect(Value(), log) == After(Effect(old(Value()), old(log)), StepAfter(old(Value()), t, returning))
      ensures unchanged(`configureCache, `controlCache)
    {
      ghost var t := TickTree(NavValue(), goal, GoalPose(Value(), goal), serverReady);
      var status, failure := Execute(goal, serverReady);
      Finish(status, failure, returning);
      AfterIsAssociative(old(log), t.entries, FinishStep(Executed(old(Value()), t), status, failure, returning));
    }

    method TickInMotion(serverReady: bool)
      requires IsMoving(fsm.state) && plan.Some?
      modifies this, fsm
      ensures Effect(Value(), log) == After(Effect(old(Value()), old(log)), TickMoving(old(Value()), serverReady))
      ensures unchanged(`configureCache, `controlCache)
    {
      TickMovingIs(Value(), serverReady);
      var accepted;
      var returning := fsm.state == Returning;
      if !returning && index >= |plan.value.waypoints| {
        accepted := Put(InspectionComplete);
        return;
      }
      var operation := if returning then plan.value.dock.operation else plan.value.waypoints[index].operation;
      if operation != NAVIGATE_ONLY {
        accepted := Put(FatalStepFailure);
        return;
      }
      TickStep(if returning then ToDock else ToWaypoint(index), returning, serverReady);
    }

    method TickPendingStart(now: int, safetyReady: bool)
      requires fsm.state == Ready && startRequested
      modifies this, fsm
      ensures Effect(Value(), log) ==
              After(Effect(old(Value()), old(log)),
                    if DependenciesReady(old(inputs), now) then Dispatch(ClearStart(old(Value())), StartRequested)
                    else AskDependencies(old(Value()), now, safetyReady))
      ensures unchanged(`configureCache, `controlCache)
    {
      if DependenciesReady(inputs, now) {
        ClearPendingStart();
        var accepted := Put(StartRequested);
      } else {
        RequestDependencies(now, safetyReady);
      }
    }

    method TickRecovering(now: int, safetyReady: bool)
      requires fsm.state == Recovering
      modifies this, fsm
      ensures Effect(Value(), log) ==
              After(Effect(old(Value()), old(log)),
                    if DependenciesReady(old(inputs), now) then Dispatch(old(Value()), RecoveryReady)
                    else AskDependencies(old(Value()), now, safetyReady))
      ensures unchanged(`configureCache, `controlCache)
    {
      if DependenciesReady(inputs, now) {
        var accepted := Put(RecoveryReady);
      } else {
        RequestDependencies(now, safetyReady);
      }
    }

    method TickOnce(now: int, serverReady: bool, safetyReady: bool)
      requires IsMoving(fsm.state) ==> plan.Some?
      modifies this, fsm
      ensures Effect(Value(), log) ==
              After(Effect(old(Value()), old(log)), Tick(old(Value()), now, serverReady, safetyReady))
      ensures unchanged(`configureCache, `controlCache)
    {
      if fsm.state == Ready && startRequested {
        TickPendingStart(now, safetyReady);
      } else if fsm.state == Pausing {
        if IsQuiet(now) {
          var accepted := Put(MotionQuiesced);
        }
      } else if fsm.state == Recovering {
        TickRecovering(now, safetyReady);
      } else if IsMoving(fsm.state) {
        TickInMotion(serverReady);
      }
    }

    method OnTimer(now: int, serverReady: bool, safetyReady: bool)
      requires Holds()
      modifies this, fsm
      ensures Holds() && Snapshot() == StepRun(old(Snapshot()), Timer(now, serverReady, safetyReady))
      ensures unchanged(`configureCache, `controlCache)
    {
      TickOnce(now, serverReady, safetyReady);
      Stepped(old(Snapshot()), Timer(now, serverReady, safetyReady));
    }

    predicate IsQuiet(now: int)
      reads this, fsm
      ensures IsQuiet(now) <==> Quiesced(Value(), now)
    {
      && goalPhase != Active && goalHandle == None
      && Age(inputs.commandAt, now, 250) && inputs.commandZero
      && Age(inputs.stoppedAt, now, 500) && inputs.baseStopped
    }

    /** A step of the model keeps what the object promises. */
    lemma Stepped(before: Run, input: Input)
      requires Core(before.m) && Callbacks(before.m.nav, before.log) && Allowed(before, input)
      requires Snapshot() == StepRun(before, input)
      ensures Holds()
    {
      StepKeepsCallbacks(before, input);
      StepKeepsCore(before.m, input);
    }
  }
}
