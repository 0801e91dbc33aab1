/** Every valid plan can be completed: the promises about completed missions speak of runs
    that exist. */
module MissionProgress {
  import opened Wrappers
  import opened ControlMessages
  import opened MissionStateMachine
  import opened MissionManager
  import opened MissionInvariants
  import opened MissionCallbacks

  const TICK := Timer(0, true, true)

  /** A property of runs that every step the environment allows keeps. */
  ghost predicate Closed(reached: Run -> bool) {
    forall r, input :: reached(r) && Allowed(r, input) ==> reached(StepRun(r, input))
  }

  ghost predicate Kept(r: Run) {
    Core(r.m) && Callbacks(r.m.nav, r.log)
  }

  lemma Do(r: Run, input: Input, reached: Run -> bool) returns (q: Run)
    requires Closed(reached) && reached(r) && Kept(r) && Allowed(r, input)
    ensures reached(q) && Kept(q) && q == StepRun(r, input)
  {
    q := StepRun(r, input);
    StepKeepsCallbacks(r, input);
    StepKeepsCore(r.m, input);
  }

  // ----- one goal -----

  /** Moving, with no goal outstanding. */
  predicate IsFree(m: Mission) {
    IsMoving(m.fsm.state) && m.plan.Some? && m.nav.phase == NoGoal
  }

  /** The goal of generation `g` is being ticked, and nothing has been heard of it. */
  ghost predicate Awaits(r: Run, g: nat) {
    && IsMoving(r.m.fsm.state) && r.m.plan.Some? && r.m.nav.phase == Active && r.m.nav.generation == g
    && WasSent(r.log, g)
    && (forall taken :: Answered(g, taken) !in r.log)
    && (forall ok :: Finished(g, ok) !in r.log)
  }

  predicate SameMission(m: Mission, m': Mission) {
    m'.fsm == m.fsm && m'.plan == m.plan && m'.index == m.index
  }

  lemma SendGoal(r: Run, reached: Run -> bool) returns (q: Run)
    requires Closed(reached) && reached(r) && Kept(r) && IsFree(r.m)
    ensures reached(q) && Kept(q) && SameMission(r.m, q.m) && Awaits(q, r.m.nav.generation + 1)
  {
    var g := r.m.nav.generation + 1;
    TreeTickIs(r.m, true);
    var t, m1, event := TickMovingShape(r.m, true);
    q := Do(r, TICK, reached);
    assert t.entries == [GoalSent(g, CurrentGoal(r.m), PoseFor(r.m.plan.value, CurrentGoal(r.m)))];
    assert t.entries[0] in q.log;
    NothingOfTheFuture(r, g, t.entries[0]);
  }

  lemma NothingOfTheFuture(r: Run, g: nat, sent: Entry)
    requires Kept(r) && g > r.m.nav.generation && sent.GoalSent?
    ensures forall taken :: Answered(g, taken) !in r.log + [sent]
    ensures forall ok :: Finished(g, ok) !in r.log + [sent]
  {
    forall e | e in r.log ensures DatedBy(e, r.m.nav.generation) {
    }
    forall taken ensures Answered(g, taken) !in r.log {
      assert !DatedBy(Answered(g, taken), r.m.nav.generation);
    }
    forall ok ensures Finished(g, ok) !in r.log {
      assert !DatedBy(Finished(g, ok), r.m.nav.generation);
    }
  }

  lemma Succeed(r: Run, reached: Run -> bool, g: nat) returns (q: Run)
    requires Closed(reached) && reached(r) && Kept(r) && Awaits(r, g)
    ensures reached(q) && Kept(q) && SameMission(r.m, q.m) && q.m.nav.phase == Succeeded
  {
    q := Do(r, GoalAnswer(g, true), reached);
    assert Answered(g, true) in q.log;
    q := Do(q, GoalResult(g, true), reached);
  }

  /** One waypoint further, or on to the dock, or done. */
  predicate Advances(m: Mission, m': Mission)
    requires m.plan.Some?
  {
    && m'.plan == m.plan && m'.fsm.returnToDock == m.fsm.returnToDock
    && if m.fsm.state == Returning then m'.fsm.state == Completed
       else if m.index + 1 < |m.plan.value.waypoints| then
         m'.fsm.state == Running && m'.index == m.index + 1 && IsFree(m')
       else if m.fsm.returnToDock then m'.fsm.state == Returning && IsFree(m')
       else m'.fsm.state == Completed
  }

  lemma TickAdvances(m: Mission)
    requires Core(m) && IsMoving(m.fsm.state) && m.plan.Some? && m.nav.phase == Succeeded
    ensures Advances(m, TickMoving(m, true).m)
  {
    TreeTickIs(m, true);
    var t, m1, event := TickMovingShape(m, true);
    VerdictAdvances(m, t, m1, event);
  }

  lemma VerdictAdvances(m: Mission, t: Ticked, m1: Mission, event: Option<Event>)
    requires Lifecycle(m) && IsMoving(m.fsm.state) && m.plan.Some? && Verdict(m, t, m1, event)
    requires t.status == TreeSuccess && t.nav.phase == NoGoal
    ensures Advances(m, Concluded(t, m1, event).m)
  {
  }

  lemma OneGoal(r: Run, reached: Run -> bool) returns (q: Run)
    requires Closed(reached) && reached(r) && Kept(r) && IsFree(r.m)
    ensures reached(q) && Kept(q) && Advances(r.m, q.m)
  {
    q := SendGoal(r, reached);
    q := Succeed(q, reached, r.m.nav.generation + 1);
    TickAdvances(q.m);
    q := Do(q, TICK, reached);
  }

  /** From any point on the way, the mission can be finished. */
  lemma {:induction false} Finish(r: Run, reached: Run -> bool) returns (q: Run)
    requires Closed(reached) && reached(r) && Kept(r) && IsFree(r.m)
    ensures reached(q) && q.m.plan == r.m.plan && q.m.fsm.state == Completed
    decreases if r.m.fsm.state == Returning then 0 else |r.m.plan.value.waypoints| - r.m.index + 1
  {
    q := OneGoal(r, reached);
    if q.m.fsm.state != Completed {
      q := Finish(q, reached);
    }
  }

  // ----- getting under way -----

  lemma Configured(reached: Run -> bool, capabilities: set<string>, mapFrame: string, p: Plan) returns (q: Run)
    requires Closed(reached) && reached(Run(InitialMission(capabilities, mapFrame), []))
    requires ValidPlan(p, capabilities)
    ensures reached(q) && Kept(q) && q.m.fsm.state == Ready && q.m.plan == Some(Adopted(p, mapFrame))
    ensures q.m.nav.phase == NoGoal && q.m.inputs.safety == None
  {
    q := Do(Run(InitialMission(capabilities, mapFrame), []), ConfigureCall(p), reached);
  }

  lemma Prepared(r: Run, reached: Run -> bool) returns (q: Run)
    requires Closed(reached) && reached(r) && Kept(r) && r.m.fsm.state == Ready && r.m.inputs.safety == None
    ensures reached(q) && Kept(q) && q.m.fsm == r.m.fsm && q.m.plan == r.m.plan && q.m.nav == r.m.nav
    ensures DependenciesReady(q.m.inputs, 0)
  {
    q := Do(r, SafetyInput(SafetyMessage(Normal, 0)), reached);
    q := Do(q, AuthorityInput(BaseActive), reached);
    q := Do(q, OdometryInput(0), reached);
  }

  lemma Started(r: Run, reached: Run -> bool) returns (q: Run)
    requires Closed(reached) && reached(r) && Kept(r) && r.m.fsm.state == Ready && r.m.nav.phase == NoGoal
    requires DependenciesReady(r.m.inputs, 0)
    ensures reached(q) && Kept(q) && q.m.plan == r.m.plan && IsFree(q.m)
  {
    q := Do(r, ControlCall("", Start, 0, true), reached);
    StartMoves(q.m);
    q := Do(q, TICK, reached);
  }

  lemma StartMoves(m: Mission)
    requires Core(m) && m.fsm.state == Ready && m.start.requested && m.nav.phase == NoGoal
    requires DependenciesReady(m.inputs, 0)
    ensures IsFree(Tick(m, 0, true, true).m) && Tick(m, 0, true, true).m.plan == m.plan
  {
  }

  lemma GrowsReachable(r: Run, inputs: seq<Input>, input: Input, capabilities: set<string>, mapFrame: string)
    requires Reachable(r, inputs, capabilities, mapFrame) && Allowed(r, input)
    ensures Reachable(StepRun(r, input), inputs + [input], capabilities, mapFrame)
  {
    var more := inputs + [input];
    assert more[..|more| - 1] == inputs && more[|more| - 1] == input;
  }

  /** Every valid plan has a run that ends with that plan completed. */
  lemma ValidPlansCanBeCompleted(capabilities: set<string>, mapFrame: string, p: Plan)
    returns (r: Run, inputs: seq<Input>)
    requires ValidPlan(p, capabilities)
    ensures Reachable(r, inputs, capabilities, mapFrame)
    ensures r.m.fsm.state == Completed && r.m.plan == Some(Adopted(p, mapFrame))
  {
    var reached: Run -> bool := q => exists log :: Reachable(q, log, capabilities, mapFrame);
    forall q, input | reached(q) && Allowed(q, input) ensures reached(StepRun(q, input)) {
      var log :| Reachable(q, log, capabilities, mapFrame);
      GrowsReachable(q, log, input, capabilities, mapFrame);
    }
    var start := Run(InitialMission(capabilities, mapFrame), []);
    assert Reachable(start, [], capabilities, mapFrame);
    r := Configured(reached, capabilities, mapFrame, p);
    r := Prepared(r, reached);
    r := Started(r, reached);
    r := Finish(r, reached);
    inputs :| Reachable(r, inputs, capabilities, mapFrame);
  }
}
