/** Late and superseded action callbacks: what the trace says about the current
    goal generation. */
module MissionCallbacks {
  import opened Wrappers
  import opened MissionStateMachine
  import opened MissionManager
  import opened MissionInvariants

  predicate AboutGoals(e: Entry) {
    e.GoalSent? || e.Answered? || e.Finished? || e.Visited?
  }

  /** The generation has had its last callback. */
  predicate Settled(log: seq<Entry>, g: nat) {
    Finished(g, true) in log || Finished(g, false) in log || Answered(g, false) in log
  }

  predicate DatedBy(e: Entry, g: nat) {
    match e
    case GoalSent(h, _, _) => h <= g
    case Answered(h, _) => h <= g
    case Finished(h, _) => h <= g
    case Visited(_, h) => h <= g
    case _ => true
  }

  /** The goal phase is exactly what the callbacks of the current generation say. */
  ghost predicate Callbacks(n: Nav, log: seq<Entry>) {
    && (forall e | e in log :: DatedBy(e, n.generation))
    && (forall g, taken | Answered(g, taken) in log :: WasSent(log, g))
    && (forall g :: !(Answered(g, true) in log && Answered(g, false) in log))
    && (n.phase == NoGoal && WasSent(log, n.generation) ==> Settled(log, n.generation))
    && (n.phase != NoGoal ==> WasSent(log, n.generation))
    && (n.phase == Active <==> n.phase != NoGoal && !Settled(log, n.generation))
    && (n.phase == Succeeded ==> Finished(n.generation, true) in log)
    && (n.phase != NoGoal ==> forall goal :: Visited(goal, n.generation) !in log)
  }

  /** The goal is kept as it is, or dropped with a new generation. */
  predicate KeptOrCancelled(n: Nav, n': Nav) {
    (n'.phase == n.phase && n'.generation == n.generation)
    || (n'.phase == NoGoal && n'.generation == n.generation + 1)
  }

  lemma QuietKeepsCallbacks(n: Nav, n': Nav, log: seq<Entry>, entries: seq<Entry>)
    requires Callbacks(n, log) && KeptOrCancelled(n, n')
    requires forall e | e in entries :: !AboutGoals(e)
    ensures Callbacks(n', log + entries)
  {
  }

  lemma DispatchIsQuiet(m: Mission, e: Event)
    ensures KeptOrCancelled(m.nav, Dispatch(m, e).m.nav)
    ensures forall x | x in Dispatch(m, e).entries :: !AboutGoals(x)
  {
  }

  /** Every input but the timer and the callbacks leaves the goal alone or cancels it. */
  lemma QuietStep(m: Mission, input: Input)
    requires !input.Timer? && !input.GoalAnswer? && !input.GoalResult?
    ensures KeptOrCancelled(m.nav, Step(m, input).m.nav)
    ensures forall e | e in Step(m, input).entries :: !AboutGoals(e)
  {
    match input {
      case ControlCall(id, op, now, ready) =>
        if op != Start && op != UnknownOperation {
          DispatchIsQuiet(m, ControlEvent(m, op));
        }
      case SafetyInput(msg) =>
        DispatchIsQuiet(m.(inputs := m.inputs.(safety := Some(msg))), SafetyStop);
      case _ =>
    }
  }

  lemma CallbacksAreMatched(r: Run, input: Input)
    requires Callbacks(r.m.nav, r.log) && Allowed(r, input)
    ensures Matched(r.m, input)
  {
  }

  lemma GoalAnswerKeepsCallbacks(r: Run, g: nat, taken: bool)
    requires Callbacks(r.m.nav, r.log) && Allowed(r, GoalAnswer(g, taken))
    ensures Callbacks(OnGoalAnswer(r.m, g, taken).m.nav, r.log + [Answered(g, taken)])
  {
  }

  lemma GoalResultKeepsCallbacks(r: Run, g: nat, ok: bool)
    requires Callbacks(r.m.nav, r.log) && Allowed(r, GoalResult(g, ok))
    ensures Callbacks(OnGoalResult(r.m, g, ok).m.nav, r.log + [Finished(g, ok)])
  {
  }

  /** One call of `navigate_to`: an outcome is consumed, or a fresh generation sent. */
  lemma NavigateKeepsCallbacks(n: Nav, log: seq<Entry>, goal: Goal, pose: Option<Pose>, serverReady: bool)
    requires Callbacks(n, log)
    ensures var t := Navigate(n, goal, pose, serverReady);
      Callbacks(t.nav, log + t.entries)
  {
    var t := Navigate(n, goal, pose, serverReady);
    var log' := log + t.entries;
    match n.phase {
      case Active => assert log' == log;
      case GoalFailed => assert log' == log;
      case Succeeded => SentUnchanged(log, Visited(goal, n.generation));
      case NoGoal =>
        if t.entries == [] {
          assert log' == log;
        } else {
          SendKeepsCallbacks(n, log, goal, pose.value);
        }
    }
  }

  lemma SentUnchanged(log: seq<Entry>, e: Entry)
    requires !e.GoalSent?
    ensures forall g :: WasSent(log + [e], g) <==> WasSent(log, g)
  {
  }

  lemma SendKeepsCallbacks(n: Nav, log: seq<Entry>, goal: Goal, pose: Pose)
    requires Callbacks(n, log) && n.phase == NoGoal
    ensures Callbacks(n.(generation := n.generation + 1, phase := Active),
                      log + [GoalSent(n.generation + 1, goal, pose)])
  {
  }

  lemma QuietTick(m: Mission, now: int, serverReady: bool, safetyReady: bool)
    requires !IsMoving(m.fsm.state)
    ensures KeptOrCancelled(m.nav, Tick(m, now, serverReady, safetyReady).m.nav)
    ensures forall e | e in Tick(m, now, serverReady, safetyReady).entries :: !AboutGoals(e)
  {
    match m.fsm.state {
      case Ready => DispatchIsQuiet(ClearStart(m), StartRequested);
      case Pausing => DispatchIsQuiet(m, MotionQuiesced);
      case Recovering => DispatchIsQuiet(m, RecoveryReady);
      case _ =>
    }
  }

  lemma TickMovingKeepsCallbacks(m: Mission, log: seq<Entry>, serverReady: bool)
    requires Core(m) && Callbacks(m.nav, log) && IsMoving(m.fsm.state) && m.plan.Some?
    ensures Callbacks(TickMoving(m, serverReady).m.nav, log + TickMoving(m, serverReady).entries)
  {
    var t, m1, event := TickMovingShape(m, serverReady);
    var goal := CurrentGoal(m);
    NavigateKeepsCallbacks(m.nav, log, goal, GoalPose(m, goal), serverReady);
    ConcludedKeepsCallbacks(m, log, t, m1, event);
  }

  lemma ConcludedKeepsCallbacks(m: Mission, log: seq<Entry>, t: Ticked, m1: Mission, event: Option<Event>)
    requires m.plan.Some? && Verdict(m, t, m1, event) && Callbacks(t.nav, log + t.entries)
    ensures Callbacks(Concluded(t, m1, event).m.nav, log + Concluded(t, m1, event).entries)
  {
    if event.Some? {
      var d := Dispatch(m1, event.value);
      DispatchIsQuiet(m1, event.value);
      QuietKeepsCallbacks(t.nav, d.m.nav, log + t.entries, d.entries);
      assert log + (t.entries + d.entries) == log + t.entries + d.entries;
    }
  }

  lemma StepKeepsCallbacks(r: Run, input: Input)
    requires Core(r.m) && Callbacks(r.m.nav, r.log) && Allowed(r, input)
    ensures Callbacks(StepRun(r, input).m.nav, StepRun(r, input).log)
    ensures Matched(r.m, input)
  {
    CallbacksAreMatched(r, input);
    if input.Timer? {
      if IsMoving(r.m.fsm.state) {
        TickMovingKeepsCallbacks(r.m, r.log, input.serverReady);
      } else {
        QuietTick(r.m, input.now, input.serverReady, input.safetyReady);
        QuietKeepsCallbacks(r.m.nav, StepRun(r, input).m.nav, r.log, Step(r.m, input).entries);
      }
    } else if input.GoalAnswer? {
      GoalAnswerKeepsCallbacks(r, input.generation, input.taken);
    } else if input.GoalResult? {
      GoalResultKeepsCallbacks(r, input.generation, input.succeeded);
    } else {
      QuietStep(r.m, input);
      QuietKeepsCallbacks(r.m.nav, StepRun(r, input).m.nav, r.log, Step(r.m, input).entries);
    }
  }
}
