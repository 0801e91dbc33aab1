/** A completed mission visited every waypoint of its plan, in order, and then the
    dock if the plan says so. */
module MissionItinerary {
  import opened Wrappers
  import opened ControlMessages
  import opened MissionStateMachine
  import opened MissionManager
  import opened MissionInvariants
  import opened MissionCallbacks

  // ----- reading the trace -----

  /** The entry a mission's motion begins with. */
  predicate IsStart(e: Entry) {
    e == Moved(Ready, StartRequested, Running)
  }

  predicate HasStart(log: seq<Entry>) {
    exists e :: e in log && IsStart(e)
  }

  /** The entries after the last start. */
  function SinceStart(log: seq<Entry>): seq<Entry> {
    if log == [] then []
    else
      var n := |log| - 1;
      if IsStart(log[n]) then [] else SinceStart(log[..n]) + [log[n]]
  }

  /** The plan configured last. */
  function LastPlan(log: seq<Entry>): Option<Plan> {
    if log == [] then None
    else
      var n := |log| - 1;
      if log[n].Configured? then Some(log[n].plan) else LastPlan(log[..n])
  }

  /** The goals whose success was consumed, in order. */
  function Goals(s: seq<Entry>): seq<Goal> {
    if s == [] then []
    else
      var n := |s| - 1;
      Goals(s[..n]) + if s[n].Visited? then [s[n].goal] else []
  }

  /** Waypoints 0 to `index - 1`, then the dock if a plan that returns is done. */
  function Itinerary(p: Plan, index: nat, done: bool): seq<Goal> {
    seq(index, i requires 0 <= i => ToWaypoint(i)) + if done && p.returnToDock then [ToDock] else []
  }

  predicate Open(s: seq<Entry>, a: nat) {
    forall k | a <= k < |s| :: !s[k].Visited?
  }

  predicate SentAt(s: seq<Entry>, a: nat, g: nat, goal: Goal, p: Plan) {
    a < |s| && s[a] == GoalSent(g, goal, PoseFor(p, goal)) && Open(s, a)
  }

  /** The goal was sent after the last visit. */
  ghost predicate SentOpen(s: seq<Entry>, g: nat, goal: Goal, p: Plan) {
    exists a :: SentAt(s, a, g, goal, p)
  }

  predicate ArrivedAt(s: seq<Entry>, a: nat, b: nat, g: nat, goal: Goal, p: Plan) {
    SentAt(s, a, g, goal, p) && a < b < |s| && s[b] == Finished(g, true)
  }

  /** The goal was sent after the last visit, to the pose the plan gives, and then
      reported to have succeeded. */
  ghost predicate Arrived(s: seq<Entry>, g: nat, goal: Goal, p: Plan) {
    exists a, b :: ArrivedAt(s, a, b, g, goal, p)
  }

  /** Every visit was earned by its own goal, sent after the visit before it. */
  ghost predicate AllEarned(s: seq<Entry>, p: Plan) {
    forall k | 0 <= k < |s| && s[k].Visited? :: Arrived(s[..k], s[k].generation, s[k].goal, p)
  }

  ghost predicate TrailAt(p: Plan, index: nat, done: bool, n: Nav, s: seq<Entry>) {
    && Goals(s) == Itinerary(p, index, done)
    && (forall e | e in s :: !e.Configured?)
    && AllEarned(s, p)
    && (n.phase != NoGoal ==> n.active.Some? && SentOpen(s, n.generation, n.active.value, p))
    && (n.phase == Succeeded ==> n.active.Some? && Arrived(s, n.generation, n.active.value, p))
  }

  predicate Underway(s: State) {
    s != Idle && s != Ready
  }

  ghost predicate Trail(m: Mission, log: seq<Entry>) {
    && (m.plan.Some? ==> LastPlan(log) == m.plan)
    && (Underway(m.fsm.state) ==>
          && m.plan.Some? && HasStart(log)
          && TrailAt(m.plan.value, m.index, m.fsm.state == Completed, m.nav, SinceStart(log)))
  }

  // ----- appending to the trace -----

  predicate Plain(e: Entry) {
    !e.Visited? && !e.Configured? && !IsStart(e)
  }

  lemma {:induction false} ReadAppend(log: seq<Entry>, es: seq<Entry>)
    requires forall e | e in es :: !e.Configured? && !IsStart(e)
    ensures SinceStart(log + es) == SinceStart(log) + es
    ensures LastPlan(log + es) == LastPlan(log)
    ensures HasStart(log) ==> HasStart(log + es)
  {
    if es == [] {
      assert log + es == log;
    } else {
      var n := |es| - 1;
      ReadAppend(log, es[..n]);
      assert (log + es)[..|log + es| - 1] == log + es[..n];
      assert SinceStart(log) + es[..n] + [es[n]] == SinceStart(log) + es;
      if HasStart(log) {
        var e :| e in log && IsStart(e);
        assert e in log + es;
      }
    }
  }

  lemma {:induction false} GoalsAppendPlain(s: seq<Entry>, es: seq<Entry>)
    requires forall e | e in es :: !e.Visited?
    ensures Goals(s + es) == Goals(s)
  {
    if es == [] {
      assert s + es == s;
    } else {
      var n := |es| - 1;
      GoalsAppendPlain(s, es[..n]);
      assert (s + es)[..|s + es| - 1] == s + es[..n];
    }
  }

  lemma ArrivedGrows(s: seq<Entry>, es: seq<Entry>, g: nat, goal: Goal, p: Plan)
    requires forall e | e in es :: !e.Visited?
    ensures SentOpen(s, g, goal, p) ==> SentOpen(s + es, g, goal, p)
    ensures Arrived(s, g, goal, p) ==> Arrived(s + es, g, goal, p)
  {
    if SentOpen(s, g, goal, p) {
      var a :| SentAt(s, a, g, goal, p);
      assert SentAt(s + es, a, g, goal, p);
    }
    if Arrived(s, g, goal, p) {
      var a, b :| ArrivedAt(s, a, b, g, goal, p);
      assert ArrivedAt(s + es, a, b, g, goal, p);
    }
  }

  lemma AllEarnedAppend(s: seq<Entry>, es: seq<Entry>, p: Plan)
    requires AllEarned(s, p) && forall e | e in es :: !e.Visited?
    ensures AllEarned(s + es, p)
  {
    var s' := s + es;
    assert forall k | |s| <= k < |s'| :: s'[k] in es;
    forall k | 0 <= k < |s'| && s'[k].Visited? ensures Arrived(s'[..k], s'[k].generation, s'[k].goal, p) {
      if k < |s| {
        assert s'[..k] == s[..k];
      }
    }
  }

  /** The goal being ticked is the same one or gone, and its outcome is not news. */
  predicate NoNews(n: Nav, n': Nav) {
    n'.phase == NoGoal
    || (n.phase != NoGoal && n'.generation == n.generation && n'.active == n.active
        && (n'.phase == Succeeded ==> n.phase == Succeeded))
  }

  lemma TrailPlain(p: Plan, index: nat, done: bool, done': bool, n: Nav, n': Nav, s: seq<Entry>, es: seq<Entry>)
    requires TrailAt(p, index, done, n, s) && NoNews(n, n')
    requires done == done' || !p.returnToDock
    requires forall e | e in es :: Plain(e)
    ensures TrailAt(p, index, done', n', s + es)
  {
    GoalsAppendPlain(s, es);
    AllEarnedAppend(s, es, p);
    if n'.phase != NoGoal {
      ArrivedGrows(s, es, n.generation, n.active.value, p);
    }
  }

  lemma TrailSend(p: Plan, index: nat, n: Nav, s: seq<Entry>, goal: Goal)
    requires TrailAt(p, index, false, n, s) && n.phase == NoGoal
    ensures TrailAt(p, index, false, n.(generation := n.generation + 1, phase := Active, active := Some(goal)),
                    s + [GoalSent(n.generation + 1, goal, PoseFor(p, goal))])
  {
    var es := [GoalSent(n.generation + 1, goal, PoseFor(p, goal))];
    GoalsAppendPlain(s, es);
    AllEarnedAppend(s, es, p);
    assert SentAt(s + es, |s|, n.generation + 1, goal, p);
  }

  lemma TrailFinish(p: Plan, index: nat, done: bool, n: Nav, n': Nav, s: seq<Entry>)
    requires TrailAt(p, index, done, n, s) && n.phase == Active
    requires n'.phase == Succeeded && n'.generation == n.generation && n'.active == n.active
    ensures TrailAt(p, index, done, n', s + [Finished(n.generation, true)])
  {
    var es := [Finished(n.generation, true)];
    GoalsAppendPlain(s, es);
    AllEarnedAppend(s, es, p);
    var a :| SentAt(s, a, n.generation, n.active.value, p);
    assert ArrivedAt(s + es, a, |s|, n.generation, n.active.value, p);
    ArrivedGrows(s, es, n.generation, n.active.value, p);
  }

  lemma TrailVisit(p: Plan, index: nat, n: Nav, n': Nav, s: seq<Entry>, goal: Goal)
    requires TrailAt(p, index, false, n, s)
    requires n.phase == Succeeded && n.active == Some(goal) && n'.phase == NoGoal
    ensures goal == ToWaypoint(index) ==> TrailAt(p, index + 1, false, n', s + [Visited(goal, n.generation)])
    ensures goal == ToDock && p.returnToDock ==> TrailAt(p, index, true, n', s + [Visited(goal, n.generation)])
  {
    var s' := s + [Visited(goal, n.generation)];
    assert s'[..|s|] == s;
    assert Goals(s') == Goals(s) + [goal];
    assert Itinerary(p, index, false) + [ToWaypoint(index)] == Itinerary(p, index + 1, false);
    assert Itinerary(p, index, false) + [ToDock] == Itinerary(p, index, true) || !p.returnToDock;
    forall k | 0 <= k < |s'| && s'[k].Visited? ensures Arrived(s'[..k], s'[k].generation, s'[k].goal, p) {
      if k < |s| {
        assert s'[..k] == s[..k];
      }
    }
  }

  // ----- the steps -----

  /** A step that keeps plan and progress, and brings no news of the goal. */
  predicate Continues(m: Mission, m': Mission) {
    && (m'.plan.Some? ==> m'.plan == m.plan)
    && (Underway(m'.fsm.state) ==>
          && Underway(m.fsm.state) && m.plan.Some? && m'.plan == m.plan && m'.index == m.index
          && NoNews(m.nav, m'.nav)
          && (m'.fsm.state == Completed && m.plan.value.returnToDock ==> m.fsm.state == Completed)
          && (m.fsm.state == Completed ==> m'.fsm.state == Completed))
  }

  lemma ContinuationKeepsTrail(m: Mission, m': Mission, log: seq<Entry>, es: seq<Entry>)
    requires Trail(m, log) && Continues(m, m') && forall e | e in es :: Plain(e)
    ensures Trail(m', log + es)
  {
    ReadAppend(log, es);
    if Underway(m'.fsm.state) {
      TrailPlain(m.plan.value, m.index, m.fsm.state == Completed, m'.fsm.state == Completed, m.nav, m'.nav,
                 SinceStart(log), es);
    }
  }

  lemma DispatchContinues(m: Mission, e: Event)
    requires Underway(m.fsm.state) ==> m.plan.Some?
    requires e != StartRequested && e != MissionConfigured && e != ReturnComplete && WellFormed(m.fsm)
    requires m.plan.Some? ==> m.fsm.returnToDock == m.plan.value.returnToDock
    ensures Continues(m, Dispatch(m, e).m)
  {
  }

  lemma DispatchIsPlain(m: Mission, e: Event)
    requires e != StartRequested
    ensures forall x | x in Dispatch(m, e).entries :: Plain(x)
  {
  }

  lemma DispatchKeepsTrail(m: Mission, log: seq<Entry>, e: Event)
    requires Trail(m, log) && (Underway(m.fsm.state) ==> m.plan.Some?)
    requires e != StartRequested && e != MissionConfigured && e != ReturnComplete && WellFormed(m.fsm)
    requires m.plan.Some? ==> m.fsm.returnToDock == m.plan.value.returnToDock
    ensures Trail(Dispatch(m, e).m, log + Dispatch(m, e).entries)
  {
    DispatchContinues(m, e);
    DispatchIsPlain(m, e);
    ContinuationKeepsTrail(m, Dispatch(m, e).m, log, Dispatch(m, e).entries);
  }

  lemma StartKeepsTrail(m: Mission, log: seq<Entry>)
    requires Core(m) && Trail(m, log) && m.fsm.state == Ready
    ensures var d := Dispatch(ClearStart(m), StartRequested);
      Trail(d.m, log + d.entries)
  {
    var d := Dispatch(ClearStart(m), StartRequested);
    assert d.entries == [Moved(Ready, StartRequested, Running)];
    var log' := log + d.entries;
    assert log'[..|log' | - 1] == log;
    assert SinceStart(log') == [] && LastPlan(log') == LastPlan(log);
    assert d.entries[0] in log' && IsStart(d.entries[0]);
    assert Goals([]) == Itinerary(m.plan.value, 0, false);
  }

  lemma ConfigureKeepsTrail(m: Mission, log: seq<Entry>, p: Plan)
    requires Core(m) && Trail(m, log)
    ensures Trail(Configure(m, p).m, log + Configure(m, p).entries)
  {
    var d := Configure(m, p);
    if d.entries == [] {
      assert log + d.entries == log;
    } else {
      assert LastPlan(log + d.entries) == d.m.plan;
    }
  }

  /** Steps that only note something and touch neither plan, progress nor goal. */
  lemma NoteKeepsTrail(m: Mission, m': Mission, log: seq<Entry>, es: seq<Entry>)
    requires Trail(m, log) && m'.plan == m.plan && m'.index == m.index && m'.fsm == m.fsm
    requires m'.nav == m.nav && forall e | e in es :: Plain(e)
    requires Underway(m.fsm.state) ==> m.plan.Some?
    ensures Trail(m', log + es)
  {
    ContinuationKeepsTrail(m, m', log, es);
  }

  lemma ControlKeepsTrail(m: Mission, log: seq<Entry>, id: string, op: Operation, now: int, ready: bool)
    requires Core(m) && Trail(m, log)
    ensures Trail(Control(m, id, op, now, ready).m, log + Control(m, id, op, now, ready).entries)
  {
    var c := Control(m, id, op, now, ready);
    if !ControlAccepted(m, id, op) || op == Start {
      NoteKeepsTrail(m, c.m, log, c.entries);
    } else {
      DispatchKeepsTrail(m, log, ControlEvent(m, op));
      if op == Resume {
        ResumeAskKeepsTrail(Dispatch(m, ResumeRequested), log, now, ready);
      }
    }
  }

  lemma ResumeAskKeepsTrail(d: Effect, log: seq<Entry>, now: int, ready: bool)
    requires Trail(d.m, log + d.entries)
    ensures var a := After(d, AskDependencies(d.m, now, ready));
      Trail(a.m, log + a.entries)
  {
    var a := AskDependencies(d.m, now, ready);
    NoteKeepsTrail(d.m, a.m, log + d.entries, a.entries);
    assert log + d.entries + a.entries == log + (d.entries + a.entries);
  }

  /** The message stops what is under way, or is only noted. */
  predicate Halts(m: Mission, msg: SafetyMessage) {
    msg.state != Normal && (IsMoving(m.fsm.state) || m.fsm.state == Recovering)
  }

  lemma HaltKeepsTrail(m: Mission, log: seq<Entry>, msg: SafetyMessage)
    requires Core(m) && Trail(m, log)
    ensures var d := Dispatch(m.(inputs := m.inputs.(safety := Some(msg))), SafetyStop);
      Trail(d.m, log + ([Heard(msg)] + d.entries))
  {
    var m1 := m.(inputs := m.inputs.(safety := Some(msg)));
    var d := Dispatch(m1, SafetyStop);
    NoteKeepsTrail(m, m1, log, [Heard(msg)]);
    DispatchKeepsTrail(m1, log + [Heard(msg)], SafetyStop);
    AppendTwice(log, [Heard(msg)], d.entries);
  }

  lemma AppendTwice(log: seq<Entry>, a: seq<Entry>, b: seq<Entry>)
    ensures log + a + b == log + (a + b)
  {
  }

  lemma HaltingIs(m: Mission, msg: SafetyMessage)
    requires Core(m) && Halts(m, msg)
    ensures var d := Dispatch(m.(inputs := m.inputs.(safety := Some(msg))), SafetyStop);
      OnSafety(m, msg) == Effect(d.m, [Heard(msg)] + d.entries)
  {
  }

  lemma OnSafetyKeepsTrail(m: Mission, log: seq<Entry>, msg: SafetyMessage)
    requires Core(m) && Trail(m, log)
    ensures Trail(OnSafety(m, msg).m, log + OnSafety(m, msg).entries)
  {
    if Halts(m, msg) {
      HaltKeepsTrail(m, log, msg);
      HaltingIs(m, msg);
    } else {
      var e := OnSafety(m, msg);
      NoteKeepsTrail(m, e.m, log, e.entries);
    }
  }

  lemma CallbackKeepsTrail(m: Mission, log: seq<Entry>, input: Input)
    requires Core(m) && Trail(m, log) && Matched(m, input) && (input.GoalAnswer? || input.GoalResult?)
    ensures Trail(Step(m, input).m, log + Step(m, input).entries)
  {
    var e := Step(m, input);
    ReadAppend(log, e.entries);
    if Underway(m.fsm.state) {
      var p, s, done := m.plan.value, SinceStart(log), m.fsm.state == Completed;
      if NoNews(m.nav, e.m.nav) {
        TrailPlain(p, m.index, done, done, m.nav, e.m.nav, s, e.entries);
      } else {
        TrailFinish(p, m.index, done, m.nav, e.m.nav, s);
      }
    }
  }

  /** Ticking the tree: a goal may be sent, or the current goal visited. */
  lemma TreeKeepsTrail(p: Plan, index: nat, n: Nav, s: seq<Entry>, goal: Goal, serverReady: bool)
    requires TrailAt(p, index, false, n, s)
    requires n.active.Some? ==> n.active.value == goal
    requires goal == ToWaypoint(index) || (goal == ToDock && p.returnToDock)
    ensures var t := TreeOutcome(n, goal, PoseFor(p, goal), serverReady);
      var visited := t.status == TreeSuccess;
      && TrailAt(p, if visited && goal != ToDock then index + 1 else index, visited && goal == ToDock,
                 t.nav, s + t.entries)
      && forall e | e in t.entries :: !e.Configured? && !IsStart(e)
  {
    var t := TreeOutcome(n, goal, PoseFor(p, goal), serverReady);
    if t.status == TreeSuccess {
      TrailVisit(p, index, n, t.nav, s, goal);
    } else if t.entries == [] {
      TrailPlain(p, index, false, false, n, t.nav, s, []);
      assert s + [] == s;
    } else {
      TrailSend(p, index, n, s, goal);
    }
  }

  lemma ReturnDispatch(m: Mission)
    requires m.fsm.state == Returning
    ensures Dispatch(m, ReturnComplete)
         == Effect(m.(fsm := m.fsm.(state := Completed)), [Moved(Returning, ReturnComplete, Completed)])
  {
  }

  lemma CompletedTrail(m: Mission, log: seq<Entry>)
    requires m.plan.Some? && m.fsm.state == Completed && LastPlan(log) == m.plan && HasStart(log)
    requires TrailAt(m.plan.value, m.index, true, m.nav, SinceStart(log))
    ensures Trail(m, log + [Moved(Returning, ReturnComplete, Completed)])
  {
    assert Trail(m, log);
    ContinuationKeepsTrail(m, m, log, [Moved(Returning, ReturnComplete, Completed)]);
  }

  lemma ReturnKeepsTrail(m: Mission, log: seq<Entry>)
    requires m.plan.Some? && m.fsm.state == Returning && LastPlan(log) == m.plan && HasStart(log)
    requires TrailAt(m.plan.value, m.index, true, m.nav, SinceStart(log))
    ensures Trail(Dispatch(m, ReturnComplete).m, log + Dispatch(m, ReturnComplete).entries)
  {
    ReturnDispatch(m);
    CompletedTrail(m.(fsm := m.fsm.(state := Completed)), log);
  }

  lemma TickMovingKeepsTrail(m: Mission, log: seq<Entry>, serverReady: bool)
    requires Core(m) && Trail(m, log) && IsMoving(m.fsm.state) && m.plan.Some?
    ensures Trail(TickMoving(m, serverReady).m, log + TickMoving(m, serverReady).entries)
  {
    var t, m1, event := TickMovingShape(m, serverReady);
    TreeTickKeepsTrail(m, log, serverReady);
    VerdictKeepsTrail(m, log, t, m1, event);
  }

  /** What the trail says after the tree was ticked and before its verdict is acted on. */
  ghost predicate TreeTrail(m: Mission, log: seq<Entry>, t: Ticked)
    requires m.plan.Some?
  {
    && LastPlan(log) == m.plan && HasStart(log)
    && var visited := t.status == TreeSuccess;
       TrailAt(m.plan.value, if visited && m.fsm.state == Running then m.index + 1 else m.index,
               visited && m.fsm.state == Returning, t.nav, SinceStart(log))
  }

  lemma TreeTickKeepsTrail(m: Mission, log: seq<Entry>, serverReady: bool)
    requires Core(m) && Trail(m, log) && IsMoving(m.fsm.state) && m.plan.Some?
    ensures TreeTrail(m, log + TreeTick(m, serverReady).entries, TreeTick(m, serverReady))
  {
    var p, goal := m.plan.value, CurrentGoal(m);
    var t := TreeOutcome(m.nav, goal, PoseFor(p, goal), serverReady);
    TreeTickIs(m, serverReady);
    TreeKeepsTrail(p, m.index, m.nav, SinceStart(log), goal, serverReady);
    ReadAppend(log, t.entries);
  }

  lemma VerdictKeepsTrail(m: Mission, log: seq<Entry>, t: Ticked, m1: Mission, event: Option<Event>)
    requires Core(m) && IsMoving(m.fsm.state) && m.plan.Some? && Verdict(m, t, m1, event)
    requires TreeTrail(m, log + t.entries, t)
    ensures Trail(Concluded(t, m1, event).m, log + Concluded(t, m1, event).entries)
  {
    ConcludedKeepsTrail(m, log + t.entries, t, m1, event);
    if event.Some? {
      var d := Dispatch(m1, event.value);
      assert log + (t.entries + d.entries) == log + t.entries + d.entries;
    }
  }

  lemma ConcludedKeepsTrail(m: Mission, log: seq<Entry>, t: Ticked, m1: Mission, event: Option<Event>)
    requires Core(m) && IsMoving(m.fsm.state) && m.plan.Some? && Verdict(m, t, m1, event)
    requires TreeTrail(m, log, t)
    ensures event == None ==> Trail(m1, log)
    ensures event.Some? ==> Trail(Dispatch(m1, event.value).m, log + Dispatch(m1, event.value).entries)
  {
    assert TrailAt(m.plan.value, m1.index, event == Some(ReturnComplete), m1.nav, SinceStart(log));
    if event.Some? {
      EventKeepsTrail(m, m1, log, event.value);
    }
  }

  lemma EventKeepsTrail(m: Mission, m1: Mission, log: seq<Entry>, event: Event)
    requires Core(m) && IsMoving(m.fsm.state) && m1.fsm == m.fsm && m1.plan == m.plan && m.plan.Some?
    requires LastPlan(log) == m.plan && HasStart(log)
    requires TrailAt(m.plan.value, m1.index, event == ReturnComplete, m1.nav, SinceStart(log))
    requires event in {PauseRequested, FatalStepFailure, InspectionComplete, ReturnComplete}
    requires event == ReturnComplete ==> m.fsm.state == Returning
    ensures Trail(Dispatch(m1, event).m, log + Dispatch(m1, event).entries)
  {
    if event == ReturnComplete {
      ReturnKeepsTrail(m1, log);
    } else {
      DispatchKeepsTrail(m1, log, event);
    }
  }

  lemma TickKeepsTrail(m: Mission, log: seq<Entry>, now: int, serverReady: bool, safetyReady: bool)
    requires Core(m) && Trail(m, log)
    ensures Trail(Tick(m, now, serverReady, safetyReady).m, log + Tick(m, now, serverReady, safetyReady).entries)
  {
    var e := Tick(m, now, serverReady, safetyReady);
    if IsMoving(m.fsm.state) {
      TickMovingKeepsTrail(m, log, serverReady);
    } else if m.fsm.state == Ready && m.start.requested && DependenciesReady(m.inputs, now) {
      StartKeepsTrail(m, log);
    } else if m.fsm.state == Pausing && Quiesced(m, now) {
      DispatchKeepsTrail(m, log, MotionQuiesced);
    } else if m.fsm.state == Recovering && DependenciesReady(m.inputs, now) {
      DispatchKeepsTrail(m, log, RecoveryReady);
    } else {
      NoteKeepsTrail(m, e.m, log, e.entries);
    }
  }

  lemma StepKeepsTrail(m: Mission, log: seq<Entry>, input: Input)
    requires Core(m) && Trail(m, log) && Matched(m, input)
    ensures Trail(Step(m, input).m, log + Step(m, input).entries)
  {
    match input {
      case ConfigureCall(p) => ConfigureKeepsTrail(m, log, p);
      case ControlCall(id, op, now, ready) => ControlKeepsTrail(m, log, id, op, now, ready);
      case SafetyInput(msg) => OnSafetyKeepsTrail(m, log, msg);
      case GoalAnswer(_, _) => CallbackKeepsTrail(m, log, input);
      case GoalResult(_, _) => CallbackKeepsTrail(m, log, input);
      case Timer(now, serverReady, safetyReady) => TickKeepsTrail(m, log, now, serverReady, safetyReady);
      case _ => NoteKeepsTrail(m, Step(m, input).m, log, Step(m, input).entries);
    }
  }

  // ----- every run -----

  lemma {:induction false} RunsKeepTrail(r: Run, inputs: seq<Input>, capabilities: set<string>, mapFrame: string)
    requires Reachable(r, inputs, capabilities, mapFrame)
    ensures Core(r.m) && Callbacks(r.m.nav, r.log) && Trail(r.m, r.log)
    decreases |inputs|
  {
    if inputs != [] {
      var n := |inputs| - 1;
      var before: Run :|
        && Reachable(before, inputs[..n], capabilities, mapFrame)
        && Allowed(before, inputs[n])
        && r == StepRun(before, inputs[n]);
      RunsKeepTrail(before, inputs[..n], capabilities, mapFrame);
      StepKeepsCallbacks(before, inputs[n]);
      StepKeepsCore(before.m, inputs[n]);
      StepKeepsTrail(before.m, before.log, inputs[n]);
    }
  }

  /** In every run, a mission that is Completed has, since its start, visited
      waypoints 0 to n-1 of the plan configured for it, each once and in order, and
      then the dock if the plan returns to it; each visit consumed the success
      of a goal of its own, sent after the previous visit to the pose the plan
      gives. Pauses, resumes and superseded goals do not count as visits. */
  lemma CompletedMissionVisitedEverything(r: Run, inputs: seq<Input>, capabilities: set<string>, mapFrame: string)
    requires Reachable(r, inputs, capabilities, mapFrame) && r.m.fsm.state == Completed
    ensures HasStart(r.log) && r.m.plan.Some? && LastPlan(r.log) == r.m.plan
    ensures var s := SinceStart(r.log);
      var p := r.m.plan.value;
      && (forall e | e in s :: !e.Configured?)
      && Goals(s) == Itinerary(p, |p.waypoints|, true)
      && AllEarned(s, p)
  {
    RunsKeepTrail(r, inputs, capabilities, mapFrame);
  }
}
