/** Entering motion: only on an operator's word, only when safe, and only into the
    phase that was interrupted. */
module MissionMotion {
  import opened Wrappers
  import opened ControlMessages
  import opened MissionStateMachine
  import opened MissionManager
  import opened MissionInvariants
  import opened MissionItinerary
  import opened MissionStart

  predicate EntersMotion(e: Entry) {
    e.Moved? && !IsMoving(e.from) && IsMoving(e.to)
  }

  predicate StaysOut(e: Entry) {
    e.Moved? ==> !IsMoving(e.to)
  }

  /** Motion in `phase` was halted at `h` and not entered since. */
  predicate HaltedAt(log: seq<Entry>, h: nat, phase: State) {
    && h < |log| && log[h].Moved? && log[h].from == phase && log[h].to == Pausing && IsMoving(phase)
    && forall k | h < k < |log| :: StaysOut(log[k])
  }

  /** An operator's RESUME was accepted at `a`, and no transition was made since. */
  predicate ResumedAt(log: seq<Entry>, a: nat) {
    && a < |log| && log[a] == Moved(Paused, ResumeRequested, Recovering)
    && forall k | a < k < |log| :: !log[k].Moved?
  }

  ghost predicate HaltedIn(log: seq<Entry>, phase: State) {
    exists h :: HaltedAt(log, h, phase)
  }

  /** Halted while in `phase`, and resumed by the operator after that. */
  ghost predicate ResumedFrom(log: seq<Entry>, phase: State) {
    exists h, a :: h < a && HaltedAt(log, h, phase) && ResumedAt(log, a)
  }

  /** An entry into motion that is not a start resumes exactly the interrupted phase. */
  ghost predicate Resumes(e: Entry, log: seq<Entry>) {
    EntersMotion(e) && !IsStart(e) ==> e.from == Recovering && ResumedFrom(log, e.to)
  }

  ghost predicate MotionTrail(f: Fsm, log: seq<Entry>) {
    && (Halting(f.state) ==> HaltedIn(log, f.resumeTarget))
    && (f.state == Recovering ==> ResumedFrom(log, f.resumeTarget))
    && forall k | 0 <= k < |log| :: Resumes(log[k], log[..k])
  }

  // ----- one step makes at most one transition -----

  /** How the lifecycle state changes in one step: not at all, by a new plan, or by one
      event of the table that is noted in the trace. */
  ghost predicate OneMove(f: Fsm, f': Fsm, es: seq<Entry>) {
    || (f' == f && forall e | e in es :: !e.Moved?)
    || (f'.state == Ready && forall e | e in es :: !e.Moved?)
    || exists i, event :: MovesAt(f, f', es, i, event)
  }

  predicate MovesAt(f: Fsm, f': Fsm, es: seq<Entry>, i: nat, event: Event) {
    && i < |es| && Accepts(f.state, event) && f' == Next(f, event)
    && es[i] == Moved(f.state, event, f'.state)
    && (forall k | 0 <= k < |es| && k != i :: !es[k].Moved?)
  }

  lemma DispatchMoves(m: Mission, e: Event)
    ensures var d := Dispatch(m, e);
      if Accepts(m.fsm.state, e) then d.m.fsm == Next(m.fsm, e) && d.entries == [Moved(m.fsm.state, e, d.m.fsm.state)]
      else d.m.fsm == m.fsm && d.entries == []
  {
  }

  /** Entries without transitions around one event change nothing about that. */
  lemma AroundMoves(f: Fsm, d: Effect, event: Event, before: seq<Entry>, after: seq<Entry>)
    requires if Accepts(f.state, event)
      then d.m.fsm == Next(f, event) && d.entries == [Moved(f.state, event, d.m.fsm.state)]
      else d.m.fsm == f && d.entries == []
    requires forall e | e in before + after :: !e.Moved?
    ensures OneMove(f, d.m.fsm, before + d.entries + after)
  {
    var es := before + d.entries + after;
    if Accepts(f.state, event) {
      forall k | 0 <= k < |es| && k != |before| ensures !es[k].Moved? {
        assert es[k] in before + after by {
          if k < |before| {
            assert es[k] == (before + after)[k];
          } else {
            assert es[k] == (before + after)[k - 1];
          }
        }
      }
      assert MovesAt(f, d.m.fsm, es, |before|, event);
    } else {
      assert es == before + after;
    }
  }

  lemma TickMovingMoves(m: Mission, serverReady: bool)
    requires Core(m) && IsMoving(m.fsm.state) && m.plan.Some?
    ensures OneMove(m.fsm, TickMoving(m, serverReady).m.fsm, TickMoving(m, serverReady).entries)
  {
    var t, m1, event := TickMovingShape(m, serverReady);
    TreeTickIs(m, serverReady);
    if event.Some? {
      var d := Dispatch(m1, event.value);
      DispatchMoves(m1, event.value);
      AroundMoves(m.fsm, d, event.value, t.entries, []);
      assert t.entries + d.entries + [] == t.entries + d.entries;
    }
  }

  lemma TickMoves(m: Mission, now: int, serverReady: bool, safetyReady: bool)
    requires Core(m)
    ensures var e := Tick(m, now, serverReady, safetyReady);
      OneMove(m.fsm, e.m.fsm, e.entries)
  {
    if IsMoving(m.fsm.state) {
      TickMovingMoves(m, serverReady);
    } else {
      var event := match m.fsm.state
        case Ready => StartRequested
        case Pausing => MotionQuiesced
        case _ => RecoveryReady;
      var m1 := if m.fsm.state == Ready then ClearStart(m) else m;
      DispatchMoves(m1, event);
      AroundMoves(m.fsm, Dispatch(m1, event), event, [], []);
      assert [] + Dispatch(m1, event).entries + [] == Dispatch(m1, event).entries;
    }
  }

  lemma ControlMoves(m: Mission, id: string, op: Operation, now: int, ready: bool)
    ensures var e := Control(m, id, op, now, ready);
      OneMove(m.fsm, e.m.fsm, e.entries)
  {
    if ControlAccepted(m, id, op) && op != Start {
      var event := ControlEvent(m, op);
      var d := Dispatch(m, event);
      DispatchMoves(m, event);
      var asked := if op == Resume then AskDependencies(d.m, now, ready).entries else [];
      AroundMoves(m.fsm, d, event, [], asked);
      assert [] + d.entries + asked == d.entries + asked;
      assert d.entries + [] == d.entries;
    }
  }

  lemma OnSafetyMoves(m: Mission, msg: SafetyMessage)
    ensures var e := OnSafety(m, msg);
      OneMove(m.fsm, e.m.fsm, e.entries)
  {
    if msg.state != Normal && (IsMoving(m.fsm.state) || m.fsm.state == Recovering) {
      var m1 := m.(inputs := m.inputs.(safety := Some(msg)));
      var d := Dispatch(m1, SafetyStop);
      DispatchMoves(m1, SafetyStop);
      AroundMoves(m.fsm, d, SafetyStop, [Heard(msg)], []);
      assert [Heard(msg)] + d.entries + [] == [Heard(msg)] + d.entries;
    }
  }

  lemma StepMoves(m: Mission, input: Input)
    requires Core(m)
    ensures OneMove(m.fsm, Step(m, input).m.fsm, Step(m, input).entries)
  {
    match input {
      case ControlCall(id, op, now, ready) => ControlMoves(m, id, op, now, ready);
      case SafetyInput(msg) => OnSafetyMoves(m, msg);
      case Timer(now, serverReady, safetyReady) => TickMoves(m, now, serverReady, safetyReady);
      case _ =>
    }
  }

  // ----- appending -----

  lemma HaltedAppend(log: seq<Entry>, e: Entry, phase: State)
    requires HaltedIn(log, phase) && StaysOut(e)
    ensures HaltedIn(log + [e], phase)
  {
    var h :| HaltedAt(log, h, phase);
    assert HaltedAt(log + [e], h, phase);
  }

  lemma ResumedAppend(log: seq<Entry>, e: Entry, phase: State)
    requires ResumedFrom(log, phase) && !e.Moved?
    ensures ResumedFrom(log + [e], phase)
  {
    var h, a :| h < a && HaltedAt(log, h, phase) && ResumedAt(log, a);
    assert HaltedAt(log + [e], h, phase) && ResumedAt(log + [e], a);
  }

  lemma ResumesAppend(log: seq<Entry>, e: Entry)
    requires forall k | 0 <= k < |log| :: Resumes(log[k], log[..k])
    requires Resumes(e, log)
    ensures forall k | 0 <= k < |log + [e]| :: Resumes((log + [e])[k], (log + [e])[..k])
  {
    var log' := log + [e];
    forall k | 0 <= k < |log'| ensures Resumes(log'[k], log'[..k]) {
      if k < |log| {
        assert log'[..k] == log[..k];
      } else {
        assert log'[..k] == log;
      }
    }
  }

  lemma NoteKeepsMotion(f: Fsm, log: seq<Entry>, e: Entry)
    requires MotionTrail(f, log) && !e.Moved?
    ensures MotionTrail(f, log + [e])
  {
    ResumesAppend(log, e);
    if Halting(f.state) {
      HaltedAppend(log, e, f.resumeTarget);
    }
    if f.state == Recovering {
      ResumedAppend(log, e, f.resumeTarget);
    }
  }

  lemma {:induction false} NotesKeepMotion(f: Fsm, log: seq<Entry>, es: seq<Entry>)
    requires MotionTrail(f, log) && forall e | e in es :: !e.Moved?
    ensures MotionTrail(f, log + es)
  {
    if es == [] {
      assert log + es == log;
    } else {
      var n := |es| - 1;
      NotesKeepMotion(f, log, es[..n]);
      NoteKeepsMotion(f, log + es[..n], es[n]);
      assert log + es[..n] + [es[n]] == log + es;
    }
  }

  lemma EventKeepsMotion(f: Fsm, log: seq<Entry>, event: Event)
    requires MotionTrail(f, log) && WellFormed(f) && Accepts(f.state, event)
    ensures MotionTrail(Next(f, event), log + [Moved(f.state, event, Next(f, event).state)])
  {
    var f' := Next(f, event);
    var e := Moved(f.state, event, f'.state);
    var log' := log + [e];
    ResumesAppend(log, e);
    if IsMoving(f.state) && f'.state == Pausing {
      assert HaltedAt(log', |log|, f.state);
    } else if Halting(f'.state) {
      HaltedAppend(log, e, f.resumeTarget);
      if f'.state == Recovering {
        var h :| HaltedAt(log, h, f.resumeTarget);
        assert HaltedAt(log', h, f.resumeTarget) && ResumedAt(log', |log|);
      }
    }
  }

  lemma StepKeepsMotion(m: Mission, log: seq<Entry>, input: Input)
    requires Core(m) && MotionTrail(m.fsm, log)
    ensures MotionTrail(Step(m, input).m.fsm, log + Step(m, input).entries)
  {
    StepMoves(m, input);
    MoveKeepsMotion(m.fsm, Step(m, input).m.fsm, log, Step(m, input).entries);
  }

  lemma MoveKeepsMotion(f: Fsm, f': Fsm, log: seq<Entry>, es: seq<Entry>)
    requires MotionTrail(f, log) && WellFormed(f) && OneMove(f, f', es)
    ensures MotionTrail(f', log + es)
  {
    if forall e | e in es :: !e.Moved? {
      NotesKeepMotion(f, log, es);
    } else {
      var i: nat, event :| MovesAt(f, f', es, i, event);
      forall e | e in es[..i] ensures !e.Moved? {
        var k :| 0 <= k < i && e == es[k];
      }
      forall e | e in es[i + 1..] ensures !e.Moved? {
        var j :| 0 <= j < |es[i + 1..]| && es[i + 1..][j] == e;
        assert es[i + 1 + j] == e;
      }
      NotesKeepMotion(f, log, es[..i]);
      EventKeepsMotion(f, log + es[..i], event);
      NotesKeepMotion(f', log + es[..i] + [es[i]], es[i + 1..]);
      assert log + es[..i] + [es[i]] + es[i + 1..] == log + es;
    }
  }

  // ----- every run -----

  lemma {:induction false} RunsKeepMotion(r: Run, inputs: seq<Input>, capabilities: set<string>, mapFrame: string)
    requires Reachable(r, inputs, capabilities, mapFrame)
    ensures MotionTrail(r.m.fsm, r.log)
    decreases |inputs|
  {
    if inputs != [] {
      var n := |inputs| - 1;
      var before: Run :|
        && Reachable(before, inputs[..n], capabilities, mapFrame)
        && Allowed(before, inputs[n])
        && r == StepRun(before, inputs[n]);
      RunsKeepMotion(before, inputs[..n], capabilities, mapFrame);
      RunsKeepTrail(before, inputs[..n], capabilities, mapFrame);
      StepKeepsMotion(before.m, before.log, inputs[n]);
    }
  }

  /** In every run, each entry into motion either is a start, authorised by an undisturbed
      START, or resumes exactly the phase halted last, after a RESUME accepted since
      that halt. */
  lemma MotionNeedsTheOperator(r: Run, inputs: seq<Input>, capabilities: set<string>, mapFrame: string, k: nat)
    requires Reachable(r, inputs, capabilities, mapFrame)
    requires k < |r.log| && EntersMotion(r.log[k])
    ensures if IsStart(r.log[k]) then Authorised(r.log[..k])
      else r.log[k].from == Recovering && ResumedFrom(r.log[..k], r.log[k].to)
  {
    RunsKeepMotion(r, inputs, capabilities, mapFrame);
    if IsStart(r.log[k]) {
      StartsAreAuthorised(r, inputs, capabilities, mapFrame, k);
    } else {
      assert Resumes(r.log[k], r.log[..k]);
    }
  }

  predicate OperatorsWord(e: Entry) {
    e.StartAccepted? || (e.Moved? && e.event == ResumeRequested)
  }

  lemma MovingDoesNotSaySo(m: Mission, serverReady: bool)
    requires Core(m) && IsMoving(m.fsm.state)
    ensures m.plan.Some? && forall e | e in TickMoving(m, serverReady).entries :: !OperatorsWord(e)
  {
    var t, m1, event := TickMovingShape(m, serverReady);
    TreeTickIs(m, serverReady);
  }

  lemma TicksDoNotSaySo(m: Mission, now: int, serverReady: bool, safetyReady: bool)
    requires Core(m)
    ensures forall e | e in Tick(m, now, serverReady, safetyReady).entries :: !OperatorsWord(e)
  {
    if IsMoving(m.fsm.state) {
      MovingDoesNotSaySo(m, serverReady);
    }
  }

  lemma ControlSaysSo(m: Mission, missionId: string, op: Operation, now: int, safetyReady: bool, e: Entry)
    requires e in Control(m, missionId, op, now, safetyReady).entries && OperatorsWord(e)
    ensures ControlAccepted(m, missionId, op) && (e.StartAccepted? <==> op == Start)
  {
  }

  /** Only an accepted call of the operator's service puts a START or RESUME in the trace. */
  lemma OnlyTheOperatorSaysSo(m: Mission, input: Input, e: Entry)
    requires Core(m) && e in Step(m, input).entries && OperatorsWord(e)
    ensures input.ControlCall? && ControlAccepted(m, input.missionId, input.operation)
    ensures e.StartAccepted? <==> input.operation == Start
  {
    match input {
      case Timer(now, serverReady, safetyReady) => TicksDoNotSaySo(m, now, serverReady, safetyReady);
      case SafetyInput(msg) => OnSafetyMoves(m, msg);
      case ControlCall(id, op, now, ready) => ControlSaysSo(m, id, op, now, ready, e);
      case _ =>
    }
  }

  lemma OtherEventsStayOut(m: Mission, e: Event)
    requires !IsMoving(m.fsm.state) && WellFormed(m.fsm) && e != StartRequested && e != RecoveryReady
    ensures !IsMoving(Dispatch(m, e).m.fsm.state)
  {
  }

  lemma OnlyTicksEnterMotion(m: Mission, input: Input)
    requires Core(m) && !IsMoving(m.fsm.state) && !input.Timer?
    ensures !IsMoving(Step(m, input).m.fsm.state)
  {
    match input {
      case ControlCall(id, op, now, ready) =>
        if op != Start && op != UnknownOperation {
          OtherEventsStayOut(m, ControlEvent(m, op));
        }
      case SafetyInput(msg) => OtherEventsStayOut(m.(inputs := m.inputs.(safety := Some(msg))), SafetyStop);
      case _ =>
    }
  }

  /** Someone waits for the dependencies: a start, or the recovery of a halted phase. */
  predicate Waits(m: Mission) {
    (m.fsm.state == Ready && m.start.requested) || m.fsm.state == Recovering
  }

  /** A step enters motion if and only if it is a timer tick that finds a start or a recovery
      waiting, safety NORMAL, the base holding authority, and odometry at most one second old. */
  lemma MotionNeedsDependencies(m: Mission, input: Input)
    requires Core(m) && !IsMoving(m.fsm.state)
    ensures IsMoving(Step(m, input).m.fsm.state) <==>
      && input.Timer? && Waits(m)
      && m.inputs.safety.Some? && m.inputs.safety.value.state == Normal
      && m.inputs.authority == Some(BaseActive)
      && m.inputs.odometryAt.Some? && input.now - m.inputs.odometryAt.value <= 1000
  {
    if !input.Timer? {
      OnlyTicksEnterMotion(m, input);
    }
  }

  /** The trace records it. A start begins the plan at its first waypoint, and a recovery goes
      on where the mission was halted. */
  lemma EntryIsRecorded(m: Mission, input: Input)
    requires Core(m) && !IsMoving(m.fsm.state) && IsMoving(Step(m, input).m.fsm.state)
    ensures var e := Step(m, input);
      if m.fsm.state == Ready then
        e.entries == [Moved(Ready, StartRequested, Running)] && e.m.fsm.state == Running
        && e.m.index == 0 && !e.m.start.requested
      else
        e.entries == [Moved(Recovering, RecoveryReady, m.fsm.resumeTarget)]
        && e.m.fsm.state == m.fsm.resumeTarget && e.m.index == m.index
  {
    MotionNeedsDependencies(m, input);
  }

  lemma DispatchLeavesPausing(m: Mission, e: Event)
    requires m.fsm.state == Pausing && e != MotionQuiesced
    ensures Dispatch(m, e).m.fsm.state == Pausing
  {
  }

  /** A halt ends if and only if a timer tick finds the robot at rest: no goal outstanding, a
      zero command at most 250 ms old and stop feedback at most 500 ms old; and it ends in
      the state the halt was for. */
  lemma HaltEndsAtRest(m: Mission, input: Input)
    requires Core(m) && m.fsm.state == Pausing
    ensures Step(m, input).m.fsm.state != Pausing <==>
      && input.Timer? && m.nav.phase != Active && m.nav.handle == None
      && m.inputs.commandZero && m.inputs.commandAt.Some? && input.now - m.inputs.commandAt.value <= 250
      && m.inputs.baseStopped && m.inputs.stoppedAt.Some? && input.now - m.inputs.stoppedAt.value <= 500
    ensures Step(m, input).m.fsm.state != Pausing ==> Step(m, input).m.fsm.state == m.fsm.haltTarget
  {
    match input {
      case ControlCall(id, op, now, ready) =>
        if op != Start && op != UnknownOperation {
          DispatchLeavesPausing(m, ControlEvent(m, op));
        }
      case _ =>
    }
  }

  predicate LastHeardIsNormal(log: seq<Entry>) {
    var h := HeardSince(log);
    h != [] && h[|h| - 1].state == Normal
  }

  lemma HeardIsNormal(m: Mission, log: seq<Entry>)
    requires SafeWhileMoving(m) && Listening(m.inputs.safety, log) && IsMoving(m.fsm.state)
    ensures LastHeardIsNormal(log)
  {
  }

  lemma RunsAreSafe(r: Run, inputs: seq<Input>, capabilities: set<string>, mapFrame: string)
    requires Reachable(r, inputs, capabilities, mapFrame)
    ensures SafeWhileMoving(r.m)
  {
    RunsKeepTrail(r, inputs, capabilities, mapFrame);
  }

  lemma RunsListen(r: Run, inputs: seq<Input>, capabilities: set<string>, mapFrame: string)
    requires Reachable(r, inputs, capabilities, mapFrame)
    ensures Listening(r.m.inputs.safety, r.log)
  {
    RunsKeepStartTrail(r, inputs, capabilities, mapFrame);
  }

  /** In every reachable state that is moving, the last safety message heard was NORMAL. */
  lemma MovingMeansNormal(r: Run, inputs: seq<Input>, capabilities: set<string>, mapFrame: string)
    requires Reachable(r, inputs, capabilities, mapFrame) && IsMoving(r.m.fsm.state)
    ensures LastHeardIsNormal(r.log)
  {
    RunsAreSafe(r, inputs, capabilities, mapFrame);
    RunsListen(r, inputs, capabilities, mapFrame);
    HeardIsNormal(r.m, r.log);
  }
}
