/** A pending START: what it authorises, and what withdraws it. */
module MissionStart {
  import opened Wrappers
  import opened ControlMessages
  import opened MissionStateMachine
  import opened MissionManager
  import opened MissionInvariants
  import opened MissionItinerary

  predicate IsStop(s: SafetyState) {
    s == EStopLatched || s == Fault
  }

  /** Nothing that replaces, moves or endangers a pending start. */
  predicate Undisturbing(e: Entry) {
    && !e.Configured? && !e.StartAccepted? && !e.StartCancelled? && !e.Moved?
    && (e.Heard? ==> !IsStop(e.message.state))
  }

  predicate AcceptedAt(log: seq<Entry>, a: nat, p: Plan, g: nat) {
    a < |log| && log[a] == StartAccepted(p, g) && forall k | a < k < |log| :: Undisturbing(log[k])
  }

  ghost predicate Accepted(log: seq<Entry>, p: Plan, g: nat) {
    exists a :: AcceptedAt(log, a, p, g)
  }

  /** The safety messages received since the last accepted start, beginning with the
      one already known then. */
  function HeardSince(log: seq<Entry>): (h: seq<SafetyMessage>) {
    if log == [] then []
    else
      var n := |log| - 1;
      var h := HeardSince(log[..n]);
      match log[n]
      case Heard(msg) => h + [msg]
      case StartAccepted(_, _) => if h == [] then [] else [h[|h| - 1]]
      case _ => h
  }

  predicate InOrder(h: seq<SafetyMessage>) {
    forall i, j | 0 <= i < j < |h| :: Follows(h[i], h[j])
  }

  /** Every stop but the first message repeats the state known when the start was accepted. */
  predicate OldStopsOnly(h: seq<SafetyMessage>) {
    forall j | 1 <= j < |h| && h[j].state != Normal :: h[j].sequence == h[0].sequence
  }

  /** Once NORMAL was seen, everything after it was NORMAL. */
  predicate NormalIsFinal(h: seq<SafetyMessage>) {
    forall i, j | 0 <= i < j < |h| && h[i].state == Normal :: h[j].state == Normal
  }

  /** What makes it right to start moving: the plan held now is the one that the last
      accepted start authorised, nothing disturbed that start, and no safety stop
      came after NORMAL had been seen. */
  ghost predicate Authorised(log: seq<Entry>) {
    var h := HeardSince(log);
    && (exists p, g :: LastPlan(log) == Some(p) && Accepted(log, p, g))
    && NormalIsFinal(h)
    && h != [] && h[|h| - 1].state == Normal
  }

  predicate Names(e: Entry, g: nat) {
    match e
    case Asked(h) => h <= g
    case StartAccepted(_, h) => h <= g
    case _ => true
  }

  /** A start accepted later has a larger number than all that went before. */
  predicate NumbersGrow(log: seq<Entry>) {
    forall i, j | 0 <= i < j < |log| :: Outnumbers(log[j], log[i])
  }

  predicate Outnumbers(later: Entry, earlier: Entry) {
    later.StartAccepted? ==> later.start > 0 && Names(earlier, later.start - 1)
  }

  /** The pending start is the last one accepted, undisturbed, and remembers the safety
      sequence number it was accepted under. */
  ghost predicate Pending(start: PendingStart, plan: Option<Plan>, log: seq<Entry>) {
    var h := HeardSince(log);
    && plan.Some? && Accepted(log, plan.value, start.generation)
    && start.sequence == (if h == [] then None else Some(h[0].sequence))
    && OldStopsOnly(h)
  }

  /** Every start of motion in the trace was authorised when it happened. */
  ghost predicate StartsAuthorised(log: seq<Entry>) {
    forall k | 0 <= k < |log| && IsStart(log[k]) :: Authorised(log[..k])
  }

  ghost predicate Numbered(g: nat, log: seq<Entry>) {
    (forall e | e in log :: Names(e, g)) && NumbersGrow(log)
  }

  ghost predicate Listening(safety: Option<SafetyMessage>, log: seq<Entry>) {
    var h := HeardSince(log);
    InOrder(h) && safety == (if h == [] then None else Some(h[|h| - 1]))
  }

  ghost predicate StartTrail(m: Mission, log: seq<Entry>) {
    && Listening(m.inputs.safety, log)
    && Numbered(m.start.generation, log)
    && StartsAuthorised(log)
    && (m.start.requested ==> Pending(m.start, m.plan, log))
  }

  // ----- appending one entry -----

  lemma StartsAppend(log: seq<Entry>, e: Entry)
    requires StartsAuthorised(log) && (IsStart(e) ==> Authorised(log))
    ensures StartsAuthorised(log + [e])
  {
    var log' := log + [e];
    forall k | 0 <= k < |log'| && IsStart(log'[k]) ensures Authorised(log'[..k]) {
      assert log'[..k] == log[..k];
      if k == |log| {
        assert log[..k] == log;
      }
    }
  }

  lemma NumbersAppend(g: nat, g': nat, log: seq<Entry>, e: Entry)
    requires Numbered(g, log) && Names(e, g') && g <= g'
    requires e.StartAccepted? ==> g < g' && e.start == g'
    ensures Numbered(g', log + [e])
  {
  }

  lemma HeardAppend(log: seq<Entry>, e: Entry)
    ensures HeardSince(log + [e]) ==
      (if e.Heard? then HeardSince(log) + [e.message]
       else if e.StartAccepted? && HeardSince(log) != [] then [HeardSince(log)[|HeardSince(log)| - 1]]
       else HeardSince(log))
  {
  }

  lemma AcceptedAppend(log: seq<Entry>, e: Entry, p: Plan, g: nat)
    ensures Accepted(log, p, g) && Undisturbing(e) ==> Accepted(log + [e], p, g)
    ensures e == StartAccepted(p, g) ==> Accepted(log + [e], p, g)
  {
    if Accepted(log, p, g) && Undisturbing(e) {
      var a :| AcceptedAt(log, a, p, g);
      assert AcceptedAt(log + [e], a, p, g);
    }
    if e == StartAccepted(p, g) {
      assert AcceptedAt(log + [e], |log|, p, g);
    }
  }

  // ----- the kinds of step -----

  /** A step that concerns the pending start only by withdrawing it. */
  predicate Withdraws(m: Mission, m': Mission) {
    && m'.start.generation == m.start.generation && m'.inputs.safety == m.inputs.safety
    && (m'.start.requested ==> m'.start == m.start && m'.plan == m.plan)
  }

  lemma EntryKeepsStartTrail(m: Mission, m': Mission, log: seq<Entry>, e: Entry)
    requires StartTrail(m, log) && Withdraws(m, m') && !e.Heard? && !e.StartAccepted?
    requires m'.start.requested ==> Undisturbing(e)
    requires IsStart(e) ==> Authorised(log)
    requires Names(e, m.start.generation)
    ensures StartTrail(m', log + [e])
  {
    StartsAppend(log, e);
    NumbersAppend(m.start.generation, m.start.generation, log, e);
    HeardAppend(log, e);
    if m'.start.requested {
      AcceptedAppend(log, e, m.plan.value, m.start.generation);
    }
  }

  lemma {:induction false} EntriesKeepStartTrail(m: Mission, m': Mission, log: seq<Entry>, es: seq<Entry>)
    requires StartTrail(m, log) && Withdraws(m, m')
    requires forall e | e in es :: !e.Heard? && !e.StartAccepted? && !IsStart(e) && Names(e, m.start.generation)
    requires m'.start.requested ==> forall e | e in es :: Undisturbing(e)
    ensures StartTrail(m', log + es)
  {
    if es == [] {
      assert log + es == log;
    } else {
      var n := |es| - 1;
      EntriesKeepStartTrail(m, m', log, es[..n]);
      EntryKeepsStartTrail(m', m', log + es[..n], es[n]);
      assert log + es[..n] + [es[n]] == log + es;
    }
  }

  lemma AcceptKeepsStartTrail(m: Mission, log: seq<Entry>)
    requires StartTrail(m, log) && m.plan.Some?
    ensures StartTrail(StartPending(m), log + [StartAccepted(m.plan.value, m.start.generation + 1)])
  {
    var e := StartAccepted(m.plan.value, m.start.generation + 1);
    StartsAppend(log, e);
    NumbersAppend(m.start.generation, m.start.generation + 1, log, e);
    HeardAppend(log, e);
    AcceptedAppend(log, e, m.plan.value, m.start.generation + 1);
  }

  /** Hearing a message: it is noted, and remembered if it is the first one. */
  lemma HearKeepsStartTrail(m: Mission, m': Mission, log: seq<Entry>, msg: SafetyMessage)
    requires StartTrail(m, log) && (m.inputs.safety.Some? ==> Follows(m.inputs.safety.value, msg))
    requires m'.inputs.safety == Some(msg) && m'.start.generation == m.start.generation && m'.plan == m.plan
    requires m'.start.requested ==>
      && m.start.requested && !IsStop(msg.state)
      && m'.start.sequence == Some(if m.start.sequence.Some? then m.start.sequence.value else msg.sequence)
      && (msg.state != Normal ==> msg.sequence == m'.start.sequence.value)
    ensures StartTrail(m', log + [Heard(msg)])
  {
    var e := Heard(msg);
    StartsAppend(log, e);
    NumbersAppend(m.start.generation, m.start.generation, log, e);
    HeardAppend(log, e);
    if m'.start.requested {
      AcceptedAppend(log, e, m.plan.value, m.start.generation);
    }
  }

  /** Stops that repeat the state known at the start cannot come after NORMAL. */
  lemma OldStopsComeFirst(h: seq<SafetyMessage>)
    requires InOrder(h) && OldStopsOnly(h)
    ensures NormalIsFinal(h)
  {
  }

  lemma StartIsAuthorised(m: Mission, log: seq<Entry>)
    requires StartTrail(m, log) && m.start.requested && LastPlan(log) == m.plan
    requires m.inputs.safety.Some? && m.inputs.safety.value.state == Normal
    ensures Authorised(log)
  {
  }

  // ----- the steps -----

  lemma DispatchWithdraws(m: Mission, e: Event)
    requires m.fsm.state == Ready && m.start.requested ==> e == StopRequested || !Accepts(Ready, e)
    requires m.start.requested ==> m.fsm.state == Ready
    ensures Withdraws(m, Dispatch(m, e).m)
    ensures Dispatch(m, e).m.start.requested ==> Dispatch(m, e).entries == []
    ensures e != StartRequested ==> forall x | x in Dispatch(m, e).entries :: x.Moved? && !IsStart(x)
  {
  }

  lemma DispatchKeepsStartTrail(m: Mission, log: seq<Entry>, e: Event)
    requires StartTrail(m, log) && (m.start.requested ==> m.fsm.state == Ready) && e != StartRequested
    requires m.fsm.state == Ready && m.start.requested ==> e == StopRequested || !Accepts(Ready, e)
    ensures StartTrail(Dispatch(m, e).m, log + Dispatch(m, e).entries)
  {
    DispatchWithdraws(m, e);
    EntriesKeepStartTrail(m, Dispatch(m, e).m, log, Dispatch(m, e).entries);
  }

  lemma AskKeepsStartTrail(d: Effect, log: seq<Entry>, now: int, ready: bool)
    requires StartTrail(d.m, log + d.entries)
    ensures var a := After(d, AskDependencies(d.m, now, ready));
      StartTrail(a.m, log + a.entries)
  {
    var a := AskDependencies(d.m, now, ready);
    EntriesKeepStartTrail(d.m, a.m, log + d.entries, a.entries);
    assert log + d.entries + a.entries == log + (d.entries + a.entries);
  }

  lemma ControlKeepsStartTrail(m: Mission, log: seq<Entry>, id: string, op: Operation, now: int, ready: bool)
    requires Core(m) && StartTrail(m, log)
    ensures StartTrail(Control(m, id, op, now, ready).m, log + Control(m, id, op, now, ready).entries)
  {
    if !ControlAccepted(m, id, op) {
      assert log + [] == log;
    } else if op == Start {
      AcceptKeepsStartTrail(m, log);
      AskKeepsStartTrail(Effect(StartPending(m), [StartAccepted(m.plan.value, m.start.generation + 1)]), log, now, ready);
    } else {
      DispatchKeepsStartTrail(m, log, ControlEvent(m, op));
      if op == Resume {
        AskKeepsStartTrail(Dispatch(m, ResumeRequested), log, now, ready);
      }
    }
  }

  lemma OnSafetyKeepsStartTrail(m: Mission, log: seq<Entry>, msg: SafetyMessage)
    requires Core(m) && StartTrail(m, log)
    requires m.inputs.safety.Some? ==> Follows(m.inputs.safety.value, msg)
    ensures StartTrail(OnSafety(m, msg).m, log + OnSafety(m, msg).entries)
  {
    var e := OnSafety(m, msg);
    var m1 := m.(inputs := m.inputs.(safety := Some(msg)), start := m.start.(requested := false));
    assert e.entries == [Heard(msg)] + e.entries[1..];
    assert log + [Heard(msg)] + e.entries[1..] == log + e.entries;
    if e.m.start.requested {
      assert e.entries[1..] == [];
      HearKeepsStartTrail(m, e.m, log, msg);
    } else {
      HearKeepsStartTrail(m, m1, log, msg);
      RestIsQuiet(m, msg);
      EntriesKeepStartTrail(m1, e.m, log + [Heard(msg)], e.entries[1..]);
    }
  }

  lemma RestIsQuiet(m: Mission, msg: SafetyMessage)
    ensures var e := OnSafety(m, msg);
      && e.m.start.generation == m.start.generation && e.m.inputs.safety == Some(msg)
      && forall x | x in e.entries[1..] :: !x.Heard? && !x.StartAccepted? && !x.Asked? && !IsStart(x)
  {
  }

  lemma StartTickKeepsStartTrail(m: Mission, log: seq<Entry>)
    requires Core(m) && StartTrail(m, log) && m.start.requested && LastPlan(log) == m.plan
    requires m.inputs.safety.Some? && m.inputs.safety.value.state == Normal
    ensures var d := Dispatch(ClearStart(m), StartRequested);
      StartTrail(d.m, log + d.entries)
  {
    var d := Dispatch(ClearStart(m), StartRequested);
    StartIsAuthorised(m, log);
    EntryKeepsStartTrail(m, d.m, log, Moved(Ready, StartRequested, Running));
  }

  lemma TickMovingKeepsStartTrail(m: Mission, log: seq<Entry>, serverReady: bool)
    requires Core(m) && StartTrail(m, log) && IsMoving(m.fsm.state) && m.plan.Some?
    ensures StartTrail(TickMoving(m, serverReady).m, log + TickMoving(m, serverReady).entries)
  {
    var t, m1, event := TickMovingShape(m, serverReady);
    TreeTickIs(m, serverReady);
    EntriesKeepStartTrail(m, m1, log, t.entries);
    ConcludedKeepsStartTrail(m, log, t, m1, event);
  }

  lemma ConcludedKeepsStartTrail(m: Mission, log: seq<Entry>, t: Ticked, m1: Mission, event: Option<Event>)
    requires m.plan.Some? && Verdict(m, t, m1, event) && IsMoving(m.fsm.state) && !m.start.requested
    requires StartTrail(m1, log + t.entries)
    ensures StartTrail(Concluded(t, m1, event).m, log + Concluded(t, m1, event).entries)
  {
    if event.Some? {
      DispatchKeepsStartTrail(m1, log + t.entries, event.value);
      var d := Dispatch(m1, event.value);
      assert log + t.entries + d.entries == log + (t.entries + d.entries);
    }
  }

  lemma TickKeepsStartTrail(m: Mission, log: seq<Entry>, now: int, serverReady: bool, safetyReady: bool)
    requires Core(m) && StartTrail(m, log) && (m.plan.Some? ==> LastPlan(log) == m.plan)
    ensures var e := Tick(m, now, serverReady, safetyReady);
      StartTrail(e.m, log + e.entries)
  {
    var e := Tick(m, now, serverReady, safetyReady);
    if IsMoving(m.fsm.state) {
      TickMovingKeepsStartTrail(m, log, serverReady);
    } else if m.fsm.state == Ready && m.start.requested && DependenciesReady(m.inputs, now) {
      StartTickKeepsStartTrail(m, log);
    } else if m.fsm.state == Pausing && Quiesced(m, now) {
      DispatchKeepsStartTrail(m, log, MotionQuiesced);
    } else if m.fsm.state == Recovering && DependenciesReady(m.inputs, now) {
      DispatchKeepsStartTrail(m, log, RecoveryReady);
    } else {
      EntriesKeepStartTrail(m, e.m, log, e.entries);
    }
  }

  lemma StepKeepsStartTrail(r: Run, input: Input)
    requires Core(r.m) && StartTrail(r.m, r.log) && Allowed(r, input)
    requires r.m.plan.Some? ==> LastPlan(r.log) == r.m.plan
    ensures StartTrail(StepRun(r, input).m, StepRun(r, input).log)
  {
    var m, log := r.m, r.log;
    match input {
      case ControlCall(id, op, now, ready) => ControlKeepsStartTrail(m, log, id, op, now, ready);
      case SafetyInput(msg) => OnSafetyKeepsStartTrail(m, log, msg);
      case Timer(now, serverReady, safetyReady) => TickKeepsStartTrail(m, log, now, serverReady, safetyReady);
      case _ => EntriesKeepStartTrail(m, Step(m, input).m, log, Step(m, input).entries);
    }
  }

  // ----- every run -----

  lemma {:induction false} RunsKeepStartTrail(r: Run, inputs: seq<Input>, capabilities: set<string>, mapFrame: string)
    requires Reachable(r, inputs, capabilities, mapFrame)
    ensures StartTrail(r.m, r.log)
    decreases |inputs|
  {
    if inputs != [] {
      var n := |inputs| - 1;
      var before: Run :|
        && Reachable(before, inputs[..n], capabilities, mapFrame)
        && Allowed(before, inputs[n])
        && r == StepRun(before, inputs[n]);
      RunsKeepStartTrail(before, inputs[..n], capabilities, mapFrame);
      RunsKeepTrail(before, inputs[..n], capabilities, mapFrame);
      StepKeepsStartTrail(before, inputs[n]);
    }
  }

  /** In every run, each start of motion was authorised: the plan held was the one the last
      accepted START named; since then nothing was configured, cancelled or moved,
      no E-Stop or fault was heard, and after NORMAL nothing but NORMAL was heard. */
  lemma StartsAreAuthorised(r: Run, inputs: seq<Input>, capabilities: set<string>, mapFrame: string, k: nat)
    requires Reachable(r, inputs, capabilities, mapFrame)
    requires k < |r.log| && IsStart(r.log[k])
    ensures Authorised(r.log[..k])
  {
    RunsKeepStartTrail(r, inputs, capabilities, mapFrame);
  }

  /** Exactly which safety messages withdraw a pending start: an E-Stop, a fault, or any other
      stop under a sequence number that is not the one remembered. */
  lemma StopWithdrawsIff(m: Mission, msg: SafetyMessage)
    requires Core(m) && m.start.requested
    ensures var m' := OnSafety(m, msg).m;
      && (m'.start.requested <==>
            !IsStop(msg.state) && (msg.state == Normal || m.start.sequence in {None, Some(msg.sequence)}))
      && (!m'.start.requested ==> m'.fsm.state == Ready && m'.plan == m.plan && m'.start.sequence == None)
  {
  }

  /** Only a refusal that leaves safety other than NORMAL, and that answers the pending start
      itself, withdraws it; no other answer changes anything. */
  lemma RefusalWithdrawsIff(m: Mission, g: nat, accepted: bool, state: SafetyState)
    requires Core(m)
    ensures var m' := OnResumeAnswer(m, g, accepted, state).m;
      && (m' != m <==> m.start.requested && g == m.start.generation && !accepted && state != Normal)
      && (m' != m ==> !m'.start.requested && m'.plan == m.plan && m'.fsm == m.fsm)
  {
  }

  lemma OlderNumbersAreSmaller(g: nat, log: seq<Entry>, i: nat, j: nat)
    requires Numbered(g, log) && i < j < |log| && log[i].Asked? && log[j].StartAccepted?
    ensures log[i].start < g
  {
    assert Outnumbers(log[j], log[i]);
    assert log[j] in log && Names(log[j], g);
  }

  lemma OldAnswerIsIgnored(r: Run, g: nat, accepted: bool, state: SafetyState)
    requires g < r.m.start.generation
    ensures StepRun(r, ResumeAnswer(g, accepted, state)) == r
  {
  }

  /** In every run, the answer to a resume request sent before the latest START changes nothing. */
  lemma StaleAnswersAreIgnored(r: Run, inputs: seq<Input>, capabilities: set<string>, mapFrame: string,
                               i: nat, j: nat, accepted: bool, state: SafetyState)
    requires Reachable(r, inputs, capabilities, mapFrame)
    requires i < j < |r.log| && r.log[i].Asked? && r.log[j].StartAccepted?
    ensures StepRun(r, ResumeAnswer(r.log[i].start, accepted, state)) == r
  {
    RunsKeepStartTrail(r, inputs, capabilities, mapFrame);
    OlderNumbersAreSmaller(r.m.start.generation, r.log, i, j);
    OldAnswerIsIgnored(r, r.log[i].start, accepted, state);
  }
}
