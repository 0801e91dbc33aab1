/** What the manager's state means at the gate, one message delay later, whatever has failed. */
module LinkLossStops {
  import opened Wrappers
  import opened ControlMessages
  import opened LinkLoss
  import opened LinkLossRuns
  import M = SafetyManager
  import G = SafetyGates

  const HALTED: SafetyState -> bool := state => state != Normal

  const LATCHED: SafetyState -> bool := state => state == EStopLatched

  /** Manager, gate and every message under way are in the states `held` names. */
  ghost predicate Settled(s: Sys, held: SafetyState -> bool) {
    && held(s.manager.fsm.state)
    && (forall i | 0 <= i < |s.states| :: held(s.states[i].value.fsm.state))
    && held(s.gate.state)
  }

  /** From time `m` on the manager is in those states; whatever else it had said before is
      followed by a message sent no later than `m`. */
  ghost predicate Settling(s: Sys, m: int, held: SafetyState -> bool) {
    && (s.now > m ==> held(s.manager.fsm.state))
    && (s.states != [] && !held(s.gate.state) ==> s.states[0].at <= m)
    && (forall i | 0 < i < |s.states| && !held(s.states[i - 1].value.fsm.state) :: s.states[i].at <= m)
  }

  /** What the manager does in a step. */
  function Said(s: Sys, step: Step): M.Effect {
    match step
    case ManagerInput(i) => M.Step(s.manager, i)
    case DeliverBeat =>
      if s.beats == [] then M.Effect(s.manager, []) else M.Step(s.manager, M.Heartbeat(s.beats[0].value, s.now))
    case _ => M.Effect(s.manager, [])
  }

  ghost predicate Says(e: M.Effect, held: SafetyState -> bool) {
    held(e.m.fsm.state) && forall p | p in e.published :: held(p.fsm.state)
  }

  lemma SettlingStarts(s: Sys, m: int, delay: nat, held: SafetyState -> bool)
    requires Timely(s, delay) && s.now <= m
    ensures Settling(s, m, held)
  {
  }

  lemma PublishKeepsSettling(s: Sys, e: M.Effect, m: int, held: SafetyState -> bool)
    requires Faithful(s) && Settling(s, m, held) && (s.now > m ==> Says(e, held))
    ensures Settling(Publish(s, e), m, held)
  {
    var states := Publish(s, e).states;
    forall i | 0 < i < |states| && !held(states[i - 1].value.fsm.state) ensures states[i].at <= m {
      if i > |s.states| {
        assert e.published[i - 1 - |s.states|] in e.published;
      }
    }
  }

  lemma StepKeepsSettling(s: Sys, step: Step, failure: Failure, delay: nat, m: int, held: SafetyState -> bool)
    requires Faithful(s) && Settling(s, m, held) && Enabled(s, step, failure, delay)
    requires Apply(s, step).now > m ==> Says(Said(s, step), held)
    ensures Settling(Apply(s, step), m, held)
  {
    match step {
      case ManagerInput(i) => PublishKeepsSettling(s, M.Step(s.manager, i), m, held);
      case DeliverBeat => PublishKeepsSettling(s, Said(s, step), m, held);
      case _ =>
    }
  }

  /** One message delay after `m`, all of the system is in those states. */
  lemma Settles(s: Sys, m: int, delay: nat, held: SafetyState -> bool)
    requires Faithful(s) && Timely(s, delay) && Settling(s, m, held) && s.now > m + delay
    ensures Settled(s, held)
  {
    forall i | 0 <= i < |s.states| ensures held(s.states[i].value.fsm.state) {
      if i + 1 < |s.states| {
        assert s.states[i + 1].at > m;
      }
    }
  }

  lemma PublishKeepsSettled(s: Sys, e: M.Effect, held: SafetyState -> bool)
    requires Settled(s, held) && Says(e, held)
    ensures Settled(Publish(s, e), held)
  {
    var states := Publish(s, e).states;
    forall i | 0 <= i < |states| ensures held(states[i].value.fsm.state) {
      if i >= |s.states| {
        assert e.published[i - |s.states|] in e.published;
      }
    }
  }

  lemma StepKeepsSettled(s: Sys, step: Step, failure: Failure, delay: nat, held: SafetyState -> bool)
    requires Settled(s, held) && Enabled(s, step, failure, delay) && Says(Said(s, step), held)
    ensures Settled(Apply(s, step), held)
  {
    match step {
      case ManagerInput(i) => PublishKeepsSettled(s, M.Step(s.manager, i), held);
      case DeliverBeat => PublishKeepsSettled(s, Said(s, step), held);
      case _ =>
    }
  }

  // ----- nothing moves until a RESUME -----

  predicate Stands(s: Sys, later: int) {
    !G.Moves(G.Tick(s.gate, s.now, later))
  }

  lemma SettledStands(s: Sys, later: int)
    requires Settled(s, HALTED)
    ensures Stands(s, later)
  {
  }

  /** A RESUME command that the manager accepts. */
  predicate Resumes(s: Sys, step: Step) {
    step == ManagerInput(M.Command(M.Resume)) && M.CommandAccepted(s.manager, M.Resume)
  }

  predicate NoResume(s: Sys, steps: seq<Step>) {
    forall i | 0 <= i < |steps| :: !Resumes(After(s, steps[..i]), steps[i])
  }

  lemma NoResumeEarlier(s: Sys, steps: seq<Step>)
    requires steps != [] && NoResume(s, steps)
    ensures NoResume(s, steps[..|steps| - 1]) && !Resumes(After(s, steps[..|steps| - 1]), steps[|steps| - 1])
  {
    var n := |steps| - 1;
    forall i | 0 <= i < n ensures !Resumes(After(s, steps[..n][..i]), steps[..n][i]) {
      assert steps[..n][..i] == steps[..i];
    }
  }

  lemma InputStaysHalted(m: M.Manager, input: M.Input)
    requires m.fsm.state != Normal && (input == M.Command(M.Resume) ==> !M.CommandAccepted(m, M.Resume))
    ensures Says(M.Step(m, input), HALTED)
  {
    var e := M.Step(m, input);
    forall p | p in e.published ensures p.fsm.state != Normal {
      if p.fsm.state == Normal {
        M.NormalIsPublishedByResume(m, input, p);
      }
    }
    if e.m.fsm.state == Normal {
      M.NormalNeedsResume(m, input);
    }
  }

  /** Out of NORMAL, the manager says nothing else until a RESUME is accepted. */
  lemma StaysHalted(s: Sys, step: Step)
    requires s.manager.fsm.state != Normal && !Resumes(s, step)
    ensures Says(Said(s, step), HALTED)
  {
    match step {
      case ManagerInput(i) => InputStaysHalted(s.manager, i);
      case DeliverBeat =>
        if s.beats != [] {
          InputStaysHalted(s.manager, M.Heartbeat(s.beats[0].value, s.now));
        }
      case _ =>
    }
  }

  /** Once nothing says NORMAL, the base stands still until a RESUME is accepted, whatever
      returns. */
  lemma {:induction false} QuietLasts(s: Sys, steps: seq<Step>, failure: Failure, delay: nat, later: int)
    requires Settled(s, HALTED) && AllEnabled(s, steps, failure, delay) && NoResume(s, steps)
    ensures Settled(After(s, steps), HALTED) && Stands(After(s, steps), later)
    decreases |steps|
  {
    if steps != [] {
      var n := |steps| - 1;
      Earlier(s, steps, failure, delay);
      NoResumeEarlier(s, steps);
      QuietLasts(s, steps[..n], failure, delay, later);
      StaysHalted(After(s, steps[..n]), steps[n]);
      StepKeepsSettled(After(s, steps[..n]), steps[n], failure, delay, HALTED);
    }
    SettledStands(After(s, steps), later);
  }

  lemma {:induction false} HaltSettles(s: Sys, steps: seq<Step>, failure: Failure, delay: nat)
    requires Inv(s, failure, delay) && s.manager.fsm.state != Normal
    requires AllEnabled(s, steps, failure, delay) && NoResume(s, steps)
    ensures var e := After(s, steps);
      Inv(e, failure, delay) && e.manager.fsm.state != Normal && Settling(e, s.now, HALTED)
    decreases |steps|
  {
    if steps == [] {
      SettlingStarts(s, s.now, delay, HALTED);
    } else {
      var n := |steps| - 1;
      Earlier(s, steps, failure, delay);
      NoResumeEarlier(s, steps);
      HaltSettles(s, steps[..n], failure, delay);
      var before := After(s, steps[..n]);
      StepKeepsInv(before, steps[n], failure, delay);
      StaysHalted(before, steps[n]);
      StepKeepsSettling(before, steps[n], failure, delay, s.now, HALTED);
    }
  }

  /** Whatever took the manager out of NORMAL, and whatever has failed: one message delay
      later the base stands still, until a RESUME is accepted. */
  lemma HaltStopsTheBase(s: Sys, steps: seq<Step>, failure: Failure, delay: nat, later: int)
    requires ReachedUnder(s, failure, delay) && s.manager.fsm.state != Normal
    requires AllEnabled(s, steps, failure, delay) && NoResume(s, steps) && After(s, steps).now > s.now + delay
    ensures Stands(After(s, steps), later)
  {
    ReachedUnderIsSound(s, failure, delay);
    HaltSettles(s, steps, failure, delay);
    Settles(After(s, steps), s.now, delay, HALTED);
    SettledStands(After(s, steps), later);
  }

  /** A stop request, a fault, an E-Stop or an expired watchdog, while the manager lives: one
      message delay after it the base stands still, until a RESUME is accepted. */
  lemma StopInputStopsTheBase(s: Sys, input: M.Input, steps: seq<Step>, failure: Failure, delay: nat, later: int)
    requires ReachedUnder(s, failure, delay) && Enabled(s, ManagerInput(input), failure, delay)
    requires M.Stops(s.manager, input)
    requires var stopped := Apply(s, ManagerInput(input));
      AllEnabled(stopped, steps, failure, delay) && NoResume(stopped, steps) && After(stopped, steps).now > s.now + delay
    ensures Stands(After(Apply(s, ManagerInput(input)), steps), later)
  {
    M.StopsTakeEffect(s.manager, input);
    ReachedUnderStep(s, ManagerInput(input), failure, delay);
    HaltStopsTheBase(Apply(s, ManagerInput(input)), steps, failure, delay, later);
  }

  /** And so does a heartbeat that is delivered dead. */
  lemma DeadBeatStopsTheBase(s: Sys, steps: seq<Step>, failure: Failure, delay: nat, later: int)
    requires ReachedUnder(s, failure, delay) && Enabled(s, DeliverBeat, failure, delay) && !s.beats[0].value
    requires var stopped := Apply(s, DeliverBeat);
      AllEnabled(stopped, steps, failure, delay) && NoResume(stopped, steps) && After(stopped, steps).now > s.now + delay
    ensures Stands(After(Apply(s, DeliverBeat), steps), later)
  {
    ReachedUnderIsSound(s, failure, delay);
    DeadBeatHalts(s.manager, s.now);
    ReachedUnderStep(s, DeliverBeat, failure, delay);
    HaltStopsTheBase(Apply(s, DeliverBeat), steps, failure, delay, later);
  }

  lemma DeadBeatHalts(m: M.Manager, now: int)
    requires M.Sound(m) && m.required
    ensures M.Step(m, M.Heartbeat(false, now)).m.fsm.state != Normal
  {
    if m.alive {
      M.StopsTakeEffect(m, M.Heartbeat(false, now));
    }
  }

  // ----- an E-Stop -----

  /** An E-Stop flag is set in every state of the run. */
  ghost predicate EStopHeld(s: Sys, steps: seq<Step>) {
    forall i | 0 <= i <= |steps| :: M.EStopActive(After(s, steps[..i]).manager)
  }

  lemma EStopHeldEarlier(s: Sys, steps: seq<Step>)
    requires steps != [] && EStopHeld(s, steps)
    ensures EStopHeld(s, steps[..|steps| - 1]) && M.EStopActive(After(s, steps).manager)
  {
    var n := |steps| - 1;
    assert steps[..|steps|] == steps;
    forall i | 0 <= i <= n ensures M.EStopActive(After(s, steps[..n][..i]).manager) {
      assert steps[..n][..i] == steps[..i];
    }
  }

  /** From a latched state to a latched state, nothing else is said. */
  lemma InputStaysLatched(m: M.Manager, input: M.Input)
    requires M.Sound(m) && M.EStopActive(m) && M.EStopActive(M.Step(m, input).m)
    ensures Says(M.Step(m, input), LATCHED)
  {
    M.StepKeepsSound(m, input);
    M.EventsAreCounted(m, input);
  }

  lemma StaysLatched(s: Sys, step: Step)
    requires M.Sound(s.manager) && M.EStopActive(s.manager) && M.EStopActive(Said(s, step).m)
    ensures Says(Said(s, step), LATCHED)
  {
    match step {
      case ManagerInput(i) => InputStaysLatched(s.manager, i);
      case DeliverBeat =>
        if s.beats != [] {
          InputStaysLatched(s.manager, M.Heartbeat(s.beats[0].value, s.now));
        }
      case _ =>
    }
  }

  lemma {:induction false} EStopSettles(s: Sys, steps: seq<Step>, failure: Failure, delay: nat)
    requires Inv(s, failure, delay) && AllEnabled(s, steps, failure, delay) && EStopHeld(s, steps)
    ensures var e := After(s, steps);
      Inv(e, failure, delay) && M.EStopActive(e.manager) && Settling(e, s.now, LATCHED)
    decreases |steps|
  {
    if steps == [] {
      SettlingStarts(s, s.now, delay, LATCHED);
      assert After(s, steps[..0]) == s;
    } else {
      var n := |steps| - 1;
      Earlier(s, steps, failure, delay);
      EStopHeldEarlier(s, steps);
      EStopSettles(s, steps[..n], failure, delay);
      var before := After(s, steps[..n]);
      StepKeepsInv(before, steps[n], failure, delay);
      StaysLatched(before, steps[n]);
      StepKeepsSettling(before, steps[n], failure, delay, s.now, LATCHED);
    }
  }

  /** While an E-Stop flag is held, from one message delay after it reached the manager the
      gate publishes nothing at all, neither for the base nor for the arm. */
  lemma EStopSilencesTheGate(s: Sys, steps: seq<Step>, failure: Failure, delay: nat, later: int)
    requires ReachedUnder(s, failure, delay) && AllEnabled(s, steps, failure, delay) && EStopHeld(s, steps)
    requires After(s, steps).now > s.now + delay
    ensures G.Tick(After(s, steps).gate, After(s, steps).now, later) == G.Output(None, None)
  {
    ReachedUnderIsSound(s, failure, delay);
    EStopSettles(s, steps, failure, delay);
    Settles(After(s, steps), s.now, delay, LATCHED);
  }

  // ----- what a moving base proves -----

  /** Whenever the gate publishes a nonzero base command, whatever has failed, the last safety
      message it heard is NORMAL, was received at most 250 ms and sent at most 250 ms plus one
      delay ago, and was sent with both E-Stop flags clear, no fault latched and the heartbeat
      alive; the command was received at most 300 ms ago and the authority is BASE_ACTIVE. */
  lemma MovingIsJustified(s: Sys, failure: Failure, delay: nat, later: int)
    requires ReachedUnder(s, failure, delay) && later >= s.now && G.Moves(G.Tick(s.gate, s.now, later))
    ensures s.seen.Some? && M.Message(s.seen.value.value).state == Normal
    ensures M.Clear(s.seen.value.value) && s.seen.value.value.alive
    ensures later - s.gate.stateAt <= G.STATE_TIMEOUT
    ensures later - s.seen.value.at <= G.STATE_TIMEOUT + delay
    ensures s.gate.authority == BaseActive && s.now - s.gate.commandAt <= G.COMMAND_TIMEOUT
  {
    ReachedUnderIsSound(s, failure, delay);
    M.NormalIsClear(s.seen.value.value);
  }
}
