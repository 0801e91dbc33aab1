/** How soon the base stops when the station, the bridge or the manager is lost. Every bound is
    for all runs of the composed system. */
module LinkLossBounds {
  import opened Wrappers
  import opened LinkLoss
  import opened LinkLossRuns
  import opened LinkLossStops
  import B = EStopBridges
  import M = SafetyManager
  import G = SafetyGates

  // ----- a dead heartbeat -----

  lemma DeadSaysNoNormal(m: M.Manager, input: M.Input)
    requires M.Sound(m) && m.required && !M.Step(m, input).m.alive
    ensures Says(M.Step(m, input), HALTED)
  {
    M.StepKeepsSound(m, input);
  }

  /** With the heartbeat held dead, nothing the manager does says NORMAL. */
  lemma DeadIsHalted(s: Sys, step: Step)
    requires Faithful(s) && !Apply(s, step).manager.alive
    ensures Says(Said(s, step), HALTED)
  {
    match step {
      case ManagerInput(i) => DeadSaysNoNormal(s.manager, i);
      case DeliverBeat =>
        if s.beats != [] {
          DeadSaysNoNormal(s.manager, M.Heartbeat(s.beats[0].value, s.now));
        }
      case _ =>
    }
  }

  // ----- no heartbeat from the station after T -----

  predicate DeadAfter(beats: seq<Stamped<bool>>, limit: int) {
    forall i | 0 <= i < |beats| && beats[i].at > limit :: !beats[i].value
  }

  /** No heartbeat since `t`: the bridge calls the link dead one timeout later, and so does
      every beat it sends after that. */
  ghost predicate Silent(s: Sys, t: int) {
    && s.bridge.heartbeatAt <= t
    && DeadAfter(s.beats, t + s.bridge.timeout)
    && (s.beatSeen > t + s.bridge.timeout ==> !s.manager.alive)
  }

  predicate NoHeartbeat(s: Sys, steps: seq<Step>) {
    forall i | 0 <= i < |steps| && steps[i].BridgeInput? :: !B.Hears(s.bridge.robotId, steps[i].b)
  }

  lemma {:induction false} DeadActs(acts: seq<B.Act>)
    requires forall a | a in acts && a.Published? :: !a.alive
    ensures forall x | x in Beats(acts) :: !x
  {
    if acts != [] {
      DeadActs(acts[..|acts| - 1]);
    }
  }

  lemma BeatsAreDead(b: B.Bridge, i: B.Input, now: int)
    requires IsNow(i, now) && now > b.heartbeatAt + b.timeout
    ensures forall x | x in Beats(B.BridgeStep(b, i).acts) :: !x
  {
    match i {
      case Poll(events, parse, at, ready) =>
        B.PollPublishesFalse(b, events, parse, at, ready);
        DeadActs(B.PollLink(b, events, parse, at, ready).acts);
      case Timer(at) => TimerBeats(b, at);
      case LinkChanged(_) =>
    }
  }

  lemma DeadAppend(beats: seq<Stamped<bool>>, limit: int, values: seq<bool>, now: int)
    requires DeadAfter(beats, limit) && (now > limit ==> forall x | x in values :: !x)
    ensures DeadAfter(beats + Stamp(values, now), limit)
  {
    var all := beats + Stamp(values, now);
    assert forall i | |beats| <= i < |all| :: all[i].at == now && all[i].value in values;
  }

  lemma StepKeepsSilent(s: Sys, step: Step, failure: Failure, delay: nat, t: int)
    requires Inv(s, failure, delay) && Silent(s, t) && Enabled(s, step, failure, delay)
    requires step.BridgeInput? ==> !B.Hears(s.bridge.robotId, step.b)
    ensures Silent(Apply(s, step), t) && SameBridge(s, Apply(s, step))
  {
    match step {
      case BridgeInput(i) =>
        BridgeReads(s.bridge, i, s.now);
        if s.now > t + s.bridge.timeout {
          BeatsAreDead(s.bridge, i, s.now);
        }
        DeadAppend(s.beats, t + s.bridge.timeout, Beats(B.BridgeStep(s.bridge, i).acts), s.now);
      case ManagerInput(i) => ManagerReads(s.manager, i, s.now);
      case DeliverBeat => ManagerReads(s.manager, M.Heartbeat(s.beats[0].value, s.now), s.now);
      case _ =>
    }
  }

  /** Name and timeout of the bridge are its parameters. */
  predicate SameBridge(s: Sys, q: Sys) {
    s.bridge.robotId == q.bridge.robotId && s.bridge.timeout == q.bridge.timeout
  }

  /** The dead beat is sent within one period and heard within one delay. */
  lemma SilenceIsHeard(s: Sys, t: int, delay: nat)
    requires Inv(s, NoFailure, delay) && Silent(s, t) && s.now > t + s.bridge.timeout + PERIOD + delay
    ensures !s.manager.alive
  {
  }

  lemma SilenceStep(s: Sys, step: Step, delay: nat, t: int, m: int)
    requires Inv(s, NoFailure, delay) && Silent(s, t) && Enabled(s, step, NoFailure, delay)
    requires step.BridgeInput? ==> !B.Hears(s.bridge.robotId, step.b)
    requires m == t + s.bridge.timeout + PERIOD + delay && Settling(s, m, HALTED)
    ensures var q := Apply(s, step);
      Inv(q, NoFailure, delay) && Silent(q, t) && SameBridge(s, q) && Settling(q, m, HALTED)
  {
    var q := Apply(s, step);
    StepKeepsInv(s, step, NoFailure, delay);
    StepKeepsSilent(s, step, NoFailure, delay, t);
    if q.now > m {
      SilenceIsHeard(q, t, delay);
      DeadIsHalted(s, step);
    }
    StepKeepsSettling(s, step, NoFailure, delay, m, HALTED);
  }

  lemma {:induction false} SilenceSettles(s: Sys, steps: seq<Step>, delay: nat)
    requires Inv(s, NoFailure, delay) && AllEnabled(s, steps, NoFailure, delay) && NoHeartbeat(s, steps)
    ensures var e := After(s, steps);
      && Inv(e, NoFailure, delay) && Silent(e, s.now) && SameBridge(s, e)
      && Settling(e, s.now + s.bridge.timeout + PERIOD + delay, HALTED)
    decreases |steps|
  {
    var m := s.now + s.bridge.timeout + PERIOD + delay;
    if steps == [] {
      SettlingStarts(s, m, delay, HALTED);
    } else {
      var n := |steps| - 1;
      Earlier(s, steps, NoFailure, delay);
      SilenceSettles(s, steps[..n], delay);
      SilenceStep(After(s, steps[..n]), steps[n], delay, s.now, m);
    }
  }

  /** If no heartbeat arrives from the station after the moment of `s`, the gate publishes no
      nonzero base command from the bridge's timeout plus 50 ms plus two message delays later
      on; and it publishes none after that either, even if heartbeats return, until a RESUME
      is accepted. */
  lemma SilenceStopsTheBase(s: Sys, silent: seq<Step>, delay: nat, rest: seq<Step>, later: int)
    requires Reached(s, delay)
    requires AllEnabled(s, silent, NoFailure, delay) && NoHeartbeat(s, silent)
    requires var q := After(s, silent);
      && q.now > s.now + s.bridge.timeout + PERIOD + 2 * delay
      && AllEnabled(q, rest, NoFailure, delay) && NoResume(q, rest)
    ensures Stands(After(After(s, silent), rest), later)
  {
    var q := After(s, silent);
    ReachedIsSound(s, delay);
    SilenceSettles(s, silent, delay);
    Settles(q, s.now + s.bridge.timeout + PERIOD + delay, delay, HALTED);
    QuietLasts(q, rest, NoFailure, delay, later);
  }

  /** What the gate published last is no nonzero base command. */
  predicate Still(s: Sys) {
    !G.Moves(s.output)
  }

  lemma {:induction false} SilenceStillsTheGate(s: Sys, steps: seq<Step>, delay: nat)
    requires Inv(s, NoFailure, delay) && AllEnabled(s, steps, NoFailure, delay) && NoHeartbeat(s, steps)
    ensures After(s, steps).gateAt > s.now + s.bridge.timeout + PERIOD + 2 * delay ==> Still(After(s, steps))
    decreases |steps|
  {
    if steps != [] {
      var n := |steps| - 1;
      Earlier(s, steps, NoFailure, delay);
      SilenceStillsTheGate(s, steps[..n], delay);
      SilenceSettles(s, steps[..n], delay);
      var before := After(s, steps[..n]);
      if steps[n].GateTimer? && before.now > s.now + s.bridge.timeout + PERIOD + 2 * delay {
        Settles(before, s.now + s.bridge.timeout + PERIOD + delay, delay, HALTED);
        SettledStands(before, steps[n].later);
      }
    }
  }

  /** And one period of the gate's timer later, what it published last is no such command. */
  lemma SilenceIsAnswered(s: Sys, silent: seq<Step>, delay: nat)
    requires Reached(s, delay) && AllEnabled(s, silent, NoFailure, delay) && NoHeartbeat(s, silent)
    requires After(s, silent).now > s.now + s.bridge.timeout + 2 * PERIOD + 2 * delay
    ensures Still(After(s, silent))
  {
    ReachedIsSound(s, delay);
    SilenceSettles(s, silent, delay);
    SilenceStillsTheGate(s, silent, delay);
  }

  // ----- the bridge process dies -----

  ghost predicate Orphaned(s: Sys, t: int, delay: nat) {
    && (forall i | 0 <= i < |s.beats| :: s.beats[i].at <= t)
    && s.manager.heartbeatAt <= t + delay
  }

  lemma StepKeepsOrphaned(s: Sys, step: Step, t: int, delay: nat)
    requires Inv(s, BridgeDead, delay) && Orphaned(s, t, delay) && Enabled(s, step, BridgeDead, delay)
    ensures Orphaned(Apply(s, step), t, delay)
  {
  }

  lemma WatchdogFires(s: Sys, t: int, delay: nat)
    requires Inv(s, BridgeDead, delay) && Orphaned(s, t, delay)
    requires s.now > t + M.HEARTBEAT_TIMEOUT + PERIOD + delay
    ensures !s.manager.alive
  {
  }

  lemma OrphanStep(s: Sys, step: Step, delay: nat, t: int, m: int)
    requires Inv(s, BridgeDead, delay) && Orphaned(s, t, delay) && Enabled(s, step, BridgeDead, delay)
    requires m == t + M.HEARTBEAT_TIMEOUT + PERIOD + delay && Settling(s, m, HALTED)
    ensures var q := Apply(s, step);
      Inv(q, BridgeDead, delay) && Orphaned(q, t, delay) && Settling(q, m, HALTED)
  {
    var q := Apply(s, step);
    StepKeepsInv(s, step, BridgeDead, delay);
    StepKeepsOrphaned(s, step, t, delay);
    if q.now > m {
      WatchdogFires(q, t, delay);
      DeadIsHalted(s, step);
    }
    StepKeepsSettling(s, step, BridgeDead, delay, m, HALTED);
  }

  lemma {:induction false} OrphanSettles(s: Sys, steps: seq<Step>, delay: nat)
    requires Inv(s, BridgeDead, delay) && AllEnabled(s, steps, BridgeDead, delay)
    ensures var e := After(s, steps);
      && Inv(e, BridgeDead, delay) && Orphaned(e, s.now, delay)
      && Settling(e, s.now + M.HEARTBEAT_TIMEOUT + PERIOD + delay, HALTED)
    decreases |steps|
  {
    var m := s.now + M.HEARTBEAT_TIMEOUT + PERIOD + delay;
    if steps == [] {
      SettlingStarts(s, m, delay, HALTED);
    } else {
      var n := |steps| - 1;
      Earlier(s, steps, BridgeDead, delay);
      OrphanSettles(s, steps[..n], delay);
      OrphanStep(After(s, steps[..n]), steps[n], delay, s.now, m);
    }
  }

  /** If the bridge process dies at the moment of `s`, the watchdog takes over: the base
      stands from 800 ms plus two message delays later on, until a RESUME is accepted. */
  lemma BridgeDeathStopsTheBase(s: Sys, dead: seq<Step>, delay: nat, rest: seq<Step>, later: int)
    requires Reached(s, delay) && AllEnabled(s, dead, BridgeDead, delay)
    requires var q := After(s, dead);
      && q.now > s.now + M.HEARTBEAT_TIMEOUT + PERIOD + 2 * delay
      && AllEnabled(q, rest, BridgeDead, delay) && NoResume(q, rest)
    ensures Stands(After(After(s, dead), rest), later)
  {
    var q := After(s, dead);
    ReachedIsSound(s, delay);
    OrphanSettles(s, dead, delay);
    Settles(q, s.now + M.HEARTBEAT_TIMEOUT + PERIOD + delay, delay, HALTED);
    QuietLasts(q, rest, BridgeDead, delay, later);
  }

  // ----- the safety manager dies -----

  ghost predicate Unsupervised(s: Sys, t: int, delay: nat) {
    (forall i | 0 <= i < |s.states| :: s.states[i].at <= t) && s.gate.stateAt <= t + delay
  }

  lemma StepKeepsUnsupervised(s: Sys, step: Step, t: int, delay: nat)
    requires Inv(s, ManagerDead, delay) && Unsupervised(s, t, delay) && Enabled(s, step, ManagerDead, delay)
    ensures Unsupervised(Apply(s, step), t, delay)
  {
  }

  lemma {:induction false} UnsupervisedRun(s: Sys, steps: seq<Step>, delay: nat)
    requires Inv(s, ManagerDead, delay) && AllEnabled(s, steps, ManagerDead, delay)
    ensures Inv(After(s, steps), ManagerDead, delay) && Unsupervised(After(s, steps), s.now, delay)
    decreases |steps|
  {
    if steps != [] {
      var n := |steps| - 1;
      Earlier(s, steps, ManagerDead, delay);
      UnsupervisedRun(s, steps[..n], delay);
      StepKeepsInv(After(s, steps[..n]), steps[n], ManagerDead, delay);
      StepKeepsUnsupervised(After(s, steps[..n]), steps[n], s.now, delay);
    }
  }

  /** If the safety manager dies at the moment of `s`, the gate publishes nothing at all
      from 250 ms plus one message delay later on. */
  lemma ManagerDeathSilencesTheGate(s: Sys, dead: seq<Step>, delay: nat, later: int)
    requires Reached(s, delay) && AllEnabled(s, dead, ManagerDead, delay)
    requires later >= After(s, dead).now > s.now + G.STATE_TIMEOUT + delay
    ensures G.Tick(After(s, dead).gate, After(s, dead).now, later) == G.Output(None, None)
  {
    ReachedIsSound(s, delay);
    UnsupervisedRun(s, dead, delay);
  }
}
