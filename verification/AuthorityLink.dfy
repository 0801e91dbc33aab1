/** The authority service and the gate, joined by an in-order channel: how long the base can
    still be driven once authority has left it, and what lies between a base command and an
    arm command at the gate. */
module AuthorityLink {
  import opened ControlMessages
  import opened Wrappers
  import L = LinkLoss
  import IM = InterlockManager
  import MI = MotionInterlock
  import G = SafetyGates

  /** `messages` are under way, oldest first. */
  datatype Sys = Sys(now: int, run: IM.Run, messages: seq<L.Stamped<Authority>>, gate: G.Gate)

  datatype Step = Wait(time: nat) | Serve(input: IM.Input) | Deliver | GateHears(message: G.Input)

  /** The service publishes its state when it starts. */
  function Initial(armEnabled: bool, now: int): Sys {
    Sys(now, IM.Run(IM.INITIAL_MANAGER, []), [L.Stamped(NoAuthority, now)], G.InitialGate(armEnabled))
  }

  /** Every accepted transition is published at once. */
  function Apply(s: Sys, step: Step): Sys {
    match step
    case Wait(time) => s.(now := s.now + time)
    case Serve(input) =>
      var run := IM.StepRun(s.run, input);
      s.(run := run,
         messages := if |run.log| == |s.run.log| then s.messages
                     else s.messages + [L.Stamped(run.m.interlock.state, s.now)])
    case Deliver =>
      if s.messages == [] then s
      else s.(gate := G.Receive(s.gate, G.AuthorityInput(s.messages[0].value)), messages := s.messages[1..])
    case GateHears(input) => s.(gate := G.Receive(s.gate, input))
  }

  predicate GateIsNow(input: G.Input, now: int) {
    match input
    case BaseCommand(_, at) => at == now
    case ArmCommand(_, at) => at == now
    case SafetyInput(_, at) => at == now
    case AuthorityInput(_) => false
  }

  /** No message is under way for longer than `delay`. */
  predicate Enabled(s: Sys, step: Step, delay: nat) {
    match step
    case Wait(time) => s.messages != [] ==> s.now + time - s.messages[0].at <= delay
    case Serve(input) => input.now == s.now
    case Deliver => s.messages != []
    case GateHears(input) => GateIsNow(input, s.now)
  }

  function After(s: Sys, steps: seq<Step>): Sys {
    if steps == [] then s else Apply(After(s, steps[..|steps| - 1]), steps[|steps| - 1])
  }

  predicate AllEnabled(s: Sys, steps: seq<Step>, delay: nat) {
    forall i | 0 <= i < |steps| :: Enabled(After(s, steps[..i]), steps[i], delay)
  }

  // ----- what every step keeps -----

  /** How many of the service's states the gate has heard; the first is the initial one. */
  function Heard(s: Sys): int {
    |s.run.log| + 1 - |s.messages|
  }

  /** The service's state after its first `k` transitions. */
  function StateAfter(log: seq<IM.Entry>, k: int): Authority {
    if 0 < k <= |log| then IM.HolderAfter(log[k - 1]) else NoAuthority
  }

  ghost predicate Inv(s: Sys, delay: nat) {
    && IM.Kept(s.run) && Heard(s) >= 0
    && L.Ordered(s.messages, s.now - delay, s.now)
    && (forall i | 0 <= i < |s.messages| :: s.messages[i].value == StateAfter(s.run.log, Heard(s) + i))
    && s.gate.authority == StateAfter(s.run.log, Heard(s) - 1)
  }

  lemma InitialInv(armEnabled: bool, now: int, delay: nat)
    ensures Inv(Initial(armEnabled, now), delay)
  {
  }

  lemma StateStays(log: seq<IM.Entry>, more: seq<IM.Entry>, k: int)
    requires log <= more && k <= |log|
    ensures StateAfter(more, k) == StateAfter(log, k)
  {
  }

  lemma SentKeepsInv(s: Sys, run: IM.Run, delay: nat)
    requires Inv(s, delay) && IM.Kept(run) && s.run.log <= run.log && |run.log| == |s.run.log| + 1
    ensures Inv(s.(run := run, messages := s.messages + [L.Stamped(run.m.interlock.state, s.now)]), delay)
  {
    var s' := s.(run := run, messages := s.messages + [L.Stamped(run.m.interlock.state, s.now)]);
    StateStays(s.run.log, run.log, Heard(s) - 1);
    forall i | 0 <= i < |s'.messages| ensures s'.messages[i].value == StateAfter(run.log, Heard(s) + i) {
      if i < |s.messages| {
        StateStays(s.run.log, run.log, Heard(s) + i);
      }
    }
  }

  lemma ServeKeepsInv(s: Sys, input: IM.Input, delay: nat)
    requires Inv(s, delay) && input.now == s.now
    ensures Inv(Apply(s, Serve(input)), delay)
    ensures s.run.log <= Apply(s, Serve(input)).run.log
  {
    var run := IM.StepRun(s.run, input);
    IM.StepKeeps(s.run, input);
    OneEntry(s.run, input);
    if |run.log| > |s.run.log| {
      SentKeepsInv(s, run, delay);
    } else {
      assert run.log == s.run.log;
    }
  }

  lemma OneEntry(r: IM.Run, input: IM.Input)
    requires IM.Kept(r)
    ensures var r' := IM.StepRun(r, input);
      && r.log <= r'.log && |r'.log| <= |r.log| + 1
      && (|r'.log| == |r.log| ==> r'.m.interlock.state == r.m.interlock.state)
  {
  }

  lemma DeliverKeepsInv(s: Sys, delay: nat)
    requires Inv(s, delay) && s.messages != []
    ensures Inv(Apply(s, Deliver), delay)
  {
    var s' := Apply(s, Deliver);
    forall i | 0 <= i < |s'.messages| ensures s'.messages[i].value == StateAfter(s'.run.log, Heard(s') + i) {
      assert s'.messages[i] == s.messages[i + 1];
    }
    assert s.messages[0].value == StateAfter(s.run.log, Heard(s) + 0);
  }

  lemma StepKeepsInv(s: Sys, step: Step, delay: nat)
    requires Inv(s, delay) && Enabled(s, step, delay)
    ensures Inv(Apply(s, step), delay)
    ensures s.run.log <= Apply(s, step).run.log && Heard(s) <= Heard(Apply(s, step))
  {
    match step {
      case Serve(input) =>
        ServeKeepsInv(s, input, delay);
        OneEntry(s.run, input);
      case Deliver => DeliverKeepsInv(s, delay);
      case _ =>
    }
  }

  lemma Earlier(s: Sys, steps: seq<Step>, delay: nat)
    requires steps != [] && AllEnabled(s, steps, delay)
    ensures AllEnabled(s, steps[..|steps| - 1], delay)
    ensures Enabled(After(s, steps[..|steps| - 1]), steps[|steps| - 1], delay)
  {
    var n := |steps| - 1;
    forall i | 0 <= i < n ensures Enabled(After(s, steps[..n][..i]), steps[..n][i], delay) {
      assert steps[..n][..i] == steps[..i];
    }
  }

  lemma {:induction false} RunKeepsInv(s: Sys, steps: seq<Step>, delay: nat)
    requires Inv(s, delay) && AllEnabled(s, steps, delay)
    ensures var e := After(s, steps);
      Inv(e, delay) && s.run.log <= e.run.log && Heard(s) <= Heard(e)
    decreases |steps|
  {
    if steps != [] {
      var n := |steps| - 1;
      Earlier(s, steps, delay);
      RunKeepsInv(s, steps[..n], delay);
      StepKeepsInv(After(s, steps[..n]), steps[n], delay);
    }
  }

  ghost predicate Reached(s: Sys, delay: nat) {
    exists armEnabled, start, steps ::
      AllEnabled(Initial(armEnabled, start), steps, delay) && s == After(Initial(armEnabled, start), steps)
  }

  lemma ReachedIsSound(s: Sys, delay: nat)
    requires Reached(s, delay)
    ensures Inv(s, delay)
  {
    var armEnabled, start, steps :|
      AllEnabled(Initial(armEnabled, start), steps, delay) && s == After(Initial(armEnabled, start), steps);
    InitialInv(armEnabled, start, delay);
    RunKeepsInv(Initial(armEnabled, start), steps, delay);
  }

  // ----- a base command and then an arm command -----

  /** In every run, if the gate passes a base motion and later an arm command, then between
      the transitions it acted on lies a fresh confirmation that the base had stopped, or a
      handover that was given up with a fault. */
  lemma ArmFollowsBaseAtTheGate(s: Sys, steps: seq<Step>, delay: nat, now: int, later: int, now': int, later': int)
    returns (j: nat)
    requires Reached(s, delay) && AllEnabled(s, steps, delay)
    requires G.Moves(G.Tick(s.gate, now, later)) && G.Tick(After(s, steps).gate, now', later').arm.Some?
    ensures Heard(s) - 1 <= j < Heard(After(s, steps)) - 1
    ensures j < |After(s, steps).run.log| && IM.ClearsBase(After(s, steps).run.log[j])
  {
    var e := After(s, steps);
    ReachedIsSound(s, delay);
    RunKeepsInv(s, steps, delay);
    var i, k := Heard(s) - 2, Heard(e) - 2;
    assert IM.HolderAfter(e.run.log[i]) == BaseActive && IM.HolderAfter(e.run.log[k]) == ArmActive;
    if forall n | i < n <= k :: !IM.ClearsBase(e.run.log[n]) {
      IM.StillBase(e.run.log, i, k);
    }
    j :| i < j <= k && IM.ClearsBase(e.run.log[j]);
  }

  // ----- how long the base can still be driven -----

  /** From time `m` on the base does not hold authority; whatever else was said before is
      followed by a message sent no later than `m`. */
  ghost predicate Leaving(s: Sys, m: int) {
    && (s.now > m ==> s.run.m.interlock.state != BaseActive)
    && (s.messages != [] && s.gate.authority == BaseActive ==> s.messages[0].at <= m)
    && (forall i | 0 < i < |s.messages| && s.messages[i - 1].value == BaseActive :: s.messages[i].at <= m)
  }

  /** The base does not hold authority in any state of the run. */
  predicate Withheld(s: Sys, steps: seq<Step>) {
    forall i | 0 <= i <= |steps| :: After(s, steps[..i]).run.m.interlock.state != BaseActive
  }

  lemma WithheldEarlier(s: Sys, steps: seq<Step>)
    requires steps != [] && Withheld(s, steps)
    ensures Withheld(s, steps[..|steps| - 1]) && After(s, steps).run.m.interlock.state != BaseActive
  {
    var n := |steps| - 1;
    assert steps[..|steps|] == steps;
    forall i | 0 <= i <= n ensures After(s, steps[..n][..i]).run.m.interlock.state != BaseActive {
      assert steps[..n][..i] == steps[..i];
    }
  }

  /** The message sent last tells the service's state. */
  lemma LastTells(s: Sys, delay: nat)
    requires Inv(s, delay)
    ensures s.run.m.interlock.state
         == if s.messages == [] then s.gate.authority else s.messages[|s.messages| - 1].value
  {
  }

  lemma StepKeepsLeaving(s: Sys, step: Step, delay: nat, m: int)
    requires Inv(s, delay) && Leaving(s, m) && Enabled(s, step, delay)
    requires Apply(s, step).now > m ==> Apply(s, step).run.m.interlock.state != BaseActive
    ensures Leaving(Apply(s, step), m)
  {
    LastTells(s, delay);
  }

  lemma {:induction false} WithheldLeaves(s: Sys, steps: seq<Step>, delay: nat)
    requires Inv(s, delay) && AllEnabled(s, steps, delay) && Withheld(s, steps)
    ensures Inv(After(s, steps), delay) && Leaving(After(s, steps), s.now)
    ensures After(s, steps).run.m.interlock.state != BaseActive
    decreases |steps|
  {
    if steps == [] {
      assert After(s, steps[..0]) == s;
    } else {
      var n := |steps| - 1;
      Earlier(s, steps, delay);
      WithheldEarlier(s, steps);
      WithheldLeaves(s, steps[..n], delay);
      StepKeepsInv(After(s, steps[..n]), steps[n], delay);
      StepKeepsLeaving(After(s, steps[..n]), steps[n], delay, s.now);
    }
  }

  lemma LeftIsHeard(s: Sys, m: int, delay: nat)
    requires Inv(s, delay) && Leaving(s, m) && s.now > m + delay
    ensures s.gate.authority != BaseActive
  {
    LastTells(s, delay);
  }

  ghost predicate Away(s: Sys, steps: seq<Step>, delay: nat) {
    Reached(s, delay) && AllEnabled(s, steps, delay) && Withheld(s, steps)
  }

  /** `limit` after authority left the base at the latest, no nonzero base command passes. */
  ghost predicate StandsWithin(delay: nat, limit: int) {
    forall s, steps, later | Away(s, steps, delay) && After(s, steps).now > s.now + limit ::
      !G.Moves(G.Tick(After(s, steps).gate, After(s, steps).now, later))
  }

  lemma AwayStands(s: Sys, steps: seq<Step>, delay: nat, later: int)
    requires Away(s, steps, delay) && After(s, steps).now > s.now + delay
    ensures !G.Moves(G.Tick(After(s, steps).gate, After(s, steps).now, later))
  {
    ReachedIsSound(s, delay);
    WithheldLeaves(s, steps, delay);
    LeftIsHeard(After(s, steps), s.now, delay);
  }

  // ----- and that is exact -----

  const FORWARD := G.Twist((1.0, 0.0, 0.0), (0.0, 0.0, 0.0))

  lemma Do(s: Sys, steps: seq<Step>, step: Step, delay: nat) returns (more: seq<Step>)
    requires AllEnabled(s, steps, delay) && Enabled(After(s, steps), step, delay)
    ensures AllEnabled(s, more, delay) && After(s, more) == Apply(After(s, steps), step) && more == steps + [step]
  {
    more := steps + [step];
    assert more[..|steps|] == steps;
    forall i | 0 <= i < |more| ensures Enabled(After(s, more[..i]), more[i], delay) {
      if i < |steps| {
        assert more[..i] == steps[..i];
      }
    }
  }

  /** The base holds authority, and the gate has heard it. */
  lemma BaseHeld(delay: nat) returns (s: Sys, steps: seq<Step>)
    ensures s == Initial(false, 0) && AllEnabled(s, steps, delay)
    ensures var q := After(s, steps);
      && q.now == 0 && q.messages == [] && q.gate.authority == BaseActive
      && q.run.m.interlock == MI.Interlock(BaseActive, NoAuthority)
  {
    s := Initial(false, 0);
    steps := Do(s, [], Deliver, delay);
    steps := Do(s, steps, Serve(IM.Ask(Some(MI.RequestBase), "mission", 0)), delay);
    steps := Do(s, steps, Deliver, delay);
  }

  /** The arm has just been asked for, and the gate does not know yet. */
  predicate JustAsked(s: Sys) {
    && s.now == 0 && s.messages == [L.Stamped(BaseStopping, 0)]
    && s.gate.authority == BaseActive && s.run.m.interlock.state == BaseStopping
  }

  lemma ArmAsked(delay: nat) returns (start: Sys, steps: seq<Step>)
    ensures start == Initial(false, 0) && AllEnabled(start, steps, delay) && JustAsked(After(start, steps))
  {
    start, steps := BaseHeld(delay);
    steps := Do(start, steps, Serve(IM.Ask(Some(MI.RequestArm), "arm", 0)), delay);
  }

  /** It goes on driving for a whole delay. */
  lemma DrivenOn(s: Sys, delay: nat) returns (steps: seq<Step>)
    requires JustAsked(s)
    ensures AllEnabled(s, steps, delay) && Withheld(s, steps)
    ensures var q := After(s, steps);
      q.now == s.now + delay && G.Tick(q.gate, q.now, q.now).base == Some(FORWARD)
  {
    steps := Do(s, [], Wait(delay), delay);
    steps := Do(s, steps, GateHears(G.SafetyInput(Normal, delay)), delay);
    steps := Do(s, steps, GateHears(G.BaseCommand(FORWARD, delay)), delay);
    NothingServed(s, steps);
  }

  lemma {:induction false} NothingServed(s: Sys, steps: seq<Step>)
    requires forall i | 0 <= i < |steps| :: !steps[i].Serve?
    ensures After(s, steps).run == s.run
    ensures s.run.m.interlock.state != BaseActive ==> Withheld(s, steps)
    decreases |steps|
  {
    if steps != [] {
      var n := |steps| - 1;
      NothingServed(s, steps[..n]);
      assert steps[..|steps|] == steps;
      forall i | 0 <= i <= n ensures After(s, steps[..i]) == After(s, steps[..n][..i]) {
        assert steps[..n][..i] == steps[..i];
      }
    }
  }

  /** The gate has no timeout on authority: a base command can pass for exactly as long as
      the message that authority has left the base is under way. */
  lemma StandsIff(delay: nat, limit: int)
    ensures StandsWithin(delay, limit) <==> limit >= delay
  {
    if limit >= delay {
      forall s, steps, later | Away(s, steps, delay) && After(s, steps).now > s.now + limit
        ensures !G.Moves(G.Tick(After(s, steps).gate, After(s, steps).now, later)) {
        AwayStands(s, steps, delay, later);
      }
    } else {
      var start, asked := ArmAsked(delay);
      var s := After(start, asked);
      var steps := DrivenOn(s, delay);
      assert Away(s, steps, delay);
      var q := After(s, steps);
      assert G.Moves(G.Tick(q.gate, q.now, q.now));
    }
  }
}
