/** The composed system never gets stuck: whatever has failed, time can go on by timers and
    deliveries alone. So the bounds on stopping speak of runs that exist. */
module LinkLossProgress {
  import opened LinkLoss
  import opened LinkLossRuns
  import opened LinkLossStops
  import opened LinkLossBounds
  import B = EStopBridges
  import M = SafetyManager

  /** Time, timers and deliveries: nothing from the station or an operator. */
  predicate IsIdle(step: Step) {
    match step
    case Wait(_) => true
    case BridgeInput(i) => i.Timer?
    case ManagerInput(i) => i.Timer?
    case GateInput(_) => false
    case GateTimer(_) => true
    case DeliverBeat => true
    case DeliverState => true
  }

  /** A property of systems that every enabled idle step keeps. */
  ghost predicate Closed(reached: Sys -> bool, failure: Failure, delay: nat) {
    forall s, step :: reached(s) && Enabled(s, step, failure, delay) && IsIdle(step) ==> reached(Apply(s, step))
  }

  lemma Move(s: Sys, step: Step, reached: Sys -> bool, failure: Failure, delay: nat) returns (q: Sys)
    requires Closed(reached, failure, delay) && reached(s) && Enabled(s, step, failure, delay) && IsIdle(step)
    ensures reached(q) && q == Apply(s, step)
  {
    q := Apply(s, step);
  }

  /** The timers tick, where they still can. */
  lemma TickAll(s: Sys, reached: Sys -> bool, failure: Failure, delay: nat) returns (q: Sys)
    requires Closed(reached, failure, delay) && reached(s)
    ensures reached(q) && q.now == s.now == q.gateAt
    ensures (failure != BridgeDead ==> q.beatAt == s.now) && (failure != ManagerDead ==> q.watchAt == s.now)
  {
    q := Move(s, GateTimer(s.now), reached, failure, delay);
    if failure != BridgeDead {
      q := Move(q, BridgeInput(B.Timer(s.now)), reached, failure, delay);
    }
    if failure != ManagerDead {
      q := Move(q, ManagerInput(M.Timer(s.now)), reached, failure, delay);
    }
  }

  lemma {:induction false} DeliverBeats(s: Sys, reached: Sys -> bool, failure: Failure, delay: nat) returns (q: Sys)
    requires Closed(reached, failure, delay) && reached(s) && failure != ManagerDead
    ensures reached(q) && q.beats == []
    ensures q.now == s.now && q.beatAt == s.beatAt && q.watchAt == s.watchAt && q.gateAt == s.gateAt
    decreases |s.beats|
  {
    q := s;
    if s.beats != [] {
      q := Move(s, DeliverBeat, reached, failure, delay);
      q := DeliverBeats(q, reached, failure, delay);
    }
  }

  lemma {:induction false} DeliverStates(s: Sys, reached: Sys -> bool, failure: Failure, delay: nat) returns (q: Sys)
    requires Closed(reached, failure, delay) && reached(s)
    ensures reached(q) && q == s.(gate := q.gate, seen := q.seen, states := [])
    decreases |s.states|
  {
    q := s;
    if s.states != [] {
      q := Move(s, DeliverState, reached, failure, delay);
      q := DeliverStates(q, reached, failure, delay);
    }
  }

  lemma OneMillisecond(s: Sys, reached: Sys -> bool, failure: Failure, delay: nat) returns (q: Sys)
    requires Closed(reached, failure, delay) && reached(s)
    ensures reached(q) && q.now == s.now + 1
  {
    q := TickAll(s, reached, failure, delay);
    if failure != ManagerDead {
      q := DeliverBeats(q, reached, failure, delay);
    }
    q := DeliverStates(q, reached, failure, delay);
    q := Move(q, Wait(1), reached, failure, delay);
  }

  lemma {:induction false} Milliseconds(s: Sys, reached: Sys -> bool, failure: Failure, delay: nat, time: nat)
    returns (q: Sys)
    requires Closed(reached, failure, delay) && reached(s)
    ensures reached(q) && q.now == s.now + time
  {
    q := s;
    if time > 0 {
      q := Milliseconds(s, reached, failure, delay, time - 1);
      q := OneMillisecond(q, reached, failure, delay);
    }
  }

  /** The system reached from `s` by idle steps. */
  ghost predicate IdlesTo(s: Sys, q: Sys, failure: Failure, delay: nat) {
    exists steps :: IdleRun(s, steps, failure, delay) && q == After(s, steps)
  }

  ghost predicate IdleRun(s: Sys, steps: seq<Step>, failure: Failure, delay: nat) {
    AllEnabled(s, steps, failure, delay) && forall i | 0 <= i < |steps| :: IsIdle(steps[i])
  }

  lemma IdlingIsClosed(s: Sys, failure: Failure, delay: nat)
    ensures Closed(q => IdlesTo(s, q, failure, delay), failure, delay)
  {
    forall q, step | IdlesTo(s, q, failure, delay) && Enabled(q, step, failure, delay) && IsIdle(step)
      ensures IdlesTo(s, Apply(q, step), failure, delay) {
      var steps :| IdleRun(s, steps, failure, delay) && q == After(s, steps);
      RunGrows(s, steps, step, failure, delay);
      assert IdleRun(s, steps + [step], failure, delay);
    }
  }

  /** From every state, whatever has failed and however small the delay, there is a run of
      any length in time without a heartbeat from the station and without a RESUME. */
  lemma TimeGoesOn(s: Sys, failure: Failure, delay: nat, time: nat) returns (steps: seq<Step>)
    ensures AllEnabled(s, steps, failure, delay) && After(s, steps).now == s.now + time
    ensures NoHeartbeat(s, steps) && NoResume(s, steps)
  {
    var reached: Sys -> bool := q => IdlesTo(s, q, failure, delay);
    IdlingIsClosed(s, failure, delay);
    assert IdleRun(s, [], failure, delay) && s == After(s, []);
    var q := Milliseconds(s, reached, failure, delay, time);
    steps :| IdleRun(s, steps, failure, delay) && q == After(s, steps);
  }
}
