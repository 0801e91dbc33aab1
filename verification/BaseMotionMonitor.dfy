/** The monitor that turns the stop detector's answers into feedback, and the handover of
    authority from base to arm seen across monitor, topic and authority service. */
module BaseMotionMonitor {
  import opened Wrappers
  import opened Reals
  import opened ControlMessages
  import opened BaseStopDetector
  import IM = InterlockManager
  import MI = MotionInterlock
  import G = SafetyGates

  predicate Still(x: real) {
    Abs(x) <= 0.000001
  }

  predicate IsZero(t: G.Twist) {
    && Still(t.linear.0) && Still(t.linear.1) && Still(t.linear.2)
    && Still(t.angular.0) && Still(t.angular.1) && Still(t.angular.2)
  }

  lemma IsZeroIff(t: G.Twist)
    ensures IsZero(t) <==>
      forall v | v in [t.linear.0, t.linear.1, t.linear.2, t.angular.0, t.angular.1, t.angular.2] ::
        -0.000001 <= v <= 0.000001
  {
    var all := [t.linear.0, t.linear.1, t.linear.2, t.angular.0, t.angular.1, t.angular.2];
    assert all[0] in all && all[1] in all && all[2] in all && all[3] in all && all[4] in all && all[5] in all;
  }

  class MotionMonitor {
    const detector: StopDetector
    var sequence: nat

    constructor (config: Config)
      ensures fresh(detector) && detector.Valid() && detector.history == [] && detector.config == config
      ensures sequence == 0
    {
      detector := new StopDetector(config);
      sequence := 0;
    }

    method OnCommand(twist: G.Twist, now: int)
      requires detector.Valid() && detector.NotBefore(now)
      modifies detector
      ensures detector.Valid()
      ensures detector.history == old(detector.history) + [Command(IsZero(twist), now)]
      ensures detector.history[|detector.history| - 1].zero <==>
        forall v | v in [twist.linear.0, twist.linear.1, twist.linear.2,
                         twist.angular.0, twist.angular.1, twist.angular.2] :: -0.000001 <= v <= 0.000001
    {
      IsZeroIff(twist);
      detector.ObserveCommand(IsZero(twist), now);
    }

    /** `planarSpeed` is the length of the planar velocity. */
    method OnOdometry(planarSpeed: real, yawRate: real, now: int)
      requires detector.Valid() && detector.NotBefore(now)
      modifies detector
      ensures detector.Valid()
      ensures detector.history == old(detector.history) + [Odometry(planarSpeed, Abs(yawRate), now)]
    {
      detector.ObserveOdometry(planarSpeed, Abs(yawRate), now);
    }

    /** The feedback says `stopped` exactly if the base has settled. */
    method OnTimer(stamp: int, now: int) returns (message: IM.StopFeedback)
      requires detector.Valid() && detector.NotBefore(now)
      modifies this, detector
      ensures detector.Valid() && detector.history == old(detector.history) + [Poll(now)]
      ensures sequence == old(sequence) + 1
      ensures message == IM.StopFeedback(IM.Base, Settled(detector.config, detector.history), stamp, sequence)
    {
      sequence := sequence + 1;
      var stopped := detector.Stopped(now);
      message := IM.StopFeedback(IM.Base, stopped, stamp, sequence);
    }
  }

  // ----- monitor and authority service together -----

  /** A message with the length of the history its answer was given on. */
  datatype Issued = Issued(message: IM.StopFeedback, upTo: nat)

  datatype Sys = Sys(now: int, history: seq<Observation>, issued: seq<Issued>, run: IM.Run)

  datatype Step = Sense(o: Observation) | Report(stamp: int, now: int) | Serve(input: IM.Input)

  function Start(now: int): Sys {
    Sys(now, [], [], IM.Run(IM.INITIAL_MANAGER, []))
  }

  function TimeOf(step: Step): int {
    match step
    case Sense(o) => o.at
    case Report(_, now) => now
    case Serve(input) => input.now
  }

  function Apply(c: Config, s: Sys, step: Step): Sys {
    match step
    case Sense(o) => s.(now := o.at, history := s.history + [o])
    case Report(stamp, now) =>
      var stopped := Answer(c, DetectorAfter(c, s.history), now);
      var message := IM.StopFeedback(IM.Base, stopped, stamp, |s.issued| + 1);
      s.(now := now, history := s.history + [Poll(now)], issued := s.issued + [Issued(message, |s.history| + 1)])
    case Serve(input) => s.(now := input.now, run := IM.StepRun(s.run, input))
  }

  /** Time moves forward on one clock, stamps included; feedback about the base comes from the
      monitor, late or twice as it may be. */
  ghost predicate Enabled(s: Sys, step: Step) {
    s.now <= TimeOf(step)
    && match step
       case Sense(o) => !o.Poll?
       case Report(stamp, now) => IM.OneClock(stamp, now)
       case Serve(input) =>
         input.Feedback? ==>
           && IM.OneClock(input.wall, input.now)
           && (input.message.resource == IM.Base ==>
                 exists i :: 0 <= i < |s.issued| && s.issued[i].message == input.message)
  }

  /** The message was issued at the poll that ends the first `upTo` observations, and if it
      says so the detector had then certified the stop. */
  ghost predicate CertifiedBy(c: Config, s: Sys, message: IM.StopFeedback, upTo: nat) {
    && 0 < upTo <= |s.history| && IM.OneClock(message.stamp, s.history[upTo - 1].at)
    && (message.stopped ==> Settled(c, s.history[..upTo]))
  }

  ghost predicate Certified(c: Config, s: Sys, message: IM.StopFeedback) {
    exists upTo: nat :: CertifiedBy(c, s, message, upTo)
  }

  predicate AboutBase(e: IM.Entry) {
    e.Confirmed? && e.feedback.resource == IM.Base
  }

  ghost predicate Kept(c: Config, s: Sys) {
    && InOrder(s.history) && (forall i | 0 <= i < |s.history| :: s.history[i].at <= s.now) && IM.Kept(s.run)
    && (forall i | 0 <= i < |s.issued| :: Certified(c, s, s.issued[i].message))
    && (forall e | e in s.run.log && AboutBase(e) :: Certified(c, s, e.feedback))
  }

  lemma CertifiedGrows(c: Config, s: Sys, s': Sys, message: IM.StopFeedback)
    requires Certified(c, s, message) && s.history <= s'.history
    ensures Certified(c, s', message)
  {
    var upTo: nat :| CertifiedBy(c, s, message, upTo);
    assert s'.history[..upTo] == s.history[..upTo];
    assert CertifiedBy(c, s', message, upTo);
  }

  lemma AllGrow(c: Config, s: Sys, s': Sys)
    requires s.history <= s'.history
    ensures forall message | Certified(c, s, message) :: Certified(c, s', message)
  {
    forall message | Certified(c, s, message) ensures Certified(c, s', message) {
      CertifiedGrows(c, s, s', message);
    }
  }

  lemma ReportKeeps(c: Config, s: Sys, stamp: int, now: int)
    requires Kept(c, s) && Enabled(s, Report(stamp, now))
    ensures Kept(c, Apply(c, s, Report(stamp, now)))
  {
    var s' := Apply(c, s, Report(stamp, now));
    StoppedIffSettled(c, s.history, now);
    AllGrow(c, s, s');
    var last := s'.issued[|s.issued|].message;
    assert s'.history[..|s.history| + 1] == s'.history;
    assert CertifiedBy(c, s', last, |s.history| + 1);
  }

  lemma SenseKeeps(c: Config, s: Sys, o: Observation)
    requires Kept(c, s) && Enabled(s, Sense(o))
    ensures Kept(c, Apply(c, s, Sense(o)))
  {
    AllGrow(c, s, Apply(c, s, Sense(o)));
  }

  lemma ServeKeeps(c: Config, s: Sys, input: IM.Input)
    requires Kept(c, s) && Enabled(s, Serve(input))
    ensures Kept(c, Apply(c, s, Serve(input)))
  {
    var s' := Apply(c, s, Serve(input));
    IM.StepKeeps(s.run, input);
    AllGrow(c, s, s');
    forall e | e in s'.run.log && AboutBase(e) ensures Certified(c, s', e.feedback) {
      if e !in s.run.log {
        assert e in IM.Step(s.run.m, input).entries;
        var i :| 0 <= i < |s.issued| && s.issued[i].message == input.message;
      }
    }
  }

  function RunAll(c: Config, start: int, steps: seq<Step>): Sys
    decreases |steps|
  {
    if steps == [] then Start(start) else Apply(c, RunAll(c, start, steps[..|steps| - 1]), steps[|steps| - 1])
  }

  ghost predicate AllEnabled(c: Config, start: int, steps: seq<Step>) {
    forall i | 0 <= i < |steps| :: Enabled(RunAll(c, start, steps[..i]), steps[i])
  }

  lemma {:induction false} RunsKeep(c: Config, start: int, steps: seq<Step>)
    requires AllEnabled(c, start, steps)
    ensures Kept(c, RunAll(c, start, steps))
    decreases |steps|
  {
    if steps != [] {
      var n := |steps| - 1;
      forall i | 0 <= i < n ensures Enabled(RunAll(c, start, steps[..n][..i]), steps[..n][i]) {
        assert steps[..n][..i] == steps[..i];
      }
      RunsKeep(c, start, steps[..n]);
      match steps[n] {
        case Sense(o) => SenseKeeps(c, RunAll(c, start, steps[..n]), o);
        case Report(stamp, now) => ReportKeeps(c, RunAll(c, start, steps[..n]), stamp, now);
        case Serve(input) => ServeKeeps(c, RunAll(c, start, steps[..n]), input);
      }
    }
  }

  /** In milliseconds, fresh feedback is at most 500 old. */
  lemma FreshMeans(message: IM.StopFeedback, wall: int)
    requires IM.Fresh(message, wall)
    ensures 0 <= wall / 1000000 - message.stamp / 1000000 <= 500
  {
  }

  lemma ConfirmedWindow(c: Config, s: Sys, e: IM.Entry) returns (upTo: nat)
    requires Kept(c, s) && e in s.run.log && AboutBase(e) && IM.Fresh(e.feedback, e.heardAt)
    ensures 0 < upTo <= |s.history| && Settled(c, s.history[..upTo])
    ensures 0 <= e.heardAt / 1000000 - s.history[upTo - 1].at <= 500
  {
    upTo :| CertifiedBy(c, s, e.feedback, upTo);
    FreshMeans(e.feedback, e.heardAt);
  }

  /** In every run of monitor and authority service, the arm gets authority after the base
      held it only past an entry that either gave up with a HEALTH_FAULT, or confirmed a stop
      that the detector had certified over a settled window that ended at most 500 ms before. */
  lemma ArmFollowsCertifiedStop(c: Config, start: int, steps: seq<Step>, i: nat, k: nat) returns (j: nat, upTo: nat)
    requires AllEnabled(c, start, steps)
    requires var log := RunAll(c, start, steps).run.log;
      i < k < |log| && MI.IsBase(IM.HolderAfter(log[i])) && IM.HolderAfter(log[k]) == ArmActive
    ensures i < j <= k
    ensures var s := RunAll(c, start, steps);
      var e := s.run.log[j];
      e.Expired? ||
      (&& AboutBase(e) && 0 < upTo <= |s.history| && Settled(c, s.history[..upTo])
       && 0 <= e.heardAt / 1000000 - s.history[upTo - 1].at <= 500)
  {
    var s := RunAll(c, start, steps);
    RunsKeep(c, start, steps);
    var log := s.run.log;
    if forall n | i < n <= k :: !IM.ClearsBase(log[n]) {
      IM.StillBase(log, i, k);
    }
    j :| i < j <= k && IM.ClearsBase(log[j]);
    assert log[j] in log;
    upTo := 0;
    if !log[j].Expired? {
      upTo := ConfirmedWindow(c, s, log[j]);
    }
  }

  // ----- is the base at rest when it is handed over? -----

  /** A nonzero command or a fast sample. */
  predicate Disturbs(c: Config, o: Observation) {
    match o
    case Command(zero, _) => !zero
    case Odometry(linear, angular, _) => !BaseStopDetector.Still(c, linear, angular)
    case Poll(_) => false
  }

  /** The run goes on with feedback that ends the stop of the base. */
  ghost predicate Confirms(c: Config, start: int, steps: seq<Step>, message: IM.StopFeedback, wall: int, now: int) {
    && AllEnabled(c, start, steps) && Enabled(RunAll(c, start, steps), Serve(IM.Feedback(message, wall, now)))
    && message.resource == IM.Base && IM.FeedbackAccepted(RunAll(c, start, steps).run.m, message, wall)
  }

  predicate UndisturbedFor(c: Config, h: seq<Observation>, now: int, limit: int) {
    forall k | 0 <= k < |h| && Disturbs(c, h[k]) :: now - h[k].at > limit
  }

  /** The stop was certified and nothing has disturbed it since. */
  ghost predicate StillAtRest(c: Config, s: Sys, message: IM.StopFeedback) {
    exists upTo: nat ::
      CertifiedBy(c, s, message, upTo) && forall k | upTo <= k < |s.history| :: !Disturbs(c, s.history[k])
  }

  /** If nothing has disturbed the base for `limit`, its stop is confirmed only while it rests. */
  ghost predicate RestsAfter(c: Config, limit: int) {
    forall start, steps, message, wall, now |
      Confirms(c, start, steps, message, wall, now) && UndisturbedFor(c, RunAll(c, start, steps).history, now, limit) ::
      StillAtRest(c, RunAll(c, start, steps), message)
  }

  lemma ConfirmedIsRecent(c: Config, start: int, steps: seq<Step>, message: IM.StopFeedback, wall: int, now: int)
    returns (upTo: nat)
    requires Confirms(c, start, steps, message, wall, now)
    ensures var s := RunAll(c, start, steps);
      && CertifiedBy(c, s, message, upTo) && InOrder(s.history) && now - s.history[upTo - 1].at <= 500
  {
    var s := RunAll(c, start, steps);
    RunsKeep(c, start, steps);
    var i :| 0 <= i < |s.issued| && s.issued[i].message == message;
    upTo :| CertifiedBy(c, s, message, upTo);
    FreshMeans(message, wall);
  }

  lemma UndisturbedRests(c: Config, start: int, steps: seq<Step>, message: IM.StopFeedback, wall: int, now: int)
    requires Confirms(c, start, steps, message, wall, now)
    requires UndisturbedFor(c, RunAll(c, start, steps).history, now, 500)
    ensures StillAtRest(c, RunAll(c, start, steps), message)
  {
    var s := RunAll(c, start, steps);
    var upTo := ConfirmedIsRecent(c, start, steps, message, wall, now);
    forall k | upTo <= k < |s.history| ensures !Disturbs(c, s.history[k]) {
      assert s.history[upTo - 1].at <= s.history[k].at;
    }
  }

  // ----- a run in which it moves -----

  lemma Do(c: Config, start: int, steps: seq<Step>, step: Step) returns (more: seq<Step>)
    requires AllEnabled(c, start, steps) && Enabled(RunAll(c, start, steps), step)
    ensures AllEnabled(c, start, more) && RunAll(c, start, more) == Apply(c, RunAll(c, start, steps), step)
  {
    more := steps + [step];
    assert more[..|steps|] == steps;
    forall i | 0 <= i < |more| ensures Enabled(RunAll(c, start, more[..i]), more[i]) {
      if i < |steps| {
        assert more[..i] == steps[..i];
      }
    }
  }

  /** The detector can be satisfied at all. */
  predicate Usable(c: Config) {
    c.linearLimit >= 0.0 && c.angularLimit >= 0.0 && c.commandTimeout >= 0 && c.odometryTimeout >= 0
  }

  lemma Hear(c: Config, steps: seq<Step>, at: int, zero: bool, speed: real) returns (more: seq<Step>)
    requires AllEnabled(c, 0, steps) && RunAll(c, 0, steps).now <= at
    ensures AllEnabled(c, 0, more)
    ensures var s := RunAll(c, 0, steps);
      RunAll(c, 0, more) == s.(now := at, history := s.history + [Command(zero, at)] + [Odometry(speed, 0.0, at)])
  {
    more := Do(c, 0, steps, Sense(Command(zero, at)));
    more := Do(c, 0, more, Sense(Odometry(speed, 0.0, at)));
  }

  lemma Certify(c: Config, steps: seq<Step>) returns (more: seq<Step>)
    requires AllEnabled(c, 0, steps)
    ensures AllEnabled(c, 0, more)
    ensures var s := RunAll(c, 0, steps);
      RunAll(c, 0, more) == Apply(c, s, Report(s.now * 1000000, s.now))
  {
    var s := RunAll(c, 0, steps);
    more := Do(c, 0, steps, Report(s.now * 1000000, s.now));
  }

  /** Zero commands and a standing sample at the beginning and at the end of a settling time. */
  function CalmWindow(c: Config): seq<Observation> {
    [Command(true, 0)] + [Odometry(0.0, 0.0, 0)] + [Poll(0)] + [Command(true, c.settleTime)]
      + [Odometry(0.0, 0.0, c.settleTime)]
  }

  lemma CalmIsCertified(c: Config)
    requires Usable(c)
    ensures Answer(c, DetectorAfter(c, CalmWindow(c)), c.settleTime)
  {
    var h1: seq<Observation> := [Command(true, 0)];
    var h2 := h1 + [Odometry(0.0, 0.0, 0)];
    var h3 := h2 + [Poll(0)];
    var h4 := h3 + [Command(true, c.settleTime)];
    assert [] + h1 == h1;
    Observed(c, [], Command(true, 0));
    Observed(c, h1, Odometry(0.0, 0.0, 0));
    Observed(c, h2, Poll(0));
    Observed(c, h3, Command(true, c.settleTime));
    Observed(c, h4, Odometry(0.0, 0.0, c.settleTime));
  }

  lemma BaseHeld(c: Config) returns (steps: seq<Step>)
    ensures AllEnabled(c, 0, steps)
    ensures var s := RunAll(c, 0, steps);
      s == Start(0).(run := s.run) && s.run.m.interlock == MI.Interlock(BaseActive, NoAuthority)
  {
    steps := Do(c, 0, [], Serve(IM.Ask(Some(MI.RequestBase), "mission", 0)));
  }

  function Certificate(c: Config): IM.StopFeedback {
    IM.StopFeedback(IM.Base, true, c.settleTime * 1000000, 2)
  }

  /** The base in authority, certified to stand at the end of a settling time. */
  lemma CertifiedStop(c: Config) returns (steps: seq<Step>)
    requires Usable(c)
    ensures AllEnabled(c, 0, steps)
    ensures var s := RunAll(c, 0, steps);
      && s.now == c.settleTime && s.run.m.interlock == MI.Interlock(BaseActive, NoAuthority)
      && s.history == CalmWindow(c) + [Poll(c.settleTime)]
      && |s.issued| == 2 && s.issued[1].message == Certificate(c)
  {
    steps := BaseHeld(c);
    steps := Hear(c, steps, 0, true, 0.0);
    assert RunAll(c, 0, steps).history == [Command(true, 0)] + [Odometry(0.0, 0.0, 0)];
    steps := Certify(c, steps);
    steps := Hear(c, steps, c.settleTime, true, 0.0);
    assert RunAll(c, 0, steps).history == CalmWindow(c);
    CalmIsCertified(c);
    steps := Certify(c, steps);
  }

  /** The base moves again and the arm is asked for. */
  lemma MovingStop(c: Config) returns (steps: seq<Step>)
    requires Usable(c)
    ensures AllEnabled(c, 0, steps)
    ensures var s := RunAll(c, 0, steps);
      && s.now == c.settleTime && s.run.m.interlock == MI.Interlock(BaseStopping, ArmActive)
      && s.history == CalmWindow(c) + [Poll(c.settleTime)] + [Command(false, c.settleTime)]
           + [Odometry(c.linearLimit + 1.0, 0.0, c.settleTime)]
      && |s.issued| == 2 && s.issued[1].message == Certificate(c)
  {
    steps := CertifiedStop(c);
    steps := Hear(c, steps, c.settleTime, false, c.linearLimit + 1.0);
    steps := Do(c, 0, steps, Serve(IM.Ask(Some(MI.RequestArm), "arm", c.settleTime)));
  }

  lemma OldIsFresh(settled: nat)
    ensures IM.OneClock((settled + 500) * 1000000, settled + 500)
    ensures (settled + 500) * 1000000 - settled * 1000000 == IM.FEEDBACK_TIMEOUT
  {
  }

  /** 500 ms later the old certificate still hands authority to the arm, although the last
      things the monitor saw were a nonzero command and a fast sample. */
  lemma ArmWhileTheBaseMoves(c: Config) returns (steps: seq<Step>, wall: int, now: int)
    requires Usable(c)
    ensures Confirms(c, 0, steps, Certificate(c), wall, now) && now == c.settleTime + 500
    ensures var s := RunAll(c, 0, steps);
      && s.history == CalmWindow(c) + [Poll(c.settleTime)] + [Command(false, c.settleTime)]
           + [Odometry(c.linearLimit + 1.0, 0.0, c.settleTime)]
      && Apply(c, s, Serve(IM.Feedback(Certificate(c), wall, now))).run.m.interlock.state == ArmActive
  {
    steps := MovingStop(c);
    now := c.settleTime + 500;
    wall := now * 1000000;
    OldIsFresh(c.settleTime);
  }

  lemma CalmDoesNotDisturb(c: Config, k: nat)
    requires Usable(c) && k < 5
    ensures !Disturbs(c, CalmWindow(c)[k])
  {
  }

  /** It does not rest then, although nothing has disturbed it for just under 500 ms. */
  lemma MovesThen(c: Config, s: Sys, limit: int)
    requires Usable(c) && limit < 500
    requires s.history == CalmWindow(c) + [Poll(c.settleTime)] + [Command(false, c.settleTime)]
                          + [Odometry(c.linearLimit + 1.0, 0.0, c.settleTime)]
    ensures !StillAtRest(c, s, Certificate(c)) && UndisturbedFor(c, s.history, c.settleTime + 500, limit)
  {
    var h := s.history;
    assert h[6] == Command(false, c.settleTime) && h[7].Odometry? && Disturbs(c, h[6]);
    forall upTo: nat | CertifiedBy(c, s, Certificate(c), upTo) ensures upTo <= 6 {
      assert h[..upTo][upTo - 1] == h[upTo - 1];
    }
    forall k | 0 <= k < |h| && Disturbs(c, h[k]) ensures h[k].at == c.settleTime {
      if k < 5 {
        assert h[k] == CalmWindow(c)[k];
        CalmDoesNotDisturb(c, k);
      }
    }
  }

  /** Only a detector that can be satisfied certifies. */
  lemma SettledIsUsable(c: Config, h: seq<Observation>)
    requires InOrder(h) && Settled(c, h)
    ensures Usable(c)
  {
    var n := |h| - 1;
    var p: nat :| StillSince(c, h, p) && h[n].at - h[p].at >= c.settleTime;
    assert Calm(c, h, n);
  }

  /** So the bound is exact: a stop is confirmed only while the base rests, given that nothing
      has disturbed it for `limit`, if and only if that is at least the 500 ms for which
      feedback counts. */
  lemma RestsIff(c: Config, limit: int)
    ensures RestsAfter(c, limit) <==> limit >= 500 || !Usable(c)
  {
    if limit >= 500 || !Usable(c) {
      forall start, steps, message, wall, now |
        Confirms(c, start, steps, message, wall, now) && UndisturbedFor(c, RunAll(c, start, steps).history, now, limit)
        ensures StillAtRest(c, RunAll(c, start, steps), message) {
        if limit >= 500 {
          UndisturbedRests(c, start, steps, message, wall, now);
        } else {
          NeverConfirmed(c, start, steps, message, wall, now);
        }
      }
    } else {
      var steps, wall, now := ArmWhileTheBaseMoves(c);
      MovesThen(c, RunAll(c, 0, steps), limit);
    }
  }

  lemma NeverConfirmed(c: Config, start: int, steps: seq<Step>, message: IM.StopFeedback, wall: int, now: int)
    requires Confirms(c, start, steps, message, wall, now)
    ensures Usable(c)
  {
    var s := RunAll(c, start, steps);
    var upTo := ConfirmedIsRecent(c, start, steps, message, wall, now);
    SettledIsUsable(c, s.history[..upTo]);
  }
}
