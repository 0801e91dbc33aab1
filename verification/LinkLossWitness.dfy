/** The bounds are exact: for every delay there are runs that drive the base up to the very
    end of each. So the 1000 ms of the control contract are kept exactly under a condition. */
module LinkLossWitness {
  import opened Wrappers
  import opened ControlMessages
  import opened LinkLoss
  import opened LinkLossRuns
  import opened LinkLossStops
  import opened LinkLossBounds
  import opened LinkLossCourse
  import opened LinkLossSchedule
  import B = EStopBridges
  import M = SafetyManager
  import G = SafetyGates

  // ----- worlds -----

  /** `reached` is kept by every step that is enabled and allowed. */
  ghost predicate Closed(reached: Sys -> bool, failure: Failure, hears: bool, delay: nat) {
    forall s, step :: reached(s) && Enabled(s, step, failure, delay) && Allowed(step, hears) ==> reached(Apply(s, step))
  }

  ghost predicate KeepsTo(s: Sys, reached: Sys -> bool, failure: Failure, c: Course) {
    reached(s) && Inv(s, failure, c.delay) && OnCourse(s, c)
  }

  ghost function WorldOf(reached: Sys -> bool, failure: Failure, hears: bool, c: Course): World {
    World(s => KeepsTo(s, reached, failure, c), failure, hears, c)
  }

  lemma WorldIsLawful(reached: Sys -> bool, failure: Failure, hears: bool, c: Course)
    requires Closed(reached, failure, hears, c.delay)
    ensures Lawful(WorldOf(reached, failure, hears, c))
  {
    var w := WorldOf(reached, failure, hears, c);
    forall s, step | w.on(s) && MayGo(s, step, w) ensures w.on(Apply(s, step)) {
      StepKeepsInv(s, step, failure, c.delay);
      StepKeepsCourse(s, step, c);
    }
  }

  /** The system reached from `s` by steps that are allowed. */
  ghost predicate RunsTo(s: Sys, q: Sys, failure: Failure, hears: bool, delay: nat) {
    exists steps :: Run(s, steps, failure, hears, delay) && q == After(s, steps)
  }

  ghost predicate Run(s: Sys, steps: seq<Step>, failure: Failure, hears: bool, delay: nat) {
    AllEnabled(s, steps, failure, delay) && forall i | 0 <= i < |steps| :: Allowed(steps[i], hears)
  }

  lemma RunsAreClosed(s: Sys, failure: Failure, hears: bool, delay: nat)
    ensures Closed(q => RunsTo(s, q, failure, hears, delay), failure, hears, delay)
    ensures RunsTo(s, s, failure, hears, delay)
  {
    forall q, step | RunsTo(s, q, failure, hears, delay) && Enabled(q, step, failure, delay) && Allowed(step, hears)
      ensures RunsTo(s, Apply(q, step), failure, hears, delay) {
      var steps :| Run(s, steps, failure, hears, delay) && q == After(s, steps);
      RunGrows(s, steps, step, failure, delay);
      assert Run(s, steps + [step], failure, hears, delay);
    }
    assert Run(s, [], failure, hears, delay) && s == After(s, []);
  }

  /** The world holds of systems reached from `s` alone. */
  ghost predicate StartsFrom(w: World, s: Sys) {
    forall q {:trigger Recalled(q)} :: Recalled(q) && w.on(q) ==> RunsTo(s, q, w.failure, w.hears, w.c.delay)
  }

  lemma RunRecalled(w: World, s: Sys, q: Sys)
    requires StartsFrom(w, s) && On(q, w)
    ensures RunsTo(s, q, w.failure, w.hears, w.c.delay)
  {
    assert Recalled(q);
  }

  /** The systems reached from `s` that keep to the course. */
  lemma BeginRun(s: Sys, failure: Failure, hears: bool, c: Course) returns (w: World)
    requires Inv(s, failure, c.delay) && OnCourse(s, c)
    ensures On(s, w) && StartsFrom(w, s) && w.failure == failure && w.hears == hears && w.c == c
  {
    var reached: Sys -> bool := q => RunsTo(s, q, failure, hears, c.delay);
    RunsAreClosed(s, failure, hears, c.delay);
    WorldIsLawful(reached, failure, hears, c);
    w := WorldOf(reached, failure, hears, c);
  }

  // ----- getting under way -----

  /** When the RESUME is given. */
  function ResumeAt(delay: nat): int {
    delay + PERIOD + 2
  }

  ghost predicate Starts(reached: Sys -> bool, timeout: nat, delay: nat) {
    Closed(reached, NoFailure, true, delay) && reached(Initial("r", timeout, false, 0))
  }

  lemma ReachedStarts(timeout: nat, delay: nat)
    ensures Starts(q => Reached(q, delay), timeout, delay)
  {
    forall s, step | Reached(s, delay) && Enabled(s, step, NoFailure, delay) ensures Reached(Apply(s, step), delay) {
      ReachedStep(s, step, delay);
    }
    var start := Initial("r", timeout, false, 0);
    assert AllEnabled(start, [], NoFailure, delay) && start == After(start, []);
  }

  lemma LinkUp(reached: Sys -> bool, timeout: nat, delay: nat, until: int) returns (s: Sys)
    requires Starts(reached, timeout, delay) && until > 0
    ensures KeepsTo(s, reached, NoFailure, Course(timeout, delay, None, until))
    ensures s.now == s.beatAt == s.watchAt == s.gateAt == 0
  {
    var start := Initial("r", timeout, false, 0);
    var up, authority := BridgeInput(B.LinkChanged(true)), GateInput(G.AuthorityInput(BaseActive));
    InitialInv("r", timeout, false, 0, delay);
    StepKeepsInv(start, up, NoFailure, delay);
    StepKeepsInv(Apply(start, up), authority, NoFailure, delay);
    s := Apply(Apply(start, up), authority);
  }

  /** By then the manager has heard the first beat. */
  lemma BeatHeard(s: Sys, w: World)
    requires Done(s, w) && w.failure == NoFailure && s.now == w.c.delay + PERIOD + 1 < w.c.until
    ensures s.manager.alive && (forall i | 0 <= i < |s.states| :: s.states[i].at <= s.now)
    ensures s.seen.Some? ==> s.seen.value.at <= s.now
  {
    Recall(s, w);
    RegularIsRecent(s.beats, s.beatSeen, s.beatAt, s.now, w.c.delay);
  }

  predicate TimersDue(s: Sys, delay: nat) {
    && s.beatAt >= LastTick(s.now - 1, 0) && s.watchAt >= LastTick(s.now - 1, delay)
    && s.gateAt >= LastTick(s.now - 1, 2 * delay)
  }

  lemma SameTimers(s: Sys, q: Sys, delay: nat)
    requires TimersDue(s, delay) && q.now == s.now
    requires q.beatAt == s.beatAt && q.watchAt == s.watchAt && q.gateAt == s.gateAt
    ensures TimersDue(q, delay)
  {
  }

  /** Just before the RESUME. */
  predicate Waiting(s: Sys, delay: nat) {
    && s.now == ResumeAt(delay) && TimersDue(s, delay) && s.manager.alive
    && (forall i | 0 <= i < |s.states| :: s.states[i].at < s.now)
    && (s.seen.Some? ==> s.seen.value.at < s.now)
  }

  lemma WaitForBeat(s: Sys, w: World) returns (q: Sys)
    requires Open(s, w) && w.failure == NoFailure && w.hears && s.now == 0 && ResumeAt(w.c.delay) < w.c.until
    ensures On(q, w) && Waiting(q, w.c.delay)
  {
    q := Finish(s, w);
    q := Proceed(q, w, w.c.delay + PERIOD + 1);
    BeatHeard(q, w);
    q := Advance(q, w);
  }

  lemma FirstBeat(reached: Sys -> bool, timeout: nat, delay: nat, until: int) returns (s: Sys)
    requires Starts(reached, timeout, delay) && ResumeAt(delay) < until
    ensures KeepsTo(s, reached, NoFailure, Course(timeout, delay, None, until)) && Waiting(s, delay)
  {
    var c := Course(timeout, delay, None, until);
    WorldIsLawful(reached, NoFailure, true, c);
    s := LinkUp(reached, timeout, delay, until);
    s := WaitForBeat(s, WorldOf(reached, NoFailure, true, c));
  }

  lemma ResumeIsTaken(s: Sys, c: Course)
    requires OnCourse(s, c) && c.since == None && Waiting(s, c.delay) && s.now < c.until
    ensures var q := Apply(s, ManagerInput(M.Command(M.Resume)));
      && q.now == s.now && q.beatAt == s.beatAt && q.watchAt == s.watchAt && q.gateAt == s.gateAt
      && OnCourse(q, c.(since := Some(s.now)))
  {
  }

  lemma Resumed(s: Sys, reached: Sys -> bool, c: Course) returns (q: Sys)
    requires Closed(reached, NoFailure, true, c.delay) && KeepsTo(s, reached, NoFailure, c)
    requires c.since == None && Waiting(s, c.delay) && s.now < c.until
    ensures KeepsTo(q, reached, NoFailure, c.(since := Some(s.now))) && q.now == s.now && TimersDue(q, c.delay)
  {
    var step := ManagerInput(M.Command(M.Resume));
    q := Apply(s, step);
    StepKeepsInv(s, step, NoFailure, c.delay);
    ResumeIsTaken(s, c);
    SameTimers(s, q, c.delay);
  }

  /** The station was heard until `time`, and all that was due by then has happened. */
  predicate Cruising(s: Sys, c: Course, time: int) {
    && c.since == Some(ResumeAt(c.delay)) && s.bridge.timeout == c.timeout
    && s.now == time && s.gateAt >= LastTick(time, 2 * c.delay) && s.bridge.received && s.bridge.heartbeatAt == time
    && s.beatAt >= LastTick(time, 0) && s.watchAt >= LastTick(time, c.delay)
    && NoneDue(s.beats, time, c.delay) && NoneDue(s.states, time, c.delay)
  }

  lemma CruiseIn(s: Sys, w: World, time: int) returns (q: Sys)
    requires On(s, w) && w.failure == NoFailure && w.hears && s.now < time && TimersDue(s, w.c.delay)
    requires w.c.since == Some(ResumeAt(w.c.delay))
    ensures On(q, w) && Cruising(q, w.c, time)
  {
    q := Finish(s, w);
    q := Proceed(q, w, time);
    Recall(q, w);
  }

  lemma Cruise(reached: Sys -> bool, timeout: nat, delay: nat, until: int, time: int) returns (s: Sys)
    requires Starts(reached, timeout, delay) && ResumeAt(delay) < time < until
    ensures var c := Course(timeout, delay, Some(ResumeAt(delay)), until);
      KeepsTo(s, reached, NoFailure, c) && Cruising(s, c, time)
  {
    var c := Course(timeout, delay, Some(ResumeAt(delay)), until);
    s := FirstBeat(reached, timeout, delay, until);
    s := Resumed(s, reached, Course(timeout, delay, None, until));
    WorldIsLawful(reached, NoFailure, true, c);
    s := CruiseIn(s, WorldOf(reached, NoFailure, true, c), time);
  }

  /** A cruise goes on in any world that it keeps fed. */
  lemma CruiseGoesOn(s: Sys, w: World, time: int)
    requires Cruising(s, w.c, time) && On(s, w) && Fed(s, w)
    ensures Done(s, w)
  {
  }

  // ----- a station that falls silent -----

  /** A run without heartbeats that follows any run of the system. */
  ghost predicate SilentRun(s: Sys, silent: seq<Step>, timeout: nat, delay: nat) {
    && Reached(s, delay) && s.bridge.timeout == timeout
    && AllEnabled(s, silent, NoFailure, delay) && NoHeartbeat(s, silent)
  }

  /** `limit` after the last heartbeat at the latest, no nonzero command can be published. */
  ghost predicate StopsWithin(timeout: nat, delay: nat, limit: int) {
    forall s, silent, later | SilentRun(s, silent, timeout, delay) && After(s, silent).now > s.now + limit ::
      Stands(After(s, silent), later)
  }

  /** `limit` after the last heartbeat at the latest, the gate has answered: what it published
      last is no nonzero command. */
  ghost predicate AnswersWithin(timeout: nat, delay: nat, limit: int) {
    forall s, silent | SilentRun(s, silent, timeout, delay) && After(s, silent).now > s.now + limit ::
      Still(After(s, silent))
  }

  /** When the heartbeats end: late enough, and such that the bridge ticks one timeout later. */
  function LastHeartbeat(timeout: nat, delay: nat): (t: int)
    ensures t > ResumeAt(delay) && IsTick(t + timeout)
  {
    var t0 := ResumeAt(delay) + 1;
    t0 + (-(t0 + timeout)) % PERIOD
  }

  lemma RunIsSilent(s: Sys, q: Sys, delay: nat) returns (silent: seq<Step>)
    requires RunsTo(s, q, NoFailure, false, delay)
    ensures AllEnabled(s, silent, NoFailure, delay) && NoHeartbeat(s, silent) && q == After(s, silent)
  {
    silent :| Run(s, silent, NoFailure, false, delay) && q == After(s, silent);
  }

  lemma DriveInSilence(s: Sys, w: World) returns (q: Sys, r: Sys)
    requires Done(s, w) && w.failure == NoFailure && !w.hears && s.now < w.c.until
    requires w.c.since.Some? && 0 < w.c.since.value <= w.c.until - PERIOD - 1
    ensures On(q, w) && q.now == q.gateAt == w.c.until + w.c.delay && q.output.base == Some(FORWARD)
    ensures G.Tick(q.gate, q.now, q.now) == q.output
    ensures On(r, w) && r.now == q.now + PERIOD && r.output == q.output
  {
    q := Proceed(s, w, w.c.until + w.c.delay - 1);
    ManagedPasses(q, w);
    EndIsTick(q, w);
    q := Drives(q, w);
    r := UntilNextTick(q, w);
  }

  /** The base driven as long after the last heartbeat as the bound allows. */
  ghost predicate DrivenLate(s: Sys, q: Sys, timeout: nat, delay: nat) {
    && s.bridge.timeout == timeout && s.bridge.heartbeatAt == s.now
    && RunsTo(s, q, NoFailure, false, delay)
    && q.now == q.gateAt == s.now + timeout + PERIOD + 2 * delay
    && q.output.base == Some(FORWARD) && G.Tick(q.gate, q.now, q.now) == q.output
  }

  /** And a run that goes on from there until the gate is about to tick again. */
  lemma SilentDrive(reached: Sys -> bool, timeout: nat, delay: nat) returns (s: Sys, q: Sys, r: Sys)
    requires Starts(reached, timeout, delay)
    ensures reached(s) && DrivenLate(s, q, timeout, delay)
    ensures RunsTo(s, r, NoFailure, false, delay) && r.now == q.now + PERIOD && r.output == q.output
  {
    var time := LastHeartbeat(timeout, delay);
    var c := Course(timeout, delay, Some(ResumeAt(delay)), time + timeout + PERIOD + delay);
    s := Cruise(reached, timeout, delay, c.until, time);
    var w := BeginRun(s, NoFailure, false, c);
    CruiseGoesOn(s, w, time);
    q, r := DriveInSilence(s, w);
    RunRecalled(w, s, q);
    RunRecalled(w, s, r);
  }

  /** The bound for a silent station is exact, for every timeout of the bridge and every delay. */
  lemma SilenceBoundIsExact(timeout: nat, delay: nat, limit: int)
    ensures StopsWithin(timeout, delay, limit) <==> limit >= timeout + PERIOD + 2 * delay
  {
    if limit >= timeout + PERIOD + 2 * delay {
      forall s, silent, later | SilentRun(s, silent, timeout, delay) && After(s, silent).now > s.now + limit
        ensures Stands(After(s, silent), later) {
        SilenceStopsTheBase(s, silent, delay, [], later);
      }
    } else {
      ReachedStarts(timeout, delay);
      var s, q, _ := SilentDrive(q => Reached(q, delay), timeout, delay);
      var silent := RunIsSilent(s, q, delay);
      assert SilentRun(s, silent, timeout, delay);
      assert !Stands(After(s, silent), q.now);
    }
  }

  /** So is the bound on the gate's answer, one period of its timer later. */
  lemma AnswerBoundIsExact(timeout: nat, delay: nat, limit: int)
    ensures AnswersWithin(timeout, delay, limit) <==> limit >= timeout + 2 * PERIOD + 2 * delay
  {
    if limit >= timeout + 2 * PERIOD + 2 * delay {
      forall s, silent | SilentRun(s, silent, timeout, delay) && After(s, silent).now > s.now + limit
        ensures Still(After(s, silent)) {
        SilenceIsAnswered(s, silent, delay);
      }
    } else {
      ReachedStarts(timeout, delay);
      var s, q, r := SilentDrive(q => Reached(q, delay), timeout, delay);
      var silent := RunIsSilent(s, r, delay);
      assert SilentRun(s, silent, timeout, delay);
      assert !Still(After(s, silent));
    }
  }

  /** The control contract gives the gate 1000 ms from the last heartbeat to its first zero
      command. It keeps them exactly if the bridge's timeout leaves room for two timer periods
      and two delays; and nonzero commands end by then exactly if it leaves room for one period
      and two delays. The default timeout of the bridge leaves none. */
  lemma ContractIsKeptIff(timeout: nat, delay: nat)
    ensures AnswersWithin(timeout, delay, 1000) <==> timeout + 2 * PERIOD + 2 * delay <= 1000
    ensures StopsWithin(timeout, delay, 1000) <==> timeout + PERIOD + 2 * delay <= 1000
    ensures !AnswersWithin(B.DEFAULT_TIMEOUT, delay, 1000) && !StopsWithin(B.DEFAULT_TIMEOUT, delay, 1000)
  {
    AnswerBoundIsExact(timeout, delay, 1000);
    SilenceBoundIsExact(timeout, delay, 1000);
    AnswerBoundIsExact(B.DEFAULT_TIMEOUT, delay, 1000);
    SilenceBoundIsExact(B.DEFAULT_TIMEOUT, delay, 1000);
  }

  // ----- a bridge that dies -----

  ghost predicate DeadRun(s: Sys, dead: seq<Step>, failure: Failure, delay: nat) {
    Reached(s, delay) && AllEnabled(s, dead, failure, delay)
  }

  /** `limit` after the death of the bridge at the latest, no nonzero command can be published. */
  ghost predicate OrphanStopsWithin(delay: nat, limit: int) {
    forall s, dead, later | DeadRun(s, dead, BridgeDead, delay) && After(s, dead).now > s.now + limit ::
      Stands(After(s, dead), later)
  }

  /** The first time after the RESUME at which a timer that is shifted by `phase` ticks. */
  function TickAfterResume(delay: nat, phase: nat): (t: int)
    ensures t > ResumeAt(delay) && IsTick(t - phase) && LastTick(t, phase) == t
  {
    var t0 := ResumeAt(delay) + 1;
    t0 + (phase - t0) % PERIOD
  }

  lemma LastBeatIsNow(s: Sys, delay: nat)
    requires Inv(s, NoFailure, delay) && s.beatAt >= s.now
    ensures LastBeat(s) == s.now && Gaps(s)
  {
  }

  lemma DriveOrphaned(s: Sys, w: World) returns (q: Sys)
    requires Done(s, w) && w.failure == BridgeDead && s.now < w.c.until
    requires w.c.since.Some? && 0 < w.c.since.value <= w.c.until - PERIOD - 1
    ensures On(q, w) && q.now == w.c.until + w.c.delay && G.Tick(q.gate, q.now, q.now).base == Some(FORWARD)
  {
    q := Proceed(s, w, w.c.until + w.c.delay - 1);
    ManagedPasses(q, w);
    EndIsTick(q, w);
    q := Drives(q, w);
  }

  lemma OrphanDrive(reached: Sys -> bool, delay: nat) returns (s: Sys, q: Sys)
    requires Starts(reached, 0, delay)
    ensures reached(s) && RunsTo(s, q, BridgeDead, false, delay)
    ensures q.now == s.now + M.HEARTBEAT_TIMEOUT + PERIOD + 2 * delay
    ensures G.Tick(q.gate, q.now, q.now).base == Some(FORWARD)
  {
    var time := TickAfterResume(delay, 0);
    var c := Course(0, delay, Some(ResumeAt(delay)), time + delay + M.HEARTBEAT_TIMEOUT + PERIOD);
    s := Cruise(reached, 0, delay, c.until, time);
    LastBeatIsNow(s, delay);
    var w := BeginRun(s, BridgeDead, false, c);
    CruiseGoesOn(s, w, time);
    q := DriveOrphaned(s, w);
    RunRecalled(w, s, q);
  }

  /** The bound for a dead bridge is exact for every delay. */
  lemma BridgeDeathBoundIsExact(delay: nat, limit: int)
    ensures OrphanStopsWithin(delay, limit) <==> limit >= M.HEARTBEAT_TIMEOUT + PERIOD + 2 * delay
  {
    if limit >= M.HEARTBEAT_TIMEOUT + PERIOD + 2 * delay {
      forall s, dead, later | DeadRun(s, dead, BridgeDead, delay) && After(s, dead).now > s.now + limit
        ensures Stands(After(s, dead), later) {
        BridgeDeathStopsTheBase(s, dead, delay, [], later);
      }
    } else {
      ReachedStarts(0, delay);
      var s, q := OrphanDrive(q => Reached(q, delay), delay);
      var dead := RunThere(s, q, BridgeDead, false, delay);
      assert DeadRun(s, dead, BridgeDead, delay);
      assert !Stands(After(s, dead), q.now);
    }
  }

  lemma RunThere(s: Sys, q: Sys, failure: Failure, hears: bool, delay: nat) returns (steps: seq<Step>)
    requires RunsTo(s, q, failure, hears, delay)
    ensures AllEnabled(s, steps, failure, delay) && q == After(s, steps)
  {
    steps :| Run(s, steps, failure, hears, delay) && q == After(s, steps);
  }

  // ----- a manager that dies -----

  /** `limit` after the death of the manager at the latest, the gate publishes nothing. */
  ghost predicate SilencedWithin(delay: nat, limit: int) {
    forall s, dead | DeadRun(s, dead, ManagerDead, delay) && After(s, dead).now > s.now + limit ::
      G.Tick(After(s, dead).gate, After(s, dead).now, After(s, dead).now) == G.Output(None, None)
  }

  lemma LastToldIsNow(s: Sys, delay: nat)
    requires Inv(s, NoFailure, delay) && s.watchAt >= s.now && (s.seen.None? ==> s.states != [])
    ensures LastTold(s) == s.now
  {
  }

  lemma DriveUnmanaged(s: Sys, w: World) returns (q: Sys)
    requires Done(s, w) && w.failure == ManagerDead && LastTold(s) == s.now
    requires w.c.since.Some? && w.c.since.value < w.c.until
    ensures On(q, w) && q.now == s.now + G.STATE_TIMEOUT + w.c.delay
    ensures G.Tick(q.gate, q.now, q.now).base == Some(FORWARD)
  {
    q := Proceed(s, w, s.now + G.STATE_TIMEOUT + w.c.delay - 1);
    UnmanagedPasses(q, w);
    TicksGoOn(s.now - w.c.delay, 5);
    q := Drives(q, w);
  }

  lemma UnmanagedDrive(reached: Sys -> bool, delay: nat) returns (s: Sys, q: Sys)
    requires Starts(reached, 0, delay)
    ensures reached(s) && RunsTo(s, q, ManagerDead, true, delay) && q.now == s.now + G.STATE_TIMEOUT + delay
    ensures G.Tick(q.gate, q.now, q.now).base == Some(FORWARD)
  {
    var time := TickAfterResume(delay, delay);
    var c := Course(0, delay, Some(ResumeAt(delay)), time + 1);
    s := Cruise(reached, 0, delay, c.until, time);
    LastToldIsNow(s, delay);
    var w := BeginRun(s, ManagerDead, true, c);
    CruiseGoesOn(s, w, time);
    q := DriveUnmanaged(s, w);
    RunRecalled(w, s, q);
  }

  /** And so is the bound for a dead manager. */
  lemma ManagerDeathBoundIsExact(delay: nat, limit: int)
    ensures SilencedWithin(delay, limit) <==> limit >= G.STATE_TIMEOUT + delay
  {
    if limit >= G.STATE_TIMEOUT + delay {
      forall s, dead | DeadRun(s, dead, ManagerDead, delay) && After(s, dead).now > s.now + limit
        ensures G.Tick(After(s, dead).gate, After(s, dead).now, After(s, dead).now) == G.Output(None, None) {
        ManagerDeathSilencesTheGate(s, dead, delay, After(s, dead).now);
      }
    } else {
      ReachedStarts(0, delay);
      var s, q := UnmanagedDrive(q => Reached(q, delay), delay);
      var dead := RunThere(s, q, ManagerDead, true, delay);
      assert DeadRun(s, dead, ManagerDead, delay);
    }
  }
}
