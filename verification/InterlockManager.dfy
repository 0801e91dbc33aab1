/** The authority service: deadlines, stop feedback and faults around the interlock. */
module InterlockManager {
  import opened Wrappers
  import opened ControlMessages
  import opened MotionInterlock

  const TRANSITION_TIMEOUT := 1000

  /** In nanoseconds, as message stamps are compared. */
  const FEEDBACK_TIMEOUT := 500 * 1000000

  datatype Resource = Base | Arm | OtherResource

  datatype StopFeedback = StopFeedback(resource: Resource, stopped: bool, stamp: int, sequence: nat)

  datatype Manager = Manager(interlock: Interlock, startedAt: Option<int>, owner: string, sequence: nat, faults: nat)

  /** Accepted transitions. A timeout always comes with a HEALTH_FAULT of its own. */
  datatype Entry =
    | Granted(request: Request, to: Authority)
    | Confirmed(feedback: StopFeedback, heardAt: int, to: Authority)
    | Expired(fault: nat)

  datatype Effect = Effect(m: Manager, entries: seq<Entry>)

  datatype Input =
    | Ask(request: Option<Request>, requester: string, now: int)
    | Feedback(message: StopFeedback, wall: int, now: int)
    | Timer(now: int)

  const INITIAL_MANAGER := Manager(INITIAL, None, "", 0, 0)

  function Accepted(m: Manager, i: Interlock, now: int): Manager {
    Manager(i, if IsStopping(i.state) then Some(now) else None, if i.state == NoAuthority then "" else m.owner,
            m.sequence + 1, m.faults)
  }

  predicate AskAccepted(m: Manager, request: Option<Request>) {
    request.Some? && Accepts(m.interlock.state, Requested(request.value))
  }

  function OnAsk(m: Manager, request: Option<Request>, requester: string, now: int): Effect {
    if !AskAccepted(m, request) then Effect(m, [])
    else
      var m1 := if request.value != Release then m.(owner := requester) else m;
      var m2 := Accepted(m1, Next(m1.interlock, Requested(request.value)), now);
      Effect(m2, [Granted(request.value, m2.interlock.state)])
  }

  /** Feedback counts only if its stamp is neither in the future nor over 500 ms old. */
  predicate Fresh(message: StopFeedback, wall: int) {
    message.stopped && 0 <= wall - message.stamp <= FEEDBACK_TIMEOUT
  }

  predicate FeedbackAccepted(m: Manager, message: StopFeedback, wall: int) {
    Fresh(message, wall)
    && ((message.resource == Base && m.interlock.state == BaseStopping)
        || (message.resource == Arm && m.interlock.state == ArmStopping))
  }

  function OnFeedback(m: Manager, message: StopFeedback, wall: int, now: int): Effect {
    if !FeedbackAccepted(m, message, wall) then Effect(m, [])
    else
      var m1 := Accepted(m, Next(m.interlock, if message.resource == Base then BaseStopped else ArmStopped), now);
      Effect(m1, [Confirmed(message, wall, m1.interlock.state)])
  }

  function OnTimer(m: Manager, now: int): Effect {
    if m.startedAt == None || now - m.startedAt.value <= TRANSITION_TIMEOUT then Effect(m, [])
    else if !IsStopping(m.interlock.state) then Effect(m.(startedAt := None), [])
    else
      var m1 := Accepted(m.(owner := ""), INITIAL, now);
      Effect(m1.(faults := m1.faults + 1), [Expired(m1.faults + 1)])
  }

  function Step(m: Manager, input: Input): Effect {
    match input
    case Ask(request, requester, now) => OnAsk(m, request, requester, now)
    case Feedback(message, wall, now) => OnFeedback(m, message, wall, now)
    case Timer(now) => OnTimer(m, now)
  }

  datatype Run = Run(m: Manager, log: seq<Entry>)

  function StepRun(r: Run, input: Input): Run {
    var e := Step(r.m, input);
    Run(e.m, r.log + e.entries)
  }

  function RunAll(inputs: seq<Input>): Run
    decreases |inputs|
  {
    if inputs == [] then Run(INITIAL_MANAGER, [])
    else StepRun(RunAll(inputs[..|inputs| - 1]), inputs[|inputs| - 1])
  }

  // ----- what every step keeps -----

  function HolderAfter(e: Entry): Authority {
    match e
    case Granted(_, to) => to
    case Confirmed(_, _, to) => to
    case Expired(_) => NoAuthority
  }

  function Holder(log: seq<Entry>): Authority {
    if log == [] then NoAuthority else HolderAfter(log[|log| - 1])
  }

  /** The deadline timer is set exactly while a stop is awaited; nobody owns no authority. */
  ghost predicate Valid(m: Manager) {
    && WellFormed(m.interlock)
    && (m.startedAt.Some? <==> IsStopping(m.interlock.state))
    && (m.interlock.state == NoAuthority ==> m.owner == "")
  }

  /** The base was confirmed to have stopped by feedback stamped at most 500 ms before,
      or the handover was given up with a fault. */
  predicate ClearsBase(e: Entry) {
    (e.Confirmed? && e.feedback.resource == Base && Fresh(e.feedback, e.heardAt)) || e.Expired?
  }

  /** While the base holds authority, only such an entry takes it away. */
  ghost predicate BaseClearedFirst(log: seq<Entry>) {
    forall k | 0 < k < |log| && IsBase(HolderAfter(log[k - 1])) && !IsBase(HolderAfter(log[k])) :: ClearsBase(log[k])
  }

  ghost predicate Kept(r: Run) {
    Valid(r.m) && Holder(r.log) == r.m.interlock.state && BaseClearedFirst(r.log)
  }

  lemma StepKeeps(r: Run, input: Input)
    requires Kept(r)
    ensures Kept(StepRun(r, input))
  {
  }

  lemma {:induction false} RunsKeep(inputs: seq<Input>)
    ensures Kept(RunAll(inputs))
    decreases |inputs|
  {
    if inputs != [] {
      RunsKeep(inputs[..|inputs| - 1]);
      StepKeeps(RunAll(inputs[..|inputs| - 1]), inputs[|inputs| - 1]);
    }
  }

  lemma {:induction false} StillBase(log: seq<Entry>, i: nat, k: nat)
    requires BaseClearedFirst(log) && i <= k < |log| && IsBase(HolderAfter(log[i]))
    requires forall j | i < j <= k :: !ClearsBase(log[j])
    ensures IsBase(HolderAfter(log[k]))
    decreases k - i
  {
    if i < k {
      StillBase(log, i, k - 1);
    }
  }

  /** In every run, between the base holding authority and the arm getting it, either fresh
      BASE stop feedback was accepted, or the handover timed out to nobody and a
      HEALTH_FAULT was sent. */
  lemma ArmNeedsTheBaseStopped(inputs: seq<Input>, i: nat, k: nat)
    requires var log := RunAll(inputs).log;
      i < k < |log| && IsBase(HolderAfter(log[i])) && HolderAfter(log[k]) == ArmActive
    ensures exists j :: i < j <= k && ClearsBase(RunAll(inputs).log[j])
  {
    RunsKeep(inputs);
    var log := RunAll(inputs).log;
    if forall j | i < j <= k :: !ClearsBase(log[j]) {
      StillBase(log, i, k);
    }
  }

  // ----- the deadline -----

  /** The stop has been awaited ever since `at`. */
  predicate Awaiting(m: Manager, at: int) {
    IsStopping(m.interlock.state) && m.startedAt == Some(at)
  }

  /** Neither a request nor feedback postpones the deadline: the awaited stop is either over
      or has the deadline it had, and an expired timer ends it. */
  lemma DeadlineHolds(m: Manager, input: Input, at: int)
    requires Valid(m) && Awaiting(m, at)
    ensures var m' := Step(m, input).m;
      && (IsStopping(m'.interlock.state) ==> m' == m)
      && (input.Timer? ==> (input.now - at > 1000 <==> !IsStopping(m'.interlock.state)))
  {
  }

  function From(m: Manager, inputs: seq<Input>): Manager
    decreases |inputs|
  {
    if inputs == [] then m else Step(From(m, inputs[..|inputs| - 1]), inputs[|inputs| - 1]).m
  }

  /** Every later state up to the end of the inputs still awaits a stop. */
  predicate StopsThroughout(m: Manager, inputs: seq<Input>) {
    forall k | 0 <= k <= |inputs| :: IsStopping(From(m, inputs[..k]).interlock.state)
  }

  lemma {:induction false} OneEpisode(m: Manager, inputs: seq<Input>, at: int)
    requires Valid(m) && Awaiting(m, at) && StopsThroughout(m, inputs)
    ensures From(m, inputs) == m
    decreases |inputs|
  {
    if inputs != [] {
      var n := |inputs| - 1;
      forall k | 0 <= k <= n ensures IsStopping(From(m, inputs[..n][..k]).interlock.state) {
        assert inputs[..n][..k] == inputs[..k];
      }
      OneEpisode(m, inputs[..n], at);
      assert inputs[..|inputs|] == inputs;
      DeadlineHolds(m, inputs[n], at);
    }
  }

  /** However many requests and messages arrive meanwhile, the first timer tick more than a
      second after the stop was asked for finds the stop over or ends it. */
  lemma StopIsNeverPostponed(m: Manager, inputs: seq<Input>, at: int, now: int)
    requires Valid(m) && Awaiting(m, at) && now - at > 1000
    ensures !StopsThroughout(m, inputs + [Timer(now)])
  {
    var all := inputs + [Timer(now)];
    if StopsThroughout(m, all) {
      assert all[..|all|] == all && all[..|all| - 1] == inputs;
      assert StopsThroughout(m, inputs) by {
        forall k | 0 <= k <= |inputs| ensures IsStopping(From(m, inputs[..k]).interlock.state) {
          assert inputs[..k] == all[..k];
        }
      }
      OneEpisode(m, inputs, at);
      DeadlineHolds(m, Timer(now), at);
    }
  }

  /** The fault and the timeout are one event: there are as many faults as expiries, and
      none while the deadline has not passed. */
  lemma FaultIffExpired(m: Manager, input: Input)
    requires Valid(m)
    ensures var e := Step(m, input);
      && (e.m.faults != m.faults <==>
            input.Timer? && IsStopping(m.interlock.state) && input.now - m.startedAt.value > 1000)
      && (e.m.faults != m.faults <==> e.entries == [Expired(m.faults + 1)])
      && (e.m.faults != m.faults ==> e.m.interlock == INITIAL)
  {
  }

  // ----- what one step changes -----

  /** Every accepted transition is one entry and one publication, and nothing else changes
      anything. */
  lemma TransitionsAreCounted(m: Manager, input: Input)
    requires Valid(m)
    ensures var e := Step(m, input);
      && |e.entries| <= 1 && e.m.sequence == m.sequence + |e.entries| && (e.entries == [] ==> e.m == m)
      && e.m.faults == m.faults + (if e.entries != [] && e.entries[0].Expired? then 1 else 0)
      && (e.entries != [] ==> HolderAfter(e.entries[0]) == e.m.interlock.state)
  {
  }

  /** Who asked last for base or arm owns authority, until nobody has it; a release is nobody's. */
  lemma OwnerIs(m: Manager, input: Input)
    requires Valid(m)
    ensures Step(m, input).m.owner ==
      if Step(m, input).m.interlock.state == NoAuthority then ""
      else if input.Ask? && AskAccepted(m, input.request) && input.request != Some(Release) then input.requester
      else m.owner
  {
  }

  /** Feedback ends a stop exactly if it says so of the resource awaited, and its stamp is neither
      ahead of the clock nor more than half a second behind it. */
  lemma FeedbackCountsIff(m: Manager, message: StopFeedback, wall: int, now: int)
    requires Valid(m)
    ensures Step(m, Feedback(message, wall, now)).m != m <==>
      && message.stopped && message.stamp <= wall && wall - message.stamp <= 500000000
      && ((message.resource == Base && m.interlock.state == BaseStopping)
          || (message.resource == Arm && m.interlock.state == ArmStopping))
  {
  }

  // ----- feedback older than the stop it confirms -----

  /** Stamps and the deadline are read from one clock, to the millisecond. */
  predicate OneClock(wall: int, now: int) {
    wall / 1000000 == now
  }

  /** Freshness is measured from the arrival alone: while a stop asked for at `at` is
      awaited, feedback stamped before that can still be accepted, exactly until 500 ms
      after the request. */
  lemma OlderFeedbackIff(m: Manager, at: int, wall: int, now: int)
    requires Valid(m) && Awaiting(m, at) && at <= now && OneClock(wall, now)
    ensures (exists message: StopFeedback :: message.stamp < at * 1000000 && FeedbackAccepted(m, message, wall))
       <==> now - at < 500
  {
    var resource := if m.interlock.state == BaseStopping then Base else Arm;
    var before := StopFeedback(resource, true, at * 1000000 - 1, 0);
    if now - at < 500 {
      assert FeedbackAccepted(m, before, wall);
    }
  }

  /** The input that asked for the stop awaited at the end of the run. */
  ghost predicate Began(inputs: seq<Input>, j: nat) {
    && j < |inputs| && inputs[j].Ask? && !IsStopping(RunAll(inputs[..j]).m.interlock.state)
    && (forall i | j < i <= |inputs| :: Awaiting(RunAll(inputs[..i]).m, inputs[j].now))
  }

  lemma StopBegins(m: Manager, input: Input)
    requires Valid(m) && !IsStopping(m.interlock.state) && IsStopping(Step(m, input).m.interlock.state)
    ensures input.Ask? && Awaiting(Step(m, input).m, input.now)
  {
  }

  lemma StillAwaited(inputs: seq<Input>, n: nat, j: nat)
    requires n + 1 == |inputs| && Began(inputs[..n], j) && Awaiting(RunAll(inputs).m, inputs[j].now)
    ensures Began(inputs, j)
  {
    assert inputs[..n][..j] == inputs[..j];
    forall i | j < i <= |inputs| ensures Awaiting(RunAll(inputs[..i]).m, inputs[j].now) {
      if i <= n {
        assert inputs[..n][..i] == inputs[..i];
      } else {
        assert inputs[..i] == inputs;
      }
    }
  }

  lemma JustBegun(inputs: seq<Input>, n: nat)
    requires n + 1 == |inputs| && inputs[n].Ask? && !IsStopping(RunAll(inputs[..n]).m.interlock.state)
    requires Awaiting(RunAll(inputs).m, inputs[n].now)
    ensures Began(inputs, n)
  {
    assert inputs[..|inputs|] == inputs;
  }

  /** Every awaited stop began with one request, and its deadline counts from there. */
  lemma {:induction false} StopBeganWith(inputs: seq<Input>) returns (j: nat)
    requires IsStopping(RunAll(inputs).m.interlock.state)
    ensures Began(inputs, j)
    decreases |inputs|
  {
    var n := |inputs| - 1;
    var r := RunAll(inputs[..n]);
    RunsKeep(inputs[..n]);
    assert RunAll(inputs).m == Step(r.m, inputs[n]).m;
    if IsStopping(r.m.interlock.state) {
      j := StopBeganWith(inputs[..n]);
      assert inputs[..n][..n] == inputs[..n];
      DeadlineHolds(r.m, inputs[n], inputs[j].now);
      StillAwaited(inputs, n, j);
    } else {
      j := n;
      StopBegins(r.m, inputs[n]);
      JustBegun(inputs, n);
    }
  }

  /** In every run that awaits a stop: feedback stamped before the request for it can end
      it now, exactly if that request is less than 500 ms old. So a handover confirmed
      later than that never rests on feedback older than the request. */
  lemma StaleConfirmationIff(inputs: seq<Input>, wall: int, now: int) returns (j: nat)
    requires IsStopping(RunAll(inputs).m.interlock.state) && OneClock(wall, now)
    requires forall i | 0 <= i < |inputs| :: inputs[i].now <= now
    ensures Began(inputs, j)
    ensures (exists message: StopFeedback :: message.stamp < inputs[j].now * 1000000
              && RunAll(inputs + [Feedback(message, wall, now)]).log != RunAll(inputs).log)
       <==> now - inputs[j].now < 500
  {
    j := StopBeganWith(inputs);
    RunsKeep(inputs);
    assert inputs[..|inputs|] == inputs;
    var m := RunAll(inputs).m;
    OlderFeedbackIff(m, inputs[j].now, wall, now);
    forall message: StopFeedback
      ensures RunAll(inputs + [Feedback(message, wall, now)]).log != RunAll(inputs).log
         <==> FeedbackAccepted(m, message, wall)
    {
      FeedbackIsLogged(inputs, message, wall, now);
    }
    if now - inputs[j].now < 500 {
      var message: StopFeedback :| message.stamp < inputs[j].now * 1000000 && FeedbackAccepted(m, message, wall);
      assert RunAll(inputs + [Feedback(message, wall, now)]).log != RunAll(inputs).log;
    }
  }

  lemma FeedbackIsLogged(inputs: seq<Input>, message: StopFeedback, wall: int, now: int)
    ensures RunAll(inputs + [Feedback(message, wall, now)]).log != RunAll(inputs).log
       <==> FeedbackAccepted(RunAll(inputs).m, message, wall)
  {
    var all := inputs + [Feedback(message, wall, now)];
    assert all[..|all| - 1] == inputs;
    assert RunAll(all) == StepRun(RunAll(inputs), Feedback(message, wall, now));
  }

  /** One such run: the arm is handed over on feedback 400 ms older than its request. */
  lemma FeedbackMayPredateTheStop()
    ensures var inputs := [Ask(Some(RequestBase), "mission", 0), Ask(Some(RequestArm), "arm", 400),
                           Feedback(StopFeedback(Base, true, 0, 1), 400 * 1000000, 400)];
      var r := RunAll(inputs);
      && r.m.interlock.state == ArmActive
      && RunAll(inputs[..2]).m.startedAt == Some(400)
      && r.log[|r.log| - 1] == Confirmed(StopFeedback(Base, true, 0, 1), 400 * 1000000, ArmActive)
  {
    var a, b := Ask(Some(RequestBase), "mission", 0), Ask(Some(RequestArm), "arm", 400);
    var c := Feedback(StopFeedback(Base, true, 0, 1), 400 * 1000000, 400);
    assert [a, b, c][..2] == [a, b] && [a, b][..1] == [a] && [a][..0] == [];
    assert RunAll([a]) == StepRun(RunAll([]), a);
    assert RunAll([a, b]) == StepRun(RunAll([a]), b);
    assert RunAll([a, b, c]) == StepRun(RunAll([a, b]), c);
  }
}
