/** Deciding that the base has stopped: fresh zero commands and fresh slow odometry for a
    whole settling time. */
module BaseStopDetector {
  import opened Wrappers
  import opened Reals

  datatype Config = Config(linearLimit: real, angularLimit: real, commandTimeout: int, odometryTimeout: int,
                           settleTime: nat)

  datatype Detector = Detector(commandAt: Option<int>, odometryAt: Option<int>, since: Option<int>,
                               commandZero: bool, linear: real, angular: real)

  const INITIAL_DETECTOR := Detector(None, None, None, false, 0.0, 0.0)

  /** Everything the detector is told or asked, in order. */
  datatype Observation =
    | Command(zero: bool, at: int)
    | Odometry(linear: real, angular: real, at: int)
    | Poll(at: int)

  predicate Slow(c: Config, linear: real, angular: real) {
    Abs(linear) <= c.linearLimit && Abs(angular) <= c.angularLimit
  }

  // ----- the detector -----

  predicate ConditionsHold(c: Config, d: Detector, now: int) {
    && d.commandAt.Some? && d.odometryAt.Some? && d.commandZero
    && now - d.commandAt.value <= c.commandTimeout && now - d.odometryAt.value <= c.odometryTimeout
    && d.linear <= c.linearLimit && d.angular <= c.angularLimit
  }

  function Observe(c: Config, d: Detector, o: Observation): Detector {
    match o
    case Command(zero, at) =>
      d.(commandZero := zero, commandAt := Some(at), since := if zero then d.since else None)
    case Odometry(linear, angular, at) =>
      d.(linear := Abs(linear), angular := Abs(angular), odometryAt := Some(at),
         since := if Slow(c, linear, angular) then d.since else None)
    case Poll(at) =>
      d.(since := if !ConditionsHold(c, d, at) then None else if d.since == None then Some(at) else d.since)
  }

  /** The answer to a poll, given the detector before it. */
  predicate Answer(c: Config, d: Detector, now: int) {
    && ConditionsHold(c, d, now)
    && if d.since == None then c.settleTime == 0 else now - d.since.value >= c.settleTime
  }

  function DetectorAfter(c: Config, h: seq<Observation>): Detector {
    if h == [] then INITIAL_DETECTOR
    else Observe(c, DetectorAfter(c, h[..|h| - 1]), h[|h| - 1])
  }

  // ----- the reference definition, over the whole history -----

  /** Neither speed is over its limit, in either direction. */
  predicate Still(c: Config, linear: real, angular: real) {
    -c.linearLimit <= linear <= c.linearLimit && -c.angularLimit <= angular <= c.angularLimit
  }

  predicate LastCommandAt(h: seq<Observation>, i: nat) {
    i < |h| && h[i].Command? && forall k | i < k < |h| :: !h[k].Command?
  }

  predicate LastOdometryAt(h: seq<Observation>, i: nat) {
    i < |h| && h[i].Odometry? && forall k | i < k < |h| :: !h[k].Odometry?
  }

  /** The last command is zero and fresh, and the last odometry sample slow and fresh. */
  ghost predicate AtRest(c: Config, h: seq<Observation>, now: int) {
    && (exists i: nat :: LastCommandAt(h, i) && h[i].zero && now - h[i].at <= c.commandTimeout)
    && (exists i: nat :: LastOdometryAt(h, i) && Still(c, h[i].linear, h[i].angular)
                         && now - h[i].at <= c.odometryTimeout)
  }

  /** Observation `k` does not speak against standing still. */
  ghost predicate Calm(c: Config, h: seq<Observation>, k: nat)
    requires k < |h|
  {
    match h[k]
    case Command(zero, _) => zero
    case Odometry(linear, angular, _) => Still(c, linear, angular)
    case Poll(at) => AtRest(c, h[..k], at)
  }

  /** Ever since the poll at `p`: no nonzero command, no fast sample, and at every poll
      both inputs fresh. */
  ghost predicate StillSince(c: Config, h: seq<Observation>, p: nat) {
    p < |h| && h[p].Poll? && forall k | p <= k < |h| :: Calm(c, h, k)
  }

  predicate InOrder(h: seq<Observation>) {
    forall i, j | 0 <= i < j < |h| :: h[i].at <= h[j].at
  }

  /** The base has stood still for a settling time that ends with the last poll. */
  ghost predicate Settled(c: Config, h: seq<Observation>) {
    h != [] && h[|h| - 1].Poll?
    && exists p: nat :: StillSince(c, h, p) && h[|h| - 1].at - h[p].at >= c.settleTime
  }

  // ----- the detector agrees with it -----

  ghost predicate RemembersInputs(h: seq<Observation>, d: Detector) {
    && (d.commandAt.Some? <==> exists i: nat :: LastCommandAt(h, i))
    && (d.odometryAt.Some? <==> exists i: nat :: LastOdometryAt(h, i))
    && (forall i: nat | LastCommandAt(h, i) :: d.commandAt == Some(h[i].at) && d.commandZero == h[i].zero)
    && (forall i: nat | LastOdometryAt(h, i) ::
          d.odometryAt == Some(h[i].at) && d.linear == Abs(h[i].linear) && d.angular == Abs(h[i].angular))
  }

  ghost predicate RemembersWindow(c: Config, h: seq<Observation>, d: Detector) {
    && (d.since.Some? <==> exists p: nat :: StillSince(c, h, p))
    && (d.since.Some? ==> exists p: nat :: StillSince(c, h, p) && h[p].at == d.since.value)
    && (forall p: nat | StillSince(c, h, p) :: d.since.Some? && d.since.value <= h[p].at)
  }

  lemma LastCommandAppend(h: seq<Observation>, o: Observation, i: nat)
    ensures LastCommandAt(h + [o], i) <==> if o.Command? then i == |h| else LastCommandAt(h, i)
  {
    var h' := h + [o];
    assert h'[|h|] == o && forall k | 0 <= k < |h| :: h'[k] == h[k];
    if LastCommandAt(h', i) && i < |h| {
      assert !h'[|h|].Command?;
      forall k | i < k < |h| ensures !h[k].Command? {
        assert !h'[k].Command?;
      }
    }
  }

  lemma LastOdometryAppend(h: seq<Observation>, o: Observation, i: nat)
    ensures LastOdometryAt(h + [o], i) <==> if o.Odometry? then i == |h| else LastOdometryAt(h, i)
  {
    var h' := h + [o];
    assert h'[|h|] == o && forall k | 0 <= k < |h| :: h'[k] == h[k];
    if LastOdometryAt(h', i) && i < |h| {
      assert !h'[|h|].Odometry?;
      forall k | i < k < |h| ensures !h[k].Odometry? {
        assert !h'[k].Odometry?;
      }
    }
  }

  lemma InputsAppend(c: Config, h: seq<Observation>, d: Detector, o: Observation)
    requires RemembersInputs(h, d)
    ensures RemembersInputs(h + [o], Observe(c, d, o))
  {
    var h' := h + [o];
    forall i: nat
      ensures LastCommandAt(h', i) <==> if o.Command? then i == |h| else LastCommandAt(h, i)
      ensures LastOdometryAt(h', i) <==> if o.Odometry? then i == |h| else LastOdometryAt(h, i) {
      LastCommandAppend(h, o, i);
      LastOdometryAppend(h, o, i);
    }
    assert o.Command? ==> LastCommandAt(h', |h|);
    assert o.Odometry? ==> LastOdometryAt(h', |h|);
    if i: nat :| LastCommandAt(h, i) {
      assert !o.Command? ==> LastCommandAt(h', i);
    }
    if i: nat :| LastOdometryAt(h, i) {
      assert !o.Odometry? ==> LastOdometryAt(h', i);
    }
  }

  lemma Observed(c: Config, h: seq<Observation>, o: Observation)
    ensures DetectorAfter(c, h + [o]) == Observe(c, DetectorAfter(c, h), o)
  {
  }

  lemma ConditionsMean(c: Config, h: seq<Observation>, d: Detector, now: int)
    requires RemembersInputs(h, d)
    ensures ConditionsHold(c, d, now) <==> AtRest(c, h, now)
  {
  }

  lemma StillAppend(c: Config, h: seq<Observation>, o: Observation, p: nat)
    ensures var h' := h + [o];
      StillSince(c, h', p) <==>
        Calm(c, h', |h|) && if p < |h| then StillSince(c, h, p) else p == |h| && o.Poll?
  {
    var h' := h + [o];
    forall k | 0 <= k < |h| ensures Calm(c, h', k) <==> Calm(c, h, k) {
      assert h'[..k] == h[..k];
    }
    if StillSince(c, h', p) && p < |h| {
      forall k | p <= k < |h| ensures Calm(c, h, k) {
        assert Calm(c, h', k);
      }
    }
  }

  lemma WindowAppend(c: Config, h: seq<Observation>, d: Detector, o: Observation)
    requires RemembersInputs(h, d) && RemembersWindow(c, h, d) && InOrder(h + [o])
    ensures RemembersWindow(c, h + [o], Observe(c, d, o))
  {
    var h' := h + [o];
    var d' := Observe(c, d, o);
    assert h'[..|h|] == h;
    ConditionsMean(c, h, d, o.at);
    forall p: nat ensures StillSince(c, h', p) <==>
        Calm(c, h', |h|) && if p < |h| then StillSince(c, h, p) else p == |h| && o.Poll? {
      StillAppend(c, h, o, p);
    }
    if d'.since.Some? {
      if d.since.Some? {
        var p: nat :| StillSince(c, h, p) && h[p].at == d.since.value;
        assert StillSince(c, h', p) && h'[p].at == d'.since.value;
      } else {
        assert StillSince(c, h', |h|);
      }
    }
  }

  lemma {:induction false} DetectorRemembers(c: Config, h: seq<Observation>)
    requires InOrder(h)
    ensures RemembersInputs(h, DetectorAfter(c, h)) && RemembersWindow(c, h, DetectorAfter(c, h))
  {
    if h != [] {
      var n := |h| - 1;
      DetectorRemembers(c, h[..n]);
      assert h == h[..n] + [h[n]];
      InputsAppend(c, h[..n], DetectorAfter(c, h[..n]), h[n]);
      WindowAppend(c, h[..n], DetectorAfter(c, h[..n]), h[n]);
    }
  }

  lemma AnswerIsWindow(c: Config, d: Detector, now: int)
    ensures var since := Observe(c, d, Poll(now)).since;
      Answer(c, d, now) <==> since.Some? && now - since.value >= c.settleTime
  {
  }

  lemma WindowSettles(c: Config, h: seq<Observation>, d: Detector, now: int)
    requires RemembersWindow(c, h, d) && h != [] && h[|h| - 1] == Poll(now)
    ensures Settled(c, h) <==> d.since.Some? && now - d.since.value >= c.settleTime
  {
    if d.since.Some? {
      var p: nat :| StillSince(c, h, p) && h[p].at == d.since.value;
    }
  }

  /** With time moving forward, a poll is answered `stopped` exactly if, over a window of at
      least the settling time that ends now, there was no nonzero command and no fast
      odometry sample, and at every poll in it both inputs were fresh. */
  lemma StoppedIffSettled(c: Config, h: seq<Observation>, now: int)
    requires InOrder(h + [Poll(now)])
    ensures Answer(c, DetectorAfter(c, h), now) <==> Settled(c, h + [Poll(now)])
  {
    DetectorRemembers(c, h + [Poll(now)]);
    Observed(c, h, Poll(now));
    AnswerIsWindow(c, DetectorAfter(c, h), now);
    WindowSettles(c, h + [Poll(now)], DetectorAfter(c, h + [Poll(now)]), now);
  }

  // ----- the object -----

  class StopDetector {
    const config: Config
    var commandAt: Option<int>
    var odometryAt: Option<int>
    var since: Option<int>
    var commandZero: bool
    var linear: real
    var angular: real
    ghost var history: seq<Observation>

    ghost function Value(): Detector
      reads this
    {
      Detector(commandAt, odometryAt, since, commandZero, linear, angular)
    }

    ghost predicate Valid()
      reads this
    {
      InOrder(history) && Value() == DetectorAfter(config, history)
    }

    /** The clock has not gone back. */
    ghost predicate NotBefore(now: int)
      reads this
    {
      forall i | 0 <= i < |history| :: history[i].at <= now
    }

    constructor (config: Config)
      ensures Valid() && history == [] && this.config == config
    {
      this.config := config;
      commandAt, odometryAt, since := None, None, None;
      commandZero, linear, angular := false, 0.0, 0.0;
      history := [];
    }

    method ObserveCommand(zero: bool, now: int)
      requires Valid() && NotBefore(now)
      modifies this
      ensures Valid() && history == old(history) + [Command(zero, now)]
    {
      commandZero, commandAt := zero, Some(now);
      if !zero {
        since := None;
      }
      Observed(config, history, Command(zero, now));
      history := history + [Command(zero, now)];
    }

    method ObserveOdometry(linearSpeed: real, angularSpeed: real, now: int)
      requires Valid() && NotBefore(now)
      modifies this
      ensures Valid() && history == old(history) + [Odometry(linearSpeed, angularSpeed, now)]
    {
      linear, angular, odometryAt := Abs(linearSpeed), Abs(angularSpeed), Some(now);
      if linear > config.linearLimit || angular > config.angularLimit {
        since := None;
      }
      Observed(config, history, Odometry(linearSpeed, angularSpeed, now));
      history := history + [Odometry(linearSpeed, angularSpeed, now)];
    }

    predicate StopConditionsHold(now: int)
      reads this
      ensures StopConditionsHold(now) <==> ConditionsHold(config, Value(), now)
    {
      if commandAt == None || odometryAt == None || !commandZero then false
      else if now - commandAt.value > config.commandTimeout || now - odometryAt.value > config.odometryTimeout then false
      else linear <= config.linearLimit && angular <= config.angularLimit
    }

    method Stopped(now: int) returns (stopped: bool)
      requires Valid() && NotBefore(now)
      modifies this
      ensures Valid() && history == old(history) + [Poll(now)]
      ensures stopped <==> Settled(config, history)
    {
      StoppedIffSettled(config, history, now);
      Observed(config, history, Poll(now));
      history := history + [Poll(now)];
      if !StopConditionsHold(now) {
        since := None;
        return false;
      }
      if since == None {
        since := Some(now);
        return config.settleTime == 0;
      }
      return now - since.value >= config.settleTime;
    }
  }
}
