/** The safety gate: the last filter before the base driver. */
module SafetyGates {
  import opened Wrappers
  import opened ControlMessages

  const COMMAND_TIMEOUT := 300
  const STATE_TIMEOUT := 250

  datatype Twist = Twist(linear: (real, real, real), angular: (real, real, real))

  const ZERO := Twist((0.0, 0.0, 0.0), (0.0, 0.0, 0.0))

  type JointCommand = seq<real>

  datatype Decision = Pass | Zero | Block

  /** Times count from the epoch of the clock, which is what the fields start from. */
  datatype Gate = Gate(state: SafetyState, stateAt: int, authority: Authority, command: Twist, commandAt: int,
                       armCommand: JointCommand, armCommandAt: int, armEnabled: bool)

  datatype Output = Output(base: Option<Twist>, arm: Option<JointCommand>)

  datatype Input =
    | BaseCommand(twist: Twist, now: int)
    | ArmCommand(joints: JointCommand, now: int)
    | SafetyInput(state: SafetyState, now: int)
    | AuthorityInput(authority: Authority)

  function InitialGate(armEnabled: bool): Gate {
    Gate(Initializing, 0, NoAuthority, ZERO, 0, [], 0, armEnabled)
  }

  function Receive(g: Gate, input: Input): Gate {
    match input
    case BaseCommand(twist, now) => g.(command := twist, commandAt := now)
    case ArmCommand(joints, now) => g.(armCommand := joints, armCommandAt := now)
    case SafetyInput(state, now) => g.(state := state, stateAt := now)
    case AuthorityInput(authority) => g.(authority := authority)
  }

  function Decide(g: Gate, now: int): Decision {
    if now - g.stateAt > STATE_TIMEOUT then Block
    else
      match g.state
      case Normal => Pass
      case EStopLatched => Block
      case _ => Zero
  }

  /** A tick reads the clock twice: once for the command's age, and again, no earlier,
      for the safety state's. */
  function Tick(g: Gate, now: int, later: int): Output {
    var decision := Decide(g, later);
    if decision == Block then Output(None, None)
    else
      Output(Some(if decision == Pass && g.authority == BaseActive && now - g.commandAt <= COMMAND_TIMEOUT
                    then g.command else ZERO),
             if g.armEnabled && decision == Pass && g.authority == ArmActive && now - g.armCommandAt <= COMMAND_TIMEOUT
               then Some(g.armCommand) else None)
  }

  predicate Moves(o: Output) {
    o.base.Some? && o.base.value != ZERO
  }

  // ----- against the history of all messages -----

  function GateAfter(armEnabled: bool, heard: seq<Input>): Gate {
    if heard == [] then InitialGate(armEnabled)
    else
      var n := |heard| - 1;
      Receive(GateAfter(armEnabled, heard[..n]), heard[n])
  }

  predicate SameKind(a: Input, b: Input) {
    match a
    case BaseCommand(_, _) => b.BaseCommand?
    case ArmCommand(_, _) => b.ArmCommand?
    case SafetyInput(_, _) => b.SafetyInput?
    case AuthorityInput(_) => b.AuthorityInput?
  }

  /** Message `i` is the last of its kind. */
  predicate LastAt(heard: seq<Input>, i: nat) {
    i < |heard| && forall k | i < k < |heard| :: !SameKind(heard[i], heard[k])
  }

  ghost predicate LastIs(heard: seq<Input>, m: Input) {
    exists i: nat :: LastAt(heard, i) && heard[i] == m
  }

  ghost predicate Remembers(heard: seq<Input>, g: Gate) {
    && (g.command == ZERO || LastIs(heard, BaseCommand(g.command, g.commandAt)))
    && (g.armCommand == [] || LastIs(heard, ArmCommand(g.armCommand, g.armCommandAt)))
    && (g.state == Initializing || LastIs(heard, SafetyInput(g.state, g.stateAt)))
    && (g.authority == NoAuthority || LastIs(heard, AuthorityInput(g.authority)))
  }

  lemma LastAppend(heard: seq<Input>, m: Input, x: Input)
    ensures LastIs(heard, x) && !SameKind(x, m) ==> LastIs(heard + [m], x)
    ensures LastIs(heard + [m], m)
  {
    assert LastAt(heard + [m], |heard|);
    if LastIs(heard, x) && !SameKind(x, m) {
      var i: nat :| LastAt(heard, i) && heard[i] == x;
      assert LastAt(heard + [m], i) && (heard + [m])[i] == x;
    }
  }

  lemma Appended(armEnabled: bool, heard: seq<Input>, m: Input)
    ensures GateAfter(armEnabled, heard + [m]) == Receive(GateAfter(armEnabled, heard), m)
  {
  }

  lemma ReceiveRemembers(heard: seq<Input>, g: Gate, m: Input)
    requires Remembers(heard, g)
    ensures Remembers(heard + [m], Receive(g, m))
  {
    LastAppend(heard, m, BaseCommand(g.command, g.commandAt));
    LastAppend(heard, m, ArmCommand(g.armCommand, g.armCommandAt));
    LastAppend(heard, m, SafetyInput(g.state, g.stateAt));
    LastAppend(heard, m, AuthorityInput(g.authority));
  }

  lemma {:induction false} GateRemembers(armEnabled: bool, heard: seq<Input>)
    ensures Remembers(heard, GateAfter(armEnabled, heard))
    ensures GateAfter(armEnabled, heard).armEnabled == armEnabled
  {
    if heard != [] {
      var n := |heard| - 1;
      GateRemembers(armEnabled, heard[..n]);
      ReceiveRemembers(heard[..n], GateAfter(armEnabled, heard[..n]), heard[n]);
      assert heard == heard[..n] + [heard[n]];
    }
  }

  predicate Holds(g: Gate, m: Input) {
    match m
    case BaseCommand(twist, now) => g.command == twist && g.commandAt == now
    case ArmCommand(joints, now) => g.armCommand == joints && g.armCommandAt == now
    case SafetyInput(state, now) => g.state == state && g.stateAt == now
    case AuthorityInput(authority) => g.authority == authority
  }

  lemma {:induction false} LastIsHeld(armEnabled: bool, heard: seq<Input>, i: nat)
    requires LastAt(heard, i)
    ensures Holds(GateAfter(armEnabled, heard), heard[i])
  {
    var n := |heard| - 1;
    if i < n {
      LastIsHeld(armEnabled, heard[..n], i);
      assert !SameKind(heard[i], heard[n]);
    }
  }

  /** The last command is `twist` and at most 300 ms old, the last authority is BASE_ACTIVE,
      and the last safety message is NORMAL and at most 250 ms old. */
  ghost predicate MayPass(heard: seq<Input>, twist: Twist, now: int, later: int) {
    && LastIs(heard, AuthorityInput(BaseActive))
    && (exists at :: LastIs(heard, BaseCommand(twist, at)) && now - at <= 300)
    && (exists at :: LastIs(heard, SafetyInput(Normal, at)) && later - at <= 250)
  }

  lemma HeldMessages(armEnabled: bool, heard: seq<Input>, m: Input)
    requires LastIs(heard, m)
    ensures Holds(GateAfter(armEnabled, heard), m)
  {
  }

  /** Exactly the nonzero commands that may pass are published, whatever was heard. */
  lemma BaseMovesIff(armEnabled: bool, heard: seq<Input>, now: int, later: int, twist: Twist)
    requires twist != ZERO
    ensures Tick(GateAfter(armEnabled, heard), now, later).base == Some(twist) <==> MayPass(heard, twist, now, later)
  {
    GateRemembers(armEnabled, heard);
    if MayPass(heard, twist, now, later) {
      var c :| LastIs(heard, BaseCommand(twist, c)) && now - c <= 300;
      var s :| LastIs(heard, SafetyInput(Normal, s)) && later - s <= 250;
      HeldMessages(armEnabled, heard, BaseCommand(twist, c));
      HeldMessages(armEnabled, heard, SafetyInput(Normal, s));
      HeldMessages(armEnabled, heard, AuthorityInput(BaseActive));
    }
  }

  /** Under an E-Stop, or with the supervisor silent, nothing at all is published; and
      the arm moves only where its output is enabled. */
  lemma StopIsSilent(armEnabled: bool, heard: seq<Input>, now: int, later: int)
    ensures var o := Tick(GateAfter(armEnabled, heard), now, later);
      && (o.arm.Some? ==> armEnabled && o.base == Some(ZERO) && LastIs(heard, AuthorityInput(ArmActive)))
      && (forall at | LastIs(heard, SafetyInput(EStopLatched, at)) :: o == Output(None, None))
      && (forall state, at | LastIs(heard, SafetyInput(state, at)) && later - at > 250 :: o == Output(None, None))
  {
    GateRemembers(armEnabled, heard);
    forall state, at | LastIs(heard, SafetyInput(state, at))
      ensures Holds(GateAfter(armEnabled, heard), SafetyInput(state, at)) {
      HeldMessages(armEnabled, heard, SafetyInput(state, at));
    }
  }

  /** The last arm command is this one and at most 300 ms old, the last authority is ARM_ACTIVE,
      and the last safety message is NORMAL and at most 250 ms old. */
  ghost predicate ArmMayPass(heard: seq<Input>, joints: JointCommand, now: int, later: int) {
    && LastIs(heard, AuthorityInput(ArmActive))
    && (exists at :: LastIs(heard, ArmCommand(joints, at)) && now - at <= 300)
    && (exists at :: LastIs(heard, SafetyInput(Normal, at)) && later - at <= 250)
  }

  /** Where its output is enabled, exactly the arm commands that may pass are published. */
  lemma ArmMovesIff(armEnabled: bool, heard: seq<Input>, now: int, later: int, joints: JointCommand)
    requires joints != []
    ensures Tick(GateAfter(armEnabled, heard), now, later).arm == Some(joints)
      <==> armEnabled && ArmMayPass(heard, joints, now, later)
  {
    GateRemembers(armEnabled, heard);
    if ArmMayPass(heard, joints, now, later) {
      var c :| LastIs(heard, ArmCommand(joints, c)) && now - c <= 300;
      var s :| LastIs(heard, SafetyInput(Normal, s)) && later - s <= 250;
      HeldMessages(armEnabled, heard, ArmCommand(joints, c));
      HeldMessages(armEnabled, heard, SafetyInput(Normal, s));
      HeldMessages(armEnabled, heard, AuthorityInput(ArmActive));
    }
  }

  /** While the last safety message is fresh and no E-Stop, something is always published for
      the base, so that the driver stops at once; in any state but NORMAL that is a zero. */
  lemma StopIsTold(armEnabled: bool, heard: seq<Input>, now: int, later: int, state: SafetyState, at: int)
    requires LastIs(heard, SafetyInput(state, at))
    ensures var o := Tick(GateAfter(armEnabled, heard), now, later);
      && (o.base.Some? <==> later - at <= 250 && state != EStopLatched)
      && (o.base.Some? && state != Normal ==> o == Output(Some(ZERO), None))
  {
    HeldMessages(armEnabled, heard, SafetyInput(state, at));
  }

  // ----- the object -----

  class SafetyGate {
    const armEnabled: bool
    var state: SafetyState
    var stateAt: int
    var authority: Authority
    var command: Twist
    var commandAt: int
    var armCommand: JointCommand
    var armCommandAt: int
    ghost var heard: seq<Input>

    ghost function Value(): Gate
      reads this
    {
      Gate(state, stateAt, authority, command, commandAt, armCommand, armCommandAt, armEnabled)
    }

    /** The fields hold what the messages received so far leave behind. */
    ghost predicate Valid()
      reads this
    {
      Value() == GateAfter(armEnabled, heard)
    }

    constructor (armEnabled: bool)
      ensures Valid() && heard == [] && this.armEnabled == armEnabled
    {
      this.armEnabled := armEnabled;
      state, stateAt, authority := Initializing, 0, NoAuthority;
      command, commandAt, armCommand, armCommandAt := ZERO, 0, [], 0;
      heard := [];
    }

    method OnBaseCommand(twist: Twist, now: int)
      requires Valid()
      modifies this
      ensures Valid() && heard == old(heard) + [BaseCommand(twist, now)]
    {
      command, commandAt := twist, now;
      Appended(armEnabled, heard, BaseCommand(twist, now));
      heard := heard + [BaseCommand(twist, now)];
    }

    method OnArmCommand(joints: JointCommand, now: int)
      requires Valid()
      modifies this
      ensures Valid() && heard == old(heard) + [ArmCommand(joints, now)]
    {
      armCommand, armCommandAt := joints, now;
      Appended(armEnabled, heard, ArmCommand(joints, now));
      heard := heard + [ArmCommand(joints, now)];
    }

    method OnSafety(received: SafetyState, now: int)
      requires Valid()
      modifies this
      ensures Valid() && heard == old(heard) + [SafetyInput(received, now)]
    {
      state, stateAt := received, now;
      Appended(armEnabled, heard, SafetyInput(received, now));
      heard := heard + [SafetyInput(received, now)];
    }

    method OnAuthority(received: Authority)
      requires Valid()
      modifies this
      ensures Valid() && heard == old(heard) + [AuthorityInput(received)]
    {
      authority := received;
      Appended(armEnabled, heard, AuthorityInput(received));
      heard := heard + [AuthorityInput(received)];
    }

    method Decision(now: int) returns (d: Decision)
      ensures d == Decide(Value(), now)
    {
      if now - stateAt > STATE_TIMEOUT {
        return Block;
      }
      if state == Normal {
        return Pass;
      }
      if state == EStopLatched {
        return Block;
      }
      return Zero;
    }

    method OnTimer(now: int, later: int) returns (o: Output)
      requires Valid() && now <= later
      ensures o == Tick(GateAfter(armEnabled, heard), now, later)
    {
      var decision := Decision(later);
      if decision == Block {
        return Output(None, None);
      }
      var output := ZERO;
      if decision == Pass && authority == BaseActive && now - commandAt <= COMMAND_TIMEOUT {
        output := command;
      }
      var arm := None;
      if armEnabled && decision == Pass && authority == ArmActive && now - armCommandAt <= COMMAND_TIMEOUT {
        arm := Some(armCommand);
      }
      return Output(Some(output), arm);
    }
  }
}
