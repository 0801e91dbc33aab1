/** The authority lifecycle: who may move, base or arm, and what a handover waits for. */
module MotionInterlock {
  import opened ControlMessages

  datatype Request = RequestBase | RequestArm | Release

  datatype Event = Requested(request: Request) | BaseStopped | ArmStopped | TimedOut

  datatype Interlock = Interlock(state: Authority, pending: Authority)

  datatype Transition = Transition(from: Authority, to: Authority, accepted: bool)

  const INITIAL := Interlock(NoAuthority, NoAuthority)

  predicate IsStopping(a: Authority) {
    a == BaseStopping || a == ArmStopping
  }

  predicate IsBase(a: Authority) {
    a == BaseActive || a == BaseStopping
  }

  function Wanted(r: Request): Authority {
    match r
    case RequestBase => BaseActive
    case RequestArm => ArmActive
    case Release => NoAuthority
  }

  predicate Accepts(s: Authority, e: Event) {
    match e
    case Requested(r) => !IsStopping(s) && (r == Release ==> s != NoAuthority)
    case BaseStopped => s == BaseStopping
    case ArmStopped => s == ArmStopping
    case TimedOut => IsStopping(s)
  }

  function Next(i: Interlock, e: Event): Interlock {
    if !Accepts(i.state, e) then i
    else
      match e
      case Requested(r) =>
        if i.state == NoAuthority then Interlock(Wanted(r), i.pending)
        else if i.state == Wanted(r) then i
        else Interlock(if i.state == BaseActive then BaseStopping else ArmStopping, Wanted(r))
      case TimedOut => INITIAL
      case _ => Interlock(i.pending, NoAuthority)
  }

  /** Something is pending only while stopping, and then it is the other resource or nothing. */
  predicate WellFormed(i: Interlock) {
    match i.state
    case BaseStopping => i.pending == NoAuthority || i.pending == ArmActive
    case ArmStopping => i.pending == NoAuthority || i.pending == BaseActive
    case _ => i.pending == NoAuthority
  }

  /** Base and arm are exclusive: from the base, authority leaves only through its stop. */
  lemma NextIsExclusive(i: Interlock, e: Event)
    requires WellFormed(i)
    ensures WellFormed(Next(i, e))
    ensures IsBase(i.state) && !IsBase(Next(i, e).state) ==>
      i.state == BaseStopping && (e == BaseStopped || (e == TimedOut && Next(i, e).state == NoAuthority))
    ensures IsStopping(Next(i, e).state) && Next(i, e) != i ==> !IsStopping(i.state)
  {
  }

  /** Whoever asks gets authority at once if nobody has it, keeps it if he has it, and
      otherwise waits for the other to stop; while a stop is awaited nobody can ask. */
  lemma AskingIs(i: Interlock, base: bool)
    requires WellFormed(i)
    ensures var mine, other := if base then BaseActive else ArmActive, if base then ArmActive else BaseActive;
      var e := Requested(if base then RequestBase else RequestArm);
      && (Accepts(i.state, e) <==> i.state in {NoAuthority, BaseActive, ArmActive})
      && (i.state == NoAuthority || i.state == mine ==> Next(i, e) == Interlock(mine, NoAuthority))
      && (i.state == other ==> Next(i, e) == Interlock(if base then ArmStopping else BaseStopping, mine))
      && (IsStopping(i.state) ==> Next(i, e) == i)
  {
  }

  /** A release makes the holder stop, and nobody is to follow. */
  lemma ReleaseIs(i: Interlock)
    requires WellFormed(i)
    ensures Accepts(i.state, Requested(Release)) <==> i.state in {BaseActive, ArmActive}
    ensures Next(i, Requested(Release)) == match i.state
      case BaseActive => Interlock(BaseStopping, NoAuthority)
      case ArmActive => Interlock(ArmStopping, NoAuthority)
      case _ => i
  {
  }

  /** Stop feedback counts while that very stop is awaited, and hands over to whoever is pending;
      a timeout leaves nobody in authority and nobody pending. */
  lemma StopsEndBy(i: Interlock)
    requires WellFormed(i)
    ensures Accepts(i.state, BaseStopped) <==> i.state == BaseStopping
    ensures Accepts(i.state, ArmStopped) <==> i.state == ArmStopping
    ensures Accepts(i.state, TimedOut) <==> i.state in {BaseStopping, ArmStopping}
    ensures Next(i, BaseStopped) == if i.state == BaseStopping then Interlock(i.pending, NoAuthority) else i
    ensures Next(i, ArmStopped) == if i.state == ArmStopping then Interlock(i.pending, NoAuthority) else i
    ensures Next(i, TimedOut) ==
      if i.state in {BaseStopping, ArmStopping} then Interlock(NoAuthority, NoAuthority) else i
  {
  }

  class MotionInterlock {
    var state: Authority
    var pending: Authority

    ghost function Value(): Interlock
      reads this
    {
      Interlock(state, pending)
    }

    constructor ()
      ensures Value() == INITIAL
    {
      state, pending := NoAuthority, NoAuthority;
    }

    method Request(request: Request) returns (t: Transition)
      requires WellFormed(Value())
      modifies this
      ensures Value() == Next(old(Value()), Requested(request))
      ensures t == Transition(old(state), state, Accepts(old(state), Requested(request)))
    {
      var from := state;
      var requested :=
        if request == RequestBase then BaseActive else if request == RequestArm then ArmActive else NoAuthority;
      if request == Release {
        if state == BaseActive {
          pending, state := NoAuthority, BaseStopping;
          return Transition(from, state, true);
        }
        if state == ArmActive {
          pending, state := NoAuthority, ArmStopping;
          return Transition(from, state, true);
        }
        return Transition(state, state, false);
      }
      if state == NoAuthority {
        state := requested;
        return Transition(from, state, true);
      }
      if state == requested {
        return Transition(from, state, true);
      }
      if state == BaseActive {
        pending, state := requested, BaseStopping;
        return Transition(from, state, true);
      }
      if state == ArmActive {
        pending, state := requested, ArmStopping;
        return Transition(from, state, true);
      }
      return Transition(state, state, false);
    }

    method Stopped(base: bool) returns (t: Transition)
      modifies this
      ensures Value() == Next(old(Value()), if base then BaseStopped else ArmStopped)
      ensures t == Transition(old(state), state, Accepts(old(state), if base then BaseStopped else ArmStopped))
    {
      var from := state;
      if state != (if base then BaseStopping else ArmStopping) {
        return Transition(state, state, false);
      }
      state, pending := pending, NoAuthority;
      return Transition(from, state, true);
    }

    method Timeout() returns (t: Transition)
      modifies this
      ensures Value() == Next(old(Value()), TimedOut)
      ensures t == Transition(old(state), state, Accepts(old(state), TimedOut))
    {
      var from := state;
      if state != BaseStopping && state != ArmStopping {
        return Transition(state, state, false);
      }
      state, pending := NoAuthority, NoAuthority;
      return Transition(from, state, true);
    }
  }
}
