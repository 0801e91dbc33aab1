/** The safety lifecycle: the accepted transitions as a table, and the object whose
    nested switch is proved to implement that table. */
module SafetyStateMachine {
  import opened ControlMessages

  datatype Event =
    | InputsReady | StopRequested | LinkLost | WatchdogTimeout | HealthFault
    | EmergencyStopEngaged | EmergencyStopReleased | ClearFault | ResumeRequested

  datatype Transition = Transition(from: SafetyState, to: SafetyState, accepted: bool)

  datatype Fsm = Fsm(state: SafetyState, faultLatched: bool)

  const INITIAL := Fsm(Initializing, false)

  predicate IsStop(e: Event) {
    e == StopRequested || e == LinkLost || e == WatchdogTimeout
  }

  /** An emergency stop and a fault are accepted everywhere. */
  predicate Accepts(s: SafetyState, e: Event) {
    || e == EmergencyStopEngaged
    || e == HealthFault
    || match s
       case Initializing => e == InputsReady
       case ControlledStop => e == ResumeRequested || IsStop(e)
       case Normal => IsStop(e)
       case EStopLatched => e == EmergencyStopReleased
       case Fault => e == ClearFault
  }

  function Target(f: Fsm, e: Event): SafetyState {
    match e
    case EmergencyStopEngaged => EStopLatched
    case HealthFault => if f.state == EStopLatched then EStopLatched else Fault
    case EmergencyStopReleased => if f.faultLatched then Fault else ControlledStop
    case ResumeRequested => Normal
    case _ => ControlledStop
  }

  function FaultAfter(f: Fsm, e: Event): bool {
    match e
    case HealthFault => true
    case ClearFault => false
    case EmergencyStopEngaged => f.faultLatched || f.state == Fault
    case _ => f.faultLatched
  }

  function Next(f: Fsm, e: Event): Fsm {
    if Accepts(f.state, e) then Fsm(Target(f, e), FaultAfter(f, e)) else f
  }

  /** What leads into each state, and what keeps it there. */
  lemma StatesAreReachedBy(f: Fsm, e: Event)
    ensures Next(f, e).state == Normal <==>
      (f.state == ControlledStop && e == ResumeRequested)
      || (f.state == Normal && e !in {StopRequested, LinkLost, WatchdogTimeout, HealthFault, EmergencyStopEngaged})
    ensures Next(f, e).state == EStopLatched <==>
      e == EmergencyStopEngaged || (f.state == EStopLatched && e != EmergencyStopReleased)
    ensures Next(f, e).state == Fault <==>
      (f.state != EStopLatched && e == HealthFault)
      || (f.state == EStopLatched && e == EmergencyStopReleased && f.faultLatched)
      || (f.state == Fault && e !in {ClearFault, EmergencyStopEngaged})
    ensures Next(f, e).state == Initializing <==>
      f.state == Initializing && e !in {InputsReady, HealthFault, EmergencyStopEngaged}
  {
  }

  /** A fault is remembered from its report, or from an E-Stop that covers it, until it is
      cleared where it shows. */
  lemma FaultIsRemembered(f: Fsm, e: Event)
    ensures Next(f, e).faultLatched <==>
      e == HealthFault || (f.state == Fault && e == EmergencyStopEngaged)
      || (f.faultLatched && !(f.state == Fault && e == ClearFault))
  {
  }

  /** An event is accepted exactly if it changes the state, or repeats what is so already: a
      stop while stopped, a fault while one shows or behind an E-Stop, an E-Stop while latched. */
  lemma AcceptedIff(f: Fsm, e: Event)
    ensures Accepts(f.state, e) <==>
      || Next(f, e).state != f.state
      || (f.state == ControlledStop && e in {StopRequested, LinkLost, WatchdogTimeout})
      || (f.state == Fault && e == HealthFault)
      || (f.state == EStopLatched && e in {HealthFault, EmergencyStopEngaged})
  {
  }

  class StateMachine {
    var state: SafetyState
    var faultLatched: bool

    ghost function Value(): Fsm
      reads this
    {
      Fsm(state, faultLatched)
    }

    constructor ()
      ensures Value() == INITIAL
    {
      state, faultLatched := Initializing, false;
    }

    method Accept(to: SafetyState) returns (t: Transition)
      modifies this`state
      ensures state == to && t == Transition(old(state), to, true)
    {
      t := Transition(state, to, true);
      state := to;
    }

    method Reject() returns (t: Transition)
      ensures t == Transition(state, state, false)
    {
      t := Transition(state, state, false);
    }

    method Dispatch(event: Event) returns (t: Transition)
      modifies this
      ensures Value() == Next(old(Value()), event)
      ensures t == Transition(old(state), state, Accepts(old(state), event))
    {
      if event == EmergencyStopEngaged {
        if state == Fault {
          faultLatched := true;
        }
        t := Accept(EStopLatched);
        return;
      }
      if state == EStopLatched {
        if event == HealthFault {
          faultLatched := true;
          t := Accept(EStopLatched);
        } else if event == EmergencyStopReleased {
          t := Accept(if faultLatched then Fault else ControlledStop);
        } else {
          t := Reject();
        }
        return;
      }
      if event == HealthFault {
        faultLatched := true;
        t := Accept(Fault);
        return;
      }
      match state {
        case Initializing =>
          if event == InputsReady {
            t := Accept(ControlledStop);
            return;
          }
        case ControlledStop =>
          if event == ResumeRequested {
            t := Accept(Normal);
            return;
          }
          if event == StopRequested || event == LinkLost || event == WatchdogTimeout {
            t := Accept(ControlledStop);
            return;
          }
        case Normal =>
          if event == StopRequested || event == LinkLost || event == WatchdogTimeout {
            t := Accept(ControlledStop);
            return;
          }
        case Fault =>
          if event == ClearFault {
            faultLatched := false;
            t := Accept(ControlledStop);
            return;
          }
        case EStopLatched =>
      }
      t := Reject();
    }
  }
}
