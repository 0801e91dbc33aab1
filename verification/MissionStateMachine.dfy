/** The mission lifecycle: the accepted transitions as a table, and the object
    whose switch statement is proved to implement that table. */
module MissionStateMachine {

  datatype State = Idle | Ready | Running | Pausing | Paused | Recovering | Returning | Completed | Failed

  datatype Event =
    | MissionConfigured | StartRequested | PauseRequested | ManualTakeover | LinkLost | SafetyStop
    | StopRequested | FatalStepFailure | MotionQuiesced | ResumeRequested | RecoveryReady
    | InspectionComplete | ReturnComplete | ResetRequested

  datatype Transition = Transition(from: State, to: State, accepted: bool)

  datatype Fsm = Fsm(state: State, haltTarget: State, resumeTarget: State, returnToDock: bool)

  const INITIAL := Fsm(Idle, Paused, Running, false)

  predicate IsMoving(s: State) {
    s == Running || s == Returning
  }

  predicate IsHold(e: Event) {
    e == PauseRequested || e == ManualTakeover || e == LinkLost || e == SafetyStop
  }

  /** The transition table: which events each state accepts. */
  predicate Accepts(s: State, e: Event) {
    match s
    case Idle => e in {MissionConfigured, StopRequested}
    case Ready => e in {StartRequested, StopRequested}
    case Running => IsHold(e) || e in {StopRequested, FatalStepFailure, InspectionComplete}
    case Returning => IsHold(e) || e in {StopRequested, FatalStepFailure, ReturnComplete}
    case Pausing => IsHold(e) || e in {MotionQuiesced, StopRequested, FatalStepFailure}
    case Paused => IsHold(e) || e in {ResumeRequested, StopRequested}
    case Recovering => e in {RecoveryReady, SafetyStop, LinkLost, StopRequested}
    case Completed => e in {ResetRequested, StopRequested}
    case Failed => e in {ResetRequested, StopRequested}
  }

  /** Where an accepted event leads. */
  function Target(f: Fsm, e: Event): State
    requires Accepts(f.state, e)
  {
    match e
    case MissionConfigured => Ready
    case StartRequested => Running
    case MotionQuiesced => f.haltTarget
    case ResumeRequested => Recovering
    case RecoveryReady => f.resumeTarget
    case InspectionComplete => if f.returnToDock then Returning else Completed
    case ReturnComplete => Completed
    case ResetRequested => Idle
    case FatalStepFailure => Pausing
    case StopRequested => if IsMoving(f.state) || f.state == Pausing then Pausing else Idle
    case _ => if f.state == Paused || f.state == Recovering then Paused else Pausing
  }

  /** What a halt in progress will end in. An accepted stop outranks a failure. */
  function HaltTarget(f: Fsm, e: Event): State
    requires Accepts(f.state, e)
  {
    if f.state == Pausing then
      if e == StopRequested then Idle
      else if e == FatalStepFailure && f.haltTarget != Idle then Failed
      else f.haltTarget
    else if IsMoving(f.state) && Target(f, e) == Pausing then
      if e == StopRequested then Idle else if e == FatalStepFailure then Failed else Paused
    else f.haltTarget
  }

  function Next(f: Fsm, e: Event): Fsm {
    if !Accepts(f.state, e) then f
    else Fsm(Target(f, e), HaltTarget(f, e),
             if IsMoving(f.state) && Target(f, e) == Pausing then f.state else f.resumeTarget,
             f.returnToDock)
  }

  ghost predicate WellFormed(f: Fsm) {
    IsMoving(f.resumeTarget) && f.haltTarget in {Paused, Idle, Failed}
  }

  /** Every reachable machine halts and resumes into the states its names promise. */
  lemma NextKeepsWellFormed(f: Fsm, e: Event)
    requires WellFormed(f)
    ensures WellFormed(Next(f, e))
    ensures Accepts(f.state, e) ==> Next(f, e).state == Target(f, e)
  {
  }

  /** A stop is accepted everywhere. Motion, and a halt in progress, then end in IDLE whatever
      else the halt was for; any other state is left for IDLE at once. */
  lemma StopEndsInIdle(f: Fsm)
    ensures Accepts(f.state, StopRequested)
    ensures Next(f, StopRequested) ==
      if f.state in {Running, Returning} then Fsm(Pausing, Idle, f.state, f.returnToDock)
      else if f.state == Pausing then f.(haltTarget := Idle)
      else f.(state := Idle)
  {
  }

  /** Nothing overrides an accepted stop, and only quiescence ends a halt, in what it was for. */
  lemma HaltKeepsItsTarget(f: Fsm, e: Event)
    requires f.state == Pausing
    ensures e != MotionQuiesced ==> Next(f, e).state == Pausing && Next(f, e).resumeTarget == f.resumeTarget
    ensures e != MotionQuiesced && f.haltTarget == Idle ==> Next(f, e) == f
    ensures Next(f, MotionQuiesced) == f.(state := f.haltTarget)
  {
  }

  /** Pauses, takeovers, lost links and safety stops halt motion so that it can be resumed in
      the phase it was in, and change nothing about a halt or a pause. A recovery is cancelled
      only by a lost link or a safety stop. */
  lemma HoldsAreResumable(f: Fsm, e: Event)
    requires e in {PauseRequested, ManualTakeover, LinkLost, SafetyStop}
    ensures Accepts(f.state, e) <==>
      f.state in {Running, Returning, Pausing, Paused} || (f.state == Recovering && e in {LinkLost, SafetyStop})
    ensures Accepts(f.state, e) ==>
      Next(f, e) == if f.state in {Running, Returning} then Fsm(Pausing, Paused, f.state, f.returnToDock)
                    else if f.state == Recovering then f.(state := Paused)
                    else f
  {
  }

  /** A step that cannot be done halts motion for good, unless a stop came first. */
  lemma FailureHalts(f: Fsm)
    ensures Accepts(f.state, FatalStepFailure) <==> f.state in {Running, Returning, Pausing}
    ensures Accepts(f.state, FatalStepFailure) ==>
      Next(f, FatalStepFailure) ==
        if f.state == Pausing then f.(haltTarget := if f.haltTarget == Idle then Idle else Failed)
        else Fsm(Pausing, Failed, f.state, f.returnToDock)
  {
  }

  /** Every other event belongs to one stage of the mission, a reset to either end of it, and
      takes it to the next. */
  lemma StagesFollow(f: Fsm, e: Event)
    requires e !in {StopRequested, FatalStepFailure, PauseRequested, ManualTakeover, LinkLost, SafetyStop}
    ensures Accepts(f.state, e) <==> (f.state, e) in {
      (Idle, MissionConfigured), (Ready, StartRequested), (Running, InspectionComplete), (Returning, ReturnComplete),
      (Pausing, MotionQuiesced), (Paused, ResumeRequested), (Recovering, RecoveryReady),
      (Completed, ResetRequested), (Failed, ResetRequested)}
    ensures Accepts(f.state, e) ==>
      Next(f, e) == f.(state := match f.state
        case Idle => Ready
        case Ready => Running
        case Running => if f.returnToDock then Returning else Completed
        case Returning => Completed
        case Pausing => f.haltTarget
        case Paused => Recovering
        case Recovering => f.resumeTarget
        case Completed => Idle
        case Failed => Idle)
  {
  }

  /** Motion is entered only by a start or a finished recovery, and what a recovery
      restarts is the phase that the halt interrupted. */
  lemma MotionIsEnteredBy(f: Fsm, e: Event)
    requires WellFormed(f) && !IsMoving(f.state) && IsMoving(Next(f, e).state)
    ensures (f.state == Ready && e == StartRequested && Next(f, e).state == Running)
         || (f.state == Recovering && e == RecoveryReady && Next(f, e).state == f.resumeTarget)
  {
  }

  class StateMachine {
    var state: State
    var haltTarget: State
    var resumeTarget: State
    var returnToDock: bool

    ghost function Value(): Fsm
      reads this
    {
      Fsm(state, haltTarget, resumeTarget, returnToDock)
    }

    constructor ()
      ensures Value() == INITIAL
    {
      state, haltTarget, resumeTarget, returnToDock := Idle, Paused, Running, false;
    }

    method SetReturnToDock(enabled: bool)
      modifies this
      ensures Value() == if old(state) == Idle then old(Value()).(returnToDock := enabled) else old(Value())
    {
      if state == Idle {
        returnToDock := enabled;
      }
    }

    method Accept(to: State) returns (t: Transition)
      modifies this`state
      ensures state == to && t == Transition(old(state), to, true)
    {
      t := Transition(state, to, true);
      state := to;
    }

    method Reject() returns (t: Transition)
      ensures t == Transition(state, state, false)
    {
      t := Transition(state, state, false);
    }

    method BeginPausing(target: State) returns (t: Transition)
      modifies this`state, this`haltTarget, this`resumeTarget
      ensures t == Transition(old(state), Pausing, true)
      ensures state == Pausing && haltTarget == target && resumeTarget == old(state)
    {
      resumeTarget := state;
      haltTarget := target;
      t := Accept(Pausing);
    }

    method Dispatch(event: Event) returns (t: Transition)
      modifies this
      ensures Value() == Next(old(Value()), event)
      ensures t == Transition(old(state), Next(old(Value()), event).state, Accepts(old(state), event))
    {
      match state {
        case Idle =>
          if event == MissionConfigured {
            t := Accept(Ready);
          } else if event == StopRequested {
            t := Accept(Idle);
          } else {
            t := Reject();
          }
        case Ready =>
          if event == StartRequested {
            t := Accept(Running);
          } else if event == StopRequested {
            t := Accept(Idle);
          } else {
            t := Reject();
          }
        case Running =>
          t := DispatchMoving(event);
        case Returning =>
          t := DispatchMoving(event);
        case Pausing =>
          if event == MotionQuiesced {
            t := Accept(haltTarget);
          } else if event == StopRequested {
            haltTarget := Idle;
            t := Accept(Pausing);
          } else if event == FatalStepFailure {
            if haltTarget != Idle {
              haltTarget := Failed;
            }
            t := Accept(Pausing);
          } else if event == PauseRequested || event == ManualTakeover || event == LinkLost || event == SafetyStop {
            t := Accept(Pausing);
          } else {
            t := Reject();
          }
        case Paused =>
          if event == ResumeRequested {
            t := Accept(Recovering);
          } else if event == StopRequested {
            t := Accept(Idle);
          } else if event == PauseRequested || event == ManualTakeover || event == LinkLost || event == SafetyStop {
            t := Accept(Paused);
          } else {
            t := Reject();
          }
        case Recovering =>
          if event == RecoveryReady {
            t := Accept(resumeTarget);
          } else if event == SafetyStop || event == LinkLost {
            t := Accept(Paused);
          } else if event == StopRequested {
            t := Accept(Idle);
          } else {
            t := Reject();
          }
        case _ =>
          if event == ResetRequested || event == StopRequested {
            t := Accept(Idle);
          } else {
            t := Reject();
          }
      }
    }

    /** The branch the running and returning states share. */
    method DispatchMoving(event: Event) returns (t: Transition)
      requires IsMoving(state)
      modifies this
      ensures Value() == Next(old(Value()), event)
      ensures t == Transition(old(state), Next(old(Value()), event).state, Accepts(old(state), event))
    {
      if event == PauseRequested || event == ManualTakeover || event == LinkLost || event == SafetyStop {
        t := BeginPausing(Paused);
      } else if event == StopRequested {
        t := BeginPausing(Idle);
      } else if event == FatalStepFailure {
        t := BeginPausing(Failed);
      } else if state == Running && event == InspectionComplete {
        if returnToDock {
          t := Accept(Returning);
        } else {
          t := Accept(Completed);
        }
      } else if state == Returning && event == ReturnComplete {
        t := Accept(Completed);
      } else {
        t := Reject();
      }
    }
  }
}
