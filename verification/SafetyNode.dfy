/** The safety manager as the object it is: every handler is proved to take the step
    that SafetyManager gives for it, publication by publication. */
module SafetyNodes {
  import opened Wrappers
  import opened ControlMessages
  import opened SafetyStateMachine
  import opened SafetyManager
  import opened RequestCache

  datatype Response = Response(accepted: bool, state: SafetyMessage)

  function CommandStep(m: Manager, op: Operation): (Manager, Response) {
    var m' := OnCommand(m, op).m;
    (m', Response(CommandAccepted(m, op), Message(m')))
  }

  class SafetyNode {
    const fsm: StateMachine
    const required: bool
    var alive: bool
    var heartbeatAt: int
    var physical: bool
    var software: bool
    var sequence: nat
    var cache: Cache<Response>
    ghost var published: seq<Manager>

    ghost function Value(): Manager
      reads this, fsm
    {
      Manager(required, alive, heartbeatAt, physical, software, sequence, fsm.Value())
    }

    ghost function Trace(): Effect
      reads this, fsm
    {
      Effect(Value(), published)
    }

    /** The object is sound and so is everything it has published. */
    ghost predicate Valid()
      reads this, fsm
    {
      SoundRun(Trace()) && RequestCache.Valid(cache)
    }

    constructor (required: bool, now: int)
      ensures fresh(fsm) && this.required == required
      ensures Trace() == Start(required, now) && Valid()
    {
      fsm := new StateMachine();
      this.required := required;
      alive, heartbeatAt, physical, software, sequence := false, now, false, false, 0;
      cache := EmptyCache();
      published := [];
      new;
      if !required {
        var accepted := Put(InputsReady);
      }
      Publish();
      RunsAreSound(required, now, []);
    }

    method Publish()
      modifies this`published
      ensures published == old(published) + [Value()]
    {
      published := published + [Value()];
    }

    method Put(event: Event) returns (accepted: bool)
      modifies this`sequence, this`published, fsm
      ensures accepted == Accepts(old(fsm.state), event)
      ensures Trace() == After(old(Trace()), Dispatch(old(Value()), event))
    {
      var t := fsm.Dispatch(event);
      if !t.accepted {
        return false;
      }
      sequence := sequence + 1;
      Publish();
      return true;
    }

    /** The command itself, without the cache. */
    method PutCommand(op: Operation) returns (accepted: bool)
      requires SoundRun(Trace())
      modifies this`software, this`sequence, this`published, fsm
      ensures accepted == CommandAccepted(old(Value()), op)
      ensures Trace() == After(old(Trace()), SafetyManager.OnCommand(old(Value()), op))
    {
      match op {
        case EngageSoftwareEStop =>
          software := true;
          accepted := Put(EmergencyStopEngaged);
        case ReleaseSoftwareEStop =>
          software := false;
          if physical {
            return false;
          }
          accepted := true;
          if fsm.state == EStopLatched {
            accepted := Put(EmergencyStopReleased);
          }
        case Resume =>
          if (required && !alive) || physical || software {
            return false;
          }
          accepted := Put(ResumeRequested);
        case ClearTheFault =>
          if physical || software {
            return false;
          }
          accepted := Put(ClearFault);
        case UnknownOperation => return false;
      }
    }

    /** The command service, cache and all: the state and the answer are those of
        serving the request once. */
    method OnCommand(id: string, op: Operation) returns (r: Response)
      requires Valid()
      modifies this, fsm
      ensures Valid()
      ensures Served(Value(), cache, r) ==
              Serve(old(Value()), old(cache), id, m => CommandStep(m, op), Response(false, Message(old(Value()))))
      ensures Trace() == if id == "" || id in old(cache).responses then old(Trace())
        else After(old(Trace()), Step(old(Value()), Command(op)))
    {
      if id == "" {
        return Response(false, SafetyMessage(fsm.state, sequence));
      }
      if id in cache.responses {
        return cache.responses[id];
      }
      var accepted := PutCommand(op);
      r := Response(accepted, SafetyMessage(fsm.state, sequence));
      RememberKeepsValid(cache, id, r);
      cache := Remember(cache, id, r);
      StepKeepsSoundRun(old(Trace()), Command(op));
    }

    method OnEvent(event: Option<Event>)
      requires Valid() && (event.Some? ==> event.value == StopRequested || event.value == HealthFault)
      modifies this, fsm
      ensures Valid()
      ensures Trace() == After(old(Trace()), Step(old(Value()),
        if event == None then UnknownEvent else if event.value == StopRequested then StopEvent else FaultEvent))
      ensures unchanged(`cache)
    {
      StepKeepsSoundRun(Trace(), StopEvent);
      StepKeepsSoundRun(Trace(), FaultEvent);
      if event.Some? {
        var accepted := Put(event.value);
      }
    }

    method OnPhysicalEStop(active: bool)
      requires Valid()
      modifies this, fsm
      ensures Valid() && Trace() == After(old(Trace()), Step(old(Value()), PhysicalEStop(active)))
      ensures unchanged(`cache)
    {
      StepKeepsSoundRun(Trace(), PhysicalEStop(active));
      physical := active;
      if physical || software {
        var accepted := Put(EmergencyStopEngaged);
      } else if fsm.state == EStopLatched {
        var accepted := Put(EmergencyStopReleased);
      }
    }

    method OnHeartbeat(isAlive: bool, now: int)
      requires Valid()
      modifies this, fsm
      ensures Valid() && Trace() == After(old(Trace()), Step(old(Value()), Heartbeat(isAlive, now)))
      ensures unchanged(`cache)
    {
      StepKeepsSoundRun(Trace(), Heartbeat(isAlive, now));
      if !isAlive {
        if alive {
          var accepted := Put(LinkLost);
        }
        alive := false;
        return;
      }
      heartbeatAt, alive := now, true;
      if fsm.state == Initializing {
        var accepted := Put(InputsReady);
      }
    }

    method Watch(now: int)
      modifies this`alive, this`sequence, this`published, fsm
      ensures var m := old(Value());
        Trace() == After(old(Trace()), if m.required && m.alive && now - m.heartbeatAt > HEARTBEAT_TIMEOUT
                                         then Dispatch(m.(alive := false), WatchdogTimeout) else Effect(m, []))
    {
      if required && alive && now - heartbeatAt > HEARTBEAT_TIMEOUT {
        alive := false;
        var accepted := Put(WatchdogTimeout);
      }
    }

    method OnTimer(now: int)
      requires Valid()
      modifies this, fsm
      ensures Valid() && Trace() == After(old(Trace()), Step(old(Value()), Timer(now)))
      ensures unchanged(`cache)
    {
      StepKeepsSoundRun(Trace(), Timer(now));
      Watch(now);
      Publish();
    }
  }
}
