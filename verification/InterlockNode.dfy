/** The authority service as the object it is, proved against InterlockManager. */
module InterlockNodes {
  import opened Wrappers
  import opened ControlMessages
  import MI = MotionInterlock
  import opened InterlockManager
  import opened RequestCache

  datatype Response = Response(accepted: bool, state: Authority, pending: Authority)

  function AskStep(m: Manager, request: Option<MI.Request>, requester: string, now: int): (Manager, Response) {
    var m' := OnAsk(m, request, requester, now).m;
    (m', Response(AskAccepted(m, request), m'.interlock.state, m'.interlock.pending))
  }

  class InterlockNode {
    const interlock: MI.MotionInterlock
    var startedAt: Option<int>
    var owner: string
    var sequence: nat
    var faults: nat
    var cache: Cache<Response>
    ghost var log: seq<Entry>

    ghost function Value(): Manager
      reads this, interlock
    {
      Manager(interlock.Value(), startedAt, owner, sequence, faults)
    }

    ghost function Snapshot(): Run
      reads this, interlock
    {
      Run(Value(), log)
    }

    ghost predicate Valid()
      reads this, interlock
    {
      Kept(Snapshot()) && RequestCache.Valid(cache)
    }

    constructor ()
      ensures fresh(interlock) && Valid() && Snapshot() == Run(INITIAL_MANAGER, [])
    {
      interlock := new MI.MotionInterlock();
      startedAt, owner, sequence, faults := None, "", 0, 0;
      cache := EmptyCache();
      log := [];
    }

    /** What follows every accepted transition. */
    method AcceptTransition(now: int)
      modifies this`startedAt, this`owner, this`sequence
      ensures Value() == Accepted(old(Value()), interlock.Value(), now)
    {
      sequence := sequence + 1;
      var state := interlock.state;
      if state == BaseStopping || state == ArmStopping {
        startedAt := Some(now);
      } else {
        startedAt := None;
        if state == NoAuthority {
          owner := "";
        }
      }
    }

    method Put(request: Option<MI.Request>, requester: string, now: int) returns (accepted: bool)
      requires MI.WellFormed(interlock.Value())
      modifies this`startedAt, this`owner, this`sequence, this`log, interlock
      ensures accepted == AskAccepted(old(Value()), request)
      ensures Snapshot() == StepRun(old(Snapshot()), Ask(request, requester, now))
    {
      if request == None {
        return false;
      }
      var t := interlock.Request(request.value);
      if t.accepted {
        if request.value != MI.Release {
          owner := requester;
        }
        AcceptTransition(now);
        log := log + [Granted(request.value, t.to)];
      }
      return t.accepted;
    }

    /** The request service, cache and all. */
    method OnRequest(id: string, request: Option<MI.Request>, requester: string, now: int) returns (r: Response)
      requires Valid()
      modifies this, interlock
      ensures Valid()
      ensures Served(Value(), cache, r) ==
              Serve(old(Value()), old(cache), id, m => AskStep(m, request, requester, now),
                    Response(false, old(interlock.state), old(interlock.pending)))
      ensures Snapshot() == if id == "" || id in old(cache).responses then old(Snapshot())
        else StepRun(old(Snapshot()), Ask(request, requester, now))
    {
      if id == "" {
        return Response(false, interlock.state, interlock.pending);
      }
      if id in cache.responses {
        return cache.responses[id];
      }
      StepKeeps(Snapshot(), Ask(request, requester, now));
      var accepted := Put(request, requester, now);
      r := Response(accepted, interlock.state, interlock.pending);
      RememberKeepsValid(cache, id, r);
      cache := Remember(cache, id, r);
    }

    method OnStopped(message: StopFeedback, wall: int, now: int)
      requires Valid()
      modifies this, interlock
      ensures Valid() && Snapshot() == StepRun(old(Snapshot()), Feedback(message, wall, now))
      ensures unchanged(`cache)
    {
      StepKeeps(Snapshot(), Feedback(message, wall, now));
      if !message.stopped {
        return;
      }
      var age := wall - message.stamp;
      if age < 0 || age > FEEDBACK_TIMEOUT {
        return;
      }
      var t := MI.Transition(interlock.state, interlock.state, false);
      if message.resource == Base {
        t := interlock.Stopped(true);
      } else if message.resource == Arm {
        t := interlock.Stopped(false);
      }
      if t.accepted {
        AcceptTransition(now);
        log := log + [Confirmed(message, wall, t.to)];
      }
    }

    /** `fault` tells whether a HEALTH_FAULT is sent. */
    method OnTimer(now: int) returns (fault: bool)
      requires Valid()
      modifies this, interlock
      ensures Valid() && Snapshot() == StepRun(old(Snapshot()), Timer(now))
      ensures fault <==> faults == old(faults) + 1
      ensures unchanged(`cache)
    {
      StepKeeps(Snapshot(), Timer(now));
      if startedAt == None {
        return false;
      }
      if now - startedAt.value <= TRANSITION_TIMEOUT {
        return false;
      }
      var t := interlock.Timeout();
      startedAt := None;
      if !t.accepted {
        return false;
      }
      owner := "";
      AcceptTransition(now);
      faults := faults + 1;
      log := log + [Expired(faults)];
      return true;
    }
  }
}
