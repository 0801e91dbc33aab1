/** A retried command across everything else the safety manager does meanwhile. */
module SafetyRetries {
  import opened Wrappers
  import opened ControlMessages
  import opened SafetyStateMachine
  import opened SafetyManager
  import opened RequestCache
  import opened SafetyNodes

  datatype Doing =
    | Order(id: string, operation: Operation)
    | Notice(event: Option<Event>)
    | Flag(active: bool)
    | Beat(alive: bool, now: int)
    | Tick(now: int)

  /** Events that are no stop request and no fault arrive as `None`. */
  predicate Sensible(d: Doing) {
    d.Notice? && d.event.Some? ==> d.event.value == StopRequested || d.event.value == HealthFault
  }

  function Handler(op: Operation): Effect -> (Effect, Response) {
    (t: Effect) => (After(t, Step(t.m, Command(op))), CommandStep(t.m, op).1)
  }

  function InputOf(d: Doing): Input
    requires !d.Order?
  {
    match d
    case Notice(None) => UnknownEvent
    case Notice(Some(e)) => if e == StopRequested then StopEvent else FaultEvent
    case Flag(active) => PhysicalEStop(active)
    case Beat(alive, now) => Heartbeat(alive, now)
    case Tick(now) => Timer(now)
  }

  function ActionOf(d: Doing): Action<Effect, Response> {
    if d.Order? then Call(d.id, Handler(d.operation)) else Other((t: Effect) => After(t, Step(t.m, InputOf(d))))
  }

  function ActionsOf(doings: seq<Doing>): seq<Action<Effect, Response>> {
    seq(|doings|, i requires 0 <= i < |doings| => ActionOf(doings[i]))
  }

  const NO_ANSWER := Response(false, SafetyMessage(Initializing, 0))

  method Ask(node: SafetyNode, id: string, op: Operation) returns (r: Response)
    requires node.Valid() && id != ""
    modifies node, node.fsm
    ensures node.Valid()
    ensures RequestCache.Served(node.Trace(), node.cache, r)
         == Serve(old(node.Trace()), old(node.cache), id, Handler(op), NO_ANSWER)
  {
    r := node.OnCommand(id, op);
  }

  method Do(node: SafetyNode, d: Doing)
    requires node.Valid() && Sensible(d)
    modifies node, node.fsm
    ensures node.Valid()
    ensures (node.Trace(), node.cache) == Act(old(node.Trace()), old(node.cache), ActionOf(d), NO_ANSWER)
  {
    match d {
      case Order(id, operation) => var r := node.OnCommand(id, operation);
      case Notice(event) => node.OnEvent(event);
      case Flag(active) => node.OnPhysicalEStop(active);
      case Beat(alive, now) => node.OnHeartbeat(alive, now);
      case Tick(now) => node.OnTimer(now);
    }
  }

  method DoAll(node: SafetyNode, doings: seq<Doing>)
    requires node.Valid() && forall d | d in doings :: Sensible(d)
    modifies node, node.fsm
    ensures node.Valid()
    ensures (node.Trace(), node.cache) == ActAll(old(node.Trace()), old(node.cache), ActionsOf(doings), NO_ANSWER)
  {
    var i := 0;
    assert ActionsOf(doings)[0..] == ActionsOf(doings);
    while i < |doings|
      invariant i <= |doings| && node.Valid()
      invariant ActAll(node.Trace(), node.cache, ActionsOf(doings)[i..], NO_ANSWER)
             == ActAll(old(node.Trace()), old(node.cache), ActionsOf(doings), NO_ANSWER)
    {
      ActNext(node.Trace(), node.cache, ActionsOf(doings), i, NO_ANSWER);
      Do(node, doings[i]);
      i := i + 1;
    }
  }

  /** A command sent again, whatever it then asks for, gets the answer it got first and changes
      nothing, if fewer than 128 other commands were handled and remembered in between. */
  method Retry(node: SafetyNode, id: string, first: Operation, between: seq<Doing>, again: Operation)
    returns (answer: Response, repeated: Response)
    requires node.Valid() && id != "" && id !in node.cache.responses && forall d | d in between :: Sensible(d)
    modifies node, node.fsm
    ensures node.Valid()
    ensures AnsweredOnce(old(node.Trace()), old(node.cache), id, Handler(first), ActionsOf(between), NO_ANSWER,
                         node.Trace(), node.cache, answer, repeated)
  {
    ghost var t, c := node.Trace(), node.cache;
    answer := Ask(node, id, first);
    ghost var r := RequestCache.Served(node.Trace(), node.cache, answer);
    DoAll(node, between);
    ghost var t1, c1 := node.Trace(), node.cache;
    repeated := Ask(node, id, again);
    RetriedInTurn(t, c, id, Handler(first), r, ActionsOf(between), t1, c1, Handler(again),
                  RequestCache.Served(node.Trace(), node.cache, repeated), NO_ANSWER);
  }
}

/** A retried request for authority across everything else the authority service does. */
module InterlockRetries {
  import opened Wrappers
  import opened ControlMessages
  import MI = MotionInterlock
  import opened InterlockManager
  import opened RequestCache
  import opened InterlockNodes

  datatype Doing =
    | Please(id: string, request: Option<MI.Request>, requester: string, now: int)
    | Hear(message: StopFeedback, wall: int, now: int)
    | Tick(now: int)

  function Handler(request: Option<MI.Request>, requester: string, now: int): Run -> (Run, Response) {
    (r: Run) => (StepRun(r, Ask(request, requester, now)), AskStep(r.m, request, requester, now).1)
  }

  function ActionOf(d: Doing): Action<Run, Response> {
    match d
    case Please(id, request, requester, now) => Call(id, Handler(request, requester, now))
    case Hear(message, wall, now) => Other((r: Run) => StepRun(r, Feedback(message, wall, now)))
    case Tick(now) => Other((r: Run) => StepRun(r, Timer(now)))
  }

  function ActionsOf(doings: seq<Doing>): seq<Action<Run, Response>> {
    seq(|doings|, i requires 0 <= i < |doings| => ActionOf(doings[i]))
  }

  const NO_ANSWER := Response(false, NoAuthority, NoAuthority)

  method Request(node: InterlockNode, id: string, request: Option<MI.Request>, requester: string, now: int)
    returns (r: Response)
    requires node.Valid() && id != ""
    modifies node, node.interlock
    ensures node.Valid()
    ensures RequestCache.Served(node.Snapshot(), node.cache, r)
         == Serve(old(node.Snapshot()), old(node.cache), id, Handler(request, requester, now), NO_ANSWER)
  {
    r := node.OnRequest(id, request, requester, now);
  }

  method Do(node: InterlockNode, d: Doing)
    requires node.Valid()
    modifies node, node.interlock
    ensures node.Valid()
    ensures (node.Snapshot(), node.cache) == Act(old(node.Snapshot()), old(node.cache), ActionOf(d), NO_ANSWER)
  {
    match d {
      case Please(id, request, requester, now) => var r := node.OnRequest(id, request, requester, now);
      case Hear(message, wall, now) => node.OnStopped(message, wall, now);
      case Tick(now) => var fault := node.OnTimer(now);
    }
  }

  method DoAll(node: InterlockNode, doings: seq<Doing>)
    requires node.Valid()
    modifies node, node.interlock
    ensures node.Valid()
    ensures (node.Snapshot(), node.cache)
         == ActAll(old(node.Snapshot()), old(node.cache), ActionsOf(doings), NO_ANSWER)
  {
    var i := 0;
    assert ActionsOf(doings)[0..] == ActionsOf(doings);
    while i < |doings|
      invariant i <= |doings| && node.Valid()
      invariant ActAll(node.Snapshot(), node.cache, ActionsOf(doings)[i..], NO_ANSWER)
             == ActAll(old(node.Snapshot()), old(node.cache), ActionsOf(doings), NO_ANSWER)
    {
      ActNext(node.Snapshot(), node.cache, ActionsOf(doings), i, NO_ANSWER);
      Do(node, doings[i]);
      i := i + 1;
    }
  }

  /** A request sent again, whatever it then asks for, gets the answer it got first and changes
      nothing, if fewer than 128 other requests were handled and remembered in between. */
  method Retry(node: InterlockNode, id: string, first: Option<MI.Request>, requester: string, now: int,
               between: seq<Doing>, again: Option<MI.Request>, later: int)
    returns (answer: Response, repeated: Response)
    requires node.Valid() && id != "" && id !in node.cache.responses
    modifies node, node.interlock
    ensures node.Valid()
    ensures AnsweredOnce(old(node.Snapshot()), old(node.cache), id, Handler(first, requester, now), ActionsOf(between),
                         NO_ANSWER, node.Snapshot(), node.cache, answer, repeated)
  {
    ghost var s, c := node.Snapshot(), node.cache;
    answer := Request(node, id, first, requester, now);
    ghost var r := RequestCache.Served(node.Snapshot(), node.cache, answer);
    DoAll(node, between);
    ghost var s1, c1 := node.Snapshot(), node.cache;
    repeated := Request(node, id, again, requester, later);
    RetriedInTurn(s, c, id, Handler(first, requester, now), r, ActionsOf(between), s1, c1,
                  Handler(again, requester, later), RequestCache.Served(node.Snapshot(), node.cache, repeated),
                  NO_ANSWER);
  }
}

/** A retried call of either service of the mission manager, across everything else it does. */
module MissionRetries {
  import opened MissionStateMachine
  import opened MissionManager
  import opened RequestCache
  import opened MissionNodes

  datatype Doing =
    | SetPlan(id: string, plan: Plan)
    | Order(id: string, missionId: string, operation: Operation, now: int, safetyReady: bool)
    | Happens(input: Input)

  /** The state of the manager, with the cache of the service that is not looked at. */
  datatype Rest = Rest(run: Run, other: Cache<Response>)

  datatype Node = Node(run: Run, configure: Cache<Response>, control: Cache<Response>)

  const NO_ANSWER := Response(false, Idle)

  function PlanHandler(p: Plan): Run -> (Run, Response) {
    (r: Run) => (StepRun(r, ConfigureCall(p)), ConfigureStep(r.m, p).1)
  }

  function OrderHandler(mission: string, op: Operation, now: int, ready: bool): Run -> (Run, Response) {
    (r: Run) => (StepRun(r, ControlCall(mission, op, now, ready)), ControlStep(r.m, mission, op, now, ready).1)
  }

  function Done(n: Node, d: Doing): Node {
    match d
    case SetPlan(id, p) =>
      var s := Serve(n.run, n.configure, id, PlanHandler(p), NO_ANSWER);
      n.(run := s.state, configure := s.cache)
    case Order(id, mission, op, now, ready) =>
      var s := Serve(n.run, n.control, id, OrderHandler(mission, op, now, ready), NO_ANSWER);
      n.(run := s.state, control := s.cache)
    case Happens(input) => n.(run := StepRun(n.run, input))
  }

  function DoneAll(n: Node, doings: seq<Doing>): Node
    decreases |doings|
  {
    if doings == [] then n else DoneAll(Done(n, doings[0]), doings[1..])
  }

  /** What the node's environment may do; calls of the services come with an id. */
  ghost predicate MayDoOne(n: Node, d: Doing) {
    d.Happens? ==> !d.input.ConfigureCall? && !d.input.ControlCall? && Allowed(n.run, d.input)
  }

  ghost predicate MayDo(n: Node, doings: seq<Doing>)
    decreases |doings|
  {
    doings == [] || (MayDoOne(n, doings[0]) && MayDo(Done(n, doings[0]), doings[1..]))
  }

  // ----- the node -----

  ghost function StateOf(node: MissionNode): Node
    reads node, node.fsm
  {
    Node(node.Snapshot(), node.configureCache, node.controlCache)
  }

  ghost predicate Sound(node: MissionNode)
    reads node, node.fsm
  {
    node.Holds() && node.CachesValid()
  }

  method React(node: MissionNode, input: Input)
    requires Sound(node) && !input.ConfigureCall? && !input.ControlCall? && Allowed(node.Snapshot(), input)
    modifies node, node.fsm
    ensures Sound(node) && StateOf(node) == Done(old(StateOf(node)), Happens(input))
  {
    match input {
      case SafetyInput(msg) => node.OnSafety(msg);
      case AuthorityInput(a) => node.OnAuthority(a);
      case OdometryInput(now) => node.OnOdometry(now);
      case CommandInput(zero, now) => node.OnSafeCommand(zero, now);
      case StoppedInput(base, stopped, now) => node.OnMotionStopped(base, stopped, now);
      case ResumeAnswer(g, accepted, state) => node.OnResumeAnswered(g, accepted, state);
      case GoalAnswer(g, taken) => node.OnGoalAnswered(g, taken);
      case GoalResult(g, succeeded) => node.OnGoalFinished(g, succeeded);
      case Timer(now, serverReady, safetyReady) => node.OnTimer(now, serverReady, safetyReady);
    }
    node.Stepped(old(node.Snapshot()), input);
  }

  method CallPlan(node: MissionNode, id: string, p: Plan) returns (r: Response)
    requires Sound(node)
    modifies node, node.fsm
    ensures Sound(node) && StateOf(node) == Done(old(StateOf(node)), SetPlan(id, p))
    ensures id != "" ==>
      r == Serve(old(node.Snapshot()), old(node.configureCache), id, PlanHandler(p), NO_ANSWER).response
  {
    r := node.OnConfigure(id, p);
  }

  method CallOrder(node: MissionNode, id: string, mission: string, op: Operation, now: int, ready: bool)
    returns (r: Response)
    requires Sound(node)
    modifies node, node.fsm
    ensures Sound(node) && StateOf(node) == Done(old(StateOf(node)), Order(id, mission, op, now, ready))
    ensures id != "" ==>
      r == Serve(old(node.Snapshot()), old(node.controlCache), id, OrderHandler(mission, op, now, ready),
                 NO_ANSWER).response
  {
    r := node.OnControl(id, mission, op, now, ready);
  }

  method Do(node: MissionNode, d: Doing)
    requires Sound(node) && MayDoOne(StateOf(node), d)
    modifies node, node.fsm
    ensures Sound(node) && StateOf(node) == Done(old(StateOf(node)), d)
  {
    match d {
      case SetPlan(id, p) => var r := CallPlan(node, id, p);
      case Order(id, mission, op, now, ready) => var r := CallOrder(node, id, mission, op, now, ready);
      case Happens(input) => React(node, input);
    }
  }

  lemma NextDoing(n: Node, doings: seq<Doing>, i: nat)
    requires i < |doings| && MayDo(n, doings[i..])
    ensures MayDoOne(n, doings[i]) && MayDo(Done(n, doings[i]), doings[i + 1..])
    ensures DoneAll(n, doings[i..]) == DoneAll(Done(n, doings[i]), doings[i + 1..])
  {
    assert doings[i..][0] == doings[i] && doings[i..][1..] == doings[i + 1..];
  }

  method DoAll(node: MissionNode, doings: seq<Doing>)
    requires Sound(node) && MayDo(StateOf(node), doings)
    modifies node, node.fsm
    ensures Sound(node) && StateOf(node) == DoneAll(old(StateOf(node)), doings)
  {
    var i := 0;
    assert doings[0..] == doings;
    while i < |doings|
      invariant i <= |doings| && Sound(node) && MayDo(StateOf(node), doings[i..])
      invariant DoneAll(StateOf(node), doings[i..]) == DoneAll(old(StateOf(node)), doings)
    {
      NextDoing(StateOf(node), doings, i);
      Do(node, doings[i]);
      i := i + 1;
    }
  }

  // ----- one service, the other among what else happens -----

  function OrderAction(d: Doing): Action<Rest, Response> {
    match d
    case Order(id, mission, op, now, ready) => Call(id, OverRest(OrderHandler(mission, op, now, ready)))
    case _ => Other((x: Rest) => var n := Done(Node(x.run, x.other, EmptyCache()), d); Rest(n.run, n.configure))
  }

  function PlanAction(d: Doing): Action<Rest, Response> {
    match d
    case SetPlan(id, p) => Call(id, OverRest(PlanHandler(p)))
    case _ => Other((x: Rest) => var n := Done(Node(x.run, EmptyCache(), x.other), d); Rest(n.run, n.control))
  }

  function OverRest(handler: Run -> (Run, Response)): Rest -> (Rest, Response) {
    (x: Rest) => (x.(run := handler(x.run).0), handler(x.run).1)
  }

  function OrderActions(doings: seq<Doing>): seq<Action<Rest, Response>> {
    if doings == [] then [] else [OrderAction(doings[0])] + OrderActions(doings[1..])
  }

  function PlanActions(doings: seq<Doing>): seq<Action<Rest, Response>> {
    if doings == [] then [] else [PlanAction(doings[0])] + PlanActions(doings[1..])
  }

  lemma DoneIsAct(n: Node, d: Doing)
    ensures var n' := Done(n, d);
      && Act(Rest(n.run, n.configure), n.control, OrderAction(d), NO_ANSWER) == (Rest(n'.run, n'.configure), n'.control)
      && Act(Rest(n.run, n.control), n.configure, PlanAction(d), NO_ANSWER) == (Rest(n'.run, n'.control), n'.configure)
  {
  }

  lemma ActFirst(s: Rest, c: Cache<Response>, action: Action<Rest, Response>, rest: seq<Action<Rest, Response>>)
    ensures var (s', c') := Act(s, c, action, NO_ANSWER);
      ActAll(s, c, [action] + rest, NO_ANSWER) == ActAll(s', c', rest, NO_ANSWER)
  {
    assert ([action] + rest)[1..] == rest;
  }

  lemma {:induction false} OrdersAct(n: Node, doings: seq<Doing>)
    ensures var n' := DoneAll(n, doings);
      ActAll(Rest(n.run, n.configure), n.control, OrderActions(doings), NO_ANSWER)
      == (Rest(n'.run, n'.configure), n'.control)
    decreases |doings|
  {
    if doings != [] {
      DoneIsAct(n, doings[0]);
      OrdersAct(Done(n, doings[0]), doings[1..]);
      ActFirst(Rest(n.run, n.configure), n.control, OrderAction(doings[0]), OrderActions(doings[1..]));
    }
  }

  lemma {:induction false} PlansAct(n: Node, doings: seq<Doing>)
    ensures var n' := DoneAll(n, doings);
      ActAll(Rest(n.run, n.control), n.configure, PlanActions(doings), NO_ANSWER)
      == (Rest(n'.run, n'.control), n'.configure)
    decreases |doings|
  {
    if doings != [] {
      DoneIsAct(n, doings[0]);
      PlansAct(Done(n, doings[0]), doings[1..]);
      ActFirst(Rest(n.run, n.control), n.configure, PlanAction(doings[0]), PlanActions(doings[1..]));
    }
  }

  lemma ServedOver(run: Run, other: Cache<Response>, c: Cache<Response>, id: string, handler: Run -> (Run, Response))
    ensures var r := Serve(run, c, id, handler, NO_ANSWER);
      Serve(Rest(run, other), c, id, OverRest(handler), NO_ANSWER) == Served(Rest(r.state, other), r.cache, r.response)
  {
  }

  predicate IsNewOrder(d: Doing, c: Cache<Response>) {
    d.Order? && d.id != "" && d.id !in c.responses
  }

  predicate IsNewPlan(d: Doing, c: Cache<Response>) {
    d.SetPlan? && d.id != "" && d.id !in c.responses
  }

  ghost function OrderHandlerOf(d: Doing): Rest -> (Rest, Response)
    requires d.Order?
  {
    OverRest(OrderHandler(d.missionId, d.operation, d.now, d.safetyReady))
  }

  ghost function OrderView(node: MissionNode): Rest
    reads node, node.fsm
  {
    Rest(node.Snapshot(), node.configureCache)
  }

  ghost function PlanView(node: MissionNode): Rest
    reads node, node.fsm
  {
    Rest(node.Snapshot(), node.controlCache)
  }

  method AskOrder(node: MissionNode, d: Doing) returns (r: Response)
    requires Sound(node) && d.Order? && d.id != ""
    modifies node, node.fsm
    ensures Sound(node) && StateOf(node) == Done(old(StateOf(node)), d)
    ensures Served(OrderView(node), node.controlCache, r)
         == Serve(old(OrderView(node)), old(node.controlCache), d.id, OrderHandlerOf(d), NO_ANSWER)
  {
    ServedOver(node.Snapshot(), node.configureCache, node.controlCache, d.id,
               OrderHandler(d.missionId, d.operation, d.now, d.safetyReady));
    r := CallOrder(node, d.id, d.missionId, d.operation, d.now, d.safetyReady);
  }

  method AskPlan(node: MissionNode, d: Doing) returns (r: Response)
    requires Sound(node) && d.SetPlan? && d.id != ""
    modifies node, node.fsm
    ensures Sound(node) && StateOf(node) == Done(old(StateOf(node)), d)
    ensures Served(PlanView(node), node.configureCache, r)
         == Serve(old(PlanView(node)), old(node.configureCache), d.id, OverRest(PlanHandler(d.plan)), NO_ANSWER)
  {
    ServedOver(node.Snapshot(), node.controlCache, node.configureCache, d.id, PlanHandler(d.plan));
    r := CallPlan(node, d.id, d.plan);
  }

  /** An order sent again, whatever it then asks for, gets the answer it got first and changes
      nothing, if fewer than 128 other orders were handled and remembered in between. */
  method RetryOrder(node: MissionNode, first: Doing, between: seq<Doing>, again: Doing)
    returns (answer: Response, repeated: Response)
    requires Sound(node) && IsNewOrder(first, node.controlCache) && again.Order? && again.id == first.id
    requires MayDo(Done(StateOf(node), first), between)
    modifies node, node.fsm
    ensures Sound(node)
    ensures AnsweredOnce(old(OrderView(node)), old(node.controlCache), first.id, OrderHandlerOf(first),
                         OrderActions(between), NO_ANSWER, OrderView(node), node.controlCache, answer, repeated)
  {
    ghost var s, c := OrderView(node), node.controlCache;
    answer := AskOrder(node, first);
    ghost var r := Served(OrderView(node), node.controlCache, answer);
    OrdersAct(StateOf(node), between);
    DoAll(node, between);
    ghost var s1, c1 := OrderView(node), node.controlCache;
    repeated := AskOrder(node, again);
    RetriedInTurn(s, c, first.id, OrderHandlerOf(first), r, OrderActions(between), s1, c1, OrderHandlerOf(again),
                  Served(OrderView(node), node.controlCache, repeated), NO_ANSWER);
  }

  /** And so does a plan sent again, among fewer than 128 other plans. */
  method RetryPlan(node: MissionNode, first: Doing, between: seq<Doing>, again: Doing)
    returns (answer: Response, repeated: Response)
    requires Sound(node) && IsNewPlan(first, node.configureCache) && again.SetPlan? && again.id == first.id
    requires MayDo(Done(StateOf(node), first), between)
    modifies node, node.fsm
    ensures Sound(node)
    ensures AnsweredOnce(old(PlanView(node)), old(node.configureCache), first.id, OverRest(PlanHandler(first.plan)),
                         PlanActions(between), NO_ANSWER, PlanView(node), node.configureCache, answer, repeated)
  {
    ghost var s, c := PlanView(node), node.configureCache;
    answer := AskPlan(node, first);
    ghost var r := Served(PlanView(node), node.configureCache, answer);
    PlansAct(StateOf(node), between);
    DoAll(node, between);
    ghost var s1, c1 := PlanView(node), node.configureCache;
    repeated := AskPlan(node, again);
    RetriedInTurn(s, c, first.id, OverRest(PlanHandler(first.plan)), r, PlanActions(between), s1, c1,
                  OverRest(PlanHandler(again.plan)), Served(PlanView(node), node.configureCache, repeated), NO_ANSWER);
  }
}
