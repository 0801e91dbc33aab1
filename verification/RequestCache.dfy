/** The retry cache shared by the mission, safety and authority services: a map of
    responses and a queue of request ids, oldest first. */
module RequestCache {
  const CAPACITY: nat := 128

  datatype Cache<R> = Cache(responses: map<string, R>, order: seq<string>)

  function EmptyCache<R>(): Cache<R> {
    Cache(map[], [])
  }

  ghost predicate Valid<R>(c: Cache<R>) {
    && (forall i, j | 0 <= i < j < |c.order| :: c.order[i] != c.order[j])
    && (forall id :: id in c.order <==> id in c.responses)
    && |c.order| <= 128
  }

  /** Adds a response and forgets the oldest one once the queue is over capacity. */
  function Remember<R>(c: Cache<R>, id: string, response: R): Cache<R> {
    var responses, order := c.responses[id := response], c.order + [id];
    if |order| > CAPACITY then Cache(responses - {order[0]}, order[1..]) else Cache(responses, order)
  }

  /** Remembering a new id keeps the queue free of duplicates and equal to the key
      set, and never changes a response that it keeps. */
  lemma RememberKeepsValid<R>(c: Cache<R>, id: string, response: R)
    requires Valid(c) && id !in c.responses
    ensures Valid(Remember(c, id, response))
    ensures id in Remember(c, id, response).responses && Remember(c, id, response).responses[id] == response
    ensures forall k | k in Remember(c, id, response).responses && k != id ::
      k in c.responses && Remember(c, id, response).responses[k] == c.responses[k]
  {
    var r := Remember(c, id, response);
    var order := c.order + [id];
    forall k ensures k in r.order <==> k in r.responses {
      assert k in order <==> k in c.order || k == id;
      if |order| > CAPACITY {
        assert order == [order[0]] + order[1..];
        assert k in order <==> k == order[0] || k in order[1..];
        if order[0] in order[1..] {
          var i :| 0 <= i < |order[1..]| && order[1..][i] == order[0];
          assert order[i + 1] == order[0];
        }
      }
    }
  }

  /** One request: an empty id is refused and never remembered, a known id is
      answered from the cache, and any other is handled and remembered. */
  datatype Served<S, R> = Served(state: S, cache: Cache<R>, response: R)

  function Serve<S, R>(s: S, c: Cache<R>, id: string, handler: S -> (S, R), refusal: R): Served<S, R> {
    if id == "" then Served(s, c, refusal)
    else if id in c.responses then Served(s, c, c.responses[id])
    else
      var (s', r) := handler(s);
      Served(s', Remember(c, id, r), r)
  }

  lemma ServeKeepsValid<S, R>(s: S, c: Cache<R>, id: string, handler: S -> (S, R), refusal: R)
    requires Valid(c)
    ensures Valid(Serve(s, c, id, handler, refusal).cache)
  {
    if id != "" && id !in c.responses {
      RememberKeepsValid(c, id, handler(s).1);
    }
  }

  /** `id` was remembered with `response`, and at most `age` ids after it. */
  ghost predicate Holds<R>(c: Cache<R>, id: string, response: R, age: nat) {
    && id in c.responses && c.responses[id] == response
    && exists i :: 0 <= i < |c.order| && c.order[i] == id && |c.order| - 1 - i <= age
  }

  lemma RememberAges<R>(c: Cache<R>, id: string, response: R, other: string, otherResponse: R, age: nat)
    requires Valid(c) && Holds(c, id, response, age) && age < 127
    requires other !in c.responses
    ensures Holds(Remember(c, other, otherResponse), id, response, age + 1)
  {
    var i :| 0 <= i < |c.order| && c.order[i] == id && |c.order| - 1 - i <= age;
    var r := Remember(c, other, otherResponse);
    var order := c.order + [other];
    if |order| > CAPACITY {
      assert r.order[i - 1] == id && order[0] != id;
      RememberKeepsValid(c, other, otherResponse);
    } else {
      assert r.order[i] == id;
    }
  }

  /** What the node does: serve a call, or anything else that changes its state. */
  datatype Action<!S, R> = Call(id: string, handler: S -> (S, R)) | Other(step: S -> S)

  function Act<S, R>(s: S, c: Cache<R>, action: Action<S, R>, refusal: R): (S, Cache<R>) {
    match action
    case Call(id, handler) =>
      var r := Serve(s, c, id, handler, refusal);
      (r.state, r.cache)
    case Other(step) => (step(s), c)
  }

  predicate IsNew<S, R>(c: Cache<R>, action: Action<S, R>) {
    action.Call? && action.id != "" && action.id !in c.responses
  }

  /** Acting in order. */
  function ActAll<S, R>(s: S, c: Cache<R>, actions: seq<Action<S, R>>, refusal: R): (S, Cache<R>)
    decreases |actions|
  {
    if actions == [] then (s, c)
    else
      var (s', c') := Act(s, c, actions[0], refusal);
      ActAll(s', c', actions[1..], refusal)
  }

  lemma ActNext<S, R>(s: S, c: Cache<R>, actions: seq<Action<S, R>>, i: nat, refusal: R)
    requires i < |actions|
    ensures var (s', c') := Act(s, c, actions[i], refusal);
      ActAll(s, c, actions[i..], refusal) == ActAll(s', c', actions[i + 1..], refusal)
  {
    assert actions[i..][0] == actions[i] && actions[i..][1..] == actions[i + 1..];
  }

  /** How many of the actions are calls that are handled and remembered, not answered
      from the cache. */
  function NewCalls<S, R>(s: S, c: Cache<R>, actions: seq<Action<S, R>>, refusal: R): nat
    decreases |actions|
  {
    if actions == [] then 0
    else
      var (s', c') := Act(s, c, actions[0], refusal);
      (if IsNew(c, actions[0]) then 1 else 0) + NewCalls(s', c', actions[1..], refusal)
  }

  lemma {:induction false} StillHeld<S, R>(s: S, c: Cache<R>, actions: seq<Action<S, R>>, refusal: R,
                                           id: string, response: R, age: nat)
    requires Valid(c) && Holds(c, id, response, age)
    requires age + NewCalls(s, c, actions, refusal) < 128
    ensures Valid(ActAll(s, c, actions, refusal).1)
    ensures Holds(ActAll(s, c, actions, refusal).1, id, response, age + NewCalls(s, c, actions, refusal))
    decreases |actions|
  {
    if actions != [] {
      var action := actions[0];
      var (s', c') := Act(s, c, action, refusal);
      if action.Call? {
        ServeKeepsValid(s, c, action.id, action.handler, refusal);
      }
      if IsNew(c, action) {
        RememberAges(c, id, response, action.id, action.handler(s).1, age);
        StillHeld(s', c', actions[1..], refusal, id, response, age + 1);
      } else {
        StillHeld(s', c', actions[1..], refusal, id, response, age);
      }
    }
  }

  /** Retrying a request whose id is among the last 128 remembered returns the identical
      response and touches neither the state nor the cache, whatever happened meanwhile. */
  lemma RetryIsIdempotent<S, R>(s: S, c: Cache<R>, id: string, handler: S -> (S, R), between: seq<Action<S, R>>,
                                retry: S -> (S, R), refusal: R)
    requires Valid(c) && id != "" && id !in c.responses
    requires var r := Serve(s, c, id, handler, refusal);
      NewCalls(r.state, r.cache, between, refusal) < 128
    ensures var r := Serve(s, c, id, handler, refusal);
      var (s', c') := ActAll(r.state, r.cache, between, refusal);
      && (r.state, r.response) == handler(s)
      && Serve(s', c', id, retry, refusal) == Served(s', c', r.response)
  {
    var r := Serve(s, c, id, handler, refusal);
    RememberKeepsValid(c, id, r.response);
    assert r.cache.order[|r.cache.order| - 1] == id;
    assert Holds(r.cache, id, r.response, 0);
    StillHeld(r.state, r.cache, between, refusal, id, r.response, 0);
  }

  /** `id` was remembered, and exactly `age` ids after it. */
  ghost predicate HeldFor<R>(c: Cache<R>, id: string, age: nat) {
    age < |c.order| && c.order[|c.order| - 1 - age] == id
  }

  lemma RememberAgesExactly<R>(c: Cache<R>, id: string, other: string, response: R, age: nat)
    requires Valid(c) && other != id && other !in c.responses
    requires age < 128 && HeldFor(c, id, age)
    ensures var r := Remember(c, other, response);
      if age == 127 then id !in r.responses else HeldFor(r, id, age + 1)
  {
    var r, order := Remember(c, other, response), c.order + [other];
    assert order[|order| - 2 - age] == id;
    if age == 127 {
      assert order[0] == id;
    } else if |order| > CAPACITY {
      assert r.order[|r.order| - 2 - age] == order[|order| - 2 - age];
    }
  }

  ghost predicate IsAbout<S, R>(action: Action<S, R>, id: string) {
    action.Call? && action.id == id
  }

  lemma {:induction false} StillForgotten<S, R>(s: S, c: Cache<R>, actions: seq<Action<S, R>>, refusal: R, id: string)
    requires Valid(c) && id !in c.responses && forall a | a in actions :: !IsAbout(a, id)
    ensures id !in ActAll(s, c, actions, refusal).1.responses
    decreases |actions|
  {
    if actions != [] {
      var (s', c') := Act(s, c, actions[0], refusal);
      assert !IsAbout(actions[0], id);
      if actions[0].Call? {
        ServeKeepsValid(s, c, actions[0].id, actions[0].handler, refusal);
      }
      StillForgotten(s', c', actions[1..], refusal, id);
    }
  }

  lemma {:induction false} HeldExactly<S, R>(s: S, c: Cache<R>, actions: seq<Action<S, R>>, refusal: R, id: string,
                                             age: nat)
    requires Valid(c) && age < 128 && HeldFor(c, id, age) && forall a | a in actions :: !IsAbout(a, id)
    ensures id in ActAll(s, c, actions, refusal).1.responses <==> age + NewCalls(s, c, actions, refusal) < 128
    decreases |actions|
  {
    if actions == [] {
      assert id in c.order;
    } else {
      var action := actions[0];
      var (s', c') := Act(s, c, action, refusal);
      assert !IsAbout(action, id);
      if action.Call? {
        ServeKeepsValid(s, c, action.id, action.handler, refusal);
      }
      if !IsNew(c, action) {
        HeldExactly(s', c', actions[1..], refusal, id, age);
      } else {
        RememberAgesExactly(c, id, action.id, action.handler(s).1, age);
        if age == 127 {
          StillForgotten(s', c', actions[1..], refusal, id);
        } else {
          HeldExactly(s', c', actions[1..], refusal, id, age + 1);
        }
      }
    }
  }

  /** A request with an id is handled unless that id is still known; and an id is known for
      exactly as long as fewer than 128 others were remembered after it. */
  lemma ForgottenIff<S, R>(s: S, c: Cache<R>, id: string, handler: S -> (S, R), between: seq<Action<S, R>>, refusal: R)
    requires Valid(c) && id != "" && id !in c.responses && forall a | a in between :: !IsAbout(a, id)
    ensures var r := Serve(s, c, id, handler, refusal);
      && (r.state, r.response) == handler(s)
      && (id in ActAll(r.state, r.cache, between, refusal).1.responses
          <==> NewCalls(r.state, r.cache, between, refusal) < 128)
  {
    var r := Serve(s, c, id, handler, refusal);
    RememberKeepsValid(c, id, r.response);
    assert r.cache.order[|r.cache.order| - 1] == id;
    HeldExactly(r.state, r.cache, between, refusal, id, 0);
  }

  /** A request, other actions, and the request's id again: both get one answer, and the
      second changes nothing, if fewer than 128 calls were remembered in between. */
  ghost predicate AnsweredOnce<S, R>(s: S, c: Cache<R>, id: string, handler: S -> (S, R), between: seq<Action<S, R>>,
                                     refusal: R, s': S, c': Cache<R>, answer: R, repeated: R) {
    var r := Serve(s, c, id, handler, refusal);
    && (r.state, answer) == handler(s)
    && (NewCalls(r.state, r.cache, between, refusal) < 128 ==>
          repeated == answer && (s', c') == ActAll(r.state, r.cache, between, refusal))
  }

  lemma RetriedInTurn<S, R>(s: S, c: Cache<R>, id: string, handler: S -> (S, R), first: Served<S, R>,
                            between: seq<Action<S, R>>, s1: S, c1: Cache<R>, retry: S -> (S, R), last: Served<S, R>,
                            refusal: R)
    requires Valid(c) && id != "" && id !in c.responses && first == Serve(s, c, id, handler, refusal)
    requires (s1, c1) == ActAll(first.state, first.cache, between, refusal)
    requires last == Serve(s1, c1, id, retry, refusal)
    ensures AnsweredOnce(s, c, id, handler, between, refusal, last.state, last.cache, first.response, last.response)
  {
    if NewCalls(first.state, first.cache, between, refusal) < 128 {
      RetryIsIdempotent(s, c, id, handler, between, retry, refusal);
    }
  }
}
