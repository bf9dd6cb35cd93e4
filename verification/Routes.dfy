/**
Route registration and sealing. The script registers routes and hooks in every interpreter;
when the server starts, main's table is sealed, and what is registered later exists on main
only. A worker is handed a route by its index, so the index must name the same route there.

The radix router of each method is a map from inserted paths to route ids, with two
operations left open: whether it accepts one more path, and which id a request path matches.
*/
module Routes {
  import opened Common
  import RouteTemplate

  type Router = map<string, nat>

  /** The router library: any behaviour that only ever answers with an inserted id. */
  datatype Matcher = Matcher(accepts: (Router, string) -> bool, at: (Router, string) -> Option<nat>) {
    ghost predicate Lawful() {
      forall router: Router, path: string :: at(router, path).Some? ==> at(router, path).value in router.Values
    }
  }

  datatype HandlerKind = Sync | Async

  datatype RequestBody = Buffered | Streamed

  datatype Dispatch = Worker(kind: HandlerKind) | Main(body: RequestBody)

  datatype Route = Route(handler: int, verb: string, path: string, dispatch: Dispatch)

  datatype Sealed = Sealed(routes: nat, beforeHooks: nat, afterHooks: nat)

  datatype Table = Table(
    routes: seq<Route>,
    routers: map<string, Router>,
    fallback: Option<int>,
    beforeHooks: seq<int>,
    afterHooks: seq<int>,
    prebuilt: map<string, set<string>>,
    sealed: Option<Sealed>)

  const EMPTY := Table([], map[], None, [], [], map[], None)

  datatype Refusal = BadTemplate | Conflict | StreamOffMain | StreamAsync | RegistrationSealed

  // ---------------------------------------------------------------------------
  // Registration
  // ---------------------------------------------------------------------------

  function UpperChar(c: char): char { if 'a' <= c <= 'z' then c - 32 as char else c }

  function Upper(verb: string): string {
    seq(|verb|, i requires 0 <= i < |verb| => UpperChar(verb[i]))
  }

  /** The small letters become the capitals, the `k`-th the `k`-th, and nothing else changes. */
  lemma UpperIs(c: char, k: nat)
    ensures k < 26 && c as int == 'a' as int + k ==> UpperChar(c) as int == 'A' as int + k
    ensures c < 'a' || c > 'z' ==> UpperChar(c) == c
  {
  }

  /** `RouteTable::insert`: the fallible part first; a rejected path may leave an empty router behind. */
  function Inserted(m: Matcher, t: Table, verb: string, path: string, handler: int, dispatch: Dispatch)
    : (Table, Result<(), Refusal>)
  {
    var key := Upper(verb);
    if RouteTemplate.Params(path).Err? then (t, Err(BadTemplate))
    else
      var router := if key in t.routers then t.routers[key] else map[];
      if !m.accepts(router, path) then (t.(routers := t.routers[key := router]), Err(Conflict))
      else
        (t.(routers := t.routers[key := router[path := |t.routes|]],
            routes := t.routes + [Route(handler, key, path, dispatch)]), Ok(()))
  }

  function RouteDispatch(gil: bool, stream: bool, isAsync: bool): Result<Dispatch, Refusal> {
    if stream && isAsync then Err(StreamAsync)
    else if stream && !gil then Err(StreamOffMain)
    else if gil then Ok(Main(if stream then Streamed else Buffered))
    else Ok(Worker(if isAsync then Async else Sync))
  }

  /** One registration, as the script or a startup hook makes it. */
  datatype Op =
    | AddRoute(verb: string, path: string, handler: int, gil: bool, stream: bool, isAsync: bool)
    | BeforeRequest(hook: int)
    | AfterRequest(hook: int)
    | SetFallback(handler: int)
    | AddPrebuilt(verb: string, path: string)
    | Seal

  function SealOf(t: Table): Sealed { Sealed(|t.routes|, |t.beforeHooks|, |t.afterHooks|) }

  function Registered(m: Matcher, t: Table, op: Op): (Table, Result<(), Refusal>) {
    match op
    case AddRoute(verb, path, handler, gil, stream, isAsync) =>
      (match RouteDispatch(gil, stream, isAsync)
       case Err(e) => (t, Err(e))
       case Ok(dispatch) =>
         if t.sealed.Some? && !gil then (t, Err(RegistrationSealed))
         else Inserted(m, t, verb, path, handler, dispatch))
    case BeforeRequest(hook) =>
      if t.sealed.Some? then (t, Err(RegistrationSealed)) else (t.(beforeHooks := t.beforeHooks + [hook]), Ok(()))
    case AfterRequest(hook) =>
      if t.sealed.Some? then (t, Err(RegistrationSealed)) else (t.(afterHooks := t.afterHooks + [hook]), Ok(()))
    case SetFallback(handler) =>
      if t.sealed.Some? then (t, Err(RegistrationSealed)) else (t.(fallback := Some(handler)), Ok(()))
    case AddPrebuilt(verb, path) =>
      var paths := if verb in t.prebuilt then t.prebuilt[verb] else {};
      (t.(prebuilt := t.prebuilt[verb := paths + {path}]), Ok(()))
    case Seal => (if t.sealed.Some? then t else t.(sealed := Some(SealOf(t))), Ok(()))
  }

  function AfterAll(m: Matcher, t: Table, ops: seq<Op>): Table
    decreases |ops|
  {
    if ops == [] then t else AfterAll(m, Registered(m, t, ops[0]).0, ops[1..])
  }

  /** The table as the app holds it, each registration updating it in place. */
  class App {
    const m: Matcher
    var routes: seq<Route>
    var routers: map<string, Router>
    var fallback: Option<int>
    var beforeHooks: seq<int>
    var afterHooks: seq<int>
    var prebuilt: map<string, set<string>>
    var sealed: Option<Sealed>

    function View(): Table
      reads this
    {
      Table(routes, routers, fallback, beforeHooks, afterHooks, prebuilt, sealed)
    }

    constructor (m: Matcher)
      ensures this.m == m && View() == EMPTY
    {
      this.m := m;
      routes, routers, fallback := [], map[], None;
      beforeHooks, afterHooks, prebuilt, sealed := [], [], map[], None;
    }

    method Insert(verb: string, path: string, handler: int, dispatch: Dispatch) returns (r: Result<(), Refusal>)
      modifies this
      ensures (View(), r) == Inserted(m, old(View()), verb, path, handler, dispatch)
    {
      var id := |routes|;
      var key := Upper(verb);
      var params := RouteTemplate.TemplateParams(path);
      if params.Err? {
        return Err(BadTemplate);
      }
      var router: Router := if key in routers then routers[key] else map[];
      routers := routers[key := router];
      if !m.accepts(router, path) {
        return Err(Conflict);
      }
      assert old(routers)[key := router][key := router[path := id]] == old(routers)[key := router[path := id]];
      routers := routers[key := router[path := id]];
      routes := routes + [Route(handler, key, path, dispatch)];
      return Ok(());
    }

    method Register(op: Op) returns (r: Result<(), Refusal>)
      modifies this
      ensures (View(), r) == Registered(m, old(View()), op)
    {
      match op {
        case AddRoute(verb, path, handler, gil, stream, isAsync) =>
          var dispatch := RouteDispatch(gil, stream, isAsync);
          if dispatch.Err? { return Err(dispatch.error); }
          if sealed.Some? && !gil { return Err(RegistrationSealed); }
          r := Insert(verb, path, handler, dispatch.value);
        case BeforeRequest(hook) =>
          if sealed.Some? { return Err(RegistrationSealed); }
          beforeHooks := beforeHooks + [hook];
          r := Ok(());
        case AfterRequest(hook) =>
          if sealed.Some? { return Err(RegistrationSealed); }
          afterHooks := afterHooks + [hook];
          r := Ok(());
        case SetFallback(handler) =>
          if sealed.Some? { return Err(RegistrationSealed); }
          fallback := Some(handler);
          r := Ok(());
        case AddPrebuilt(verb, path) =>
          var paths := if verb in prebuilt then prebuilt[verb] else {};
          prebuilt := prebuilt[verb := paths + {path}];
          r := Ok(());
        case Seal =>
          if sealed.None? {
            sealed := Some(Sealed(|routes|, |beforeHooks|, |afterHooks|));
          }
          r := Ok(());
      }
    }
  }

  // ---------------------------------------------------------------------------
  // Resolving a request
  // ---------------------------------------------------------------------------

  datatype Call = OnWorker(id: nat, kind: HandlerKind) | OnMain(id: nat, body: RequestBody)

  function Lookup(m: Matcher, t: Table, verb: string, path: string): Option<nat> {
    var key := if exists i :: 0 <= i < |verb| && 'a' <= verb[i] <= 'z' then Upper(verb) else verb;
    if key in t.routers then m.at(t.routers[key], path) else None
  }

  /** A `HEAD` with no route of its own runs the `GET` route. */
  function Matched(m: Matcher, t: Table, verb: string, path: string): Option<nat> {
    var own := Lookup(m, t, verb, path);
    if own.None? && Upper(verb) == "HEAD" then Lookup(m, t, "GET", path) else own
  }

  function Resolve(m: Matcher, t: Table, verb: string, path: string): Option<Call>
    requires m.Lawful() && IdsInRange(t)
  {
    match Matched(m, t, verb, path)
    case None => None
    case Some(id) =>
      MatchedInRange(m, t, verb, path);
      match t.routes[id].dispatch
      case Worker(kind) => Some(OnWorker(id, kind))
      case Main(body) => Some(OnMain(id, body))
  }

  /** The methods of the `Allow` answer for `path`, `HEAD` wherever `GET` is. */
  function Allowed(m: Matcher, t: Table, path: string): set<string> {
    var methods := (set k | k in t.routers && m.at(t.routers[k], path).Some?)
                 + (set k | k in t.prebuilt && path in t.prebuilt[k]);
    if "GET" in methods then methods + {"HEAD"} else methods
  }

  // ---------------------------------------------------------------------------
  // Invariants
  // ---------------------------------------------------------------------------

  /** Every id in a router is a route, registered under that method and path. */
  ghost predicate IdsInRange(t: Table) {
    forall k, path :: k in t.routers && path in t.routers[k] ==>
      t.routers[k][path] < |t.routes|
      && t.routes[t.routers[k][path]].verb == k && t.routes[t.routers[k][path]].path == path
  }

  /** The sealed part is a part of the table, holds every hook, and every worker route. */
  ghost predicate SealHolds(t: Table) {
    t.sealed.Some? ==>
      && t.sealed.value.routes <= |t.routes|
      && t.sealed.value.beforeHooks == |t.beforeHooks|
      && t.sealed.value.afterHooks == |t.afterHooks|
      && forall i :: t.sealed.value.routes <= i < |t.routes| ==> t.routes[i].dispatch.Main?
  }

  ghost predicate Inv(t: Table) { IdsInRange(t) && SealHolds(t) }

  /** One router's answer is a route registered for its method. */
  lemma {:induction false} AnswerIsRegistered(m: Matcher, t: Table, key: string, path: string)
    requires m.Lawful() && IdsInRange(t) && key in t.routers && m.at(t.routers[key], path).Some?
    ensures m.at(t.routers[key], path).value < |t.routes|
    ensures t.routes[m.at(t.routers[key], path).value].verb == key
  {
    var id := m.at(t.routers[key], path).value;
    assert id in t.routers[key].Values;
    var p :| p in t.routers[key] && t.routers[key][p] == id;
  }

  lemma {:induction false} LookupIsRegistered(m: Matcher, t: Table, verb: string, path: string)
    requires m.Lawful() && IdsInRange(t) && Lookup(m, t, verb, path).Some?
    ensures Lookup(m, t, verb, path).value < |t.routes|
    ensures t.routes[Lookup(m, t, verb, path).value].verb == Upper(verb)
  {
    if !exists i :: 0 <= i < |verb| && 'a' <= verb[i] <= 'z' {
      assert Upper(verb) == verb;
      AnswerIsRegistered(m, t, verb, path);
    } else {
      AnswerIsRegistered(m, t, Upper(verb), path);
    }
  }

  /** A request only ever reaches a route of its own method, in any case, or for `HEAD` a `GET` route. */
  lemma {:induction false} MatchedInRange(m: Matcher, t: Table, verb: string, path: string)
    requires m.Lawful() && IdsInRange(t) && Matched(m, t, verb, path).Some?
    ensures Matched(m, t, verb, path).value < |t.routes|
    ensures var found := t.routes[Matched(m, t, verb, path).value].verb;
      found == Upper(verb) || (Upper(verb) == "HEAD" && found == Upper("GET"))
  {
    if Lookup(m, t, verb, path).Some? {
      LookupIsRegistered(m, t, verb, path);
    } else {
      LookupIsRegistered(m, t, "GET", path);
    }
  }

  lemma {:induction false} InsertKeepsInv(
    m: Matcher, t: Table, verb: string, path: string, handler: int, dispatch: Dispatch)
    requires Inv(t) && (t.sealed.Some? ==> dispatch.Main?)
    ensures Inv(Inserted(m, t, verb, path, handler, dispatch).0)
  {
    var t' := Inserted(m, t, verb, path, handler, dispatch).0;
    var key := Upper(verb);
    forall k, p | k in t'.routers && p in t'.routers[k]
      ensures t'.routers[k][p] < |t'.routes|
      ensures t'.routes[t'.routers[k][p]].verb == k && t'.routes[t'.routers[k][p]].path == p
    {
      if k == key && p == path && Inserted(m, t, verb, path, handler, dispatch).1.Ok? {
      } else {
        assert k in t.routers && p in t.routers[k];
      }
    }
  }

  lemma {:induction false} RegisterKeepsInv(m: Matcher, t: Table, op: Op)
    requires Inv(t)
    ensures Inv(Registered(m, t, op).0)
  {
    if op.AddRoute? {
      var dispatch := RouteDispatch(op.gil, op.stream, op.isAsync);
      if dispatch.Ok? && (t.sealed.None? || op.gil) {
        InsertKeepsInv(m, t, op.verb, op.path, op.handler, dispatch.value);
      }
    }
  }

  /** At every point of every registration run, before and after the seal. */
  lemma {:induction false} EveryRunKeepsInv(m: Matcher, t: Table, ops: seq<Op>)
    requires Inv(t)
    ensures Inv(AfterAll(m, t, ops))
    decreases |ops|
  {
    if ops != [] {
      RegisterKeepsInv(m, t, ops[0]);
      EveryRunKeepsInv(m, Registered(m, t, ops[0]).0, ops[1..]);
    }
  }

  // ---------------------------------------------------------------------------
  // The seal
  // ---------------------------------------------------------------------------

  datatype SignedRoute = SignedRoute(verb: string, path: string, gil: bool)

  datatype Signature = Signature(routes: seq<SignedRoute>, beforeHooks: nat, afterHooks: nat)

  function Sign(route: Route): SignedRoute { SignedRoute(route.verb, route.path, route.dispatch.Main?) }

  /** `RouteSignature::of`: the table up to its seal, or all of it. */
  function SignatureOf(t: Table): Signature
    requires t.sealed.Some? ==> t.sealed.value.routes <= |t.routes|
  {
    var sealed := if t.sealed.Some? then t.sealed.value else SealOf(t);
    Signature(seq(sealed.routes, i requires 0 <= i < sealed.routes => Sign(t.routes[i])),
              sealed.beforeHooks, sealed.afterHooks)
  }

  lemma {:induction false} SealedStepKeeps(m: Matcher, t: Table, op: Op)
    requires Inv(t) && t.sealed.Some?
    ensures var t' := Registered(m, t, op).0;
      && t'.sealed == t.sealed && t.routes <= t'.routes && t'.fallback == t.fallback
      && t'.beforeHooks == t.beforeHooks && t'.afterHooks == t.afterHooks
  {
  }

  /** After the seal, whatever is registered: hooks, fallback and signature stay, routes are only added. */
  lemma {:induction false} SealFreezes(m: Matcher, t: Table, ops: seq<Op>)
    requires Inv(t) && t.sealed.Some?
    ensures var t' := AfterAll(m, t, ops);
      && Inv(t') && t'.sealed == t.sealed && t.routes <= t'.routes && t'.fallback == t.fallback
      && t'.beforeHooks == t.beforeHooks && t'.afterHooks == t.afterHooks
      && SignatureOf(t') == SignatureOf(t)
    decreases |ops|
  {
    if ops != [] {
      var next := Registered(m, t, ops[0]).0;
      RegisterKeepsInv(m, t, ops[0]);
      SealedStepKeeps(m, t, ops[0]);
      SealFreezes(m, next, ops[1..]);
    }
    SameSignature(t, AfterAll(m, t, ops));
  }

  lemma {:induction false} SameSignature(t: Table, t': Table)
    requires t.sealed.Some? && t'.sealed == t.sealed && t.sealed.value.routes <= |t.routes| && t.routes <= t'.routes
    ensures SignatureOf(t') == SignatureOf(t)
  {
    assert forall i :: 0 <= i < |t.routes| ==> t'.routes[i] == t.routes[i];
    assert SignatureOf(t').routes == SignatureOf(t).routes;
  }

  /**
  Workers can run what main hands them. `ops` is any registration run that sealed main's
  table, `worker` any table whose signature is main's. A request main matches names one of
  main's routes; if that is a worker route, then it is from before the seal, and the same
  index names, in the worker's table, a route for the same method and path that is a worker
  route there too, with as many hooks around it.
  */
  lemma {:induction false} WorkersKnowEveryWorkerCall(
    m: Matcher, ops: seq<Op>, main: Table, worker: Table, verb: string, path: string)
    requires m.Lawful() && main == AfterAll(m, EMPTY, ops) && main.sealed.Some?
    requires worker.sealed.None? && SealHolds(main) && SignatureOf(worker) == SignatureOf(main)
    requires Matched(m, main, verb, path).Some?
    ensures Inv(main) && Matched(m, main, verb, path).value < |main.routes|
    ensures var id := Matched(m, main, verb, path).value;
      main.routes[id].dispatch.Worker? ==>
        && Resolve(m, main, verb, path) == Some(OnWorker(id, main.routes[id].dispatch.kind))
        && id < main.sealed.value.routes && id < |worker.routes|
        && worker.routes[id].verb == main.routes[id].verb
        && worker.routes[id].path == main.routes[id].path
        && worker.routes[id].dispatch.Worker?
        && |worker.beforeHooks| == |main.beforeHooks| && |worker.afterHooks| == |main.afterHooks|
  {
    EveryTableIsSound(m, ops);
    MatchedInRange(m, main, verb, path);
    var id := Matched(m, main, verb, path).value;
    if main.routes[id].dispatch.Worker? {
      assert SignatureOf(main).routes[id] == Sign(main.routes[id]);
      assert SignatureOf(worker).routes[id] == Sign(worker.routes[id]);
    }
  }

  /** Every table a script can build keeps the invariant; `SealHolds` above is no restriction. */
  lemma {:induction false} EveryTableIsSound(m: Matcher, ops: seq<Op>)
    ensures Inv(AfterAll(m, EMPTY, ops))
  {
    EveryRunKeepsInv(m, EMPTY, ops);
  }

  /** The registrations among `ops` that added a route, in order. */
  function Accepted(m: Matcher, t: Table, ops: seq<Op>): (r: seq<Op>)
    ensures forall i :: 0 <= i < |r| ==> r[i].AddRoute?
    decreases |ops|
  {
    if ops == [] then []
    else
      var (next, result) := Registered(m, t, ops[0]);
      (if ops[0].AddRoute? && result.Ok? then [ops[0]] else []) + Accepted(m, next, ops[1..])
  }

  /** `route` is what registering `op` adds. */
  predicate IsRouteOf(route: Route, op: Op) {
    && op.AddRoute? && route.handler == op.handler && route.verb == Upper(op.verb) && route.path == op.path
    && (route.dispatch.Main? <==> op.gil)
    && (route.dispatch.Main? ==> (route.dispatch.body.Streamed? <==> op.stream))
    && (route.dispatch.Worker? ==> !op.stream && (route.dispatch.kind.Async? <==> op.isAsync))
  }

  /** `routes` are those of `base`, then one for each of `accepted`, in order. */
  ghost predicate AreRoutesOf(routes: seq<Route>, base: seq<Route>, accepted: seq<Op>) {
    && base <= routes && |routes| == |base| + |accepted|
    && forall i :: 0 <= i < |accepted| ==> IsRouteOf(routes[|base| + i], accepted[i])
  }

  lemma {:induction false} OneRouteMore(
    routes: seq<Route>, base: seq<Route>, route: Route, op: Op, accepted: seq<Op>)
    requires AreRoutesOf(routes, base + [route], accepted) && IsRouteOf(route, op)
    ensures AreRoutesOf(routes, base, [op] + accepted)
  {
    assert routes[|base|] == (base + [route])[|base|];
    assert base <= base + [route];
  }

  /**
  A registration is accepted exactly if: a route, when it does not stream off main or with
  `async def`, runs on main or comes before the seal, and has a path the template check and
  its method's router accept; a hook or the fallback, before the seal; anything else always.
  */
  lemma {:induction false} AcceptedIff(m: Matcher, t: Table, op: Op)
    ensures Registered(m, t, op).1.Ok? <==>
      match op
      case AddRoute(verb, path, _, gil, stream, isAsync) =>
        && (stream ==> gil && !isAsync)
        && (gil || t.sealed.None?)
        && RouteTemplate.Params(path).Ok?
        && m.accepts(if Upper(verb) in t.routers then t.routers[Upper(verb)] else map[], path)
      case BeforeRequest(_) => t.sealed.None?
      case AfterRequest(_) => t.sealed.None?
      case SetFallback(_) => t.sealed.None?
      case AddPrebuilt(_, _) => true
      case Seal => true
  {
  }

  /** A refusal gives the first reason there is. */
  lemma {:induction false} RefusalIs(m: Matcher, t: Table, op: Op)
    requires Registered(m, t, op).1.Err?
    ensures var refusal := Registered(m, t, op).1.error;
      if !op.AddRoute? then refusal == RegistrationSealed
      else if op.stream && op.isAsync then refusal == StreamAsync
      else if op.stream && !op.gil then refusal == StreamOffMain
      else if t.sealed.Some? && !op.gil then refusal == RegistrationSealed
      else refusal == if RouteTemplate.Params(op.path).Err? then BadTemplate else Conflict
  {
  }

  /** A request resolves to the route it matches: on a worker or on main, in the way that route was registered. */
  lemma {:induction false} ResolvesAsRegistered(m: Matcher, ops: seq<Op>, verb: string, path: string)
    requires m.Lawful()
    ensures var t, accepted := AfterAll(m, EMPTY, ops), Accepted(m, EMPTY, ops);
      && Inv(t) && |accepted| == |t.routes|
      && match Matched(m, t, verb, path)
         case None => Resolve(m, t, verb, path).None?
         case Some(id) =>
           id < |accepted| &&
           Resolve(m, t, verb, path) == Some(
             if accepted[id].gil then OnMain(id, if accepted[id].stream then Streamed else Buffered)
             else OnWorker(id, if accepted[id].isAsync then Async else Sync))
  {
    var t := AfterAll(m, EMPTY, ops);
    EveryTableIsSound(m, ops);
    RoutesAreAccepted(m, EMPTY, ops);
    if Matched(m, t, verb, path).Some? {
      MatchedInRange(m, t, verb, path);
      var id := Matched(m, t, verb, path).value;
      assert IsRouteOf(t.routes[|EMPTY.routes| + id], Accepted(m, EMPTY, ops)[id]);
    }
  }

  /** A registration adds one route if it is an accepted route, and none otherwise. */
  lemma {:induction false} RegisterAdds(m: Matcher, t: Table, op: Op)
    ensures var next := Registered(m, t, op).0;
      if op.AddRoute? && Registered(m, t, op).1.Ok? then
        next.routes != [] && next.routes == t.routes + [next.routes[|next.routes| - 1]]
        && IsRouteOf(next.routes[|next.routes| - 1], op)
      else next.routes == t.routes
  {
  }

  /** A table's routes are its accepted registrations, one for one and in order. */
  lemma {:induction false} RoutesAreAccepted(m: Matcher, t: Table, ops: seq<Op>)
    ensures AreRoutesOf(AfterAll(m, t, ops).routes, t.routes, Accepted(m, t, ops))
    decreases |ops|
  {
    if ops != [] {
      var next, rest := Registered(m, t, ops[0]).0, ops[1..];
      RegisterAdds(m, t, ops[0]);
      RoutesAreAccepted(m, next, rest);
      if ops[0].AddRoute? && Registered(m, t, ops[0]).1.Ok? {
        var route := next.routes[|next.routes| - 1];
        OneRouteMore(AfterAll(m, t, ops).routes, t.routes, route, ops[0], Accepted(m, next, rest));
      } else {
        assert [] + Accepted(m, next, rest) == Accepted(m, next, rest);
      }
    }
  }

  /** A route of a signature that runs on workers is of the kind its registration asked for. */
  lemma {:induction false} KindIsRegistered(m: Matcher, ops: seq<Op>, t: Table, id: nat)
    requires t == AfterAll(m, EMPTY, ops) && SealHolds(t)
    requires id < |SignatureOf(t).routes| && !SignatureOf(t).routes[id].gil
    ensures |Accepted(m, EMPTY, ops)| == |t.routes| > id
    ensures t.routes[id].dispatch == Worker(if Accepted(m, EMPTY, ops)[id].isAsync then Async else Sync)
  {
    RoutesAreAccepted(m, EMPTY, ops);
    assert SignatureOf(t).routes[id] == Sign(t.routes[id]);
    assert IsRouteOf(t.routes[|EMPTY.routes| + id], Accepted(m, EMPTY, ops)[id]);
  }

  /**
  The signature says whether a route runs on main, not whether its handler is `async def`.
  So in two tables of one signature a worker route is of the same kind, and is called in the
  same way, exactly if the registrations that added it there agree on that.
  */
  lemma {:induction false} KindAgreesIff(
    m: Matcher, ops: seq<Op>, main: Table, m': Matcher, ops': seq<Op>, worker: Table, id: nat)
    requires main == AfterAll(m, EMPTY, ops) && worker == AfterAll(m', EMPTY, ops')
    requires SealHolds(main) && SealHolds(worker) && SignatureOf(worker) == SignatureOf(main)
    requires id < |SignatureOf(main).routes| && !SignatureOf(main).routes[id].gil
    ensures |Accepted(m, EMPTY, ops)| == |main.routes| > id && |Accepted(m', EMPTY, ops')| == |worker.routes| > id
    ensures main.routes[id].dispatch == worker.routes[id].dispatch
       <==> Accepted(m, EMPTY, ops)[id].isAsync == Accepted(m', EMPTY, ops')[id].isAsync
  {
    KindIsRegistered(m, ops, main, id);
    KindIsRegistered(m', ops', worker, id);
  }

  lemma {:induction false} AfterOne(m: Matcher, t: Table, op: Op)
    ensures AfterAll(m, t, [op]) == Registered(m, t, op).0
  {
    assert [op][1..] == [];
    assert AfterAll(m, Registered(m, t, op).0, []) == Registered(m, t, op).0;
  }

  /**
  And they can disagree: for any router and any path both the router and the template check
  accept, a script that registers it as `def` and one that registers it as `async def` build
  tables of one signature whose route has two kinds.
  */
  lemma {:induction false} SignatureLeavesKindOpen(m: Matcher, verb: string, path: string, handler: int)
    requires m.accepts(map[], path) && RouteTemplate.Params(path).Ok?
    ensures var sync := AfterAll(m, EMPTY, [AddRoute(verb, path, handler, false, false, false)]);
      var async := AfterAll(m, EMPTY, [AddRoute(verb, path, handler, false, false, true)]);
      && sync.sealed.None? && async.sealed.None? && SignatureOf(sync) == SignatureOf(async)
      && sync.routes == [Route(handler, Upper(verb), path, Worker(Sync))]
      && async.routes == [Route(handler, Upper(verb), path, Worker(Async))]
  {
    var op := AddRoute(verb, path, handler, false, false, false);
    AfterOne(m, EMPTY, op);
    AfterOne(m, EMPTY, op.(isAsync := true));
    var sync, async := Registered(m, EMPTY, op).0, Registered(m, EMPTY, op.(isAsync := true)).0;
    assert SignatureOf(sync).routes == SignatureOf(async).routes;
  }

  predicate IsPrebuilt(t: Table, verb: string, path: string) { verb in t.prebuilt && path in t.prebuilt[verb] }

  lemma {:induction false} UpperLooksUp(m: Matcher, t: Table, verb: string, path: string)
    requires Upper(verb) == verb
    ensures Lookup(m, t, verb, path).Some? <==> verb in t.routers && m.at(t.routers[verb], path).Some?
  {
    forall i | 0 <= i < |verb| ensures !('a' <= verb[i] <= 'z') {
      assert Upper(verb)[i] == UpperChar(verb[i]);
    }
  }

  /**
  `Allow` lists exactly the methods a request for the path would be answered with: those that
  match a route, `HEAD` wherever `GET` does, and those with a prebuilt response.
  */
  lemma {:induction false} AllowedIffAnswered(m: Matcher, t: Table, path: string, verb: string)
    requires Upper(verb) == verb
    ensures verb in Allowed(m, t, path) <==>
      || Matched(m, t, verb, path).Some? || IsPrebuilt(t, verb, path)
      || (verb == "HEAD" && IsPrebuilt(t, "GET", path))
  {
    UpperLooksUp(m, t, verb, path);
    if verb == "HEAD" {
      assert Upper("GET") == "GET";
      UpperLooksUp(m, t, "GET", path);
    }
  }

  /** A rejected registration leaves the table as it was, or with one empty router more. */
  lemma {:induction false} RejectionLeaves(m: Matcher, t: Table, op: Op)
    requires Registered(m, t, op).1.Err?
    ensures Registered(m, t, op).0 == t
         || (op.AddRoute? && Upper(op.verb) !in t.routers
             && Registered(m, t, op).0 == t.(routers := t.routers[Upper(op.verb) := map[]]))
  {
    if op.AddRoute? && Upper(op.verb) in t.routers {
      assert t.routers[Upper(op.verb) := t.routers[Upper(op.verb)]] == t.routers;
    }
  }

  /** An empty router answers nothing. */
  lemma {:induction false} EmptyRouterIsSilent(m: Matcher, t: Table, key: string, verb: string, path: string)
    requires m.Lawful() && key !in t.routers
    ensures var t' := t.(routers := t.routers[key := map[]]);
      Matched(m, t', verb, path) == Matched(m, t, verb, path) && Allowed(m, t', path) == Allowed(m, t, path)
  {
    var t' := t.(routers := t.routers[key := map[]]);
    var none: Router := map[];
    assert none.Values == {};
    assert m.at(none, path).None?;
    assert (set k | k in t'.routers && m.at(t'.routers[k], path).Some?)
        == (set k | k in t.routers && m.at(t.routers[k], path).Some?);
  }

  /** A rejected registration changes no route, no answer to any request, and no `Allow`. */
  lemma {:induction false} RejectionChangesNoAnswer(m: Matcher, t: Table, op: Op, verb: string, path: string)
    requires m.Lawful() && Registered(m, t, op).1.Err?
    ensures var t' := Registered(m, t, op).0;
      && t'.routes == t.routes
      && Matched(m, t', verb, path) == Matched(m, t, verb, path)
      && Allowed(m, t', path) == Allowed(m, t, path)
  {
    RejectionLeaves(m, t, op);
    if Registered(m, t, op).0 != t {
      EmptyRouterIsSilent(m, t, Upper(op.verb), verb, path);
    }
  }
}
