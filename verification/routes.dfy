/** Request dispatch in server.js. Express tries routes in registration order and runs the
    first whose method and path pattern match; a `:id` segment matches any non-empty path
    segment. server.js registers GET /api/users/:id before GET /api/users/count, so the
    count route is shadowed. `AsWritten` is the registration order of the source and
    `Serve` dispatches with it; `Corrected` moves the count route ahead of the `:id` route,
    and `ServeCorrected` dispatches with that order. */
module Routes {
  import opened Wrappers
  import opened Users
  import opened Ranking

  datatype Method = Get | Post | Put

  /** A path pattern segment: a literal, or a `:id` parameter. */
  datatype Segment = Lit(text: string) | Param

  datatype Handler = CreateHandler | GetUserHandler | StatsHandler | LeaderboardHandler
                   | RankHandler | ResetHandler | CountHandler | HealthHandler

  datatype Route = Route(verb: Method, pattern: seq<Segment>, handler: Handler)

  /** The handler a request reaches, with the id bound from its path. */
  datatype Endpoint =
    | CreateUserAt
    | GetUserAt(id: string)
    | StatsAt(id: string)
    | LeaderboardAt
    | RankAt(id: string)
    | ResetAt(id: string)
    | CountAt
    | HealthAt
    | NoRoute

  predicate SegmentMatches(p: Segment, s: string) {
    match p
    case Lit(text) => s == text
    case Param => |s| > 0
  }

  predicate Matches(pattern: seq<Segment>, path: seq<string>) {
    |pattern| == |path| && forall i :: 0 <= i < |path| ==> SegmentMatches(pattern[i], path[i])
  }

  /** The path segment bound to the first `:id` of the pattern ("" when it has none). */
  function ParamValue(pattern: seq<Segment>, path: seq<string>): string
    requires |pattern| == |path|
  {
    if |pattern| == 0 then ""
    else if pattern[0].Param? then path[0]
    else ParamValue(pattern[1..], path[1..])
  }

  function Bind(h: Handler, id: string): Endpoint {
    match h
    case CreateHandler => CreateUserAt
    case GetUserHandler => GetUserAt(id)
    case StatsHandler => StatsAt(id)
    case LeaderboardHandler => LeaderboardAt
    case RankHandler => RankAt(id)
    case ResetHandler => ResetAt(id)
    case CountHandler => CountAt
    case HealthHandler => HealthAt
  }

  /** The route a request reaches: the first, in registration order, that matches it. */
  function Dispatch(routes: seq<Route>, m: Method, path: seq<string>): Endpoint {
    if |routes| == 0 then NoRoute
    else if routes[0].verb == m && Matches(routes[0].pattern, path) then
      Bind(routes[0].handler, ParamValue(routes[0].pattern, path))
    else Dispatch(routes[1..], m, path)
  }

  /** `r` is the route at position `i` and it matches the request. */
  predicate RouteMatches(routes: seq<Route>, i: int, m: Method, path: seq<string>) {
    0 <= i < |routes| && routes[i].verb == m && Matches(routes[i].pattern, path)
  }

  /** Dispatch finds no route exactly when none matches, and otherwise binds the handler
      of the first matching route. */
  lemma {:induction false} DispatchFirstMatch(routes: seq<Route>, m: Method, path: seq<string>)
    ensures Dispatch(routes, m, path) == NoRoute <==>
              forall i :: 0 <= i < |routes| ==> !RouteMatches(routes, i, m, path)
    ensures Dispatch(routes, m, path) != NoRoute ==>
              exists i :: RouteMatches(routes, i, m, path)
                          && (forall j :: 0 <= j < i ==> !RouteMatches(routes, j, m, path))
                          && Dispatch(routes, m, path)
                             == Bind(routes[i].handler, ParamValue(routes[i].pattern, path))
    decreases |routes|
  {
    if |routes| > 0 && RouteMatches(routes, 0, m, path) {
      assert Dispatch(routes, m, path)
             == Bind(routes[0].handler, ParamValue(routes[0].pattern, path));
    } else if |routes| > 0 {
      var tail := routes[1..];
      assert Dispatch(routes, m, path) == Dispatch(tail, m, path);
      DispatchFirstMatch(tail, m, path);
      forall i | 1 <= i < |routes|
        ensures RouteMatches(routes, i, m, path) == RouteMatches(tail, i - 1, m, path)
      {
        assert routes[i] == tail[i - 1];
      }
      if Dispatch(routes, m, path) != NoRoute {
        var k :| RouteMatches(tail, k, m, path)
                 && (forall j :: 0 <= j < k ==> !RouteMatches(tail, j, m, path))
                 && Dispatch(tail, m, path)
                    == Bind(tail[k].handler, ParamValue(tail[k].pattern, path));
        assert routes[k + 1] == tail[k];
        assert RouteMatches(routes, k + 1, m, path);
        assert forall j :: 0 <= j < k + 1 ==> !RouteMatches(routes, j, m, path);
      } else {
        assert forall i :: 0 <= i < |routes| ==> !RouteMatches(routes, i, m, path);
      }
    }
  }

  /** A route that does not match the request can be taken out without changing where the
      request goes. */
  lemma {:induction false} DispatchSkipsNonMatching(a: seq<Route>, r: Route, b: seq<Route>,
                                                    m: Method, path: seq<string>)
    requires !(r.verb == m && Matches(r.pattern, path))
    ensures Dispatch(a + [r] + b, m, path) == Dispatch(a + b, m, path)
    decreases |a|
  {
    if |a| == 0 {
      assert a + [r] + b == [r] + b;
      assert ([r] + b)[1..] == b;
      assert a + b == b;
    } else {
      assert (a + [r] + b)[0] == a[0] && (a + b)[0] == a[0];
      assert (a + [r] + b)[1..] == a[1..] + [r] + b;
      assert (a + b)[1..] == a[1..] + b;
      DispatchSkipsNonMatching(a[1..], r, b, m, path);
    }
  }

  const CreateRoute := Route(Post, [Lit("api"), Lit("users")], CreateHandler)
  const GetUserRoute := Route(Get, [Lit("api"), Lit("users"), Param], GetUserHandler)
  const StatsRoute := Route(Put, [Lit("api"), Lit("users"), Param, Lit("stats")], StatsHandler)
  const LeaderboardRoute := Route(Get, [Lit("api"), Lit("leaderboard")], LeaderboardHandler)
  const RankRoute := Route(Get, [Lit("api"), Lit("users"), Param, Lit("rank")], RankHandler)
  const ResetRoute := Route(Put, [Lit("api"), Lit("users"), Param, Lit("reset")], ResetHandler)
  const CountRoute := Route(Get, [Lit("api"), Lit("users"), Lit("count")], CountHandler)
  const HealthRoute := Route(Get, [Lit("api"), Lit("health")], HealthHandler)

  /** The registration order of server.js. */
  const AsWritten: seq<Route> :=
    [CreateRoute, GetUserRoute, StatsRoute, LeaderboardRoute, RankRoute, ResetRoute,
     CountRoute, HealthRoute]

  /** The count route registered before the `:id` route that would shadow it. */
  const Corrected: seq<Route> :=
    [CreateRoute, CountRoute, GetUserRoute, StatsRoute, LeaderboardRoute, RankRoute,
     ResetRoute, HealthRoute]

  const CountPath: seq<string> := ["api", "users", "count"]

  /** As written, GET /api/users/count is taken by GET /api/users/:id with id "count". */
  lemma CountRouteShadowed()
    ensures Dispatch(AsWritten, Get, CountPath) == GetUserAt("count")
  {
    assert Matches(GetUserRoute.pattern, CountPath);
  }

  /** As written, no request at all reaches the count handler. */
  lemma CountHandlerUnreachable(m: Method, path: seq<string>)
    ensures Dispatch(AsWritten, m, path) != CountAt
  {
    CountPathMatchesId(path);
    if m == Get && Matches(GetUserRoute.pattern, path) {
      assert Dispatch(AsWritten, m, path) == Dispatch(AsWritten[1..], m, path);
    } else {
      var before := [CreateRoute, GetUserRoute, StatsRoute, LeaderboardRoute, RankRoute, ResetRoute];
      assert AsWritten == before + [CountRoute] + [HealthRoute];
      DispatchSkipsNonMatching(before, CountRoute, [HealthRoute], m, path);
      DispatchAvoidsCount(before + [HealthRoute], m, path);
    }
  }

  /** Routes none of which has the count handler never dispatch to it. */
  lemma {:induction false} DispatchAvoidsCount(routes: seq<Route>, m: Method, path: seq<string>)
    requires forall i :: 0 <= i < |routes| ==> routes[i].handler != CountHandler
    ensures Dispatch(routes, m, path) != CountAt
    decreases |routes|
  {
    if |routes| > 0 && !(routes[0].verb == m && Matches(routes[0].pattern, path)) {
      assert forall i :: 0 <= i < |routes| - 1 ==> routes[1..][i] == routes[i + 1];
      DispatchAvoidsCount(routes[1..], m, path);
    }
  }

  /** Every path the count pattern matches, the `:id` pattern matches too. */
  lemma CountPathMatchesId(path: seq<string>)
    ensures Matches(CountRoute.pattern, path) ==> Matches(GetUserRoute.pattern, path)
  {
    if Matches(CountRoute.pattern, path) {
      assert path == CountPath by { assert path[0] == "api" && path[1] == "users" && path[2] == "count"; }
    }
  }

  /** So the count request of a client answers 404 on any table without a user whose id
      is "count", where the count of rows was meant. */
  lemma CountRequestAnswersNotFound(t: Table)
    requires !HasId(t, "count")
    ensures Dispatch(AsWritten, Get, CountPath) == GetUserAt("count")
    ensures GetUser(t, "count", true) == Err(HttpError(404, "User not found"))
  {
    CountRouteShadowed();
  }

  /** With the corrected order the count request reaches the count handler. */
  lemma CorrectedReachesCount()
    ensures Dispatch(Corrected, Get, CountPath) == CountAt
  {
    assert Dispatch(Corrected, Get, CountPath) == Dispatch(Corrected[1..], Get, CountPath);
    assert Corrected[1..][0] == CountRoute;
    assert Matches(CountRoute.pattern, CountPath);
  }

  /** The corrected order changes the outcome of that one request and no other. */
  lemma CorrectedAgreesElsewhere(m: Method, path: seq<string>)
    requires !(m == Get && path == CountPath)
    ensures Dispatch(Corrected, m, path) == Dispatch(AsWritten, m, path)
  {
    var rest := [CreateRoute, GetUserRoute, StatsRoute, LeaderboardRoute, RankRoute, ResetRoute];
    assert AsWritten == rest + [CountRoute] + [HealthRoute];
    assert Corrected == [CreateRoute] + [CountRoute] + rest[1..] + [HealthRoute];
    assert rest + [HealthRoute] == [CreateRoute] + (rest[1..] + [HealthRoute]);
    DispatchSkipsNonMatching(rest, CountRoute, [HealthRoute], m, path);
    DispatchSkipsNonMatching([CreateRoute], CountRoute, rest[1..] + [HealthRoute], m, path);
    assert [CreateRoute] + [CountRoute] + (rest[1..] + [HealthRoute]) == Corrected;
  }

  // ---------------------------------------------------------------------------
  // Serving a request
  // ---------------------------------------------------------------------------

  /** The parts of a request the handlers read. */
  datatype Request = Request(
    verb: Method,
    path: seq<string>,
    name: Json,
    correct: Json,
    xpGained: Json,
    limit: Option<string>)

  /** What the environment supplies to one request: a fresh id, the current time, and
      whether the database read and write succeed. */
  datatype Env = Env(freshId: string, now: string, readOk: bool, writeOk: bool)

  datatype Body =
    | UserBody(user: User)
    | BoardBody(entries: seq<LeaderboardEntry>)
    | RankBody(rank: int)
    | MessageBody(message: string)
    | CountBody(count: int)
    | HealthBody(status: string, timestamp: string)

  /** A table-free reply turned into a `Reply`. */
  function Keep<T>(t: Table, r: Result<T, HttpError>): Reply<T> {
    Reply(t, r)
  }

  function MapReply<T>(r: Reply<T>, f: T -> Body): Reply<Body> {
    match r.result
    case Ok(v) => Reply(r.table, Ok(f(v)))
    case Err(e) => Reply(r.table, Err(e))
  }

  /** The endpoints that may change the table. */
  predicate Writes(e: Endpoint) {
    e.CreateUserAt? || e.StatsAt? || e.ResetAt?
  }

  /** The handlers whose endpoint may change the table. */
  predicate WritingHandler(h: Handler) {
    h == CreateHandler || h == StatsHandler || h == ResetHandler
  }

  /** Every GET route of `routes` has a handler that only reads. */
  predicate ReadOnlyGets(routes: seq<Route>) {
    |routes| == 0 || ((routes[0].verb != Get || !WritingHandler(routes[0].handler)) && ReadOnlyGets(routes[1..]))
  }

  /** When every GET route only reads, a GET dispatches to an endpoint that only reads. */
  lemma {:induction false} DispatchReadOnly(routes: seq<Route>, path: seq<string>)
    requires ReadOnlyGets(routes)
    ensures !Writes(Dispatch(routes, Get, path))
    decreases |routes|
  {
    if |routes| > 0 && !(routes[0].verb == Get && Matches(routes[0].pattern, path)) {
      DispatchReadOnly(routes[1..], path);
    }
  }

  /** Every GET route of the registration order of server.js only reads. */
  lemma AsWrittenReadOnly()
    ensures ReadOnlyGets(AsWritten)
  {
    assert ReadOnlyGets(AsWritten[8..]);
    assert ReadOnlyGets(AsWritten[7..]);
    assert ReadOnlyGets(AsWritten[6..]);
    assert ReadOnlyGets(AsWritten[5..]);
    assert ReadOnlyGets(AsWritten[4..]);
    assert ReadOnlyGets(AsWritten[3..]);
    assert ReadOnlyGets(AsWritten[2..]);
    assert ReadOnlyGets(AsWritten[1..]);
  }

  /** Every GET route of the corrected order only reads. */
  lemma CorrectedReadOnly()
    ensures ReadOnlyGets(Corrected)
  {
    assert ReadOnlyGets(Corrected[8..]);
    assert ReadOnlyGets(Corrected[7..]);
    assert ReadOnlyGets(Corrected[6..]);
    assert ReadOnlyGets(Corrected[5..]);
    assert ReadOnlyGets(Corrected[4..]);
    assert ReadOnlyGets(Corrected[3..]);
    assert ReadOnlyGets(Corrected[2..]);
    assert ReadOnlyGets(Corrected[1..]);
  }

  /** With either route order a GET never reaches a handler that writes. */
  lemma GetNeverWrites(path: seq<string>)
    ensures !Writes(Dispatch(AsWritten, Get, path))
    ensures !Writes(Dispatch(Corrected, Get, path))
  {
    AsWrittenReadOnly();
    CorrectedReadOnly();
    DispatchReadOnly(AsWritten, path);
    DispatchReadOnly(Corrected, path);
  }

  /** Runs the handler an endpoint names. */
  function ServeEndpoint(t: Table, e: Endpoint, req: Request, env: Env): (r: Reply<Body>)
    ensures !Writes(e) ==> r.table == t
    ensures r.result.Err? ==> r.table == t
    ensures e == CountAt && env.readOk ==> r.result == Ok(CountBody(|t|))
  {
    match e
    case CreateUserAt =>
      MapReply(CreateOrGetUser(t, req.name, env.freshId, env.now, env.readOk, env.writeOk),
               u => UserBody(u))
    case GetUserAt(id) => MapReply(Keep(t, GetUser(t, id, env.readOk)), u => UserBody(u))
    case StatsAt(id) =>
      MapReply(UpdateStats(t, id, req.correct, req.xpGained, env.now, env.readOk, env.writeOk),
               u => UserBody(u))
    case LeaderboardAt =>
      MapReply(Keep(t, Leaderboard(t, req.limit, env.readOk)), b => BoardBody(b))
    case RankAt(id) => MapReply(Keep(t, UserRank(t, id, env.readOk)), n => RankBody(n))
    case ResetAt(id) => MapReply(ResetUser(t, id, env.now, env.writeOk), m => MessageBody(m))
    case CountAt => MapReply(Keep(t, CountUsers(t, env.readOk)), n => CountBody(n))
    case HealthAt => Reply(t, Ok(HealthBody("OK", env.now)))
    case NoRoute => Reply(t, Err(HttpError(404, "Cannot serve this path")))
  }

  /** One request against the table as server.js serves it: dispatched with the
      registration order of the source. A request no route matches is answered 404 by the
      framework. The count request reaches the user lookup with id "count". */
  function Serve(t: Table, req: Request, env: Env): (r: Reply<Body>)
    ensures req.verb == Get ==> r.table == t
    ensures r.result.Err? ==> r.table == t
    ensures req.verb == Get && req.path == CountPath && env.readOk && !HasId(t, "count") ==>
              r.result == Err(HttpError(404, "User not found"))
    ensures req.verb == Get && req.path == CountPath && env.readOk && HasId(t, "count") ==>
              r.result.Ok? && r.result.value.UserBody?
              && r.result.value.user in t && r.result.value.user.id == "count"
  {
    GetNeverWrites(req.path);
    CountRouteShadowed();
    ServeEndpoint(t, Dispatch(AsWritten, req.verb, req.path), req, env)
  }

  /** The same server with the count route registered before the `:id` route: the count
      request answers the number of rows. */
  function ServeCorrected(t: Table, req: Request, env: Env): (r: Reply<Body>)
    ensures req.verb == Get ==> r.table == t
    ensures r.result.Err? ==> r.table == t
    ensures req.verb == Get && req.path == CountPath && env.readOk ==>
              r.result == Ok(CountBody(|t|))
  {
    GetNeverWrites(req.path);
    CorrectedReachesCount();
    ServeEndpoint(t, Dispatch(Corrected, req.verb, req.path), req, env)
  }

  /** The two servers answer every request other than the count request alike. */
  lemma ServeCorrectedAgreesElsewhere(t: Table, req: Request, env: Env)
    requires !(req.verb == Get && req.path == CountPath)
    ensures ServeCorrected(t, req, env) == Serve(t, req, env)
  {
    CorrectedAgreesElsewhere(req.verb, req.path);
  }

  /** Whatever endpoint a request reaches, the table invariants survive it. */
  lemma EndpointPreservesInvariants(t: Table, e: Endpoint, req: Request, env: Env)
    requires ValidTable(t) && DistinctNames(t)
    ensures ValidTable(ServeEndpoint(t, e, req, env).table)
    ensures DistinctNames(ServeEndpoint(t, e, req, env).table)
  {
    match e
    case CreateUserAt =>
      CreateOrGetPreservesInvariants(t, req.name, env.freshId, env.now, env.readOk, env.writeOk);
    case StatsAt(id) =>
      UpdateStatsPreservesInvariants(t, id, req.correct, req.xpGained, env.now, env.readOk, env.writeOk);
    case ResetAt(id) =>
      ResetPreservesInvariants(t, id, env.now, env.writeOk);
    case _ =>
  }

  /** Every request keeps the table invariants, with either route order: ids stay unique,
      names stay distinct under LOWER, counters stay consistent and accuracy stays fresh. */
  lemma ServePreservesInvariants(t: Table, req: Request, env: Env)
    requires ValidTable(t) && DistinctNames(t)
    ensures ValidTable(Serve(t, req, env).table) && DistinctNames(Serve(t, req, env).table)
    ensures ValidTable(ServeCorrected(t, req, env).table)
            && DistinctNames(ServeCorrected(t, req, env).table)
  {
    EndpointPreservesInvariants(t, Dispatch(AsWritten, req.verb, req.path), req, env);
    EndpointPreservesInvariants(t, Dispatch(Corrected, req.verb, req.path), req, env);
  }
}
