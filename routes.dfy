/**
 * cmd/api/routes.go: the route table with the permission each route
 * requires, and the middleware chain every request passes through before
 * the router.
 */
module Routes {
  import opened Wrappers
  import Users
  import Permissions
  import Middleware

  /** A registered route: HTTP method, path pattern, and the permission its `requirePermission` wrapper demands, if any. */
  datatype Route = Route(verb: string, pattern: string, permission: Option<string>)

  const Read: Option<string> := Some(Permissions.MoviesRead)
  const Write: Option<string> := Some(Permissions.MoviesWrite)

  /** The routes in registration order. */
  const Table: seq<Route> := [
    Route("GET", "/v1/healthcheck", None),
    Route("GET", "/v1/movies", Read),
    Route("POST", "/v1/movies", Write),
    Route("GET", "/v1/movies/:id", Read),
    Route("PATCH", "/v1/movies/:id", Write),
    Route("DELETE", "/v1/movies/:id", Write),
    Route("POST", "/v1/users", None),
    Route("PUT", "/v1/users/activated", None),
    Route("PUT", "/v1/users/password", None),
    Route("POST", "/v1/tokens/authentication", None),
    Route("POST", "/v1/tokens/password-reset", None),
    Route("POST", "/v1/tokens/activation", None),
    Route("GET", "/debug/vars", None)
  ]

  /** The first route of `routes` registered for the verb and pattern. */
  function Find(routes: seq<Route>, verb: string, pattern: string): (r: Option<Route>)
    ensures r.Some? ==> r.value in routes && r.value.verb == verb && r.value.pattern == pattern
    ensures r.None? ==> forall i :: 0 <= i < |routes| ==> !(routes[i].verb == verb && routes[i].pattern == pattern)
  {
    if routes == [] then None
    else if routes[0].verb == verb && routes[0].pattern == pattern then Some(routes[0])
    else Find(routes[1..], verb, pattern)
  }

  /** The permission a method and pattern require: `None` when no route matches, `Some(None)` for an open route. */
  function RequiredPermission(verb: string, pattern: string): (r: Option<Option<string>>)
    ensures r.Some? <==> exists i :: 0 <= i < |Table| && Table[i].verb == verb && Table[i].pattern == pattern
  {
    match Find(Table, verb, pattern)
    case None => None
    case Some(route) => Some(route.permission)
  }

  /** A route that no earlier route shadows is the one found. */
  lemma {:induction false} FindFirst(routes: seq<Route>, i: nat, verb: string, pattern: string)
    requires i < |routes| && routes[i].verb == verb && routes[i].pattern == pattern
    requires forall j :: 0 <= j < i ==> !(routes[j].verb == verb && routes[j].pattern == pattern)
    ensures Find(routes, verb, pattern) == Some(routes[i])
    decreases i
  {
    if i > 0 {
      assert !(routes[0].verb == verb && routes[0].pattern == pattern);
      FindFirst(routes[1..], i - 1, verb, pattern);
    }
  }

  /** Listing movies needs `movies:read`. */
  lemma ListMoviesRoute()
    ensures RequiredPermission("GET", "/v1/movies") == Some(Read)
  {
    assert Table[0].pattern[4] == 'h';
    FindFirst(Table, 1, "GET", "/v1/movies");
  }

  /** Showing a movie needs `movies:read`. */
  lemma ShowMovieRoute()
    ensures RequiredPermission("GET", "/v1/movies/:id") == Some(Read)
  {
    assert Table[0].pattern[4] == 'h';
    assert |Table[1].pattern| != |Table[3].pattern|;
    assert Table[2].verb[0] == 'P';
    FindFirst(Table, 3, "GET", "/v1/movies/:id");
  }

  /** Creating a movie needs `movies:write`. */
  lemma CreateMovieRoute()
    ensures RequiredPermission("POST", "/v1/movies") == Some(Write)
  {
    assert Table[0].verb[0] == 'G' && Table[1].verb[0] == 'G';
    FindFirst(Table, 2, "POST", "/v1/movies");
  }

  /** Updating a movie needs `movies:write`. */
  lemma UpdateMovieRoute()
    ensures RequiredPermission("PATCH", "/v1/movies/:id") == Some(Write)
  {
    assert Table[0].verb[0] == 'G' && Table[1].verb[0] == 'G' && Table[3].verb[0] == 'G';
    assert Table[2].verb[1] == 'O';
    FindFirst(Table, 4, "PATCH", "/v1/movies/:id");
  }

  /** Deleting a movie needs `movies:write`. */
  lemma DeleteMovieRoute()
    ensures RequiredPermission("DELETE", "/v1/movies/:id") == Some(Write)
  {
    assert Table[0].verb[0] == 'G' && Table[1].verb[0] == 'G' && Table[3].verb[0] == 'G';
    assert Table[2].verb[0] == 'P' && Table[4].verb[0] == 'P';
    FindFirst(Table, 5, "DELETE", "/v1/movies/:id");
  }

  /** Every route outside `/v1/movies` is open. */
  lemma OpenRoutes()
    ensures forall i :: 0 <= i < |Table| && Table[i].pattern != "/v1/movies" && Table[i].pattern != "/v1/movies/:id" ==>
              Table[i].permission == None
  {
  }

  /** The middleware of the chain, outermost first. */
  datatype Stage = Metrics | RecoverPanic | RateLimit | Authenticate

  /** `alice.New(metrics, recoverPanic, rateLimit, authenticate)`. */
  const Chain: seq<Stage> := [Metrics, RecoverPanic, RateLimit, Authenticate]

  /** A request as the chain sees it: the HTTP method, the route pattern its path matches, and the `Authorization` header. */
  datatype Request = Request(verb: string, pattern: string, authorization: string)

  /** How a request ends. */
  datatype Response =
    | Handled(route: Route, user: Users.UserRef)
    | NoRoute
    | Limited(decision: Middleware.RateDecision)
    | AuthFailed(outcome: Middleware.AuthOutcome)
    | Refused(gate: Middleware.GateOutcome)
    | RecoveredPanic

  /**
   * The router: an unrouted request ends there; an open route runs its
   * handler; a gated route runs `requirePermission`. A gated route reached
   * with no user in the context panics in `contextGetUser`.
   */
  function Dispatch(req: Request, user: Option<Users.UserRef>, getAllForUser: int -> Option<Permissions.Permissions>): (r: Response)
    ensures r.Handled? ==> RequiredPermission(req.verb, req.pattern) == Some(r.route.permission)
  {
    match Find(Table, req.verb, req.pattern)
    case None => NoRoute
    case Some(route) =>
      if route.permission.None? then
        Handled(route, if user.Some? then user.value else Users.Anonymous)
      else if user.None? then RecoveredPanic
      else
        var gate := Middleware.RequirePermission(route.permission.value, user.value, getAllForUser);
        if gate == Middleware.Pass then Handled(route, user.value) else Refused(gate)
  }

  /**
   * The request passing through `stages` in order and then the router.
   * `rate` is what the rate limiter decides for it (see
   * `Middleware.RateLimiter.Admit`); metrics and panic recovery only pass it on.
   */
  function Run(stages: seq<Stage>, req: Request, user: Option<Users.UserRef>, rate: Middleware.RateDecision,
               getForToken: (string, string) -> Middleware.Lookup,
               getAllForUser: int -> Option<Permissions.Permissions>): (r: Response)
    decreases |stages|
  {
    if stages == [] then Dispatch(req, user, getAllForUser)
    else
      match stages[0]
      case Metrics => Run(stages[1..], req, user, rate, getForToken, getAllForUser)
      case RecoverPanic => Run(stages[1..], req, user, rate, getForToken, getAllForUser)
      case RateLimit =>
        if rate != Middleware.Proceed then Limited(rate)
        else Run(stages[1..], req, user, rate, getForToken, getAllForUser)
      case Authenticate =>
        match Middleware.Authenticate(req.authorization, getForToken)
        case AttachUser(u) => Run(stages[1..], req, Some(u), rate, getForToken, getAllForUser)
        case other => AuthFailed(other)
  }

  /** `routes()`: the chain wrapped around the router. */
  function Serve(req: Request, rate: Middleware.RateDecision,
                 getForToken: (string, string) -> Middleware.Lookup,
                 getAllForUser: int -> Option<Permissions.Permissions>): (r: Response)
  {
    Run(Chain, req, None, rate, getForToken, getAllForUser)
  }

  /** The chain, unfolded: the rate limiter decides first, then authentication, then the router. */
  lemma ServeUnfolded(req: Request, rate: Middleware.RateDecision,
                      getForToken: (string, string) -> Middleware.Lookup,
                      getAllForUser: int -> Option<Permissions.Permissions>)
    ensures Serve(req, rate, getForToken, getAllForUser) ==
              if rate != Middleware.Proceed then Limited(rate)
              else match Middleware.Authenticate(req.authorization, getForToken)
                   case AttachUser(u) => Dispatch(req, Some(u), getAllForUser)
                   case other => AuthFailed(other)
  {
    assert Chain[1..] == [RecoverPanic, RateLimit, Authenticate];
    assert Chain[1..][1..] == [RateLimit, Authenticate];
    assert Chain[1..][1..][1..] == [Authenticate];
    assert Chain[1..][1..][1..][1..] == [];
  }

  /** A request the rate limiter stops ends there: no token lookup and no permission lookup happen. */
  lemma LimitedBeforeLookup(req: Request, rate: Middleware.RateDecision,
                            getForToken1: (string, string) -> Middleware.Lookup, getForToken2: (string, string) -> Middleware.Lookup,
                            getAllForUser1: int -> Option<Permissions.Permissions>, getAllForUser2: int -> Option<Permissions.Permissions>)
    requires rate != Middleware.Proceed
    ensures Serve(req, rate, getForToken1, getAllForUser1) == Limited(rate)
    ensures Serve(req, rate, getForToken1, getAllForUser1) == Serve(req, rate, getForToken2, getAllForUser2)
  {
    ServeUnfolded(req, rate, getForToken1, getAllForUser1);
    ServeUnfolded(req, rate, getForToken2, getAllForUser2);
  }

  /** The router always finds a user in the context: no request through the chain panics. */
  lemma NoPanic(req: Request, rate: Middleware.RateDecision,
                getForToken: (string, string) -> Middleware.Lookup,
                getAllForUser: int -> Option<Permissions.Permissions>)
    ensures Serve(req, rate, getForToken, getAllForUser) != RecoveredPanic
  {
    ServeUnfolded(req, rate, getForToken, getAllForUser);
  }

  /**
   * A gated route's handler runs only for a user who authenticated with a
   * token, whose account is activated, and whose permissions include the
   * route's code.
   */
  lemma GatedHandlerNeedsPermission(req: Request, rate: Middleware.RateDecision,
                                    getForToken: (string, string) -> Middleware.Lookup,
                                    getAllForUser: int -> Option<Permissions.Permissions>)
    requires Serve(req, rate, getForToken, getAllForUser).Handled?
    requires Serve(req, rate, getForToken, getAllForUser).route.permission.Some?
    ensures var r := Serve(req, rate, getForToken, getAllForUser);
            && rate == Middleware.Proceed
            && Middleware.Authenticate(req.authorization, getForToken) == Middleware.AttachUser(r.user)
            && !Users.IsAnonymous(r.user)
            && Users.Deref(r.user).activated
            && getAllForUser(Users.Deref(r.user).id).Some?
            && Permissions.Include(getAllForUser(Users.Deref(r.user).id).value, r.route.permission.value)
  {
    ServeUnfolded(req, rate, getForToken, getAllForUser);
  }

  /** Every movies route therefore needs an authenticated, activated user: the anonymous user is always refused. */
  lemma MoviesRefuseAnonymous(verb: string, pattern: string, rate: Middleware.RateDecision,
                              getForToken: (string, string) -> Middleware.Lookup,
                              getAllForUser: int -> Option<Permissions.Permissions>)
    requires rate == Middleware.Proceed
    requires RequiredPermission(verb, pattern).Some? && RequiredPermission(verb, pattern).value.Some?
    ensures Serve(Request(verb, pattern, ""), rate, getForToken, getAllForUser)
         == Refused(Middleware.AuthenticationRequired)
  {
    ServeUnfolded(Request(verb, pattern, ""), rate, getForToken, getAllForUser);
  }
}
