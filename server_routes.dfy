/** The server route tables of `server/src/routes/violationRoutes.js` and
    `server/src/routes/analyticsRoutes.js`: each route is an ordered chain of
    middleware (`protect`, then optionally `checkRole` with a fixed role
    list) in front of a controller. Paths are given as the segments after
    the router's mount point (`/api/violations`, `/api/analytics`). */
module ServerRoutes {
  import opened Common
  import opened Identity
  import Auth

  datatype Verb = Get | Post | Put | Patch | Delete

  datatype Handler =
    | GetViolationTypes | GetAreas | CreateViolation | GetViolations | MarkViolationAsPaid
    | GetStats | GetViolationsByType

  /** `protect` authenticates the bearer token; `checkRole(allowed)` admits
      only an attached caller whose role is in `allowed`. */
  datatype Middleware = Protect | CheckRole(allowed: seq<Role>)

  datatype Route = Route(chain: seq<Middleware>, handler: Handler)

  /** The violations router. */
  function ViolationRoute(verb: Verb, path: seq<string>): Option<Route>
  {
    if verb == Get && path == ["types"] then Some(Route([Protect], GetViolationTypes))
    else if verb == Get && path == ["areas"] then Some(Route([Protect], GetAreas))
    else if verb == Post && path == [] then Some(Route([Protect, CheckRole([Officer, Admin])], CreateViolation))
    else if verb == Get && path == [] then Some(Route([Protect], GetViolations))
    else if verb == Put && |path| == 2 && path[0] != "" && path[1] == "pay" then
      Some(Route([Protect, CheckRole([Officer, Admin])], MarkViolationAsPaid))
    else None
  }

  /** The analytics router. */
  function AnalyticsRoute(verb: Verb, path: seq<string>): Option<Route>
  {
    if verb == Get && path == ["stats"] then Some(Route([Protect, CheckRole([Admin])], GetStats))
    else if verb == Get && path == ["by-type"] then Some(Route([Protect, CheckRole([Admin])], GetViolationsByType))
    else None
  }

  /** How a request ends: refused by `protect`, refused by `checkRole`, or
      handed to the controller together with the attached caller. */
  datatype Outcome = Unauthorized | Forbidden | Handled(handler: Handler, caller: Option<User>)

  /** Runs a middleware chain. `resolved` is the account the bearer token
      identifies (if any); `attached` is the caller set on the request so far. */
  function RunChain(chain: seq<Middleware>, handler: Handler, resolved: Option<User>, attached: Option<User>): Outcome
  {
    if chain == [] then Handled(handler, attached)
    else match chain[0]
      case Protect =>
        if resolved.None? then Unauthorized else RunChain(chain[1..], handler, resolved, resolved)
      case CheckRole(allowed) =>
        if attached.Some? && attached.value.role in allowed then RunChain(chain[1..], handler, resolved, attached)
        else Forbidden
  }

  /** The outcome of a request that matched `route`, carrying `token`,
      against the user store `users` at time `now`. */
  function Decide(route: Route, users: seq<User>, token: Option<Auth.Token>, now: Time): Outcome
  {
    RunChain(route.chain, route.handler, Auth.Authenticate(users, token, now), None)
  }

  /** Authentication first, then only role checks. */
  ghost predicate AuthenticatesFirst(chain: seq<Middleware>)
  {
    |chain| > 0 && chain[0] == Protect && forall k :: 1 <= k < |chain| ==> chain[k].CheckRole?
  }

  /** Every role list of the chain admits `role`. */
  ghost predicate AdmitsRole(chain: seq<Middleware>, role: Role)
  {
    forall k :: 0 <= k < |chain| && chain[k].CheckRole? ==> role in chain[k].allowed
  }

  lemma {:induction false} RoleChecksOutcome(chain: seq<Middleware>, h: Handler, resolved: Option<User>, u: User)
    requires forall k :: 0 <= k < |chain| ==> chain[k].CheckRole?
    ensures RunChain(chain, h, resolved, Some(u)) ==
      if AdmitsRole(chain, u.role) then Handled(h, Some(u)) else Forbidden
  {
    if chain != [] {
      RoleChecksOutcome(chain[1..], h, resolved, u);
      assert forall k :: 1 <= k < |chain| ==> chain[k] == chain[1..][k - 1];
    }
  }

  /** A chain that authenticates first refuses an unauthenticated request
      before any role check runs, and otherwise admits exactly the callers
      every role list admits. */
  lemma {:induction false} GuardedChainOutcome(chain: seq<Middleware>, h: Handler, resolved: Option<User>)
    requires AuthenticatesFirst(chain)
    ensures RunChain(chain, h, resolved, None) ==
      if resolved.None? then Unauthorized
      else if AdmitsRole(chain, resolved.value.role) then Handled(h, resolved)
      else Forbidden
  {
    if resolved.Some? {
      RoleChecksOutcome(chain[1..], h, resolved, resolved.value);
      assert forall k :: 1 <= k < |chain| ==> chain[k] == chain[1..][k - 1];
    }
  }

  /** The access policy the two route tables declare: `None` for "any
      authenticated caller", otherwise the admitted roles. */
  function Policy(h: Handler): Option<set<Role>>
  {
    match h
    case GetViolationTypes => None
    case GetAreas => None
    case GetViolations => None
    case CreateViolation => Some({Officer, Admin})
    case MarkViolationAsPaid => Some({Officer, Admin})
    case GetStats => Some({Admin})
    case GetViolationsByType => Some({Admin})
  }

  /** The outcome the policy prescribes for a caller resolved as `resolved`. */
  function Prescribed(h: Handler, resolved: Option<User>): Outcome
  {
    if resolved.None? then Unauthorized
    else if Policy(h).None? || resolved.value.role in Policy(h).value then Handled(h, resolved)
    else Forbidden
  }

  /** Every route of both tables authenticates first, and every request they
      match ends as the policy prescribes: no token, an expired one or an
      unknown account is refused whatever the route's role list; a known
      caller reaches the controller exactly when its role is admitted. */
  lemma RoutesFollowPolicy(verb: Verb, path: seq<string>, users: seq<User>, token: Option<Auth.Token>, now: Time)
    ensures var r := ViolationRoute(verb, path);
      r.Some? ==> (AuthenticatesFirst(r.value.chain)
        && Decide(r.value, users, token, now) == Prescribed(r.value.handler, Auth.Authenticate(users, token, now)))
    ensures var r := AnalyticsRoute(verb, path);
      r.Some? ==> (AuthenticatesFirst(r.value.chain)
        && Decide(r.value, users, token, now) == Prescribed(r.value.handler, Auth.Authenticate(users, token, now)))
  {
    var resolved := Auth.Authenticate(users, token, now);
    var r1 := ViolationRoute(verb, path);
    if r1.Some? {
      GuardedChainOutcome(r1.value.chain, r1.value.handler, resolved);
    }
    var r2 := AnalyticsRoute(verb, path);
    if r2.Some? {
      GuardedChainOutcome(r2.value.chain, r2.value.handler, resolved);
    }
  }

  /** A citizen can never mark a violation paid. */
  lemma CitizenCannotPay(id: string, users: seq<User>, token: Option<Auth.Token>, now: Time)
    requires id != ""
    requires var c := Auth.Authenticate(users, token, now); c.Some? && c.value.role == Citizen
    ensures ViolationRoute(Put, [id, "pay"]).Some?
    ensures Decide(ViolationRoute(Put, [id, "pay"]).value, users, token, now) == Forbidden
  {
    RoutesFollowPolicy(Put, [id, "pay"], users, token, now);
  }

  /** Officers and citizens are refused on both analytics routes; only an
      admin reaches the statistics. */
  lemma AnalyticsIsAdminOnly(path: seq<string>, users: seq<User>, token: Option<Auth.Token>, now: Time)
    requires AnalyticsRoute(Get, path).Some?
    ensures var c := Auth.Authenticate(users, token, now);
      Decide(AnalyticsRoute(Get, path).value, users, token, now).Handled? <==> c.Some? && c.value.role == Admin
  {
    RoutesFollowPolicy(Get, path, users, token, now);
  }
}
