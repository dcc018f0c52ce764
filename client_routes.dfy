/** The client route gate: the route table of `client/src/App.jsx` and the
    `ProtectedRoute` decision of `client/src/routes/ProtectedRoute.jsx`
    over the authentication context (`user`, `loading`). */
module ClientRoutes {
  import opened Common

  /** The signed-in user as the client holds it. */
  datatype ClientUser = ClientUser(role: Role)

  datatype AuthContext = AuthContext(user: Option<ClientUser>, loading: bool)

  /** What `ProtectedRoute` renders. */
  datatype GateView = LoadingView | RedirectToLogin | AccessDenied | Outlet

  /** The role a user must hold: none when `allowedRoles` is absent. */
  predicate RoleAdmitted(allowedRoles: Option<seq<Role>>, role: Role)
  {
    allowedRoles.None? || role in allowedRoles.value
  }

  /** `ProtectedRoute({ allowedRoles })`: loading first, then the user, then
      the role. */
  function ProtectedRoute(allowedRoles: Option<seq<Role>>, ctx: AuthContext): (v: GateView)
    ensures ctx.loading ==> v == LoadingView
    ensures !ctx.loading && ctx.user.None? ==> v == RedirectToLogin
    ensures v == Outlet <==> !ctx.loading && ctx.user.Some? && RoleAdmitted(allowedRoles, ctx.user.value.role)
    ensures v == AccessDenied <==> !ctx.loading && ctx.user.Some? && !RoleAdmitted(allowedRoles, ctx.user.value.role)
  {
    if ctx.loading then LoadingView
    else if ctx.user.None? then RedirectToLogin
    else if allowedRoles.Some? && ctx.user.value.role !in allowedRoles.value then AccessDenied
    else Outlet
  }

  datatype Page = LoginPage | DashboardPage | ViewViolationsPage | RegisterViolationPage | AnalyticsPage

  /** One entry of the route table: an open page, a page behind
      `ProtectedRoute` with its `allowedRoles`, or a redirect. */
  datatype Entry = Open(page: Page) | Gated(allowedRoles: Option<seq<Role>>, page: Page) | RedirectTo(target: string)

  /** The route table of `App`. */
  function AppRoute(path: string): Entry
  {
    if path == "/login" then Open(LoginPage)
    else if path == "/" then Gated(None, DashboardPage)
    else if path == "/violations" then Gated(None, ViewViolationsPage)
    else if path == "/register-violation" then Gated(Some([Admin, Officer]), RegisterViolationPage)
    else if path == "/analytics" then Gated(Some([Admin]), AnalyticsPage)
    else RedirectTo("/")
  }

  /** The path each page is mounted at. */
  function PathOf(p: Page): string
  {
    match p
    case LoginPage => "/login"
    case DashboardPage => "/"
    case ViewViolationsPage => "/violations"
    case RegisterViolationPage => "/register-violation"
    case AnalyticsPage => "/analytics"
  }

  /** Which roles may see a page: `None` means every signed-in user. */
  function PageRoles(p: Page): Option<set<Role>>
  {
    match p
    case LoginPage => None
    case DashboardPage => None
    case ViewViolationsPage => None
    case RegisterViolationPage => Some({Admin, Officer})
    case AnalyticsPage => Some({Admin})
  }

  /** What the browser shows for a path. */
  datatype Screen = Shows(page: Page) | Loading | Redirect(to: string) | Denied

  function Render(path: string, ctx: AuthContext): Screen
  {
    match AppRoute(path)
    case Open(p) => Shows(p)
    case RedirectTo(t) => Redirect(t)
    case Gated(roles, p) =>
      match ProtectedRoute(roles, ctx)
      case LoadingView => Loading
      case RedirectToLogin => Redirect("/login")
      case AccessDenied => Denied
      case Outlet => Shows(p)
  }

  /** Each page is mounted at exactly one path. */
  lemma PathOfRoundTrip(p: Page, path: string)
    ensures AppRoute(PathOf(p)).page == p
    ensures (AppRoute(path).Open? || AppRoute(path).Gated?) && AppRoute(path).page == p ==> path == PathOf(p)
  {
  }

  /** A page is shown exactly when it is the login page at `/login`, or it is
      reached at its own path by a signed-in user, after loading, whose role
      the page admits. */
  lemma RenderShowsIff(path: string, ctx: AuthContext, p: Page)
    ensures Render(path, ctx) == Shows(p) <==>
      path == PathOf(p)
      && (p == LoginPage
          || (!ctx.loading && ctx.user.Some? && (PageRoles(p).None? || ctx.user.value.role in PageRoles(p).value)))
  {
    PathOfRoundTrip(p, path);
  }

  /** `/login` is shown whatever the authentication state. */
  lemma LoginAlwaysReachable(ctx: AuthContext)
    ensures Render("/login", ctx) == Shows(LoginPage)
  {
  }

  /** Any path outside the table redirects to `/`, which a signed-in user
      sees as the dashboard and an anonymous one is sent on to `/login`. */
  lemma UnknownPathGoesHome(path: string, ctx: AuthContext)
    requires path !in {"/login", "/", "/violations", "/register-violation", "/analytics"}
    ensures Render(path, ctx) == Redirect("/")
    ensures !ctx.loading && ctx.user.Some? ==> Render("/", ctx) == Shows(DashboardPage)
    ensures !ctx.loading && ctx.user.None? ==> Render("/", ctx) == Redirect("/login")
  {
  }

  /** Without a signed-in user, the only page ever shown is the login page. */
  lemma AnonymousSeesOnlyLogin(path: string, ctx: AuthContext)
    requires ctx.user.None?
    ensures Render(path, ctx).Shows? ==> Render(path, ctx).page == LoginPage
  {
  }
}
