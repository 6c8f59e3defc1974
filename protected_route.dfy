/**
 * The route guard (src/components/ProtectedRoute.tsx) and the route table it is used in
 * (src/App.tsx): each protected route names the role it requires.
 */
module ProtectedRoute {
  import opened Wrappers
  import opened Auth

  /** What the guard returns: a redirect (`<Navigate replace>`) or its children. */
  datatype Outcome = Navigate(to: string) | RenderChildren

  /** `user?.role`: undefined when there is no user. */
  function RoleOf(user: Option<User>): (r: Option<Role>)
    ensures r.Some? <==> user.Some?
    ensures user.Some? ==> r == Some(user.value.role)
  {
    match user
    case None => None
    case Some(u) => Some(u.role)
  }

  /** The dashboard a user of the given role is sent to on a role mismatch. */
  function DashboardPath(role: Option<Role>): (r: string)
    ensures r == "/contractor" <==> role == Some(ContractorRole)
    ensures r != "/contractor" ==> r == "/admin"
  {
    if role == Some(ContractorRole) then "/contractor" else "/admin"
  }

  /**
   * The guard: unauthenticated visitors go to the login page; when a role is required and the
   * user does not have it, the user goes to the dashboard for the user's role; otherwise the
   * children are rendered.
   */
  function Guard(isAuthenticated: bool, user: Option<User>, requiredRole: Option<Role>): (r: Outcome)
    ensures !isAuthenticated ==> r == Navigate("/login")
    ensures isAuthenticated && requiredRole.None? ==> r == RenderChildren
    ensures isAuthenticated && requiredRole.Some? && RoleOf(user) == requiredRole ==> r == RenderChildren
    ensures isAuthenticated && requiredRole.Some? && RoleOf(user) != requiredRole ==>
              r == Navigate(if RoleOf(user) == Some(ContractorRole) then "/contractor" else "/admin")
    ensures r == RenderChildren <==> isAuthenticated && (requiredRole.None? || RoleOf(user) == requiredRole)
  {
    if !isAuthenticated then Navigate("/login")
    else if requiredRole.Some? && RoleOf(user) != requiredRole then Navigate(DashboardPath(RoleOf(user)))
    else RenderChildren
  }

  // ---------------------------------------------------------------- the route table

  datatype Page = LoginPage | ContractorDashboardPage | AdminDashboardPage

  /** The element a path is routed to. */
  datatype Element = Show(page: Page) | Guarded(requiredRole: Role, page: Page) | RedirectToLogin

  function RouteElement(path: string): (r: Element)
    ensures r.Guarded? <==> path == "/contractor" || path == "/admin"
    ensures r == Show(LoginPage) <==> path == "/login"
    ensures path == "/contractor" ==> r == Guarded(ContractorRole, ContractorDashboardPage)
    ensures path == "/admin" ==> r == Guarded(AdminRole, AdminDashboardPage)
    ensures path != "/login" && path != "/contractor" && path != "/admin" ==> r == RedirectToLogin
  {
    if path == "/login" then Show(LoginPage)
    else if path == "/contractor" then Guarded(ContractorRole, ContractorDashboardPage)
    else if path == "/admin" then Guarded(AdminRole, AdminDashboardPage)
    else RedirectToLogin
  }

  /** What visiting a path does: a page is shown or the browser is sent to another path. */
  datatype Visit = Rendered(page: Page) | Redirected(to: string)

  /** A dashboard is only ever shown to a logged-in user holding its role. */
  function VisitPath(path: string, isAuthenticated: bool, user: Option<User>): (r: Visit)
    ensures r == Rendered(ContractorDashboardPage) ==> isAuthenticated && RoleOf(user) == Some(ContractorRole)
    ensures r == Rendered(AdminDashboardPage) ==> isAuthenticated && RoleOf(user) == Some(AdminRole)
  {
    match RouteElement(path)
    case Show(page) => Rendered(page)
    case RedirectToLogin => Redirected("/login")
    case Guarded(role, page) =>
      match Guard(isAuthenticated, user, Some(role))
      case RenderChildren => Rendered(page)
      case Navigate(to) => Redirected(to)
  }

  /** The dashboard for a role: the page its guarded route shows. */
  function DashboardPage(role: Role): (r: Page)
    ensures RouteElement(DashboardPath(Some(role))) == Guarded(role, r)
  {
    match role
    case ContractorRole => ContractorDashboardPage
    case AdminRole => AdminDashboardPage
  }

  /**
   * No redirect loop for a logged-in user: a protected path either shows its dashboard or sends
   * the user to the route whose required role is the user's own, which then shows that user's
   * dashboard.
   */
  lemma MismatchRedirectRenders(path: string, u: User)
    requires RouteElement(path).Guarded?
    ensures VisitPath(path, true, Some(u)).Redirected? ==>
              var to := VisitPath(path, true, Some(u)).to;
              RouteElement(to) == Guarded(u.role, DashboardPage(u.role)) &&
              VisitPath(to, true, Some(u)) == Rendered(DashboardPage(u.role))
    ensures VisitPath(path, true, Some(u)).Rendered? ==> RouteElement(path).requiredRole == u.role
  {
  }

  /** A visitor who is not logged in reaches the login page in at most one redirect. */
  lemma UnauthenticatedReachesLogin(path: string, user: Option<User>)
    ensures VisitPath(path, false, user) == Rendered(LoginPage) ||
            VisitPath(path, false, user) == Redirected("/login")
    ensures VisitPath("/login", false, user) == Rendered(LoginPage)
  {
  }

  /**
   * If the authentication state ever claimed a login without a user, the admin route would
   * redirect to itself, since a missing role is sent to "/admin".
   */
  lemma AuthenticatedWithoutUserLoops()
    ensures VisitPath("/admin", true, None) == Redirected("/admin")
    ensures VisitPath("/contractor", true, None) == Redirected("/admin")
  {
  }
}
