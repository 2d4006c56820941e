/**
 * Signing in and routing: the login form's checks and the mapping of a user id to the sign-in
 * e-mail; the role read after sign-in, the dashboard each role is sent to, and the guard on each
 * page, which sends anyone without a session or without the page's role to the sign-in page.
 */
module AuthRoutes {
  import opened Wrappers
  import opened Seqs
  import opened Schema
  import opened Text
  import opened Store
  import UserAdmin

  /** The sign-in form's fields. */
  datatype LoginForm = LoginForm(userId: string, password: string)

  /** What is sent to the authentication service. */
  datatype Credentials = Credentials(email: string, password: string)

  const EmailDomain := "@company.local"
  const UserIdTooShort := "User ID must be at least 3 characters"
  const PasswordTooShort := "Password must be at least 6 characters"
  const BadCredentials := "Invalid login credentials"
  const BadUserIdOrPassword := "Invalid User ID or password"

  /** `loginSchema.parse` and the e-mail built from it: the first failing field's message, or the credentials. */
  function ValidateLogin(f: LoginForm): (r: Result<Credentials, string>)
    ensures r == Failure(UserIdTooShort) <==> |Trim(f.userId)| < 3
    ensures r == Failure(PasswordTooShort) <==> |Trim(f.userId)| >= 3 && |f.password| < 6
    ensures r.Success? <==> |Trim(f.userId)| >= 3 && |f.password| >= 6
    ensures r.Success? ==> r.value.email == Trim(f.userId) + EmailDomain && r.value.password == f.password
  {
    if |Trim(f.userId)| < 3 then Failure(UserIdTooShort)
    else if |f.password| < 6 then Failure(PasswordTooShort)
    else Success(Credentials(Trim(f.userId) + EmailDomain, f.password))
  }

  /** The user id an e-mail of this portal stands for. */
  function UserIdOfEmail(email: string): (id: string)
    requires |email| >= |EmailDomain|
    ensures |id| == |email| - |EmailDomain|
  {
    email[..|email| - |EmailDomain|]
  }

  /** The e-mail ends in the portal's domain and gives back the trimmed user id; two forms share an e-mail exactly when their trimmed user ids agree. */
  lemma {:induction false} EmailRoundTrip(f: LoginForm, g: LoginForm)
    requires ValidateLogin(f).Success? && ValidateLogin(g).Success?
    ensures var email := ValidateLogin(f).value.email;
      |email| >= |EmailDomain| && email[|email| - |EmailDomain|..] == EmailDomain && UserIdOfEmail(email) == Trim(f.userId)
    ensures ValidateLogin(f).value.email == ValidateLogin(g).value.email <==> Trim(f.userId) == Trim(g.userId)
  {
    var e1, e2 := ValidateLogin(f).value.email, ValidateLogin(g).value.email;
    assert e1[..|e1| - |EmailDomain|] == Trim(f.userId);
    assert e2[..|e2| - |EmailDomain|] == Trim(g.userId);
  }

  /** The message shown for a refused sign-in: bad credentials get the portal's own wording, anything else is shown as is. */
  function SignInMessage(error: string): (m: string)
    ensures Contains(error, BadCredentials) ==> m == BadUserIdOrPassword
    ensures !Contains(error, BadCredentials) ==> m == error
  {
    if Contains(error, BadCredentials) then BadUserIdOrPassword else error
  }

  /** The service's own wording for bad credentials is replaced. */
  lemma {:induction false} BadCredentialsReworded(prefix: string, suffix: string)
    ensures SignInMessage(prefix + BadCredentials + suffix) == BadUserIdOrPassword
  {
    var s := prefix + BadCredentials + suffix;
    assert s[|prefix|..|prefix| + |BadCredentials|] == BadCredentials;
    assert OccursAt(s, BadCredentials, |prefix|);
  }

  /** What submitting the sign-in form ends in. */
  datatype LoginOutcome = Invalid(message: string) | LoggedIn | Refused(message: string)

  /**
   * `handleLogin`; `signIn` stands for the authentication service and answers with its error
   * message, if any.
   */
  function Login(f: LoginForm, signIn: Credentials -> Option<string>): (r: LoginOutcome)
    ensures ValidateLogin(f).Failure? <==> r.Invalid?
    ensures r.Invalid? ==> r.message == ValidateLogin(f).error
    ensures r == LoggedIn <==> ValidateLogin(f).Success? && signIn(ValidateLogin(f).value).None?
    ensures r.Refused? ==> r.message == SignInMessage(signIn(ValidateLogin(f).value).value)
  {
    match ValidateLogin(f)
    case Failure(message) => Invalid(message)
    case Success(credentials) =>
      match signIn(credentials)
      case None => LoggedIn
      case Some(error) => Refused(SignInMessage(error))
  }

  /** A form that fails validation never reaches the service: the outcome is the same whatever the service would say. */
  lemma {:induction false} InvalidFormMakesNoCall(f: LoginForm, service1: Credentials -> Option<string>, service2: Credentials -> Option<string>)
    requires ValidateLogin(f).Failure?
    ensures Login(f, service1) == Login(f, service2)
  {
  }

  /** `fetchUserRole`: the user's role when exactly one `user_roles` row names the user (`maybeSingle`), otherwise none. */
  function FetchRole(roles: seq<UserRole>, userId: Id): (r: Option<string>)
    ensures r.Some? <==> Count(roles, UserAdmin.RoleOfUser(userId)) == 1
    ensures r.Some? ==> r.value in AppRoleValues
  {
    match SingleMatch(roles, UserAdmin.RoleOfUser(userId))
    case None => None
    case Some(row) => Some(RoleName(row.role))
  }

  /** `getDashboardRoute`. */
  function DashboardRoute(role: Option<string>): (path: string)
    ensures role == Some("admin") <==> path == "/admin"
    ensures role == Some("evaluator") <==> path == "/evaluator"
    ensures role == Some("manager") <==> path == "/manager"
    ensures role == Some("new_joinee") <==> path == "/dashboard"
    ensures path == "/auth" <==> role.None? || role.value !in AppRoleValues
  {
    if role.None? || role.value == "" then "/auth"
    else if role.value == "admin" then "/admin"
    else if role.value == "evaluator" then "/evaluator"
    else if role.value == "manager" then "/manager"
    else if role.value == "new_joinee" then "/dashboard"
    else "/auth"
  }

  /** The pages of the router. */
  datatype Page =
    | RootPage | AuthPage | SetupPage
    | AdminPage | TestManagementPage
    | EvaluatorPage | EvaluatePage | ManagerReviewPage | ManagerPage
    | JoineeDashboardPage | TestPage | ReportCardPage
    | NotFoundPage

  /** The pages behind a role guard. */
  predicate Guarded(p: Page)
  {
    !(p.RootPage? || p.AuthPage? || p.SetupPage? || p.NotFoundPage?)
  }

  /** The role test of a guarded page. */
  predicate Admits(p: Page, role: string)
  {
    match p
    case AdminPage => role == "admin"
    case TestManagementPage => role == "admin"
    case EvaluatorPage => role == "evaluator"
    case EvaluatePage => role == "evaluator" || role == "manager"
    case ManagerReviewPage => role == "manager"
    case ManagerPage => role == "manager"
    case JoineeDashboardPage => role == "new_joinee"
    case TestPage => role == "new_joinee"
    case ReportCardPage => role == "evaluator" || role == "manager" || role == "admin"
    case _ => false
  }

  /** What a route renders. */
  datatype Screen = Shows(page: Page) | RedirectTo(path: string)

  /** The element of each `Route`, given the session and the role read for it. */
  function Render(p: Page, hasSession: bool, role: Option<string>): (s: Screen)
    ensures Guarded(p) ==> (s == Shows(p) <==> hasSession && role.Some? && Admits(p, role.value))
    ensures Guarded(p) && s != Shows(p) ==> s == RedirectTo("/auth")
    ensures !hasSession && p != SetupPage && p != NotFoundPage && p != AuthPage ==> s == RedirectTo("/auth")
  {
    match p
    case RootPage => if hasSession then RedirectTo(DashboardRoute(role)) else RedirectTo("/auth")
    case AuthPage => if !hasSession then Shows(AuthPage) else RedirectTo(DashboardRoute(role))
    case SetupPage => Shows(SetupPage)
    case NotFoundPage => Shows(NotFoundPage)
    case _ => if hasSession && role.Some? && Admits(p, role.value) then Shows(p) else RedirectTo("/auth")
  }

  /** The dashboard page of a role. */
  function DashboardOf(r: AppRole): Page
  {
    match r
    case Admin => AdminPage
    case Evaluator => EvaluatorPage
    case Manager => ManagerPage
    case NewJoinee => JoineeDashboardPage
  }

  /** The path of each dashboard page. */
  function PathOf(p: Page): string
  {
    match p
    case AdminPage => "/admin"
    case EvaluatorPage => "/evaluator"
    case ManagerPage => "/manager"
    case JoineeDashboardPage => "/dashboard"
    case _ => "/auth"
  }

  /** A signed-in user is sent from `/` to their role's dashboard, and that dashboard's guard lets them in. */
  lemma {:induction false} DashboardAdmitsItsRole(r: AppRole)
    ensures DashboardRoute(Some(RoleName(r))) == PathOf(DashboardOf(r))
    ensures Render(RootPage, true, Some(RoleName(r))) == RedirectTo(PathOf(DashboardOf(r)))
    ensures Render(DashboardOf(r), true, Some(RoleName(r))) == Shows(DashboardOf(r))
  {
  }

  /** Who reaches the shared pages: evaluation by evaluators and managers, manager review by managers, tests by joinees, report cards by all staff. */
  lemma {:induction false} SharedPagesAccess(r: AppRole)
    ensures Render(EvaluatePage, true, Some(RoleName(r))).Shows? <==> r == Evaluator || r == Manager
    ensures Render(ManagerReviewPage, true, Some(RoleName(r))).Shows? <==> r == Manager
    ensures Render(TestPage, true, Some(RoleName(r))).Shows? <==> r == NewJoinee
    ensures Render(ReportCardPage, true, Some(RoleName(r))).Shows? <==> r != NewJoinee
    ensures Render(TestManagementPage, true, Some(RoleName(r))).Shows? <==> r == Admin
  {
  }

  /**
   * A session whose role could not be read is sent from `/` and from the sign-in page to the
   * sign-in page itself, and no guarded page lets it in.
   */
  lemma {:induction false} SignedInWithoutRole(p: Page)
    ensures Render(RootPage, true, None) == RedirectTo("/auth")
    ensures Render(AuthPage, true, None) == RedirectTo("/auth")
    ensures Guarded(p) ==> Render(p, true, None) == RedirectTo("/auth")
  {
  }

  /** A user holding two roles reads no role at all, and is kept out of every guarded page. */
  lemma {:induction false} TwoRolesReadAsNone(roles: seq<UserRole>, userId: Id, i: nat, j: nat, p: Page)
    requires i < j < |roles| && roles[i].userId == userId && roles[j].userId == userId
    requires Guarded(p)
    ensures FetchRole(roles, userId).None?
    ensures Render(p, true, FetchRole(roles, userId)) == RedirectTo("/auth")
  {
    TwoMatchesNoSingle(roles, UserAdmin.RoleOfUser(userId), i, j);
  }

  /** After an administrator sets a user's role, the user's next role read gives that role, and so its dashboard. */
  lemma {:induction false} UpdatedRoleIsRead(
    t: UserAdmin.Tables, caller: Option<Id>, req: UserAdmin.UpdateRequest, now: Timestamp, faults: UserAdmin.Faults)
    requires UserAdmin.UpdateUser(t, true, caller, req, now, faults).0.Success?
    requires !req.role.Missing?
    ensures req.userId.Some? && req.role.Given?
    ensures FetchRole(UserAdmin.UpdateUser(t, true, caller, req, now, faults).1.roles, req.userId.value) == Some(req.role.s)
    ensures DashboardRoute(FetchRole(UserAdmin.UpdateUser(t, true, caller, req, now, faults).1.roles, req.userId.value))
      == PathOf(DashboardOf(ParseRole(req.role.s).value))
  {
    UserAdmin.SuccessLeavesExactlyOneRole(t, true, caller, req, now, faults);
    var after := UserAdmin.UpdateUser(t, true, caller, req, now, faults).1;
    var role := ParseRole(req.role.s).value;
    SoleRoleIsRead(after.roles, req.userId.value, UserRole(t.nextId, req.userId.value, role, Some(caller.value), Some(now)));
    assert RoleName(role) == req.role.s;
    DashboardAdmitsItsRole(role);
  }

  /** A user named by exactly one row reads that row's role. */
  lemma {:induction false} SoleRoleIsRead(roles: seq<UserRole>, userId: Id, row: UserRole)
    requires Filter(roles, UserAdmin.RoleOfUser(userId)) == [row]
    ensures FetchRole(roles, userId) == Some(RoleName(row.role))
  {
  }
}
