/**
 * The client-side route table (frontend/src/App.jsx): which page each path
 * renders for the signed-in user, and the `ProtectedRoute` guard in front of
 * the role panels.
 */
module AppRoutes {
  import opened Wrappers
  import opened Schema

  /** The pages the router can render. */
  datatype Page =
    | HomePage | LoginPage | RegisterPage | PatientDashboardPage | AIAssistPage
    | TherapyBotPage | MotivationPage | WellnessPlannerPage | DoctorSuggestionPage
    | SeekExpertPage | AdminDashboardPage | DoctorPanelPage | NotFoundPage

  /** A `<Navigate to=...>` or the page itself. */
  datatype Outcome = Redirect(to: string) | Render(page: Page)

  /** `ProtectedRoute`: without a user go to the login page; with
      `allowedRoles` given and the user's role not among them go home;
      otherwise render the children. An empty role list is still given. */
  function ProtectedRoute(user: Option<PublicUser>, allowedRoles: Option<seq<string>>, children: Page): (o: Outcome)
    ensures user.None? ==> o == Redirect("/login")
    ensures user.Some? && allowedRoles.Some? && user.value.role !in allowedRoles.value ==> o == Redirect("/")
    ensures o.Render? <==> user.Some? && (allowedRoles.None? || user.value.role in allowedRoles.value)
    ensures o.Render? ==> o.page == children
  {
    if user.None? then Redirect("/login")
    else if allowedRoles.Some? && user.value.role !in allowedRoles.value then Redirect("/")
    else Render(children)
  }

  /** How a route's element is chosen. */
  datatype Guard =
    | Open                                          // the element as it is
    | GuestOnly                                     // `user ? <Navigate to="/" /> : element`
    | Protected(allowedRoles: Option<seq<string>>)  // wrapped in `ProtectedRoute`

  /** The pages of the `<Routes>` of `App`, in source order; every other path
      falls to the `*` route and its not-found page. */
  const ROUTED: seq<Page> := [
    HomePage, LoginPage, RegisterPage, PatientDashboardPage, AIAssistPage, TherapyBotPage,
    MotivationPage, WellnessPlannerPage, DoctorSuggestionPage, SeekExpertPage,
    AdminDashboardPage, DoctorPanelPage
  ]

  /** The `path` of each page's route. */
  function PathOf(p: Page): string {
    match p
    case HomePage => "/"
    case LoginPage => "/login"
    case RegisterPage => "/register"
    case PatientDashboardPage => "/patient-panel"
    case AIAssistPage => "/ai-assist"
    case TherapyBotPage => "/AI-Therapy-bot"
    case MotivationPage => "/AI-Motivation"
    case WellnessPlannerPage => "/AI-Personalized-wellnes-planner"
    case DoctorSuggestionPage => "/AI-Doctor-Suggestion"
    case SeekExpertPage => "/seek-expert"
    case AdminDashboardPage => "/admin"
    case DoctorPanelPage => "/doctor-panel"
    case NotFoundPage => "*"
  }

  /** How each page's route element is built. The three chatbot routes pass
      `user` and `allowedRoles` to the page component itself, not to
      `ProtectedRoute`, so they are open. */
  function GuardOf(p: Page): Guard {
    match p
    case HomePage => Open
    case LoginPage => GuestOnly
    case RegisterPage => GuestOnly
    case PatientDashboardPage => Protected(Some([PATIENT]))
    case AIAssistPage => Protected(Some([PATIENT]))
    case TherapyBotPage => Protected(Some([PATIENT]))
    case MotivationPage => Open
    case WellnessPlannerPage => Open
    case DoctorSuggestionPage => Open
    case SeekExpertPage => Protected(Some([PATIENT]))
    case AdminDashboardPage => Protected(Some([ADMIN]))
    case DoctorPanelPage => Protected(Some([DOCTOR]))
    case NotFoundPage => Open
  }

  /** The element one route yields for the user. */
  function Element(p: Page, user: Option<PublicUser>): (o: Outcome)
    ensures o.Render? ==> o.page == p
  {
    match GuardOf(p)
    case Open => Render(p)
    case GuestOnly => if user.Some? then Redirect("/") else Render(p)
    case Protected(roles) => ProtectedRoute(user, roles, p)
  }

  /** The first of `pages` whose route path is `path` decides; when none
      does, the `*` route renders the not-found page. */
  function ResolveIn(pages: seq<Page>, path: string, user: Option<PublicUser>): (o: Outcome)
    ensures (forall i :: 0 <= i < |pages| ==> PathOf(pages[i]) != path) ==> o == Render(NotFoundPage)
    ensures forall i :: 0 <= i < |pages| && PathOf(pages[i]) == path && (forall j :: 0 <= j < i ==> PathOf(pages[j]) != path) ==>
      o == Element(pages[i], user)
    ensures o == Render(NotFoundPage) || exists i :: 0 <= i < |pages| && PathOf(pages[i]) == path && o == Element(pages[i], user)
  {
    if pages == [] then Render(NotFoundPage)
    else if PathOf(pages[0]) == path then Element(pages[0], user)
    else
      var o := ResolveIn(pages[1..], path, user);
      assert forall i :: 1 <= i < |pages| ==> pages[i] == pages[1..][i - 1];
      o
  }

  /** What the app shows at `path`. */
  function Resolve(path: string, user: Option<PublicUser>): Outcome {
    ResolveIn(ROUTED, path, user)
  }

  /** The login and register pages send a signed-in user home and show the
      form to everyone else. */
  lemma GuestPagesRedirectUsers(p: Page, user: Option<PublicUser>)
    requires p == LoginPage || p == RegisterPage
    ensures Resolve(PathOf(p), user) == if user.Some? then Redirect("/") else Render(p)
  {
    var k := if p == LoginPage then 1 else 2;
    assert ROUTED[k] == p;
    var path := PathOf(p);
    forall j | 0 <= j < k ensures PathOf(ROUTED[j]) != path {
      assert |PathOf(ROUTED[j])| != |path|;
    }
  }

  /** The three chatbot routes are open: each renders its element at its path
      for every visitor, signed in or not. The element at
      `/AI-Doctor-Suggestion` names a component that the source never defines. */
  lemma ChatbotPagesAreOpen(p: Page, user: Option<PublicUser>)
    requires p == MotivationPage || p == WellnessPlannerPage || p == DoctorSuggestionPage
    ensures Resolve(PathOf(p), user) == Render(p)
  {
    var k := if p == MotivationPage then 6 else if p == WellnessPlannerPage then 7 else 8;
    assert ROUTED[k] == p;
    ChatbotRouteIsFirst(k, user);
  }

  /** No route before a chatbot route has its path: the earlier paths differ
      in length or, at equal length, in the second character. */
  lemma ChatbotRouteIsFirst(k: nat, user: Option<PublicUser>)
    requires 6 <= k <= 8
    ensures Resolve(PathOf(ROUTED[k]), user) == Element(ROUTED[k], user)
  {
    var path := PathOf(ROUTED[k]);
    forall j | 0 <= j < k ensures PathOf(ROUTED[j]) != path {
      var q := PathOf(ROUTED[j]);
      if |q| == |path| {
        assert q[1] != path[1];
      }
    }
  }

  /** Wherever a role panel renders, the user is signed in with that role:
      patient pages for patients, the admin dashboard for admins, the doctor
      panel for doctors. */
  lemma PanelsNeedTheirRole(path: string, user: Option<PublicUser>)
    ensures Resolve(path, user) in {Render(PatientDashboardPage), Render(AIAssistPage), Render(TherapyBotPage), Render(SeekExpertPage)} ==>
      user.Some? && user.value.role == PATIENT
    ensures Resolve(path, user) == Render(AdminDashboardPage) ==> user.Some? && user.value.role == ADMIN
    ensures Resolve(path, user) == Render(DoctorPanelPage) ==> user.Some? && user.value.role == DOCTOR
  {
    var o := Resolve(path, user);
    if o != Render(NotFoundPage) {
      var i :| 0 <= i < |ROUTED| && PathOf(ROUTED[i]) == path && o == Element(ROUTED[i], user);
      if o.Render? && GuardOf(o.page).Protected? {
        assert user.Some? && user.value.role in GuardOf(o.page).allowedRoles.value;
      }
    }
  }
}
