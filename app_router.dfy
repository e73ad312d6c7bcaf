/**
 * The client's route table: which page a path shows, which session flags each
 * page asks for, what is shown instead when they are missing, the redirect of
 * users who have not finished onboarding, and when the menu and the footer
 * appear.
 */
module AppRouter {
  import opened Common
  import Navbar

  datatype Page =
    | HomePage | OnboardingPage | ManageLectures | AttendancePage | AttendanceDetail | AttendanceLogs
    | AccountEdit | BruteAttendOptions | ProKeyVerify | ProAd | AdminDashboard | AdminProKeys
    | AdminUsers | AdminUserRunners | AdminLectureDetail | AssignmentReview | Terms | PrivacyPolicy
    | BugReport | Forbidden | NotFound

  /**
   * What a route asks of the session: nothing; a finished, logged-in session;
   * one with Pro; one without Pro; or one of an administrator.
   */
  datatype Guard = Open | Member | ProMember | FreeMember | Admin

  /** What a `<Route>` renders and the access it asks for. */
  datatype Route = Route(page: Page, guard: Guard)

  /** A path segment: non-empty and without `/`. */
  predicate Segment(s: string)
  {
    s != [] && '/' !in s
  }

  /** The routes with a plain path, in the order of `<Routes>`. */
  function StaticRoute(path: string): Option<Route>
  {
    if path == "/" then Some(Route(HomePage, Open))
    else if path == "/onboarding" then Some(Route(OnboardingPage, Open))
    else if path == "/lectures/manage" then Some(Route(ManageLectures, Member))
    else if path == "/attendance" then Some(Route(AttendancePage, Member))
    else if path == "/attendance/logs" then Some(Route(AttendanceLogs, Member))
    else if path == "/account/edit" then Some(Route(AccountEdit, Member))
    else if path == "/brute-attend-options" then Some(Route(BruteAttendOptions, ProMember))
    else if path == "/prokey/verify" then Some(Route(ProKeyVerify, FreeMember))
    else if path == "/pro-ad" then Some(Route(ProAd, FreeMember))
    else if path == "/admin/dashboard" then Some(Route(AdminDashboard, Admin))
    else if path == "/admin/prokeys" then Some(Route(AdminProKeys, Admin))
    else if path == "/admin/users" then Some(Route(AdminUsers, Admin))
    else if path == "/admin/user-runners" then Some(Route(AdminUserRunners, Admin))
    else if path == "/admin/lecture" then Some(Route(AdminLectureDetail, Admin))
    else if path == "/assignment/review" then Some(Route(AssignmentReview, ProMember))
    else if path == "/terms" then Some(Route(Terms, Open))
    else if path == "/privacy" then Some(Route(PrivacyPolicy, Open))
    else if path == "/bug-report" then Some(Route(BugReport, Open))
    else if path == "/forbidden" then Some(Route(Forbidden, Open))
    else None
  }

  /** Whether `path` is `prefix` followed by one segment, as `prefix:id` matches. */
  predicate WithParam(path: string, prefix: string)
  {
    StartsWith(path, prefix) && Segment(path[|prefix|..])
  }

  /**
   * The route a path selects. A plain path ranks above a `/:id` pattern, so
   * `/attendance/logs` is the log page and not a course called `logs`.
   */
  function Lookup(path: string): Option<Route>
  {
    if StaticRoute(path).Some? then StaticRoute(path)
    else if WithParam(path, "/attendance/") then Some(Route(AttendanceDetail, Member))
    else if WithParam(path, "/admin/lecture/") then Some(Route(AdminLectureDetail, Admin))
    else None
  }

  /** The four flags, once all of them are defined. */
  datatype Flags = Flags(isLoggedIn: bool, onboarding: bool, isAdmin: bool, isPro: bool)

  /** The router's props: each may still be `undefined`. */
  datatype Props = Props(isLoggedIn: Option<bool>, onboarding: Option<bool>, isAdmin: Option<bool>, isPro: Option<bool>)

  /** A logged-in session that has finished onboarding. */
  predicate IsMember(f: Flags)
  {
    f.isLoggedIn && !f.onboarding
  }

  predicate Allowed(g: Guard, f: Flags)
  {
    match g
    case Open => true
    case Member => IsMember(f)
    case ProMember => IsMember(f) && f.isPro
    case FreeMember => IsMember(f) && !f.isPro
    case Admin => IsMember(f) && f.isAdmin
  }

  /** What a `<Route>`'s element evaluates to: a page, a `<Navigate replace>`, or `null`. */
  datatype Element = Show(page: Page) | Redirect(to: string) | Blank

  /**
   * The element for a path: the page when its guard allows it, otherwise `/`
   * for most guarded pages and nothing for administrator pages; unknown
   * paths are "not found", or send an onboarding user to `/onboarding`.
   */
  function ElementFor(f: Flags, path: string): Element
  {
    ElementOf(Lookup(path), f)
  }

  /** The element of the selected route, or of the catch-all when none is selected. */
  function ElementOf(route: Option<Route>, f: Flags): Element
  {
    match route
    case None => if f.onboarding then Redirect("/onboarding") else Show(NotFound)
    case Some(r) =>
      if Allowed(r.guard, f) then Show(r.page)
      else if r.guard == Admin then Blank
      else Redirect("/")
  }

  /** The paths an onboarding user may stay on. */
  predicate OnboardingPath(path: string)
  {
    path == "/onboarding" || path == "/privacy" || path == "/terms"
  }

  /** The rendered tree: the onboarding redirect, whether the menu and the footer show, and the element. */
  datatype Screen = Screen(redirect: Option<string>, navbar: bool, element: Element, footer: bool)

  /**
   * `AppRouter` with the router at `path`: nothing until every prop is
   * defined. The footer is decided from `renderedPath`, the
   * `window.location.pathname` read when `AppRouter` last rendered; a link
   * followed inside the router changes `path` without rendering `AppRouter`
   * again.
   */
  function View(p: Props, path: string, renderedPath: string): Option<Screen>
  {
    if p.isLoggedIn.None? || p.onboarding.None? || p.isAdmin.None? || p.isPro.None? then None
    else
      var f := Flags(p.isLoggedIn.value, p.onboarding.value, p.isAdmin.value, p.isPro.value);
      Some(Screen(
        if f.onboarding && !OnboardingPath(path) then Some("/onboarding") else None,
        IsMember(f),
        ElementFor(f, path),
        !(renderedPath == "/privacy" || renderedPath == "/terms")))
  }

  /**
   * Nothing renders until all four props are defined; then an onboarding user
   * is sent to `/onboarding` from everywhere but the three allowed paths, the
   * menu shows exactly for members, and the footer everywhere but the two
   * legal pages, as the location read at the last render names them.
   */
  lemma ViewMeaning(p: Props, path: string, renderedPath: string)
    ensures View(p, path, renderedPath).None? <==>
              p.isLoggedIn.None? || p.onboarding.None? || p.isAdmin.None? || p.isPro.None?
    ensures View(p, path, renderedPath).Some? ==>
              var s := View(p, path, renderedPath).value;
              (s.redirect.Some? <==> p.onboarding.value && !OnboardingPath(path))
              && (s.redirect.Some? ==> s.redirect.value == "/onboarding")
              && (s.navbar <==> p.isLoggedIn.value && !p.onboarding.value)
              && (s.footer <==> renderedPath != "/privacy" && renderedPath != "/terms")
  {
  }

  /**
   * The footer can disagree with the page: after a link from `/privacy` to
   * `/lectures` it stays hidden, and after a link from `/` to `/privacy`
   * it stays shown.
   */
  lemma FooterStale(p: Props)
    requires p.isLoggedIn.Some? && p.onboarding.Some? && p.isAdmin.Some? && p.isPro.Some?
    ensures !View(p, "/lectures", "/privacy").value.footer
    ensures View(p, "/privacy", "/").value.footer
  {
  }

  /**
   * A guarded page is shown exactly when its guard holds, and only to
   * members; when it does not hold, an administrator page renders nothing and
   * any other page redirects to `/`.
   */
  lemma GuardMeaning(f: Flags, path: string)
    ensures Lookup(path).Some? ==>
              var r := Lookup(path).value;
              (ElementFor(f, path) == Show(r.page) <==> Allowed(r.guard, f))
              && (!Allowed(r.guard, f) ==> ElementFor(f, path) == (if r.guard == Admin then Blank else Redirect("/")))
              && (r.guard != Open && ElementFor(f, path).Show? ==> IsMember(f))
    ensures Lookup(path).None? ==>
              ElementFor(f, path) == (if f.onboarding then Redirect("/onboarding") else Show(NotFound))
  {
  }

  /** The pages that need a finished, logged-in session. */
  lemma MemberRoutes()
    ensures Lookup("/lectures/manage") == Some(Route(ManageLectures, Member))
    ensures Lookup("/attendance") == Some(Route(AttendancePage, Member))
    ensures Lookup("/attendance/logs") == Some(Route(AttendanceLogs, Member))
    ensures Lookup("/account/edit") == Some(Route(AccountEdit, Member))
  {
  }

  /** The pages that also need Pro, the ones hidden from Pro users, and the administrator pages. */
  lemma RestrictedRoutes()
    ensures Lookup("/brute-attend-options") == Some(Route(BruteAttendOptions, ProMember))
    ensures Lookup("/assignment/review") == Some(Route(AssignmentReview, ProMember))
    ensures Lookup("/prokey/verify") == Some(Route(ProKeyVerify, FreeMember))
    ensures Lookup("/pro-ad") == Some(Route(ProAd, FreeMember))
    ensures Lookup("/admin/dashboard") == Some(Route(AdminDashboard, Admin))
    ensures Lookup("/admin/prokeys") == Some(Route(AdminProKeys, Admin))
    ensures Lookup("/admin/users") == Some(Route(AdminUsers, Admin))
    ensures Lookup("/admin/user-runners") == Some(Route(AdminUserRunners, Admin))
    ensures Lookup("/admin/lecture") == Some(Route(AdminLectureDetail, Admin))
  {
  }

  /** The pages anyone may open, whatever the flags. */
  lemma OpenRoutes(f: Flags)
    ensures ElementFor(f, "/") == Show(HomePage) && ElementFor(f, "/onboarding") == Show(OnboardingPage)
    ensures ElementFor(f, "/terms") == Show(Terms) && ElementFor(f, "/privacy") == Show(PrivacyPolicy)
    ensures ElementFor(f, "/bug-report") == Show(BugReport) && ElementFor(f, "/forbidden") == Show(Forbidden)
  {
  }

  /** `/attendance/:courseId` takes every course id but `logs`. */
  lemma CourseRoute(id: string)
    requires Segment(id) && id != "logs"
    ensures Lookup("/attendance/" + id) == Some(Route(AttendanceDetail, Member))
  {
    var a := "/attendance/" + id;
    assert a[..12] == "/attendance/" && a[12..] == id;
    assert a != "/attendance/logs" by {
      assert "/attendance/logs"[12..] == "logs";
    }
    NotStaticCourse(a);
  }

  /** A path longer than `/attendance/` with its letters at 1, 2 and 11 is no plain route but the log page. */
  lemma NotStaticCourse(path: string)
    requires |path| > 12 && path[1] == 'a' && path[2] == 't' && path[11] == '/' && path != "/attendance/logs"
    ensures StaticRoute(path).None?
  {
  }

  /** `/admin/lecture/:lectureId` takes every id. */
  lemma LectureRoute(id: string)
    requires Segment(id)
    ensures Lookup("/admin/lecture/" + id) == Some(Route(AdminLectureDetail, Admin))
  {
    var b := "/admin/lecture/" + id;
    assert b[..15] == "/admin/lecture/" && b[15..] == id;
    assert b[1] == 'a' && b[2] == 'd' && b[7] == 'l' && b[14] == '/';
  }

  /** Where each menu link leads. */
  lemma LinkTargets()
    ensures Navbar.NavLinks[1].to == "/lectures/all"
    ensures Lookup(Navbar.NavLinks[0].to) == Some(Route(HomePage, Open))
    ensures Lookup(Navbar.NavLinks[1].to) == None
    ensures Lookup(Navbar.NavLinks[2].to) == Some(Route(ManageLectures, Member))
    ensures Lookup(Navbar.NavLinks[3].to) == Some(Route(AttendanceLogs, Member))
    ensures Lookup(Navbar.NavLinks[4].to) == Some(Route(AccountEdit, Member))
    ensures Lookup(Navbar.NavLinks[5].to) == Some(Route(BruteAttendOptions, ProMember))
    ensures Lookup(Navbar.NavLinks[6].to) == Some(Route(ProAd, FreeMember))
    ensures Lookup(Navbar.NavLinks[7].to) == Some(Route(AssignmentReview, ProMember))
    ensures Lookup(Navbar.NavLinks[8].to) == Some(Route(AdminDashboard, Admin))
  {
    var p := "/lectures/all";
    assert p[1] == 'l' && !StartsWith(p, "/admin/lecture/");
  }

  /**
   * The menu and the route guards agree: for a member, each of the nine
   * links, whenever the menu shows it, opens its page; only `/lectures/all`,
   * which no route serves, opens "not found".
   */
  lemma MenuLinksOpen(isAdmin: bool, isPro: bool)
    ensures var f := Flags(true, false, isAdmin, isPro);
      var links := Navbar.NavLinks;
      ElementFor(f, links[0].to) == Show(HomePage)
      && ElementFor(f, links[1].to) == Show(NotFound)
      && ElementFor(f, links[2].to) == Show(ManageLectures)
      && ElementFor(f, links[3].to) == Show(AttendanceLogs)
      && ElementFor(f, links[4].to) == Show(AccountEdit)
      && (Navbar.Visible(links[5], isAdmin, isPro) ==> ElementFor(f, links[5].to) == Show(BruteAttendOptions))
      && (Navbar.Visible(links[6], isAdmin, isPro) ==> ElementFor(f, links[6].to) == Show(ProAd))
      && (Navbar.Visible(links[7], isAdmin, isPro) ==> ElementFor(f, links[7].to) == Show(AssignmentReview))
      && (Navbar.Visible(links[8], isAdmin, isPro) ==> ElementFor(f, links[8].to) == Show(AdminDashboard))
  {
    LinkTargets();
  }
}
