/**
 * The route table of the application shell (src/App.tsx): which element each path renders for
 * the current user, the role guards of the two portals, and logging out.
 */
module App {
  import opened Wrappers
  import opened Types
  import opened Strings

  /** The four pages of the user portal. */
  datatype UserPage = Home | ReportForm | DisasterDetail(id: string) | Profile

  /** The four pages of the admin portal. */
  datatype AdminPage = Dashboard | Actions | AdminProfile | AdminDisasterDetail(id: string)

  /** The route a path selects; `Unmatched` is the catch-all `*`. */
  datatype Route = Root | UserRoute(userPage: UserPage) | AdminRoute(adminPage: AdminPage) | Unmatched

  /** What the router renders: a page, the not-found page, or a redirect to another path. */
  datatype Element =
    | Login
    | Redirect(to: string)
    | UserPortal(userPage: UserPage)
    | AdminPortal(adminPage: AdminPage)
    | NotFoundPage

  const DisastersSegment: string := "disasters"
  const ReportSegment: string := "report"
  const ProfileSegment: string := "profile"
  const AdminSegment: string := "admin"
  const ActionsSegment: string := "actions"

  /** The three paths the guards redirect to. */
  const RootPath: string := "/"
  const AdminHomePath: string := "/admin"
  const UserHomePath: string := "/disasters"

  /** A segment a `:id` parameter matches: not empty and without a slash. */
  predicate IsParam(s: string) {
    s != [] && FreeOf(s, '/')
  }

  /** The route of the segments after the leading slash. */
  function RouteOfSegments(segs: seq<string>): (r: Route)
    ensures r != Unmatched ==> WellFormed(r) && SegmentsOf(r) == segs
  {
    if segs == [[]] then Root
    else if segs == [DisastersSegment] then UserRoute(Home)
    else if segs == [ReportSegment] then UserRoute(ReportForm)
    else if |segs| == 2 && segs[0] == DisastersSegment && IsParam(segs[1]) then UserRoute(DisasterDetail(segs[1]))
    else if segs == [ProfileSegment] then UserRoute(Profile)
    else if segs == [AdminSegment] then AdminRoute(Dashboard)
    else if segs == [AdminSegment, ActionsSegment] then AdminRoute(Actions)
    else if segs == [AdminSegment, ProfileSegment] then AdminRoute(AdminProfile)
    else if |segs| == 3 && segs[0] == AdminSegment && segs[1] == DisastersSegment && IsParam(segs[2]) then
      AdminRoute(AdminDisasterDetail(segs[2]))
    else Unmatched
  }

  /** The segments of a route's path, the inverse of `RouteOfSegments`. */
  function SegmentsOf(r: Route): seq<string>
    requires r != Unmatched
  {
    match r
    case Root => [[]]
    case UserRoute(Home) => [DisastersSegment]
    case UserRoute(ReportForm) => [ReportSegment]
    case UserRoute(DisasterDetail(id)) => [DisastersSegment, id]
    case UserRoute(Profile) => [ProfileSegment]
    case AdminRoute(Dashboard) => [AdminSegment]
    case AdminRoute(Actions) => [AdminSegment, ActionsSegment]
    case AdminRoute(AdminProfile) => [AdminSegment, ProfileSegment]
    case AdminRoute(AdminDisasterDetail(id)) => [AdminSegment, DisastersSegment, id]
  }

  /** The route of a path: it must start with a slash, and the rest is split at slashes. */
  function MatchRoute(path: string): (r: Route)
    ensures (|path| == 0 || path[0] != '/') ==> r == Unmatched
    ensures r != Unmatched ==> WellFormed(r)
  {
    if |path| >= 1 && path[0] == '/' then RouteOfSegments(Split(path[1..], '/')) else Unmatched
  }

  /** The path of a route. */
  function PathOf(r: Route): string
    requires r != Unmatched
  {
    "/" + Join(SegmentsOf(r), "/")
  }

  /** A route whose parameter, if any, is a segment a `:id` can match. */
  predicate WellFormed(r: Route) {
    match r
    case UserRoute(DisasterDetail(id)) => IsParam(id)
    case AdminRoute(AdminDisasterDetail(id)) => IsParam(id)
    case Unmatched => false
    case _ => true
  }

  lemma RouteOfSegmentsOf(r: Route)
    requires WellFormed(r)
    ensures RouteOfSegments(SegmentsOf(r)) == r
  {
  }

  /** The segments of a well-formed route hold no slash. */
  lemma SegmentsAreFree(r: Route)
    requires WellFormed(r)
    ensures forall i :: 0 <= i < |SegmentsOf(r)| ==> FreeOf(SegmentsOf(r)[i], '/')
  {
  }

  /** Every well-formed route's path selects that route. */
  lemma PathRoundTrip(r: Route)
    requires WellFormed(r)
    ensures MatchRoute(PathOf(r)) == r
  {
    var path := PathOf(r);
    assert path[1..] == Join(SegmentsOf(r), "/");
    assert "/" == ['/'];
    SegmentsAreFree(r);
    JoinSplit(SegmentsOf(r), '/');
    RouteOfSegmentsOf(r);
  }

  /** Every path that selects a route is that route's path. */
  lemma MatchedPathRoundTrip(path: string)
    requires MatchRoute(path) != Unmatched
    ensures PathOf(MatchRoute(path)) == path
  {
    assert "/" == ['/'];
    SplitJoin(path[1..], '/');
    assert path == [path[0]] + path[1..];
  }

  /** The role guard of one route: who may see it, and where everybody else is sent. */
  function RouteElement(user: Option<User>, r: Route): (e: Element)
    ensures e == NotFoundPage <==> r.Unmatched?
  {
    match r
    case Root =>
      if user.None? then Login
      else if user.value.role == AdminRole then Redirect(AdminHomePath)
      else Redirect(UserHomePath)
    case UserRoute(p) =>
      if user.Some? && user.value.role == UserRole then UserPortal(p) else Redirect(RootPath)
    case AdminRoute(p) =>
      if user.Some? && user.value.role == AdminRole then AdminPortal(p) else Redirect(RootPath)
    case Unmatched => NotFoundPage
  }

  /** The element the router renders for a path. */
  function Render(user: Option<User>, path: string): (e: Element)
    ensures e == NotFoundPage <==> MatchRoute(path) == Unmatched
  {
    RouteElement(user, MatchRoute(path))
  }

  /** `handleLogout`: there is no current user any more. */
  function HandleLogout(user: Option<User>): (next: Option<User>)
    ensures next.None?
  {
    None
  }

  /** At the root, nobody logged in sees the login page; a logged-in user is sent to their portal's home. */
  lemma RootRouting(user: Option<User>)
    ensures Render(user, "/") == Login <==> user.None?
    ensures user.Some? && user.value.role == AdminRole ==> Render(user, "/") == Redirect("/admin")
    ensures user.Some? && user.value.role == UserRole ==> Render(user, "/") == Redirect("/disasters")
  {
    assert "/"[1..] == [];
  }

  /** A user-portal page renders exactly for a current user of role user; everybody else goes to the root. */
  lemma UserGuard(user: Option<User>, p: UserPage)
    ensures RouteElement(user, UserRoute(p)) == UserPortal(p) <==> user.Some? && user.value.role == UserRole
    ensures !(user.Some? && user.value.role == UserRole) ==> RouteElement(user, UserRoute(p)) == Redirect("/")
  {
  }

  /** An admin-portal page renders exactly for a current user of role admin; everybody else goes to the root. */
  lemma AdminGuard(user: Option<User>, p: AdminPage)
    ensures RouteElement(user, AdminRoute(p)) == AdminPortal(p) <==> user.Some? && user.value.role == AdminRole
    ensures !(user.Some? && user.value.role == AdminRole) ==> RouteElement(user, AdminRoute(p)) == Redirect("/")
  {
  }

  /** No current user can see a page of each portal. */
  lemma PortalsExclusive(user: Option<User>, path1: string, path2: string)
    ensures !(Render(user, path1).UserPortal? && Render(user, path2).AdminPortal?)
  {
  }

  /** After logging out, every portal page sends the visitor back to the root, where the login page is. */
  lemma LogoutGuardsEverything(user: Option<User>, path: string)
    requires MatchRoute(path).UserRoute? || MatchRoute(path).AdminRoute?
    ensures Render(HandleLogout(user), path) == Redirect("/")
    ensures Render(HandleLogout(user), "/") == Login
  {
    RootRouting(None);
  }

  /** A path no route claims renders the not-found page whoever is logged in. */
  lemma UnmatchedIsNotFound(user: Option<User>, path: string)
    requires |path| == 0 || path[0] != '/'
    ensures Render(user, path) == NotFoundPage
  {
  }

  /** A path under the user portal with an extra segment is not a route. */
  lemma DeepPathNotFound(user: Option<User>, id: string, extra: string)
    requires IsParam(id) && FreeOf(extra, '/')
    ensures Render(user, "/disasters/" + id + "/" + extra) == NotFoundPage
  {
    var path := "/disasters/" + id + "/" + extra;
    JoinThree(DisastersSegment, id, extra, "/");
    assert path == "/" + Join([DisastersSegment, id, extra], "/");
    assert "/" == ['/'];
    JoinSplit([DisastersSegment, id, extra], '/');
    assert path[1..] == Join([DisastersSegment, id, extra], "/");
  }

  /** The paths the guards redirect to select the root and the two portals' home pages. */
  lemma RootPathRoute()
    ensures MatchRoute(RootPath) == Root
  {
    assert RootPath[1..] == [];
  }

  lemma AdminPathRoute()
    ensures MatchRoute(AdminHomePath) == AdminRoute(Dashboard)
  {
    SegmentPathRoute(AdminHomePath, AdminSegment);
  }

  lemma DisastersPathRoute()
    ensures MatchRoute(UserHomePath) == UserRoute(Home)
  {
    SegmentPathRoute(UserHomePath, DisastersSegment);
  }

  /** A slash followed by one slash-free segment splits into that segment. */
  lemma SegmentPathRoute(path: string, segment: string)
    requires path == "/" + segment && FreeOf(segment, '/')
    ensures |path| >= 1 && path[0] == '/' && Split(path[1..], '/') == [segment]
  {
    assert path[1..] == segment;
    SplitFreePrefix(segment, [], '/');
    assert segment + [] == segment;
  }

  /** At most two redirects from any path, a page renders. */
  lemma RedirectsSettle(user: Option<User>, path: string)
    ensures Render(user, path).Redirect? ==>
      var e1 := Render(user, Render(user, path).to);
      !e1.Redirect? || !Render(user, e1.to).Redirect?
  {
    RedirectsSettleFrom(user, MatchRoute(path));
  }

  lemma RedirectsSettleFrom(user: Option<User>, r: Route)
    ensures RouteElement(user, r).Redirect? ==>
      var e1 := Render(user, RouteElement(user, r).to);
      !e1.Redirect? || !Render(user, e1.to).Redirect?
  {
    RootPathRoute();
    AdminPathRoute();
    DisastersPathRoute();
    var e := RouteElement(user, r);
    if e.Redirect? {
      if user.None? {
        assert e.to == RootPath;
      } else if user.value.role == AdminRole {
        assert e.to == RootPath || e.to == AdminHomePath;
      } else {
        assert e.to == RootPath || e.to == UserHomePath;
      }
    }
  }

  /** The report form's navigation after a submission opens the user portal's detail page of that report. */
  lemma SubmitNavigationRoute(id: string)
    requires IsParam(id)
    ensures MatchRoute("/disasters/" + id) == UserRoute(DisasterDetail(id))
  {
    PathRoundTrip(UserRoute(DisasterDetail(id)));
    JoinTwo(DisastersSegment, id, "/");
    assert PathOf(UserRoute(DisasterDetail(id))) == "/disasters/" + id;
  }
}
