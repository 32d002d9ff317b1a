/** The site's route table: five path/title pairs, each rendering one page, with a
    catch-all not-found page for every other path. */
module Routes {
  import opened Common

  datatype Page = Home | Hire | GetHired | Warn | Book | NotFound

  datatype Route = Route(path: string, title: string, page: Page)

  const Table: seq<Route> := [
    Route("/", "Home", Home),
    Route("/getting-started", "Start Process", Hire),
    Route("/discovery-call", "Discovery Call", GetHired),
    Route("/disqualified", "Not Qualified Yet", Warn),
    Route("/book-consultation", "Consultation Booking", Book)
  ]

  predicate IsTablePath(path: string)
  {
    exists i | 0 <= i < |Table| :: Table[i].path == path
  }

  /** The first route of `routes` whose path is `path`. */
  function Find(routes: seq<Route>, path: string): (r: Option<Route>)
    ensures r.None? <==> forall i | 0 <= i < |routes| :: routes[i].path != path
    ensures r.Some? ==> exists i | 0 <= i < |routes| :: routes[i] == r.value && FirstWithPath(routes, path, i)
  {
    if routes == [] then None
    else if routes[0].path == path then
      assert FirstWithPath(routes, path, 0);
      Some(routes[0])
    else
      var r := Find(routes[1..], path);
      assert forall i | 1 <= i < |routes| :: routes[i] == routes[1..][i - 1];
      if r.Some? then
        var i :| 0 <= i < |routes| - 1 && routes[1..][i] == r.value && FirstWithPath(routes[1..], path, i);
        assert routes[i + 1] == r.value && FirstWithPath(routes, path, i + 1);
        r
      else r
  }

  /** `routes[i]` is the first route whose path is `path`. */
  predicate FirstWithPath(routes: seq<Route>, path: string, i: nat)
  {
    i < |routes| && routes[i].path == path && forall j | 0 <= j < i :: routes[j].path != path
  }

  /** The page the router renders for a location: the table's route for it, or the
      not-found page. */
  function Resolve(path: string): (p: Page)
    ensures p == NotFound <==> !IsTablePath(path)
    ensures p != NotFound ==> exists i | 0 <= i < |Table| :: Table[i].path == path && Table[i].page == p
  {
    match Find(Table, path)
    case None => NotFound
    case Some(r) => r.page
  }

  /** The title the table gives a path. */
  function TitleOf(path: string): (t: Option<string>)
    ensures t.Some? <==> IsTablePath(path)
    ensures t.Some? ==> exists i | 0 <= i < |Table| :: Table[i].path == path && Table[i].title == t.value
  {
    match Find(Table, path)
    case None => None
    case Some(r) => Some(r.title)
  }

  predicate DistinctPaths(routes: seq<Route>)
  {
    forall i, j | 0 <= i < j < |routes| :: routes[i].path != routes[j].path
  }

  /** The table holds exactly five routes, in this order, with pairwise distinct paths. */
  lemma TableShape()
    ensures |Table| == 5
    ensures Table[0].path == "/" && Table[1].path == "/getting-started"
    ensures Table[2].path == "/discovery-call" && Table[3].path == "/disqualified"
    ensures Table[4].path == "/book-consultation"
    ensures DistinctPaths(Table)
  {
  }

  /** With distinct paths, each path of the table has exactly one title and one page: the
      ones of its route. */
  lemma RouteOfPath(i: nat)
    requires i < |Table|
    ensures TitleOf(Table[i].path) == Some(Table[i].title)
    ensures Resolve(Table[i].path) == Table[i].page
  {
    TableShape();
    assert IsTablePath(Table[i].path);
  }

  lemma DisqualifiedTitle()
    ensures TitleOf("/disqualified") == Some("Not Qualified Yet")
    ensures Resolve("/disqualified") == Warn
  {
    RouteOfPath(3);
  }

  /** Every in-site link target written in the pages' markup: the Hire page's previous
      and both next targets (pages/Hire.tsx lines 10 and 55), the not-qualified page's two
      buttons (pages/Warn.tsx lines 12 and 16), the header's logo and two buttons
      (components/Header.tsx lines 9, 21 and 24), and the home page's logo, two sticky
      header links and two buttons (pages/home/index.tsx lines 119, 146, 157, 231 and
      234). `Hire.HireLinksListed` ties the Hire page's entries to the members that
      produce them. */
  const FunnelLinks: seq<string> := [
    "/", "/disqualified", "/discovery-call",
    "/getting-started", "/book-consultation",
    "/", "/book-consultation", "/getting-started",
    "/", "/book-consultation", "/getting-started", "/book-consultation", "/getting-started"
  ]

  /** Every funnel link lands on a page of the table, never on the not-found page. */
  lemma FunnelLinksResolve()
    ensures forall k | 0 <= k < |FunnelLinks| :: Resolve(FunnelLinks[k]) != NotFound
  {
    forall k | 0 <= k < |FunnelLinks| ensures IsTablePath(FunnelLinks[k]) {
      if FunnelLinks[k] == "/" { assert Table[0].path == "/"; }
      else if FunnelLinks[k] == "/getting-started" { assert Table[1].path == FunnelLinks[k]; }
      else if FunnelLinks[k] == "/discovery-call" { assert Table[2].path == FunnelLinks[k]; }
      else if FunnelLinks[k] == "/disqualified" { assert Table[3].path == FunnelLinks[k]; }
      else { assert Table[4].path == FunnelLinks[k]; }
    }
  }

  /** Any other location renders the not-found page. */
  lemma UnknownPathNotFound(path: string)
    requires forall i | 0 <= i < |Table| :: Table[i].path != path
    ensures Resolve(path) == NotFound && TitleOf(path) == None
  {
  }
}
