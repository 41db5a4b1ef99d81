/**
 * The route table and the three screen routers. A dashboard route takes its key from
 * `subtype || type`, a page route from `subsection || section`, a favorites route from
 * `page`; the key is looked up in the screen map, with a "not available yet" message
 * naming the key when it is absent.
 */
module Router {
  import opened Wrappers
  import opened Screens

  /** What a route renders: a redirect, or one of the three routers inside the layout. */
  datatype RouteElement = RedirectTo(target: string) | DashboardRoute | PageRoute | FavoritesRoute

  datatype Route = Route(pattern: string, element: RouteElement)

  /** `routes`, in order. */
  const Routes: seq<Route> := [
    Route("/", RedirectTo("/dashboards/default")),
    Route("/dashboards", RedirectTo("/dashboards/default")),
    Route("/pages", RedirectTo("/pages/user-profile/overview")),
    Route("/dashboards/:type/:subtype?", DashboardRoute),
    Route("/pages/:section/:subsection?", PageRoute),
    Route("/favorites/:page", FavoritesRoute)
  ]

  /**
   * The target of the first route with this exact pattern that redirects, if any: "/" and
   * "/dashboards" go to the default dashboard, "/pages" to the user-profile overview.
   */
  function RedirectTarget(pattern: string): (r: Option<string>)
    ensures r == if pattern == "/" || pattern == "/dashboards" then Some("/dashboards/default")
                 else if pattern == "/pages" then Some("/pages/user-profile/overview")
                 else None
  {
    FirstRedirect(Routes, pattern)
  }

  function FirstRedirect(routes: seq<Route>, pattern: string): (r: Option<string>)
    ensures r.Some? ==> exists i :: 0 <= i < |routes| && routes[i].pattern == pattern && routes[i].element == RedirectTo(r.value)
    ensures r.None? ==> forall i :: 0 <= i < |routes| && routes[i].pattern == pattern ==> !routes[i].element.RedirectTo?
  {
    if routes == [] then None
    else if routes[0].pattern == pattern && routes[0].element.RedirectTo? then Some(routes[0].element.target)
    else
      var r := FirstRedirect(routes[1..], pattern);
      assert forall i :: 0 <= i < |routes| - 1 ==> routes[1..][i] == routes[i + 1];
      r
  }

  /** What a router renders. */
  datatype View = ShowScreen(screen: Screen) | NotAvailable(message: string)

  /** `a || b` on an optional route parameter and a required one. */
  function Or(optional: Option<string>, required: string): (k: string)
    ensures optional.Some? && optional.value != "" ==> k == optional.value
    ensures !(optional.Some? && optional.value != "") ==> k == required
  {
    if optional.Some? && optional.value != "" then optional.value else required
  }

  /** The fallback text: the kind, the key in double quotes, then "not available yet :)". */
  function Message(kind: string, key: string): (m: string)
    ensures |m| == |kind| + |key| + 24
    ensures m[..|kind|] == kind && m[|kind|..|kind| + 2] == " \""
    ensures m[|kind| + 2..|kind| + 2 + |key|] == key
    ensures m[|kind| + 2 + |key|..] == "\" not available yet :)"
  {
    kind + " \"" + key + "\" not available yet :)"
  }

  /** The message names its key: two keys of one kind with the same message are the same key. */
  lemma MessageNamesKey(kind: string, a: string, b: string)
    requires Message(kind, a) == Message(kind, b)
    ensures a == b
  {
    var m := Message(kind, a);
    assert a == m[|kind| + 2..|kind| + 2 + |a|];
  }

  function Resolve(key: string, kind: string): (v: View)
    ensures v.ShowScreen? <==> Lookup(key).Some?
    ensures v.ShowScreen? ==> Lookup(key) == Some(v.screen)
    ensures v.NotAvailable? ==> v.message == Message(kind, key)
  {
    match Lookup(key)
    case Some(s) => ShowScreen(s)
    case None => NotAvailable(Message(kind, key))
  }

  /** `DashboardRouter` for the parameters of "/dashboards/:type/:subtype?". */
  function DashboardRouter(dashType: string, subtype: Option<string>): (v: View)
    ensures var key := if subtype.Some? && subtype.value != "" then subtype.value else dashType;
            && (v.ShowScreen? <==> key in ScreenMap)
            && (v.ShowScreen? ==> v.screen == ScreenMap[key])
            && (v.NotAvailable? ==> v.message == Message("Dashboard", key))
  {
    Resolve(Or(subtype, dashType), "Dashboard")
  }

  /** `PageRouter` for the parameters of "/pages/:section/:subsection?". */
  function PageRouter(section: string, subsection: Option<string>): (v: View)
    ensures var key := if subsection.Some? && subsection.value != "" then subsection.value else section;
            && (v.ShowScreen? <==> key in ScreenMap)
            && (v.ShowScreen? ==> v.screen == ScreenMap[key])
            && (v.NotAvailable? ==> v.message == Message("Page", key))
  {
    Resolve(Or(subsection, section), "Page")
  }

  /** `FavoritesRouter` for the parameter of "/favorites/:page". */
  function FavoritesRouter(page: string): (v: View)
    ensures var key := page;
            && (v.ShowScreen? <==> key in ScreenMap)
            && (v.ShowScreen? ==> v.screen == ScreenMap[key])
            && (v.NotAvailable? ==> v.message == Message("Page", key))
  {
    Resolve(page, "Page")
  }

  /** "/" and "/dashboards" redirect to the default dashboard, "/pages" to the user-profile overview, and nothing else redirects. */
  lemma Redirects()
    ensures RedirectTarget("/") == Some("/dashboards/default")
    ensures RedirectTarget("/dashboards") == Some("/dashboards/default")
    ensures RedirectTarget("/pages") == Some("/pages/user-profile/overview")
    ensures forall i :: 3 <= i < |Routes| ==> RedirectTarget(Routes[i].pattern) == None
  {
    RootRedirect();
    DashboardsRedirect();
    PagesRedirect();
    RouterPatternsDoNotRedirect();
  }

  lemma RootRedirect()
    ensures RedirectTarget("/") == Some("/dashboards/default")
  {
    assert Routes[0] == Route("/", RedirectTo("/dashboards/default"));
  }

  lemma DashboardsRedirect()
    ensures RedirectTarget("/dashboards") == Some("/dashboards/default")
  {
    assert Routes[0].pattern != "/dashboards";
    assert Routes[1..][0] == Route("/dashboards", RedirectTo("/dashboards/default"));
  }

  lemma PagesRedirect()
    ensures RedirectTarget("/pages") == Some("/pages/user-profile/overview")
  {
    assert Routes[0].pattern != "/pages" && Routes[1].pattern != "/pages";
    assert Routes[1..][1..] == Routes[2..];
    assert Routes[2..][0] == Route("/pages", RedirectTo("/pages/user-profile/overview"));
  }

  /** The three router patterns share no pattern with a redirect, so they do not redirect. */
  lemma RouterPatternsDoNotRedirect()
    ensures forall i :: 3 <= i < |Routes| ==> RedirectTarget(Routes[i].pattern) == None
  {
    forall i | 3 <= i < |Routes| ensures RedirectTarget(Routes[i].pattern) == None {
      var pat := Routes[i].pattern;
      assert forall j :: 0 <= j < |Routes| && Routes[j].element.RedirectTo? ==> j < 3;
      assert pat != "/" && pat != "/dashboards" && pat != "/pages";
    }
  }

  /** No redirect lands on a pattern that redirects again. */
  lemma NoRedirectChains()
    ensures forall i :: 0 <= i < |Routes| && Routes[i].element.RedirectTo? ==> RedirectTarget(Routes[i].element.target) == None
  {
    var targets := ["/dashboards/default", "/pages/user-profile/overview"];
    assert forall i :: 0 <= i < |Routes| && Routes[i].element.RedirectTo? ==> Routes[i].element.target in targets;
    forall t | t in targets ensures RedirectTarget(t) == None {
      assert forall j :: 0 <= j < |Routes| ==> Routes[j].pattern != t;
    }
  }

  /** The default dashboard shows the default screen; the "/pages" landing page has no screen. */
  lemma RedirectLandings()
    ensures DashboardRouter("default", None) == ShowScreen(DefaultScreen)
    ensures PageRouter("user-profile", Some("overview")) == NotAvailable(Message("Page", "overview"))
  {
    assert Or(Some("overview"), "user-profile") == "overview";
    assert Lookup("overview") == None;
  }

  /** A non-empty subtype decides the dashboard alone; the type only matters without one. */
  lemma SubtypeDecides(t1: string, t2: string, subtype: string)
    requires subtype != ""
    ensures DashboardRouter(t1, Some(subtype)) == DashboardRouter(t2, Some(subtype))
    ensures DashboardRouter(t1, Some("")) == DashboardRouter(t1, None)
  {
  }

  /** "default" and "ecommerce" show the same screen, and "/dashboards/ecommerce/orders" shows the order list. */
  lemma DashboardScreens()
    ensures DashboardRouter("default", None) == DashboardRouter("ecommerce", None) == ShowScreen(DefaultScreen)
    ensures DashboardRouter("ecommerce", Some("orders")) == ShowScreen(OrdersList)
  {
  }

  /** The last path segments of the page menu's entries. */
  const PageLeafKeys: set<string> := {"overview", "projects", "campaigns", "documents", "followers",
                                      "users", "roles", "posts", "activities", "messages", "friends"}

  /** With "overview" and "projects" left out of the map, every page of the menu and both favorites links fall back. */
  lemma PagesAndFavoritesFallBack(section: string, subsection: string)
    requires subsection in PageLeafKeys
    ensures PageRouter(section, Some(subsection)).NotAvailable?
    ensures FavoritesRouter("overview").NotAvailable? && FavoritesRouter("projects").NotAvailable?
  {
  }

  /** In all three routers, an inherited `Object.prototype` name falls back to the message like any other unknown key. */
  lemma InheritedNamesFallBack(name: string, other: string)
    requires name in ObjectPrototypeMembers
    ensures DashboardRouter(other, Some(name)) == NotAvailable(Message("Dashboard", name))
    ensures PageRouter(other, Some(name)) == NotAvailable(Message("Page", name))
    ensures FavoritesRouter(name) == NotAvailable(Message("Page", name))
  {
    assert name != "";
    assert Lookup(name) == None;
  }

  /** What the routers render as written: the truthy value of `ScreenMap[key]`, or the message. */
  datatype RenderedView = RenderedValue(property: Property) | Fallback(message: string)

  function DashboardRouterAsWritten(dashType: string, subtype: Option<string>): (v: RenderedView)
    ensures v.Fallback? <==> PropertyOf(Or(subtype, dashType)).Undefined?
  {
    var key := Or(subtype, dashType);
    var p := PropertyOf(key);
    if Truthy(p) then RenderedValue(p) else Fallback(Message("Dashboard", key))
  }

  /** Outside the inherited names, the as-written router and the model agree. */
  lemma AsWrittenAgrees(dashType: string, subtype: Option<string>)
    requires Or(subtype, dashType) !in ObjectPrototypeMembers
    ensures DashboardRouter(dashType, subtype).ShowScreen? <==> DashboardRouterAsWritten(dashType, subtype).RenderedValue?
    ensures DashboardRouter(dashType, subtype).ShowScreen? ==>
              DashboardRouterAsWritten(dashType, subtype) == RenderedValue(OwnScreen(DashboardRouter(dashType, subtype).screen))
    ensures DashboardRouter(dashType, subtype).NotAvailable? ==>
              DashboardRouterAsWritten(dashType, subtype) == Fallback(DashboardRouter(dashType, subtype).message)
  {
  }

  /**
   * "/dashboards/constructor" escapes the fallback as written: `ScreenMap["constructor"]` is the
   * inherited `Object` function, which is truthy and is no screen, and React renders a function
   * child as nothing, so the page stays blank. The model shows the message.
   */
  lemma ConstructorEscapesFallback()
    ensures DashboardRouterAsWritten("constructor", None) == RenderedValue(Inherited("constructor"))
    ensures DashboardRouter("constructor", None) == NotAvailable(Message("Dashboard", "constructor"))
  {
    assert Or(None, "constructor") == "constructor";
    assert "constructor" !in ScreenMap && "constructor" in ObjectPrototypeMembers;
  }
}
