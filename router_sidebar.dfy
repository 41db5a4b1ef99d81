/**
 * The sidebar driven by the router (SidebarWithRouter): a static menu tree, a list of
 * expanded group ids, a recursive render that decides which rows are shown and which
 * are highlighted against the current pathname, and a click rule that either toggles a
 * group or navigates to a path.
 */
module RouterSidebar {
  import opened Wrappers
  import opened Text
  import opened Expansion

  /** A menu entry (`caption` is the source's `label`); an absent `children` array is the empty sequence. */
  datatype MenuItem = MenuItem(id: string, caption: string, path: Option<string>, children: seq<MenuItem>)

  /** `item.children && item.children.length > 0`. */
  predicate HasChildren(item: MenuItem): (b: bool)
    ensures b <==> item.children != []
  {
    |item.children| > 0
  }

  function Leaf(id: string, caption: string, path: string): MenuItem {
    MenuItem(id, caption, Some(path), [])
  }

  /** The menu the component renders. */
  const Menu: seq<MenuItem> := [
    MenuItem("dashboards", "Dashboards", None, [
      Leaf("default", "Default", "/dashboards/default"),
      MenuItem("ecommerce", "eCommerce", Some("/dashboards/ecommerce"), [
        Leaf("products", "Products", "/dashboards/ecommerce/products"),
        Leaf("orders", "Orders", "/dashboards/ecommerce/orders"),
        Leaf("customers", "Customers", "/dashboards/ecommerce/customers")]),
      MenuItem("projects-dash", "Projects", Some("/dashboards/projects"), [
        Leaf("active-projects", "Active Projects", "/dashboards/projects/active"),
        Leaf("archived-projects", "Archived Projects", "/dashboards/projects/archived"),
        Leaf("project-tasks", "Project Tasks", "/dashboards/projects/tasks")]),
      MenuItem("online-courses", "Online Courses", Some("/dashboards/online-courses"), [
        Leaf("my-courses", "My Courses", "/dashboards/online-courses/my-courses"),
        Leaf("course-catalog", "Course Catalog", "/dashboards/online-courses/catalog"),
        Leaf("instructors", "Instructors", "/dashboards/online-courses/instructors")])]),
    MenuItem("pages", "Pages", None, [
      MenuItem("user-profile", "User Profile", None, [
        Leaf("profile-overview", "Overview", "/pages/user-profile/overview"),
        Leaf("profile-projects", "Projects", "/pages/user-profile/projects"),
        Leaf("campaigns", "Campaigns", "/pages/user-profile/campaigns"),
        Leaf("documents", "Documents", "/pages/user-profile/documents"),
        Leaf("followers", "Followers", "/pages/user-profile/followers")]),
      MenuItem("account", "Account", None, [
        Leaf("account-overview", "Overview", "/pages/account/overview")]),
      MenuItem("corporate", "Corporate", None, [
        Leaf("corporate-overview", "Overview", "/pages/corporate/overview"),
        Leaf("corporate-projects", "Projects", "/pages/corporate/projects"),
        Leaf("corporate-users", "Users", "/pages/corporate/users"),
        Leaf("corporate-roles", "Roles", "/pages/corporate/roles")]),
      MenuItem("blog", "Blog", None, [
        Leaf("blog-overview", "Overview", "/pages/blog/overview"),
        Leaf("blog-posts", "Posts", "/pages/blog/posts")]),
      MenuItem("social", "Social", None, [
        Leaf("social-overview", "Overview", "/pages/social/overview"),
        Leaf("social-activities", "Activities", "/pages/social/activities"),
        Leaf("social-messages", "Messages", "/pages/social/messages"),
        Leaf("social-friends", "Friends", "/pages/social/friends")])])
  ]

  /** The expansion list the component starts with. */
  const InitialExpanded: seq<string> := ["dashboards", "pages"]

  function StartsWith(s: string, prefix: string): bool {
    |prefix| <= |s| && s[..|prefix|] == prefix
  }

  /**
   * `isPathActive(path)`: an absent or empty path is never active; otherwise the
   * pathname is the path itself or lies below it, on a segment boundary.
   */
  function IsPathActive(pathname: string, path: Option<string>): (r: bool)
    ensures r <==> path.Some? && path.value != "" && |path.value| <= |pathname|
                   && pathname[..|path.value|] == path.value
                   && (|pathname| == |path.value| || pathname[|path.value|] == '/')
  {
    match path
    case None => false
    case Some(p) =>
      if p == "" then false
      else
        assert StartsWith(pathname, p + "/") <==>
          |p| < |pathname| && pathname[..|p|] == p && pathname[|p|] == '/' by {
          if |p| < |pathname| && pathname[..|p|] == p && pathname[|p|] == '/' {
            assert pathname[..|p| + 1] == pathname[..|p|] + [pathname[|p|]];
          }
          if StartsWith(pathname, p + "/") {
            assert pathname[..|p|] == pathname[..|p| + 1][..|p|];
            assert pathname[|p|] == pathname[..|p| + 1][|p|];
          }
        }
        pathname == p || StartsWith(pathname, p + "/")
  }

  /**
   * For normal-form paths, activeness is segment-prefix order: the item's path is
   * active exactly when its segments are a non-empty prefix of the pathname's segments.
   */
  lemma ActiveIffSegmentPrefix(ps: seq<string>, qs: seq<string>)
    requires forall w | w in ps :: IsSegment(w)
    requires forall w | w in qs :: IsSegment(w)
    ensures IsPathActive(PathOf(qs), Some(PathOf(ps))) <==> ps != [] && ps <= qs
  {
    if ps != [] && ps <= qs {
      PrefixIsActive(ps, qs[|ps|..]);
      assert qs == ps + qs[|ps|..];
    }
    if IsPathActive(PathOf(qs), Some(PathOf(ps))) {
      ActiveIsPrefix(ps, qs);
    }
  }

  lemma PrefixIsActive(ps: seq<string>, rest: seq<string>)
    requires ps != []
    ensures IsPathActive(PathOf(ps + rest), Some(PathOf(ps)))
  {
    var p := PathOf(ps);
    PathOfAppend(ps, rest);
    if rest != [] {
      var q := PathOf(ps + rest);
      assert q == p + PathOf(rest);
      assert q[|p|] == PathOf(rest)[0] == '/';
      assert q[..|p|] == p;
    }
  }

  lemma ActiveIsPrefix(ps: seq<string>, qs: seq<string>)
    requires forall w | w in ps :: IsSegment(w)
    requires forall w | w in qs :: IsSegment(w)
    requires IsPathActive(PathOf(qs), Some(PathOf(ps)))
    ensures ps != [] && ps <= qs
  {
    var p, q := PathOf(ps), PathOf(qs);
    SegmentsOfPath(ps);
    SegmentsOfPath(qs);
    if |q| != |p| {
      SegmentsBelow(p, q);
    }
  }

  /** A pathname that continues a path after a "/" has the path's segments as a prefix. */
  lemma SegmentsBelow(p: string, q: string)
    requires |p| < |q| && q[..|p|] == p && q[|p|] == '/'
    ensures Segments(q) == Segments(p) + Segments(q[|p| + 1..])
  {
    var t := q[|p| + 1..];
    assert q == q[..|p|] + [q[|p|]] + t;
    SegmentsAround(p, t);
  }

  /** "/dashboards/eco" is not active under "/dashboards/ecommerce/orders"; "/dashboards/ecommerce" is. */
  lemma SegmentBoundaryExample()
    ensures !IsPathActive("/dashboards/ecommerce/orders", Some("/dashboards/eco"))
    ensures IsPathActive("/dashboards/ecommerce/orders", Some("/dashboards/ecommerce"))
  {
    var q := "/dashboards/ecommerce/orders";
    assert q[15] == 'm';
    assert q[..21] == "/dashboards/ecommerce";
  }

  /** A rendered menu row: the item, its level, the active highlight and, at level 1 on a group, the chevron (true = down). */
  datatype Row = Row(item: MenuItem, level: nat, highlighted: bool, chevron: Option<bool>)

  /** The row `renderMenuItem` draws for `item` itself. */
  function RowOf(item: MenuItem, level: nat, expanded: seq<string>, pathname: string): (r: Row)
    ensures r.item == item && r.level == level && RowRules(r, expanded, pathname)
  {
    Row(item, level,
        !HasChildren(item) && IsPathActive(pathname, item.path),
        if level == 1 && HasChildren(item) then Some(item.id in expanded) else None)
  }

  /** What every row of a render satisfies. */
  predicate RowRules(r: Row, expanded: seq<string>, pathname: string) {
    && (r.highlighted <==> !HasChildren(r.item) && IsPathActive(pathname, r.item.path))
    && (r.chevron.Some? <==> r.level == 1 && HasChildren(r.item))
    && (r.chevron.Some? ==> r.chevron.value == (r.item.id in expanded))
  }

  /** Whether `renderMenuItem` renders the children of `item`. */
  predicate ChildrenShown(item: MenuItem, level: nat, expanded: seq<string>): (b: bool)
    ensures b <==> HasChildren(item) && (level == 0 || item.id in expanded)
  {
    (level > 0 && HasChildren(item) && item.id in expanded) || (level == 0 && HasChildren(item))
  }

  /** The items of the rows at exactly `level`, in order. */
  function ItemsAt(rows: seq<Row>, level: nat): seq<MenuItem> {
    if rows == [] then [] else (if rows[0].level == level then [rows[0].item] else []) + ItemsAt(rows[1..], level)
  }

  lemma {:induction false} ItemsAtAppend(a: seq<Row>, b: seq<Row>, level: nat)
    ensures ItemsAt(a + b, level) == ItemsAt(a, level) + ItemsAt(b, level)
    decreases |a|
  {
    if a == [] {
      assert a + b == b;
    } else {
      var h := if a[0].level == level then [a[0].item] else [];
      assert (a + b)[0] == a[0] && (a + b)[1..] == a[1..] + b;
      assert ItemsAt(a + b, level) == h + ItemsAt(a[1..] + b, level);
      ItemsAtAppend(a[1..], b, level);
      assert ItemsAt(a, level) == h + ItemsAt(a[1..], level);
    }
  }

  lemma {:induction false} ItemsAtDeeper(rows: seq<Row>, level: nat)
    requires forall r | r in rows :: r.level > level
    ensures ItemsAt(rows, level) == []
    decreases |rows|
  {
    if rows != [] {
      assert rows[0] in rows;
      assert forall r | r in rows[1..] :: r in rows;
      ItemsAtDeeper(rows[1..], level);
    }
  }

  /**
   * `renderMenuItem(item, level)`: the item's own row, then, when shown, the rows of its
   * children, which are exactly the rows one level deeper.
   */
  function RenderItem(item: MenuItem, level: nat, expanded: seq<string>, pathname: string): (rows: seq<Row>)
    ensures |rows| >= 1 && rows[0] == RowOf(item, level, expanded, pathname)
    ensures |rows| > 1 <==> ChildrenShown(item, level, expanded)
    ensures forall r | r in rows :: r.level >= level && RowRules(r, expanded, pathname)
    ensures ItemsAt(rows, level) == [item]
    ensures ItemsAt(rows, level + 1) == if ChildrenShown(item, level, expanded) then item.children else []
    decreases item
  {
    var own := [RowOf(item, level, expanded, pathname)];
    var below := if ChildrenShown(item, level, expanded) then RenderList(item.children, level + 1, expanded, pathname) else [];
    ItemsAtAppend(own, below, level);
    ItemsAtAppend(own, below, level + 1);
    ItemsAtDeeper(below, level);
    own + below
  }

  /** `items.map((item) => renderMenuItem(item, level))`, flattened in order. */
  function RenderList(items: seq<MenuItem>, level: nat, expanded: seq<string>, pathname: string): (rows: seq<Row>)
    ensures |rows| >= |items|
    ensures forall r | r in rows :: r.level >= level && RowRules(r, expanded, pathname)
    ensures ItemsAt(rows, level) == items
    decreases items
  {
    if items == [] then []
    else
      var head, tail := RenderItem(items[0], level, expanded, pathname), RenderList(items[1..], level, expanded, pathname);
      ItemsAtAppend(head, tail, level);
      assert items == [items[0]] + items[1..];
      head + tail
  }

  /** A row that keeps the rules is the row `renderMenuItem` draws for its item and level. */
  lemma {:induction false} RowsAtAreOwnRows(rows: seq<Row>, level: nat, expanded: seq<string>, pathname: string)
    requires forall r | r in rows :: RowRules(r, expanded, pathname)
    ensures forall c | c in ItemsAt(rows, level) :: RowOf(c, level, expanded, pathname) in rows
    decreases |rows|
  {
    if rows != [] {
      assert forall r | r in rows[1..] :: r in rows;
      RowsAtAreOwnRows(rows[1..], level, expanded, pathname);
      var h := if rows[0].level == level then [rows[0].item] else [];
      assert ItemsAt(rows, level) == h + ItemsAt(rows[1..], level);
      forall c | c in ItemsAt(rows, level) ensures RowOf(c, level, expanded, pathname) in rows {
        if c in h {
          assert rows[0] in rows;
          assert rows[0] == RowOf(c, level, expanded, pathname);
        } else {
          assert RowOf(c, level, expanded, pathname) in rows[1..];
        }
      }
    }
  }

  /** Every item of a list has its own row in the list's render. */
  lemma ListShowsOwnRows(items: seq<MenuItem>, level: nat, expanded: seq<string>, pathname: string)
    ensures forall c | c in items :: RowOf(c, level, expanded, pathname) in RenderList(items, level, expanded, pathname)
  {
    var rows := RenderList(items, level, expanded, pathname);
    RowsAtAreOwnRows(rows, level, expanded, pathname);
    forall c | c in items ensures RowOf(c, level, expanded, pathname) in rows {
      assert c in ItemsAt(rows, level);
    }
  }

  /** An expanded group below level 0 shows the row of each of its children, one level deeper. */
  lemma ExpandedGroupShowsChildren(item: MenuItem, level: nat, expanded: seq<string>, pathname: string)
    requires level >= 1 && HasChildren(item) && item.id in expanded
    ensures forall c | c in item.children :: RowOf(c, level + 1, expanded, pathname) in RenderItem(item, level, expanded, pathname)
  {
    var rows := RenderItem(item, level, expanded, pathname);
    assert ChildrenShown(item, level, expanded);
    assert ItemsAt(rows, level + 1) == item.children;
    RowsAtAreOwnRows(rows, level + 1, expanded, pathname);
    forall c | c in item.children ensures RowOf(c, level + 1, expanded, pathname) in rows {
      assert c in ItemsAt(rows, level + 1);
    }
  }

  /** Every row of one item's render is a row of the render of a list holding it. */
  lemma {:induction false} ListHoldsItemRows(items: seq<MenuItem>, i: nat, level: nat, expanded: seq<string>, pathname: string)
    requires i < |items|
    ensures forall r | r in RenderItem(items[i], level, expanded, pathname) :: r in RenderList(items, level, expanded, pathname)
    decreases i
  {
    assert RenderList(items, level, expanded, pathname)
        == RenderItem(items[0], level, expanded, pathname) + RenderList(items[1..], level, expanded, pathname);
    if i > 0 {
      ListHoldsItemRows(items[1..], i - 1, level, expanded, pathname);
    }
  }

  /** In the whole menu, an expanded level-1 group shows each of its children at level 2. */
  lemma LevelOneGroupShowsChildren(items: seq<MenuItem>, i: nat, j: nat, expanded: seq<string>, pathname: string)
    requires i < |items| && j < |items[i].children|
    requires HasChildren(items[i].children[j]) && items[i].children[j].id in expanded
    ensures forall c | c in items[i].children[j].children :: RowOf(c, 2, expanded, pathname) in RenderList(items, 0, expanded, pathname)
  {
    var top, group := items[i], items[i].children[j];
    ExpandedGroupShowsChildren(group, 1, expanded, pathname);
    ListHoldsItemRows(top.children, j, 1, expanded, pathname);
    assert RenderItem(top, 0, expanded, pathname) == [RowOf(top, 0, expanded, pathname)] + RenderList(top.children, 1, expanded, pathname);
    ListHoldsItemRows(items, i, 0, expanded, pathname);
  }

  /** The "ecommerce" group's children. */
  lemma EcommerceChildIds()
    ensures Menu[0].children[1].id == "ecommerce"
    ensures Ids(Menu[0].children[1].children) == ["products", "orders", "customers"]
  {
  }

  /** Once "ecommerce" is expanded, Products, Orders and Customers are shown at level 2, under any pathname. */
  lemma ExpandingEcommerceShowsItsLeaves(expanded: seq<string>, pathname: string)
    requires "ecommerce" in expanded
    ensures forall c | c in Menu[0].children[1].children :: RowOf(c, 2, expanded, pathname) in RenderList(Menu, 0, expanded, pathname)
  {
    EcommerceChildIds();
    LevelOneGroupShowsChildren(Menu, 0, 1, expanded, pathname);
  }

  /** The render depends on which ids are expanded, not on their order or repetition. */
  lemma {:induction false} RenderItemMembership(item: MenuItem, level: nat, e1: seq<string>, e2: seq<string>, pathname: string)
    requires forall y :: y in e1 <==> y in e2
    ensures RenderItem(item, level, e1, pathname) == RenderItem(item, level, e2, pathname)
    decreases item
  {
    RenderListMembership(item.children, level + 1, e1, e2, pathname);
  }

  lemma {:induction false} RenderListMembership(items: seq<MenuItem>, level: nat, e1: seq<string>, e2: seq<string>, pathname: string)
    requires forall y :: y in e1 <==> y in e2
    ensures RenderList(items, level, e1, pathname) == RenderList(items, level, e2, pathname)
    decreases items
  {
    if items != [] {
      RenderItemMembership(items[0], level, e1, e2, pathname);
      RenderListMembership(items[1..], level, e1, e2, pathname);
    }
  }

  /** Toggling an id twice gives back the same rendered menu, although the list may be reordered. */
  lemma ToggleTwiceSameView(items: seq<MenuItem>, expanded: seq<string>, x: string, pathname: string)
    ensures RenderList(items, 0, Toggled(Toggled(expanded, x), x), pathname) == RenderList(items, 0, expanded, pathname)
  {
    ToggleTwice(expanded, x);
    RenderListMembership(items, 0, Toggled(Toggled(expanded, x), x), expanded, pathname);
  }

  /** The ids of the level-1 entries, in order. */
  function LevelOneIds(items: seq<MenuItem>): seq<string> {
    if items == [] then [] else Ids(items[0].children) + LevelOneIds(items[1..])
  }

  function Ids(items: seq<MenuItem>): (ids: seq<string>)
    ensures |ids| == |items| && forall i :: 0 <= i < |items| ==> ids[i] == items[i].id
  {
    if items == [] then [] else [items[0].id] + Ids(items[1..])
  }

  /** Rows of the given items alone, without descendants. */
  function RowsAt(items: seq<MenuItem>, level: nat, expanded: seq<string>, pathname: string): seq<Row> {
    if items == [] then [] else [RowOf(items[0], level, expanded, pathname)] + RowsAt(items[1..], level, expanded, pathname)
  }

  /** Every top-level row, each followed by the rows of its children. */
  function TwoLevelRows(items: seq<MenuItem>, expanded: seq<string>, pathname: string): seq<Row> {
    if items == [] then []
    else [RowOf(items[0], 0, expanded, pathname)] + RowsAt(items[0].children, 1, expanded, pathname)
         + TwoLevelRows(items[1..], expanded, pathname)
  }

  lemma {:induction false} CollapsedList(items: seq<MenuItem>, level: nat, expanded: seq<string>, pathname: string)
    requires level > 0
    requires forall i :: 0 <= i < |items| ==> items[i].id !in expanded
    ensures RenderList(items, level, expanded, pathname) == RowsAt(items, level, expanded, pathname)
    decreases |items|
  {
    if items != [] {
      CollapsedList(items[1..], level, expanded, pathname);
    }
  }

  /**
   * When no level-1 id is expanded, exactly the top-level entries and their children are
   * shown, whatever the top-level ids' own expansion state.
   */
  lemma {:induction false} OnlyTwoLevelsShown(items: seq<MenuItem>, expanded: seq<string>, pathname: string)
    requires forall id | id in LevelOneIds(items) :: id !in expanded
    ensures RenderList(items, 0, expanded, pathname) == TwoLevelRows(items, expanded, pathname)
    decreases |items|
  {
    if items != [] {
      var ids := Ids(items[0].children);
      assert LevelOneIds(items) == ids + LevelOneIds(items[1..]);
      forall i | 0 <= i < |items[0].children| ensures items[0].children[i].id !in expanded {
        assert ids[i] in LevelOneIds(items);
      }
      CollapsedList(items[0].children, 1, expanded, pathname);
      OnlyTwoLevelsShown(items[1..], expanded, pathname);
    }
  }

  /**
   * The menu has three levels: two sections without paths, groups and leaves, and nothing
   * below the leaves; every leaf under a group carries a path.
   */
  lemma MenuShape()
    ensures Ids(Menu) == ["dashboards", "pages"]
    ensures Menu[0].path == None && Menu[1].path == None
    ensures forall i, j, k :: 0 <= i < |Menu| && 0 <= j < |Menu[i].children| && 0 <= k < |Menu[i].children[j].children| ==>
              !HasChildren(Menu[i].children[j].children[k]) && Menu[i].children[j].children[k].path.Some?
  {
    forall i, j, k | 0 <= i < |Menu| && 0 <= j < |Menu[i].children| && 0 <= k < |Menu[i].children[j].children|
      ensures !HasChildren(Menu[i].children[j].children[k]) && Menu[i].children[j].children[k].path.Some?
    {
      assert i == 0 || i == 1;
    }
  }

  /** The level-1 ids under "dashboards". */
  lemma DashboardChildIds()
    ensures Ids(Menu[0].children) == ["default", "ecommerce", "projects-dash", "online-courses"]
  {
  }

  /** The level-1 ids under "pages". */
  lemma PageChildIds()
    ensures Ids(Menu[1].children) == ["user-profile", "account", "corporate", "blog", "social"]
  {
  }

  /** The level-1 ids of the menu. */
  lemma MenuLevelOneIds()
    ensures LevelOneIds(Menu) == ["default", "ecommerce", "projects-dash", "online-courses",
                                  "user-profile", "account", "corporate", "blog", "social"]
  {
    DashboardChildIds();
    PageChildIds();
    assert Menu[1..] == [Menu[1]];
    assert LevelOneIds(Menu) == Ids(Menu[0].children) + (Ids(Menu[1].children) + LevelOneIds([]));
  }

  /** The seed list names only top-level ids. */
  lemma SeedNamesNoLevelOneId()
    ensures forall id | id in LevelOneIds(Menu) :: id !in InitialExpanded
  {
    var ids: seq<string> := ["default", "ecommerce", "projects-dash", "online-courses",
                             "user-profile", "account", "corporate", "blog", "social"];
    assert forall id | id in ids :: id !in InitialExpanded;
    MenuLevelOneIds();
  }

  /** Hence the first render shows levels 0 and 1 only. */
  lemma InitialRenderShowsTwoLevels(pathname: string)
    ensures RenderList(Menu, 0, InitialExpanded, pathname) == TwoLevelRows(Menu, InitialExpanded, pathname)
  {
    SeedNamesNoLevelOneId();
    OnlyTwoLevelsShown(Menu, InitialExpanded, pathname);
  }

  /** What a click on a row does. */
  datatype ClickEffect = ToggleGroup(id: string) | Navigate(path: string) | NoEffect

  /** The `onClick` rule of a row. */
  function OnClick(item: MenuItem, level: nat): (e: ClickEffect)
    ensures e.ToggleGroup? <==> HasChildren(item) && level <= 1
    ensures e.ToggleGroup? ==> e.id == item.id
    ensures e.Navigate? <==> !(HasChildren(item) && level <= 1) && item.path.Some? && item.path.value != ""
    ensures e.Navigate? ==> item.path == Some(e.path)
  {
    if HasChildren(item) && level <= 1 then ToggleGroup(item.id)
    else if item.path.Some? && item.path.value != "" then Navigate(item.path.value)
    else NoEffect
  }

  /**
   * In a menu whose groups all sit at level 0 or 1, a click on any rendered row either
   * toggles a group or navigates from a leaf: a group's own path is never a destination.
   */
  lemma {:induction false} GroupsNeverNavigate(items: seq<MenuItem>, expanded: seq<string>, pathname: string)
    requires forall i, j, k :: 0 <= i < |items| && 0 <= j < |items[i].children| && 0 <= k < |items[i].children[j].children| ==>
               !HasChildren(items[i].children[j].children[k])
    ensures forall r | r in RenderList(items, 0, expanded, pathname) :: OnClick(r.item, r.level).Navigate? ==> !HasChildren(r.item)
    decreases |items|
  {
    if items != [] {
      var item := items[0];
      GroupsNeverNavigate(items[1..], expanded, pathname);
      forall j | 0 <= j < |item.children|
        ensures forall r | r in RenderItem(item.children[j], 1, expanded, pathname) :: r.level == 1 || !HasChildren(r.item)
      {
        var c := item.children[j];
        LeavesList(c.children, 2, expanded, pathname);
      }
      ChildRowsAtLevelOneOrLeaves(item.children, expanded, pathname);
      assert RenderList(items, 0, expanded, pathname) == RenderItem(item, 0, expanded, pathname) + RenderList(items[1..], 0, expanded, pathname);
    }
  }

  /**
   * In the menu, groups sit only at levels 0 and 1, so no click on a shown row navigates to
   * a group's own path, for instance "/dashboards/ecommerce".
   */
  lemma MenuGroupsNeverNavigate(expanded: seq<string>, pathname: string)
    ensures forall r | r in RenderList(Menu, 0, expanded, pathname) :: OnClick(r.item, r.level).Navigate? ==> !HasChildren(r.item)
  {
    forall i, j, k | 0 <= i < |Menu| && 0 <= j < |Menu[i].children| && 0 <= k < |Menu[i].children[j].children|
      ensures !HasChildren(Menu[i].children[j].children[k])
    {
      assert i == 0 || i == 1;
    }
    GroupsNeverNavigate(Menu, expanded, pathname);
  }

  lemma {:induction false} LeavesList(items: seq<MenuItem>, level: nat, expanded: seq<string>, pathname: string)
    requires forall k :: 0 <= k < |items| ==> !HasChildren(items[k])
    ensures forall r | r in RenderList(items, level, expanded, pathname) :: !HasChildren(r.item)
    decreases |items|
  {
    if items != [] {
      LeavesList(items[1..], level, expanded, pathname);
    }
  }

  lemma {:induction false} ChildRowsAtLevelOneOrLeaves(children: seq<MenuItem>, expanded: seq<string>, pathname: string)
    requires forall j :: 0 <= j < |children| ==>
               forall r | r in RenderItem(children[j], 1, expanded, pathname) :: r.level == 1 || !HasChildren(r.item)
    ensures forall r | r in RenderList(children, 1, expanded, pathname) :: r.level == 1 || !HasChildren(r.item)
    decreases |children|
  {
    if children != [] {
      ChildRowsAtLevelOneOrLeaves(children[1..], expanded, pathname);
    }
  }

  /** The component's state: the expansion list. The pathname is the router's and is passed in. */
  class Sidebar {
    var expandedItems: seq<string>

    constructor ()
      ensures expandedItems == InitialExpanded
    {
      expandedItems := InitialExpanded;
    }

    /** `toggleExpanded(itemId)`. */
    method ToggleExpanded(itemId: string)
      modifies this
      ensures expandedItems == Toggled(old(expandedItems), itemId)
    {
      if itemId in expandedItems {
        expandedItems := Remove(expandedItems, itemId);
      } else {
        expandedItems := expandedItems + [itemId];
      }
    }

    /** A click on the row of `item` at `level`; returns the path handed to `navigate`, if any. */
    method Click(item: MenuItem, level: nat) returns (navigateTo: Option<string>)
      modifies this
      ensures OnClick(item, level).ToggleGroup? ==> navigateTo == None && expandedItems == Toggled(old(expandedItems), item.id)
      ensures OnClick(item, level).Navigate? ==> navigateTo == Some(OnClick(item, level).path) && expandedItems == old(expandedItems)
      ensures OnClick(item, level).NoEffect? ==> navigateTo == None && expandedItems == old(expandedItems)
    {
      navigateTo := None;
      if HasChildren(item) && level <= 1 {
        ToggleExpanded(item.id);
      } else if item.path.Some? && item.path.value != "" {
        navigateTo := item.path;
      }
    }

    /** The rows the component renders for the current pathname. */
    function Render(pathname: string): (rows: seq<Row>)
      reads this
      ensures ItemsAt(rows, 0) == Menu
      ensures forall r | r in rows :: RowRules(r, expandedItems, pathname)
    {
      RenderList(Menu, 0, expandedItems, pathname)
    }
  }
}
