/**
 * The sidebar driven by the store (Sidebar): the same menu without paths, its own
 * expansion list, a row highlighted when its label equals the store's `activeView`,
 * and clicks that toggle a group or dispatch `setActiveView(label)` into the store.
 */
module StoreSidebar {
  import opened Wrappers
  import opened Expansion
  import UiSlice

  /** A menu entry (`caption` is the source's `label`); an absent `children` array is the empty sequence. */
  datatype MenuItem = MenuItem(id: string, caption: string, children: seq<MenuItem>)

  /** `item.children && item.children.length > 0`. */
  predicate HasChildren(item: MenuItem): (b: bool)
    ensures b <==> item.children != []
  {
    |item.children| > 0
  }

  function Leaf(id: string, caption: string): MenuItem {
    MenuItem(id, caption, [])
  }

  const Menu: seq<MenuItem> := [
    MenuItem("dashboards", "Dashboards", [
      Leaf("default", "Default"),
      MenuItem("ecommerce", "eCommerce", [
        Leaf("products", "Products"), Leaf("orders", "Orders"), Leaf("customers", "Customers")]),
      MenuItem("projects-dash", "Projects", [
        Leaf("active-projects", "Active Projects"), Leaf("archived-projects", "Archived Projects"),
        Leaf("project-tasks", "Project Tasks")]),
      MenuItem("online-courses", "Online Courses", [
        Leaf("my-courses", "My Courses"), Leaf("course-catalog", "Course Catalog"),
        Leaf("instructors", "Instructors")])]),
    MenuItem("pages", "Pages", [
      MenuItem("user-profile", "User Profile", [
        Leaf("profile-overview", "Overview"), Leaf("profile-projects", "Projects"),
        Leaf("campaigns", "Campaigns"), Leaf("documents", "Documents"), Leaf("followers", "Followers")]),
      MenuItem("account", "Account", [Leaf("account-overview", "Overview")]),
      MenuItem("corporate", "Corporate", [
        Leaf("corporate-overview", "Overview"), Leaf("corporate-projects", "Projects"),
        Leaf("corporate-users", "Users"), Leaf("corporate-roles", "Roles")]),
      MenuItem("blog", "Blog", [Leaf("blog-overview", "Overview"), Leaf("blog-posts", "Posts")]),
      MenuItem("social", "Social", [
        Leaf("social-overview", "Overview"), Leaf("social-activities", "Activities"),
        Leaf("social-messages", "Messages"), Leaf("social-friends", "Friends")])])
  ]

  /** The expansion list the component starts with; "favorites" names no menu entry. */
  const InitialExpanded: seq<string> := ["favorites", "dashboards"]

  /** A rendered row: the item, its level, the active highlight and, at level 1 on a group, the chevron (true = down). */
  datatype Row = Row(item: MenuItem, level: nat, highlighted: bool, chevron: Option<bool>)

  /** The row `renderMenuItem` draws for `item` itself; a leaf is active when its label is the store's `activeView`. */
  function RowOf(item: MenuItem, level: nat, expanded: seq<string>, activeView: string): (r: Row)
    ensures r.item == item && r.level == level && RowRules(r, expanded, activeView)
  {
    Row(item, level,
        !HasChildren(item) && activeView == item.caption,
        if level == 1 && HasChildren(item) then Some(item.id in expanded) else None)
  }

  /** What every row of a render satisfies. */
  predicate RowRules(r: Row, expanded: seq<string>, activeView: string) {
    && (r.highlighted <==> !HasChildren(r.item) && r.item.caption == activeView)
    && (r.chevron.Some? <==> r.level == 1 && HasChildren(r.item))
    && (r.chevron.Some? ==> r.chevron.value == (r.item.id in expanded))
  }

  /** Whether `renderMenuItem` renders the children of `item`. */
  predicate ChildrenShown(item: MenuItem, level: nat, expanded: seq<string>): (b: bool)
    ensures b <==> HasChildren(item) && (level == 0 || item.id in expanded)
  {
    (level > 0 && HasChildren(item) && item.id in expanded) || (level == 0 && HasChildren(item))
  }

  /** The items of the rows at exactly `level`, in order. */
  function ItemsAt(rows: seq<Row>, level: nat): seq<MenuItem> {
    if rows == [] then [] else (if rows[0].level == level then [rows[0].item] else []) + ItemsAt(rows[1..], level)
  }

  lemma {:induction false} ItemsAtAppend(a: seq<Row>, b: seq<Row>, level: nat)
    ensures ItemsAt(a + b, level) == ItemsAt(a, level) + ItemsAt(b, level)
    decreases |a|
  {
    if a == [] {
      assert a + b == b;
    } else {
      var h := if a[0].level == level then [a[0].item] else [];
      assert (a + b)[0] == a[0] && (a + b)[1..] == a[1..] + b;
      assert ItemsAt(a + b, level) == h + ItemsAt(a[1..] + b, level);
      ItemsAtAppend(a[1..], b, level);
      assert ItemsAt(a, level) == h + ItemsAt(a[1..], level);
    }
  }

  lemma {:induction false} ItemsAtDeeper(rows: seq<Row>, level: nat)
    requires forall r | r in rows :: r.level > level
    ensures ItemsAt(rows, level) == []
    decreases |rows|
  {
    if rows != [] {
      assert rows[0] in rows;
      assert forall r | r in rows[1..] :: r in rows;
      ItemsAtDeeper(rows[1..], level);
    }
  }

  /**
   * `renderMenuItem(item, level)`: the item's own row, then, when shown, the rows of its
   * children, which are exactly the rows one level deeper.
   */
  function RenderItem(item: MenuItem, level: nat, expanded: seq<string>, activeView: string): (rows: seq<Row>)
    ensures |rows| >= 1 && rows[0] == RowOf(item, level, expanded, activeView)
    ensures |rows| > 1 <==> ChildrenShown(item, level, expanded)
    ensures forall r | r in rows :: r.level >= level && RowRules(r, expanded, activeView)
    ensures ItemsAt(rows, level) == [item]
    ensures ItemsAt(rows, level + 1) == if ChildrenShown(item, level, expanded) then item.children else []
    decreases item
  {
    var own := [RowOf(item, level, expanded, activeView)];
    var below := if ChildrenShown(item, level, expanded) then RenderList(item.children, level + 1, expanded, activeView) else [];
    ItemsAtAppend(own, below, level);
    ItemsAtAppend(own, below, level + 1);
    ItemsAtDeeper(below, level);
    own + below
  }

  /** `items.map((item) => renderMenuItem(item, level))`, flattened in order. */
  function RenderList(items: seq<MenuItem>, level: nat, expanded: seq<string>, activeView: string): (rows: seq<Row>)
    ensures |rows| >= |items|
    ensures forall r | r in rows :: r.level >= level && RowRules(r, expanded, activeView)
    ensures ItemsAt(rows, level) == items
    decreases items
  {
    if items == [] then []
    else
      var head, tail := RenderItem(items[0], level, expanded, activeView), RenderList(items[1..], level, expanded, activeView);
      ItemsAtAppend(head, tail, level);
      assert items == [items[0]] + items[1..];
      head + tail
  }

  /** A row that keeps the rules is the row `renderMenuItem` draws for its item and level. */
  lemma {:induction false} RowsAtAreOwnRows(rows: seq<Row>, level: nat, expanded: seq<string>, activeView: string)
    requires forall r | r in rows :: RowRules(r, expanded, activeView)
    ensures forall c | c in ItemsAt(rows, level) :: RowOf(c, level, expanded, activeView) in rows
    decreases |rows|
  {
    if rows != [] {
      assert forall r | r in rows[1..] :: r in rows;
      RowsAtAreOwnRows(rows[1..], level, expanded, activeView);
      var h := if rows[0].level == level then [rows[0].item] else [];
      assert ItemsAt(rows, level) == h + ItemsAt(rows[1..], level);
      forall c | c in ItemsAt(rows, level) ensures RowOf(c, level, expanded, activeView) in rows {
        if c in h {
          assert rows[0] in rows;
          assert rows[0] == RowOf(c, level, expanded, activeView);
        } else {
          assert RowOf(c, level, expanded, activeView) in rows[1..];
        }
      }
    }
  }

  /** Every item of a list has its own row in the list's render. */
  lemma ListShowsOwnRows(items: seq<MenuItem>, level: nat, expanded: seq<string>, activeView: string)
    ensures forall c | c in items :: RowOf(c, level, expanded, activeView) in RenderList(items, level, expanded, activeView)
  {
    var rows := RenderList(items, level, expanded, activeView);
    RowsAtAreOwnRows(rows, level, expanded, activeView);
    forall c | c in items ensures RowOf(c, level, expanded, activeView) in rows {
      assert c in ItemsAt(rows, level);
    }
  }

  /** An expanded group below level 0 shows the row of each of its children, one level deeper. */
  lemma ExpandedGroupShowsChildren(item: MenuItem, level: nat, expanded: seq<string>, activeView: string)
    requires level >= 1 && HasChildren(item) && item.id in expanded
    ensures forall c | c in item.children :: RowOf(c, level + 1, expanded, activeView) in RenderItem(item, level, expanded, activeView)
  {
    var rows := RenderItem(item, level, expanded, activeView);
    assert ChildrenShown(item, level, expanded);
    assert ItemsAt(rows, level + 1) == item.children;
    RowsAtAreOwnRows(rows, level + 1, expanded, activeView);
    forall c | c in item.children ensures RowOf(c, level + 1, expanded, activeView) in rows {
      assert c in ItemsAt(rows, level + 1);
    }
  }

  /** Every row of one item's render is a row of the render of a list holding it. */
  lemma {:induction false} ListHoldsItemRows(items: seq<MenuItem>, i: nat, level: nat, expanded: seq<string>, activeView: string)
    requires i < |items|
    ensures forall r | r in RenderItem(items[i], level, expanded, activeView) :: r in RenderList(items, level, expanded, activeView)
    decreases i
  {
    assert RenderList(items, level, expanded, activeView)
        == RenderItem(items[0], level, expanded, activeView) + RenderList(items[1..], level, expanded, activeView);
    if i > 0 {
      ListHoldsItemRows(items[1..], i - 1, level, expanded, activeView);
    }
  }

  /** In the whole menu, an expanded level-1 group shows each of its children at level 2. */
  lemma LevelOneGroupShowsChildren(items: seq<MenuItem>, i: nat, j: nat, expanded: seq<string>, activeView: string)
    requires i < |items| && j < |items[i].children|
    requires HasChildren(items[i].children[j]) && items[i].children[j].id in expanded
    ensures forall c | c in items[i].children[j].children :: RowOf(c, 2, expanded, activeView) in RenderList(items, 0, expanded, activeView)
  {
    var top, group := items[i], items[i].children[j];
    ExpandedGroupShowsChildren(group, 1, expanded, activeView);
    ListHoldsItemRows(top.children, j, 1, expanded, activeView);
    assert RenderItem(top, 0, expanded, activeView) == [RowOf(top, 0, expanded, activeView)] + RenderList(top.children, 1, expanded, activeView);
    ListHoldsItemRows(items, i, 0, expanded, activeView);
  }

  /** The "ecommerce" group's children. */
  lemma EcommerceChildIds()
    ensures Menu[0].children[1].id == "ecommerce"
    ensures Ids(Menu[0].children[1].children) == ["products", "orders", "customers"]
  {
  }

  /** Once "ecommerce" is expanded, Products, Orders and Customers are shown at level 2, for any active view. */
  lemma ExpandingEcommerceShowsItsLeaves(expanded: seq<string>, activeView: string)
    requires "ecommerce" in expanded
    ensures forall c | c in Menu[0].children[1].children :: RowOf(c, 2, expanded, activeView) in RenderList(Menu, 0, expanded, activeView)
  {
    EcommerceChildIds();
    LevelOneGroupShowsChildren(Menu, 0, 1, expanded, activeView);
  }

  /** The rows of the given items alone, without descendants. */
  function RowsAt(items: seq<MenuItem>, level: nat, expanded: seq<string>, activeView: string): seq<Row> {
    if items == [] then [] else [RowOf(items[0], level, expanded, activeView)] + RowsAt(items[1..], level, expanded, activeView)
  }

  function TwoLevelRows(items: seq<MenuItem>, expanded: seq<string>, activeView: string): seq<Row> {
    if items == [] then []
    else [RowOf(items[0], 0, expanded, activeView)] + RowsAt(items[0].children, 1, expanded, activeView)
         + TwoLevelRows(items[1..], expanded, activeView)
  }

  function Ids(items: seq<MenuItem>): (ids: seq<string>)
    ensures |ids| == |items| && forall i :: 0 <= i < |items| ==> ids[i] == items[i].id
  {
    if items == [] then [] else [items[0].id] + Ids(items[1..])
  }

  function LevelOneIds(items: seq<MenuItem>): seq<string> {
    if items == [] then [] else Ids(items[0].children) + LevelOneIds(items[1..])
  }

  lemma {:induction false} CollapsedList(items: seq<MenuItem>, level: nat, expanded: seq<string>, activeView: string)
    requires level > 0
    requires forall i :: 0 <= i < |items| ==> items[i].id !in expanded
    ensures RenderList(items, level, expanded, activeView) == RowsAt(items, level, expanded, activeView)
    decreases |items|
  {
    if items != [] {
      CollapsedList(items[1..], level, expanded, activeView);
    }
  }

  /** When no level-1 id is expanded, exactly the top-level entries and their children are shown. */
  lemma {:induction false} OnlyTwoLevelsShown(items: seq<MenuItem>, expanded: seq<string>, activeView: string)
    requires forall id | id in LevelOneIds(items) :: id !in expanded
    ensures RenderList(items, 0, expanded, activeView) == TwoLevelRows(items, expanded, activeView)
    decreases |items|
  {
    if items != [] {
      var ids := Ids(items[0].children);
      assert LevelOneIds(items) == ids + LevelOneIds(items[1..]);
      forall i | 0 <= i < |items[0].children| ensures items[0].children[i].id !in expanded {
        assert ids[i] in LevelOneIds(items);
      }
      CollapsedList(items[0].children, 1, expanded, activeView);
      OnlyTwoLevelsShown(items[1..], expanded, activeView);
    }
  }

  /** The menu has three levels: two sections, groups and leaves, and nothing below the leaves. */
  lemma MenuShape()
    ensures Ids(Menu) == ["dashboards", "pages"]
    ensures forall i, j, k :: 0 <= i < |Menu| && 0 <= j < |Menu[i].children| && 0 <= k < |Menu[i].children[j].children| ==>
              !HasChildren(Menu[i].children[j].children[k])
  {
    forall i, j, k | 0 <= i < |Menu| && 0 <= j < |Menu[i].children| && 0 <= k < |Menu[i].children[j].children|
      ensures !HasChildren(Menu[i].children[j].children[k])
    {
      assert i == 0 || i == 1;
    }
  }

  /** The level-1 ids under "dashboards". */
  lemma DashboardChildIds()
    ensures Ids(Menu[0].children) == ["default", "ecommerce", "projects-dash", "online-courses"]
  {
  }

  /** The level-1 ids under "pages". */
  lemma PageChildIds()
    ensures Ids(Menu[1].children) == ["user-profile", "account", "corporate", "blog", "social"]
  {
  }

  /** The level-1 ids of the menu. */
  lemma MenuLevelOneIds()
    ensures LevelOneIds(Menu) == ["default", "ecommerce", "projects-dash", "online-courses",
                                  "user-profile", "account", "corporate", "blog", "social"]
  {
    DashboardChildIds();
    PageChildIds();
    assert Menu[1..] == [Menu[1]];
    assert LevelOneIds(Menu) == Ids(Menu[0].children) + (Ids(Menu[1].children) + LevelOneIds([]));
  }

  /** The seed list names no level-1 id. */
  lemma SeedNamesNoLevelOneId()
    ensures forall id | id in LevelOneIds(Menu) :: id !in InitialExpanded
  {
    var ids: seq<string> := ["default", "ecommerce", "projects-dash", "online-courses",
                             "user-profile", "account", "corporate", "blog", "social"];
    assert forall id | id in ids :: id !in InitialExpanded;
    MenuLevelOneIds();
  }

  /** Hence the first render shows levels 0 and 1 only. */
  lemma InitialRenderShowsTwoLevels(activeView: string)
    ensures RenderList(Menu, 0, InitialExpanded, activeView) == TwoLevelRows(Menu, InitialExpanded, activeView)
  {
    SeedNamesNoLevelOneId();
    OnlyTwoLevelsShown(Menu, InitialExpanded, activeView);
  }

  /** What a click on a row does. */
  datatype ClickEffect = ToggleGroup(id: string) | DispatchActiveView(view: string) | NoEffect

  /** The `onClick` rule: nothing at level 0; below it, groups toggle and leaves dispatch their label. */
  function OnClick(item: MenuItem, level: nat): (e: ClickEffect)
    ensures level == 0 <==> e.NoEffect?
    ensures e.ToggleGroup? <==> level > 0 && HasChildren(item)
    ensures e.ToggleGroup? ==> e.id == item.id
    ensures e.DispatchActiveView? ==> e.view == item.caption && !HasChildren(item)
  {
    if level > 0 && HasChildren(item) then ToggleGroup(item.id)
    else if level > 0 then DispatchActiveView(item.caption)
    else NoEffect
  }

  /**
   * After a leaf click, every leaf row carrying the same label is highlighted, wherever it
   * sits in the tree, and no other row is.
   */
  lemma {:induction false} LeafClickHighlightsSameLabel(leaf: MenuItem, level: nat, items: seq<MenuItem>, expanded: seq<string>, s: UiSlice.UiState)
    requires level > 0 && !HasChildren(leaf)
    ensures OnClick(leaf, level) == DispatchActiveView(leaf.caption)
    ensures var view := UiSlice.Reduce(s, UiSlice.SetActiveViewAction(leaf.caption)).activeView;
            forall r | r in RenderList(items, 0, expanded, view) :: r.highlighted <==> !HasChildren(r.item) && r.item.caption == leaf.caption
  {
  }

  /** The component's expansion list; the active view lives in the store. */
  class Sidebar {
    var expandedItems: seq<string>

    constructor ()
      ensures expandedItems == InitialExpanded
    {
      expandedItems := InitialExpanded;
    }

    /** `toggleExpanded(itemId)`. */
    method ToggleExpanded(itemId: string)
      modifies this
      ensures expandedItems == Toggled(old(expandedItems), itemId)
    {
      if itemId in expandedItems {
        expandedItems := Remove(expandedItems, itemId);
      } else {
        expandedItems := expandedItems + [itemId];
      }
    }

    /** A click on the row of `item` at `level`, dispatching into `store`. */
    method Click(item: MenuItem, level: nat, store: UiSlice.UiStore)
      modifies this, store
      ensures OnClick(item, level).ToggleGroup? ==>
        expandedItems == Toggled(old(expandedItems), item.id) && store.State() == old(store.State())
      ensures OnClick(item, level).DispatchActiveView? ==>
        expandedItems == old(expandedItems)
        && store.State() == UiSlice.Reduce(old(store.State()), UiSlice.SetActiveViewAction(item.caption))
      ensures OnClick(item, level).NoEffect? ==>
        expandedItems == old(expandedItems) && store.State() == old(store.State())
    {
      if level > 0 && HasChildren(item) {
        ToggleExpanded(item.id);
      } else if level > 0 {
        store.SetActiveView(item.caption);
      }
    }

    /** The rows the component renders for the store's active view. */
    function Render(activeView: string): (rows: seq<Row>)
      reads this
      ensures ItemsAt(rows, 0) == Menu
      ensures forall r | r in rows :: RowRules(r, expandedItems, activeView)
    {
      RenderList(Menu, 0, expandedItems, activeView)
    }
  }
}
