# Dashboard navigation core, in Dafny

This project models the navigation core of a React admin dashboard. Only the logic that decides what is shown and what a click does is modelled; layout, styling, icons and charts are not.

- **Router sidebar** (`router_sidebar.dfy`, SidebarWithRouter.tsx):
  - a three-level menu tree (top-level sections, groups, leaves). Every leaf carries a path, and so do the three dashboard groups "ecommerce", "projects-dash" and "online-courses". The two top-level sections and the groups under "pages" carry none;
  - a list of expanded group ids, seeded with `["dashboards", "pages"]` and replaced by its toggle on each group click;
  - a path-prefix rule that highlights the leaf of the current page;
  - clicks that either toggle a group or navigate.
- **Store sidebar** (`store_sidebar.dfy`, Sidebar.tsx):
  - the same menu without paths, and its own seed `["favorites", "dashboards"]`;
  - the same rendering logic as the router sidebar. The source has two copies of `renderMenuItem`, and `store_sidebar.dfy` mirrors that duplication on purpose, so each file can be read against its own component;
  - a highlight when a label equals the store's `activeView`;
  - leaf clicks that dispatch `setActiveView(label)`. Level-0 rows do nothing when clicked.
- **Expansion list** (`expansion.dfy`): the toggle both sidebars share. A present id is filtered out; an absent one is appended.
- **UI slice** (`ui_slice.dfy`, uiSlice.ts): the store's initial state and its six reducers, as a pure `Reduce` plus a `UiStore` class whose methods update its fields.
- **Breadcrumb** (`breadcrumb.dfy`, Header.tsx): the pathname is split on `/` and empty pieces are dropped. Each piece's `-`-separated words are capitalised and joined with spaces. The root path shows the title "Dashboard".
- **Routes** (`router.dfy`, router/index.tsx):
  - the ordered route table and its three redirects;
  - the dashboard, page and favorites routers, which resolve `subtype || type`, `subsection || section` or `page` against the screen map;
  - a fallback message naming the missing key.
- **Screen map and App** (`screens.dfy`, `app.dfy`, screenMap.tsx and App.tsx): the three screen keys, and the store-driven screen choice, which lower-cases `activeView` before the lookup.
- The entry point (main.tsx) mounts the router, and the router's layout mounts the router sidebar. Neither the store sidebar nor `App` is mounted anywhere; both are modelled as written, and what they do together is stated as a conditional.
- **Text helpers** (`text.dfy`): the JavaScript string operations the core relies on. These are `split`, `filter(Boolean)`, `join` and ASCII `toLowerCase`, together with their algebra.

JavaScript truthiness is modelled where the source relies on it:
- `a || b` on an optional route parameter treats the empty string as absent (`Router.Or`).
- `if (!path)` treats an empty path as absent (`RouterSidebar.IsPathActive`).

The `setRightSidebarOpen` reducer writes `sidebarOpen`, not `rightSidebarOpen`. Its action creator is not among the slice's exports, and no component in the source dispatches it. The model keeps the reducer as written, and `UiSlice.SetRightSidebarOpenWritesLeftPanel` states the consequence.

## Model

| member | source | states |
|---|---|---|
| Text.ToLower | src/App.tsx:9 | Lower-casing keeps the length and maps each character through ASCII lower-casing. |
| Text.ToLowerIdempotent | src/App.tsx:9 | Lower-casing twice is the same as lower-casing once. |
| Text.Split | src/components/layout/Header.tsx:31 | `split` yields at least one piece, no piece contains the separator, and joining the pieces with the separator gives back the string. |
| Text.Join | src/components/layout/Header.tsx:40 | The joined string is as long as the pieces together plus one separator between each two. |
| Text.JoinSplit | src/components/layout/Header.tsx:37-40 | Joining the pieces of a split with the same separator gives back the original string. |
| Text.SplitJoin | src/components/layout/Header.tsx:37-40 | Splitting a join of separator-free words gives back the words. |
| Text.SplitCount | src/components/layout/Header.tsx:37-38 | A split has one more piece than the string has separators. |
| Text.SplitPieces | src/components/layout/Header.tsx:31 | No piece of a split contains the separator. |
| Text.SplitAround | src/components/layout/Header.tsx:31 | Splitting across one separator splits each side and concatenates the results. |
| Text.SplitPrefix | src/components/layout/Header.tsx:31 | A separator-free prefix stays inside the first piece. |
| Text.NonEmpty | src/components/layout/Header.tsx:31 | `filter(Boolean)` keeps exactly the non-empty strings and never grows the list. |
| Text.NonEmptyAppend | src/components/layout/Header.tsx:31 | The filter distributes over concatenation. |
| Text.NonEmptyKeeps | src/components/layout/Header.tsx:31 | The filter leaves a list with no empty string unchanged. |
| Text.Segments | src/components/layout/Header.tsx:31 | Every path part is non-empty and contains no slash. |
| Text.PathOf | src/components/layout/Header.tsx:31 | A path built from segments is empty only for no segments, and otherwise starts with a slash. |
| Text.PathOfAppend | src/components/layout/Header.tsx:31 | Building a path distributes over concatenation of segment lists. |
| Text.SplitPath | src/components/layout/Header.tsx:31 | Splitting a built path on slashes gives an empty head followed by the segments. |
| Text.SegmentsOfPath | src/components/layout/Header.tsx:31 | The path parts of a built path are its segments (round trip). |
| Text.SegmentsAround | src/components/layout/Header.tsx:31 | The path parts of `x + "/" + t` are those of `x` followed by those of `t`. |
| Expansion.Remove | src/components/layout/SidebarWithRouter.tsx:144 | Filtering out an id removes every copy of it and keeps every other id with its multiplicity. |
| Expansion.Toggled | src/components/layout/SidebarWithRouter.tsx:141-147 | After a toggle the id is present exactly when it was absent, and every other id keeps its membership. |
| Expansion.RemoveAbsent | src/components/layout/SidebarWithRouter.tsx:144 | Filtering out an absent id changes nothing. |
| Expansion.RemoveAppend | src/components/layout/SidebarWithRouter.tsx:144 | The filter distributes over concatenation. |
| Expansion.RemoveKeepsOrder | src/components/layout/SidebarWithRouter.tsx:144 | The filter keeps the other ids in their order. |
| Expansion.ToggledKeepsNoDup | src/components/layout/SidebarWithRouter.tsx:141-147 | Toggling never creates a duplicate id. |
| Expansion.ToggleTwice | src/components/layout/SidebarWithRouter.tsx:141-147 | Toggling twice restores membership; an expanded id moves to the end. |
| Expansion.ToggleOthersCommute | src/components/layout/SidebarWithRouter.tsx:141-147 | Toggles of two different ids commute as far as membership goes. |
| Expansion.SeedScenario | src/components/layout/SidebarWithRouter.tsx:136-147 | Collapsing then re-expanding "dashboards" from the seed gives `["pages", "dashboards"]`. |
| RouterSidebar.IsPathActive | src/components/layout/SidebarWithRouter.tsx:153-156 | A path is active exactly when it is present and non-empty, and it is the pathname or a prefix of it that ends on a slash boundary. |
| RouterSidebar.ActiveIffSegmentPrefix | src/components/layout/SidebarWithRouter.tsx:153-156 | For normal paths, active means the item's segments are a non-empty prefix of the pathname's segments, in both directions. |
| RouterSidebar.PrefixIsActive | src/components/layout/SidebarWithRouter.tsx:153-156 | Any pathname below an item's path makes the item active. |
| RouterSidebar.ActiveIsPrefix | src/components/layout/SidebarWithRouter.tsx:153-156 | An active item's segments are a prefix of the pathname's segments. |
| RouterSidebar.SegmentsBelow | src/components/layout/SidebarWithRouter.tsx:155 | A pathname that continues a path after a "/" has the path's segments as a prefix of its own. |
| RouterSidebar.SegmentBoundaryExample | src/components/layout/SidebarWithRouter.tsx:155 | "/dashboards/eco" is not active under "/dashboards/ecommerce/orders", but "/dashboards/ecommerce" is. |
| RouterSidebar.HasChildren | src/components/layout/SidebarWithRouter.tsx:159 | An entry has children exactly when its (possibly absent) children array is non-empty. |
| RouterSidebar.ChildrenShown | src/components/layout/SidebarWithRouter.tsx:197-206 | Children are rendered exactly for a group that is at level 0 or is expanded. |
| RouterSidebar.RowOf | src/components/layout/SidebarWithRouter.tsx:158-195 | An entry's own row: highlighted exactly when it is a leaf whose path is active; a chevron exactly at level 1 on a group, pointing down exactly when the group is expanded. |
| RouterSidebar.RenderItem | src/components/layout/SidebarWithRouter.tsx:158-209 | The item's own row comes first, and it is the only row at the item's level. The rows one level deeper are exactly the item's children, in order, when the item is a group at level 0 or an expanded one, and there are none otherwise. Every row obeys the highlight and chevron rules. |
| RouterSidebar.RenderList | src/components/layout/SidebarWithRouter.tsx:197-206 | The rows at the list's level are exactly the list's entries, in order; every row is at or below that level and obeys the highlight and chevron rules. |
| RouterSidebar.RowsAtAreOwnRows | src/components/layout/SidebarWithRouter.tsx:158-195 | In any rows that obey the rules, each entry shown at a level is shown by its own row for that level. |
| RouterSidebar.ListShowsOwnRows | src/components/layout/SidebarWithRouter.tsx:199 | Every entry of a list has its own row in the list's render. |
| RouterSidebar.ExpandedGroupShowsChildren | src/components/layout/SidebarWithRouter.tsx:197-201 | A group below level 0 that is expanded shows the own row of each child, one level deeper. |
| RouterSidebar.ListHoldsItemRows | src/components/layout/SidebarWithRouter.tsx:199 | Every row of an entry's render is a row of the render of a list holding the entry. |
| RouterSidebar.LevelOneGroupShowsChildren | src/components/layout/SidebarWithRouter.tsx:197-206 | In the whole menu, an expanded level-1 group shows each of its children at level 2. |
| RouterSidebar.EcommerceChildIds | src/components/layout/SidebarWithRouter.tsx:37-47 | The "ecommerce" group holds "products", "orders" and "customers". |
| RouterSidebar.ExpandingEcommerceShowsItsLeaves | src/components/layout/SidebarWithRouter.tsx:37-47 | Once "ecommerce" is expanded, the Products, Orders and Customers rows are shown at level 2, under any pathname. |
| RouterSidebar.RenderItemMembership | src/components/layout/SidebarWithRouter.tsx:160 | The render of an item depends only on which ids are expanded, not on their order. |
| RouterSidebar.RenderListMembership | src/components/layout/SidebarWithRouter.tsx:160 | The render of a list depends only on which ids are expanded. |
| RouterSidebar.ToggleTwiceSameView | src/components/layout/SidebarWithRouter.tsx:141-147 | Toggling the same id twice leaves the rendered menu unchanged. |
| RouterSidebar.Ids | src/components/layout/SidebarWithRouter.tsx:17-23 | The id list of a list of entries, position by position. |
| RouterSidebar.CollapsedList | src/components/layout/SidebarWithRouter.tsx:197-201 | Below level 0, a list with no expanded entry renders its own rows only. |
| RouterSidebar.OnlyTwoLevelsShown | src/components/layout/SidebarWithRouter.tsx:197-206 | When no level-1 id is expanded, exactly the top-level entries and their children are rendered. |
| RouterSidebar.MenuShape | src/components/layout/SidebarWithRouter.tsx:25-130 | The `menuItems` constant (`RouterSidebar.Menu`): two sections "dashboards" and "pages" without paths, then groups, then leaves with nothing below them, and every leaf under a group carries a path. |
| RouterSidebar.DashboardChildIds | src/components/layout/SidebarWithRouter.tsx:25-71 | Lists the ids under "dashboards". |
| RouterSidebar.PageChildIds | src/components/layout/SidebarWithRouter.tsx:72-129 | Lists the ids under "pages". |
| RouterSidebar.MenuLevelOneIds | src/components/layout/SidebarWithRouter.tsx:25-130 | Lists the menu's level-1 ids. |
| RouterSidebar.SeedNamesNoLevelOneId | src/components/layout/SidebarWithRouter.tsx:136-139 | The seed expands no level-1 group. |
| RouterSidebar.InitialRenderShowsTwoLevels | src/components/layout/SidebarWithRouter.tsx:136-139 | The first render shows levels 0 and 1 only, for any pathname. |
| RouterSidebar.OnClick | src/components/layout/SidebarWithRouter.tsx:166-172 | A click toggles exactly a group at level 0 or 1. Otherwise it navigates exactly when the entry has a non-empty path, and to that path. |
| RouterSidebar.GroupsNeverNavigate | src/components/layout/SidebarWithRouter.tsx:166-172 | In a menu of depth three, no rendered group row navigates. |
| RouterSidebar.MenuGroupsNeverNavigate | src/components/layout/SidebarWithRouter.tsx:25-130 | In this menu, only leaves navigate, whatever is expanded. |
| RouterSidebar.LeavesList | src/components/layout/SidebarWithRouter.tsx:197-201 | A list of leaves renders only leaf rows. |
| RouterSidebar.ChildRowsAtLevelOneOrLeaves | src/components/layout/SidebarWithRouter.tsx:197-206 | Under a depth-three menu, every row rendered from level 1 is at level 1 or is a leaf. |
| RouterSidebar.Sidebar.constructor | src/components/layout/SidebarWithRouter.tsx:136-139 | The expansion list starts as `["dashboards", "pages"]`. |
| RouterSidebar.Sidebar.ToggleExpanded | src/components/layout/SidebarWithRouter.tsx:141-147 | The list becomes its toggle. |
| RouterSidebar.Sidebar.Click | src/components/layout/SidebarWithRouter.tsx:166-172 | A group click toggles the list and navigates nowhere. A navigating click leaves the list and returns the path. Any other click changes nothing. |
| RouterSidebar.Sidebar.Render | src/components/layout/SidebarWithRouter.tsx:246 | The level-0 rows of the sidebar are exactly the menu's sections, and every row obeys the rules for the current expansion list and pathname. |
| StoreSidebar.HasChildren | src/components/layout/Sidebar.tsx:134 | An entry has children exactly when its (possibly absent) children array is non-empty. |
| StoreSidebar.ChildrenShown | src/components/layout/Sidebar.tsx:173-182 | Children are rendered exactly for a group that is at level 0 or is expanded. |
| StoreSidebar.RowOf | src/components/layout/Sidebar.tsx:133-171 | An entry's own row: highlighted exactly when it is a leaf whose label equals `activeView`; a chevron exactly at level 1 on a group, pointing down exactly when the group is expanded. |
| StoreSidebar.RenderItem | src/components/layout/Sidebar.tsx:133-185 | The item's own row comes first, and it is the only row at the item's level. The rows one level deeper are exactly the item's children, in order, when the item is a group at level 0 or an expanded one, and there are none otherwise. Highlight means a leaf whose label equals `activeView`. |
| StoreSidebar.RenderList | src/components/layout/Sidebar.tsx:173-182 | The rows at the list's level are exactly the list's entries, in order; every row is at or below that level and obeys the highlight and chevron rules. |
| StoreSidebar.RowsAtAreOwnRows | src/components/layout/Sidebar.tsx:133-171 | In any rows that obey the rules, each entry shown at a level is shown by its own row for that level. |
| StoreSidebar.ListShowsOwnRows | src/components/layout/Sidebar.tsx:175 | Every entry of a list has its own row in the list's render. |
| StoreSidebar.ExpandedGroupShowsChildren | src/components/layout/Sidebar.tsx:173-177 | A group below level 0 that is expanded shows the own row of each child, one level deeper. |
| StoreSidebar.ListHoldsItemRows | src/components/layout/Sidebar.tsx:175 | Every row of an entry's render is a row of the render of a list holding the entry. |
| StoreSidebar.LevelOneGroupShowsChildren | src/components/layout/Sidebar.tsx:173-182 | In the whole menu, an expanded level-1 group shows each of its children at level 2. |
| StoreSidebar.EcommerceChildIds | src/components/layout/Sidebar.tsx:31-40 | The "ecommerce" group holds "products", "orders" and "customers". |
| StoreSidebar.ExpandingEcommerceShowsItsLeaves | src/components/layout/Sidebar.tsx:31-40 | Once "ecommerce" is expanded, the Products, Orders and Customers rows are shown at level 2, whatever the active view. |
| StoreSidebar.Ids | src/components/layout/Sidebar.tsx:13-18 | The id list of a list of entries, position by position. |
| StoreSidebar.CollapsedList | src/components/layout/Sidebar.tsx:173-177 | Below level 0, a list with no expanded entry renders its own rows only. |
| StoreSidebar.OnlyTwoLevelsShown | src/components/layout/Sidebar.tsx:173-182 | When no level-1 id is expanded, exactly the top-level entries and their children are rendered. |
| StoreSidebar.MenuShape | src/components/layout/Sidebar.tsx:20-115 | The `menuItems` constant (`StoreSidebar.Menu`): two sections "dashboards" and "pages", then groups, then leaves with nothing below them. |
| StoreSidebar.DashboardChildIds | src/components/layout/Sidebar.tsx:20-66 | Lists the ids under "dashboards". |
| StoreSidebar.PageChildIds | src/components/layout/Sidebar.tsx:67-114 | Lists the ids under "pages". |
| StoreSidebar.MenuLevelOneIds | src/components/layout/Sidebar.tsx:20-115 | Lists the menu's level-1 ids. |
| StoreSidebar.SeedNamesNoLevelOneId | src/components/layout/Sidebar.tsx:120-123 | The seed (which names the absent "favorites") expands no level-1 group. |
| StoreSidebar.InitialRenderShowsTwoLevels | src/components/layout/Sidebar.tsx:120-123 | The first render shows levels 0 and 1 only, for any active view. |
| StoreSidebar.OnClick | src/components/layout/Sidebar.tsx:141-147 | Level 0 does nothing. Below it, a group toggles, and only a leaf dispatches, with its own label. |
| StoreSidebar.LeafClickHighlightsSameLabel | src/components/layout/Sidebar.tsx:136-151 | After a leaf click, exactly the leaf rows with the clicked label are highlighted, wherever they sit. |
| StoreSidebar.Sidebar.constructor | src/components/layout/Sidebar.tsx:120-123 | The expansion list starts as `["favorites", "dashboards"]`. |
| StoreSidebar.Sidebar.ToggleExpanded | src/components/layout/Sidebar.tsx:125-131 | The list becomes its toggle. |
| StoreSidebar.Sidebar.Click | src/components/layout/Sidebar.tsx:141-147 | A group click toggles the list and leaves the store alone. A leaf click below level 0 applies `setActiveView(label)` to the store. A level-0 click changes nothing. |
| StoreSidebar.Sidebar.Render | src/components/layout/Sidebar.tsx:212 | The level-0 rows of the sidebar are exactly the menu's sections, and every row obeys the rules for the current expansion list and active view. |
| UiSlice.Reduce | src/store/slices/uiSlice.ts:22-39 | Each action changes only its own field, field by field. `setRightSidebarOpen` writes `sidebarOpen`. |
| UiSlice.TogglesAreInvolutions | src/store/slices/uiSlice.ts:22-27 | Each toggle undone by itself restores the state, and the two toggles commute. |
| UiSlice.SettersIdempotent | src/store/slices/uiSlice.ts:28-39 | Applying a setter twice with the same payload is the same as applying it once. |
| UiSlice.SetRightSidebarOpenWritesLeftPanel | src/store/slices/uiSlice.ts:31-33 | `setRightSidebarOpen(b)` acts like `setSidebarOpen(b)` and leaves the right panel unchanged. |
| UiSlice.TogglesOnly | src/store/slices/uiSlice.ts:22-27 | After any run of toggles, `sidebarOpen` flips by the parity of the left toggles, and query and view are untouched. |
| UiSlice.UiStore.constructor | src/store/slices/uiSlice.ts:11-16 | The store starts open, with the right panel closed, an empty query and the view "Default". |
| UiSlice.UiStore.ToggleSidebar | src/store/slices/uiSlice.ts:22-24 | The new state is the reducer's result for the action. |
| UiSlice.UiStore.ToggleRightSidebar | src/store/slices/uiSlice.ts:25-27 | The new state is the reducer's result for the action. |
| UiSlice.UiStore.SetSidebarOpen | src/store/slices/uiSlice.ts:28-30 | The new state is the reducer's result for the action. |
| UiSlice.UiStore.SetRightSidebarOpen | src/store/slices/uiSlice.ts:31-33 | The new state is the reducer's result; `rightSidebarOpen` is unchanged and `sidebarOpen` is set. |
| UiSlice.UiStore.SetSearchQuery | src/store/slices/uiSlice.ts:34-36 | The new state is the reducer's result for the action. |
| UiSlice.UiStore.SetActiveView | src/store/slices/uiSlice.ts:37-39 | The new state is the reducer's result for the action. |
| Breadcrumb.Capitalize | src/components/layout/Header.tsx:39 | Capitalising a word keeps its length. |
| Breadcrumb.CapitalizeAll | src/components/layout/Header.tsx:39 | Every word is capitalised, position by position. |
| Breadcrumb.GetBreadcrumb | src/components/layout/Header.tsx:30-45 | The title "Dashboard" shows exactly when the pathname has no parts. Otherwise there is one crumb per part, with its formatted text. Only the last crumb is current, and every other crumb carries a separator. |
| Breadcrumb.Titled | src/components/layout/Header.tsx:37-40 | The reference title case, character by character. |
| Breadcrumb.TitledSingleWord | src/components/layout/Header.tsx:39 | On a word without hyphens, title case is capitalisation. |
| Breadcrumb.TitledAcrossHyphen | src/components/layout/Header.tsx:37-40 | Title case turns a hyphen into a space and restarts capitalisation after it. |
| Breadcrumb.JoinCapitalizedIsTitled | src/components/layout/Header.tsx:37-40 | Capitalising words and joining them with spaces is title case of their hyphen join. |
| Breadcrumb.FormatSegment | src/components/layout/Header.tsx:37-40 | A crumb's text is the reference title case of its part: each hyphen becomes a space, the first letter at the start or after a hyphen is upper-cased, and nothing else changes. |
| Breadcrumb.WordCount | src/components/layout/Header.tsx:38 | A part has one more word than it has hyphens. |
| Breadcrumb.FormatTwoWords | src/components/layout/Header.tsx:37-40 | A two-word segment reads as both words capitalised with one space between them. |
| Breadcrumb.FormatUserProfile | src/components/layout/Header.tsx:37-40 | "user-profile" reads "User Profile". |
| Breadcrumb.FormatDoubledHyphen | src/components/layout/Header.tsx:37-40 | "a--b" reads "A  B" (the empty word survives as a second space). |
| Breadcrumb.RootIsTitle | src/components/layout/Header.tsx:32 | "/" and "" show the title "Dashboard". |
| Breadcrumb.NormalPathCrumbs | src/components/layout/Header.tsx:30-45 | A normal path has one crumb per segment, each the title case of its segment. |
| Breadcrumb.SlashesSplitTrail | src/components/layout/Header.tsx:31 | Leading, trailing and doubled slashes add no crumb. |
| Screens.Lookup | src/components/layout/screenMap.tsx:4-10 | Exactly "default", "ecommerce" and "orders" name a screen. "orders" names the order list and the other two the default screen. |
| Screens.Truthy | src/router/index.tsx:60 | `!Component` is false exactly for an own entry or an inherited member. |
| Screens.FalsyIffUnknown | src/router/index.tsx:57-60 | The fallback test passes exactly for keys that are neither own keys nor inherited names. |
| Screens.PropertyOf | src/components/layout/screenMap.tsx:4-10 | Indexing the object finds exactly the own entries, or exactly the inherited `Object.prototype` names. |
| Router.RedirectTarget | src/router/index.tsx:7-50 | "/" and "/dashboards" redirect to "/dashboards/default", "/pages" to "/pages/user-profile/overview", and no other pattern redirects. |
| Router.FirstRedirect | src/router/index.tsx:7-50 | A found target belongs to a route with that pattern that redirects there; no target means no route with that pattern redirects. |
| Router.Or | src/router/index.tsx:57 | `a \|\| b` yields the optional value exactly when it is present and non-empty. |
| Router.Message | src/router/index.tsx:63 | The fallback text is the kind, a space, the key in double quotes, then " not available yet :)". |
| Router.MessageNamesKey | src/router/index.tsx:63 | Two keys of one kind with the same fallback text are the same key. |
| Router.DashboardRouter | src/router/index.tsx:53-69 | The key is a present non-empty subtype, else the type. A screen shows exactly when the key is in the screen map, and it is the key's screen; otherwise the message names "Dashboard" and the key. |
| Router.PageRouter | src/router/index.tsx:72-87 | The key is a present non-empty subsection, else the section. A screen shows exactly when the key is in the screen map, and it is the key's screen; otherwise the message names "Page" and the key. |
| Router.FavoritesRouter | src/router/index.tsx:90-103 | The key is the page. A screen shows exactly when it is in the screen map, and it is that screen; otherwise the message names "Page" and the page. |
| Router.Resolve | src/router/index.tsx:58-68 | A screen is shown exactly when the key names one, and it is that screen. Otherwise the message names the kind and the key. |
| Router.Redirects | src/router/index.tsx:8-19 | "/" and "/dashboards" redirect to "/dashboards/default", and "/pages" to "/pages/user-profile/overview"; the three router patterns do not redirect. |
| Router.NoRedirectChains | src/router/index.tsx:8-19 | No redirect target redirects again. |
| Router.RedirectLandings | src/router/index.tsx:8-19 | The default dashboard shows the default screen; the "/pages" landing shows the "overview" message. |
| Router.SubtypeDecides | src/router/index.tsx:53-69 | A non-empty subtype alone decides the dashboard; an empty subtype counts as none. |
| Router.DashboardScreens | src/router/index.tsx:53-69 | "default" and "ecommerce" show the default screen; "ecommerce/orders" shows the order list. |
| Router.PagesAndFavoritesFallBack | src/router/index.tsx:72-103 | Every page leaf key of the menu, and the favorites "overview" and "projects", fall back to the message. |
| Router.InheritedNamesFallBack | src/router/index.tsx:53-103 | In all three routers, an inherited `Object.prototype` name falls back to the message naming it, like any other unknown key. |
| Router.DashboardRouterAsWritten | src/router/index.tsx:53-69 | As written, the fallback shows exactly when indexing the object yields `undefined`. |
| Router.AsWrittenAgrees | src/router/index.tsx:53-69 | Outside the inherited names, the as-written router and the corrected one agree on screens and messages. |
| Router.ConstructorEscapesFallback | src/router/index.tsx:57-60 | As written, "/dashboards/constructor" renders the inherited `constructor` member; the corrected router shows the message. |
| App.SelectedComponent | src/App.tsx:8-11 | A screen shows exactly when the lower-cased view names one, and it is that screen; otherwise the fallback reads "Screen Not available now :)". |
| App.CurrentScreen | src/App.tsx:6-11 | The component reads the store's view and shows the selected screen. |
| App.CaseInsensitive | src/App.tsx:9 | Views equal up to case select the same screen. |
| App.InitialViewIsDefault | src/App.tsx:9 | The store's initial view "Default" shows the default screen. |
| App.OrdersInAnyCase | src/App.tsx:9 | "Orders", "ORDERS" and "orders" all show the order list. |
| App.UnknownViewsFallBack | src/App.tsx:10 | "Products" and "Overview" show the fallback. |
| App.ClickingOrdersShowsOrderList | src/App.tsx:9 | If the store sidebar's "Orders" leaf is clicked, the view it dispatches makes App's lookup select the order list. |

## Left out

- Route matching by react-router is not modelled. The route patterns are kept as data: the redirects are looked up by exact pattern, and each router takes its already-matched parameters.
- Navigation itself (`navigate(path)`) is left out. `RouterSidebar.Sidebar.Click` returns the target path instead.
- React rendering is reduced to one row per shown entry. Class names, icons, indentation and animation are not modelled; the highlight and the chevron are kept as booleans.
- The collapse button's `toggleSidebar` dispatch and the Header's search input are not modelled. They only forward events to the store, whose reducers are modelled.
- The Header's keyboard shortcut is not modelled. It only moves the focus to the search input and never touches the store.
- `toLowerCase` and `toUpperCase` are modelled on ASCII letters only. JavaScript's Unicode case mapping is out of scope.
- `charAt(0)` and `slice(1)` on UTF-16 code units are modelled on `char` sequences.
- The screens themselves (the default dashboard, the order list, the charts), the right sidebar, the layout and the dashboard slice are not part of this model.
- App.SelectedComponent: uses the corrected own-key lookup. The lower-cased view could in principle hit an inherited `Object.prototype` name too, but no menu label lower-cases to one.
- Router.PageRouter: uses the corrected lookup as well. The as-written lookup is modelled for the dashboard router only; the same inherited names escape this router's fallback.
- Router.FavoritesRouter: uses the corrected lookup as well. The as-written lookup is modelled for the dashboard router only; the same inherited names escape this router's fallback.

## Findings

| source | as written | input that shows it | evidently intended | confidence | as-written member | corrected member |
|---|---|---|---|---|---|---|
| src/router/index.tsx:57-60 | `ScreenMap[componentKey]` indexes a plain object, so inherited `Object.prototype` names are found. The `!Component` fallback is skipped. For a function-valued name such as `constructor`, React renders nothing, so the page area is blank instead of showing the message. For `__proto__`, whose value is an object, React throws and the route's error boundary shows "⚠️Something went wrong". | "/dashboards/constructor" | Unknown keys, including inherited names, show the "not available yet" message. | medium, not executed | Router.ConstructorEscapesFallback | Router.InheritedNamesFallBack |
