/**
 * The application shell's screen choice: the store's `activeView`, lower-cased, looked
 * up in the screen map, with "Screen Not available now :)" when the key is absent.
 */
module App {
  import opened Wrappers
  import opened Text
  import opened Screens
  import UiSlice
  import StoreSidebar

  /** A screen, or the fallback text the shell shows instead. */
  datatype AppView = AppScreen(screen: Screen) | ScreenNotAvailable(message: string)

  const NotAvailableMessage := "Screen Not available now :)"

  /** The component the shell renders for an active view. */
  function SelectedComponent(activeView: string): (v: AppView)
    ensures v.AppScreen? <==> Lookup(ToLower(activeView)).Some?
    ensures v.AppScreen? ==> Lookup(ToLower(activeView)) == Some(v.screen)
    ensures v.ScreenNotAvailable? ==> v.message == NotAvailableMessage
  {
    match Lookup(ToLower(activeView))
    case Some(s) => AppScreen(s)
    case None => ScreenNotAvailable(NotAvailableMessage)
  }

  /** Reads the store and returns its screen; the store is not changed. */
  method CurrentScreen(store: UiSlice.UiStore) returns (v: AppView)
    ensures v == SelectedComponent(store.activeView)
  {
    v := SelectedComponent(store.activeView);
  }

  /** Views that differ only in ASCII letter case select the same component. */
  lemma CaseInsensitive(a: string, b: string)
    requires ToLower(a) == ToLower(b)
    ensures SelectedComponent(a) == SelectedComponent(b)
  {
  }

  /** The initial view "Default" shows the default screen. */
  lemma InitialViewIsDefault()
    ensures SelectedComponent(UiSlice.InitialState.activeView) == AppScreen(DefaultScreen)
  {
    assert ToLower("Default") == "default";
  }

  /** "Orders", "ORDERS" and "orders" all show the order list. */
  lemma OrdersInAnyCase()
    ensures SelectedComponent("Orders") == AppScreen(OrdersList)
    ensures SelectedComponent("ORDERS") == AppScreen(OrdersList)
    ensures SelectedComponent("orders") == AppScreen(OrdersList)
  {
    assert ToLower("Orders") == "orders";
    assert ToLower("ORDERS") == "orders";
    assert ToLower("orders") == "orders";
  }

  /** Views whose lower-cased key is not in the map fall back. */
  lemma UnknownViewsFallBack()
    ensures SelectedComponent("Products") == ScreenNotAvailable(NotAvailableMessage)
    ensures SelectedComponent("Overview") == ScreenNotAvailable(NotAvailableMessage)
  {
    assert ToLower("Products") == "products";
    assert ToLower("Overview") == "overview";
  }

  /**
   * If the store-driven sidebar's "Orders" leaf is clicked, the view it dispatches makes the
   * shell's lookup select the order list. (Neither that sidebar nor the shell is mounted by the
   * program's entry point; this is the composition the two components are written for.)
   */
  lemma ClickingOrdersShowsOrderList(s: UiSlice.UiState)
    ensures StoreSidebar.OnClick(StoreSidebar.Leaf("orders", "Orders"), 2) == StoreSidebar.DispatchActiveView("Orders")
    ensures SelectedComponent(UiSlice.Reduce(s, UiSlice.SetActiveViewAction("Orders")).activeView) == AppScreen(OrdersList)
  {
    OrdersInAnyCase();
  }
}
