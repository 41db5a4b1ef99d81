/**
 * The `ui` slice of the global store: four fields and six named transitions. The store
 * object is updated in place by each reducer (class UiStore); `Reduce` is the same
 * transition on a snapshot of the four fields, which is what the lemmas talk about.
 */
module UiSlice {

  datatype UiState = UiState(sidebarOpen: bool, rightSidebarOpen: bool, searchQuery: string, activeView: string)

  /** `initialState`. */
  const InitialState := UiState(true, false, "", "Default")

  /** The slice's actions; `SetRightSidebarOpen` is declared but not exported by the slice. */
  datatype Action =
    | ToggleSidebarAction
    | ToggleRightSidebarAction
    | SetSidebarOpenAction(open: bool)
    | SetRightSidebarOpenAction(open: bool)
    | SetSearchQueryAction(query: string)
    | SetActiveViewAction(view: string)

  /** The reducer, field by field: which actions write each field, and with what. */
  function Reduce(s: UiState, a: Action): (t: UiState)
    ensures t.sidebarOpen == match a
      case ToggleSidebarAction => !s.sidebarOpen
      case SetSidebarOpenAction(b) => b
      case SetRightSidebarOpenAction(b) => b
      case _ => s.sidebarOpen
    ensures t.rightSidebarOpen == (if a.ToggleRightSidebarAction? then !s.rightSidebarOpen else s.rightSidebarOpen)
    ensures t.searchQuery == (if a.SetSearchQueryAction? then a.query else s.searchQuery)
    ensures t.activeView == (if a.SetActiveViewAction? then a.view else s.activeView)
  {
    match a
    case ToggleSidebarAction => s.(sidebarOpen := !s.sidebarOpen)
    case ToggleRightSidebarAction => s.(rightSidebarOpen := !s.rightSidebarOpen)
    case SetSidebarOpenAction(b) => s.(sidebarOpen := b)
    case SetRightSidebarOpenAction(b) => s.(sidebarOpen := b)
    case SetSearchQueryAction(q) => s.(searchQuery := q)
    case SetActiveViewAction(v) => s.(activeView := v)
  }

  /** Applying a sequence of actions in order. */
  function ReduceAll(s: UiState, actions: seq<Action>): UiState
    decreases |actions|
  {
    if actions == [] then s else ReduceAll(Reduce(s, actions[0]), actions[1..])
  }

  /** Each toggle undoes itself, and the two toggles commute. */
  lemma TogglesAreInvolutions(s: UiState)
    ensures Reduce(Reduce(s, ToggleSidebarAction), ToggleSidebarAction) == s
    ensures Reduce(Reduce(s, ToggleRightSidebarAction), ToggleRightSidebarAction) == s
    ensures Reduce(Reduce(s, ToggleSidebarAction), ToggleRightSidebarAction)
         == Reduce(Reduce(s, ToggleRightSidebarAction), ToggleSidebarAction)
  {
  }

  /** Setting a value twice is setting it once. */
  lemma SettersIdempotent(s: UiState, b: bool, q: string, v: string)
    ensures Reduce(Reduce(s, SetSidebarOpenAction(b)), SetSidebarOpenAction(b)) == Reduce(s, SetSidebarOpenAction(b))
    ensures Reduce(Reduce(s, SetSearchQueryAction(q)), SetSearchQueryAction(q)) == Reduce(s, SetSearchQueryAction(q))
    ensures Reduce(Reduce(s, SetActiveViewAction(v)), SetActiveViewAction(v)) == Reduce(s, SetActiveViewAction(v))
  {
  }

  /** `setRightSidebarOpen(b)` acts exactly like `setSidebarOpen(b)`: the right panel is never written by it. */
  lemma SetRightSidebarOpenWritesLeftPanel(s: UiState, b: bool)
    ensures Reduce(s, SetRightSidebarOpenAction(b)) == Reduce(s, SetSidebarOpenAction(b))
    ensures Reduce(s, SetRightSidebarOpenAction(b)).rightSidebarOpen == s.rightSidebarOpen
  {
  }

  /** The number of toggles of the left sidebar in a run of actions. */
  function ToggleCount(actions: seq<Action>): nat {
    if actions == [] then 0 else (if actions[0].ToggleSidebarAction? then 1 else 0) + ToggleCount(actions[1..])
  }

  /**
   * After any run made only of toggles, the left sidebar is open exactly when the number of
   * `toggleSidebar` actions has the parity that keeps its start value, and the search query
   * and active view are untouched.
   */
  lemma {:induction false} TogglesOnly(s: UiState, actions: seq<Action>)
    requires forall i :: 0 <= i < |actions| ==> actions[i].ToggleSidebarAction? || actions[i].ToggleRightSidebarAction?
    ensures ReduceAll(s, actions).sidebarOpen == (if ToggleCount(actions) % 2 == 0 then s.sidebarOpen else !s.sidebarOpen)
    ensures ReduceAll(s, actions).searchQuery == s.searchQuery
    ensures ReduceAll(s, actions).activeView == s.activeView
    decreases |actions|
  {
    if actions != [] {
      TogglesOnly(Reduce(s, actions[0]), actions[1..]);
    }
  }

  /** The store object, whose reducers write its fields in place. */
  class UiStore {
    var sidebarOpen: bool
    var rightSidebarOpen: bool
    var searchQuery: string
    var activeView: string

    /** The four fields as a value. */
    function State(): UiState
      reads this
    {
      UiState(sidebarOpen, rightSidebarOpen, searchQuery, activeView)
    }

    constructor ()
      ensures State() == InitialState
    {
      sidebarOpen := true;
      rightSidebarOpen := false;
      searchQuery := "";
      activeView := "Default";
    }

    method ToggleSidebar()
      modifies this
      ensures State() == Reduce(old(State()), ToggleSidebarAction)
    {
      sidebarOpen := !sidebarOpen;
    }

    method ToggleRightSidebar()
      modifies this
      ensures State() == Reduce(old(State()), ToggleRightSidebarAction)
    {
      rightSidebarOpen := !rightSidebarOpen;
    }

    method SetSidebarOpen(open: bool)
      modifies this
      ensures State() == Reduce(old(State()), SetSidebarOpenAction(open))
    {
      sidebarOpen := open;
    }

    /** Writes `sidebarOpen`, as the slice does; `rightSidebarOpen` keeps its value. */
    method SetRightSidebarOpen(open: bool)
      modifies this
      ensures State() == Reduce(old(State()), SetRightSidebarOpenAction(open))
      ensures rightSidebarOpen == old(rightSidebarOpen) && sidebarOpen == open
    {
      sidebarOpen := open;
    }

    method SetSearchQuery(query: string)
      modifies this
      ensures State() == Reduce(old(State()), SetSearchQueryAction(query))
    {
      searchQuery := query;
    }

    method SetActiveView(view: string)
      modifies this
      ensures State() == Reduce(old(State()), SetActiveViewAction(view))
    {
      activeView := view;
    }
  }
}
