/**
 * The app shell's navigation: a history stack of views whose last entry is
 * the current view, the selected trip, and the rule that decides which
 * screen is rendered.
 */
module Navigation {
  import opened Collections
  import opened Types

  datatype View = Home | TripDashboard | Expenses | Activities | Documents | Maps | Ai | Profile

  /** The history is never empty: it starts with one entry and `goBack` never pops the last. */
  type History = h: seq<View> | |h| > 0 witness [Home]

  datatype Nav = Nav(history: History, selectedTrip: Option<Id>)

  /** The state on start-up: only the home view, no trip selected. */
  const Initial: Nav := Nav([Home], None)

  /** `currentView`: the last history entry. */
  function Current(n: Nav): View {
    n.history[|n.history| - 1]
  }

  /** `navigateTo`: pushes the view, which becomes current. */
  function NavigateTo(n: Nav, v: View): (r: Nav)
    ensures r.history == n.history + [v]
    ensures Current(r) == v
    ensures r.selectedTrip == n.selectedTrip
  {
    n.(history := n.history + [v])
  }

  /** `goBack`: pops the current view unless it is the only one. */
  function GoBack(n: Nav): (r: Nav)
    ensures |n.history| > 1 ==> r.history == n.history[..|n.history| - 1]
    ensures |n.history| == 1 ==> r == n
    ensures r.selectedTrip == n.selectedTrip
  {
    if |n.history| > 1 then n.(history := n.history[..|n.history| - 1]) else n
  }

  /** Going back right after navigating restores the previous state. */
  lemma BackUndoesNavigate(n: Nav, v: View)
    ensures GoBack(NavigateTo(n, v)) == n
  {
    assert (n.history + [v])[..|n.history|] == n.history;
  }

  /** Going back never empties the history, and from the start it stays on home. */
  lemma BackFromStart()
    ensures GoBack(Initial) == Initial && Current(Initial) == Home
  {
  }

  /** The title click and the home button: the history becomes just the home view. */
  function GoHome(n: Nav): (r: Nav)
    ensures r.history == [Home] && Current(r) == Home
    ensures r.selectedTrip == n.selectedTrip
  {
    n.(history := [Home])
  }

  /** `navigateToTrip`: selects the trip and pushes its dashboard. */
  function NavigateToTrip(n: Nav, id: Id): (r: Nav)
    ensures r.selectedTrip == Some(id)
    ensures r.history == n.history + [TripDashboard] && Current(r) == TripDashboard
  {
    NavigateTo(n.(selectedTrip := Some(id)), TripDashboard)
  }

  /** What `renderView` shows; the trip-scoped screens carry the selected trip id. */
  datatype Screen =
    | HomeScreen
    | ProfileScreen
    | DashboardScreen(tripId: Id)
    | ExpensesScreen(tripId: Id)
    | ActivitiesScreen(tripId: Id)
    | DocumentsScreen(tripId: Id)
    | MapsScreen(tripId: Id)
    | AiScreen(tripId: Id)

  /** A trip is selected: `selectedTripId` is truthy, so neither absent nor the empty string. */
  predicate HasTrip(n: Nav) {
    n.selectedTrip.Some? && n.selectedTrip.value != ""
  }

  /** The view a trip-scoped screen belongs to. */
  function ViewOf(sc: Screen): View {
    match sc
    case HomeScreen => Home
    case ProfileScreen => Profile
    case DashboardScreen(_) => TripDashboard
    case ExpensesScreen(_) => Expenses
    case ActivitiesScreen(_) => Activities
    case DocumentsScreen(_) => Documents
    case MapsScreen(_) => Maps
    case AiScreen(_) => Ai
  }

  /**
   * `renderView`: home and profile are shown as such; every other view needs
   * a selected trip and falls back to the home screen without one.
   */
  function Render(n: Nav): (sc: Screen)
    ensures sc == HomeScreen <==> Current(n) == Home || (Current(n) != Profile && !HasTrip(n))
    ensures sc == ProfileScreen <==> Current(n) == Profile
    ensures sc != HomeScreen && sc != ProfileScreen ==> ViewOf(sc) == Current(n) && sc.tripId == n.selectedTrip.value
  {
    var v := Current(n);
    if v == Home then HomeScreen
    else if v == Profile then ProfileScreen
    else if !HasTrip(n) then HomeScreen
    else
      var id := n.selectedTrip.value;
      match v
      case TripDashboard => DashboardScreen(id)
      case Expenses => ExpensesScreen(id)
      case Activities => ActivitiesScreen(id)
      case Documents => DocumentsScreen(id)
      case Maps => MapsScreen(id)
      case Ai => AiScreen(id)
  }

  /** After selecting a trip with a non-empty id, its dashboard is rendered. */
  lemma NavigateToTripShowsDashboard(n: Nav, id: Id)
    requires id != ""
    ensures Render(NavigateToTrip(n, id)) == DashboardScreen(id)
  {
  }
}
