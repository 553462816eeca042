/** The two-click route controller. The simulation holds one "selected
    signal" slot; a left click on a signal either arms it or, when another
    signal is armed, tries the route between the two. A right click clears
    the slot and releases the route starting at the clicked signal.
    Notifications (`pyqtSignal` emissions and signal `unselect()` calls) are
    returned as an event list. */
module Interlocking {
  import opened Common
  import opened Routes

  /** `_selectedSignal` (a signal id) and the route registry. */
  datatype Controller = Controller(selected: Option<int>, routes: RouteTable)

  datatype Event =
    | Unselected(signal: int)                        // `SignalItem.unselect()`
    | ConflictingRoute(route: int)                   // `conflictingRoute.emit(r)`
    | NoRouteBetweenSignals(first: int, second: int) // `noRouteBetweenSignals.emit(...)`

  /** `_trackItems[siId]` raises `KeyError` for an unknown id. */
  datatype Error = UnknownTrackItem(id: int)

  datatype Step = Step(state: Controller, events: seq<Event>)

  /** The state the slot `_selectedSignal` holds after a left click on `siId`. */
  function SelectedAfter(c: Controller, siId: int, force: bool): Option<int>
    requires Valid(c.routes)
  {
    if c.selected.None? || c.selected == Some(siId) then Some(siId)
    else match FindRoute(c.routes, c.selected.value, siId)
      case None => Some(siId)
      case Some(rid) => if IsActivable(c.routes, rid) || force then None else c.selected
  }

  /** `activateRoute(siId, persistent, force)`. */
  function ActivateRoute(c: Controller, trackItems: set<int>, siId: int, persistent: bool, force: bool)
    : (r: Result<Step, Error>)
    requires Valid(c.routes)
    ensures r.Failure? <==> siId !in trackItems
    ensures r.Failure? ==> r.error == UnknownTrackItem(siId)
    ensures r.Success? ==> Valid(r.value.state.routes)
    // first click, or a click on the armed signal: arm it, nothing else
    ensures r.Success? && (c.selected.None? || c.selected == Some(siId)) ==>
      r.value.state == c.(selected := Some(siId)) && r.value.events == []
    // second click
    ensures r.Success? && c.selected.Some? && c.selected.value != siId ==>
      var a := c.selected.value;
      match FindRoute(c.routes, a, siId)
      case None =>
        && r.value.state == c.(selected := Some(siId))
        && r.value.events == [NoRouteBetweenSignals(a, siId), Unselected(a)]
      case Some(rid) =>
        if IsActivable(c.routes, rid) || force then
          && r.value.state.selected.None?
          && ChangedOnly(c.routes, r.value.state.routes, rid, true, persistent)
          && r.value.events == [Unselected(a), Unselected(siId)]
        else
          && r.value.state == c
          && r.value.events == [ConflictingRoute(rid), Unselected(siId)]
  {
    if siId !in trackItems then Failure(UnknownTrackItem(siId))
    else if c.selected.None? || c.selected == Some(siId) then
      Success(Step(c.(selected := Some(siId)), []))
    else
      var a := c.selected.value;
      match FindRoute(c.routes, a, siId)
      case Some(rid) =>
        if IsActivable(c.routes, rid) || force then
          Success(Step(Controller(None, Activate(c.routes, rid, persistent)), [Unselected(a), Unselected(siId)]))
        else
          Success(Step(c, [ConflictingRoute(rid), Unselected(siId)]))
      case None =>
        Success(Step(c.(selected := Some(siId)), [NoRouteBetweenSignals(a, siId), Unselected(a)]))
  }

  /** The armed signal after a left click: the clicked signal when nothing
      was armed, it was already armed, or no route was found; none when a
      route was activated; the previously armed signal when the route
      conflicted. */
  lemma ActivateRouteSelection(c: Controller, trackItems: set<int>, siId: int, persistent: bool, force: bool)
    requires Valid(c.routes) && siId in trackItems
    ensures ActivateRoute(c, trackItems, siId, persistent, force).Success?
    ensures ActivateRoute(c, trackItems, siId, persistent, force).value.state.selected
         == SelectedAfter(c, siId, force)
  {
  }

  /** Route state changes only when a route was found and could be (or was
      forced to be) activated; then that route alone changes. */
  lemma ActivateRouteChangesRoutesOnlyOnSuccess(c: Controller, trackItems: set<int>, siId: int, persistent: bool, force: bool)
    requires Valid(c.routes)
    requires ActivateRoute(c, trackItems, siId, persistent, force).Success?
    ensures var t' := ActivateRoute(c, trackItems, siId, persistent, force).value.state.routes;
      t' == c.routes ||
        exists rid :: rid in c.routes.byId
          && c.selected.Some? && FindRoute(c.routes, c.selected.value, siId) == Some(rid)
          && (IsActivable(c.routes, rid) || force)
          && ChangedOnly(c.routes, t', rid, true, persistent)
  {
    var t' := ActivateRoute(c, trackItems, siId, persistent, force).value.state.routes;
    if t' != c.routes {
      var rid := FindRoute(c.routes, c.selected.value, siId).value;
      assert ChangedOnly(c.routes, t', rid, true, persistent);
    }
  }

  /** Without `force`, a left click never makes two active routes share a track item. */
  lemma ActivateRouteKeepsInterlocking(c: Controller, trackItems: set<int>, siId: int, persistent: bool)
    requires Valid(c.routes) && Safe(c.routes)
    requires ActivateRoute(c, trackItems, siId, persistent, false).Success?
    ensures Safe(ActivateRoute(c, trackItems, siId, persistent, false).value.state.routes)
  {
    if c.selected.Some? && c.selected.value != siId {
      var found := FindRoute(c.routes, c.selected.value, siId);
      if found.Some? && IsActivable(c.routes, found.value) {
        ActivateKeepsSafe(c.routes, found.value, persistent);
      }
    }
  }

  /** `force` bypasses the interlocking: two routes over a common item can
      both end up active. */
  lemma ForceOverridesInterlocking()
    ensures var t := RouteTable([1, 2], map[1 := Route(10, 11, [5], true, false),
                                           2 := Route(20, 21, [5], false, false)]);
            var c := Controller(Some(20), t);
            var r := ActivateRoute(c, {10, 11, 20, 21}, 21, false, true);
            Safe(t) && r.Success? && !Safe(r.value.state.routes)
  {
    var t := RouteTable([1, 2], map[1 := Route(10, 11, [5], true, false),
                                   2 := Route(20, 21, [5], false, false)]);
    assert FindRoute(t, 20, 21) == Some(2);
    assert 5 in t.byId[2].items && 5 in t.byId[1].items;
    assert SharesItem(t.byId[2], t.byId[1]);
  }

  /** `desactivateRoute(siId)`. */
  function DesactivateRoute(c: Controller, trackItems: set<int>, siId: int): (r: Result<Step, Error>)
    requires Valid(c.routes)
    ensures r.Failure? <==> siId !in trackItems
    ensures r.Success? ==> r.value.state.selected.None?
    ensures r.Success? ==> Valid(r.value.state.routes)
    ensures r.Success? ==>
      r.value.events == if c.selected.Some? then [Unselected(c.selected.value)] else []
    ensures r.Success? ==>
      match NextActiveRoute(c.routes, siId)
      case None => r.value.state.routes == c.routes
      case Some(rid) => ChangedOnly(c.routes, r.value.state.routes, rid, false, false)
  {
    if siId !in trackItems then Failure(UnknownTrackItem(siId))
    else
      var events := if c.selected.Some? then [Unselected(c.selected.value)] else [];
      var routes := match NextActiveRoute(c.routes, siId)
        case Some(rid) => Desactivate(c.routes, rid)
        case None => c.routes;
      Success(Step(Controller(None, routes), events))
  }

  /** A right click keeps the interlocking invariant. */
  lemma DesactivateRouteKeepsInterlocking(c: Controller, trackItems: set<int>, siId: int)
    requires Valid(c.routes) && Safe(c.routes)
    requires DesactivateRoute(c, trackItems, siId).Success?
    ensures Safe(DesactivateRoute(c, trackItems, siId).value.state.routes)
  {
    var found := NextActiveRoute(c.routes, siId);
    if found.Some? {
      DesactivateKeepsSafe(c.routes, found.value);
    }
  }

  /** Selecting the entry signal, then the exit signal, of a route that can be
      activated activates it and leaves no signal armed. */
  lemma TwoClicksActivate(c: Controller, trackItems: set<int>, a: int, b: int, rid: int, persistent: bool)
    requires Valid(c.routes) && c.selected.None?
    requires a in trackItems && b in trackItems && a != b
    requires FindRoute(c.routes, a, b) == Some(rid) && IsActivable(c.routes, rid)
    ensures var s1 := ActivateRoute(c, trackItems, a, false, false).value.state;
            var s2 := ActivateRoute(s1, trackItems, b, persistent, false).value;
            && s2.state.selected.None?
            && s2.state.routes.byId[rid].active
            && s2.state.routes.byId[rid].persistent == persistent
            && s2.events == [Unselected(a), Unselected(b)]
  {
  }

  /** The same two clicks while another active route shares an item with the
      route: a conflict is reported, no route changes, and the first signal
      stays armed. */
  lemma TwoClicksConflict(c: Controller, trackItems: set<int>, a: int, b: int, rid: int, other: int)
    requires Valid(c.routes) && c.selected.None?
    requires a in trackItems && b in trackItems && a != b
    requires FindRoute(c.routes, a, b) == Some(rid)
    requires other in c.routes.byId && other != rid && c.routes.byId[other].active
    requires SharesItem(c.routes.byId[rid], c.routes.byId[other])
    ensures var s1 := ActivateRoute(c, trackItems, a, false, false).value.state;
            var s2 := ActivateRoute(s1, trackItems, b, false, false).value;
            && s2.state.routes == c.routes
            && s2.state.selected == Some(a)
            && s2.events == [ConflictingRoute(rid), Unselected(b)]
  {
    assert !IsActivable(c.routes, rid);
  }
}
