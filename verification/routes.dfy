/** The route registry: routes keyed by id in insertion order, the
    directional lookup between two signals, and the interlocking rule that no
    two active routes share a track item. The route class itself is not part
    of this model; its `links`, `isActivable`, `activate`, `desactivate` and
    the signal's `nextActiveRoute` are modelled abstractly as stated below. */
module Routes {
  import opened Common

  /** A route from signal `entry` to signal `exit` over the track items `items`. */
  datatype Route = Route(entry: int, exit: int, items: seq<int>, active: bool, persistent: bool)

  /** `_routes`: an insertion-ordered dictionary, `order` being its keys. */
  datatype RouteTable = RouteTable(order: seq<int>, byId: map<int, Route>)

  predicate Valid(t: RouteTable) {
    && Distinct(t.order)
    && (forall k :: k in t.order ==> k in t.byId)
    && (forall k :: k in t.byId ==> k in t.order)
  }

  /** `Route.links(si1, si2)`, modelled as: the route starts at `a` and ends at `b`. */
  predicate Links(r: Route, a: int, b: int) {
    r.entry == a && r.exit == b
  }

  predicate LinksId(t: RouteTable, id: int, a: int, b: int) {
    id in t.byId && Links(t.byId[id], a, b)
  }

  /** `findRoute`: the first route in registry order leading from `a` to `b`. */
  function FindRoute(t: RouteTable, a: int, b: int): (found: Option<int>)
    requires Valid(t)
    ensures found.Some? ==> found.value in t.byId && Links(t.byId[found.value], a, b)
    ensures found.Some? ==>
      exists k :: 0 <= k < |t.order| && t.order[k] == found.value
        && forall j :: 0 <= j < k ==> !LinksId(t, t.order[j], a, b)
    ensures found.None? <==> forall id :: id in t.byId ==> !Links(t.byId[id], a, b)
  {
    var k := FirstIndex(t.order, id => LinksId(t, id, a, b));
    if k < |t.order| then Some(t.order[k]) else None
  }

  /** Direction matters: a route from `a` to a different signal `b` never
      answers the query from `b` to `a`, and when no other route runs from
      `b` to `a` that query finds nothing. */
  lemma FindRouteIsDirectional(t: RouteTable, a: int, b: int, rid: int)
    requires Valid(t) && a != b
    requires rid in t.byId && Links(t.byId[rid], a, b)
    ensures FindRoute(t, a, b).Some?
    ensures FindRoute(t, b, a) != Some(rid)
    ensures (forall id :: id in t.byId && id != rid ==> !Links(t.byId[id], b, a)) ==> FindRoute(t, b, a) == None
  {
  }

  /** The two routes have a track item in common. */
  predicate SharesItem(r1: Route, r2: Route) {
    exists x :: x in r1.items && x in r2.items
  }

  /** `Route.isActivable`, modelled as: no other active route shares a track item. */
  predicate IsActivable(t: RouteTable, rid: int)
    requires rid in t.byId
  {
    forall other :: other in t.byId && other != rid && t.byId[other].active ==>
      !SharesItem(t.byId[rid], t.byId[other])
  }

  /** The interlocking invariant: active routes are pairwise item-disjoint. */
  predicate Safe(t: RouteTable) {
    forall r1, r2 :: r1 in t.byId && r2 in t.byId && r1 != r2 && t.byId[r1].active && t.byId[r2].active ==>
      !SharesItem(t.byId[r1], t.byId[r2])
  }

  /** `t'` is `t` with route `rid` switched to `active` with the given persistence
      and nothing else changed. */
  predicate ChangedOnly(t: RouteTable, t': RouteTable, rid: int, active: bool, persistent: bool)
    requires rid in t.byId
  {
    && t'.order == t.order
    && t'.byId.Keys == t.byId.Keys
    && t'.byId[rid] == t.byId[rid].(active := active, persistent := persistent)
    && forall k :: k in t.byId && k != rid ==> t'.byId[k] == t.byId[k]
  }

  /** `Route.activate(persistent)`. */
  function Activate(t: RouteTable, rid: int, persistent: bool): (t': RouteTable)
    requires Valid(t) && rid in t.byId
    ensures Valid(t')
    ensures ChangedOnly(t, t', rid, true, persistent)
  {
    t.(byId := t.byId[rid := t.byId[rid].(active := true, persistent := persistent)])
  }

  /** `Route.desactivate()`: the route is neither active nor persistent afterwards. */
  function Desactivate(t: RouteTable, rid: int): (t': RouteTable)
    requires Valid(t) && rid in t.byId
    ensures Valid(t')
    ensures ChangedOnly(t, t', rid, false, false)
  {
    t.(byId := t.byId[rid := t.byId[rid].(active := false, persistent := false)])
  }

  /** Activating a route that `isActivable` keeps active routes item-disjoint. */
  lemma ActivateKeepsSafe(t: RouteTable, rid: int, persistent: bool)
    requires Valid(t) && rid in t.byId
    requires Safe(t) && IsActivable(t, rid)
    ensures Safe(Activate(t, rid, persistent))
  {
    var t' := Activate(t, rid, persistent);
    forall r1, r2 | r1 in t'.byId && r2 in t'.byId && r1 != r2 && t'.byId[r1].active && t'.byId[r2].active
      ensures !SharesItem(t'.byId[r1], t'.byId[r2])
    {
      if r1 == rid {
        assert !SharesItem(t.byId[rid], t.byId[r2]);
      } else if r2 == rid {
        assert !SharesItem(t.byId[rid], t.byId[r1]);
      }
    }
  }

  /** Deactivating a route never breaks the interlocking invariant. */
  lemma DesactivateKeepsSafe(t: RouteTable, rid: int)
    requires Valid(t) && rid in t.byId && Safe(t)
    ensures Safe(Desactivate(t, rid))
  {
  }

  predicate HeadsActiveRoute(t: RouteTable, id: int, s: int) {
    id in t.byId && t.byId[id].active && t.byId[id].entry == s
  }

  /** `SignalItem.nextActiveRoute`, modelled as: the first active route in
      registry order whose entry is the signal `s`. */
  function NextActiveRoute(t: RouteTable, s: int): (r: Option<int>)
    requires Valid(t)
    ensures r.Some? ==> r.value in t.byId && t.byId[r.value].active && t.byId[r.value].entry == s
    ensures r.None? <==> forall id :: id in t.byId ==> !(t.byId[id].active && t.byId[id].entry == s)
  {
    var k := FirstIndex(t.order, id => HeadsActiveRoute(t, id, s));
    if k < |t.order| then Some(t.order[k]) else None
  }
}
