/** The link validator: every item other than a place, platform or text
    marker must have a previous item, and a next item unless it is an end
    item. One message is logged per missing link; there is no early exit. */
module Validator {
  import opened Common
  import opened Track

  /** Items that take part in the topology. */
  predicate NeedsLinks(k: Kind) {
    k != Place && k != Platform && k != Text
  }

  /** The log message "TrackItem <id> is unlinked at (<x>, <y>)". */
  datatype Unlinked = Unlinked(id: int, at: Point)

  /** The item carries every link the validator demands of it. */
  predicate Linked(ti: TrackItem) {
    NeedsLinks(ti.kind) ==> ti.previousItem.Some? && (ti.kind == End || ti.nextItem.Some?)
  }

  predicate AllLinked(m: map<int, TrackItem>, order: seq<int>)
    requires Indexed(m, order)
  {
    forall i :: 0 <= i < |order| ==> Linked(m[order[i]])
  }

  /** The messages for one item, in the order they are logged: the missing
      next link (at the end point), then the missing previous link (at the
      origin). */
  function ItemViolations(id: int, ti: TrackItem): (v: seq<Unlinked>)
    ensures |v| == 0 <==> Linked(ti)
  {
    if !NeedsLinks(ti.kind) then []
    else
      (if ti.nextItem.None? && ti.kind != End then [Unlinked(id, ti.end)] else [])
      + (if ti.previousItem.None? then [Unlinked(id, ti.origin)] else [])
  }

  /** Reference definition: all messages, item by item in key order. */
  function Violations(m: map<int, TrackItem>, order: seq<int>): seq<Unlinked>
    requires Indexed(m, order)
    decreases |order|
  {
    if |order| == 0 then []
    else Violations(m, order[..|order| - 1]) + ItemViolations(order[|order| - 1], m[order[|order| - 1]])
  }

  /** `checkTrackItemsLinks`: the loop over the items, returning the verdict and
      the log it writes. */
  method CheckTrackItemsLinks(m: map<int, TrackItem>, order: seq<int>) returns (result: bool, log: seq<Unlinked>)
    requires KeyOrder(m, order)
    ensures result <==> AllLinked(m, order)
    ensures result <==> forall id :: id in m ==> Linked(m[id])
    ensures result <==> |log| == 0
    ensures log == Violations(m, order)
  {
    result := true;
    log := [];
    var i := 0;
    while i < |order|
      invariant 0 <= i <= |order|
      invariant log == Violations(m, order[..i])
      invariant result <==> AllLinked(m, order[..i])
      invariant result <==> |log| == 0
    {
      var ti := m[order[i]];
      assert order[..i + 1][..i] == order[..i];
      if NeedsLinks(ti.kind) {
        if ti.nextItem.None? && ti.kind != End {
          log := log + [Unlinked(order[i], ti.end)];
          result := false;
        }
        if ti.previousItem.None? {
          log := log + [Unlinked(order[i], ti.origin)];
          result := false;
        }
      }
      i := i + 1;
    }
    assert order[..i] == order;
    AllLinkedCoversKeys(m, order);
  }

  /** Over the full key list, "every listed item is linked" is "every item is linked". */
  lemma AllLinkedCoversKeys(m: map<int, TrackItem>, order: seq<int>)
    requires KeyOrder(m, order)
    ensures AllLinked(m, order) <==> forall id :: id in m ==> Linked(m[id])
  {
    if AllLinked(m, order) {
      forall id | id in m ensures Linked(m[id]) {
        var j :| 0 <= j < |order| && order[j] == id;
      }
    } else {
      var j :| 0 <= j < |order| && !Linked(m[order[j]]);
      var id := order[j];
      assert id in m && !Linked(m[id]);
    }
  }

  /** Completeness: every missing required link of every item is reported. */
  lemma {:induction false} MissingLinksReported(m: map<int, TrackItem>, order: seq<int>, i: int)
    requires Indexed(m, order)
    requires 0 <= i < |order|
    requires NeedsLinks(m[order[i]].kind)
    ensures m[order[i]].previousItem.None? ==> Unlinked(order[i], m[order[i]].origin) in Violations(m, order)
    ensures m[order[i]].nextItem.None? && m[order[i]].kind != End ==>
      Unlinked(order[i], m[order[i]].end) in Violations(m, order)
    decreases |order|
  {
    if i < |order| - 1 {
      MissingLinksReported(m, order[..|order| - 1], i);
    }
  }

  /** `u` reports a required link that item `ti` lacks. */
  predicate Reports(u: Unlinked, ti: TrackItem) {
    && NeedsLinks(ti.kind)
    && ((ti.previousItem.None? && u.at == ti.origin)
        || (ti.nextItem.None? && ti.kind != End && u.at == ti.end))
  }

  /** Soundness: every message names an item of `order` that needs links and
      lacks the link at the reported point. */
  lemma {:induction false} ReportsAreMissingLinks(m: map<int, TrackItem>, order: seq<int>, u: Unlinked)
    requires Indexed(m, order)
    requires u in Violations(m, order)
    ensures exists i :: 0 <= i < |order| && order[i] == u.id && Reports(u, m[order[i]])
    decreases |order|
  {
    var last := |order| - 1;
    if u in ItemViolations(order[last], m[order[last]]) {
      assert order[last] == u.id && Reports(u, m[order[last]]);
    } else {
      ReportsAreMissingLinks(m, order[..last], u);
      var i :| 0 <= i < last && order[..last][i] == u.id && Reports(u, m[order[..last][i]]);
      assert order[..last][i] == order[i];
    }
  }

  /** One message per missing link: the log length counts the missing links. */
  function MissingCount(ti: TrackItem): nat {
    if !NeedsLinks(ti.kind) then 0
    else (if ti.nextItem.None? && ti.kind != End then 1 else 0) + (if ti.previousItem.None? then 1 else 0)
  }

  function TotalMissing(m: map<int, TrackItem>, order: seq<int>): nat
    requires Indexed(m, order)
    decreases |order|
  {
    if |order| == 0 then 0
    else TotalMissing(m, order[..|order| - 1]) + MissingCount(m[order[|order| - 1]])
  }

  lemma {:induction false} OneMessagePerMissingLink(m: map<int, TrackItem>, order: seq<int>)
    requires Indexed(m, order)
    ensures |Violations(m, order)| == TotalMissing(m, order)
    decreases |order|
  {
    if |order| > 0 {
      OneMessagePerMissingLink(m, order[..|order| - 1]);
    }
  }
}
