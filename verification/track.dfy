/** Track items as the simulation sees them: a category, scene coordinates
    and the three id-valued links (previous, next and, for points, reverse)
    that the link builder fills in. Relations are ids into an id-keyed map,
    never object references. */
module Track {
  import opened Common

  /** A scene coordinate. The source uses floating-point `QPointF`; the model
      uses exact reals. */
  datatype Point = Point(x: real, y: real)

  /** Squared Euclidean distance. */
  function SqDist(p: Point, q: Point): (d: real)
    ensures d >= 0.0
    ensures d == 0.0 <== p == q
  {
    (p.x - q.x) * (p.x - q.x) + (p.y - q.y) * (p.y - q.y)
  }

  /** Two points are linked when they are at most one unit apart. Since both
      sides are non-negative, `sqrt(d) <= 1` holds exactly when `d <= 1`. */
  predicate Near(p: Point, q: Point) {
    SqDist(p, q) <= 1.0
  }

  /** The concrete item classes of the scenery. Points items are switches;
      End items are buffer stops; Place, Platform and Text items are markers
      that take no part in the track topology. */
  datatype Kind = Line | InvisibleLink | Points | End | Platform | Place | Text | Signal

  /** `isinstance(ti, LineItem)`: an InvisibleLinkItem is a LineItem subclass. */
  predicate IsLineItem(k: Kind) {
    k == Line || k == InvisibleLink
  }

  /** The three link fields of a track item. */
  datatype Slot = Previous | Next | Reverse

  /** A track item; `reverse` is only meaningful for points items. */
  datatype TrackItem = TrackItem(
    kind: Kind,
    origin: Point,
    end: Point,
    reverse: Point,
    placeCode: string,
    trackCode: string,
    previousItem: Option<int>,
    nextItem: Option<int>,
    reverseItem: Option<int>)
  {
    /** The item linked through slot `s`. */
    function Link(s: Slot): Option<int> {
      match s
      case Previous => previousItem
      case Next => nextItem
      case Reverse => reverseItem
    }

    /** The item with slot `s` pointing at `id` and every other field kept. */
    function WithLink(s: Slot, id: int): (t: TrackItem)
      ensures t.Link(s) == Some(id)
      ensures forall s' :: s' != s ==> t.Link(s') == Link(s')
      ensures SameShape(t, this)
    {
      match s
      case Previous => this.(previousItem := Some(id))
      case Next => this.(nextItem := Some(id))
      case Reverse => this.(reverseItem := Some(id))
    }
  }

  /** Same category, coordinates and codes: everything but the links. */
  predicate SameShape(a: TrackItem, b: TrackItem) {
    && a.kind == b.kind && a.origin == b.origin && a.end == b.end
    && a.reverse == b.reverse && a.placeCode == b.placeCode && a.trackCode == b.trackCode
  }

  /** Every id of `order` is a key of `items`: what a prefix of the key list
      of the item dictionary satisfies. */
  predicate Indexed(items: map<int, TrackItem>, order: seq<int>) {
    forall i :: 0 <= i < |order| ==> order[i] in items
  }

  /** `_trackItems` is an insertion-ordered dictionary: `order` lists each of
      its keys exactly once, in insertion order. */
  predicate KeyOrder(items: map<int, TrackItem>, order: seq<int>) {
    && Distinct(order)
    && Indexed(items, order)
    && forall k :: k in items ==> k in order
  }
}
