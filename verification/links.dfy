/** The track-link builder: every pair of items whose keys satisfy
    `ki < kj` is compared once, in the nested insertion-order iteration of the
    item dictionary, and the first matching endpoint comparison of a fixed
    precedence chain links the two items both ways. Assignments are
    unconditional, so a later pair overwrites what an earlier pair wrote. */
module Links {
  import opened Common
  import opened Track

  /** Which slot of each item a matched pair fills: `first` in the item of the
      outer loop (`vi`), `second` in the item of the inner loop (`vj`). */
  datatype Link = Link(first: Slot, second: Slot)

  /** The decision of the comparison chain for `vi = a`, `vj = b`. The last two
      branches are an `elif` chain: when `a` is a points item, the reverse point
      of `b` is never examined, even if `b` is a points item too. */
  function LinkStep(a: TrackItem, b: TrackItem): (r: Option<Link>)
    // a reverse slot is only ever filled in a points item
    ensures r.Some? && r.value.first == Reverse ==> a.kind == Points
    ensures r.Some? && r.value.second == Reverse ==> b.kind == Points && a.kind != Points
    // no link at all when no endpoint of one item is near an endpoint of the other
    ensures r.None? ==>
      && !Near(a.origin, b.origin) && !Near(a.origin, b.end)
      && !Near(a.end, b.origin) && !Near(a.end, b.end)
    ensures r.None? && a.kind == Points ==> !Near(a.reverse, b.origin) && !Near(a.reverse, b.end)
  {
    if Near(a.origin, b.origin) then Some(Link(Previous, Previous))
    else if Near(a.origin, b.end) then Some(Link(Previous, Next))
    else if Near(a.end, b.origin) then Some(Link(Next, Previous))
    else if Near(a.end, b.end) then Some(Link(Next, Next))
    else if a.kind == Points then
      if Near(a.reverse, b.origin) then Some(Link(Reverse, Previous))
      else if Near(a.reverse, b.end) then Some(Link(Reverse, Next))
      else None
    else if b.kind == Points then
      if Near(a.origin, b.reverse) then Some(Link(Previous, Reverse))
      else if Near(a.end, b.reverse) then Some(Link(Next, Reverse))
      else None
    else None
  }

  /** One endpoint comparison: the two points compared and the link it makes. */
  datatype Probe = Probe(p: Point, q: Point, link: Link)

  /** The comparisons of one pair in precedence order, as a list. */
  function Probes(a: TrackItem, b: TrackItem): (ps: seq<Probe>)
    ensures 4 <= |ps| <= 6
  {
    [ Probe(a.origin, b.origin, Link(Previous, Previous)),
      Probe(a.origin, b.end, Link(Previous, Next)),
      Probe(a.end, b.origin, Link(Next, Previous)),
      Probe(a.end, b.end, Link(Next, Next)) ]
    + (if a.kind == Points then
         [ Probe(a.reverse, b.origin, Link(Reverse, Previous)),
           Probe(a.reverse, b.end, Link(Reverse, Next)) ]
       else if b.kind == Points then
         [ Probe(a.origin, b.reverse, Link(Previous, Reverse)),
           Probe(a.end, b.reverse, Link(Next, Reverse)) ]
       else [])
  }

  predicate Hits(pr: Probe) {
    Near(pr.p, pr.q)
  }

  /** Reference definition: the link of the first comparison that hits. */
  function FirstHit(ps: seq<Probe>): Option<Link> {
    var k := FirstIndex(ps, Hits);
    if k < |ps| then Some(ps[k].link) else None
  }

  /** The `if/elif` chain is exactly "the first comparison in precedence order
      whose points are within one unit". */
  lemma LinkStepIsFirstHit(a: TrackItem, b: TrackItem)
    ensures LinkStep(a, b) == FirstHit(Probes(a, b))
  {
    var ps := Probes(a, b);
    assert ps[0] == Probe(a.origin, b.origin, Link(Previous, Previous));
    assert ps[1] == Probe(a.origin, b.end, Link(Previous, Next));
    assert ps[2] == Probe(a.end, b.origin, Link(Next, Previous));
    assert ps[3] == Probe(a.end, b.end, Link(Next, Next));
    var k := FirstIndex(ps, Hits);
    if k < 4 {
      assert Hits(ps[k]);
    } else if a.kind == Points {
      assert ps[4] == Probe(a.reverse, b.origin, Link(Reverse, Previous));
      assert ps[5] == Probe(a.reverse, b.end, Link(Reverse, Next));
    } else if b.kind == Points {
      assert ps[4] == Probe(a.origin, b.reverse, Link(Previous, Reverse));
      assert ps[5] == Probe(a.end, b.reverse, Link(Next, Reverse));
    }
  }

  /** At most one assignment pair per item pair: it is the first comparison that
      hits, and no link is made iff no comparison hits. */
  lemma LinkStepFirstMatch(a: TrackItem, b: TrackItem)
    ensures LinkStep(a, b).None? <==> forall k :: 0 <= k < |Probes(a, b)| ==> !Hits(Probes(a, b)[k])
    ensures LinkStep(a, b).Some? ==>
      exists k :: 0 <= k < |Probes(a, b)| && Hits(Probes(a, b)[k])
        && Probes(a, b)[k].link == LinkStep(a, b).value
        && forall j :: 0 <= j < k ==> !Hits(Probes(a, b)[j])
  {
    LinkStepIsFirstHit(a, b);
    var ps := Probes(a, b);
    var k := FirstIndex(ps, Hits);
    if k < |ps| {
      assert Hits(ps[k]);
    }
  }

  /** When the first item is a points item, the reverse point of the second
      one plays no part in the decision: the `elif` chain stops at the first
      item's reverse point. So two points items whose six listed comparisons
      all miss are never linked, wherever the second one's reverse point is. */
  lemma SecondReverseUncheckedForPointsPair(a: TrackItem, b: TrackItem, q: Point)
    requires a.kind == Points
    ensures LinkStep(a, b) == LinkStep(a, b.(reverse := q))
    ensures b.kind == Points && (forall k :: 0 <= k < 6 ==> !Hits(Probes(a, b)[k])) ==>
      LinkStep(a, b) == None
  {
    if b.kind == Points && (forall k :: 0 <= k < 6 ==> !Hits(Probes(a, b)[k])) {
      LinkStepFirstMatch(a, b);
    }
  }

  /** A concrete instance: the second points item's reverse point sits on the
      first one's origin, yet the pair is left unlinked. */
  lemma SecondReverseSkippedExample()
    ensures var o := Point(0.0, 0.0);
            var far := Point(50.0, 50.0);
            var a := TrackItem(Points, o, Point(10.0, 0.0), Point(10.0, 5.0), "", "", None, None, None);
            var b := TrackItem(Points, Point(20.0, 0.0), Point(30.0, 0.0), o, "", "", None, None, None);
            Near(a.origin, b.reverse) && LinkStep(a, b) == None
  {
  }

  // ---------------------------------------------------------------------
  // The ordered pairs visited by the nested loop

  /** Inner loop for the outer key `a`: the keys of `inner` greater than `a`, in order. */
  function Row(a: int, inner: seq<int>): seq<(int, int)> {
    if |inner| == 0 then []
    else (if a < inner[0] then [(a, inner[0])] else []) + Row(a, inner[1..])
  }

  /** Outer loop over `outer`, inner loop over `inner`, filtered by `ki < kj`. */
  function PairsOf(outer: seq<int>, inner: seq<int>): seq<(int, int)> {
    if |outer| == 0 then []
    else Row(outer[0], inner) + PairsOf(outer[1..], inner)
  }

  /** The pairs processed by the builder for a dictionary with key order `order`. */
  function Pairs(order: seq<int>): seq<(int, int)> {
    PairsOf(order, order)
  }

  lemma {:induction false} RowCount(a: int, inner: seq<int>, p: (int, int))
    ensures multiset(Row(a, inner))[p] == if p.0 == a && p.0 < p.1 then multiset(inner)[p.1] else 0
    decreases |inner|
  {
    if |inner| > 0 {
      RowCount(a, inner[1..], p);
      assert inner == [inner[0]] + inner[1..];
      assert multiset(inner) == multiset{inner[0]} + multiset(inner[1..]);
    }
  }

  lemma {:induction false} PairsOfCount(outer: seq<int>, inner: seq<int>, p: (int, int))
    ensures multiset(PairsOf(outer, inner))[p] == if p.0 < p.1 then multiset(outer)[p.0] * multiset(inner)[p.1] else 0
    decreases |outer|
  {
    if |outer| > 0 {
      var row := Row(outer[0], inner);
      var tail := PairsOf(outer[1..], inner);
      assert PairsOf(outer, inner) == row + tail;
      PairsOfCount(outer[1..], inner, p);
      RowCount(outer[0], inner, p);
      CountConcat(row, tail, p);
      CountCons(outer, p.0);
      if p.0 < p.1 && outer[0] == p.0 {
        MulDistributes(1, multiset(outer[1..])[p.0], multiset(inner)[p.1]);
      }
    }
  }

  lemma CountConcat<T>(a: seq<T>, b: seq<T>, x: T)
    ensures multiset(a + b)[x] == multiset(a)[x] + multiset(b)[x]
  {
  }

  lemma CountCons<T>(s: seq<T>, x: T)
    requires |s| > 0
    ensures multiset(s)[x] == (if s[0] == x then 1 else 0) + multiset(s[1..])[x]
  {
    assert s == [s[0]] + s[1..];
  }

  lemma MulDistributes(x: int, y: int, z: int)
    ensures (x + y) * z == x * z + y * z
  {
  }

  lemma {:induction false} DistinctCount(s: seq<int>, x: int)
    requires Distinct(s)
    ensures multiset(s)[x] == if x in s then 1 else 0
    decreases |s|
  {
    if |s| > 0 {
      assert s == [s[0]] + s[1..];
      assert Distinct(s[1..]) by {
        forall i, j | 0 <= i < j < |s[1..]| ensures s[1..][i] != s[1..][j] {
          assert s[1..][i] == s[i + 1] && s[1..][j] == s[j + 1];
        }
      }
      DistinctCount(s[1..], x);
      if x == s[0] {
        assert x !in s[1..] by {
          forall i | 0 <= i < |s[1..]| ensures s[1..][i] != x {
            assert s[1..][i] == s[i + 1];
          }
        }
      }
    }
  }

  /** Every pair of distinct keys is visited exactly once, smaller key first,
      and never in the other orientation; no other pair is visited. */
  lemma EachPairOnce(order: seq<int>, a: int, b: int)
    requires Distinct(order)
    ensures multiset(Pairs(order))[(a, b)] == if a in order && b in order && a < b then 1 else 0
  {
    PairsOfCount(order, order, (a, b));
    DistinctCount(order, a);
    DistinctCount(order, b);
  }

  // ---------------------------------------------------------------------
  // Applying the assignments

  /** The link that processing pair `(ki, kj)` writes into slot `s` of item `x`,
      if any; `vj`'s assignment comes second, so it is consulted first. */
  function PairWrite(m: map<int, TrackItem>, ki: int, kj: int, x: int, s: Slot): Option<int>
    requires ki in m && kj in m
  {
    match LinkStep(m[ki], m[kj])
    case None => None
    case Some(l) =>
      if x == kj && s == l.second then Some(ki)
      else if x == ki && s == l.first then Some(kj)
      else None
  }

  /** One iteration of the inner loop body for `vi = m[ki]`, `vj = m[kj]`. */
  function ApplyPair(m: map<int, TrackItem>, ki: int, kj: int): (r: map<int, TrackItem>)
    requires ki in m && kj in m
    ensures r.Keys == m.Keys
    ensures forall k :: k in m ==> SameShape(r[k], m[k])
    ensures forall k :: k in m && k != ki && k != kj ==> r[k] == m[k]
    ensures LinkStep(m[ki], m[kj]).None? ==> r == m
    ensures ki != kj && LinkStep(m[ki], m[kj]).Some? ==>
      && r[ki].Link(LinkStep(m[ki], m[kj]).value.first) == Some(kj)
      && r[kj].Link(LinkStep(m[ki], m[kj]).value.second) == Some(ki)
    ensures forall x, s :: x in m ==>
      r[x].Link(s) == if PairWrite(m, ki, kj, x, s).Some? then PairWrite(m, ki, kj, x, s) else m[x].Link(s)
  {
    match LinkStep(m[ki], m[kj])
    case None => m
    case Some(l) =>
      var m1 := m[ki := m[ki].WithLink(l.first, kj)];
      m1[kj := m1[kj].WithLink(l.second, ki)]
  }

  /** Every pair of `ps` names two items of `m`. */
  predicate PairsIn(m: map<int, TrackItem>, ps: seq<(int, int)>) {
    forall i :: 0 <= i < |ps| ==> ps[i].0 in m && ps[i].1 in m
  }

  /** Processing the pairs `ps` in order. */
  function ApplyPairs(m: map<int, TrackItem>, ps: seq<(int, int)>): (r: map<int, TrackItem>)
    requires PairsIn(m, ps)
    ensures r.Keys == m.Keys
    ensures forall k :: k in m ==> SameShape(r[k], m[k])
    decreases |ps|
  {
    if |ps| == 0 then m
    else
      var prev := ApplyPairs(m, ps[..|ps| - 1]);
      ApplyPair(prev, ps[|ps| - 1].0, ps[|ps| - 1].1)
  }

  /** The value of slot `s` of item `x` written by the last pair of `ps` that
      writes it, judged on the geometry of `m`. */
  function LastWrite(m: map<int, TrackItem>, ps: seq<(int, int)>, x: int, s: Slot): Option<int>
    requires PairsIn(m, ps)
    decreases |ps|
  {
    if |ps| == 0 then None
    else
      var w := PairWrite(m, ps[|ps| - 1].0, ps[|ps| - 1].1, x, s);
      if w.Some? then w else LastWrite(m, ps[..|ps| - 1], x, s)
  }

  lemma LinkStepShape(a: TrackItem, a': TrackItem, b: TrackItem, b': TrackItem)
    requires SameShape(a, a') && SameShape(b, b')
    ensures LinkStep(a, b) == LinkStep(a', b')
  {
  }

  /** Later pairs overwrite earlier ones: after processing `ps`, each slot holds
      what the last pair writing it wrote, or its initial value if none did. */
  lemma {:induction false} LastWriterWins(m: map<int, TrackItem>, ps: seq<(int, int)>, x: int, s: Slot)
    requires PairsIn(m, ps)
    requires x in m
    ensures ApplyPairs(m, ps)[x].Link(s)
         == if LastWrite(m, ps, x, s).Some? then LastWrite(m, ps, x, s) else m[x].Link(s)
    decreases |ps|
  {
    if |ps| > 0 {
      var pre := ps[..|ps| - 1];
      var p := ps[|ps| - 1];
      var prev := ApplyPairs(m, pre);
      LastWriterWins(m, pre, x, s);
      LinkStepShape(prev[p.0], m[p.0], prev[p.1], m[p.1]);
      assert PairWrite(prev, p.0, p.1, x, s) == PairWrite(m, p.0, p.1, x, s);
    }
  }

  lemma {:induction false} LastWriteComesFromAPair(m: map<int, TrackItem>, ps: seq<(int, int)>, x: int, s: Slot)
    requires PairsIn(m, ps)
    requires LastWrite(m, ps, x, s).Some?
    ensures exists i :: 0 <= i < |ps| && PairWrite(m, ps[i].0, ps[i].1, x, s) == LastWrite(m, ps, x, s)
    decreases |ps|
  {
    var w := PairWrite(m, ps[|ps| - 1].0, ps[|ps| - 1].1, x, s);
    if w.None? {
      LastWriteComesFromAPair(m, ps[..|ps| - 1], x, s);
      var i :| 0 <= i < |ps| - 1 && PairWrite(m, ps[..|ps| - 1][i].0, ps[..|ps| - 1][i].1, x, s) == LastWrite(m, ps, x, s);
      assert ps[..|ps| - 1][i] == ps[i];
    }
  }

  lemma {:induction false} PairsOfMembers(outer: seq<int>, inner: seq<int>, i: int)
    requires 0 <= i < |PairsOf(outer, inner)|
    ensures PairsOf(outer, inner)[i].0 in outer && PairsOf(outer, inner)[i].1 in inner
    ensures PairsOf(outer, inner)[i].0 < PairsOf(outer, inner)[i].1
    decreases |outer|
  {
    var p := PairsOf(outer, inner)[i];
    var row := Row(outer[0], inner);
    if i < |row| {
      RowMembers(outer[0], inner, i);
    } else {
      PairsOfMembers(outer[1..], inner, i - |row|);
    }
  }

  lemma {:induction false} RowMembers(a: int, inner: seq<int>, i: int)
    requires 0 <= i < |Row(a, inner)|
    ensures Row(a, inner)[i].0 == a && Row(a, inner)[i].1 in inner && a < Row(a, inner)[i].1
    decreases |inner|
  {
    var head := if a < inner[0] then [(a, inner[0])] else [];
    if i >= |head| {
      RowMembers(a, inner[1..], i - |head|);
    }
  }

  lemma PairsIndexed(m: map<int, TrackItem>, order: seq<int>)
    requires Indexed(m, order)
    ensures PairsIn(m, Pairs(order))
  {
    forall i | 0 <= i < |Pairs(order)| ensures Pairs(order)[i].0 in m && Pairs(order)[i].1 in m {
      PairsOfMembers(order, order, i);
    }
  }

  /** `createTrackItemsLinks`: the whole nested loop over the items in key order. */
  function CreateTrackItemsLinks(m: map<int, TrackItem>, order: seq<int>): (r: map<int, TrackItem>)
    requires KeyOrder(m, order)
    ensures r.Keys == m.Keys
    ensures forall k :: k in m ==> SameShape(r[k], m[k])
  {
    PairsIndexed(m, order);
    ApplyPairs(m, Pairs(order))
  }

  /** Every link the builder changes points at a different item of `order`
      whose geometry links the two: as `vj` when the item's key is smaller,
      as `vi` when it is larger, with the slot the chain chose. Items with no
      endpoint within one unit of any other item keep their links. */
  lemma CreatedLinksJoinNearItems(m: map<int, TrackItem>, order: seq<int>, x: int, s: Slot)
    requires KeyOrder(m, order)
    requires x in m
    ensures var r := CreateTrackItemsLinks(m, order);
      r[x].Link(s) != m[x].Link(s) ==>
        exists y :: y in order && y != x && r[x].Link(s) == Some(y) &&
          ( (x < y && LinkStep(m[x], m[y]).Some? && LinkStep(m[x], m[y]).value.first == s)
         || (y < x && LinkStep(m[y], m[x]).Some? && LinkStep(m[y], m[x]).value.second == s))
  {
    var r := CreateTrackItemsLinks(m, order);
    var ps := Pairs(order);
    PairsIndexed(m, order);
    LastWriterWins(m, ps, x, s);
    if r[x].Link(s) != m[x].Link(s) {
      LastWriteComesFromAPair(m, ps, x, s);
      var i :| 0 <= i < |ps| && PairWrite(m, ps[i].0, ps[i].1, x, s) == LastWrite(m, ps, x, s);
      PairsOfMembers(order, order, i);
      var (ki, kj) := ps[i];
      var l := LinkStep(m[ki], m[kj]).value;
      if x == kj && s == l.second {
        assert r[x].Link(s) == Some(ki);
      } else {
        assert r[x].Link(s) == Some(kj);
      }
    }
  }
}
