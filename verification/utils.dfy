/** `cumsum` and the duration distributions used for stop times and entry
    delays: an ordered list of `(low, high, weight)` triples. Drawing a value
    picks a segment with a first uniform draw scaled to [0, 100) and
    interpolates within it with a second draw; both draws are parameters. */
module Utils {
  import opened Common

  /** Sum of a sequence, accumulated from the left. */
  function Sum(xs: seq<real>): real
    decreases |xs|
  {
    if |xs| == 0 then 0.0 else Sum(xs[..|xs| - 1]) + xs[|xs| - 1]
  }

  /** The generator body of `cumsum`, its running total starting at `acc`. */
  function RunningSums(acc: real, xs: seq<real>): (r: seq<real>)
    ensures |r| == |xs|
    decreases |xs|
  {
    if |xs| == 0 then [] else [acc + xs[0]] + RunningSums(acc + xs[0], xs[1..])
  }

  /** `cumsum(lis)`, with the generator collected into a list. */
  function CumSum(xs: seq<real>): (r: seq<real>)
    ensures |r| == |xs|
  {
    RunningSums(0.0, xs)
  }

  lemma {:induction false} SumCons(xs: seq<real>)
    requires |xs| > 0
    ensures Sum(xs) == xs[0] + Sum(xs[1..])
    decreases |xs|
  {
    var n := |xs|;
    if n == 1 {
      assert xs[..0] == [] && xs[1..] == [];
    } else {
      SumCons(xs[..n - 1]);
      assert xs[..n - 1][1..] == xs[1..][..n - 2];
      assert xs[..n - 1][0] == xs[0];
      assert xs[1..][n - 2] == xs[n - 1];
    }
  }

  lemma {:induction false} RunningSumsArePrefixSums(acc: real, xs: seq<real>, k: int)
    requires 0 <= k < |xs|
    ensures RunningSums(acc, xs)[k] == acc + Sum(xs[..k + 1])
    decreases k
  {
    if k == 0 {
      assert xs[..1][..0] == [];
    } else {
      RunningSumsArePrefixSums(acc + xs[0], xs[1..], k - 1);
      SumCons(xs[..k + 1]);
      assert xs[..k + 1][1..] == xs[1..][..k];
    }
  }

  /** One value per input, each the sum of the inputs up to and including its
      position; so the last value is the total and empty input yields nothing. */
  lemma CumSumIsPrefixSums(xs: seq<real>)
    ensures |CumSum(xs)| == |xs|
    ensures forall k :: 0 <= k < |xs| ==> CumSum(xs)[k] == Sum(xs[..k + 1])
    ensures |xs| > 0 ==> CumSum(xs)[|xs| - 1] == Sum(xs)
  {
    forall k | 0 <= k < |xs| ensures CumSum(xs)[k] == Sum(xs[..k + 1]) {
      RunningSumsArePrefixSums(0.0, xs, k);
    }
    if |xs| > 0 {
      assert xs[..|xs|] == xs;
    }
  }

  lemma {:induction false} SumPrefixGrows(xs: seq<real>, i: int, j: int)
    requires 0 <= i <= j <= |xs|
    requires forall k :: 0 <= k < |xs| ==> xs[k] >= 0.0
    ensures Sum(xs[..i]) <= Sum(xs[..j])
    decreases j
  {
    if i < j {
      SumPrefixGrows(xs, i, j - 1);
      assert xs[..j][..j - 1] == xs[..j - 1];
    }
  }

  /** With non-negative inputs the cumulative sums never decrease. */
  lemma CumSumMonotone(xs: seq<real>, i: int, j: int)
    requires 0 <= i <= j < |xs|
    requires forall k :: 0 <= k < |xs| ==> xs[k] >= 0.0
    ensures CumSum(xs)[i] <= CumSum(xs)[j]
  {
    CumSumIsPrefixSums(xs);
    SumPrefixGrows(xs, i + 1, j + 1);
  }

  // ---------------------------------------------------------------------
  // DurationProba

  /** One entry `(low, high, weight)` of a distribution. */
  datatype Triple = Triple(low: real, high: real, weight: real)

  /** `_probaList`: `None`, a list of triples, or a single value that is not
      a list (a number), which `yieldValue` hands back as it is. */
  datatype Stored = NoData | Table(list: seq<Triple>) | Scalar(value: real)

  datatype DurationProba = DurationProba(probaList: Stored)

  /** Constructor input: a string, already evaluated (`None` when `eval`
      raised), or any other value, kept as it is. */
  datatype ProbaData = Text(evaluated: Option<Stored>) | Data(stored: Stored)

  function NewDurationProba(data: ProbaData): (d: DurationProba)
    ensures data.Data? ==> d.probaList == data.stored
    ensures data.Text? && data.evaluated.Some? ==> d.probaList == data.evaluated.value
    ensures data == Text(None) ==> d.probaList == NoData
  {
    match data
    case Text(e) => DurationProba(if e.Some? then e.value else NoData)
    case Data(v) => DurationProba(v)
  }

  /** `isNull()`. */
  predicate IsNull(d: DurationProba) {
    d.probaList.NoData?
  }

  /** Non-string data is stored unchanged, so the result is null exactly when
      the data was `None`. */
  lemma NullIffNoData(v: Stored)
    ensures IsNull(NewDurationProba(Data(v))) <==> v.NoData?
    ensures NewDurationProba(Data(v)).probaList == v
  {
  }

  function Weights(list: seq<Triple>): (w: seq<real>)
    ensures |w| == |list|
    ensures forall i :: 0 <= i < |list| ==> w[i] == list[i].weight
  {
    seq(|list|, i requires 0 <= i < |list| => list[i].weight)
  }

  /** The segment boundaries: 0 followed by the cumulative weights. */
  function Bounds(list: seq<Triple>): (ps: seq<real>)
    ensures |ps| == |list| + 1 && ps[0] == 0.0
  {
    [0.0] + CumSum(Weights(list))
  }

  /** The `for ... else` search: the index of the first segment strictly
      containing `r0`, or `|ps| - 1` when the loop ran out. */
  function Segment(ps: seq<real>, r0: real): (seg: nat)
    requires |ps| >= 1
    ensures seg <= |ps| - 1
    ensures seg < |ps| - 1 ==> ps[seg] < r0 < ps[seg + 1]
    ensures forall j :: 0 <= j < seg ==> !(ps[j] < r0 < ps[j + 1])
    decreases |ps|
  {
    if |ps| == 1 then 0
    else if ps[0] < r0 < ps[1] then 0
    else 1 + Segment(ps[1..], r0)
  }

  /** The first draw scaled to a percentage, `r0 = 100 * random.random()`. */
  function Percent(u0: real): real {
    100.0 * u0
  }

  /** `self._probaList[-1]` on an empty list. */
  datatype YieldError = IndexError

  /** `r0` lies strictly inside segment `i`, between the cumulative weights
      before and after triple `i`. */
  predicate InSegment(list: seq<Triple>, i: int, r0: real)
    requires 0 <= i < |list|
  {
    Bounds(list)[i] < r0 < Bounds(list)[i + 1]
  }

  /** Segment `i` is the first one strictly containing `r0`. */
  predicate FirstSegment(list: seq<Triple>, i: int, r0: real) {
    && 0 <= i < |list| && InSegment(list, i, r0)
    && forall j :: 0 <= j < i ==> !InSegment(list, j, r0)
  }

  predicate AnySegment(list: seq<Triple>, r0: real) {
    exists i :: 0 <= i < |list| && InSegment(list, i, r0)
  }

  /** `r1 * (high - low) + low`. */
  function Interpolate(t: Triple, u1: real): real {
    u1 * (t.high - t.low) + t.low
  }

  /** `yieldValue()` with `random.random()` returning `u0`, then `u1`. Stored
      data that cannot be iterated (`None` or a number) makes the weight list
      raise `TypeError`, and is returned as it is. */
  function YieldValue(d: DurationProba, u0: real, u1: real): (r: Result<Option<real>, YieldError>)
    ensures d.probaList.NoData? ==> r == Success(None)
    ensures d.probaList.Scalar? ==> r == Success(Some(d.probaList.value))
    ensures d.probaList == Table([]) ==> r == Failure(IndexError)
    ensures d.probaList.Table? && |d.probaList.list| > 0 && !AnySegment(d.probaList.list, Percent(u0)) ==>
      r == Success(Some(d.probaList.list[|d.probaList.list| - 1].high))
    ensures d.probaList.Table? && AnySegment(d.probaList.list, Percent(u0)) ==>
      exists i :: FirstSegment(d.probaList.list, i, Percent(u0))
        && r == Success(Some(Interpolate(d.probaList.list[i], u1)))
  {
    match d.probaList
    case NoData => Success(None)
    case Scalar(v) => Success(Some(v))
    case Table(list) =>
      var ps := Bounds(list);
      var seg := Segment(ps, Percent(u0));
      if seg == |ps| - 1 then
        assert !AnySegment(list, Percent(u0));
        if |list| == 0 then Failure(IndexError) else Success(Some(list[|list| - 1].high))
      else
        assert FirstSegment(list, seg, Percent(u0));
        var t := list[seg];
        var v := u1 * (t.high - t.low) + t.low;
        assert v == Interpolate(list[seg], u1);
        Success(Some(v))
  }

  /** `isNull()` tells in advance what `yieldValue()` does: a null
      distribution yields `None` whatever the draws, any other one yields a
      number or fails on an empty list. */
  lemma NullIffYieldsNone(d: DurationProba, u0: real, u1: real)
    ensures IsNull(d) <==> YieldValue(d, u0, u1) == Success(None)
  {
  }

  /** The interpolated value stays within its segment's bounds, and below the
      upper bound when the segment is not degenerate. */
  lemma InterpolationInRange(t: Triple, u1: real)
    requires 0.0 <= u1 < 1.0 && t.low <= t.high
    ensures t.low <= Interpolate(t, u1) <= t.high
    ensures t.low < t.high ==> Interpolate(t, u1) < t.high
  {
    var w := t.high - t.low;
    MulNonNegative(u1, w);
    MulNonNegative(1.0 - u1, w);
    assert (1.0 - u1) * w == w - u1 * w;
    if w > 0.0 {
      MulPositive(1.0 - u1, w);
    }
  }

  lemma MulNonNegative(a: real, b: real)
    requires a >= 0.0 && b >= 0.0
    ensures a * b >= 0.0
  {
  }

  lemma MulPositive(a: real, b: real)
    requires a > 0.0 && b > 0.0
    ensures a * b > 0.0
  {
  }

  /** With non-negative weights, a first draw landing exactly on a boundary
      (for instance `u0 == 0`) selects no segment, so the upper bound of the
      last triple is returned. */
  lemma {:induction false} BoundaryDrawGivesMaximum(list: seq<Triple>, u0: real, u1: real, k: int)
    requires |list| > 0
    requires forall i :: 0 <= i < |list| ==> list[i].weight >= 0.0
    requires 0 <= k <= |list| && Bounds(list)[k] == Percent(u0)
    ensures YieldValue(DurationProba(Table(list)), u0, u1) == Success(Some(list[|list| - 1].high))
  {
    var ps := Bounds(list);
    var w := Weights(list);
    forall i, j | 0 <= i <= j < |ps| ensures ps[i] <= ps[j] {
      if 0 < i {
        CumSumMonotone(w, i - 1, j - 1);
      } else if 0 < j {
        CumSumMonotone(w, 0, j - 1);
        CumSumIsPrefixSums(w);
        assert w[..1] == [w[0]];
        assert Sum(w[..1]) == Sum(w[..0]) + w[0];
      }
    }
    var r0 := Percent(u0);
    forall i | 0 <= i < |list| ensures !InSegment(list, i, r0) {
      if k <= i {
        assert ps[k] <= ps[i];
      } else {
        assert ps[i + 1] <= ps[k];
      }
    }
  }

  /** A first draw strictly between the outer boundaries and on none of them
      always falls inside some segment, whatever the weights. */
  lemma {:induction false} InteriorDrawFindsSegment(ps: seq<real>, r0: real)
    requires |ps| >= 2
    requires ps[0] < r0 < ps[|ps| - 1]
    requires forall k :: 0 <= k < |ps| ==> ps[k] != r0
    ensures exists i :: 0 <= i < |ps| - 1 && ps[i] < r0 < ps[i + 1]
    decreases |ps|
  {
    if !(r0 < ps[1]) {
      assert ps[1] < r0;
      InteriorDrawFindsSegment(ps[1..], r0);
      var i :| 0 <= i < |ps| - 2 && ps[1..][i] < r0 < ps[1..][i + 1];
      assert ps[i + 1] < r0 < ps[i + 2];
    }
  }

  /** The built-in minimum stop time `[(45,75,70),(75,90,30)]`: a first draw of
      0.5 falls in the first segment, a first draw of 0 is on a boundary and
      gives the maximum, 90. */
  lemma DefaultStopTimeExample(u1: real)
    ensures var d := DurationProba(Table([Triple(45.0, 75.0, 70.0), Triple(75.0, 90.0, 30.0)]));
      && YieldValue(d, 0.5, u1) == Success(Some(45.0 + u1 * 30.0))
      && YieldValue(d, 0.0, u1) == Success(Some(90.0))
  {
    var list := [Triple(45.0, 75.0, 70.0), Triple(75.0, 90.0, 30.0)];
    CumSumIsPrefixSums(Weights(list));
    assert Weights(list)[..1] == [70.0];
    assert Weights(list)[..2] == [70.0, 30.0];
    assert [70.0, 30.0][..1] == [70.0];
    assert Bounds(list) == [0.0, 70.0, 100.0];
  }
}
