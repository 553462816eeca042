/** Lookups over the track items: the place dictionary rebuilt from the
    place items, `place(code)` and `getLineItem(placeCode, trackCode)`. */
module Lookup {
  import opened Common
  import opened Track

  predicate IsPlaceWithCode(m: map<int, TrackItem>, id: int, code: string) {
    id in m && m[id].kind == Place && m[id].placeCode == code
  }

  /** `updatePlaces`: place code to place item id, built by assigning in key
      order, so the last place item with a given code is the one kept. */
  function UpdatePlaces(m: map<int, TrackItem>, order: seq<int>): (places: map<string, int>)
    requires Indexed(m, order)
    ensures forall code :: code in places ==> IsPlaceWithCode(m, places[code], code)
    decreases |order|
  {
    if |order| == 0 then map[]
    else
      var places := UpdatePlaces(m, order[..|order| - 1]);
      var id := order[|order| - 1];
      if m[id].kind == Place then places[m[id].placeCode := id] else places
  }

  /** Every place code occurring among the items is a key, and its value is
      the last place item in key order carrying that code. */
  lemma {:induction false} UpdatePlacesKeepsLast(m: map<int, TrackItem>, order: seq<int>, code: string)
    requires Indexed(m, order)
    ensures code in UpdatePlaces(m, order) <==>
      exists i :: 0 <= i < |order| && IsPlaceWithCode(m, order[i], code)
    ensures code in UpdatePlaces(m, order) ==>
      exists i :: 0 <= i < |order| && order[i] == UpdatePlaces(m, order)[code]
        && forall j :: i < j < |order| ==> !IsPlaceWithCode(m, order[j], code)
    decreases |order|
  {
    if |order| > 0 {
      var pre := order[..|order| - 1];
      var last := |order| - 1;
      UpdatePlacesKeepsLast(m, pre, code);
      if IsPlaceWithCode(m, order[last], code) {
        assert UpdatePlaces(m, order)[code] == order[last];
      } else {
        assert UpdatePlaces(m, order) == UpdatePlaces(m, pre) || m[order[last]].placeCode != code;
        if code in UpdatePlaces(m, pre) {
          var i :| 0 <= i < |pre| && pre[i] == UpdatePlaces(m, pre)[code]
            && forall j :: i < j < |pre| ==> !IsPlaceWithCode(m, pre[j], code);
          assert order[i] == pre[i];
          assert forall j :: i < j < |order| ==> !IsPlaceWithCode(m, order[j], code) by {
            forall j | i < j < |order| ensures !IsPlaceWithCode(m, order[j], code) {
              if j < last {
                assert order[j] == pre[j];
              }
            }
          }
        }
        if exists i :: 0 <= i < |order| && IsPlaceWithCode(m, order[i], code) {
          var i :| 0 <= i < |order| && IsPlaceWithCode(m, order[i], code);
          assert i < last && pre[i] == order[i];
        }
      }
    }
  }

  datatype LookupError = UnknownPlace(code: string)

  /** `place(placeCode)`: `None` for a missing or empty code, the place for a
      known code, and a `KeyError` for an unknown non-empty code. */
  function PlaceOf(places: map<string, int>, placeCode: Option<string>): (r: Result<Option<int>, LookupError>)
    ensures placeCode == None || placeCode == Some("") ==> r == Success(None)
    ensures placeCode.Some? && placeCode.value != "" ==>
      (r.Success? <==> placeCode.value in places)
    ensures r.Success? && r.value.Some? ==> placeCode.Some? && r.value.value == places[placeCode.value]
    ensures r.Failure? ==> r.error == UnknownPlace(placeCode.value)
  {
    match placeCode
    case None => Success(None)
    case Some(code) =>
      if code == "" then Success(None)
      else if code in places then Success(Some(places[code]))
      else Failure(UnknownPlace(code))
  }

  /** After `updatePlaces`, `place(code)` for a non-empty code succeeds exactly
      when some place item carries the code, and returns such an item. */
  lemma PlaceAfterUpdate(m: map<int, TrackItem>, order: seq<int>, code: string)
    requires Indexed(m, order) && code != ""
    ensures PlaceOf(UpdatePlaces(m, order), Some(code)).Success? <==>
      exists i :: 0 <= i < |order| && IsPlaceWithCode(m, order[i], code)
    ensures PlaceOf(UpdatePlaces(m, order), Some(code)).Success? ==>
      IsPlaceWithCode(m, PlaceOf(UpdatePlaces(m, order), Some(code)).value.value, code)
  {
    UpdatePlacesKeepsLast(m, order, code);
  }

  predicate IsLineWithCodes(m: map<int, TrackItem>, id: int, placeCode: string, trackCode: string) {
    id in m && IsLineItem(m[id].kind) && m[id].placeCode == placeCode && m[id].trackCode == trackCode
  }

  /** `getLineItem(placeCode, trackCode)`: the first line item in key order with
      both codes, `None` when there is none. */
  function GetLineItem(m: map<int, TrackItem>, order: seq<int>, placeCode: string, trackCode: string)
    : (r: Option<int>)
    requires KeyOrder(m, order)
    ensures r.Some? ==> IsLineWithCodes(m, r.value, placeCode, trackCode)
    ensures r.Some? ==>
      exists k :: 0 <= k < |order| && order[k] == r.value
        && forall j :: 0 <= j < k ==> !IsLineWithCodes(m, order[j], placeCode, trackCode)
    ensures r.None? <==> forall k :: 0 <= k < |order| ==> !IsLineWithCodes(m, order[k], placeCode, trackCode)
    ensures r.None? <==> forall id :: id in m ==> !IsLineWithCodes(m, id, placeCode, trackCode)
  {
    var k := FirstIndex(order, id => IsLineWithCodes(m, id, placeCode, trackCode));
    if k < |order| then Some(order[k])
    else
      assert forall id :: id in m ==> !IsLineWithCodes(m, id, placeCode, trackCode) by {
        forall id | id in m ensures !IsLineWithCodes(m, id, placeCode, trackCode) {
          var j :| 0 <= j < |order| && order[j] == id;
          assert !IsLineWithCodes(m, order[j], placeCode, trackCode);
        }
      }
      None
  }
}
