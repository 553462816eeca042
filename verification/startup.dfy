/** Loading a simulation file end to end: the tags are decoded, the
    top-level `Simulation` record is built from its seven keys, and
    `initialize` refuses a layout in which some item lacks a required link
    before it starts the clock from the options. */
module Startup {
  import opened Common
  import opened Track
  import Validator
  import Options
  import Loading

  /** Why `load` raises: a decoding error of the tag hook, a `KeyError` for a
      key missing from the `Simulation` record, or the `FormatException`
      "Invalid simulation: Not all items are linked." of `initialize`. */
  datatype LoadError =
    | Decode(error: Loading.FormatError)
    | MissingKey
    | NotAllLinked

  /** `initialize`, reduced to its verdicts: the link check, then the clock
      part. `items` are the track items as their own `initialize` left them.
      `Success(None)` stands for options the model does not start from (see
      `Options.Start`). */
  function Initialize(items: map<int, TrackItem>, order: seq<int>, options: Options.OptionBag)
    : (r: Result<Option<Options.Session>, LoadError>)
    requires KeyOrder(items, order)
    ensures r.Failure? <==> exists id :: id in items && !Validator.Linked(items[id])
    ensures r.Failure? ==> r.error == NotAllLinked
    ensures r.Success? ==> r.value == Options.Start(options)
  {
    Validator.AllLinkedCoversKeys(items, order);
    if !Validator.AllLinked(items, order) then Failure(NotAllLinked)
    else Success(Options.Start(options))
  }

  /** `load`: the hook decodes every nested object (`inner`), then the
      top-level one; a `Simulation` record needs all of its keys (`complete`);
      the result must be a simulation, which is then initialised. */
  function LoadSimulation(inner: seq<Loading.TypeField>, top: Loading.TypeField, complete: bool,
                          items: map<int, TrackItem>, order: seq<int>, options: Options.OptionBag)
    : (r: Result<Option<Options.Session>, LoadError>)
    requires KeyOrder(items, order)
    ensures r.Success? <==>
      && Loading.Load(inner, top).Success?
      && complete
      && forall id :: id in items ==> Validator.Linked(items[id])
    ensures r.Success? ==> r.value == Options.Start(options)
    ensures r == Failure(NotAllLinked) <==>
      Loading.Load(inner, top).Success? && complete && exists id :: id in items && !Validator.Linked(items[id])
    ensures r == Failure(MissingKey) <==> Loading.Load(inner, top).Success? && !complete
    ensures Loading.Load(inner, top).Failure? ==> r == Failure(Decode(Loading.Load(inner, top).error))
  {
    match Loading.Load(inner, top)
    case Failure(e) => Failure(Decode(e))
    case Success(_) =>
      if !complete then Failure(MissingKey)
      else Initialize(items, order, options)
  }

  /** A file whose tags all decode, whose `Simulation` record is complete,
      but one of whose items lacks a required link, does not load; and
      whatever loads has every item linked. */
  lemma LoadRequiresLinkedLayout(inner: seq<Loading.TypeField>, complete: bool,
                                 items: map<int, TrackItem>, order: seq<int>, options: Options.OptionBag, id: int)
    requires KeyOrder(items, order)
    requires id in items
    ensures LoadSimulation(inner, Loading.Text("Simulation"), complete, items, order, options).Success? ==>
      Validator.Linked(items[id])
    ensures (forall i :: 0 <= i < |inner| ==> !Loading.Unknown(inner[i])) && complete && !Validator.Linked(items[id]) ==>
      LoadSimulation(inner, Loading.Text("Simulation"), complete, items, order, options) == Failure(NotAllLinked)
  {
  }
}
