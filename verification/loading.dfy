/** Record reconstruction on load: every JSON object passes through a hook
    that dispatches on its `__type__` tag. An object without a (truthy) tag
    is kept as a plain dictionary, a known tag selects the record kind, and
    any other tag is a format error. The document as a whole must decode to a
    simulation record. */
module Loading {
  import opened Common

  /** The record kinds a tag can select. */
  datatype RecordKind =
    | SimulationRecord | SignalItemRecord | EndItemRecord | InvisibleLinkItemRecord
    | LineItemRecord | PlaceRecord | PlatformItemRecord | PointsItemRecord
    | TextItemRecord | RouteRecord | PositionRecord | TrainTypeRecord
    | ServiceRecord | ServiceLineRecord | TrainRecord | MessageLoggerRecord | MessageRecord

  /** The tag written for each record kind. */
  function TypeName(k: RecordKind): string {
    match k
    case SimulationRecord => "Simulation"
    case SignalItemRecord => "SignalItem"
    case EndItemRecord => "EndItem"
    case InvisibleLinkItemRecord => "InvisibleLinkItem"
    case LineItemRecord => "LineItem"
    case PlaceRecord => "Place"
    case PlatformItemRecord => "PlatformItem"
    case PointsItemRecord => "PointsItem"
    case TextItemRecord => "TextItem"
    case RouteRecord => "Route"
    case PositionRecord => "Position"
    case TrainTypeRecord => "TrainType"
    case ServiceRecord => "Service"
    case ServiceLineRecord => "ServiceLine"
    case TrainRecord => "Train"
    case MessageLoggerRecord => "MessageLogger"
    case MessageRecord => "Message"
  }

  /** The `elif` chain of the hook, tag to kind. */
  function KindOfName(s: string): (r: Option<RecordKind>)
    ensures r.Some? ==> TypeName(r.value) == s
    ensures r.None? <==> forall k :: TypeName(k) != s
  {
    if s == "Simulation" then Some(SimulationRecord)
    else if s == "SignalItem" then Some(SignalItemRecord)
    else if s == "EndItem" then Some(EndItemRecord)
    else if s == "InvisibleLinkItem" then Some(InvisibleLinkItemRecord)
    else if s == "LineItem" then Some(LineItemRecord)
    else if s == "Place" then Some(PlaceRecord)
    else if s == "PlatformItem" then Some(PlatformItemRecord)
    else if s == "PointsItem" then Some(PointsItemRecord)
    else if s == "TextItem" then Some(TextItemRecord)
    else if s == "Route" then Some(RouteRecord)
    else if s == "Position" then Some(PositionRecord)
    else if s == "TrainType" then Some(TrainTypeRecord)
    else if s == "Service" then Some(ServiceRecord)
    else if s == "ServiceLine" then Some(ServiceLineRecord)
    else if s == "Train" then Some(TrainRecord)
    else if s == "MessageLogger" then Some(MessageLoggerRecord)
    else if s == "Message" then Some(MessageRecord)
    else None
  }

  /** The dispatch table is a bijection between kinds and their tags. */
  lemma KindOfNameInvertsTypeName(k: RecordKind, s: string)
    ensures KindOfName(TypeName(k)) == Some(k)
    ensures KindOfName(s) == Some(k) ==> s == TypeName(k)
  {
  }

  /** What `dct.get('__type__')` finds: no key, a string, or another JSON value
      (`None`, a number, ...) with its Python truth value. */
  datatype TypeField = Absent | Text(s: string) | Other(truthy: bool)

  /** `not dct.get('__type__')`. */
  predicate Falsy(f: TypeField) {
    f == Absent || f == Text("") || f == Other(false)
  }

  datatype Decoded = PassThrough | Build(kind: RecordKind)

  datatype FormatError = UnknownType(tag: TypeField) | NotASimulation

  /** `json_hook(dct)`, reduced to its decision. */
  function JsonHook(f: TypeField): (r: Result<Decoded, FormatError>)
    ensures r == Success(PassThrough) <==> Falsy(f)
    ensures forall k :: r == Success(Build(k)) <==> f == Text(TypeName(k))
    ensures r.Failure? <==> !Falsy(f) && forall k :: f != Text(TypeName(k))
    ensures r.Failure? ==> r.error == UnknownType(f)
  {
    if Falsy(f) then Success(PassThrough)
    else match f
      case Text(s) =>
        (match KindOfName(s)
         case Some(k) => KindOfNameInvertsTypeName(k, s); Success(Build(k))
         case None => Failure(UnknownType(f)))
      case _ => Failure(UnknownType(f))
  }

  /** A known tag decodes to its record kind. */
  lemma KnownTagsDecode(k: RecordKind)
    ensures JsonHook(Text(TypeName(k))) == Success(Build(k))
  {
  }

  predicate Unknown(f: TypeField) {
    JsonHook(f).Failure?
  }

  /** `load`: the hook runs on every nested object (`inner`) and then on the
      top-level object; any unknown tag aborts, and the top-level object must
      be a simulation. */
  function Load(inner: seq<TypeField>, top: TypeField): (r: Result<RecordKind, FormatError>)
    ensures r.Success? <==> top == Text("Simulation") && forall i :: 0 <= i < |inner| ==> !Unknown(inner[i])
    ensures r.Success? ==> r.value == SimulationRecord
    ensures r == Failure(NotASimulation) <==>
      (forall i :: 0 <= i < |inner| ==> !Unknown(inner[i])) && !Unknown(top) && top != Text("Simulation")
  {
    var k := FirstIndex(inner, Unknown);
    if k < |inner| then Failure(UnknownType(inner[k]))
    else match JsonHook(top)
      case Failure(e) => Failure(e)
      case Success(Build(SimulationRecord)) => Success(SimulationRecord)
      case Success(_) => Failure(NotASimulation)
  }
}
