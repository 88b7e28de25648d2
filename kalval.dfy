/** The telemetry value of src/kalval.rs: its text (`as_string`) and the
    key expression it is published or commanded under (`as_keyexpr`). */
module Kalval {
  import opened Base
  import Togglable

  datatype KeyExprType = Command | Telemetry

  datatype KalVal =
    | Led(led: Option<bool>)
    | Relay(relay: Option<bool>)
    | Temperature(temperature: Option<Reading>)
    | Humidity(humidity: Option<Reading>)
    | DewPoint(dewPoint: Option<Reading>)

  /** The variant of a KalVal, without its payload. */
  datatype Tag = LedTag | RelayTag | TemperatureTag | HumidityTag | DewPointTag

  function TagOf(v: KalVal): Tag {
    match v
    case Led(_) => LedTag
    case Relay(_) => RelayTag
    case Temperature(_) => TemperatureTag
    case Humidity(_) => HumidityTag
    case DewPoint(_) => DewPointTag
  }

  /** The ten key-expression constants generated at build time. Only their
      identity matters here; their text is not part of this model. */
  datatype KeyExpr =
    | CmndLed | CmndRelay | CmndTemperature | CmndHumidity | CmndDewpoint
    | TeleLed | TeleRelay | TeleTemperature | TeleHumidity | TeleDewpoint
  {
    /** What the constant's name says it is for. */
    function Names(): (KeyExprType, Tag) {
      match this
      case CmndLed => (Command, LedTag)
      case CmndRelay => (Command, RelayTag)
      case CmndTemperature => (Command, TemperatureTag)
      case CmndHumidity => (Command, HumidityTag)
      case CmndDewpoint => (Command, DewPointTag)
      case TeleLed => (Telemetry, LedTag)
      case TeleRelay => (Telemetry, RelayTag)
      case TeleTemperature => (Telemetry, TemperatureTag)
      case TeleHumidity => (Telemetry, HumidityTag)
      case TeleDewpoint => (Telemetry, DewPointTag)
    }
  }

  /** `{}` of a bool: ASCII text that the lenient command decoder reads
      back as the same bool. */
  function BoolText(b: bool): (s: string)
    ensures IsAscii(s) && |s| <= 5
    ensures s == Togglable.AsStr(Togglable.FromBool(b))
    ensures Togglable.FromBytes(Ascii(s)) == Togglable.FromBool(b)
  {
    Togglable.OnSpellingBytes();
    Togglable.OffSpellingBytes();
    if b then "true" else "false"
  }

  /** The capacity of the `heapless::String` that `as_string` returns. */
  const StringCapacity: nat := 30

  /** `as_string` on a relay or LED value: the bool's text, which always
      fits the 30-character string and which the lenient command decoder
      reads back as the same value. A missing value is `unreachable!()`
      in the source, hence the precondition. */
  function AsString(v: KalVal): (r: Result<string, CapacityError>)
    requires (v.Relay? && v.relay.Some?) || (v.Led? && v.led.Some?)
    ensures r.Ok? && IsAscii(r.value) && |r.value| <= 5
    ensures var b := if v.Relay? then v.relay.value else v.led.value;
            r.value == BoolText(b)
    ensures var b := if v.Relay? then v.relay.value else v.led.value;
            Togglable.FromBytes(Ascii(r.value)) == Togglable.FromBool(b)
  {
    var b := if v.Relay? then v.relay.value else v.led.value;
    AsciiUtf8Length(BoolText(b));
    match v
    case Relay(Some(b)) => Bounded(BoolText(b), StringCapacity)
    case Led(Some(b)) => Bounded(BoolText(b), StringCapacity)
  }

  /** `as_keyexpr`: total over the ten (type, variant) pairs; the key names
      exactly the requested type and the value's variant, whatever the
      payload (a missing one included). */
  function AsKeyexpr(v: KalVal, t: KeyExprType): (k: KeyExpr)
    ensures k.Names() == (t, TagOf(v))
  {
    match (t, v)
    case (Command, Led(_)) => CmndLed
    case (Command, Relay(_)) => CmndRelay
    case (Command, Temperature(_)) => CmndTemperature
    case (Command, Humidity(_)) => CmndHumidity
    case (Command, DewPoint(_)) => CmndDewpoint
    case (Telemetry, Led(_)) => TeleLed
    case (Telemetry, Relay(_)) => TeleRelay
    case (Telemetry, Temperature(_)) => TeleTemperature
    case (Telemetry, Humidity(_)) => TeleHumidity
    case (Telemetry, DewPoint(_)) => TeleDewpoint
  }

  /** Two values share a key exactly when the key type and the variant
      agree: the payload, `None` included, plays no part, and no two
      (type, variant) pairs collide. */
  lemma KeyexprIdentifiesVariant(v1: KalVal, t1: KeyExprType, v2: KalVal, t2: KeyExprType)
    ensures AsKeyexpr(v1, t1) == AsKeyexpr(v2, t2) <==> t1 == t2 && TagOf(v1) == TagOf(v2)
  {
  }
}
