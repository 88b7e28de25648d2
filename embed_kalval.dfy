/** The telemetry value of kal-embed/src/kalval.rs: its text (`as_string`)
    and its command and telemetry key expressions. */
module EmbedKalval {
  import opened Base
  import opened Togglable

  datatype KalVal =
    | Hello
    | Led(led: Togglable)
    | Relay(relay: Togglable)
    | Temperature(temperature: Reading)
    | Humidity(humidity: Reading)

  /** The variant of a KalVal, without its payload. */
  datatype Tag = HelloTag | LedTag | RelayTag | TemperatureTag | HumidityTag

  function TagOf(v: KalVal): Tag {
    match v
    case Hello => HelloTag
    case Led(_) => LedTag
    case Relay(_) => RelayTag
    case Temperature(_) => TemperatureTag
    case Humidity(_) => HumidityTag
  }

  datatype Namespace = Cmnd | Tele

  /** The ten key-expression constants generated at build time. Only their
      identity matters here; their text is not part of this model. */
  datatype KeyExpr =
    | CmndHello | CmndLed | CmndRelay | CmndTemperature | CmndHumidity
    | TeleHello | TeleLed | TeleRelay | TeleTemperature | TeleHumidity
  {
    /** What the constant's name says it is for. */
    function Names(): (Namespace, Tag) {
      match this
      case CmndHello => (Cmnd, HelloTag)
      case CmndLed => (Cmnd, LedTag)
      case CmndRelay => (Cmnd, RelayTag)
      case CmndTemperature => (Cmnd, TemperatureTag)
      case CmndHumidity => (Cmnd, HumidityTag)
      case TeleHello => (Tele, HelloTag)
      case TeleLed => (Tele, LedTag)
      case TeleRelay => (Tele, RelayTag)
      case TeleTemperature => (Tele, TemperatureTag)
      case TeleHumidity => (Tele, HumidityTag)
    }
  }

  /** The capacity of the `heapless::String` that `as_string` returns. */
  const StringCapacity: nat := 10

  /** `as_string` on the non-float variants: Hello is `1`, a relay or LED
      value is its Togglable's `as_str`. None of these overflows the
      10-character string, and the lenient decoder reads a relay or LED
      text back as the value it came from. */
  function AsString(v: KalVal): (r: Result<string, CapacityError>)
    requires !v.Temperature? && !v.Humidity?
    ensures r.Ok? && IsAscii(r.value) && |r.value| <= StringCapacity
    ensures v.Hello? ==> r.value == "1"
    ensures v.Relay? ==> r.value == AsStr(v.relay)
    ensures v.Led? ==> r.value == AsStr(v.led)
    ensures v.Relay? ==> FromBytes(Ascii(r.value)) == v.relay
    ensures v.Led? ==> FromBytes(Ascii(r.value)) == v.led
  {
    AsciiUtf8Length(if v.Hello? then "1" else AsStr(if v.Relay? then v.relay else v.led));
    match v
    case Hello => Bounded("1", StringCapacity)
    case Relay(t) => Bounded(AsStr(t), StringCapacity)
    case Led(t) => Bounded(AsStr(t), StringCapacity)
  }

  /** `as_cmnd_keyexpr`: every variant, Hello included, has a command key,
      and it names that variant whatever the payload. */
  function CmndKeyexpr(v: KalVal): (k: KeyExpr)
    ensures k.Names() == (Cmnd, TagOf(v))
  {
    match v
    case Hello => CmndHello
    case Led(_) => CmndLed
    case Relay(_) => CmndRelay
    case Temperature(_) => CmndTemperature
    case Humidity(_) => CmndHumidity
  }

  /** `as_tele_keyexpr`: every variant, Hello included, has a telemetry
      key, and it names that variant whatever the payload. */
  function TeleKeyexpr(v: KalVal): (k: KeyExpr)
    ensures k.Names() == (Tele, TagOf(v))
  {
    match v
    case Hello => TeleHello
    case Led(_) => TeleLed
    case Relay(_) => TeleRelay
    case Temperature(_) => TeleTemperature
    case Humidity(_) => TeleHumidity
  }

  /** The keys depend on the variant only, tell variants apart, and a
      command key is never a telemetry key. */
  lemma KeyexprsIdentifyVariant(v1: KalVal, v2: KalVal)
    ensures CmndKeyexpr(v1) == CmndKeyexpr(v2) <==> TagOf(v1) == TagOf(v2)
    ensures TeleKeyexpr(v1) == TeleKeyexpr(v2) <==> TagOf(v1) == TagOf(v2)
    ensures CmndKeyexpr(v1) != TeleKeyexpr(v2)
  {
  }
}
