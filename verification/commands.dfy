/**
 * Inbound JSON commands as the dispatchers see them after parsing, and the
 * two effects both dispatchers share.
 */
module Commands {
  import opened Wrappers
  import opened DeviceStats
  import opened DeviceContext

  /**
   * What each ArduinoJson accessor yields for a parsed document. A string
   * field reads as None (a null pointer) when it is absent or not a string;
   * `intensity` is the integer the conversion yields.
   */
  datatype Doc = Doc(
    requestType: Option<string>,
    intensity: Int32,
    ssid: string,
    password: string,
    transport: Option<string>,
    serverAddress: Option<string>)

  /** A received payload and the outcome of parsing it; None is a parse error. */
  datatype Inbound = Inbound(value: string, parsed: Option<Doc>)

  const STATUS: string := "STATUS"
  const INTENSITY: string := "INTENSITY"
  const WIFI_CREDENTIALS: string := "WIFI_CREDENTIALS"
  const SWITCH_TRANSPORT: string := "SWITCH_TRANSPORT"

  /** The request type of a payload that gets past the empty, parse and missing-field checks. */
  function RequestType(w: Inbound): (r: Option<string>)
    ensures r.Some? <==> |w.value| > 0 && w.parsed.Some? && w.parsed.value.requestType.Some?
    ensures r.Some? ==> r == w.parsed.value.requestType
  {
    if |w.value| == 0 || w.parsed.None? then None else w.parsed.value.requestType
  }

  /** Stores an intensity exactly as received: no clamping to 0..100. */
  function SetIntensity(d: Device, level: Int32): (r: Device)
    ensures r.stats.intensity == level
    ensures r.stats.(intensity := d.stats.intensity) == d.stats
    ensures r.(stats := d.stats) == d
  {
    d.(stats := d.stats.(intensity := level))
  }
}
