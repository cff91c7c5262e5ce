/**
 * The runtime status record of the device and its transport enum
 * (include/types/device_stats.h).
 */
module DeviceStats {
  import opened Wrappers

  /** The range of a C `int` on the target. */
  type Int32 = x: int | -0x8000_0000 <= x < 0x8000_0000

  /** The transport that carries control traffic. */
  datatype Transport = Ble | Wifi | Remote

  /** The enum's integer encoding: BLE = 0, WIFI = 1, REMOTE = 2. */
  function Code(t: Transport): (c: Int32)
    ensures 0 <= c <= 2
    ensures (c == 0 <==> t == Ble) && (c == 1 <==> t == Wifi) && (c == 2 <==> t == Remote)
  {
    match t
    case Ble => 0
    case Wifi => 1
    case Remote => 2
  }

  /** The transport a persisted integer stands for; None outside the enum's range. */
  function FromCode(c: int): (r: Option<Transport>)
    ensures r.Some? <==> 0 <= c <= 2
    ensures r.Some? ==> Code(r.value) == c
  {
    if c == 0 then Some(Ble)
    else if c == 1 then Some(Wifi)
    else if c == 2 then Some(Remote)
    else None
  }

  /** Decoding an encoded transport gives it back. */
  lemma CodeRoundTrip(t: Transport)
    ensures FromCode(Code(t)) == Some(t)
  {
  }

  const VERSION: string := "1.0.0"

  datatype DeviceStats = DeviceStats(
    intensity: Int32,
    battery: Int32,
    isCharging: bool,
    isBluetoothConnected: bool,
    isWifiConnected: bool,
    ipAddress: string,
    macAddress: string,
    version: string,
    transport: Transport,
    serverAddress: string)

  /** A default-constructed record. */
  function Fresh(): (s: DeviceStats)
    ensures s.intensity == 0 && s.battery == 100 && !s.isCharging
    ensures !s.isBluetoothConnected && !s.isWifiConnected
    ensures s.transport == Ble && s.serverAddress == ""
    ensures s.ipAddress == "" && s.macAddress == "" && s.version == VERSION
  {
    DeviceStats(0, 100, false, false, false, "", "", VERSION, Ble, "")
  }
}
