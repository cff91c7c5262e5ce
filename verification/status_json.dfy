/**
 * The status snapshot built by `DeviceContext::buildStatusJson`
 * (src/DeviceContext.cpp) and the transport names shared with the
 * SWITCH_TRANSPORT command.
 */
module StatusJson {
  import opened Wrappers
  import opened DeviceStats
  import opened Outputs
  import Hex

  /** The name a transport carries on the wire. */
  function Label(t: Transport): (l: string)
    ensures TransportNamed(l) == Some(t)
  {
    match t
    case Wifi => "WIFI"
    case Remote => "REMOTE"
    case Ble => "BLE"
  }

  /** The transport a wire name denotes; None for any other string. */
  function TransportNamed(l: string): (r: Option<Transport>)
    ensures r.Some? <==> l in {"BLE", "WIFI", "REMOTE"}
    ensures (r == Some(Ble) <==> l == "BLE") && (r == Some(Wifi) <==> l == "WIFI") && (r == Some(Remote) <==> l == "REMOTE")
  {
    if l == "BLE" then Some(Ble)
    else if l == "WIFI" then Some(Wifi)
    else if l == "REMOTE" then Some(Remote)
    else None
  }

  /** Names and transports correspond one to one. */
  lemma NamesInverse(l: string, t: Transport)
    ensures TransportNamed(l) == Some(t) <==> Label(t) == l
  {
  }

  const WORD: nat := 0x1_0000_0000

  /** The eFuse MAC truncated to 32 bits and rendered in hexadecimal. */
  function DeviceId(efuseMac: nat): (id: string)
    ensures 1 <= |id| <= 8
    ensures forall i :: 0 <= i < |id| ==> Hex.IsHexDigit(id[i])
    ensures Hex.FromHex(id) == efuseMac % WORD
  {
    var low := efuseMac % WORD;
    Hex.RoundTrip(low);
    Hex.Width(low, 8);
    Hex.ToHex(low)
  }

  /** The status snapshot of a stats record. */
  function Build(s: DeviceStats, efuseMac: nat): (j: Object)
    ensures j.Keys >= {"intensity", "battery", "isCharging", "isBluetoothConnected", "isWifiConnected",
                       "ipAddress", "macAddress", "version", "deviceId", "transport"}
    ensures j.Keys <= {"intensity", "battery", "isCharging", "isBluetoothConnected", "isWifiConnected",
                       "ipAddress", "macAddress", "version", "deviceId", "transport", "serverAddress"}
    ensures j["intensity"] == JInt(s.intensity) && j["battery"] == JInt(s.battery)
    ensures j["isCharging"] == JBool(s.isCharging)
    ensures j["isBluetoothConnected"] == JBool(s.isBluetoothConnected)
    ensures j["isWifiConnected"] == JBool(s.isWifiConnected)
    ensures j["ipAddress"] == JStr(s.ipAddress) && j["macAddress"] == JStr(s.macAddress)
    ensures j["version"] == JStr(s.version)
    ensures j["deviceId"] == JStr(DeviceId(efuseMac))
    ensures j["transport"].JStr? && TransportNamed(j["transport"].s) == Some(s.transport)
    ensures "serverAddress" in j <==> s.transport == Remote && s.serverAddress != ""
    ensures "serverAddress" in j ==> j["serverAddress"] == JStr(s.serverAddress)
  {
    var base := map[
      "intensity" := JInt(s.intensity),
      "battery" := JInt(s.battery),
      "isCharging" := JBool(s.isCharging),
      "isBluetoothConnected" := JBool(s.isBluetoothConnected),
      "isWifiConnected" := JBool(s.isWifiConnected),
      "ipAddress" := JStr(s.ipAddress),
      "macAddress" := JStr(s.macAddress),
      "version" := JStr(s.version),
      "deviceId" := JStr(DeviceId(efuseMac)),
      "transport" := JStr(Label(s.transport))];
    if s.transport == Remote && s.serverAddress != "" then
      base["serverAddress" := JStr(s.serverAddress)]
    else
      base
  }
}
