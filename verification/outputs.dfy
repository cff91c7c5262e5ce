/**
 * What the device emits: the status document and the outward actions the
 * state logic triggers (notifications, broadcasts, calls into code outside
 * the model).
 */
module Outputs {
  import opened DeviceStats

  datatype JsonValue = JInt(i: int) | JBool(b: bool) | JStr(s: string)

  /** A JSON object; the order in which keys are serialised is not modelled. */
  type Object = map<string, JsonValue>

  datatype Effect =
    | BleNotify(status: Object)           // BLEManager::updateStats
    | WsBroadcast(status: Object)         // WebSocketsServer::broadcastTXT
    | TransportChanged(from: Transport, to: Transport)  // WiFiManager::handleTransportChange
    | WiFiBegin(ssid: string, password: string)         // WiFi.begin
}
