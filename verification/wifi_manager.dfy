/**
 * The local WebSocket server's owner (src/wifi/WiFiManager.cpp): whether the
 * server object exists and the connection flag its events maintain.
 */
module WiFiManager {
  import opened Outputs

  datatype Manager = Manager(server: bool, wsConnected: bool)

  /** A newly constructed manager: no server, not connected. */
  function Construct(): (m: Manager)
    ensures !m.server && !m.wsConnected
  {
    Manager(false, false)
  }

  /** Starts the server only when WiFi is up at that moment. */
  function Begin(m: Manager, wifiUp: bool): (r: Manager)
    ensures r.wsConnected == m.wsConnected
    ensures r.server <==> m.server || wifiUp
  {
    if !wifiUp then m else m.(server := true)
  }

  /** Broadcasts a snapshot when a server exists and a client is connected; otherwise sends nothing. */
  function SendStats(m: Manager, status: Object): (out: seq<Effect>)
    ensures out == [] || out == [WsBroadcast(status)]
    ensures out != [] <==> m.server && m.wsConnected
  {
    if m.server && m.wsConnected then [WsBroadcast(status)] else []
  }

  /** Whether a client is connected: with a server up, exactly when a snapshot would be broadcast. */
  function IsWebSocketConnected(m: Manager): (r: bool)
    ensures m.server ==> (r <==> forall status :: SendStats(m, status) != [])
  {
    assert !m.wsConnected ==> SendStats(m, map[]) == [];
    m.wsConnected
  }
}
