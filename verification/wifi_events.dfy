/**
 * The WebSocket event handler of the WiFi manager
 * (src/wifi/WiFiManager.cpp): the connection flag and the two commands the
 * local network accepts.
 */
module WiFiEvents {
  import opened Wrappers
  import opened Outputs
  import opened DeviceContext
  import opened Commands
  import WiFiManager

  datatype WsEvent =
    | WsDisconnected
    | WsConnected
    | WsText(parsed: Option<Doc>)   // None: the payload did not parse
    | WsOther                       // binary, ping, pong, error, fragments

  /**
   * Handles one event from client `num`. Connection events set the flag
   * whatever the client; TEXT accepts only STATUS and INTENSITY. Without a
   * manager instance the static wrapper drops the event.
   */
  function OnWebSocketEvent(d: Device, num: nat, e: WsEvent): (r: Device)
    ensures d.wifiMgr.None? ==> r == d
    ensures r.wifiMgr.Some? <==> d.wifiMgr.Some?
    ensures r.wifiMgr.Some? ==> r.wifiMgr.value.server == d.wifiMgr.value.server
    ensures d.wifiMgr.Some? ==> OnManagerEvent(d, num, e) == r
  {
    if d.wifiMgr.None? then d else OnManagerEvent(d, num, e)
  }

  /** The instance handler proper. */
  function OnManagerEvent(d: Device, num: nat, e: WsEvent): (r: Device)
    requires d.wifiMgr.Some?
    ensures r.wifiMgr.Some? && r.wifiMgr.value.server == d.wifiMgr.value.server
    ensures e == WsDisconnected ==> r == d.(wifiMgr := Some(d.wifiMgr.value.(wsConnected := false)))
    ensures e == WsConnected ==> r == d.(wifiMgr := Some(d.wifiMgr.value.(wsConnected := true)))
    ensures e.WsText? && (e.parsed.None? || e.parsed.value.requestType.None?) ==> r == d
    ensures e.WsText? && e.parsed.Some? && e.parsed.value.requestType == Some(STATUS) ==>
              r == RequestStatusBroadcast(d)
    ensures e.WsText? && e.parsed.Some? && e.parsed.value.requestType == Some(INTENSITY) ==>
              r == SetIntensity(d, e.parsed.value.intensity)
    ensures (e.WsText? && e.parsed.Some? && e.parsed.value.requestType.Some?
             && e.parsed.value.requestType.value !in {STATUS, INTENSITY}) ==> r == d
    ensures e == WsOther ==> r == d
  {
    match e
    case WsDisconnected => d.(wifiMgr := Some(d.wifiMgr.value.(wsConnected := false)))
    case WsConnected => d.(wifiMgr := Some(d.wifiMgr.value.(wsConnected := true)))
    case WsText(parsed) =>
      if parsed.None? || parsed.value.requestType.None? then d
      else if parsed.value.requestType.value == STATUS then RequestStatusBroadcast(d)
      else if parsed.value.requestType.value == INTENSITY then SetIntensity(d, parsed.value.intensity)
      else d
    case WsOther => d
  }

  /** Handles a sequence of (client, event) pairs in order. */
  function ApplyEvents(d: Device, evs: seq<(nat, WsEvent)>): (r: Device)
    ensures r.wifiMgr.Some? <==> d.wifiMgr.Some?
    ensures r.wifiMgr.Some? ==> r.wifiMgr.value.server == d.wifiMgr.value.server
    decreases |evs|
  {
    if |evs| == 0 then d
    else
      var before := ApplyEvents(d, evs[..|evs| - 1]);
      OnWebSocketEvent(before, evs[|evs| - 1].0, evs[|evs| - 1].1)
  }

  /** The latest connection event of a sequence: Some(true) for CONNECTED, Some(false) for DISCONNECTED. */
  function LatestConnection(evs: seq<(nat, WsEvent)>): Option<bool>
    decreases |evs|
  {
    if |evs| == 0 then None
    else if evs[|evs| - 1].1 == WsConnected then Some(true)
    else if evs[|evs| - 1].1 == WsDisconnected then Some(false)
    else LatestConnection(evs[..|evs| - 1])
  }

  /** The connection flag reports the latest connection event from any client, or is unchanged if there was none. */
  lemma {:induction false} FlagFollowsLatest(d: Device, evs: seq<(nat, WsEvent)>)
    requires d.wifiMgr.Some?
    ensures WiFiManager.IsWebSocketConnected(ApplyEvents(d, evs).wifiMgr.value) ==
              match LatestConnection(evs)
              case Some(b) => b
              case None => d.wifiMgr.value.wsConnected
    decreases |evs|
  {
    if |evs| > 0 {
      FlagFollowsLatest(d, evs[..|evs| - 1]);
    }
  }

  /**
   * A manager begun while WiFi was down has no server, so whatever events
   * follow, a status broadcast never reaches the WebSocket.
   */
  lemma NoServerNoBroadcast(d: Device, evs: seq<(nat, WsEvent)>, wifiUp: bool, localIp: string, efuseMac: nat)
    requires d.wifiMgr == Some(WiFiManager.Begin(WiFiManager.Construct(), false))
    ensures forall e :: e in BroadcastStats(ApplyEvents(d, evs), wifiUp, localIp, efuseMac).out ==> e.BleNotify?
  {
  }
}
