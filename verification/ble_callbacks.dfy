/**
 * The BLE server and WiFi-config characteristic callbacks
 * (src/ble/BLECallbacks.cpp).
 */
module BleCallbacks {
  import opened Wrappers
  import opened DeviceStats
  import opened Outputs
  import opened DeviceContext
  import opened Commands
  import StatusJson
  import WiFiCredentials
  import WiFiManager

  function OnConnect(d: Device): (r: Device)
    ensures r.stats.isBluetoothConnected
    ensures r.stats.(isBluetoothConnected := d.stats.isBluetoothConnected) == d.stats
    ensures r.(stats := d.stats) == d
  {
    OnBLEConnected(d)
  }

  function OnDisconnect(d: Device): (r: Device)
    ensures !r.stats.isBluetoothConnected
    ensures r.stats.(isBluetoothConnected := d.stats.isBluetoothConnected) == d.stats
    ensures r.(stats := d.stats) == d
  {
    OnBLEDisconnected(d)
  }

  const MAX_ATTEMPTS: nat := 20

  /** Whether the i-th read of the WiFi status reports connected; reads past the oracle's end report not connected. */
  predicate LinkUp(polls: seq<bool>, i: nat) {
    i < |polls| && polls[i]
  }

  /** The number of waits the poll makes when it starts counting at i. */
  function Attempts(polls: seq<bool>, i: nat): (n: nat)
    requires i <= MAX_ATTEMPTS
    ensures i <= n <= MAX_ATTEMPTS
    ensures forall k :: i <= k < n ==> !LinkUp(polls, k)
    ensures n < MAX_ATTEMPTS ==> LinkUp(polls, n)
    decreases MAX_ATTEMPTS - i
  {
    if LinkUp(polls, i) || i == MAX_ATTEMPTS then i else Attempts(polls, i + 1)
  }

  /** The verdict of the final status read, which follows the last read of the loop condition. */
  predicate PollSucceeds(polls: seq<bool>) {
    LinkUp(polls, Attempts(polls, 0) + 1)
  }

  /**
   * The wait-for-connection loop: the status is read before every wait and
   * once more afterwards; at most 20 waits.
   */
  method ConnectPoll(polls: seq<bool>) returns (attempts: nat, connected: bool)
    ensures attempts <= MAX_ATTEMPTS
    ensures forall k :: 0 <= k < attempts ==> !LinkUp(polls, k)
    ensures attempts < MAX_ATTEMPTS ==> LinkUp(polls, attempts)
    ensures attempts == Attempts(polls, 0)
    ensures connected == LinkUp(polls, attempts + 1) == PollSucceeds(polls)
  {
    attempts := 0;
    while !LinkUp(polls, attempts) && attempts < MAX_ATTEMPTS
      invariant attempts <= MAX_ATTEMPTS
      invariant Attempts(polls, attempts) == Attempts(polls, 0)
      invariant forall k :: 0 <= k < attempts ==> !LinkUp(polls, k)
      decreases MAX_ATTEMPTS - attempts
    {
      attempts := attempts + 1;
    }
    connected := LinkUp(polls, attempts + 1);
  }

  /**
   * Raises the status flag, then adopts a recognised transport name; the
   * server address is replaced only on a switch to REMOTE that carries one.
   * The stats field is written directly: nothing is persisted and the WiFi
   * manager is not told. A missing name is treated like an unknown one.
   */
  function SwitchTransport(d: Device, transport: Option<string>, serverAddress: Option<string>): (r: Device)
    ensures r.statusRequested
    ensures transport.Some? && StatusJson.TransportNamed(transport.value).Some? ==>
              r.stats.transport == StatusJson.TransportNamed(transport.value).value
    ensures !(transport.Some? && StatusJson.TransportNamed(transport.value).Some?) ==>
              r.stats.transport == d.stats.transport
    ensures r.stats.serverAddress ==
              (if transport == Some("REMOTE") && serverAddress.Some? then serverAddress.value else d.stats.serverAddress)
    ensures r.stats.(transport := d.stats.transport, serverAddress := d.stats.serverAddress) == d.stats
    ensures r.(stats := d.stats, statusRequested := d.statusRequested) == d
  {
    var flagged := RequestStatusBroadcast(d);
    if transport.None? then flagged
    else if transport.value == "BLE" then flagged.(stats := flagged.stats.(transport := Ble))
    else if transport.value == "WIFI" then flagged.(stats := flagged.stats.(transport := Wifi))
    else if transport.value == "REMOTE" then
      var server := if serverAddress.Some? then serverAddress.value else flagged.stats.serverAddress;
      flagged.(stats := flagged.stats.(transport := Remote, serverAddress := server))
    else flagged
  }

  /**
   * The confirmation of a switch goes out on the new transport, on the next
   * pass of `loop`: leaving WIFI for BLE with a WebSocket client connected,
   * that pass sends nothing to the WebSocket, although a status request made
   * before the switch would have reached it.
   */
  lemma SwitchConfirmationFollowsNewTransport(d: Device, wifiUp: bool, localIp: string, efuseMac: nat)
    requires d.stats.transport == Wifi && d.wifiMgr == Some(WiFiManager.Manager(true, true))
    ensures var t := Loop(SwitchTransport(d, Some("BLE"), None), wifiUp, localIp, efuseMac);
            t.broadcast && forall e :: e in t.out ==> e.BleNotify?
    ensures exists e :: e in Loop(RequestStatusBroadcast(d), wifiUp, localIp, efuseMac).out && e.WsBroadcast?
  {
  }

  /** Completion of a handler, or a processor fault that reboots the device. */
  datatype Outcome = Completed(dev: Device) | Fault

  /**
   * The SWITCH_TRANSPORT branch as the source has it: the transport field is
   * handed to `strcmp` without a null check, so a command lacking a string
   * "transport" dereferences a null pointer.
   */
  function SwitchTransportAsWritten(d: Device, transport: Option<string>, serverAddress: Option<string>): (r: Outcome)
    ensures r.Fault? <==> transport.None?
    ensures transport.Some? ==> r == Completed(SwitchTransport(d, transport, serverAddress))
  {
    if transport.None? then Fault
    else
      var flagged := RequestStatusBroadcast(d);
      if transport.value == "BLE" then Completed(flagged.(stats := flagged.stats.(transport := Ble)))
      else if transport.value == "WIFI" then Completed(flagged.(stats := flagged.stats.(transport := Wifi)))
      else if transport.value == "REMOTE" then
        var server := if serverAddress.Some? then serverAddress.value else flagged.stats.serverAddress;
        Completed(flagged.(stats := flagged.stats.(transport := Remote, serverAddress := server)))
      else Completed(flagged)
  }

  /** `{"requestType":"SWITCH_TRANSPORT"}` faults as written; the corrected handler only raises the flag. */
  lemma MissingTransportFaults(d: Device)
    ensures SwitchTransportAsWritten(d, None, None) == Fault
    ensures SwitchTransport(d, None, None) == RequestStatusBroadcast(d)
  {
  }

  /**
   * Dispatches one write. Empty, unparseable and untyped writes are
   * dropped; STATUS raises the flag; INTENSITY stores the value;
   * WIFI_CREDENTIALS starts a connection, polls it, and on success saves the
   * credentials and raises the flag; SWITCH_TRANSPORT as above; any other
   * type is ignored.
   */
  method OnWrite(d: Device, w: Inbound, polls: seq<bool>) returns (s: Step)
    ensures RequestType(w).None? ==> s == Step(d, [])
    ensures RequestType(w) == Some(STATUS) ==> s == Step(RequestStatusBroadcast(d), [])
    ensures RequestType(w) == Some(INTENSITY) ==> s == Step(SetIntensity(d, w.parsed.value.intensity), [])
    ensures RequestType(w) == Some(WIFI_CREDENTIALS) ==>
              var doc := w.parsed.value;
              && s.out == [WiFiBegin(doc.ssid, doc.password)]
              && (PollSucceeds(polls) ==>
                    s.dev == d.(flash := WiFiCredentials.Save(d.flash, doc.ssid, doc.password), statusRequested := true))
              && (!PollSucceeds(polls) ==> s.dev == d)
    ensures RequestType(w) == Some(SWITCH_TRANSPORT) ==>
              s == Step(SwitchTransport(d, w.parsed.value.transport, w.parsed.value.serverAddress), [])
    ensures RequestType(w).Some? && RequestType(w).value !in {STATUS, INTENSITY, WIFI_CREDENTIALS, SWITCH_TRANSPORT} ==>
              s == Step(d, [])
  {
    var requestType := RequestType(w);
    if requestType.None? {
      return Step(d, []);
    }
    var doc := w.parsed.value;
    if requestType.value == STATUS {
      s := Step(RequestStatusBroadcast(d), []);
    } else if requestType.value == INTENSITY {
      s := Step(SetIntensity(d, doc.intensity), []);
    } else if requestType.value == WIFI_CREDENTIALS {
      var out := [WiFiBegin(doc.ssid, doc.password)];
      var attempts, connected := ConnectPoll(polls);
      if connected {
        var saved := d.(flash := WiFiCredentials.Save(d.flash, doc.ssid, doc.password));
        s := Step(RequestStatusBroadcast(saved), out);
      } else {
        s := Step(d, out);
      }
    } else if requestType.value == SWITCH_TRANSPORT {
      s := Step(SwitchTransport(d, doc.transport, doc.serverAddress), []);
    } else {
      s := Step(d, []);
    }
  }
}
