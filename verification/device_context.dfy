/**
 * The central owner of runtime state (src/DeviceContext.cpp). The callback
 * files of the older code generation write the same state under other
 * names (`deviceStats`, `statusRequested`, `deviceConnected`); here they are
 * one record.
 */
module DeviceContext {
  import opened Wrappers
  import opened DeviceStats
  import opened Outputs
  import opened Preferences
  import ConfigManager
  import StatusJson
  import WiFiManager

  datatype Device = Device(
    stats: DeviceStats,
    statusRequested: bool,           // statusBroadcastRequested
    flash: Flash,                    // non-volatile storage, all namespaces
    bleMgr: bool,                    // the BLE manager has been created
    wifiMgr: Option<WiFiManager.Manager>)

  /** The result of an operation that may emit effects. */
  datatype Step = Step(dev: Device, out: seq<Effect>)

  /** One pass of `loop`: whether it broadcast, and what it emitted. */
  datatype Tick = Tick(dev: Device, broadcast: bool, out: seq<Effect>)

  /** The singleton as constructed, before `setup`. */
  function PowerOn(flash: Flash): (d: Device)
    ensures d.stats == Fresh() && !d.statusRequested && d.flash == flash
    ensures !d.bleMgr && d.wifiMgr.None?
  {
    Device(Fresh(), false, flash, false, None)
  }

  /** The transport after the restore step of setup: the saved one if it is in the enum's range, else the prior one. */
  function RestoreTransport(prior: Transport, saved: Int32): (t: Transport)
    ensures 0 <= saved <= 2 ==> Code(t) == saved
    ensures !(0 <= saved <= 2) ==> t == prior
  {
    match FromCode(saved)
    case Some(t) => t
    case None => prior
  }

  /**
   * The state effect of `setup`: both managers created, the WebSocket server
   * started only if WiFi is up, the saved transport restored, the MAC cached.
   */
  function Setup(d: Device, wifiUp: bool, mac: string): (r: Device)
    ensures r.bleMgr && r.wifiMgr.Some?
    ensures r.wifiMgr.value.server == wifiUp && !r.wifiMgr.value.wsConnected
    ensures var saved := ConfigManager.GetLastTransport(d.flash);
            && (0 <= saved <= 2 ==> Code(r.stats.transport) == saved)
            && (!(0 <= saved <= 2) ==> r.stats.transport == d.stats.transport)
    ensures r.stats == d.stats.(transport := r.stats.transport, macAddress := mac, version := VERSION)
    ensures r.flash == d.flash && r.statusRequested == d.statusRequested
  {
    var saved := ConfigManager.GetLastTransport(d.flash);
    Device(
      d.stats.(transport := RestoreTransport(d.stats.transport, saved), macAddress := mac, version := VERSION),
      d.statusRequested,
      d.flash,
      true,
      Some(WiFiManager.Begin(WiFiManager.Construct(), wifiUp)))
  }

  /** A fresh boot on a given flash restores a saved transport in range, and BLE otherwise. */
  lemma BootTransport(flash: Flash, wifiUp: bool, mac: string)
    ensures var saved := ConfigManager.GetLastTransport(flash);
            Setup(PowerOn(flash), wifiUp, mac).stats.transport ==
              (if 0 <= saved <= 2 then FromCode(saved).value else Ble)
    ensures Setup(PowerOn(map[]), wifiUp, mac).stats.transport == Ble
  {
  }

  /**
   * Selecting the current transport changes nothing. Selecting another one
   * updates it, tells the WiFi manager (when there is one), and persists the
   * new value as the last transport.
   */
  function SetTransport(d: Device, mode: Transport): (s: Step)
    ensures d.stats.transport == mode ==> s == Step(d, [])
    ensures d.stats.transport != mode ==>
      && s.dev.stats == d.stats.(transport := mode)
      && ConfigManager.GetLastTransport(s.dev.flash) == Code(mode)
      && SameExcept(d.flash, s.dev.flash, ConfigManager.NS, {ConfigManager.TRANSPORT_KEY})
      && s.dev.(stats := d.stats, flash := d.flash) == d
      && s.out == (if d.wifiMgr.Some? then [TransportChanged(d.stats.transport, mode)] else [])
  {
    if d.stats.transport == mode then Step(d, [])
    else
      var prior := d.stats.transport;
      var out := if d.wifiMgr.Some? then [TransportChanged(prior, mode)] else [];
      var flash := ConfigManager.SetLastTransport(d.flash, Code(mode));
      Step(d.(stats := d.stats.(transport := mode), flash := flash), out)
  }

  /** A transport change survives a reboot: the next setup restores it. */
  lemma SetTransportSurvivesReboot(d: Device, mode: Transport, wifiUp: bool, mac: string)
    requires d.stats.transport != mode
    ensures Setup(PowerOn(SetTransport(d, mode).dev.flash), wifiUp, mac).stats.transport == mode
  {
  }

  function OnWiFiConnected(d: Device, localIp: string): (r: Device)
    ensures r.stats.isWifiConnected && r.stats.ipAddress == localIp
    ensures r.stats.(isWifiConnected := d.stats.isWifiConnected, ipAddress := d.stats.ipAddress) == d.stats
    ensures r.(stats := d.stats) == d
  {
    d.(stats := d.stats.(isWifiConnected := true, ipAddress := localIp))
  }

  function OnWiFiDisconnected(d: Device): (r: Device)
    ensures !r.stats.isWifiConnected && r.stats.ipAddress == ""
    ensures r.stats.(isWifiConnected := d.stats.isWifiConnected, ipAddress := d.stats.ipAddress) == d.stats
    ensures r.(stats := d.stats) == d
  {
    d.(stats := d.stats.(isWifiConnected := false, ipAddress := ""))
  }

  function OnBLEConnected(d: Device): (r: Device)
    ensures r.stats.isBluetoothConnected
    ensures r.stats.(isBluetoothConnected := d.stats.isBluetoothConnected) == d.stats
    ensures r.(stats := d.stats) == d
  {
    d.(stats := d.stats.(isBluetoothConnected := true))
  }

  function OnBLEDisconnected(d: Device): (r: Device)
    ensures !r.stats.isBluetoothConnected
    ensures r.stats.(isBluetoothConnected := d.stats.isBluetoothConnected) == d.stats
    ensures r.(stats := d.stats) == d
  {
    d.(stats := d.stats.(isBluetoothConnected := false))
  }

  /** The BLE link flag follows the latest connect or disconnect event. */
  lemma BleFlagFollowsLatest(d: Device)
    ensures OnBLEDisconnected(OnBLEConnected(d)).stats == d.stats.(isBluetoothConnected := false)
    ensures OnBLEConnected(OnBLEDisconnected(d)).stats == d.stats.(isBluetoothConnected := true)
  {
  }

  /** Raises the one-shot broadcast flag; raising it again changes nothing. */
  function RequestStatusBroadcast(d: Device): (r: Device)
    ensures r.statusRequested
    ensures r.(statusRequested := d.statusRequested) == d
  {
    d.(statusRequested := true)
  }

  /** The flag after n requests. */
  function RequestMany(d: Device, n: nat): Device {
    if n == 0 then d else RequestStatusBroadcast(RequestMany(d, n - 1))
  }

  /** Any positive number of requests has the effect of one. */
  lemma {:induction false} RequestsCoalesce(d: Device, n: nat)
    requires 1 <= n
    ensures RequestMany(d, n) == RequestStatusBroadcast(d)
  {
    if n > 1 {
      RequestsCoalesce(d, n - 1);
    }
  }

  /**
   * Re-reads the volatile fields: WiFi flag and address from the radio,
   * battery and charging as fixed placeholders.
   */
  function RefreshDeviceStats(s: DeviceStats, wifiUp: bool, localIp: string): (r: DeviceStats)
    ensures r.battery == 100 && !r.isCharging
    ensures r.isWifiConnected == wifiUp
    ensures r.ipAddress == (if wifiUp then localIp else "")
    ensures r.(battery := s.battery, isCharging := s.isCharging,
               isWifiConnected := s.isWifiConnected, ipAddress := s.ipAddress) == s
  {
    s.(isWifiConnected := wifiUp, ipAddress := if wifiUp then localIp else "", battery := 100, isCharging := false)
  }

  /**
   * Refreshes the stats and routes one snapshot: to the BLE characteristic if
   * a BLE client is connected, and to the WiFi manager if the transport is
   * not BLE (which forwards it only to a connected WebSocket client).
   */
  function BroadcastStats(d: Device, wifiUp: bool, localIp: string, efuseMac: nat): (s: Step)
    ensures s.dev == d.(stats := RefreshDeviceStats(d.stats, wifiUp, localIp))
    ensures var json := StatusJson.Build(s.dev.stats, efuseMac);
            var toBle := d.stats.isBluetoothConnected && d.bleMgr;
            var toWs := d.stats.transport != Ble && d.wifiMgr.Some?
                        && d.wifiMgr.value.server && d.wifiMgr.value.wsConnected;
            && (BleNotify(json) in s.out <==> toBle)
            && (WsBroadcast(json) in s.out <==> toWs)
            && (forall e :: e in s.out ==> e == BleNotify(json) || e == WsBroadcast(json))
            && |s.out| == (if toBle then 1 else 0) + (if toWs then 1 else 0)
  {
    var dev := d.(stats := RefreshDeviceStats(d.stats, wifiUp, localIp));
    var json := StatusJson.Build(dev.stats, efuseMac);
    var ble := if dev.stats.isBluetoothConnected && dev.bleMgr then [BleNotify(json)] else [];
    var wifi := if dev.stats.transport != Ble && dev.wifiMgr.Some? then WiFiManager.SendStats(dev.wifiMgr.value, json) else [];
    Step(dev, ble + wifi)
  }

  /** When no BLE client is connected and the transport is BLE, a broadcast emits nothing. */
  lemma BroadcastNowhere(d: Device, wifiUp: bool, localIp: string, efuseMac: nat)
    requires !d.stats.isBluetoothConnected && d.stats.transport == Ble
    ensures BroadcastStats(d, wifiUp, localIp, efuseMac).out == []
  {
  }

  /** One pass of `loop`, as far as state goes: a pending request is consumed by exactly one broadcast. */
  function Loop(d: Device, wifiUp: bool, localIp: string, efuseMac: nat): (t: Tick)
    ensures !t.dev.statusRequested
    ensures t.broadcast == d.statusRequested
    ensures !d.statusRequested ==> t.dev == d && t.out == []
    ensures d.statusRequested ==>
      var s := BroadcastStats(d.(statusRequested := false), wifiUp, localIp, efuseMac);
      t.dev == s.dev && t.out == s.out
  {
    if d.statusRequested then
      var s := BroadcastStats(d.(statusRequested := false), wifiUp, localIp, efuseMac);
      Tick(s.dev, true, s.out)
    else
      Tick(d, false, [])
  }

  /**
   * However many requests arrive between two passes, the next pass
   * broadcasts once and the pass after it (with no new request) does not.
   */
  lemma {:induction false} OneBroadcastPerBurst(d: Device, n: nat, wifiUp: bool, localIp: string, efuseMac: nat)
    requires 1 <= n
    ensures var t1 := Loop(RequestMany(d, n), wifiUp, localIp, efuseMac);
            && t1.broadcast && !t1.dev.statusRequested
            && t1 == Loop(RequestStatusBroadcast(d), wifiUp, localIp, efuseMac)
            && !Loop(t1.dev, wifiUp, localIp, efuseMac).broadcast
            && Loop(t1.dev, wifiUp, localIp, efuseMac).out == []
  {
    RequestsCoalesce(d, n);
  }
}
