# OpenVibe firmware: device state and the rules that change it

A Dafny model of the state logic of the OpenVibe actuator firmware. The device
keeps one runtime record (`DeviceStats`), a one-shot "status requested" flag, and
a few settings in non-volatile storage. Commands arrive over BLE or a local
WebSocket. The firmware applies them to the record and sends a JSON status
snapshot to the BLE characteristic and/or the WebSocket.

The repository mixes two generations of code. The callback files write globals
named `deviceStats`, `statusRequested` and `deviceConnected`. `DeviceContext`
owns `stats` and `statusBroadcastRequested`. The model has one abstract state,
`DeviceContext.Device`, in which these names are the same fields:

- `stats`: the `DeviceStats` record;
- `statusRequested`: the broadcast flag;
- `flash`: all storage namespaces, as `map<namespace, map<key, Value>>`;
- `bleMgr`: whether the BLE manager exists;
- `wifiMgr`: the WiFi manager, if one exists (whether its server was started, and its `wsConnected` flag).

Every operation is a pure function or method on this record. Outward actions
are returned as a list of `Outputs.Effect` values:

- a BLE notification;
- a WebSocket broadcast;
- the call into `handleTransportChange`, whose body is not part of this model;
- `WiFi.begin`.

Hardware reads are parameters:

- `wifiUp` and `localIp` for `WiFi.status()` and `localIP()`;
- `mac` for `WiFi.macAddress()`;
- `efuseMac` for `ESP.getEfuseMac()`;
- `polls` for the sequence of `WiFi.status()` results seen during the connect loop. A read past its end reports "not connected".

Inbound JSON arrives already parsed, as `Commands.Inbound`: the raw value, plus
either a parse error or a `Doc`. A `Doc` records what each ArduinoJson
accessor returns. A string field is `None` when the accessor returns a null
pointer.

Modules follow the source files:

- `DeviceStats` covers `include/types/device_stats.h`.
- `Preferences` is the key-value store. It is a library, not part of the repository.
- `ConfigManager` and `WiFiCredentials` are the two storage facades.
- `WiFiManager` holds the server state and `sendStats`. `WiFiEvents` holds the WebSocket event handler.
- `StatusJson` and `Hex` cover `buildStatusJson` and the device id.
- `DeviceContext` holds the device record and its operations.
- `Commands`, `BleCallbacks` and `StatsCharacteristic` are the inbound dispatchers.

Some points read directly off the code:

- Intensity is stored exactly as received. There is no clamping to 0..100.
- BLE `SWITCH_TRANSPORT` writes `stats.transport` directly. It does not go through `setTransport`, so the new transport is never persisted and the WiFi manager is never told about it.
- WebSocket TEXT accepts only `STATUS` and `INTENSITY`.
- The WebSocket server is created only if WiFi is already up when `begin` runs. Without a server, nothing is ever broadcast over WebSocket (`WiFiEvents.NoServerNoBroadcast`).
- `WiFiCredentials` saves under namespace `"wifi"`, keys `ssid` and `password`. `ConfigManager` uses namespace `"openvibe"`, keys `wifi_ssid` and `wifi_pass`. Saving through one is invisible to the other.

Intensity clamping, a network-attach state machine, remote-relay retries and
endpoint URL parsing do not exist in the modelled code, so they are not modelled.

## Model

| member | source | states |
|---|---|---|
| DeviceStats.Code | include/types/device_stats.h:6-10 | the enum encodes BLE as 0, WIFI as 1 and REMOTE as 2, so every code lies in 0..2 |
| DeviceStats.FromCode | include/types/device_stats.h:6-10 | an integer names a transport exactly when it lies in 0..2, and then it is the transport whose code it is |
| DeviceStats.CodeRoundTrip | include/types/device_stats.h:6-10 | decoding a transport's code gives the transport back |
| DeviceStats.Fresh | include/types/device_stats.h:16-27 | a default record has intensity 0, battery 100, is not charging, has neither link connected, uses transport BLE, has empty address strings and version "1.0.0" |
| Hex.ToHex | src/DeviceContext.cpp:147 | hexadecimal rendering is non-empty, uses only lower-case hex digits, and has no leading zero for a positive number |
| Hex.RoundTrip | src/DeviceContext.cpp:147 | reading a rendered number back as hexadecimal yields the number |
| Hex.Width | src/DeviceContext.cpp:147 | a number below 16^k renders in at most k digits |
| StatusJson.DeviceId | src/DeviceContext.cpp:147 | the device id is at most 8 hex digits and reads back as the eFuse MAC truncated to 32 bits |
| StatusJson.Label | src/DeviceContext.cpp:149-153 | the label of each transport is a name that denotes that transport again, so WIFI is labelled "WIFI", REMOTE "REMOTE" and BLE "BLE" |
| StatusJson.TransportNamed | src/ble/BLECallbacks.cpp:79-87 | exactly the names "BLE", "WIFI" and "REMOTE" denote a transport, and each denotes the transport of the same name |
| StatusJson.NamesInverse | src/DeviceContext.cpp:149-153 | status labels and command transport names correspond one to one, in both directions |
| StatusJson.Build | src/DeviceContext.cpp:137-163 | the snapshot carries the ten fixed keys with the record's values and the transport's label; `serverAddress` is present iff the transport is REMOTE and the address is non-empty, and then carries the address |
| ConfigManager.SetWiFiCredentials | src/ConfigManager.cpp:10-16 | after the store, SSID and password read back as stored, and only the two WiFi keys of "openvibe" changed |
| ConfigManager.GetWiFiSSID | src/ConfigManager.cpp:18-24 | a stored SSID string is returned as stored; with none stored the read is "" |
| ConfigManager.GetWiFiPassword | src/ConfigManager.cpp:26-32 | a stored password string is returned as stored; with none stored the read is "" |
| ConfigManager.HasCredentialsAfterSet | src/ConfigManager.cpp:34-36 | after storing credentials, they count as present iff the SSID is non-empty |
| ConfigManager.HasWiFiCredentials | src/ConfigManager.cpp:34-36 | credentials count as present exactly when the namespace holds a non-empty SSID string; a missing key or one of another type counts as absent |
| ConfigManager.ClearWiFiCredentials | src/ConfigManager.cpp:38-44 | after clearing, SSID and password read as "", no credentials are present, and only the two WiFi keys changed |
| ConfigManager.SetDeviceName | src/ConfigManager.cpp:48-53 | the name reads back as stored, and only the name key changed |
| ConfigManager.GetDeviceName | src/ConfigManager.cpp:55-61 | a stored name string is returned as stored; with none stored the read is "OpenVibe" |
| ConfigManager.SetLastTransport | src/ConfigManager.cpp:65-70 | the last transport reads back as stored, and only the transport key changed |
| ConfigManager.GetLastTransport | src/ConfigManager.cpp:72-78 | a stored integer is returned as stored; with none stored the read is 0 |
| ConfigManager.SetRemoteServer | src/ConfigManager.cpp:82-87 | the remote server reads back as stored, and only its key changed |
| ConfigManager.GetRemoteServer | src/ConfigManager.cpp:89-95 | a stored URL string is returned as stored; with none stored the read is "" |
| ConfigManager.ReadFramed | src/ConfigManager.cpp:10-95 | a change confined to some keys leaves every setting stored under other keys as it was |
| ConfigManager.SettersIndependent | src/ConfigManager.cpp:10-95 | each setter and the clear change exactly their own settings; the other settings read back unchanged |
| WiFiCredentials.Save | src/wifi/WiFiCredentials.cpp:3-9 | a load after saving yields the saved SSID and password, with success iff the SSID is non-empty; only the two "wifi" keys changed |
| WiFiCredentials.Load | src/wifi/WiFiCredentials.cpp:11-18 | load yields the stored SSID and password ("" for each one missing) and reports success iff the SSID is non-empty; with nothing stored it yields "", "" and failure |
| WiFiCredentials.Clear | src/wifi/WiFiCredentials.cpp:20-25 | the whole "wifi" namespace is erased, a later load fails with empty strings, and other namespaces are untouched |
| WiFiCredentials.SaveLeavesConfig | src/wifi/WiFiCredentials.cpp:5 | saving under "wifi" changes none of the configuration settings under "openvibe"; whether credentials are present there is unchanged |
| WiFiManager.Construct | src/wifi/WiFiManager.cpp:9-11 | a new manager has no server and no connected client |
| WiFiManager.Begin | src/wifi/WiFiManager.cpp:13-25 | the server exists after begin iff it already existed or WiFi was up; the connection flag is untouched |
| WiFiManager.SendStats | src/wifi/WiFiManager.cpp:33-37 | the snapshot is broadcast once iff a server exists and a client is connected; otherwise nothing is sent |
| WiFiManager.IsWebSocketConnected | src/wifi/WiFiManager.cpp:39-41 | with a server up, the reported flag is true exactly when every snapshot would be broadcast; which events set it is `WiFiEvents.FlagFollowsLatest` |
| WiFiEvents.OnWebSocketEvent | src/wifi/WiFiManager.cpp:43-47 | without a manager instance an event changes nothing; with one, it is handled by the instance handler and the server's existence never changes |
| WiFiEvents.OnManagerEvent | src/wifi/WiFiManager.cpp:49-87 | DISCONNECTED and CONNECTED set the flag from any client; TEXT that fails to parse or lacks a type changes nothing; STATUS raises the flag; INTENSITY stores the value; any other type, and any other event, changes nothing |
| WiFiEvents.FlagFollowsLatest | src/wifi/WiFiManager.cpp:39-58 | after any sequence of events, `isWebSocketConnected` reports the latest connect or disconnect event from any client, or the prior value if there was none |
| WiFiEvents.NoServerNoBroadcast | src/wifi/WiFiManager.cpp:13-37 | when the manager began while WiFi was down, whatever events follow, a status broadcast emits nothing but BLE notifications |
| DeviceContext.PowerOn | src/DeviceContext.cpp:15-18 | before setup, the record is the default one, the flag is down and neither manager exists |
| DeviceContext.RestoreTransport | src/DeviceContext.cpp:41-45 | a saved integer in 0..2 becomes the transport it encodes; any other integer keeps the prior transport |
| DeviceContext.Setup | src/DeviceContext.cpp:22-50 | setup creates both managers, starts the server iff WiFi is up, restores a saved transport in range, caches the MAC, and changes nothing else |
| DeviceContext.BootTransport | src/DeviceContext.cpp:41-45 | a fresh boot adopts a saved transport in range and is BLE otherwise; with nothing stored it is BLE |
| DeviceContext.SetTransport | src/DeviceContext.cpp:80-90 | selecting the current transport changes nothing and emits nothing; selecting another one changes only the transport field and the persisted last transport (which then reads back as its code), and tells the WiFi manager iff it exists |
| DeviceContext.SetTransportSurvivesReboot | src/DeviceContext.cpp:80-90 | after a transport change, the next boot restores the new transport |
| DeviceContext.OnWiFiConnected | src/DeviceContext.cpp:99-104 | the WiFi flag is set and the address is the local IP; nothing else changes |
| DeviceContext.OnWiFiDisconnected | src/DeviceContext.cpp:106-110 | the WiFi flag is cleared and the address is ""; nothing else changes |
| DeviceContext.OnBLEConnected | src/DeviceContext.cpp:112-115 | only the BLE flag changes, to true |
| DeviceContext.OnBLEDisconnected | src/DeviceContext.cpp:117-120 | only the BLE flag changes, to false |
| DeviceContext.BleFlagFollowsLatest | src/DeviceContext.cpp:112-120 | after a connect then a disconnect the flag is down, and the other way round it is up; no other field changes |
| DeviceContext.RequestStatusBroadcast | src/DeviceContext.cpp:124-126 | the flag is raised and nothing else changes |
| DeviceContext.RequestsCoalesce | src/DeviceContext.cpp:124-126 | any positive number of requests has the same effect as one |
| DeviceContext.RefreshDeviceStats | src/DeviceContext.cpp:128-135 | battery becomes 100, charging false, the WiFi flag follows the radio, the address is "" unless WiFi is up; all other fields are kept |
| DeviceContext.BroadcastStats | src/DeviceContext.cpp:165-176 | the stats are refreshed; the snapshot of the refreshed stats goes to BLE iff a BLE client is connected and the manager exists, and to the WebSocket iff the transport is not BLE and the WiFi manager would send; nothing else is emitted |
| DeviceContext.BroadcastNowhere | src/DeviceContext.cpp:165-176 | with no BLE client and transport BLE, a broadcast sends nothing and completes normally |
| DeviceContext.Loop | src/DeviceContext.cpp:66-70 | a pass broadcasts iff the flag was up, and always leaves the flag down; without a request it changes nothing |
| DeviceContext.OneBroadcastPerBurst | src/DeviceContext.cpp:52-72 | however many requests precede a pass, that pass broadcasts once, and the next pass without a request broadcasts nothing |
| Commands.RequestType | src/ble/BLECallbacks.cpp:22-37 | a request type is seen iff the write is non-empty, parsed, and carries a string `requestType` |
| Commands.SetIntensity | src/ble/BLECallbacks.cpp:42-44 | the received intensity is stored unchanged, with no clamping, and nothing else changes |
| BleCallbacks.OnConnect | src/ble/BLECallbacks.cpp:11-14 | only the BLE connected flag changes, to true |
| BleCallbacks.OnDisconnect | src/ble/BLECallbacks.cpp:16-19 | only the BLE connected flag changes, to false |
| BleCallbacks.Attempts | src/ble/BLECallbacks.cpp:55-60 | the poll waits at most 20 times, stops at the first read reporting connected, and every read before that reported not connected |
| BleCallbacks.ConnectPoll | src/ble/BLECallbacks.cpp:53-62 | the loop waits at most 20 times; it stops early only on a connected read; the outcome is the status read after the loop |
| BleCallbacks.SwitchTransport | src/ble/BLECallbacks.cpp:72-95 | the flag is always raised; "BLE", "WIFI" and "REMOTE" select their transport and any other or missing name keeps it; the server address changes only on a switch to REMOTE that carries one; storage is untouched |
| BleCallbacks.SwitchTransportAsWritten | src/ble/BLECallbacks.cpp:79-80 | as written, the handler faults exactly when the command has no string `transport`, and otherwise agrees with the corrected handler |
| BleCallbacks.MissingTransportFaults | src/ble/BLECallbacks.cpp:79-80 | a SWITCH_TRANSPORT without a transport faults as written, and the corrected handler only raises the flag |
| BleCallbacks.SwitchConfirmationFollowsNewTransport | src/ble/BLECallbacks.cpp:76-81 | the status raised by a switch is sent by the next `loop` pass on the new transport: leaving WIFI for BLE, nothing reaches the connected WebSocket client, although a request made before the switch would have |
| BleCallbacks.OnWrite | src/ble/BLECallbacks.cpp:21-96 | empty, unparseable or untyped writes change nothing; STATUS only raises the flag; INTENSITY only stores the value; WIFI_CREDENTIALS starts a connection, and saves the credentials and raises the flag iff the poll ends connected, and otherwise changes nothing; SWITCH_TRANSPORT as above; other types change nothing |
| StatsCharacteristic.OnWrite | src/ble/StatsCharacteristicHandler.cpp:6-11 | the flag is up afterwards iff it was up or the value is exactly "STATUS"; nothing else changes, and the flag is never cleared |
| StatsCharacteristic.WriteIdempotent | src/ble/StatsCharacteristicHandler.cpp:6-11 | writing the same value twice has the effect of writing it once |
| StatsCharacteristic.NearMissesIgnored | src/ble/StatsCharacteristicHandler.cpp:8 | "", "status" and "STATUS " leave the state unchanged |

## Findings

| source | as written | input that shows it | evidently intended | confidence | as-written member | corrected member |
|---|---|---|---|---|---|---|
| src/ble/BLECallbacks.cpp:79-80 | `doc["transport"]` is passed to `strcmp` without a null check | the BLE write `{"requestType":"SWITCH_TRANSPORT"}` (no `transport`, or a non-string one): `strcmp(NULL, "BLE")` reads address 0 | a missing transport is ignored like an unknown name, leaving only the raised status flag | not executed; high: the null read is undefined behaviour and faults on the target | BleCallbacks.SwitchTransportAsWritten | BleCallbacks.SwitchTransport |

The dispatcher `BleCallbacks.OnWrite` uses the corrected handler.

## Left out

- Serial logging, pin setup, the PWM write of the intensity, and the LED that tracks the BLE flag. These are hardware side effects.
- BLE stack bring-up, advertising, UUIDs and the notify call (src/ble/BLEManager.cpp). A notification is the `BleNotify` effect. `BLEManager::isConnected` only reads the BLE flag.
- The advertised device name built in `setup` from the stored name and a base64 of the MAC. base64 is a library call.
- Creation of the WebSocketsServer, its heartbeat, `webSocket->loop` and `WiFiManager::loop`. These are library plumbing. Of the static-instance wrapper only its null-instance guard is modelled.
- BLE callbacks as concurrent code: `onConnect`, `onDisconnect` and `onWrite` run on the Bluetooth task, concurrently with `loop`, including during the 10 s connect poll. They are modelled as atomic steps between two passes of `loop`; races on `deviceStats` and `statusRequested` are not modelled.
- The intent, stated in a comment of the SWITCH_TRANSPORT branch (src/ble/BLECallbacks.cpp:76), to send the status on the old transport before switching. The code only raises the flag before overwriting the transport, so the status goes out on the new transport; the model follows the code, and `BleCallbacks.SwitchConfirmationFollowsNewTransport` states the consequence.
- The interleaving inside `loop`: WebSocket events that `webSocket->loop` delivers during a pass are modelled as separate `WiFiEvents` calls before `DeviceContext.Loop`.
- Hex.ToHex: assumes the Arduino core renders `String(value, HEX)` with lower-case digits.
- `handleTransportChange`: its implementation is not part of this model. It appears only as the `TransportChanged` effect.
- WiFi driver calls (`WiFi.begin`, `WiFi.status`, `localIP`, `macAddress`, the eFuse MAC). Their results are parameters. `WiFi.begin` is an effect.
- The 500 ms delays in the connect poll. Only the bound on iterations is modelled.
- JSON parsing and serialisation, including the key order of the serialised status. The status is a key-to-value map.
- Commands.Doc: ArduinoJson's conversion of a missing or non-integer `intensity` is not modelled. `Doc.intensity` is the integer the conversion produces.
- BleCallbacks.OnWrite: dispatches SWITCH_TRANSPORT to the corrected `BleCallbacks.SwitchTransport`, so a command without a string `transport` completes with only the status flag raised, where the code as written faults (see "## Findings"; the faulting behaviour is `BleCallbacks.SwitchTransportAsWritten`).
- BleCallbacks.OnWrite: a WIFI_CREDENTIALS command without a string `ssid` or `password` is not modelled. These are null pointers handed to the WiFi driver and to storage; the model's `Doc` carries both as strings.
- Preferences internals: the handle open/close calls, failures to open a namespace, and type-mismatch rules beyond "a read of the wrong type yields the default".
- The transport `switch` in `buildStatusJson` has a `default` branch for out-of-range enum values. In the model a transport is always one of the three values, so only BLE reaches that branch.
- The accessors `getStats`, `getTransport`, `getWiFiManager` and `getBLEManager`, and src/main.cpp. They only forward or return fields.
