/**
 * The configuration facade (src/ConfigManager.cpp): every key it owns lives
 * in the "openvibe" namespace of the flash.
 */
module ConfigManager {
  import opened DeviceStats
  import opened Preferences

  const NS: string := "openvibe"

  const SSID_KEY: string := "wifi_ssid"
  const PASS_KEY: string := "wifi_pass"
  const NAME_KEY: string := "dev_name"
  const TRANSPORT_KEY: string := "transport"
  const REMOTE_KEY: string := "remote_url"

  const DEFAULT_NAME: string := "OpenVibe"

  function SetWiFiCredentials(f: Flash, ssid: string, password: string): (g: Flash)
    ensures GetWiFiSSID(g) == ssid && GetWiFiPassword(g) == password
    ensures SameExcept(f, g, NS, {SSID_KEY, PASS_KEY})
  {
    var f1 := PutString(f, NS, SSID_KEY, ssid);
    var g := PutString(f1, NS, PASS_KEY, password);
    ReadsFramed(f1, g, NS, {PASS_KEY}, NS, SSID_KEY);
    SameExceptTrans(f, f1, g, NS, {SSID_KEY}, {PASS_KEY});
    g
  }

  function GetWiFiSSID(f: Flash): (v: string)
    ensures HoldsString(f, NS, SSID_KEY) ==> v == Space(f, NS)[SSID_KEY].s
    ensures !HoldsString(f, NS, SSID_KEY) ==> v == ""
  {
    GetString(f, NS, SSID_KEY, "")
  }

  function GetWiFiPassword(f: Flash): (v: string)
    ensures HoldsString(f, NS, PASS_KEY) ==> v == Space(f, NS)[PASS_KEY].s
    ensures !HoldsString(f, NS, PASS_KEY) ==> v == ""
  {
    GetString(f, NS, PASS_KEY, "")
  }

  /** Credentials count as present exactly when a non-empty SSID string is stored. */
  function HasWiFiCredentials(f: Flash): (b: bool)
    ensures b <==> HoldsString(f, NS, SSID_KEY) && Space(f, NS)[SSID_KEY].s != ""
  {
    GetWiFiSSID(f) != ""
  }

  /** Credentials are present after a store exactly when the stored SSID is non-empty. */
  lemma HasCredentialsAfterSet(f: Flash, ssid: string, password: string)
    ensures HasWiFiCredentials(SetWiFiCredentials(f, ssid, password)) <==> ssid != ""
  {
  }

  function ClearWiFiCredentials(f: Flash): (g: Flash)
    ensures GetWiFiSSID(g) == "" && GetWiFiPassword(g) == ""
    ensures !HasWiFiCredentials(g)
    ensures SameExcept(f, g, NS, {SSID_KEY, PASS_KEY})
  {
    var f1 := Remove(f, NS, SSID_KEY);
    var g := Remove(f1, NS, PASS_KEY);
    ReadsFramed(f1, g, NS, {PASS_KEY}, NS, SSID_KEY);
    SameExceptTrans(f, f1, g, NS, {SSID_KEY}, {PASS_KEY});
    g
  }

  function SetDeviceName(f: Flash, name: string): (g: Flash)
    ensures GetDeviceName(g) == name
    ensures SameExcept(f, g, NS, {NAME_KEY})
  {
    PutString(f, NS, NAME_KEY, name)
  }

  function GetDeviceName(f: Flash): (v: string)
    ensures HoldsString(f, NS, NAME_KEY) ==> v == Space(f, NS)[NAME_KEY].s
    ensures !HoldsString(f, NS, NAME_KEY) ==> v == DEFAULT_NAME
  {
    GetString(f, NS, NAME_KEY, DEFAULT_NAME)
  }

  function SetLastTransport(f: Flash, transport: Int32): (g: Flash)
    ensures GetLastTransport(g) == transport
    ensures SameExcept(f, g, NS, {TRANSPORT_KEY})
  {
    PutInt(f, NS, TRANSPORT_KEY, transport)
  }

  function GetLastTransport(f: Flash): (v: Int32)
    ensures HoldsInt(f, NS, TRANSPORT_KEY) ==> v == Space(f, NS)[TRANSPORT_KEY].i
    ensures !HoldsInt(f, NS, TRANSPORT_KEY) ==> v == 0
  {
    GetInt(f, NS, TRANSPORT_KEY, 0)
  }

  function SetRemoteServer(f: Flash, url: string): (g: Flash)
    ensures GetRemoteServer(g) == url
    ensures SameExcept(f, g, NS, {REMOTE_KEY})
  {
    PutString(f, NS, REMOTE_KEY, url)
  }

  function GetRemoteServer(f: Flash): (v: string)
    ensures HoldsString(f, NS, REMOTE_KEY) ==> v == Space(f, NS)[REMOTE_KEY].s
    ensures !HoldsString(f, NS, REMOTE_KEY) ==> v == ""
  {
    GetString(f, NS, REMOTE_KEY, "")
  }

  /** Every value the facade reads back, as one record. */
  datatype Settings = Settings(ssid: string, password: string, name: string, transport: Int32, remote: string)

  function Read(f: Flash): Settings {
    Settings(GetWiFiSSID(f), GetWiFiPassword(f), GetDeviceName(f), GetLastTransport(f), GetRemoteServer(f))
  }

  /** A change confined to some keys of "openvibe" leaves the settings stored under other keys as they were. */
  lemma ReadFramed(f: Flash, g: Flash, keys: set<string>)
    requires SameExcept(f, g, NS, keys)
    ensures SSID_KEY !in keys ==> GetWiFiSSID(g) == GetWiFiSSID(f)
    ensures PASS_KEY !in keys ==> GetWiFiPassword(g) == GetWiFiPassword(f)
    ensures NAME_KEY !in keys ==> GetDeviceName(g) == GetDeviceName(f)
    ensures TRANSPORT_KEY !in keys ==> GetLastTransport(g) == GetLastTransport(f)
    ensures REMOTE_KEY !in keys ==> GetRemoteServer(g) == GetRemoteServer(f)
  {
    if SSID_KEY !in keys { ReadsFramed(f, g, NS, keys, NS, SSID_KEY); }
    if PASS_KEY !in keys { ReadsFramed(f, g, NS, keys, NS, PASS_KEY); }
    if NAME_KEY !in keys { ReadsFramed(f, g, NS, keys, NS, NAME_KEY); }
    if TRANSPORT_KEY !in keys { ReadsFramed(f, g, NS, keys, NS, TRANSPORT_KEY); }
    if REMOTE_KEY !in keys { ReadsFramed(f, g, NS, keys, NS, REMOTE_KEY); }
  }

  /** Each setter and the clear change exactly their own settings and leave the others as they were. */
  lemma SettersIndependent(f: Flash, ssid: string, password: string, name: string, transport: Int32, url: string)
    ensures Read(SetWiFiCredentials(f, ssid, password)) == Read(f).(ssid := ssid, password := password)
    ensures Read(ClearWiFiCredentials(f)) == Read(f).(ssid := "", password := "")
    ensures Read(SetDeviceName(f, name)) == Read(f).(name := name)
    ensures Read(SetLastTransport(f, transport)) == Read(f).(transport := transport)
    ensures Read(SetRemoteServer(f, url)) == Read(f).(remote := url)
  {
    ReadFramed(f, SetWiFiCredentials(f, ssid, password), {SSID_KEY, PASS_KEY});
    ReadFramed(f, ClearWiFiCredentials(f), {SSID_KEY, PASS_KEY});
    ReadFramed(f, SetDeviceName(f, name), {NAME_KEY});
    ReadFramed(f, SetLastTransport(f, transport), {TRANSPORT_KEY});
    ReadFramed(f, SetRemoteServer(f, url), {REMOTE_KEY});
  }
}
