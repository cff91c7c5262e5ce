/**
 * The older credential helper (src/wifi/WiFiCredentials.cpp): SSID and
 * password under the keys "ssid" and "password" of the "wifi" namespace.
 */
module WiFiCredentials {
  import opened Preferences
  import ConfigManager

  const NS: string := "wifi"

  const SSID_KEY: string := "ssid"
  const PASS_KEY: string := "password"

  /** The two out-parameters of `load` and its boolean result. */
  datatype Loaded = Loaded(ok: bool, ssid: string, password: string)

  function Save(f: Flash, ssid: string, password: string): (g: Flash)
    ensures Load(g) == Loaded(ssid != "", ssid, password)
    ensures SameExcept(f, g, NS, {SSID_KEY, PASS_KEY})
  {
    var f1 := PutString(f, NS, SSID_KEY, ssid);
    var g := PutString(f1, NS, PASS_KEY, password);
    ReadsFramed(f1, g, NS, {PASS_KEY}, NS, SSID_KEY);
    SameExceptTrans(f, f1, g, NS, {SSID_KEY}, {PASS_KEY});
    g
  }

  function Load(f: Flash): (r: Loaded)
    ensures r.ok <==> r.ssid != ""
    ensures r.ssid == (if HoldsString(f, NS, SSID_KEY) then Space(f, NS)[SSID_KEY].s else "")
    ensures r.password == (if HoldsString(f, NS, PASS_KEY) then Space(f, NS)[PASS_KEY].s else "")
    ensures Space(f, NS) == map[] ==> r == Loaded(false, "", "")
  {
    var ssid := GetString(f, NS, SSID_KEY, "");
    var password := GetString(f, NS, PASS_KEY, "");
    Loaded(|ssid| > 0, ssid, password)
  }

  /** Wipes the whole namespace, not only the two keys. */
  function Clear(f: Flash): (g: Flash)
    ensures Space(g, NS) == map[]
    ensures !Load(g).ok && Load(g) == Loaded(false, "", "")
    ensures forall n :: n != NS ==> Space(g, n) == Space(f, n)
  {
    Preferences.Clear(f, NS)
  }

  /**
   * Saving here does not touch the configuration facade's namespace: every
   * setting it reads back, in particular whether credentials are present,
   * is as before.
   */
  lemma SaveLeavesConfig(f: Flash, ssid: string, password: string)
    ensures ConfigManager.Read(Save(f, ssid, password)) == ConfigManager.Read(f)
    ensures ConfigManager.HasWiFiCredentials(Save(f, ssid, password)) == ConfigManager.HasWiFiCredentials(f)
  {
  }
}
