/** The legacy stats-characteristic write handler (src/ble/StatsCharacteristicHandler.cpp). */
module StatsCharacteristic {
  import opened DeviceContext

  /** Only a write of exactly "STATUS" raises the status flag; nothing ever clears it here. */
  function OnWrite(d: Device, value: string): (r: Device)
    ensures r.statusRequested <==> d.statusRequested || value == "STATUS"
    ensures r.(statusRequested := d.statusRequested) == d
  {
    if value == "STATUS" then d.(statusRequested := true) else d
  }

  /** Writing the same value twice has the effect of writing it once. */
  lemma WriteIdempotent(d: Device, value: string)
    ensures OnWrite(OnWrite(d, value), value) == OnWrite(d, value)
  {
  }

  /** Near misses of the exact command leave the state alone. */
  lemma NearMissesIgnored(d: Device)
    ensures OnWrite(d, "") == d && OnWrite(d, "status") == d && OnWrite(d, "STATUS ") == d
  {
  }
}
