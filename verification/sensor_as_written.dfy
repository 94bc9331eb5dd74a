/** The two Down Devices properties of sensor.py as they are written: they
    read `device_name`, `tier` and `timeout` from the coordinator's
    `DeviceHealth` records, which have only `device_id`, `down`, `reason`
    and `last_ok`. Reading a missing attribute raises, so the text fails
    as soon as one device is down and the attribute map fails as soon as
    there is any entry. `DownSensors` models the evidently intended
    behaviour over records that do carry the three fields. */
module SensorsAsWritten {
  import opened Wrappers
  import opened Health
  import Strings

  /** The outcome of evaluating an expression that reads attributes. */
  datatype Read<T> = Value(value: T) | AttributeError(name: string)

  /** The attributes a `DeviceHealth` has. */
  const HealthFields: set<string> := {"device_id", "down", "reason", "last_ok"}

  /** `str(getattr(h, name))`: the text of a field the record has, an
      attribute error for any other name. */
  function ReadText(h: DeviceHealth, name: string): (r: Read<string>)
    ensures r.AttributeError? <==> name !in HealthFields
    ensures r.AttributeError? ==> r.name == name
    ensures name == "device_id" ==> r == Value(h.deviceId)
    ensures name == "down" ==> r == Value(if h.down then "True" else "False")
  {
    if name == "device_id" then Value(h.deviceId)
    else if name == "down" then Value(if h.down then "True" else "False")
    else if name == "reason" then Value(h.reason.Code())
    else if name == "last_ok" then Value(if h.lastOk.Some? then Strings.IntToDecimal(h.lastOk.value) else "None")
    else AttributeError(name)
  }

  /** `f"{h.device_name} ({h.tier}, {h.timeout}m)"`, reads left to right. */
  function FragmentAsWritten(h: DeviceHealth): Read<string> {
    match ReadText(h, "device_name")
    case AttributeError(n) => AttributeError(n)
    case Value(name) =>
      match ReadText(h, "tier")
      case AttributeError(n) => AttributeError(n)
      case Value(tier) =>
        match ReadText(h, "timeout")
        case AttributeError(n) => AttributeError(n)
        case Value(timeout) => Value(name + " (" + tier + ", " + timeout + "m)")
  }

  /** The fragments of the down entries of `s`, stopping at the first error. */
  function DownFragments(s: seq<DeviceHealth>): (r: Read<seq<string>>)
    ensures r.AttributeError? <==> exists i :: 0 <= i < |s| && s[i].down
    ensures r.Value? ==> r.value == []
  {
    if s == [] then Value([])
    else if !s[0].down then
      var rest := DownFragments(s[1..]);
      assert forall i :: 0 < i < |s| ==> s[i] == s[1..][i - 1];
      rest
    else
      var rest := DownFragments(s[1..]);
      match FragmentAsWritten(s[0])
      case AttributeError(n) => AttributeError(n)
      case Value(f) =>
        match rest
        case AttributeError(n) => AttributeError(n)
        case Value(fs) => Value([f] + fs)
  }

  /** Down Devices `native_value` as written: fails exactly when some entry
      is down, and is the empty string otherwise. */
  function DownDevicesTextAsWritten(data: Option<seq<DeviceHealth>>): (r: Read<string>)
    ensures r.AttributeError? <==> exists i :: 0 <= i < |data.GetOr([])| && data.GetOr([])[i].down
    ensures r.Value? ==> r.value == ""
  {
    match DownFragments(data.GetOr([]))
    case AttributeError(n) => AttributeError(n)
    case Value(fs) => Value(if fs != [] then Strings.Join(fs, ", ") else "")
  }

  /** Down Devices `extra_state_attributes` as written: the value of the
      first key already reads `h.device_name`. */
  function DownDevicesAttributesAsWritten(data: Option<seq<DeviceHealth>>): (r: Read<map<string, string>>)
    ensures r.AttributeError? <==> |data.GetOr([])| > 0
  {
    var s := data.GetOr([]);
    if s == [] then Value(map[])
    else
      var h := s[0];
      match ReadText(h, "device_name")
      case AttributeError(n) => AttributeError(n)
      case Value(name) => Value(map[h.deviceId := name])
  }

  /** One device down is enough for the text to raise. */
  lemma OneDownDeviceBreaksTheText()
    ensures DownDevicesTextAsWritten(Some([DeviceHealth("x", true, Timeout, None)])) == AttributeError("device_name")
  {
    var s := [DeviceHealth("x", true, Timeout, None)];
    assert s[1..] == [];
  }

  /** Any published entry is enough for the attribute map to raise. */
  lemma OneEntryBreaksTheAttributes()
    ensures DownDevicesAttributesAsWritten(Some([DeviceHealth("x", false, Ok, Some(0))])) == AttributeError("device_name")
  {
  }
}
