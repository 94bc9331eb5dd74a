/** The config entry of one Device Saver instance (coordinator.py
    `_cfg`, `_watched_devices`, `_timeout`, and the two notification
    settings read by `_notify_transition`), with the constants of const.py. */
module Config {
  import opened Wrappers
  import Strings

  const Domain: string := "device_saver"

  const KeyDevices: string := "devices"
  const KeyTimeoutMinutes: string := "timeout_minutes"
  const KeyNotifyService: string := "notify_service"
  const KeyNotifyRecovered: string := "notify_recovered"

  const DefaultTimeoutMinutes: int := 10
  const DefaultNotifyRecovered: bool := true

  /** The range the configuration form accepts for the timeout, in minutes. */
  const MinTimeoutMinutes: int := 1
  const MaxTimeoutMinutes: int := 10080

  /** A value stored in the entry's `data` or `options`. */
  datatype Value =
    | Devices(ids: seq<string>)
    | Number(n: int)
    | Str(s: string)
    | Flag(b: bool)
    | Null

  /** Python truthiness of a stored value. */
  predicate Truthy(v: Value) {
    match v
    case Devices(ids) => |ids| > 0
    case Number(n) => n != 0
    case Str(s) => s != ""
    case Flag(b) => b
    case Null => false
  }

  /** A config entry: its id, the data written at setup and the options
      written by later edits. */
  datatype ConfigEntry = ConfigEntry(entryId: string, data: map<string, Value>, options: map<string, Value>)

  /** `_cfg(key, default)`: options win over data; the default is used only
      when neither holds the key. It is the lookup in the merged view
      `{**data, **options}` that the options form also shows. */
  function Lookup(e: ConfigEntry, key: string, default: Value): (v: Value)
    ensures key in e.options ==> v == e.options[key]
    ensures key !in e.options && key in e.data ==> v == e.data[key]
    ensures v == (var merged := e.data + e.options; if key in merged then merged[key] else default)
  {
    if key in e.options then e.options[key]
    else if key in e.data then e.data[key]
    else default
  }

  /** The shapes the configuration form stores, plus a falsy notify service
      of any type, which `_notify_transition` turns into "". Other shapes
      make the accessors raise or convert them silently; neither is
      modelled. */
  predicate WellTyped(e: ConfigEntry) {
    && Lookup(e, KeyDevices, Devices([])).Devices?
    && Lookup(e, KeyTimeoutMinutes, Number(DefaultTimeoutMinutes)).Number?
    && (var v := Lookup(e, KeyNotifyService, Str("")); v.Str? || !Truthy(v))
  }

  /** `_watched_devices()`: the configured device ids, in order. */
  function Watched(e: ConfigEntry): (r: seq<string>)
    requires WellTyped(e)
    ensures KeyDevices in e.options ==> r == e.options[KeyDevices].ids
    ensures KeyDevices !in e.options && KeyDevices in e.data ==> r == e.data[KeyDevices].ids
    ensures KeyDevices !in e.options && KeyDevices !in e.data ==> r == []
  {
    Lookup(e, KeyDevices, Devices([])).ids
  }

  /** `_timeout()`: the configured minutes (10 by default) as seconds. */
  function TimeoutSeconds(e: ConfigEntry): (t: int)
    requires WellTyped(e)
    ensures KeyTimeoutMinutes !in e.options && KeyTimeoutMinutes !in e.data ==> t == 600
    // a whole number of minutes, and that number is the configured one
    ensures t % 60 == 0 && t / 60 == Lookup(e, KeyTimeoutMinutes, Number(DefaultTimeoutMinutes)).n
    ensures var m := Lookup(e, KeyTimeoutMinutes, Number(DefaultTimeoutMinutes)).n;
            MinTimeoutMinutes <= m <= MaxTimeoutMinutes ==> 60 <= t <= 604800
  {
    Lookup(e, KeyTimeoutMinutes, Number(DefaultTimeoutMinutes)).n * 60
  }

  /** `(_cfg(notify_service, "") or "").strip()`: the outbound service
      address without surrounding white space; empty when unset. */
  function NotifyService(e: ConfigEntry): (r: string)
    requires WellTyped(e)
    ensures var v := Lookup(e, KeyNotifyService, Str(""));
            && (!Truthy(v) ==> r == "")
            && (Truthy(v) ==> Strings.IsStripOf(r, v.s))
    ensures r == "" || (!Strings.IsSpace(r[0]) && !Strings.IsSpace(r[|r| - 1]))
  {
    var v := Lookup(e, KeyNotifyService, Str(""));
    if Truthy(v) then Strings.Strip(v.s) else ""
  }

  /** `bool(_cfg(notify_recovered, True))`. */
  function NotifyRecovered(e: ConfigEntry): (b: bool)
    ensures KeyNotifyRecovered !in e.options && KeyNotifyRecovered !in e.data ==> b
    ensures KeyNotifyRecovered in e.options && e.options[KeyNotifyRecovered] == Flag(false) ==> !b
  {
    Truthy(Lookup(e, KeyNotifyRecovered, Flag(DefaultNotifyRecovered)))
  }
}
