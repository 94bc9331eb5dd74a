/** What a verdict change sends out (`_notify_transition` and
    `_maybe_notify`, coordinator.py), as abstract effect records. */
module Notify {
  import opened Wrappers
  import opened Registry
  import opened Config
  import opened Health
  import Strings

  const Title: string := "Device Saver"
  const DefaultNotifyDomain: string := "notify"
  const EventDeviceDown: string := "device_saver_device_down"
  const EventDeviceRecovered: string := "device_saver_device_recovered"

  /** The two message texts, kept abstract: the device's display name and,
      for a failure, the reason code. */
  datatype Message = DownMessage(name: string, reasonCode: string) | RecoveredMessage(name: string)

  /** One externally visible effect. */
  datatype Effect =
    | Create(notificationId: string, title: string, message: Message)              // persistent_notification.create
    | Dismiss(notificationId: string)                                              // persistent_notification.dismiss
    | Outbound(domain: string, service: string, title: string, message: Message)  // the configured notify service
    | Fire(eventType: string, deviceId: DeviceId, deviceName: string, reason: Option<string>) // an event on the bus

  /** The id of the persistent notification kept for device `d`. */
  function NotificationId(entryId: string, d: DeviceId): string {
    Domain + "_" + entryId + "_" + d
  }

  /** Within one config entry, different devices get different notifications. */
  lemma NotificationIdInjective(entryId: string, d: DeviceId, d': DeviceId)
    requires NotificationId(entryId, d) == NotificationId(entryId, d')
    ensures d == d'
  {
    var prefix := Domain + "_" + entryId + "_";
    assert NotificationId(entryId, d) == prefix + d;
    assert NotificationId(entryId, d') == prefix + d';
    assert d == (prefix + d)[|prefix|..];
    assert d' == (prefix + d')[|prefix|..];
  }

  /** `_maybe_notify`: nothing for an empty address; otherwise one call,
      addressed `domain.service` split at the first dot, or to the service
      of that name in the `notify` domain when there is no dot. */
  function MaybeNotify(address: string, title: string, message: Message): (r: seq<Effect>)
    ensures address == "" <==> r == []
    ensures address != "" ==> |r| == 1 && r[0].Outbound? && r[0].title == title && r[0].message == message
    ensures address != "" && '.' in address ==>
              r[0].domain + "." + r[0].service == address && '.' !in r[0].domain
    ensures address != "" && '.' !in address ==>
              r[0].domain == DefaultNotifyDomain && r[0].service == address
  {
    if address == "" then []
    else if '.' in address then
      var parts := Strings.SplitAtFirst(address, '.');
      [Outbound(parts.0, parts.1, title, message)]
    else
      [Outbound(DefaultNotifyDomain, address, title, message)]
  }

  /** `_notify_transition`: on a failure, create the device's notification,
      maybe forward the message, and fire the down event; on a recovery,
      dismiss it, forward a recovery message only when `notify_recovered`
      is set, and fire the recovered event. */
  function NotifyTransition(entry: ConfigEntry, devices: DeviceRegistry, d: DeviceId, down: bool,
                            health: DeviceHealth): (r: seq<Effect>)
    requires WellTyped(entry)
    ensures var id := NotificationId(entry.entryId, d);
            var name := DeviceName(devices, d);
            && 2 <= |r| <= 3
            && (down ==> r[0] == Create(id, Title, DownMessage(name, health.reason.Code()))
                         && r[|r| - 1] == Fire(EventDeviceDown, d, name, Some(health.reason.Code())))
            && (!down ==> r[0] == Dismiss(id)
                          && r[|r| - 1] == Fire(EventDeviceRecovered, d, name, None))
    ensures |r| == 3 <==> NotifyService(entry) != "" && (down || NotifyRecovered(entry))
    ensures |r| == 3 ==> r[1].Outbound? && r[1] == MaybeNotify(NotifyService(entry), Title, r[1].message)[0]
    ensures |r| == 3 && down ==> r[1].message == r[0].message
    ensures |r| == 3 && !down ==> r[1].message == RecoveredMessage(DeviceName(devices, d))
  {
    var name := DeviceName(devices, d);
    var id := NotificationId(entry.entryId, d);
    var service := NotifyService(entry);
    if down then
      var msg := DownMessage(name, health.reason.Code());
      [Create(id, Title, msg)] + MaybeNotify(service, Title, msg)
        + [Fire(EventDeviceDown, d, name, Some(health.reason.Code()))]
    else
      [Dismiss(id)]
        + (if NotifyRecovered(entry) then MaybeNotify(service, Title, RecoveredMessage(name)) else [])
        + [Fire(EventDeviceRecovered, d, name, None)]
  }

  /** The create (true) and dismiss (false) calls for notification `id`,
      in order. */
  function Marks(effects: seq<Effect>, id: string): seq<bool> {
    if effects == [] then [] else MarkOf(effects[0], id) + Marks(effects[1..], id)
  }

  function MarkOf(e: Effect, id: string): seq<bool> {
    match e
    case Create(n, _, _) => if n == id then [true] else []
    case Dismiss(n) => if n == id then [false] else []
    case _ => []
  }

  lemma {:induction false} MarksAppend(a: seq<Effect>, b: seq<Effect>, id: string)
    ensures Marks(a + b, id) == Marks(a, id) + Marks(b, id)
  {
    if a != [] {
      assert (a + b)[0] == a[0] && (a + b)[1..] == a[1..] + b;
      MarksAppend(a[1..], b, id);
    } else {
      assert a + b == b;
    }
  }

  /** A transition of `d` touches only `d`'s notification, once, in the
      direction of the new verdict. */
  lemma MarksOfTransition(entry: ConfigEntry, devices: DeviceRegistry, d: DeviceId, down: bool,
                          health: DeviceHealth, id: string)
    requires WellTyped(entry)
    ensures Marks(NotifyTransition(entry, devices, d, down, health), id)
            == (if id == NotificationId(entry.entryId, d) then [down] else [])
  {
    if down {
      MarksOfFailure(entry, devices, d, health, id);
    } else {
      MarksOfRecovery(entry, devices, d, health, id);
    }
  }

  lemma MarksOfFailure(entry: ConfigEntry, devices: DeviceRegistry, d: DeviceId, health: DeviceHealth, id: string)
    requires WellTyped(entry)
    ensures Marks(NotifyTransition(entry, devices, d, true, health), id)
            == (if id == NotificationId(entry.entryId, d) then [true] else [])
  {
    var name := DeviceName(devices, d);
    var msg := DownMessage(name, health.reason.Code());
    MarksBetween(Create(NotificationId(entry.entryId, d), Title, msg), MaybeNotify(NotifyService(entry), Title, msg),
                 Fire(EventDeviceDown, d, name, Some(health.reason.Code())), id);
  }

  lemma MarksOfRecovery(entry: ConfigEntry, devices: DeviceRegistry, d: DeviceId, health: DeviceHealth, id: string)
    requires WellTyped(entry)
    ensures Marks(NotifyTransition(entry, devices, d, false, health), id)
            == (if id == NotificationId(entry.entryId, d) then [false] else [])
  {
    var name := DeviceName(devices, d);
    var middle := if NotifyRecovered(entry) then MaybeNotify(NotifyService(entry), Title, RecoveredMessage(name)) else [];
    MarksBetween(Dismiss(NotificationId(entry.entryId, d)), middle, Fire(EventDeviceRecovered, d, name, None), id);
  }

  /** The marks of a call, some outbound calls and an event are the marks
      of the first call. */
  lemma MarksBetween(first: Effect, middle: seq<Effect>, last: Effect, id: string)
    requires forall i :: 0 <= i < |middle| ==> middle[i].Outbound?
    requires last.Fire?
    ensures Marks([first] + middle + [last], id) == MarkOf(first, id)
  {
    MarksAppend([first] + middle, [last], id);
    MarksAppend([first], middle, id);
    MarksOfOutbounds(middle, id);
    assert Marks([last], id) == [];
    assert Marks([first], id) == MarkOf(first, id);
  }

  /** Outbound calls and events touch no notification. */
  lemma {:induction false} MarksOfOutbounds(effects: seq<Effect>, id: string)
    requires forall i :: 0 <= i < |effects| ==> effects[i].Outbound?
    ensures Marks(effects, id) == []
  {
    if effects != [] {
      MarksOfOutbounds(effects[1..], id);
    }
  }
}
