# Device Saver — a Dafny model of the health coordinator

Device Saver is a Home Assistant integration. It watches a configured list
of devices and decides, every 30 seconds, whether each one is still
reporting. A device counts as reporting when at least one of its entities
is in a state other than `unavailable` or `unknown`. When a device's
verdict flips, the integration does three things:

- it creates or dismisses a persistent notification;
- it may forward a message to a configured notify service;
- it fires a `device_saver_device_down` or `device_saver_device_recovered` event.

Two platforms summarise the coordinator's published snapshot:

- a "Problem" binary sensor;
- "Down Count" and "Down Devices" sensors.

This project models that core as pure functions over immutable data:

- `Config` covers the options-over-data lookup `_cfg`, the timeout, the
  notify-service address and the recovery flag. Python truthiness and
  `str.strip` are modelled explicitly.
- `Registry` holds the device and entity registries and the state table,
  given as maps, and the display-name fallback chain.
- `Health` holds the per-device verdict of one update cycle: `no_entities`,
  `ok`, `never_ok`, `timeout` or `waiting`, plus the only-initialise rule
  for `last_ok`.
- `Coordinator` covers the state-event handler and the update cycle. Each
  is a step from the coordinator's state (`_last_ok` and `_down_state`) to
  a new state. The cycle also yields the published snapshot, an ordered
  dict modelled as a sequence, and the effects it sent.
- `Notify` covers `_notify_transition` and `_maybe_notify`. Their service
  calls and bus events are modelled as `Effect` records.
- `Trace` states properties over runs of several steps:
  - repeating a cycle is silent;
  - each device's notification is created and dismissed alternately;
  - a good report keeps a device up for one timeout;
  - without state events, update cycles never move a `last_ok` once set.
- `Scenario` holds worked runs of one device with one entity:
  - seen on at 0 and unavailable afterwards, it is reported down once,
    at 601 s;
  - seen off at 0, on from 650 s and unavailable at 701 s, it is reported
    down at 701 s with update cycles only, and stays up when the change at
    650 s arrives as a state event;
  - seen on from 0 s to 700 s and unavailable at 701 s, it is reported
    down at 701 s either way.
- `CallFailure` covers the update cycle when the configured notify
  service does not exist, so that the outbound call raises (see Findings).
- `ProblemSensor` and `DownSensors` cover the sensor aggregates.
  `SensorsAsWritten` covers the Down Devices sensor exactly as written
  (see Findings).
- `Strings`, `Seqs`, `Snapshot` and `Wrappers` are the supporting
  definitions.

## Behaviour of the code worth knowing

- The code uses one flat timeout, the configured number of minutes with 10
  as the default. There are no per-device tiers and no start-up grace
  period.
- A watched device with no entities is down at once, with reason
  `no_entities`.
- A device that has never reported good is down at once, with reason
  `never_ok`. There is no grace period for it either.
- A device is reported down only when strictly more than the timeout has
  passed since it last reported good (coordinator.py:130).
- The `last_ok` time advances only through state events. The update cycle
  only initialises it, the first time it sees a good entity (line 123).
  Home Assistant fires a `state_changed` event only when an entity's
  state or attributes change (or on a forced update), so an entity that
  stays good with neither changing never refreshes `last_ok`. The
  scenarios assume no attribute change and no forced update. Such a device is reported down at its first bad cycle once a
  timeout has passed since it was first seen good.
- The state-event subscription is made with an empty list of entity ids
  (coordinator.py:84), so in practice no state event reaches the handler
  (see Findings).
- No service call is guarded. If the configured notify service does not
  exist, the outbound call raises and ends the whole update cycle (see
  Findings).

## Model

| member | source | states |
|---|---|---|
| Config.Lookup | custom_components/device_saver/coordinator.py:55-58 | Options win over data, and the default is used only when neither holds the key. The result equals the lookup in the merged `{**data, **options}` view that the options form shows. |
| Config.Watched | custom_components/device_saver/coordinator.py:60-61 | The watched ids are the device list stored in the options, else the one in the data, else empty, in stored order. |
| Config.TimeoutSeconds | custom_components/device_saver/coordinator.py:63-65 | The timeout is a whole number of minutes, and that number is the configured one (10 when unset, so 600 s). For any minutes value the form accepts (1 to 10080), it lies between 60 s and 604800 s. |
| Config.NotifyService | custom_components/device_saver/coordinator.py:149 | The address is empty when the setting is unset or falsy. Otherwise it is the setting with surrounding Python white space stripped, so it never starts or ends with white space. |
| Config.NotifyRecovered | custom_components/device_saver/coordinator.py:150 | Recovery messages are on by default and off when the options hold `false`. |
| Registry.DeviceName | custom_components/device_saver/coordinator.py:67-71 | The display name falls back from the user-given name, to the registry name, to the device id, skipping empty names. It is never empty for a non-empty id. |
| Registry.EntitiesOf | custom_components/device_saver/coordinator.py:73-79 | An entity belongs to the device's set exactly when the entity registry maps it to that device. The set is empty exactly when no registry entry points at the device, which is the `not entity_ids` case. |
| Strings.Strip | custom_components/device_saver/coordinator.py:149 | The result is the maximal infix of the input without leading or trailing white space. It is empty exactly when the input is all white space. |
| Strings.SplitAtFirst | custom_components/device_saver/coordinator.py:181 | Splitting at the first separator rebuilds the input around the separator, and the first part has no separator. |
| Health.Evaluate | custom_components/device_saver/coordinator.py:109-131 | A device without entities is down with `no_entities`. A good entity makes it up with `ok`. Otherwise it is `never_ok` without a `last_ok`, else down exactly when more than the timeout has passed (`timeout`, else `waiting`). The reason always agrees with the verdict, and `last_ok` is only initialised, to now, for this device. |
| Coordinator.RefreshedDevice | custom_components/device_saver/coordinator.py:88-100 | An event refreshes a device exactly when it names a non-empty entity id that is in the registry and belongs to a watched device, and it carries a new state that is not bad. |
| Coordinator.HandleStateEvent | custom_components/device_saver/coordinator.py:88-100 | A refreshing event sets that device's `last_ok` to the event time. Any other event changes nothing. `_down_state` is never touched, and unwatched entries are kept. |
| Coordinator.Visit | custom_components/device_saver/coordinator.py:109-141 | One loop iteration publishes the device's verdict and `last_ok` and records the new verdict. It sends the transition's effects exactly when the verdict differs from the recorded one, and leaves every other device alone. |
| Coordinator.RunCycle | custom_components/device_saver/coordinator.py:107-143 | The loop leaves the recorded verdict and `last_ok` of every id it does not walk unchanged, and publishes at most one entry per id, never more entries than ids. |
| Coordinator.RunCycleMeetsSpec | custom_components/device_saver/coordinator.py:102-143 | The loop over the watched ids gives one snapshot entry per distinct id, in first-occurrence order. Each entry carries the verdict computed from the state at the start of the cycle. Recorded verdicts change for exactly the watched ids. Effects are sent exactly when some verdict changed, and they are those devices' transitions in order. |
| Coordinator.Update | custom_components/device_saver/coordinator.py:102-143 | A full cycle with the configured watched list and timeout meets the same properties: snapshot ids, per-entry verdicts, recorded verdicts, `last_ok`, and effects exactly on a change. |
| Notify.NotificationIdInjective | custom_components/device_saver/coordinator.py:147 | Within one entry, two devices never share a notification id. |
| Notify.MaybeNotify | custom_components/device_saver/coordinator.py:177-184 | An empty address sends nothing. Otherwise one outbound call goes out with the given title and message. The call is addressed `domain.service` split at the first dot, or to the `notify` domain when the address has no dot. |
| Notify.NotifyTransition | custom_components/device_saver/coordinator.py:145-175 | A failure creates the device's notification first and fires the down event, with the reason, last. A recovery dismisses the notification first and fires the recovered event last. An outbound message is sent in between exactly when a service is configured and it is a failure or recovery messages are on. It carries the down message on a failure and the recovery message naming the device on a recovery. |
| Notify.MarksOfTransition | custom_components/device_saver/coordinator.py:152-175 | A transition touches only its own device's notification, exactly once: a create for down, a dismiss for recovered. |
| Trace.UpdateIdempotent | custom_components/device_saver/coordinator.py:137-141 | A second cycle with the same inputs at the same time sends nothing and leaves the state and the snapshot unchanged. |
| Trace.RecentReportKeepsDeviceUp | custom_components/device_saver/coordinator.py:98-131 | Over any run, once a good report for a device has set its `last_ok`, a later cycle no more than one timeout after that report does not find the device down. This holds whatever its entities report by then, provided it still has an entity and the clock never goes back. |
| Trace.TicksNeverAdvanceLastOk | custom_components/device_saver/coordinator.py:119-123 | In a run of update cycles with no state event, a device's `last_ok` never changes once set. It stays the time of the first cycle that saw the device good. |
| Trace.AlertsAlternate | custom_components/device_saver/coordinator.py:137-175 | Over any run from a fresh coordinator, a device's notification is created and dismissed alternately, starting with a create. It is open exactly when the device is recorded as down. |
| Scenario.TimeoutAfterTenMinutes | custom_components/device_saver/coordinator.py:125-131 | With the default timeout, a device last seen at 0 s causes no effects by 600 s. At 601 s it is reported down once, with reason `timeout`: a create and a down event. |
| Scenario.TicksOnlyDownAt701 | custom_components/device_saver/coordinator.py:119-131 | With update cycles only, a device seen good at 0 s stays silent through a second good cycle, whatever state that cycle sees and whenever it runs. It is reported down with reason `timeout` at 701 s. |
| Scenario.TurnedOnAt650DownAt701 | custom_components/device_saver/coordinator.py:84-131 | With update cycles only, the entity is off at 0 s, on at 650 s and unavailable at 701 s. The first two cycles are silent, and at 701 s the device is reported down with reason `timeout`, 51 s after the entity turned on. |
| Scenario.SteadyGoodStateTimesOut | custom_components/device_saver/coordinator.py:119-131 | An entity on from 0 s to 700 s, with no attribute change, raises no event, and the cycles do not advance `last_ok`. At 701 s, the first cycle that sees it unavailable, the device is reported down with reason `timeout`. |
| Scenario.UpAt701WithEvent | custom_components/device_saver/coordinator.py:88-100 | The off-to-on change at 650 s, delivered as a state event, refreshes `last_ok`. The device is then not down at 701 s, an instance of `Trace.RecentReportKeepsDeviceUp`, and the whole run sends nothing. |
| CallFailure.VisitAsWritten | custom_components/device_saver/coordinator.py:137-184 | An iteration raises exactly when the notify service is missing, the verdict changes and `_maybe_notify` makes a call. It raises with the new verdict already recorded, after the create or dismiss and before any event. Otherwise it is the iteration `Coordinator.Visit` models. |
| CallFailure.RunCycleAsWritten | custom_components/device_saver/coordinator.py:109-143 | A cycle that finishes is exactly `Coordinator.RunCycle`, and with an existing service every cycle finishes. |
| CallFailure.AbortSkipsLaterIds | custom_components/device_saver/coordinator.py:109-141 | Once a prefix of the ids has raised, the later ids are never visited, and the cycle ends as that prefix did. |
| CallFailure.DownEventLost | custom_components/device_saver/coordinator.py:138-184 | A device going down while the notify service is missing leaves `down` recorded and only the create sent, with no event. The next iteration with the same inputs sends nothing. |
| ProblemSensor.DownDevices | custom_components/device_saver/binary_sensor.py:32 | The `down_devices` attribute holds exactly the ids of the down entries, in snapshot order, one per down entry. |
| ProblemSensor.IsOn | custom_components/device_saver/binary_sensor.py:25-27 | The sensor is on exactly when some entry is down, and off before the first refresh. |
| ProblemSensor.ProblemAttributes | custom_components/device_saver/binary_sensor.py:25-33 | The attributes are the down ids and their count, which equals the number of down entries. The count is positive exactly when the sensor is on, that is, when some entry is down. |
| DownSensors.DownCount | custom_components/device_saver/sensor.py:29-32 | The count over the coordinator's snapshot equals the number of down entries. It is 0 before the first refresh, positive exactly when the Problem sensor is on, and equal to that sensor's `down_count` attribute. |
| DownSensors.DownCountAfterUpdate | custom_components/device_saver/sensor.py:29-32 | After an update cycle, Down Count is positive exactly when some watched device got a down verdict in that cycle. |
| DownSensors.Fragment | custom_components/device_saver/sensor.py:50 | A fragment is the display name, then " (", the tier, ", ", the decimal text of the timeout in minutes, and "m)". It is never empty. |
| DownSensors.DownDevicesText | custom_components/device_saver/sensor.py:47-54 | The text is empty exactly when no entry is down. Otherwise it starts with the first down device's fragment and contains the fragment of every down device. |
| DownSensors.DownDevicesAttributes | custom_components/device_saver/sensor.py:56-70 | The attribute map has exactly the published ids as keys. Each key holds the attributes of the last entry with that id. |
| SensorsAsWritten.DownDevicesTextAsWritten | custom_components/device_saver/sensor.py:47-54 | Over the coordinator's `DeviceHealth` records, the text raises an attribute error exactly when some entry is down, and is empty otherwise. |
| SensorsAsWritten.DownDevicesAttributesAsWritten | custom_components/device_saver/sensor.py:56-70 | Over the coordinator's `DeviceHealth` records, the attribute map raises an attribute error exactly when there is any entry. |
| SensorsAsWritten.OneDownDeviceBreaksTheText | custom_components/device_saver/sensor.py:50 | A snapshot with a single down device makes the text raise on `device_name`. |
| SensorsAsWritten.OneEntryBreaksTheAttributes | custom_components/device_saver/sensor.py:62 | A snapshot with a single healthy device makes the attribute map raise on `device_name`. |

## Left out

- Home Assistant itself is not modelled: the registries, the state machine, the service registry and the event bus. Registries and states are input maps; service calls and bus events are `Effect` values, in the order the code issues them.
- The 30-second scheduling and the asynchronous `await`s are not modelled. Each handler call and each cycle is one atomic step, and the clock is a parameter in whole seconds.
- The subscription in `async_config_entry_first_refresh` is not modelled as a step. A run may contain state events as if the subscription delivered them. With the empty entity list the code passes (coordinator.py:84), it does not, and the run has only update cycles (see Findings).
- Trace.RecentReportKeepsDeviceUp: holds for runs in which state events reach `_handle_state_event`. With the subscription as written no event arrives, and `Trace.TicksNeverAdvanceLastOk` and `Scenario.TurnedOnAt650DownAt701` show what happens instead. An entity whose good state and attributes do not change raises no event even with a working subscription (`Scenario.SteadyGoodStateTimesOut`).
- Notify.NotifyTransition: assumes every service call returns. When the configured notify service does not exist, the outbound call raises, and the create or dismiss is the last effect; the event is never fired. `CallFailure.VisitAsWritten` models that case.
- Coordinator.Visit: assumes every service call returns. When the outbound call raises, the iteration stops with the new verdict recorded and only the create or dismiss sent (`CallFailure.VisitAsWritten`).
- Coordinator.RunCycleMeetsSpec: holds for cycles in which no service call raises. A raising call ends the loop, later ids are not visited and no snapshot is published (`CallFailure.RunCycleAsWritten`, `CallFailure.AbortSkipsLaterIds`).
- Trace.UpdateIdempotent: holds for cycles in which every service call returns. As written, a cycle whose outbound call raises skips the later ids, so a second identical cycle visits them and sends their notifications. For example, with ids `["a", "b"]`, no entities and notify service `"nosuch"` missing, the first cycle aborts after the create for `a`, and the second sends the create for `b` (`CallFailure.AbortSkipsLaterIds`).
- DownSensors.DownCountAfterUpdate: holds for cycles in which every service call returns. A cycle whose outbound call raises publishes no snapshot, so Down Count keeps showing the previous data even when a device got a down verdict in that cycle.
- Coordinator.Update: assumes every service call returns. When one raises, `_async_update_data` raises and publishes no new snapshot, and Home Assistant keeps the previous data; that recovery is not modelled.
- A persistent notification call (create or dismiss) that raises is not modelled. That service belongs to Home Assistant itself, so it is taken to exist.
- Time is not modelled as `datetime`. `last_ok` is an integer number of seconds, and `isoformat()` in the attributes is not modelled: the attribute holds the number.
- The German message texts are not modelled. A message is kept as the device name plus, for failures, the reason code.
- The order of `_device_entity_ids` is not modelled: the cycle only asks whether the list is empty and whether any entity is good, so it is a set here.
- Config.WellTyped: configuration values of a shape the configuration form never stores are not modelled: a device setting that is not a list, a timeout that is not a number, a notify service that is a truthy non-string. Some of them make the `_cfg` callers raise, for example `list(None)` at line 61, `int(None)` at line 64 and `.strip()` on a number at line 149. Others are silently converted, for example `list("abc")` into its characters or `int("15")` into 15. Neither case is modelled: the accessors require the shapes the form stores. A falsy notify service of any type becomes "" at line 149, and that case is modelled.
- Config.TimeoutSeconds: the `int()` conversion of a fractional number from the number selector is not modelled. The stored minutes are taken to be whole.
- Config.NotifyRecovered: only its two boundary cases are stated. Its value is the Python truthiness of the stored setting.
- The configuration and options forms of config_flow.py are not modelled beyond their bounds (1 to 10080 minutes) and the merged lookup. `__init__.py` is not modelled either: it only wires the platforms.
- Per-device tiers and a start-up grace period do not exist in the code, so they are not modelled.
- DownSensors.DownDevicesText: the contract states when the text is empty, that it starts with the first down device's fragment, and that every down device's fragment occurs in it. It does not state where the `", "` separators fall or the order of the later fragments; the body joins them in snapshot order.
- DownSensors.DownDevicesText: the Down Devices sensor reads `device_name`, `tier` and `timeout`, which `DeviceHealth` does not have. Its text and attributes are therefore modelled over a `DeviceView` record that has them; nothing in the code fills those fields (see Findings). The Down Count sensor reads only `down` and is modelled over `DeviceHealth`.

## Findings

| source | as written | input that shows it | evidently intended | confidence | as-written member | corrected member |
|---|---|---|---|---|---|---|
| custom_components/device_saver/sensor.py:47-54 | The Down Devices state reads `h.device_name`, `h.tier` and `h.timeout` from each down `DeviceHealth`, which has only `device_id`, `down`, `reason` and `last_ok`. | A snapshot with one down device, `DeviceHealth("x", down=True, reason="timeout", last_ok=None)`, raises `AttributeError` on `device_name`. | The down devices' names, tiers and timeouts joined by ", ", and "" when none is down. | high, not executed | SensorsAsWritten.OneDownDeviceBreaksTheText | DownSensors.DownDevicesText |
| custom_components/device_saver/sensor.py:56-70 | The Down Devices attributes read `h.device_name` for every entry. | A snapshot with any entry, e.g. `DeviceHealth("x", down=False, reason="ok", last_ok=0)`, raises `AttributeError` on `device_name`. | A map from each device id to its name, tier, verdict, reason, timeout and last good time. | high, not executed | SensorsAsWritten.OneEntryBreaksTheAttributes | DownSensors.DownDevicesAttributes |
| custom_components/device_saver/coordinator.py:154-184 | No service call in `_notify_transition` is guarded. With a notify service configured that does not exist, `_maybe_notify`'s call raises after `_down_state` was updated at line 140 and the create was sent. | `notify_service = "nosuch"` with no `notify.nosuch` service, and one watched device going down. The down event at line 162 is never fired, the loop stops, and on the next cycle `down == prev`, so the event is never sent. | A failing optional notify service does not stop the down or recovered event, or the rest of the cycle. | medium, not executed | CallFailure.DownEventLost | Notify.NotifyTransition |
| custom_components/device_saver/coordinator.py:81-84 | The handler is subscribed with `async_track_state_change_event(self.hass, [], ...)`. Home Assistant's helper returns a listener that does nothing for an empty entity list, so `_handle_state_event` never runs. `last_ok` then stays at the first good sighting of each device. | One device with entity `sensor.x` and the default timeout. The entity is off at 0 s, turns on at 650 s and is unavailable at 701 s, with update cycles at 0 s, 650 s and 701 s. The device is reported down with reason `timeout` at 701 s. With the change delivered as a state event, it is not down at 701 s. | The comment at line 82 says all state changes are subscribed, so each good state change refreshes `last_ok`, and a device is reported down only a full timeout after its last good state change. A state that stays good with neither the state nor its attributes changing raises no event, so it does not refresh `last_ok` in either version (line 123, `Scenario.SteadyGoodStateTimesOut`). | medium, not executed | Scenario.TurnedOnAt650DownAt701 | Scenario.UpAt701WithEvent |
