/** What the coordinator reads from Home Assistant: the device registry,
    the entity registry and the current entity states, as plain maps. */
module Registry {
  import opened Wrappers

  type DeviceId = string
  type EntityId = string

  /** A device registry entry: only the two name fields are read. */
  datatype DeviceEntry = DeviceEntry(name: Option<string>, nameByUser: Option<string>)

  type DeviceRegistry = map<DeviceId, DeviceEntry>

  /** Entity registry: each entity id with the device it belongs to, if any. */
  type EntityRegistry = map<EntityId, Option<DeviceId>>

  /** The state machine: the current state string of each entity that has one. */
  type StateTable = map<EntityId, string>

  /** `STATE_BAD`. */
  const BadStates: set<string> := {"unavailable", "unknown"}

  predicate IsBad(state: string) { state in BadStates }

  /** Python truthiness of an optional string. */
  predicate Present(o: Option<string>) { o.Some? && o.value != "" }

  /** `_device_name`: the user's name, else the integration's name, else
      the id itself; a device missing from the registry is shown by its id. */
  function DeviceName(devices: DeviceRegistry, d: DeviceId): (r: string)
    ensures d !in devices ==> r == d
    ensures d in devices && Present(devices[d].nameByUser) ==> r == devices[d].nameByUser.value
    ensures d in devices && !Present(devices[d].nameByUser) && Present(devices[d].name) ==> r == devices[d].name.value
    ensures d in devices && !Present(devices[d].nameByUser) && !Present(devices[d].name) ==> r == d
    ensures d != "" ==> r != ""
  {
    if d !in devices then d
    else
      var dev := devices[d];
      if Present(dev.nameByUser) then dev.nameByUser.value
      else if Present(dev.name) then dev.name.value
      else d
  }

  /** `_device_entity_ids`, as a set: the order plays no part in the verdict. */
  function EntitiesOf(entities: EntityRegistry, d: DeviceId): (r: set<EntityId>)
    ensures forall e :: e in r <==> e in entities && entities[e] == Some(d)
    // `not entity_ids`: no registry entry points at the device
    ensures r == {} <==> forall e :: e in entities ==> entities[e] != Some(d)
  {
    set e | e in entities && entities[e] == Some(d)
  }

  /** The entity has a state and it is not one of the bad ones. */
  predicate ReportsGood(states: StateTable, e: EntityId) {
    e in states && !IsBad(states[e])
  }

  /** Some entity of the device currently reports a good state. */
  predicate AnyGood(entities: EntityRegistry, states: StateTable, d: DeviceId) {
    exists e | e in EntitiesOf(entities, d) :: ReportsGood(states, e)
  }
}
