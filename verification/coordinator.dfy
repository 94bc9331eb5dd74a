/** `DeviceSaverCoordinator` (coordinator.py) as a pure state machine: the
    state-event handler and the periodic update cycle, each one atomic step
    from a state to a new state (plus, for the cycle, the published
    snapshot and the effects it sent). */
module Coordinator {
  import opened Wrappers
  import opened Registry
  import opened Config
  import opened Health
  import opened Notify
  import opened Snapshot

  /** The coordinator's own state: `_last_ok` and `_down_state`. */
  datatype State = State(lastOk: LastOk, downState: map<DeviceId, bool>)

  /** A freshly constructed coordinator. */
  const Initial: State := State(map[], map[])

  /** `_down_state.get(d, False)`: the last verdict notified for `d`. */
  function Recorded(st: State, d: DeviceId): bool {
    if d in st.downState then st.downState[d] else false
  }

  /** Everything outside the coordinator that a step reads. */
  datatype Env = Env(entry: ConfigEntry, devices: DeviceRegistry, entities: EntityRegistry, states: StateTable)

  /** A `state_changed` event: the entity id and the new state, either of
      which may be missing. */
  datatype StateEvent = StateEvent(entityId: Option<EntityId>, newState: Option<string>)

  /** The watched device whose `last_ok` the event refreshes, if any: the
      event names an entity (a non-empty id) of the entity registry, the
      entity belongs to a watched device, and the new state exists and is
      not bad. */
  function RefreshedDevice(env: Env, ev: StateEvent): (r: Option<DeviceId>)
    requires WellTyped(env.entry)
    ensures r.Some? <==>
              && ev.entityId.Some? && ev.entityId.value != "" && ev.entityId.value in env.entities
              && env.entities[ev.entityId.value].Some?
              && env.entities[ev.entityId.value].value in Watched(env.entry)
              && ev.newState.Some? && !IsBad(ev.newState.value)
    ensures r.Some? ==> r == env.entities[ev.entityId.value] && ev.entityId.value in EntitiesOf(env.entities, r.value)
  {
    if ev.entityId.None? || ev.entityId.value == "" then None
    else if ev.entityId.value !in env.entities then None
    else
      var owner := env.entities[ev.entityId.value];
      if owner.None? || owner.value !in Watched(env.entry) then None
      else if ev.newState.None? || IsBad(ev.newState.value) then None
      else owner
  }

  /** `_handle_state_event` at time `now`: sets the owning device's
      `last_ok` to `now` when the event refreshes it; any other event
      changes nothing. `_down_state` is never touched. */
  function HandleStateEvent(st: State, env: Env, ev: StateEvent, now: int): (st': State)
    requires WellTyped(env.entry)
    ensures st'.downState == st.downState
    ensures RefreshedDevice(env, ev).Some? ==> st'.lastOk == st.lastOk[RefreshedDevice(env, ev).value := now]
    ensures RefreshedDevice(env, ev).None? ==> st' == st
    ensures forall k :: k in st.lastOk && k !in Watched(env.entry) ==> k in st'.lastOk && st'.lastOk[k] == st.lastOk[k]
  {
    match RefreshedDevice(env, ev)
    case None => st
    case Some(d) => st.(lastOk := st.lastOk[d := now])
  }

  /** The verdict `d` gets in a cycle that starts in `st`. */
  function VerdictOf(st: State, env: Env, timeout: int, now: int, d: DeviceId): Verdict {
    Evaluate(st.lastOk, d, env.entities, env.states, now, timeout).verdict
  }

  /** `d`'s `last_ok` once a cycle that starts in `st` has evaluated it. */
  function LastOkAfter(st: State, env: Env, timeout: int, now: int, d: DeviceId): Option<int> {
    Get(Evaluate(st.lastOk, d, env.entities, env.states, now, timeout).lastOk, d)
  }

  datatype Visited = Visited(state: State, health: DeviceHealth, effects: seq<Effect>)

  /** One iteration of the loop in `_async_update_data`: evaluate `d`,
      build its `DeviceHealth`, and notify when its verdict differs from the
      recorded one, recording the new verdict. */
  function Visit(st: State, env: Env, timeout: int, now: int, d: DeviceId): (r: Visited)
    requires WellTyped(env.entry)
    ensures r.health.deviceId == d
    ensures Verdict(r.health.down, r.health.reason) == VerdictOf(st, env, timeout, now, d)
    ensures r.health.lastOk == Get(r.state.lastOk, d) == LastOkAfter(st, env, timeout, now, d)
    ensures Recorded(r.state, d) == r.health.down
    // notifications fire exactly on a change of verdict
    ensures r.effects != [] <==> r.health.down != Recorded(st, d)
    ensures r.effects == [] ==> r.state.downState == st.downState
    ensures r.effects != [] ==> r.effects == NotifyTransition(env.entry, env.devices, d, r.health.down, r.health)
    // other devices are untouched
    ensures forall k :: k != d ==> Recorded(r.state, k) == Recorded(st, k) && Get(r.state.lastOk, k) == Get(st.lastOk, k)
  {
    var e := Evaluate(st.lastOk, d, env.entities, env.states, now, timeout);
    var health := DeviceHealth(d, e.verdict.down, e.verdict.reason, Get(e.lastOk, d));
    if e.verdict.down != Recorded(st, d) then
      Visited(State(e.lastOk, st.downState[d := e.verdict.down]), health,
              NotifyTransition(env.entry, env.devices, d, e.verdict.down, health))
    else
      Visited(State(e.lastOk, st.downState), health, [])
  }

  /** The effects a cycle starting in `st` sends for `d`: its transition
      when its verdict differs from the recorded one, nothing otherwise. */
  function TransitionOf(st: State, env: Env, timeout: int, now: int, d: DeviceId): seq<Effect>
    requires WellTyped(env.entry)
  {
    var v := VerdictOf(st, env, timeout, now, d);
    if v.down == Recorded(st, d) then []
    else NotifyTransition(env.entry, env.devices, d, v.down,
                          DeviceHealth(d, v.down, v.reason, LastOkAfter(st, env, timeout, now, d)))
  }

  /** The transitions of `ds`, in order. */
  function TransitionsOf(st: State, env: Env, timeout: int, now: int, ds: seq<DeviceId>): seq<Effect>
    requires WellTyped(env.entry)
  {
    if ds == [] then []
    else TransitionsOf(st, env, timeout, now, ds[..|ds| - 1]) + TransitionOf(st, env, timeout, now, ds[|ds| - 1])
  }

  datatype Cycle = Cycle(state: State, snapshot: seq<DeviceHealth>, effects: seq<Effect>)

  /** The loop of `_async_update_data` over `ids`, in order. It touches
      only the devices it walks and publishes at most one entry per id. */
  function RunCycle(st: State, env: Env, timeout: int, now: int, ids: seq<DeviceId>): (r: Cycle)
    requires WellTyped(env.entry)
    ensures forall d :: d !in ids ==> Recorded(r.state, d) == Recorded(st, d) && Get(r.state.lastOk, d) == Get(st.lastOk, d)
    ensures |r.snapshot| <= |ids|
    ensures DistinctIds(r.snapshot)
  {
    if ids == [] then Cycle(st, [], [])
    else
      var init := ids[..|ids| - 1];
      var before := RunCycle(st, env, timeout, now, init);
      var v := Visit(before.state, env, timeout, now, ids[|ids| - 1]);
      assert forall d :: d in init ==> d in ids;
      assert |Ids(before.snapshot)| == |before.snapshot|;
      Cycle(v.state, Put(before.snapshot, v.health), before.effects + v.effects)
  }

  /** The snapshot of a cycle over `ids` starting in `st`: one entry per
      distinct id in first-occurrence order, each carrying the verdict
      computed from the state at the start of the cycle and the `last_ok`
      the cycle ends with. */
  ghost predicate SnapshotSpec(st: State, env: Env, timeout: int, now: int, ids: seq<DeviceId>, r: Cycle) {
    && Ids(r.snapshot) == FirstOccurrences(ids)
    && DistinctIds(r.snapshot)
    && (forall i :: 0 <= i < |r.snapshot| ==>
          && Verdict(r.snapshot[i].down, r.snapshot[i].reason) == VerdictOf(st, env, timeout, now, r.snapshot[i].deviceId)
          && r.snapshot[i].lastOk == Get(r.state.lastOk, r.snapshot[i].deviceId))
  }

  /** The state after the cycle: recorded verdicts and `last_ok` updated for
      exactly the ids. */
  ghost predicate StateSpec(st: State, env: Env, timeout: int, now: int, ids: seq<DeviceId>, r: Cycle) {
    && (forall d :: d in ids ==>
          && Recorded(r.state, d) == VerdictOf(st, env, timeout, now, d).down
          && Get(r.state.lastOk, d) == LastOkAfter(st, env, timeout, now, d))
    && (forall d :: d !in ids ==>
          && Recorded(r.state, d) == Recorded(st, d)
          && Get(r.state.lastOk, d) == Get(st.lastOk, d))
  }

  /** The effects of the cycle: some exactly when a recorded verdict
      changes, and none leave `_down_state` as it was. */
  ghost predicate EffectsSpec(st: State, env: Env, timeout: int, now: int, ids: seq<DeviceId>, r: Cycle) {
    && (r.effects == [] <==> forall d :: d in ids ==> VerdictOf(st, env, timeout, now, d).down == Recorded(st, d))
    && (r.effects == [] ==> r.state.downState == st.downState)
  }

  /** What a cycle over `ids` starting in `st` promises: its snapshot, its
      state, its effects, which are the transitions of the changed ids in
      order. */
  ghost predicate CycleSpec(st: State, env: Env, timeout: int, now: int, ids: seq<DeviceId>, r: Cycle)
    requires WellTyped(env.entry)
  {
    && SnapshotSpec(st, env, timeout, now, ids, r)
    && StateSpec(st, env, timeout, now, ids, r)
    && EffectsSpec(st, env, timeout, now, ids, r)
    && r.effects == TransitionsOf(st, env, timeout, now, FirstOccurrences(ids))
  }

  lemma {:induction false} RunCycleMeetsSpec(st: State, env: Env, timeout: int, now: int, ids: seq<DeviceId>)
    requires WellTyped(env.entry)
    ensures CycleSpec(st, env, timeout, now, ids, RunCycle(st, env, timeout, now, ids))
  {
    if ids != [] {
      var init := ids[..|ids| - 1];
      var d := ids[|ids| - 1];
      RunCycleMeetsSpec(st, env, timeout, now, init);
      var before := RunCycle(st, env, timeout, now, init);
      var v := Visit(before.state, env, timeout, now, d);
      VisitSeesCycleStart(st, env, timeout, now, init, before, d);
      SnapshotStep(st, env, timeout, now, ids, init, before, v, d);
      StateStep(st, env, timeout, now, ids, init, before, v, d);
      EffectsStep(st, env, timeout, now, ids, init, before, v, d);
      TransitionsStep(st, env, timeout, now, ids, init, before, v, d);
    }
  }

  /** A device is evaluated in the middle of a cycle exactly as it would be
      at the start. */
  lemma VisitSeesCycleStart(st: State, env: Env, timeout: int, now: int, init: seq<DeviceId>,
                            before: Cycle, d: DeviceId)
    requires WellTyped(env.entry)
    requires StateSpec(st, env, timeout, now, init, before)
    ensures var v := Visit(before.state, env, timeout, now, d);
            && Verdict(v.health.down, v.health.reason) == VerdictOf(st, env, timeout, now, d)
            && v.health.lastOk == LastOkAfter(st, env, timeout, now, d)
  {
    if d in init {
      EvaluateAgain(st.lastOk, before.state.lastOk, d, env.entities, env.states, now, timeout);
    } else {
      EvaluateReadsOnlyOwnEntry(st.lastOk, before.state.lastOk, d, env.entities, env.states, now, timeout);
    }
  }

  lemma SnapshotStep(st: State, env: Env, timeout: int, now: int, ids: seq<DeviceId>, init: seq<DeviceId>,
                     before: Cycle, v: Visited, d: DeviceId)
    requires WellTyped(env.entry)
    requires SnapshotSpec(st, env, timeout, now, init, before)
    requires v.health.deviceId == d && v.health.lastOk == Get(v.state.lastOk, d)
    requires forall k :: k != d ==> Get(v.state.lastOk, k) == Get(before.state.lastOk, k)
    requires Verdict(v.health.down, v.health.reason) == VerdictOf(st, env, timeout, now, d)
    requires ids != [] && init == ids[..|ids| - 1] && d == ids[|ids| - 1]
    ensures SnapshotSpec(st, env, timeout, now, ids, Cycle(v.state, Put(before.snapshot, v.health), before.effects + v.effects))
  {
    var s := Put(before.snapshot, v.health);
    assert d in Ids(before.snapshot) <==> d in init;
    forall i | 0 <= i < |s|
      ensures Verdict(s[i].down, s[i].reason) == VerdictOf(st, env, timeout, now, s[i].deviceId)
      ensures s[i].lastOk == Get(v.state.lastOk, s[i].deviceId)
    {
      if i < |before.snapshot| && before.snapshot[i].deviceId != d {
        assert s[i] == before.snapshot[i];
      } else {
        assert s[i] == v.health;
      }
    }
  }

  lemma StateStep(st: State, env: Env, timeout: int, now: int, ids: seq<DeviceId>, init: seq<DeviceId>,
                  before: Cycle, v: Visited, d: DeviceId)
    requires WellTyped(env.entry)
    requires StateSpec(st, env, timeout, now, init, before)
    requires Recorded(v.state, d) == v.health.down && Get(v.state.lastOk, d) == v.health.lastOk
    requires forall k :: k != d ==> Recorded(v.state, k) == Recorded(before.state, k) && Get(v.state.lastOk, k) == Get(before.state.lastOk, k)
    requires Verdict(v.health.down, v.health.reason) == VerdictOf(st, env, timeout, now, d)
    requires v.health.lastOk == LastOkAfter(st, env, timeout, now, d)
    requires ids != [] && init == ids[..|ids| - 1] && d == ids[|ids| - 1]
    ensures StateSpec(st, env, timeout, now, ids, Cycle(v.state, Put(before.snapshot, v.health), before.effects + v.effects))
  {
    assert forall k :: k in ids <==> k in init || k == d;
  }

  lemma EffectsStep(st: State, env: Env, timeout: int, now: int, ids: seq<DeviceId>, init: seq<DeviceId>,
                    before: Cycle, v: Visited, d: DeviceId)
    requires WellTyped(env.entry)
    requires StateSpec(st, env, timeout, now, init, before)
    requires EffectsSpec(st, env, timeout, now, init, before)
    requires v.effects != [] <==> v.health.down != Recorded(before.state, d)
    requires v.effects == [] ==> v.state.downState == before.state.downState
    requires Verdict(v.health.down, v.health.reason) == VerdictOf(st, env, timeout, now, d)
    requires ids != [] && init == ids[..|ids| - 1] && d == ids[|ids| - 1]
    ensures EffectsSpec(st, env, timeout, now, ids, Cycle(v.state, Put(before.snapshot, v.health), before.effects + v.effects))
  {
    assert forall k :: k in ids <==> k in init || k == d;
    assert v.effects != [] <==> VerdictOf(st, env, timeout, now, d).down != Recorded(before.state, d);
    if before.effects + v.effects == [] {
      assert before.effects == [] && v.effects == [];
    }
  }

  lemma TransitionsStep(st: State, env: Env, timeout: int, now: int, ids: seq<DeviceId>, init: seq<DeviceId>,
                        before: Cycle, v: Visited, d: DeviceId)
    requires WellTyped(env.entry)
    requires StateSpec(st, env, timeout, now, init, before)
    requires before.effects == TransitionsOf(st, env, timeout, now, FirstOccurrences(init))
    requires v.health == DeviceHealth(d, v.health.down, v.health.reason, v.health.lastOk)
    requires v.effects == (if v.health.down == Recorded(before.state, d) then []
                           else NotifyTransition(env.entry, env.devices, d, v.health.down, v.health))
    requires Verdict(v.health.down, v.health.reason) == VerdictOf(st, env, timeout, now, d)
    requires v.health.lastOk == LastOkAfter(st, env, timeout, now, d)
    requires ids != [] && init == ids[..|ids| - 1] && d == ids[|ids| - 1]
    ensures before.effects + v.effects == TransitionsOf(st, env, timeout, now, FirstOccurrences(ids))
  {
    var firsts := FirstOccurrences(ids);
    if d in init {
      assert firsts == FirstOccurrences(init);
      assert v.effects == [];
      assert before.effects + v.effects == before.effects;
    } else {
      assert firsts == FirstOccurrences(init) + [d];
      assert firsts[..|firsts| - 1] == FirstOccurrences(init);
      assert Recorded(before.state, d) == Recorded(st, d);
      assert v.effects == TransitionOf(st, env, timeout, now, d);
    }
  }

  /** `_async_update_data` at time `now`: one cycle over the watched ids
      with the configured timeout. */
  function Update(st: State, env: Env, now: int): (r: Cycle)
    requires WellTyped(env.entry)
    // exactly one snapshot entry per watched id, in first-occurrence order
    ensures Ids(r.snapshot) == FirstOccurrences(Watched(env.entry))
    ensures DistinctIds(r.snapshot)
    // each entry holds its device's verdict and the `last_ok` kept after the cycle
    ensures forall i :: 0 <= i < |r.snapshot| ==>
              && Verdict(r.snapshot[i].down, r.snapshot[i].reason)
                 == VerdictOf(st, env, TimeoutSeconds(env.entry), now, r.snapshot[i].deviceId)
              && r.snapshot[i].lastOk == Get(r.state.lastOk, r.snapshot[i].deviceId)
    // the recorded verdicts follow the new ones; unwatched devices keep theirs
    ensures forall d :: d in Watched(env.entry) ==>
              Recorded(r.state, d) == VerdictOf(st, env, TimeoutSeconds(env.entry), now, d).down
    ensures forall d :: d !in Watched(env.entry) ==>
              Recorded(r.state, d) == Recorded(st, d) && Get(r.state.lastOk, d) == Get(st.lastOk, d)
    ensures forall d :: d in Watched(env.entry) ==>
              Get(r.state.lastOk, d) == LastOkAfter(st, env, TimeoutSeconds(env.entry), now, d)
    // effects are sent exactly when some verdict changed: the transitions
    // of the changed devices, in snapshot order
    ensures r.effects == [] <==> forall d :: d in Watched(env.entry) ==>
              VerdictOf(st, env, TimeoutSeconds(env.entry), now, d).down == Recorded(st, d)
    ensures r.effects == TransitionsOf(st, env, TimeoutSeconds(env.entry), now, FirstOccurrences(Watched(env.entry)))
  {
    RunCycleMeetsSpec(st, env, TimeoutSeconds(env.entry), now, Watched(env.entry));
    RunCycle(st, env, TimeoutSeconds(env.entry), now, Watched(env.entry))
  }
}
