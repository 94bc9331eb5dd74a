/** Worked runs of the coordinator: one device `x` with one entity
    `sensor.x`, and the default timeout of ten minutes.
    - Seen on at 0 and unavailable afterwards, the device is still waiting
      at 600 s and is reported down, once, at 601 s.
    - Seen off at 0, then on from 650 s, then unavailable at 701 s: with
      update cycles only it is reported down at 701 s, while with the
      change at 650 s delivered as a state event it stays up.
    - Seen on from 0 s to 700 s and unavailable at 701 s, it is reported
      down at 701 s either way, as a state whose value and attributes do
      not change raises no event. */
module Scenario {
  import opened Wrappers
  import opened Registry
  import opened Config
  import opened Health
  import opened Notify
  import opened Snapshot
  import opened Coordinator
  import opened Trace

  const Entry: ConfigEntry := ConfigEntry("e1", map[KeyDevices := Devices(["x"])], map[])
  const Entities: EntityRegistry := map["sensor.x" := Some("x")]

  function EnvWith(state: string): Env {
    Env(Entry, map[], Entities, map["sensor.x" := state])
  }

  lemma EntryFacts()
    ensures WellTyped(Entry)
    ensures Watched(Entry) == ["x"] && FirstOccurrences(["x"]) == ["x"]
    ensures TimeoutSeconds(Entry) == 600
    ensures NotifyService(Entry) == ""
    ensures EntitiesOf(Entities, "x") == {"sensor.x"}
  {
    assert EntitiesOf(Entities, "x") == {"sensor.x"};
  }

  /** The device as the scenario leaves it after a good report at 0. */
  predicate UpSince0(st: State) {
    !Recorded(st, "x") && Get(st.lastOk, "x") == Some(0)
  }

  /** The first cycle, at 0, sees the entity in a good state. */
  lemma FirstTick(good: string)
    requires !IsBad(good)
    ensures WellTyped(Entry)
    ensures Update(Initial, EnvWith(good), 0).effects == []
    ensures UpSince0(Update(Initial, EnvWith(good), 0).state)
  {
    EntryFacts();
    assert ReportsGood(map["sensor.x" := good], "sensor.x");
    assert AnyGood(Entities, map["sensor.x" := good], "x");
  }

  lemma WaitingTick(st: State)
    requires UpSince0(st)
    ensures WellTyped(Entry)
    ensures Update(st, EnvWith("unavailable"), 600).effects == []
    ensures UpSince0(Update(st, EnvWith("unavailable"), 600).state)
  {
    EntryFacts();
    assert !AnyGood(Entities, map["sensor.x" := "unavailable"], "x");
  }

  /** A cycle that sees the entity in a good state keeps the device up and
      silent, and leaves its `last_ok` at 0. */
  lemma GoodTick(st: State, good: string, now: int)
    requires UpSince0(st) && !IsBad(good)
    ensures WellTyped(Entry)
    ensures Update(st, EnvWith(good), now).effects == []
    ensures UpSince0(Update(st, EnvWith(good), now).state)
  {
    EntryFacts();
    assert ReportsGood(map["sensor.x" := good], "sensor.x");
    assert AnyGood(Entities, map["sensor.x" := good], "x");
  }

  /** A cycle more than ten minutes after 0 that sees the entity
      unavailable reports the device down. */
  lemma TimeoutTick(st: State, now: int)
    requires UpSince0(st)
    requires now > 600
    ensures WellTyped(Entry)
    ensures Update(st, EnvWith("unavailable"), now).effects
            == [Create(NotificationId("e1", "x"), Title, DownMessage("x", "timeout")),
                Fire(EventDeviceDown, "x", "x", Some("timeout"))]
    ensures Recorded(Update(st, EnvWith("unavailable"), now).state, "x")
  {
    EntryFacts();
    var env := EnvWith("unavailable");
    assert !AnyGood(Entities, map["sensor.x" := "unavailable"], "x");
    assert VerdictOf(st, env, 600, now, "x") == Verdict(true, Timeout);
    assert TransitionsOf(st, env, 600, now, ["x"]) == [] + TransitionOf(st, env, 600, now, "x");
  }

  /** A run whose first step is a cycle at 0 that sees the entity good
      starts with the device up since 0. */
  lemma StartsUp(steps: seq<Step>, good: string)
    requires StepsOf(steps, "e1") && |steps| > 0 && steps[0] == Tick(EnvWith(good), 0) && !IsBad(good)
    ensures StepsOf(steps[..1], "e1")
    ensures Execute(steps[..1], "e1").effects == []
    ensures UpSince0(Execute(steps[..1], "e1").state)
  {
    ExecuteLast(steps, "e1", 1);
    assert steps[..0] == [];
    FirstTick(good);
  }

  const Steps: seq<Step> := [Tick(EnvWith("on"), 0), Tick(EnvWith("unavailable"), 600), Tick(EnvWith("unavailable"), 601)]

  lemma AfterOneTick()
    ensures StepsOf(Steps, "e1") && StepsOf(Steps[..1], "e1")
    ensures Execute(Steps[..1], "e1").effects == []
    ensures UpSince0(Execute(Steps[..1], "e1").state)
  {
    EntryFacts();
    assert forall i :: 0 <= i < |Steps| ==> Steps[i].env.entry == Entry;
    StartsUp(Steps, "on");
  }

  lemma AfterTwoTicks()
    ensures StepsOf(Steps[..2], "e1")
    ensures Execute(Steps[..2], "e1").effects == []
    ensures UpSince0(Execute(Steps[..2], "e1").state)
  {
    AfterOneTick();
    assert Steps[..2][..1] == Steps[..1];
    LastTick(Steps[..2], "e1", EnvWith("unavailable"), 600);
    WaitingTick(Execute(Steps[..1], "e1").state);
  }

  /** The three ticks as one run. */
  lemma {:induction false} TimeoutAfterTenMinutes()
    ensures StepsOf(Steps, "e1")
    ensures Execute(Steps[..2], "e1").effects == []
    ensures Execute(Steps, "e1").effects
            == [Create(NotificationId("e1", "x"), Title, DownMessage("x", "timeout")),
                Fire(EventDeviceDown, "x", "x", Some("timeout"))]
    ensures Recorded(Execute(Steps, "e1").state, "x")
  {
    AfterOneTick();
    AfterTwoTicks();
    LastTick(Steps, "e1", EnvWith("unavailable"), 601);
    TimeoutTick(Execute(Steps[..2], "e1").state, 601);
  }

  /** A run that ends with an update cycle sends what the runs before it
      sent, then what that cycle sends. */
  lemma LastTick(steps: seq<Step>, entryId: string, env: Env, now: int)
    requires StepsOf(steps, entryId) && |steps| > 0 && steps[|steps| - 1] == Tick(env, now)
    ensures StepsOf(steps[..|steps| - 1], entryId)
    ensures Execute(steps, entryId).state == Update(Execute(steps[..|steps| - 1], entryId).state, env, now).state
    ensures Execute(steps, entryId).effects
            == Execute(steps[..|steps| - 1], entryId).effects + Update(Execute(steps[..|steps| - 1], entryId).state, env, now).effects
  {
    ExecuteLast(steps, entryId, |steps|);
    assert steps[..|steps|] == steps;
  }

  /** Three cycles and nothing else, as the code runs when no state event
      reaches `_handle_state_event`: good state `g0` at 0, good state `g1`
      at `t1`, unavailable at 701. */
  function TicksOnly(g0: string, g1: string, t1: int): seq<Step> {
    [Tick(EnvWith(g0), 0), Tick(EnvWith(g1), t1), Tick(EnvWith("unavailable"), 701)]
  }

  lemma TicksOnlyWellTyped(g0: string, g1: string, t1: int)
    ensures StepsOf(TicksOnly(g0, g1, t1), "e1")
  {
    EntryFacts();
    assert forall i :: 0 <= i < |TicksOnly(g0, g1, t1)| ==> TicksOnly(g0, g1, t1)[i].env.entry == Entry;
  }

  lemma UpAfterTwoTicks(g0: string, g1: string, t1: int)
    requires !IsBad(g0) && !IsBad(g1)
    ensures StepsOf(TicksOnly(g0, g1, t1), "e1") && StepsOf(TicksOnly(g0, g1, t1)[..2], "e1")
    ensures Execute(TicksOnly(g0, g1, t1)[..2], "e1").effects == []
    ensures UpSince0(Execute(TicksOnly(g0, g1, t1)[..2], "e1").state)
  {
    var steps := TicksOnly(g0, g1, t1);
    TicksOnlyWellTyped(g0, g1, t1);
    StartsUp(steps, g0);
    PrefixSteps(steps, "e1", 2);
    assert steps[..2][..1] == steps[..1];
    LastTick(steps[..2], "e1", EnvWith(g1), t1);
    GoodTick(Execute(steps[..1], "e1").state, g1, t1);
  }

  /** With cycles only, the good state the second cycle sees does not move
      `last_ok` from 0, whatever the state and whenever the cycle: the
      device is reported down with reason `timeout` at 701 s. */
  lemma {:induction false} TicksOnlyDownAt701(g0: string, g1: string, t1: int)
    requires !IsBad(g0) && !IsBad(g1)
    ensures StepsOf(TicksOnly(g0, g1, t1), "e1")
    ensures Execute(TicksOnly(g0, g1, t1)[..2], "e1").effects == []
    ensures Execute(TicksOnly(g0, g1, t1), "e1").effects
            == [Create(NotificationId("e1", "x"), Title, DownMessage("x", "timeout")),
                Fire(EventDeviceDown, "x", "x", Some("timeout"))]
  {
    UpAfterTwoTicks(g0, g1, t1);
    var steps := TicksOnly(g0, g1, t1);
    LastTick(steps, "e1", EnvWith("unavailable"), 701);
    TimeoutTick(Execute(steps[..2], "e1").state, 701);
  }

  /** The entity changes from off to on at 650 s and is unavailable at
      701 s. With cycles only, the change is never seen as a report, and the
      device is reported down at 701 s. */
  lemma TurnedOnAt650DownAt701()
    ensures StepsOf(TicksOnly("off", "on", 650), "e1")
    ensures Execute(TicksOnly("off", "on", 650)[..2], "e1").effects == []
    ensures Execute(TicksOnly("off", "on", 650), "e1").effects
            == [Create(NotificationId("e1", "x"), Title, DownMessage("x", "timeout")),
                Fire(EventDeviceDown, "x", "x", Some("timeout"))]
  {
    TicksOnlyDownAt701("off", "on", 650);
  }

  /** An entity that stays on, with unchanged attributes, raises no
      `state_changed` event, and the cycle only initialises `last_ok`: with
      the entity on from 0 s to 700 s, the device is reported down at
      701 s, however the subscription is made. */
  lemma SteadyGoodStateTimesOut()
    ensures StepsOf(TicksOnly("on", "on", 700), "e1")
    ensures Execute(TicksOnly("on", "on", 700)[..2], "e1").effects == []
    ensures Execute(TicksOnly("on", "on", 700), "e1").effects
            == [Create(NotificationId("e1", "x"), Title, DownMessage("x", "timeout")),
                Fire(EventDeviceDown, "x", "x", Some("timeout"))]
  {
    TicksOnlyDownAt701("on", "on", 700);
  }

  /** The run of `TicksOnly("off", "on", 650)` with the change at 650 s
      delivered as a `state_changed` event instead of seen by a cycle, as a
      subscription to the watched entities would deliver it. */
  const WithEvent: seq<Step> :=
    [Tick(EnvWith("off"), 0), Event(EnvWith("on"), StateEvent(Some("sensor.x"), Some("on")), 650),
     Tick(EnvWith("unavailable"), 701)]

  /** The device as the event at 650 s leaves it. */
  predicate UpSince650(st: State) {
    !Recorded(st, "x") && Get(st.lastOk, "x") == Some(650)
  }

  lemma WithEventWellTyped()
    ensures StepsOf(WithEvent, "e1")
  {
    EntryFacts();
    assert forall i :: 0 <= i < |WithEvent| ==> WithEvent[i].env.entry == Entry;
  }

  /** The event at 650 s names an entity of the watched device `x` with a
      good new state. */
  lemma EventRefreshesX()
    ensures WellTyped(Entry)
    ensures RefreshedDevice(EnvWith("on"), StateEvent(Some("sensor.x"), Some("on"))) == Some("x")
  {
    EntryFacts();
  }

  lemma ReportAt650()
    ensures StepsOf(WithEvent, "e1") && StepsOf(WithEvent[..2], "e1")
    ensures RefreshedDevice(WithEvent[1].env, WithEvent[1].ev) == Some("x")
    ensures Execute(WithEvent[..2], "e1").effects == []
    ensures UpSince650(Execute(WithEvent[..2], "e1").state)
  {
    WithEventWellTyped();
    StartsUp(WithEvent, "off");
    ExecuteLast(WithEvent, "e1", 2);
    EventRefreshesX();
  }

  /** A cycle that finds the device neither down nor recorded down sends
      nothing. */
  lemma QuietTick(st: State, now: int)
    requires !Recorded(st, "x") && !VerdictOf(st, EnvWith("unavailable"), 600, now, "x").down
    ensures WellTyped(Entry)
    ensures Update(st, EnvWith("unavailable"), now).effects == []
  {
    EntryFacts();
    assert TransitionsOf(st, EnvWith("unavailable"), 600, now, ["x"]) == [] + TransitionOf(st, EnvWith("unavailable"), 600, now, "x");
  }

  /** With the event delivered, the device is not down at 701 s, an
      instance of `RecentReportKeepsDeviceUp`, and the whole run is
      silent. */
  lemma {:induction false} UpAt701WithEvent()
    ensures StepsOf(WithEvent, "e1")
    ensures !VerdictOf(Execute(WithEvent[..2], "e1").state, EnvWith("unavailable"), 600, 701, "x").down
    ensures Execute(WithEvent, "e1").effects == []
  {
    EntryFacts();
    ReportAt650();
    RecentReportKeepsDeviceUp(WithEvent, "e1", 1, "x");
    LastTick(WithEvent, "e1", EnvWith("unavailable"), 701);
    QuietTick(Execute(WithEvent[..2], "e1").state, 701);
  }
}
