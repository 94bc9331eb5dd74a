/** Properties of the coordinator over several steps: a repeated cycle is
    silent, and over any run the notification of each device is created and
    dismissed alternately, in step with its recorded verdict. */
module Trace {
  import opened Wrappers
  import Seqs
  import opened Registry
  import opened Config
  import opened Health
  import opened Notify
  import opened Snapshot
  import opened Coordinator

  /** Two maps that agree on every lookup are equal. */
  lemma MapsAgreeingEverywhere(a: LastOk, b: LastOk)
    requires forall k :: Get(a, k) == Get(b, k)
    ensures a == b
  {
    assert a.Keys == b.Keys by {
      forall k ensures k in a <==> k in b {
        assert Get(a, k).Some? <==> Get(b, k).Some?;
      }
    }
    forall k | k in a ensures a[k] == b[k] {
      assert Get(a, k) == Get(b, k);
    }
  }

  /** Running the update cycle a second time with the same inputs and the
      same clock sends nothing and changes nothing: the first cycle
      already recorded every verdict. */
  lemma UpdateIdempotent(st: State, env: Env, now: int)
    requires WellTyped(env.entry)
    ensures var first := Update(st, env, now);
            var second := Update(first.state, env, now);
            && second.effects == []
            && second.state == first.state
            && second.snapshot == first.snapshot
  {
    var t := TimeoutSeconds(env.entry);
    var ids := Watched(env.entry);
    var first := RunCycle(st, env, t, now, ids);
    var second := RunCycle(first.state, env, t, now, ids);
    RunCycleMeetsSpec(st, env, t, now, ids);
    RunCycleMeetsSpec(first.state, env, t, now, ids);
    CycleAgainVerdicts(st, env, t, now, ids, first);
    CycleAgainState(st, env, t, now, ids, first, second);
    CycleAgainSnapshot(st, env, t, now, ids, first, second);
  }

  /** The second cycle evaluates every id as the first did. */
  lemma CycleAgainVerdicts(st: State, env: Env, t: int, now: int, ids: seq<DeviceId>, first: Cycle)
    requires StateSpec(st, env, t, now, ids, first)
    ensures forall d :: d in ids ==>
              && VerdictOf(first.state, env, t, now, d) == VerdictOf(st, env, t, now, d)
              && LastOkAfter(first.state, env, t, now, d) == Get(first.state.lastOk, d)
  {
    forall d | d in ids
      ensures VerdictOf(first.state, env, t, now, d) == VerdictOf(st, env, t, now, d)
      ensures LastOkAfter(first.state, env, t, now, d) == Get(first.state.lastOk, d)
    {
      EvaluateAgain(st.lastOk, first.state.lastOk, d, env.entities, env.states, now, t);
    }
  }

  lemma CycleAgainState(st: State, env: Env, t: int, now: int, ids: seq<DeviceId>, first: Cycle, second: Cycle)
    requires StateSpec(st, env, t, now, ids, first)
    requires StateSpec(first.state, env, t, now, ids, second)
    requires EffectsSpec(first.state, env, t, now, ids, second)
    requires forall d :: d in ids ==>
               && VerdictOf(first.state, env, t, now, d) == VerdictOf(st, env, t, now, d)
               && LastOkAfter(first.state, env, t, now, d) == Get(first.state.lastOk, d)
    ensures second.effects == [] && second.state == first.state
  {
    assert second.effects == [];
    forall k ensures Get(second.state.lastOk, k) == Get(first.state.lastOk, k) {
      if k in ids {
        assert Get(second.state.lastOk, k) == LastOkAfter(first.state, env, t, now, k);
      }
    }
    MapsAgreeingEverywhere(second.state.lastOk, first.state.lastOk);
  }

  lemma CycleAgainSnapshot(st: State, env: Env, t: int, now: int, ids: seq<DeviceId>, first: Cycle, second: Cycle)
    requires SnapshotSpec(st, env, t, now, ids, first)
    requires SnapshotSpec(first.state, env, t, now, ids, second)
    requires second.state == first.state
    requires forall d :: d in ids ==> VerdictOf(first.state, env, t, now, d) == VerdictOf(st, env, t, now, d)
    ensures second.snapshot == first.snapshot
  {
    assert Ids(second.snapshot) == Ids(first.snapshot);
    forall i | 0 <= i < |first.snapshot| ensures second.snapshot[i] == first.snapshot[i] {
      var d := first.snapshot[i].deviceId;
      assert second.snapshot[i].deviceId == Ids(second.snapshot)[i] == d;
      assert d in FirstOccurrences(ids);
    }
  }

  /** One step of a run: a state event or an update cycle, each with the
      environment and clock it sees. */
  datatype Step = Event(env: Env, ev: StateEvent, now: int) | Tick(env: Env, now: int)

  /** The state after a run, and every effect it sent, in order. */
  datatype Run = Run(state: State, effects: seq<Effect>)

  /** All steps belong to config entry `entryId` and see a well-typed config. */
  predicate StepsOf(steps: seq<Step>, entryId: string) {
    forall i :: 0 <= i < |steps| ==> WellTyped(steps[i].env.entry) && steps[i].env.entry.entryId == entryId
  }

  function Apply(st: State, step: Step): Run
    requires WellTyped(step.env.entry)
  {
    match step
    case Event(env, ev, now) => Run(HandleStateEvent(st, env, ev, now), [])
    case Tick(env, now) => var r := Update(st, env, now); Run(r.state, r.effects)
  }

  /** The run of `steps` from a freshly constructed coordinator. */
  function Execute(steps: seq<Step>, entryId: string): Run
    requires StepsOf(steps, entryId)
  {
    if steps == [] then Run(Initial, [])
    else
      var before := Execute(steps[..|steps| - 1], entryId);
      var last := Apply(before.state, steps[|steps| - 1]);
      Run(last.state, before.effects + last.effects)
  }

  /** The creates and dismisses of notification `id` alternate, starting
      with a create, and the notification is open (an odd count) exactly
      when the recorded verdict of `d` is down. */
  ghost predicate AlertsFollowVerdict(st: State, effects: seq<Effect>, id: string, d: DeviceId) {
    OpenAlternating(Marks(effects, id), Recorded(st, d))
  }

  /** `m` alternates true, false, true, ... and ends in true exactly when
      `open`. */
  ghost predicate OpenAlternating(m: seq<bool>, open: bool) {
    && (forall i :: 0 <= i < |m| ==> m[i] == (i % 2 == 0))
    && (open <==> |m| % 2 == 1)
  }

  /** Appending nothing, or the opposite of the current openness, keeps the
      alternation. */
  lemma Alternate(m: seq<bool>, open: bool, add: seq<bool>, open': bool)
    requires OpenAlternating(m, open)
    requires (add == [] && open' == open) || (add == [open'] && open' == !open)
    ensures OpenAlternating(m + add, open')
  {
  }

  lemma VisitKeepsAlerts(st: State, effects: seq<Effect>, env: Env, timeout: int, now: int,
                         visited: DeviceId, d: DeviceId)
    requires WellTyped(env.entry)
    requires AlertsFollowVerdict(st, effects, NotificationId(env.entry.entryId, d), d)
    ensures var v := Visit(st, env, timeout, now, visited);
            AlertsFollowVerdict(v.state, effects + v.effects, NotificationId(env.entry.entryId, d), d)
  {
    var id := NotificationId(env.entry.entryId, d);
    var v := Visit(st, env, timeout, now, visited);
    var add: seq<bool>;
    if v.effects == [] {
      add := [];
    } else {
      MarksOfTransition(env.entry, env.devices, visited, v.health.down, v.health, id);
      if d == visited {
        add := [v.health.down];
      } else {
        if id == NotificationId(env.entry.entryId, visited) {
          NotificationIdInjective(env.entry.entryId, d, visited);
        }
        add := [];
      }
    }
    assert Marks(v.effects, id) == add;
    MarksAppend(effects, v.effects, id);
    Alternate(Marks(effects, id), Recorded(st, d), add, Recorded(v.state, d));
  }

  lemma {:induction false} RunCycleKeepsAlerts(st: State, effects: seq<Effect>, env: Env, timeout: int,
                                               now: int, ids: seq<DeviceId>, d: DeviceId)
    requires WellTyped(env.entry)
    requires AlertsFollowVerdict(st, effects, NotificationId(env.entry.entryId, d), d)
    ensures var r := RunCycle(st, env, timeout, now, ids);
            AlertsFollowVerdict(r.state, effects + r.effects, NotificationId(env.entry.entryId, d), d)
  {
    if ids == [] {
      assert effects + [] == effects;
    } else {
      var init := ids[..|ids| - 1];
      RunCycleKeepsAlerts(st, effects, env, timeout, now, init, d);
      var before := RunCycle(st, env, timeout, now, init);
      var v := Visit(before.state, env, timeout, now, ids[|ids| - 1]);
      VisitKeepsAlerts(before.state, effects + before.effects, env, timeout, now, ids[|ids| - 1], d);
      assert RunCycle(st, env, timeout, now, ids).effects == before.effects + v.effects;
      assert RunCycle(st, env, timeout, now, ids).state == v.state;
      Seqs.AppendAssoc(effects, before.effects, v.effects);
    }
  }

  /** Over any run, each device's notification is created at most once per
      change to down and dismissed at most once per recovery: the creates
      and dismisses alternate, beginning with a create, and the last of
      them is a create exactly when the device is recorded as down. */
  lemma {:induction false} AlertsAlternate(steps: seq<Step>, entryId: string, d: DeviceId)
    requires StepsOf(steps, entryId)
    ensures var r := Execute(steps, entryId);
            AlertsFollowVerdict(r.state, r.effects, NotificationId(entryId, d), d)
  {
    if steps != [] {
      var init := steps[..|steps| - 1];
      assert StepsOf(init, entryId);
      AlertsAlternate(init, entryId, d);
      var before := Execute(init, entryId);
      var step := steps[|steps| - 1];
      match step
      case Event(env, ev, now) =>
        assert before.effects + [] == before.effects;
      case Tick(env, now) =>
        RunCycleKeepsAlerts(before.state, before.effects, env, TimeoutSeconds(env.entry), now,
                            Watched(env.entry), d);
    }
  }

  /** `d` has a `last_ok` of `t` or later. */
  predicate LastOkSince(st: State, d: DeviceId, t: int) {
    d in st.lastOk && st.lastOk[d] >= t
  }

  /** No step moves a `last_ok` back, as long as the clock does not go
      back: events only set it to their own time, cycles only initialise
      it. */
  lemma StepKeepsLastOkSince(st: State, step: Step, d: DeviceId, t: int)
    requires WellTyped(step.env.entry)
    requires LastOkSince(st, d, t)
    requires step.now >= t
    ensures LastOkSince(Apply(st, step).state, d, t)
  {
    match step
    case Event(env, ev, now) =>
    case Tick(env, now) =>
      var r := Update(st, env, now);
      if d in Watched(env.entry) {
        assert Get(r.state.lastOk, d) == LastOkAfter(st, env, TimeoutSeconds(env.entry), now, d);
      } else {
        assert Get(r.state.lastOk, d) == Get(st.lastOk, d);
      }
  }

  /** A refreshing event sets `last_ok` to its own time. */
  lemma RefreshSetsLastOk(st: State, step: Step, d: DeviceId)
    requires WellTyped(step.env.entry)
    requires step.Event? && RefreshedDevice(step.env, step.ev) == Some(d)
    ensures LastOkSince(Apply(st, step).state, d, step.now)
  {
  }

  /** The state after `n` steps is the `n`-th step applied to the state
      after `n - 1`. */
  lemma ExecuteLast(steps: seq<Step>, entryId: string, n: nat)
    requires StepsOf(steps, entryId)
    requires 0 < n <= |steps|
    ensures StepsOf(steps[..n], entryId) && StepsOf(steps[..n - 1], entryId)
    ensures Execute(steps[..n], entryId).state == Apply(Execute(steps[..n - 1], entryId).state, steps[n - 1]).state
    ensures Execute(steps[..n], entryId).effects
            == Execute(steps[..n - 1], entryId).effects + Apply(Execute(steps[..n - 1], entryId).state, steps[n - 1]).effects
  {
    assert steps[..n][..n - 1] == steps[..n - 1];
  }

  /** After step `k` refreshed `d`, every later state keeps a `last_ok` for
      `d` no older than that step. */
  lemma {:induction false} LastOkSinceReport(steps: seq<Step>, entryId: string, k: nat, d: DeviceId, n: nat)
    requires StepsOf(steps, entryId)
    requires k < n <= |steps|
    requires steps[k].Event? && RefreshedDevice(steps[k].env, steps[k].ev) == Some(d)
    requires forall j :: k < j < |steps| ==> steps[j].now >= steps[k].now
    ensures StepsOf(steps[..n], entryId)
    ensures LastOkSince(Execute(steps[..n], entryId).state, d, steps[k].now)
  {
    ExecuteLast(steps, entryId, n);
    var before := Execute(steps[..n - 1], entryId).state;
    if n == k + 1 {
      RefreshSetsLastOk(before, steps[k], d);
    } else {
      LastOkSinceReport(steps, entryId, k, d, n - 1);
      StepKeepsLastOkSince(before, steps[n - 1], d, steps[k].now);
    }
  }

  /** Once an entity of `d` has reported a good state, an update cycle no
      more than one timeout later does not find `d` down, whatever the
      states of its entities are by then, as long as the clock does not go
      back and `d` still has an entity. */
  lemma RecentReportKeepsDeviceUp(steps: seq<Step>, entryId: string, k: nat, d: DeviceId)
    requires StepsOf(steps, entryId)
    requires k < |steps| - 1
    requires steps[k].Event? && RefreshedDevice(steps[k].env, steps[k].ev) == Some(d)
    requires forall j :: k < j < |steps| ==> steps[j].now >= steps[k].now
    requires var last := steps[|steps| - 1];
             && last.Tick?
             && EntitiesOf(last.env.entities, d) != {}
             && last.now - steps[k].now <= TimeoutSeconds(last.env.entry)
    ensures var last := steps[|steps| - 1];
            !VerdictOf(Execute(steps[..|steps| - 1], entryId).state, last.env, TimeoutSeconds(last.env.entry), last.now, d).down
  {
    LastOkSinceReport(steps, entryId, k, d, |steps| - 1);
  }

  /** An update cycle never changes a `last_ok` that is already set: it
      only initialises missing ones. */
  lemma TickKeepsLastOk(st: State, step: Step, d: DeviceId)
    requires WellTyped(step.env.entry)
    requires step.Tick? && d in st.lastOk
    ensures Get(Apply(st, step).state.lastOk, d) == Get(st.lastOk, d)
  {
    var r := Update(st, step.env, step.now);
    if d in Watched(step.env.entry) {
      assert Get(r.state.lastOk, d) == LastOkAfter(st, step.env, TimeoutSeconds(step.env.entry), step.now, d);
    }
  }

  /** In a run of update cycles alone, with no state event delivered, a
      device's `last_ok` stays the time of the first cycle that saw it
      good: once set after `m` steps, it is the same after every later
      step. */
  lemma {:induction false} TicksNeverAdvanceLastOk(steps: seq<Step>, entryId: string, d: DeviceId, m: nat, n: nat)
    requires StepsOf(steps, entryId)
    requires forall i :: 0 <= i < |steps| ==> steps[i].Tick?
    requires m <= n <= |steps|
    ensures StepsOf(steps[..m], entryId) && StepsOf(steps[..n], entryId)
    ensures d in Execute(steps[..m], entryId).state.lastOk ==>
              Get(Execute(steps[..n], entryId).state.lastOk, d) == Get(Execute(steps[..m], entryId).state.lastOk, d)
  {
    PrefixSteps(steps, entryId, m);
    PrefixSteps(steps, entryId, n);
    if d in Execute(steps[..m], entryId).state.lastOk {
      KeptSince(steps, entryId, d, m, n);
    }
  }

  /** The induction behind `TicksNeverAdvanceLastOk`, from a step `m` at
      which `d` has a `last_ok`. */
  lemma {:induction false} KeptSince(steps: seq<Step>, entryId: string, d: DeviceId, m: nat, n: nat)
    requires StepsOf(steps, entryId)
    requires forall i :: 0 <= i < |steps| ==> steps[i].Tick?
    requires m <= n <= |steps|
    requires StepsOf(steps[..m], entryId) && d in Execute(steps[..m], entryId).state.lastOk
    ensures StepsOf(steps[..n], entryId)
    ensures Get(Execute(steps[..n], entryId).state.lastOk, d) == Get(Execute(steps[..m], entryId).state.lastOk, d)
  {
    if n > m {
      ExecuteLast(steps, entryId, n);
      KeptSince(steps, entryId, d, m, n - 1);
      TickKeepsLastOk(Execute(steps[..n - 1], entryId).state, steps[n - 1], d);
    }
  }

  lemma PrefixSteps(steps: seq<Step>, entryId: string, m: nat)
    requires StepsOf(steps, entryId) && m <= |steps|
    ensures StepsOf(steps[..m], entryId)
  {
    assert forall i :: 0 <= i < m ==> steps[..m][i] == steps[i];
  }
}
