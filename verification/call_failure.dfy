/** The update cycle when the configured notify service does not exist.
    `_maybe_notify` then calls `hass.services.async_call` with an unknown
    service (coordinator.py:184), which raises, and nothing between there
    and `_async_update_data` catches it. The iteration stops after
    `_down_state` has recorded the new verdict (line 140) and the
    persistent notification call has gone out (line 154 or 165): the event
    of line 162 or 175 is never fired, the loop ends, and the cycle
    publishes no snapshot. `Coordinator` models the cycle in which every
    call returns; this module says where the two part. */
module CallFailure {
  import opened Wrappers
  import opened Registry
  import opened Config
  import opened Health
  import opened Notify
  import opened Snapshot
  import opened Coordinator

  /** `_notify_transition` reaches `_maybe_notify` with a non-empty
      address: always on a failure, on a recovery only when recovery
      messages are on. */
  predicate CallsOut(entry: ConfigEntry, down: bool)
    requires WellTyped(entry)
  {
    NotifyService(entry) != "" && (down || NotifyRecovered(entry))
  }

  /** How one loop iteration ends: it completes, or the outbound call
      raises, leaving the state it had reached and the effects already
      sent. */
  datatype Outcome = Completed(visited: Visited) | Raised(state: State, effects: seq<Effect>)

  /** One iteration of the loop as written, where `serviceExists` says
      whether the configured notify service exists. */
  function VisitAsWritten(st: State, env: Env, timeout: int, now: int, d: DeviceId, serviceExists: bool): (r: Outcome)
    requires WellTyped(env.entry)
    ensures var v := VerdictOf(st, env, timeout, now, d);
            r.Raised? <==> !serviceExists && v.down != Recorded(st, d) && CallsOut(env.entry, v.down)
    // when nothing raises, the iteration is the one `Coordinator` models
    ensures r.Completed? ==> r.visited == Visit(st, env, timeout, now, d)
    // a raise comes after the new verdict is recorded and the notification
    // is created or dismissed, and before any event
    ensures r.Raised? ==> && Recorded(r.state, d) == VerdictOf(st, env, timeout, now, d).down
                          && |r.effects| == 1
                          && r.effects[0] == (if Recorded(r.state, d) then Create(NotificationId(env.entry.entryId, d), Title, DownMessage(DeviceName(env.devices, d), VerdictOf(st, env, timeout, now, d).reason.Code()))
                                              else Dismiss(NotificationId(env.entry.entryId, d)))
  {
    var v := Visit(st, env, timeout, now, d);
    if v.effects != [] && !serviceExists && CallsOut(env.entry, v.health.down) then
      Raised(v.state, v.effects[..1])
    else
      Completed(v)
  }

  /** How a cycle ends: with its result, or aborted by a raise, with the
      state reached and the effects sent until then. */
  datatype CycleOutcome = Finished(cycle: Cycle) | Aborted(state: State, effects: seq<Effect>)

  /** The loop of `_async_update_data` over `ids` as written: the first
      raise ends it. */
  function RunCycleAsWritten(st: State, env: Env, timeout: int, now: int, ids: seq<DeviceId>, serviceExists: bool): (r: CycleOutcome)
    requires WellTyped(env.entry)
    // a cycle that finishes is the one `Coordinator` models
    ensures r.Finished? ==> r.cycle == RunCycle(st, env, timeout, now, ids)
    ensures serviceExists ==> r.Finished?
  {
    if ids == [] then Finished(Cycle(st, [], []))
    else
      match RunCycleAsWritten(st, env, timeout, now, ids[..|ids| - 1], serviceExists)
      case Aborted(s, e) => Aborted(s, e)
      case Finished(before) =>
        match VisitAsWritten(before.state, env, timeout, now, ids[|ids| - 1], serviceExists)
        case Raised(s, e) => Aborted(s, before.effects + e)
        case Completed(v) => Finished(Cycle(v.state, Put(before.snapshot, v.health), before.effects + v.effects))
  }

  /** Once a prefix of the ids has aborted the cycle, the later ids are
      never visited: the whole cycle ends as that prefix did. */
  lemma {:induction false} AbortSkipsLaterIds(st: State, env: Env, timeout: int, now: int, ids: seq<DeviceId>,
                                              k: nat, serviceExists: bool)
    requires WellTyped(env.entry)
    requires k <= |ids|
    requires RunCycleAsWritten(st, env, timeout, now, ids[..k], serviceExists).Aborted?
    ensures RunCycleAsWritten(st, env, timeout, now, ids, serviceExists)
            == RunCycleAsWritten(st, env, timeout, now, ids[..k], serviceExists)
  {
    if k < |ids| {
      assert ids[..|ids|][..|ids| - 1] == ids[..|ids| - 1];
      assert ids[..|ids| - 1][..k] == ids[..k];
      AbortSkipsLaterIds(st, env, timeout, now, ids[..|ids| - 1], k, serviceExists);
    } else {
      assert ids[..k] == ids;
    }
  }

  /** A device that goes down while the notify service is missing: the
      iteration raises with `down` already recorded, only the create has
      gone out and no event was fired; and the next iteration with the same
      inputs finds no change, so it sends nothing and the down event is
      lost. */
  lemma DownEventLost(st: State, env: Env, timeout: int, now: int, d: DeviceId)
    requires WellTyped(env.entry)
    requires VerdictOf(st, env, timeout, now, d).down && !Recorded(st, d)
    requires NotifyService(env.entry) != ""
    ensures var r := VisitAsWritten(st, env, timeout, now, d, false);
            && r.Raised?
            && Recorded(r.state, d)
            && (forall i :: 0 <= i < |r.effects| ==> !r.effects[i].Fire?)
            && Visit(r.state, env, timeout, now, d).effects == []
  {
    var r := VisitAsWritten(st, env, timeout, now, d, false);
    assert r.state == Visit(st, env, timeout, now, d).state;
    assert r.effects == [Create(NotificationId(env.entry.entryId, d), Title,
                                DownMessage(DeviceName(env.devices, d), VerdictOf(st, env, timeout, now, d).reason.Code()))];
    RevisitSilent(st, env, timeout, now, d, r.state);
  }

  /** A state that already records `d`'s verdict and `last_ok` from a visit
      of `d` sees no change when `d` is visited again with the same inputs. */
  lemma RevisitSilent(st: State, env: Env, timeout: int, now: int, d: DeviceId, again: State)
    requires WellTyped(env.entry)
    requires Recorded(again, d) == VerdictOf(st, env, timeout, now, d).down
    requires Get(again.lastOk, d) == LastOkAfter(st, env, timeout, now, d)
    ensures Visit(again, env, timeout, now, d).effects == []
  {
    EvaluateAgain(st.lastOk, again.lastOk, d, env.entities, env.states, now, timeout);
  }
}
