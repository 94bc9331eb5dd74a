/** One evaluation of one watched device (the body of the loop in
    `_async_update_data`, coordinator.py) and the `DeviceHealth` record. */
module Health {
  import opened Wrappers
  import opened Registry

  /** The reason codes a verdict carries. */
  datatype Reason = NoEntities | Ok | NeverOk | Timeout | Waiting {

    /** The string the integration stores in `DeviceHealth.reason`. */
    function Code(): string {
      match this
      case NoEntities => "no_entities"
      case Ok => "ok"
      case NeverOk => "never_ok"
      case Timeout => "timeout"
      case Waiting => "waiting"
    }

    /** The reasons that come with a down verdict. */
    predicate MeansDown() {
      NoEntities? || NeverOk? || Timeout?
    }
  }

  datatype Verdict = Verdict(down: bool, reason: Reason)

  /** `DeviceHealth`: the published verdict of one device. Times are whole
      seconds. */
  datatype DeviceHealth = DeviceHealth(deviceId: DeviceId, down: bool, reason: Reason, lastOk: Option<int>)

  /** `_last_ok`: the time each device last reported a good state. */
  type LastOk = map<DeviceId, int>

  /** A verdict together with the `_last_ok` map as the evaluation leaves it. */
  datatype Evaluation = Evaluation(verdict: Verdict, lastOk: LastOk)

  /** The verdict for device `d` at time `now`, with the flat `timeout` in
      seconds. A device without entities is down; one with a good entity
      is up (and its `last_ok` is initialised if it had none); otherwise
      it is down if it never was good, or if more than `timeout` seconds
      have passed since it last was. */
  function Evaluate(lastOk: LastOk, d: DeviceId, entities: EntityRegistry, states: StateTable,
                    now: int, timeout: int): (r: Evaluation)
    // the reason always agrees with the verdict
    ensures r.verdict.down <==> r.verdict.reason.MeansDown()
    // a good signal in this cycle is never reported as down
    ensures AnyGood(entities, states, d) ==> !r.verdict.down && r.verdict.reason == Ok
    ensures EntitiesOf(entities, d) == {} ==> r.verdict == Verdict(true, NoEntities)
    ensures EntitiesOf(entities, d) != {} && !AnyGood(entities, states, d) ==>
              if d !in lastOk then r.verdict == Verdict(true, NeverOk)
              else (r.verdict.down <==> now - lastOk[d] > timeout)
                   && r.verdict.reason == (if r.verdict.down then Timeout else Waiting)
    // `_last_ok` is only ever initialised here, never advanced
    ensures forall k :: k in lastOk ==> k in r.lastOk && r.lastOk[k] == lastOk[k]
    ensures forall k :: k in r.lastOk && k !in lastOk ==> k == d && r.lastOk[k] == now
    ensures d in r.lastOk && d !in lastOk <==> d !in lastOk && AnyGood(entities, states, d)
  {
    if EntitiesOf(entities, d) == {} then
      Evaluation(Verdict(true, NoEntities), lastOk)
    else if AnyGood(entities, states, d) then
      Evaluation(Verdict(false, Ok), lastOk[d := Get(lastOk, d).GetOr(now)])
    else if d !in lastOk then
      Evaluation(Verdict(true, NeverOk), lastOk)
    else
      var down := now - lastOk[d] > timeout;
      Evaluation(Verdict(down, if down then Timeout else Waiting), lastOk)
  }

  /** The evaluation of `d` reads `_last_ok` only at `d`. */
  lemma EvaluateReadsOnlyOwnEntry(a: LastOk, b: LastOk, d: DeviceId, entities: EntityRegistry,
                                  states: StateTable, now: int, timeout: int)
    requires Get(a, d) == Get(b, d)
    ensures Evaluate(a, d, entities, states, now, timeout).verdict == Evaluate(b, d, entities, states, now, timeout).verdict
    ensures Get(Evaluate(a, d, entities, states, now, timeout).lastOk, d) == Get(Evaluate(b, d, entities, states, now, timeout).lastOk, d)
  {
    assert d in a <==> d in b;
  }

  /** Evaluating `d` again, on the map an evaluation of `d` left behind,
      gives the same verdict and leaves `d`'s entry alone. */
  lemma EvaluateAgain(lastOk: LastOk, again: LastOk, d: DeviceId, entities: EntityRegistry,
                      states: StateTable, now: int, timeout: int)
    requires Get(again, d) == Get(Evaluate(lastOk, d, entities, states, now, timeout).lastOk, d)
    ensures Evaluate(again, d, entities, states, now, timeout).verdict == Evaluate(lastOk, d, entities, states, now, timeout).verdict
    ensures Get(Evaluate(again, d, entities, states, now, timeout).lastOk, d) == Get(again, d)
  {
    assert d in again <==> d in Evaluate(lastOk, d, entities, states, now, timeout).lastOk;
  }
}
