/** The "Problem" binary sensor (binary_sensor.py): pure aggregates over
    the coordinator's published data. */
module ProblemSensor {
  import opened Wrappers
  import opened Registry
  import opened Health
  import opened Snapshot
  import Seqs

  /** `coordinator.data or {}`: before the first refresh there is no data. */
  function Entries(data: Option<seq<DeviceHealth>>): seq<DeviceHealth> {
    data.GetOr([])
  }

  predicate IsDown(h: DeviceHealth) { h.down }

  /** `is_on`: `any(h.down for h in data.values())`, true when at least
      one entry is down. */
  function IsOn(data: Option<seq<DeviceHealth>>): (r: bool)
    ensures r <==> exists i :: 0 <= i < |Entries(data)| && Entries(data)[i].down
    ensures data.None? ==> !r
  {
    Seqs.CountPositiveIffExists(Entries(data), IsDown);
    Seqs.Count(Entries(data), IsDown) > 0
  }

  /** The `down_devices` attribute: the ids of the down entries. */
  function DownDevices(data: Option<seq<DeviceHealth>>): (r: seq<DeviceId>)
    ensures data.None? ==> r == []
    ensures forall d :: d in r <==> exists i :: 0 <= i < |Entries(data)| && Entries(data)[i].down && Entries(data)[i].deviceId == d
    ensures |r| == |Seqs.PositionsWhere(Entries(data), IsDown)|
    ensures Seqs.IsSubsequence(r, Ids(Entries(data)))
  {
    var s := Entries(data);
    var downs := Seqs.Filter(s, IsDown);
    Seqs.CountIsPositions(s, IsDown);
    Seqs.SubsequenceMapped(downs, s, IdOf);
    DownIdsAreDownEntries(s);
    Ids(downs)
  }

  /** The ids of the down entries are exactly the ids some down entry has. */
  lemma DownIdsAreDownEntries(s: seq<DeviceHealth>)
    ensures forall d :: d in Ids(Seqs.Filter(s, IsDown)) <==> exists i :: 0 <= i < |s| && s[i].down && s[i].deviceId == d
  {
    var downs := Seqs.Filter(s, IsDown);
    var r := Ids(downs);
    forall d | d in r ensures exists i :: 0 <= i < |s| && s[i].down && s[i].deviceId == d {
      var k :| 0 <= k < |r| && r[k] == d;
      var i :| 0 <= i < |s| && s[i] == downs[k];
    }
    forall i | 0 <= i < |s| && s[i].down ensures s[i].deviceId in r {
      var k :| 0 <= k < |downs| && downs[k] == s[i];
      assert r[k] == s[i].deviceId;
    }
  }

  datatype Attributes = Attributes(downDevices: seq<DeviceId>, downCount: nat)

  /** `extra_state_attributes`: the down ids and how many there are; the
      count is positive exactly when the sensor is on. */
  function ProblemAttributes(data: Option<seq<DeviceHealth>>): (r: Attributes)
    ensures r.downDevices == DownDevices(data)
    ensures r.downCount == |Seqs.PositionsWhere(Entries(data), IsDown)|
    ensures r.downCount > 0 <==> IsOn(data)
  {
    var down := DownDevices(data);
    Seqs.CountIsPositions(Entries(data), IsDown);
    Seqs.CountPositiveIffExists(Entries(data), IsDown);
    Attributes(down, |down|)
  }
}
