/** The "Down Count" and "Down Devices" sensors (sensor.py). Down Count
    reads only `down` and works on the coordinator's snapshot. Down Devices
    reads a display name, a tier and a timeout in minutes from each entry,
    which the coordinator's `DeviceHealth` does not carry; it is modelled
    over a view record that does. */
module DownSensors {
  import opened Wrappers
  import opened Registry
  import Strings
  import Seqs
  import Health
  import Config
  import Snapshot
  import Coordinator
  import ProblemSensor

  /** What the Down Devices sensor reads from one published entry. */
  datatype DeviceView = DeviceView(deviceId: DeviceId, deviceName: string, tier: string, down: bool,
                                   reason: string, timeoutMinutes: int, lastOk: Option<int>)

  function Entries(data: Option<seq<DeviceView>>): seq<DeviceView> {
    data.GetOr([])
  }

  predicate IsDown(v: DeviceView) { v.down }

  /** Down Count `native_value`: how many entries of the coordinator's
      snapshot are down. */
  function DownCount(data: Option<seq<Health.DeviceHealth>>): (r: nat)
    ensures r == |Seqs.PositionsWhere(ProblemSensor.Entries(data), ProblemSensor.IsDown)|
    ensures data.None? ==> r == 0
    ensures r > 0 <==> ProblemSensor.IsOn(data)
    // the Problem sensor's `down_count` attribute shows the same number
    ensures r == ProblemSensor.ProblemAttributes(data).downCount
  {
    Seqs.CountIsPositions(ProblemSensor.Entries(data), ProblemSensor.IsDown);
    Seqs.Count(ProblemSensor.Entries(data), ProblemSensor.IsDown)
  }

  /** After an update cycle, Down Count is positive exactly when some watched
      device got a down verdict in that cycle. */
  lemma DownCountAfterUpdate(st: Coordinator.State, env: Coordinator.Env, now: int)
    requires Config.WellTyped(env.entry)
    ensures var t := Config.TimeoutSeconds(env.entry);
            DownCount(Some(Coordinator.Update(st, env, now).snapshot)) > 0
            <==> exists d :: d in Config.Watched(env.entry) && Coordinator.VerdictOf(st, env, t, now, d).down
  {
    var r := Coordinator.Update(st, env, now);
    DownCountOfSnapshot(st, env, Config.TimeoutSeconds(env.entry), now, Config.Watched(env.entry), r.snapshot);
    assert DownCount(Some(r.snapshot)) > 0 <==> ProblemSensor.IsOn(Some(r.snapshot));
  }

  /** A snapshot with one entry per id, each carrying its verdict, has a
      down entry exactly when some id has a down verdict. */
  lemma DownCountOfSnapshot(st: Coordinator.State, env: Coordinator.Env, t: int, now: int,
                            ids: seq<DeviceId>, s: seq<Health.DeviceHealth>)
    requires Snapshot.Ids(s) == Snapshot.FirstOccurrences(ids)
    requires forall i :: 0 <= i < |s| ==>
               Health.Verdict(s[i].down, s[i].reason) == Coordinator.VerdictOf(st, env, t, now, s[i].deviceId)
    ensures (exists i :: 0 <= i < |s| && s[i].down) <==> exists d :: d in ids && Coordinator.VerdictOf(st, env, t, now, d).down
  {
    if exists i :: 0 <= i < |s| && s[i].down {
      var i :| 0 <= i < |s| && s[i].down;
      assert Snapshot.Ids(s)[i] == s[i].deviceId;
      assert s[i].deviceId in ids;
    }
    if exists d :: d in ids && Coordinator.VerdictOf(st, env, t, now, d).down {
      var d :| d in ids && Coordinator.VerdictOf(st, env, t, now, d).down;
      assert d in Snapshot.Ids(s);
      var i :| 0 <= i < |s| && Snapshot.Ids(s)[i] == d;
      assert s[i].down;
    }
  }

  /** `f"{name} ({tier}, {timeout}m)"`: the name, then the tier and the
      timeout's decimal text in brackets. */
  function Fragment(v: DeviceView): (r: string)
    ensures v.deviceName <= r && r != []
    ensures " (" + v.tier + ", " <= r[|v.deviceName|..]
    ensures var k := |v.deviceName| + |v.tier| + 4;
            k + 2 <= |r| && r[k..|r| - 2] == Strings.IntToDecimal(v.timeoutMinutes) && r[|r| - 2..] == "m)"
  {
    v.deviceName + " (" + v.tier + ", " + Strings.IntToDecimal(v.timeoutMinutes) + "m)"
  }

  const Separator: string := ", "

  /** Down Devices `native_value`: the fragments of the down entries joined
      by ", ", or the empty string when none is down. */
  function DownDevicesText(data: Option<seq<DeviceView>>): (r: string)
    ensures r == [] <==> forall i :: 0 <= i < |Entries(data)| ==> !Entries(data)[i].down
    // the text starts with the first down device
    ensures forall i :: 0 <= i < |Entries(data)| && Entries(data)[i].down
                        && (forall j :: 0 <= j < i ==> !Entries(data)[j].down)
              ==> Fragment(Entries(data)[i]) <= r
    // and names every down device
    ensures forall i :: 0 <= i < |Entries(data)| && Entries(data)[i].down ==> Strings.Occurs(Fragment(Entries(data)[i]), r)
  {
    var frags := DownFragmentsOf(Entries(data));
    var r := if frags != [] then Strings.Join(frags, Separator) else "";
    JoinedDownFragments(data, frags, r);
    r
  }

  /** `[fragment(h) for h in data.values() if h.down]`. */
  function DownFragmentsOf(s: seq<DeviceView>): (frags: seq<string>)
    ensures FragmentsOfDown(s, frags)
  {
    DownFragments(s);
    Seqs.MapSeq(Seqs.Filter(s, IsDown), Fragment)
  }

  /** What the fragments of the down entries are: none exactly when no entry
      is down, the first down entry's first, and one for every down entry. */
  predicate FragmentsOfDown(s: seq<DeviceView>, frags: seq<string>) {
    && (frags == [] <==> forall i :: 0 <= i < |s| ==> !s[i].down)
    && (forall i :: 0 <= i < |s| && s[i].down && (forall j :: 0 <= j < i ==> !s[j].down)
          ==> frags != [] && frags[0] == Fragment(s[i]))
    && (forall i :: 0 <= i < |s| && s[i].down ==> exists k :: 0 <= k < |frags| && frags[k] == Fragment(s[i]))
  }

  /** Joining such fragments gives a text that is empty exactly when no
      entry is down, starts with the first down entry's fragment, and names
      every down entry. */
  lemma JoinedDownFragments(data: Option<seq<DeviceView>>, frags: seq<string>, r: string)
    requires FragmentsOfDown(Entries(data), frags)
    requires r == if frags != [] then Strings.Join(frags, Separator) else ""
    ensures r == [] <==> forall i :: 0 <= i < |Entries(data)| ==> !Entries(data)[i].down
    ensures forall i :: 0 <= i < |Entries(data)| && Entries(data)[i].down
                        && (forall j :: 0 <= j < i ==> !Entries(data)[j].down)
              ==> Fragment(Entries(data)[i]) <= r
    ensures forall i :: 0 <= i < |Entries(data)| && Entries(data)[i].down ==> Strings.Occurs(Fragment(Entries(data)[i]), r)
  {
    var s := Entries(data);
    if frags != [] {
      assert frags[0] <= r;
      forall i | 0 <= i < |s| && s[i].down ensures Strings.Occurs(Fragment(s[i]), r) {
        var k :| 0 <= k < |frags| && frags[k] == Fragment(s[i]);
        Strings.JoinHasPart(frags, Separator, k);
      }
    }
  }

  /** The fragments of the down entries, in order, are such fragments. */
  lemma DownFragments(s: seq<DeviceView>)
    ensures FragmentsOfDown(s, Seqs.MapSeq(Seqs.Filter(s, IsDown), Fragment))
  {
    FilteredDowns(s);
    FragmentsOfDowns(s, Seqs.Filter(s, IsDown));
  }

  /** `downs` lists the down entries of `s`: none exactly when no entry is
      down, the first down entry first, and every down entry somewhere. */
  predicate DownsOf(s: seq<DeviceView>, downs: seq<DeviceView>) {
    && (downs == [] <==> forall i :: 0 <= i < |s| ==> !s[i].down)
    && (forall i :: 0 <= i < |s| && s[i].down && (forall j :: 0 <= j < i ==> !s[j].down)
          ==> downs != [] && downs[0] == s[i])
    && (forall i :: 0 <= i < |s| && s[i].down ==> exists k :: 0 <= k < |downs| && downs[k] == s[i])
  }

  lemma FilteredDowns(s: seq<DeviceView>)
    ensures DownsOf(s, Seqs.Filter(s, IsDown))
  {
    var downs := Seqs.Filter(s, IsDown);
    forall i | 0 <= i < |s| && s[i].down && (forall j :: 0 <= j < i ==> !s[j].down)
      ensures downs != [] && downs[0] == s[i]
    {
      Seqs.FilterFirst(s, IsDown, i);
    }
    forall i | 0 <= i < |s| && s[i].down
      ensures exists k :: 0 <= k < |downs| && downs[k] == s[i]
    {
      assert s[i] in downs;
    }
    if forall i :: 0 <= i < |s| ==> !s[i].down {
      Seqs.FilterNone(s, IsDown);
    }
  }

  lemma FragmentsOfDowns(s: seq<DeviceView>, downs: seq<DeviceView>)
    requires DownsOf(s, downs)
    ensures FragmentsOfDown(s, Seqs.MapSeq(downs, Fragment))
  {
    var frags := Seqs.MapSeq(downs, Fragment);
    forall i | 0 <= i < |s| && s[i].down
      ensures exists k :: 0 <= k < |frags| && frags[k] == Fragment(s[i])
    {
      var k :| 0 <= k < |downs| && downs[k] == s[i];
      assert frags[k] == Fragment(s[i]);
    }
  }

  /** One entry of the Down Devices attribute map. */
  datatype DeviceAttributes = DeviceAttributes(name: string, tier: string, down: bool, reason: string,
                                               timeoutMinutes: int, lastOk: Option<int>)

  function AttributesOf(v: DeviceView): DeviceAttributes {
    DeviceAttributes(v.deviceName, v.tier, v.down, v.reason, v.timeoutMinutes, v.lastOk)
  }

  /** Down Devices `extra_state_attributes`: the dict comprehension keyed
      by device id (a later entry with the same id overwrites an earlier
      one). */
  function DownDevicesAttributes(data: Option<seq<DeviceView>>): (r: map<DeviceId, DeviceAttributes>)
    ensures forall d :: d in r <==> exists i :: 0 <= i < |Entries(data)| && Entries(data)[i].deviceId == d
    ensures forall i :: 0 <= i < |Entries(data)| && LastWithId(Entries(data), i) ==>
              r[Entries(data)[i].deviceId] == AttributesOf(Entries(data)[i])
  {
    AttributeMapValues(Entries(data));
    AttributeMap(Entries(data))
  }

  /** No later entry has the same id as entry `i`. */
  predicate LastWithId(s: seq<DeviceView>, i: int)
    requires 0 <= i < |s|
  {
    forall j :: i < j < |s| ==> s[j].deviceId != s[i].deviceId
  }

  function AttributeMap(s: seq<DeviceView>): (r: map<DeviceId, DeviceAttributes>)
    ensures forall d :: d in r <==> exists i :: 0 <= i < |s| && s[i].deviceId == d
  {
    if s == [] then map[]
    else
      var before := AttributeMap(s[..|s| - 1]);
      assert forall i :: 0 <= i < |s| - 1 ==> s[..|s| - 1][i] == s[i];
      before[s[|s| - 1].deviceId := AttributesOf(s[|s| - 1])]
  }

  /** Each key holds the attributes of the last entry with that id. */
  lemma {:induction false} AttributeMapValues(s: seq<DeviceView>)
    ensures forall i :: 0 <= i < |s| && LastWithId(s, i) ==> AttributeMap(s)[s[i].deviceId] == AttributesOf(s[i])
  {
    if s != [] {
      var init := s[..|s| - 1];
      AttributeMapValues(init);
      forall i | 0 <= i < |s| && LastWithId(s, i)
        ensures AttributeMap(s)[s[i].deviceId] == AttributesOf(s[i])
      {
        if i < |s| - 1 {
          assert init[i] == s[i];
          assert LastWithId(init, i);
        }
      }
    }
  }
}
