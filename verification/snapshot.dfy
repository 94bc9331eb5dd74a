/** The coordinator's published data: a Python dict from device id to
    `DeviceHealth`, kept as the sequence of its values in insertion order
    (each value carries its own key). */
module Snapshot {
  import opened Wrappers
  import opened Registry
  import opened Health
  import Seqs

  function IdOf(h: DeviceHealth): DeviceId { h.deviceId }

  /** The dict's keys, in order. */
  function Ids(s: seq<DeviceHealth>): (r: seq<DeviceId>)
    ensures |r| == |s|
    ensures forall i :: 0 <= i < |s| ==> r[i] == s[i].deviceId
  {
    Seqs.MapSeq(s, IdOf)
  }

  /** No key occurs twice. */
  predicate DistinctIds(s: seq<DeviceHealth>) {
    forall i, j :: 0 <= i < j < |s| ==> s[i].deviceId != s[j].deviceId
  }

  /** The position of the first entry with key `d`. */
  function IndexOf(s: seq<DeviceHealth>, d: DeviceId): (i: nat)
    requires d in Ids(s)
    ensures i < |s| && s[i].deviceId == d
    ensures forall j :: 0 <= j < i ==> s[j].deviceId != d
  {
    if s[0].deviceId == d then 0
    else
      assert d in Ids(s[1..]) by {
        var k :| 0 <= k < |s| && Ids(s)[k] == d;
        assert Ids(s[1..])[k - 1] == d;
      }
      var k := IndexOf(s[1..], d);
      assert forall j :: 0 < j <= k ==> s[j] == s[1..][j - 1];
      1 + k
  }

  /** `data[h.device_id] = h`: replaces the value in place when the key is
      already there, appends otherwise. */
  function Put(s: seq<DeviceHealth>, h: DeviceHealth): (r: seq<DeviceHealth>)
    ensures h.deviceId in Ids(s) ==> Ids(r) == Ids(s)
    ensures h.deviceId !in Ids(s) ==> r == s + [h]
    ensures DistinctIds(s) ==> forall i :: 0 <= i < |s| ==> r[i] == (if s[i].deviceId == h.deviceId then h else s[i])
    ensures DistinctIds(s) ==> DistinctIds(r)
  {
    if h.deviceId in Ids(s) then
      var i := IndexOf(s, h.deviceId);
      var r := s[i := h];
      assert Ids(r) == Ids(s);
      r
    else
      var r := s + [h];
      assert forall i :: 0 <= i < |s| ==> s[i].deviceId == Ids(s)[i];
      r
  }

  /** The distinct elements of `ids`, in order of first occurrence: the key
      order of a dict filled by walking `ids`. */
  function FirstOccurrences(ids: seq<DeviceId>): (r: seq<DeviceId>)
    ensures forall x :: x in r <==> x in ids
    ensures forall i, j :: 0 <= i < j < |r| ==> r[i] != r[j]
  {
    if ids == [] then []
    else
      var init := FirstOccurrences(ids[..|ids| - 1]);
      var last := ids[|ids| - 1];
      assert ids == ids[..|ids| - 1] + [last];
      if last in init then init else init + [last]
  }
}
