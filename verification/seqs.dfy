/** Generic sequence helpers for the comprehensions of the two sensor
    platforms: `[x for x in xs if p(x)]`, `sum(1 for x in xs if p(x))` and
    `[f(x) for x in xs]`. */
module Seqs {

  /** How many elements of `s` satisfy `p`, counted one by one. */
  function Count<T>(s: seq<T>, p: T -> bool): nat
  {
    if s == [] then 0 else Count(s[..|s| - 1], p) + (if p(s[|s| - 1]) then 1 else 0)
  }

  /** The positions of `s` whose element satisfies `p`. */
  ghost function PositionsWhere<T>(s: seq<T>, p: T -> bool): set<nat> {
    set i: nat | i < |s| && p(s[i])
  }

  /** `a` can be obtained from `b` by deleting elements: `a` keeps `b`'s order. */
  predicate IsSubsequence<T(==)>(a: seq<T>, b: seq<T>)
  {
    || a == []
    || (&& b != []
        && (|| (a[|a| - 1] == b[|b| - 1] && IsSubsequence(a[..|a| - 1], b[..|b| - 1]))
            || IsSubsequence(a, b[..|b| - 1])))
  }

  /** `[x for x in s if p(x)]`. */
  function Filter<T(==)>(s: seq<T>, p: T -> bool): (r: seq<T>)
    ensures |r| == Count(s, p)
    ensures forall i :: 0 <= i < |r| ==> r[i] in s && p(r[i])
    ensures forall i :: 0 <= i < |s| && p(s[i]) ==> s[i] in r
    ensures IsSubsequence(r, s)
  {
    if s == [] then []
    else
      var init := Filter(s[..|s| - 1], p);
      var last := s[|s| - 1];
      assert s == s[..|s| - 1] + [last];
      if p(last) then
        var r := init + [last];
        assert r[..|r| - 1] == init;
        r
      else
        init
  }

  /** `Filter` keeps nothing when nothing satisfies `p`. */
  lemma FilterNone<T>(s: seq<T>, p: T -> bool)
    requires forall j :: 0 <= j < |s| ==> !p(s[j])
    ensures Filter(s, p) == []
  {
    if Filter(s, p) != [] {
      assert false;
    }
  }

  /** The first element `Filter` keeps is the first one satisfying `p`. */
  lemma {:induction false} FilterFirst<T>(s: seq<T>, p: T -> bool, i: nat)
    requires i < |s| && p(s[i])
    requires forall j :: 0 <= j < i ==> !p(s[j])
    ensures |Filter(s, p)| > 0 && Filter(s, p)[0] == s[i]
  {
    var n := |s| - 1;
    var init := s[..n];
    assert Filter(s, p) == if p(s[n]) then Filter(init, p) + [s[n]] else Filter(init, p);
    if i < n {
      assert init[i] == s[i];
      FilterFirst(init, p, i);
    } else {
      assert forall j :: 0 <= j < |init| ==> init[j] == s[j];
      FilterNone(init, p);
    }
  }

  /** `[f(x) for x in s]`. */
  function MapSeq<T, U>(s: seq<T>, f: T -> U): (r: seq<U>)
    ensures |r| == |s|
    ensures forall i :: 0 <= i < |s| ==> r[i] == f(s[i])
  {
    seq(|s|, i requires 0 <= i < |s| => f(s[i]))
  }

  /** The counter agrees with the size of the set of matching positions. */
  lemma {:induction false} CountIsPositions<T>(s: seq<T>, p: T -> bool)
    ensures Count(s, p) == |PositionsWhere(s, p)|
  {
    if s != [] {
      var n := |s| - 1;
      CountIsPositions(s[..n], p);
      var before := PositionsWhere(s[..n], p);
      assert PositionsWhere(s, p) == before + (if p(s[n]) then {n} else {});
      assert n !in before;
    }
  }

  /** Something is counted exactly when some element satisfies `p`. */
  lemma {:induction false} CountPositiveIffExists<T>(s: seq<T>, p: T -> bool)
    ensures Count(s, p) > 0 <==> exists i :: 0 <= i < |s| && p(s[i])
  {
    if s != [] {
      var n := |s| - 1;
      CountPositiveIffExists(s[..n], p);
      if Count(s[..n], p) > 0 {
        var i :| 0 <= i < n && p(s[..n][i]);
        assert p(s[i]);
      }
      if exists i :: 0 <= i < |s| && p(s[i]) {
        var i :| 0 <= i < |s| && p(s[i]);
        if i < n {
          assert p(s[..n][i]);
        }
      }
    }
  }

  /** Mapping both sides keeps a subsequence a subsequence. */
  lemma {:induction false} SubsequenceMapped<T, U>(a: seq<T>, b: seq<T>, f: T -> U)
    requires IsSubsequence(a, b)
    ensures IsSubsequence(MapSeq(a, f), MapSeq(b, f))
    decreases |b|
  {
    if a != [] {
      var fa, fb := MapSeq(a, f), MapSeq(b, f);
      assert MapSeq(a[..|a| - 1], f) == fa[..|fa| - 1];
      assert MapSeq(b[..|b| - 1], f) == fb[..|fb| - 1];
      if a[|a| - 1] == b[|b| - 1] && IsSubsequence(a[..|a| - 1], b[..|b| - 1]) {
        SubsequenceMapped(a[..|a| - 1], b[..|b| - 1], f);
      } else {
        SubsequenceMapped(a, b[..|b| - 1], f);
      }
    }
  }

  /** Regrouping a concatenation of three sequences. */
  lemma AppendAssoc<T>(a: seq<T>, b: seq<T>, c: seq<T>)
    ensures a + b + c == a + (b + c)
  {
  }
}
