/**
  Fusion of raw Landolt-C detections: several C fragments whose centres lie
  within a proximity window belong to one marker and are merged into a
  single detection.
*/
module Fusion {
  import opened Geometry

  /**
    A raw or fused detection: its centre, bounding box and the gap angles of
    the C's it is made of (so the number of C's is |angles|).
  */
  datatype LandoltCPoi = LandoltCPoi(center: Point, bbox: Rect, angles: seq<int>)

  /** Chebyshev proximity of two centres. */
  predicate Near(p: Point, q: Point, proximity: int)
  {
    Abs(p.x - q.x) <= proximity && Abs(p.y - q.y) <= proximity
  }

  /** Detection `b` joins group `a`: `a` keeps its centre and box and gains b's C's. */
  function Merge(a: LandoltCPoi, b: LandoltCPoi): LandoltCPoi
  {
    a.(angles := a.angles + b.angles)
  }

  /** Index of the first group near p, or |groups| if there is none. */
  function FirstNear(groups: seq<LandoltCPoi>, p: Point, proximity: int): (k: nat)
    ensures k <= |groups|
    ensures k < |groups| ==> Near(groups[k].center, p, proximity)
    ensures forall m :: 0 <= m < k ==> !Near(groups[m].center, p, proximity)
  {
    if |groups| == 0 then 0
    else if Near(groups[0].center, p, proximity) then 0
    else 1 + FirstNear(groups[1..], p, proximity)
  }

  /** Adds one detection to the groups built so far. */
  function Absorb(groups: seq<LandoltCPoi>, d: LandoltCPoi, proximity: int): seq<LandoltCPoi>
  {
    var k := FirstNear(groups, d.center, proximity);
    if k < |groups| then groups[k := Merge(groups[k], d)] else groups + [d]
  }

  /** Fuses a list of detections, visiting them in order. */
  function Fuse(s: seq<LandoltCPoi>, proximity: int): seq<LandoltCPoi>
  {
    if |s| == 0 then [] else Absorb(Fuse(s[..|s| - 1], proximity), s[|s| - 1], proximity)
  }

  /** Total number of C's over a list of detections. */
  function TotalCs(s: seq<LandoltCPoi>): nat
  {
    if |s| == 0 then 0 else TotalCs(s[..|s| - 1]) + |s[|s| - 1].angles|
  }

  /** All gap angles of a list of detections, in order. */
  function Flat(s: seq<LandoltCPoi>): seq<int>
  {
    if |s| == 0 then [] else Flat(s[..|s| - 1]) + s[|s| - 1].angles
  }

  /** No two groups have near centres. */
  ghost predicate Separated(s: seq<LandoltCPoi>, proximity: int)
  {
    forall i, j :: 0 <= i < j < |s| ==> !Near(s[i].center, s[j].center, proximity)
  }

  lemma {:induction false} TotalCsAppend(s: seq<LandoltCPoi>, d: LandoltCPoi)
    ensures TotalCs(s + [d]) == TotalCs(s) + |d.angles|
  {
    assert (s + [d])[..|s|] == s;
  }

  lemma {:induction false} TotalCsUpdate(s: seq<LandoltCPoi>, k: nat, d: LandoltCPoi)
    requires k < |s|
    ensures TotalCs(s[k := d]) + |s[k].angles| == TotalCs(s) + |d.angles|
    decreases |s|
  {
    if k < |s| - 1 {
      assert s[k := d][..|s| - 1] == s[..|s| - 1][k := d];
      TotalCsUpdate(s[..|s| - 1], k, d);
    } else {
      assert s[k := d][..|s| - 1] == s[..|s| - 1];
    }
  }

  lemma {:induction false} FlatAppend(s: seq<LandoltCPoi>, d: LandoltCPoi)
    ensures Flat(s + [d]) == Flat(s) + d.angles
  {
    assert (s + [d])[..|s|] == s;
  }

  lemma SwapIn(a: multiset<int>, e: multiset<int>, x: multiset<int>, y: multiset<int>, z: multiset<int>)
    requires a + x == e + y
    ensures a + z + x == e + z + y
  {
    forall v ensures (a + z + x)[v] == (e + z + y)[v] {
      assert (a + x)[v] == (e + y)[v];
    }
  }

  lemma CancelRight(a: multiset<int>, b: multiset<int>, x: multiset<int>)
    requires a + x == b + x
    ensures a == b
  {
    forall v ensures a[v] == b[v] {
      assert (a + x)[v] == (b + x)[v];
    }
  }

  lemma {:induction false} FlatUpdate(s: seq<LandoltCPoi>, k: nat, d: LandoltCPoi)
    requires k < |s|
    ensures multiset(Flat(s[k := d])) + multiset(s[k].angles) == multiset(Flat(s)) + multiset(d.angles)
    decreases |s|
  {
    var last := |s| - 1;
    var t := s[k := d];
    assert Flat(t) == Flat(t[..last]) + t[last].angles;
    assert Flat(s) == Flat(s[..last]) + s[last].angles;
    if k < last {
      assert t[..last] == s[..last][k := d];
      assert t[last] == s[last];
      FlatUpdate(s[..last], k, d);
      var a, e := multiset(Flat(s[..last][k := d])), multiset(Flat(s[..last]));
      var x, y, z := multiset(s[k].angles), multiset(d.angles), multiset(s[last].angles);
      assert a + x == e + y;
      assert multiset(Flat(t)) == a + z;
      assert multiset(Flat(s)) == e + z;
      SwapIn(a, e, x, y, z);
    } else {
      assert t[..last] == s[..last];
    }
  }

  /** Fusion never increases the number of detections. */
  lemma {:induction false} FuseNoLonger(s: seq<LandoltCPoi>, proximity: int)
    ensures |Fuse(s, proximity)| <= |s|
  {
    if |s| > 0 {
      FuseNoLonger(s[..|s| - 1], proximity);
    }
  }

  /** Fusion keeps the number of C's. */
  lemma {:induction false} FuseKeepsCs(s: seq<LandoltCPoi>, proximity: int)
    ensures TotalCs(Fuse(s, proximity)) == TotalCs(s)
  {
    if |s| > 0 {
      var groups := Fuse(s[..|s| - 1], proximity);
      var d := s[|s| - 1];
      FuseKeepsCs(s[..|s| - 1], proximity);
      var k := FirstNear(groups, d.center, proximity);
      if k < |groups| {
        TotalCsUpdate(groups, k, Merge(groups[k], d));
      } else {
        TotalCsAppend(groups, d);
      }
    }
  }

  /**
    Every C of every raw detection ends up in exactly one fused detection:
    fusion neither drops nor duplicates a gap angle.
  */
  lemma {:induction false} FuseKeepsAngles(s: seq<LandoltCPoi>, proximity: int)
    ensures multiset(Flat(Fuse(s, proximity))) == multiset(Flat(s))
  {
    if |s| > 0 {
      var init := s[..|s| - 1];
      var groups := Fuse(init, proximity);
      var d := s[|s| - 1];
      assert Flat(s) == Flat(init) + d.angles;
      assert Fuse(s, proximity) == Absorb(groups, d, proximity);
      FuseKeepsAngles(init, proximity);
      var k := FirstNear(groups, d.center, proximity);
      if k < |groups| {
        var m := Merge(groups[k], d);
        assert Fuse(s, proximity) == groups[k := m];
        FlatUpdate(groups, k, m);
        var a, g := multiset(Flat(groups[k := m])), multiset(Flat(groups));
        var x, y := multiset(groups[k].angles), multiset(d.angles);
        assert multiset(m.angles) == x + y;
        assert a + x == g + x + y;
        CancelRight(a, g + y, x);
      } else {
        assert Fuse(s, proximity) == groups + [d];
        FlatAppend(groups, d);
      }
    }
  }

  /** After fusion no two detections are near each other. */
  lemma {:induction false} FuseSeparated(s: seq<LandoltCPoi>, proximity: int)
    ensures Separated(Fuse(s, proximity), proximity)
  {
    if |s| > 0 {
      var groups := Fuse(s[..|s| - 1], proximity);
      FuseSeparated(s[..|s| - 1], proximity);
      var d := s[|s| - 1];
      var k := FirstNear(groups, d.center, proximity);
      var r := Fuse(s, proximity);
      if k < |groups| {
        assert forall i :: 0 <= i < |r| ==> r[i].center == groups[i].center;
      } else {
        assert r == groups + [d];
      }
    }
  }

  /** Each fused detection's centre is the centre of one of the raw detections. */
  lemma {:induction false} FuseCentersFromInput(s: seq<LandoltCPoi>, proximity: int)
    ensures forall g :: g in Fuse(s, proximity) ==> exists d :: d in s && d.center == g.center
  {
    if |s| > 0 {
      var groups := Fuse(s[..|s| - 1], proximity);
      FuseCentersFromInput(s[..|s| - 1], proximity);
      var d := s[|s| - 1];
      var r := Fuse(s, proximity);
      forall g | g in r
        ensures exists e :: e in s && e.center == g.center
      {
        var i :| 0 <= i < |r| && r[i] == g;
        if i < |groups| {
          assert r[i].center == groups[i].center;
          assert groups[i] in groups;
          var e :| e in s[..|s| - 1] && e.center == groups[i].center;
          assert e in s;
        } else {
          assert g == d && d in s;
        }
      }
    }
  }

  /** A single detection passes through unchanged. */
  lemma FuseSingle(d: LandoltCPoi, proximity: int)
    ensures Fuse([d], proximity) == [d]
  {
    assert [d][..0] == [];
  }

  /** Two detections fuse into one exactly when their centres are near. */
  lemma FusePair(d1: LandoltCPoi, d2: LandoltCPoi, proximity: int)
    ensures |Fuse([d1, d2], proximity)| == 1 <==> Near(d1.center, d2.center, proximity)
    ensures Near(d1.center, d2.center, proximity) ==> Fuse([d1, d2], proximity) == [Merge(d1, d2)]
    ensures !Near(d1.center, d2.center, proximity) ==> Fuse([d1, d2], proximity) == [d1, d2]
  {
    assert [d1, d2][..1] == [d1];
    FuseSingle(d1, proximity);
  }
}
