/**
 * The visibility graph builder of the central node
 * (MaxMinLPGreedyCentralNode.cpp, lines 63-103): the flat list of every
 * submitted primitive, and the two adjacency views primitive -> targets and
 * target -> primitives over all primitive x target pairs.
 */
module Visibility {
  import opened Geometry
  import opened Messages

  /** The ids 1..n, as the node numbers targets and primitives. */
  function Ids(n: nat): seq<int>
  {
    seq(n, i => i + 1)
  }

  /** Every id of the list lies in 1..n. */
  predicate AllWithin(s: seq<int>, n: int)
  {
    forall j :: 0 <= j < |s| ==> 1 <= s[j] <= n
  }

  predicate Increasing(s: seq<int>)
  {
    forall i, j :: 0 <= i < j < |s| ==> s[i] < s[j]
  }

  /**
   * The ids, taken from ids[..n], of those points among pts[..n] that lie
   * within fov of c, in index order: the inner loops of lines 79-85 and
   * 95-101, which push the id of every point that passes the test.
   * (Those lines compute the squared distance as target minus primitive;
   * squared distance is symmetric, see Geometry.SqDistProperties.)
   */
  function InFov(c: Point, ids: seq<int>, pts: seq<Point>, fov: real, n: nat): (r: seq<int>)
    requires |ids| == |pts| && n <= |pts|
    ensures forall x :: x in r ==> x in ids[..n]
  {
    if n == 0 then []
    else
      InFov(c, ids, pts, fov, n - 1) + (if WithinFov(pts[n - 1], c, fov) then [ids[n - 1]] else [])
  }

  /** One list of visible target ids per primitive (m_primitives_to_targets). */
  function PrimsToTargets(prims: seq<Point>, targetIds: seq<int>, targets: seq<Point>, fov: real): (g: seq<seq<int>>)
    requires |targetIds| == |targets|
  {
    seq(|prims|, j requires 0 <= j < |prims| => InFov(prims[j], targetIds, targets, fov, |targets|))
  }

  /** One list of seeing primitive ids per target (m_targets_to_primitives). */
  function TargetsToPrims(targets: seq<Point>, primIds: seq<int>, prims: seq<Point>, fov: real): (g: seq<seq<int>>)
    requires |primIds| == |prims|
  {
    seq(|targets|, i requires 0 <= i < |targets| => InFov(targets[i], primIds, prims, fov, |prims|))
  }

  /**
   * The primitive positions of all records, record after record, each record
   * contributing one position per local primitive id (lines 72-76). Its first
   * slots are those of the first record.
   */
  function AllPositions(rs: seq<RobotRecord>): (ps: seq<Point>)
    requires forall r :: 0 <= r < |rs| ==> WellFormed(rs[r])
    ensures |rs| > 0 ==> |rs[0].primPos| <= |ps| && ps[..|rs[0].primPos|] == rs[0].primPos
  {
    if rs == [] then []
    else AllPositions(rs[..|rs| - 1]) + rs[|rs| - 1].primPos
  }

  // ---------------------------------------------------------------------------
  // Properties of the adjacency views

  /** Numbered 1..|pts|, the list holds exactly the visible ids up to n. */
  lemma {:induction false} InFovMembers(c: Point, pts: seq<Point>, fov: real, n: nat, x: int)
    requires n <= |pts|
    ensures x in InFov(c, Ids(|pts|), pts, fov, n) <==> 1 <= x <= n && WithinFov(pts[x - 1], c, fov)
  {
    if n > 0 {
      InFovMembers(c, pts, fov, n - 1, x);
    }
  }

  /** Ids listed in increasing order stay in increasing order (ascending target and primitive ids). */
  lemma {:induction false} InFovIncreasing(c: Point, ids: seq<int>, pts: seq<Point>, fov: real, n: nat)
    requires |ids| == |pts| && n <= |pts| && Increasing(ids)
    ensures Increasing(InFov(c, ids, pts, fov, n))
  {
    if n > 0 {
      InFovIncreasing(c, ids, pts, fov, n - 1);
      var prefix := InFov(c, ids, pts, fov, n - 1);
      forall i | 0 <= i < |prefix|
        ensures prefix[i] < ids[n - 1]
      {
        assert prefix[i] in prefix;
        var j :| 0 <= j < n - 1 && ids[j] == prefix[i];
      }
    }
  }

  /**
   * The two views mirror each other and both are the field-of-view relation:
   * target t is in primitive j's list iff primitive j + 1 is in target t's
   * list iff the two lie within fov of each other.
   */
  lemma VisibilitySymmetric(prims: seq<Point>, targets: seq<Point>, fov: real, j: int, t: int)
    requires 0 <= j < |prims| && 1 <= t <= |targets|
    ensures t in PrimsToTargets(prims, Ids(|targets|), targets, fov)[j] <==> WithinFov(prims[j], targets[t - 1], fov)
    ensures j + 1 in TargetsToPrims(targets, Ids(|prims|), prims, fov)[t - 1] <==> WithinFov(prims[j], targets[t - 1], fov)
  {
    InFovMembers(prims[j], targets, fov, |targets|, t);
    InFovMembers(targets[t - 1], prims, fov, |prims|, j + 1);
    SqDistProperties(prims[j], targets[t - 1]);
  }

  /** A primitive's list is non-empty exactly when some target lies within its field of view. */
  lemma SeesSomeTarget(prims: seq<Point>, targets: seq<Point>, fov: real, j: int)
    requires 0 <= j < |prims|
    ensures |PrimsToTargets(prims, Ids(|targets|), targets, fov)[j]| != 0 <==>
      exists t :: 0 <= t < |targets| && WithinFov(prims[j], targets[t], fov)
  {
    var list := PrimsToTargets(prims, Ids(|targets|), targets, fov)[j];
    if |list| != 0 {
      AdjacencyShape(prims, targets, fov);
      assert list[0] in list;
      VisibilitySymmetric(prims, targets, fov, j, list[0]);
      assert WithinFov(prims[j], targets[list[0] - 1], fov);
    }
    if exists t :: 0 <= t < |targets| && WithinFov(prims[j], targets[t], fov) {
      var t :| 0 <= t < |targets| && WithinFov(prims[j], targets[t], fov);
      VisibilitySymmetric(prims, targets, fov, j, t + 1);
      assert t + 1 in list;
    }
  }

  /**
   * One list per primitive and one per target; every list ascends and
   * holds only ids of the other side.
   */
  lemma AdjacencyShape(prims: seq<Point>, targets: seq<Point>, fov: real)
    ensures |PrimsToTargets(prims, Ids(|targets|), targets, fov)| == |prims|
    ensures |TargetsToPrims(targets, Ids(|prims|), prims, fov)| == |targets|
    ensures forall j :: 0 <= j < |prims| ==> AllWithin(PrimsToTargets(prims, Ids(|targets|), targets, fov)[j], |targets|)
    ensures forall i :: 0 <= i < |targets| ==> AllWithin(TargetsToPrims(targets, Ids(|prims|), prims, fov)[i], |prims|)
    ensures forall j :: 0 <= j < |prims| ==> Increasing(PrimsToTargets(prims, Ids(|targets|), targets, fov)[j])
    ensures forall i :: 0 <= i < |targets| ==> Increasing(TargetsToPrims(targets, Ids(|prims|), prims, fov)[i])
  {
    forall j | 0 <= j < |prims|
      ensures Increasing(PrimsToTargets(prims, Ids(|targets|), targets, fov)[j])
      ensures AllWithin(PrimsToTargets(prims, Ids(|targets|), targets, fov)[j], |targets|)
    {
      var list := PrimsToTargets(prims, Ids(|targets|), targets, fov)[j];
      InFovIncreasing(prims[j], Ids(|targets|), targets, fov, |targets|);
      forall m | 0 <= m < |list|
        ensures 1 <= list[m] <= |targets|
      {
        assert list[m] in list;
        InFovMembers(prims[j], targets, fov, |targets|, list[m]);
      }
    }
    forall i | 0 <= i < |targets|
      ensures Increasing(TargetsToPrims(targets, Ids(|prims|), prims, fov)[i])
      ensures AllWithin(TargetsToPrims(targets, Ids(|prims|), prims, fov)[i], |prims|)
    {
      var list := TargetsToPrims(targets, Ids(|prims|), prims, fov)[i];
      InFovIncreasing(targets[i], Ids(|prims|), prims, fov, |prims|);
      forall m | 0 <= m < |list|
        ensures 1 <= list[m] <= |prims|
      {
        assert list[m] in list;
        InFovMembers(targets[i], prims, fov, |prims|, list[m]);
      }
    }
  }

  /** With k primitives per record, robot r's slot i is global primitive r * k + i + 1. */
  lemma {:induction false} AllPositionsAt(rs: seq<RobotRecord>, k: nat, r: nat, i: nat)
    requires forall q :: 0 <= q < |rs| ==> WellFormed(rs[q]) && |rs[q].primPos| == k
    requires r < |rs| && i < k
    ensures |AllPositions(rs)| == |rs| * k
    ensures r * k + i < |AllPositions(rs)| && AllPositions(rs)[r * k + i] == rs[r].primPos[i]
  {
    var n := |rs|;
    var front := rs[..n - 1];
    if r < n - 1 {
      AllPositionsAt(front, k, r, i);
    } else {
      AllPositionsLength(front, k);
    }
    AllPositionsLength(rs, k);
  }

  lemma {:induction false} AllPositionsLength(rs: seq<RobotRecord>, k: nat)
    requires forall q :: 0 <= q < |rs| ==> WellFormed(rs[q]) && |rs[q].primPos| == k
    ensures |AllPositions(rs)| == |rs| * k
  {
    if rs != [] {
      var n := |rs| - 1;
      var front := rs[..n];
      AllPositionsLength(front, k);
      assert AllPositions(rs) == AllPositions(front) + rs[n].primPos;
      MulSucc(n, k);
    }
  }

  lemma MulSucc(n: int, k: int)
    ensures n * k + k == (n + 1) * k
  {
  }

  // ---------------------------------------------------------------------------
  // The loops of the builder

  /** Lines 79-85 (and 95-101): collect the ids of the points within fov of c. */
  method ListInFov(c: Point, ids: seq<int>, pts: seq<Point>, fov: real) returns (r: seq<int>)
    requires |ids| == |pts|
    ensures r == InFov(c, ids, pts, fov, |pts|)
  {
    r := [];
    for j := 0 to |pts|
      invariant r == InFov(c, ids, pts, fov, j)
    {
      if WithinFov(pts[j], c, fov) {
        r := r + [ids[j]];
      }
    }
  }

  /**
   * Lines 63-67: number the targets 1, 2, ... and copy their positions, for
   * the n target slots the node was configured with (none when n is negative).
   */
  method ListTargets(temp: seq<Point>, n: int) returns (ids: seq<int>, pos: seq<Point>)
    requires |temp| == if n < 0 then 0 else n
    ensures ids == Ids(|temp|) && pos == temp
  {
    ids, pos := [], [];
    var i := 0;
    while i < n
      invariant 0 <= i <= |temp|
      invariant ids == Ids(i) && pos == temp[..i]
    {
      ids := ids + [i + 1];
      pos := pos + [temp[i]];
      i := i + 1;
    }
    assert temp[..i] == temp;
  }

  /**
   * Lines 71-90: number every submitted primitive 1..N in submission order,
   * record its position and the targets it sees.
   */
  method ListPrimitives(robots: seq<RobotRecord>, targetIds: seq<int>, targets: seq<Point>, fov: real)
    returns (ids: seq<int>, pos: seq<Point>, p2t: seq<seq<int>>)
    requires |targetIds| == |targets|
    requires forall r :: 0 <= r < |robots| ==> WellFormed(robots[r])
    ensures pos == AllPositions(robots)
    ensures ids == Ids(|pos|)
    ensures p2t == PrimsToTargets(pos, targetIds, targets, fov)
  {
    ids, pos, p2t := [], [], [];
    var count := 0;
    for r := 0 to |robots|
      invariant pos == AllPositions(robots[..r])
      invariant ids == Ids(|pos|) && count == |pos|
      invariant p2t == PrimsToTargets(pos, targetIds, targets, fov)
    {
      var rec := robots[r];
      for i := 0 to |rec.primitiveId|
        invariant pos == AllPositions(robots[..r]) + rec.primPos[..i]
        invariant ids == Ids(|pos|) && count == |pos|
        invariant p2t == PrimsToTargets(pos, targetIds, targets, fov)
      {
        ids := ids + [count + 1];
        pos := pos + [rec.primPos[i]];
        var seen := ListInFov(rec.primPos[i], targetIds, targets, fov);
        p2t := p2t + [seen];
        count := count + 1;
        assert rec.primPos[..i + 1] == rec.primPos[..i] + [rec.primPos[i]];
      }
      assert robots[..r + 1][..r] == robots[..r];
      assert rec.primPos[..|rec.primitiveId|] == rec.primPos;
    }
    assert robots[..|robots|] == robots;
  }

  /** Lines 93-103: for every target, the primitives that see it. */
  method ListTargetsToPrims(targetIds: seq<int>, targets: seq<Point>, primIds: seq<int>, prims: seq<Point>, fov: real)
    returns (t2p: seq<seq<int>>)
    requires |targetIds| == |targets| && |primIds| == |prims|
    ensures t2p == TargetsToPrims(targets, primIds, prims, fov)
  {
    t2p := [];
    for i := 0 to |targetIds|
      invariant t2p == TargetsToPrims(targets[..i], primIds, prims, fov)
    {
      var seen := ListInFov(targets[i], primIds, prims, fov);
      t2p := t2p + [seen];
    }
    assert targets[..|targetIds|] == targets;
  }
}
