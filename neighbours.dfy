/**
 * The neighbour-info composer of the central node
 * (MaxMinLPGreedyCentralNode.cpp, lines 106-144): for every primitive slot of
 * a robot record, the "target exists" marker and, when it holds, one target
 * node listing the visible targets, their positions and, per target, the
 * other primitives that see it.
 *
 * As written, slot i of EVERY record reads the adjacency list of global
 * primitive i (line 108), and the id it leaves out of a neighbour list is the
 * record's local id primitiveId[i] = i + 1 (line 129); the functions below
 * take these choices as parameters and the lemmas state them.
 */
module NeighbourInfo {
  import opened Geometry
  import opened Messages
  import opened Visibility

  /** The adjacency views are well-shaped: one list per node, ids of the other side only. */
  predicate AdjacencyShapeHolds(prims: seq<Point>, targets: seq<Point>, fov: real)
  {
    && |TargetsToPrims(targets, Ids(|prims|), prims, fov)| == |targets|
    && |PrimsToTargets(prims, Ids(|targets|), targets, fov)| == |prims|
    && IdsWithin(PrimsToTargets(prims, Ids(|targets|), targets, fov), |targets|)
    && IdsWithin(TargetsToPrims(targets, Ids(|prims|), prims, fov), |prims|)
  }

  /** Every list of g holds ids in 1..n only. */
  predicate IdsWithin(g: seq<seq<int>>, n: int)
  {
    forall i :: 0 <= i < |g| ==> AllWithin(g[i], n)
  }

  /**
   * Lines 128-135: the ids of a target's primitive list other than selfId,
   * each with its position primPos[id - 1].
   */
  function NeighbourNode(list: seq<int>, selfId: int, primPos: seq<Point>): (node: PrimitiveNode)
    requires AllWithin(list, |primPos|)
  {
    if list == [] then PrimitiveNode([], [])
    else
      var front := NeighbourNode(list[..|list| - 1], selfId, primPos);
      var q := list[|list| - 1];
      if q == selfId then front
      else PrimitiveNode(front.neighborPrimitiveId + [q], front.neighborPos + [primPos[q - 1]])
  }

  /**
   * Lines 115-139: one entry per target of tlist: the target id, its
   * position, the marker "that target's own primitive list is non-empty",
   * and the neighbour node built from that list. (For an empty primitive
   * list line 138 pushes an empty node, which is what NeighbourNode gives
   * for an empty list.)
   */
  function TargetNodeFor(tlist: seq<int>, selfId: int, targetPos: seq<Point>, t2p: seq<seq<int>>, primPos: seq<Point>): (node: TargetNode)
    requires |t2p| == |targetPos| && IdsWithin(t2p, |primPos|)
    requires AllWithin(tlist, |targetPos|)
  {
    TargetNode(
      tlist,
      seq(|tlist|, j requires 0 <= j < |tlist| => targetPos[tlist[j] - 1]),
      seq(|tlist|, j requires 0 <= j < |tlist| => |t2p[tlist[j] - 1]| != 0),
      seq(|tlist|, j requires 0 <= j < |tlist| => NeighbourNode(t2p[tlist[j] - 1], selfId, primPos)))
  }

  /** Lines 108-112: the marker of slot i says whether global adjacency list i is non-empty. */
  function Markers(p2t: seq<seq<int>>, n: nat): (exist: seq<bool>)
    requires n <= |p2t|
  {
    seq(n, i requires 0 <= i < n => |p2t[i]| != 0)
  }

  /** The number of slots among the first n whose adjacency list is non-empty. */
  function Marked(p2t: seq<seq<int>>, n: nat): nat
    requires n <= |p2t|
  {
    if n == 0 then 0 else Marked(p2t, n - 1) + (if |p2t[n - 1]| != 0 then 1 else 0)
  }

  /**
   * Lines 111-141 for the first n slots of one record: a target node for each
   * slot whose (global slot i) target list is non-empty, leaving out the
   * record's id primitiveId[i].
   */
  function SlotNodes(rec: RobotRecord, p2t: seq<seq<int>>, t2p: seq<seq<int>>, targetPos: seq<Point>, primPos: seq<Point>, n: nat)
    : (nodes: seq<TargetNode>)
    requires n <= |rec.primitiveId| <= |p2t|
    requires |t2p| == |targetPos| && IdsWithin(p2t, |targetPos|) && IdsWithin(t2p, |primPos|)
  {
    if n == 0 then []
    else
      var nodes := SlotNodes(rec, p2t, t2p, targetPos, primPos, n - 1);
      if |p2t[n - 1]| == 0 then nodes
      else nodes + [TargetNodeFor(p2t[n - 1], rec.primitiveId[n - 1], targetPos, t2p, primPos)]
  }

  /** The record after composition (lines 106-144): markers and target nodes appended to its own. */
  function Composed(rec: RobotRecord, p2t: seq<seq<int>>, t2p: seq<seq<int>>, targetPos: seq<Point>, primPos: seq<Point>)
    : (out: RobotRecord)
    requires |rec.primitiveId| <= |p2t|
    requires |t2p| == |targetPos| && IdsWithin(p2t, |targetPos|) && IdsWithin(t2p, |primPos|)
    ensures out.robotId == rec.robotId && out.primitiveId == rec.primitiveId && out.primPos == rec.primPos
  {
    var k := |rec.primitiveId|;
    rec.(targetExist := rec.targetExist + Markers(p2t, k),
         connectTarget := rec.connectTarget + SlotNodes(rec, p2t, t2p, targetPos, primPos, k))
  }

  /** Every record's primitive slots index adjacency lists that exist. */
  predicate SlotsCovered(rs: seq<RobotRecord>, p2t: seq<seq<int>>)
  {
    forall j :: 0 <= j < |rs| ==> |rs[j].primitiveId| <= |p2t|
  }

  /** Lines 106-144: every record composed, in place. */
  function ComposedAll(rs: seq<RobotRecord>, p2t: seq<seq<int>>, t2p: seq<seq<int>>, targetPos: seq<Point>, primPos: seq<Point>)
    : (out: seq<RobotRecord>)
    requires SlotsCovered(rs, p2t)
    requires |t2p| == |targetPos| && IdsWithin(p2t, |targetPos|) && IdsWithin(t2p, |primPos|)
    ensures |out| == |rs|
  {
    if rs == [] then []
    else ComposedAll(rs[..|rs| - 1], p2t, t2p, targetPos, primPos) + [Composed(rs[|rs| - 1], p2t, t2p, targetPos, primPos)]
  }

  // ---------------------------------------------------------------------------
  // Properties

  /**
   * Self-exclusion: the neighbour list never holds selfId, holds every other
   * id of the target's list, keeps ascending order, and pairs each id with
   * that primitive's position.
   */
  lemma {:induction false} NeighbourNodeExcludesSelf(list: seq<int>, selfId: int, primPos: seq<Point>)
    requires AllWithin(list, |primPos|)
    ensures var node := NeighbourNode(list, selfId, primPos);
      && selfId !in node.neighborPrimitiveId
      && (forall q :: q in node.neighborPrimitiveId <==> q in list && q != selfId)
      && (Increasing(list) ==> Increasing(node.neighborPrimitiveId))
      && |node.neighborPos| == |node.neighborPrimitiveId|
      && (forall j :: 0 <= j < |node.neighborPos| ==>
            1 <= node.neighborPrimitiveId[j] <= |primPos| && node.neighborPos[j] == primPos[node.neighborPrimitiveId[j] - 1])
  {
    if list != [] {
      var front := list[..|list| - 1];
      NeighbourNodeExcludesSelf(front, selfId, primPos);
      assert list == front + [list[|list| - 1]];
      if Increasing(list) {
        assert Increasing(front);
        var ids := NeighbourNode(front, selfId, primPos).neighborPrimitiveId;
        forall j | 0 <= j < |ids|
          ensures ids[j] < list[|list| - 1]
        {
          assert ids[j] in ids;
          var m :| 0 <= m < |front| && front[m] == ids[j];
        }
      }
    }
  }

  lemma {:induction false} MarkedGrows(p2t: seq<seq<int>>, i: nat, n: nat)
    requires i < n <= |p2t| && p2t[i] != []
    ensures Marked(p2t, i) < Marked(p2t, n)
  {
    if i < n - 1 {
      MarkedGrows(p2t, i, n - 1);
    }
  }

  /** One target node per marked slot. */
  lemma {:induction false} SlotNodesCount(rec: RobotRecord, p2t: seq<seq<int>>, t2p: seq<seq<int>>, targetPos: seq<Point>, primPos: seq<Point>, n: nat)
    requires n <= |rec.primitiveId| <= |p2t|
    requires |t2p| == |targetPos| && IdsWithin(p2t, |targetPos|) && IdsWithin(t2p, |primPos|)
    ensures |SlotNodes(rec, p2t, t2p, targetPos, primPos, n)| == Marked(p2t, n)
  {
    if n > 0 {
      SlotNodesCount(rec, p2t, t2p, targetPos, primPos, n - 1);
    }
  }

  /**
   * The node of a marked slot i sits right after those of the marked slots
   * before it, and is built from global adjacency list i, leaving out the
   * record's local id primitiveId[i].
   */
  lemma {:induction false} SlotNodeAt(rec: RobotRecord, p2t: seq<seq<int>>, t2p: seq<seq<int>>, targetPos: seq<Point>, primPos: seq<Point>, n: nat, i: nat)
    requires n <= |rec.primitiveId| <= |p2t|
    requires |t2p| == |targetPos| && IdsWithin(p2t, |targetPos|) && IdsWithin(t2p, |primPos|)
    requires i < n && p2t[i] != []
    ensures Marked(p2t, i) < |SlotNodes(rec, p2t, t2p, targetPos, primPos, n)|
    ensures SlotNodes(rec, p2t, t2p, targetPos, primPos, n)[Marked(p2t, i)]
              == TargetNodeFor(p2t[i], rec.primitiveId[i], targetPos, t2p, primPos)
  {
    SlotNodesCount(rec, p2t, t2p, targetPos, primPos, n);
    MarkedGrows(p2t, i, n);
    if i < n - 1 {
      SlotNodeAt(rec, p2t, t2p, targetPos, primPos, n - 1, i);
    } else {
      SlotNodesCount(rec, p2t, t2p, targetPos, primPos, n - 1);
    }
  }

  /** Record j of the composed list is record j composed. */
  lemma {:induction false} ComposedAllAt(rs: seq<RobotRecord>, p2t: seq<seq<int>>, t2p: seq<seq<int>>, targetPos: seq<Point>, primPos: seq<Point>, j: int)
    requires SlotsCovered(rs, p2t)
    requires |t2p| == |targetPos| && IdsWithin(p2t, |targetPos|) && IdsWithin(t2p, |primPos|)
    requires 0 <= j < |rs|
    ensures ComposedAll(rs, p2t, t2p, targetPos, primPos)[j] == Composed(rs[j], p2t, t2p, targetPos, primPos)
  {
    if j < |rs| - 1 {
      ComposedAllAt(rs[..|rs| - 1], p2t, t2p, targetPos, primPos, j);
    }
  }

  lemma ComposedAllRecords(rs: seq<RobotRecord>, p2t: seq<seq<int>>, t2p: seq<seq<int>>, targetPos: seq<Point>, primPos: seq<Point>)
    requires SlotsCovered(rs, p2t)
    requires |t2p| == |targetPos| && IdsWithin(p2t, |targetPos|) && IdsWithin(t2p, |primPos|)
    ensures forall j :: 0 <= j < |rs| ==> ComposedAll(rs, p2t, t2p, targetPos, primPos)[j] == Composed(rs[j], p2t, t2p, targetPos, primPos)
  {
    forall j | 0 <= j < |rs|
      ensures ComposedAll(rs, p2t, t2p, targetPos, primPos)[j] == Composed(rs[j], p2t, t2p, targetPos, primPos)
    {
      ComposedAllAt(rs, p2t, t2p, targetPos, primPos, j);
    }
  }

  /**
   * Entry e of a target node: target tlist[e] with its position, its
   * neighbour marker and its neighbour list without selfId.
   */
  lemma TargetNodeEntry(tlist: seq<int>, selfId: int, targetPos: seq<Point>, t2p: seq<seq<int>>, primPos: seq<Point>, e: int, q: int)
    requires |t2p| == |targetPos| && IdsWithin(t2p, |primPos|)
    requires AllWithin(tlist, |targetPos|)
    requires 0 <= e < |tlist|
    ensures var node := TargetNodeFor(tlist, selfId, targetPos, t2p, primPos);
      && node.targetId == tlist
      && |node.targetPos| == |node.neighborPrimitiveExist| == |node.connectPrimitive| == |tlist|
      && node.targetPos[e] == targetPos[tlist[e] - 1]
      && node.neighborPrimitiveExist[e] == (|t2p[tlist[e] - 1]| != 0)
      && (q in node.connectPrimitive[e].neighborPrimitiveId <==> q in t2p[tlist[e] - 1] && q != selfId)
  {
    NeighbourNodeExcludesSelf(t2p[tlist[e] - 1], selfId, primPos);
  }

  /**
   * Entry e of the target node of a marked slot i of a fresh record with
   * local ids 1..k, on any well-shaped adjacency views.
   */
  lemma ComposedNodeEntry(rec: RobotRecord, k: nat, p2t: seq<seq<int>>, t2p: seq<seq<int>>, targets: seq<Point>, prims: seq<Point>,
                          i: int, e: int, q: int)
    requires rec.primitiveId == Ids(k) && rec.connectTarget == [] && k <= |p2t|
    requires |t2p| == |targets| && IdsWithin(p2t, |targets|) && IdsWithin(t2p, |prims|)
    requires 0 <= i < k && 0 <= e < |p2t[i]|
    ensures Marked(p2t, i) < |Composed(rec, p2t, t2p, targets, prims).connectTarget|
    ensures var node := Composed(rec, p2t, t2p, targets, prims).connectTarget[Marked(p2t, i)];
      && node.targetId == p2t[i]
      && |node.targetPos| == |node.neighborPrimitiveExist| == |node.connectPrimitive| == |p2t[i]|
      && 1 <= p2t[i][e] <= |targets|
      && node.targetPos[e] == targets[p2t[i][e] - 1]
      && node.neighborPrimitiveExist[e] == (|t2p[p2t[i][e] - 1]| != 0)
      && (q in node.connectPrimitive[e].neighborPrimitiveId <==> q in t2p[p2t[i][e] - 1] && q != i + 1)
  {
    assert rec.primitiveId[i] == i + 1;
    assert AllWithin(p2t[i], |targets|);
    SlotNodeAt(rec, p2t, t2p, targets, prims, k, i);
    TargetNodeEntry(p2t[i], i + 1, targets, t2p, prims, e, q);
  }

  /**
   * On the field-of-view graph, the target node of a marked slot i of a
   * fresh record with local ids 1..k lists the targets within fov of
   * primitive i, in order, each with its position. (The shape conditions
   * on p2t and t2p follow from AdjacencyShape.)
   */
  lemma ComposedTargetNode(rec: RobotRecord, k: nat, prims: seq<Point>, targets: seq<Point>, fov: real,
                            p2t: seq<seq<int>>, t2p: seq<seq<int>>, i: int, e: int)
    requires p2t == PrimsToTargets(prims, Ids(|targets|), targets, fov)
    requires t2p == TargetsToPrims(targets, Ids(|prims|), prims, fov)
    requires |t2p| == |targets| && IdsWithin(p2t, |targets|) && IdsWithin(t2p, |prims|)
    requires rec.primitiveId == Ids(k) && rec.connectTarget == [] && k <= |prims|
    requires 0 <= i < k && 0 <= e < |p2t[i]|
    ensures Marked(p2t, i) < |Composed(rec, p2t, t2p, targets, prims).connectTarget|
    ensures var node := Composed(rec, p2t, t2p, targets, prims).connectTarget[Marked(p2t, i)];
      && node.targetId == p2t[i]
      && |node.targetPos| == |node.neighborPrimitiveExist| == |node.connectPrimitive| == |p2t[i]|
      && 1 <= p2t[i][e] <= |targets|
      && WithinFov(prims[i], targets[p2t[i][e] - 1], fov)
      && node.targetPos[e] == targets[p2t[i][e] - 1]
  {
    ComposedNodeEntry(rec, k, p2t, t2p, targets, prims, i, e, 0);
    SeenTargetEntry(prims, targets, fov, i, e, 0);
  }

  /**
   * In that node, every listed target has its neighbour marker set
   * (primitive i + 1 itself sees it), and its neighbour list holds exactly
   * the primitives within fov of the target other than primitive i + 1.
   */
  lemma ComposedNeighbours(rec: RobotRecord, k: nat, prims: seq<Point>, targets: seq<Point>, fov: real,
                           p2t: seq<seq<int>>, t2p: seq<seq<int>>, i: int, e: int, q: int)
    requires p2t == PrimsToTargets(prims, Ids(|targets|), targets, fov)
    requires t2p == TargetsToPrims(targets, Ids(|prims|), prims, fov)
    requires |t2p| == |targets| && IdsWithin(p2t, |targets|) && IdsWithin(t2p, |prims|)
    requires rec.primitiveId == Ids(k) && rec.connectTarget == [] && k <= |prims|
    requires 0 <= i < k && 0 <= e < |p2t[i]|
    ensures Marked(p2t, i) < |Composed(rec, p2t, t2p, targets, prims).connectTarget|
    ensures var node := Composed(rec, p2t, t2p, targets, prims).connectTarget[Marked(p2t, i)];
      && e < |node.neighborPrimitiveExist| && e < |node.connectPrimitive| && 1 <= p2t[i][e] <= |targets|
      && node.neighborPrimitiveExist[e]
      && (q in node.connectPrimitive[e].neighborPrimitiveId <==>
            1 <= q <= |prims| && q != i + 1 && WithinFov(prims[q - 1], targets[p2t[i][e] - 1], fov))
  {
    ComposedNodeEntry(rec, k, p2t, t2p, targets, prims, i, e, q);
    SeenTargetEntry(prims, targets, fov, i, e, q);
  }

  /**
   * Target e of primitive i's list lies within fov of it, primitive i + 1 is
   * in that target's list, and so is every other primitive within fov.
   */
  lemma SeenTargetEntry(prims: seq<Point>, targets: seq<Point>, fov: real, i: int, e: int, q: int)
    requires 0 <= i < |prims|
    requires 0 <= e < |InFov(prims[i], Ids(|targets|), targets, fov, |targets|)|
    ensures var tg := PrimsToTargets(prims, Ids(|targets|), targets, fov)[i][e];
      && 1 <= tg <= |targets|
      && WithinFov(prims[i], targets[tg - 1], fov)
      && var list := TargetsToPrims(targets, Ids(|prims|), prims, fov)[tg - 1];
      && i + 1 in list && |list| != 0
      && (q in list <==> 1 <= q <= |prims| && WithinFov(prims[q - 1], targets[tg - 1], fov))
  {
    AdjacencyShape(prims, targets, fov);
    var tg := PrimsToTargets(prims, Ids(|targets|), targets, fov)[i][e];
    assert tg in PrimsToTargets(prims, Ids(|targets|), targets, fov)[i];
    VisibilitySymmetric(prims, targets, fov, i, tg);
    InFovMembers(targets[tg - 1], prims, fov, |prims|, q);
  }

  // ---------------------------------------------------------------------------
  // The loops of the composer

  /** Lines 128-135: skip selfId, push every other id with its position. */
  method CollectNeighbours(list: seq<int>, selfId: int, primPos: seq<Point>) returns (node: PrimitiveNode)
    requires AllWithin(list, |primPos|)
    ensures node == NeighbourNode(list, selfId, primPos)
  {
    node := PrimitiveNode([], []);
    for j := 0 to |list|
      invariant node == NeighbourNode(list[..j], selfId, primPos)
    {
      assert list[..j + 1][..j] == list[..j];
      var q := list[j];
      if q == selfId {
        continue;
      }
      node := PrimitiveNode(node.neighborPrimitiveId + [q], node.neighborPos + [primPos[q - 1]]);
    }
    assert list[..|list|] == list;
  }

  /** Lines 113-139: the target node of one primitive slot. */
  method BuildTargetNode(tlist: seq<int>, selfId: int, targetPos: seq<Point>, t2p: seq<seq<int>>, primPos: seq<Point>)
    returns (node: TargetNode)
    requires |t2p| == |targetPos| && IdsWithin(t2p, |primPos|)
    requires AllWithin(tlist, |targetPos|)
    ensures node == TargetNodeFor(tlist, selfId, targetPos, t2p, primPos)
  {
    node := TargetNode([], [], [], []);
    for j := 0 to |tlist|
      invariant node == TargetNodeFor(tlist[..j], selfId, targetPos, t2p, primPos)
    {
      var t := tlist[j];
      var ids, pos, exist := node.targetId + [t], node.targetPos + [targetPos[t - 1]], node.neighborPrimitiveExist;
      var neighbours := PrimitiveNode([], []);
      if |t2p[t - 1]| == 0 {
        exist := exist + [false];
      } else {
        exist := exist + [true];
        neighbours := CollectNeighbours(t2p[t - 1], selfId, primPos);
      }
      node := TargetNode(ids, pos, exist, node.connectPrimitive + [neighbours]);
    }
    assert tlist[..|tlist|] == tlist;
  }

  /** Lines 107-143 for one record: append a marker per slot and a node per marked slot. */
  method FillRecord(rec: RobotRecord, p2t: seq<seq<int>>, t2p: seq<seq<int>>, targetPos: seq<Point>, primPos: seq<Point>)
    returns (out: RobotRecord)
    requires |rec.primitiveId| <= |p2t|
    requires |t2p| == |targetPos| && IdsWithin(p2t, |targetPos|) && IdsWithin(t2p, |primPos|)
    ensures out == Composed(rec, p2t, t2p, targetPos, primPos)
  {
    var exist, nodes := rec.targetExist, rec.connectTarget;
    for i := 0 to |rec.primitiveId|
      invariant exist == rec.targetExist + Markers(p2t, i)
      invariant nodes == rec.connectTarget + SlotNodes(rec, p2t, t2p, targetPos, primPos, i)
    {
      assert Markers(p2t, i + 1) == Markers(p2t, i) + [|p2t[i]| != 0];
      if |p2t[i]| == 0 {
        exist := exist + [false];
      } else {
        exist := exist + [true];
        var node := BuildTargetNode(p2t[i], rec.primitiveId[i], targetPos, t2p, primPos);
        nodes := nodes + [node];
      }
    }
    out := rec.(targetExist := exist, connectTarget := nodes);
  }

  /** Lines 106-144: walk the records and compose each one where it stands. */
  method ComposeRecords(rs: seq<RobotRecord>, p2t: seq<seq<int>>, t2p: seq<seq<int>>, targetPos: seq<Point>, primPos: seq<Point>)
    returns (out: seq<RobotRecord>)
    requires SlotsCovered(rs, p2t)
    requires |t2p| == |targetPos| && IdsWithin(p2t, |targetPos|) && IdsWithin(t2p, |primPos|)
    ensures out == ComposedAll(rs, p2t, t2p, targetPos, primPos)
  {
    out := rs;
    for r := 0 to |rs|
      invariant out == ComposedAll(rs[..r], p2t, t2p, targetPos, primPos) + rs[r..]
    {
      ghost var done := ComposedAll(rs[..r], p2t, t2p, targetPos, primPos);
      ReplaceNext(done, rs[r..], out);
      var rec := FillRecord(out[r], p2t, t2p, targetPos, primPos);
      out := out[r := rec];
      PrefixStep(rs, r);
      assert rs[r..][1..] == rs[r + 1..];
    }
    assert rs[..|rs|] == rs;
  }

  /** Replacing the first element after a prefix. */
  lemma ReplaceNext<T>(done: seq<T>, rest: seq<T>, out: seq<T>)
    requires out == done + rest && |rest| > 0
    ensures out[|done|] == rest[0]
    ensures forall x :: out[|done| := x] == done + [x] + rest[1..]
  {
    forall x
      ensures out[|done| := x] == done + [x] + rest[1..]
    {
      assert out[|done| := x] == done + [x] + rest[1..];
    }
  }

  lemma PrefixStep<T>(s: seq<T>, r: int)
    requires 0 <= r < |s|
    ensures s[..r + 1][..r] == s[..r] && s[..r + 1][r] == s[r] && |s[..r + 1]| == r + 1
  {
  }
}
