/**
 * The greedy selector of the central node (MaxMinLPGreedyCentralNode.cpp,
 * lines 147-237): for every robot record in turn, score its primitive slots
 * by visible-target count, zero the score of any slot strictly within 0.2 of
 * a committed object, fall back to primitive 3 when no slot has a non-zero
 * distance sum, and otherwise take the arg-max, breaking ties by the
 * smallest distance sum. The winner's position joins the committed objects.
 *
 * As written, the per-robot loop reads global primitive slot i (positions and
 * adjacency lists) for local slot i (lines 163, 177, 193, 234), so every
 * record is scored on the first record's primitives; the functions take the
 * global lists and the slot count k as parameters.
 */
module Greedy {
  import opened Geometry
  import opened Visibility

  /** The distance sentinel the tie-break starts from (line 216). */
  const MinStart: real := 10000.0

  /** The primitive chosen when the robot observes no target (line 189). */
  const FallbackId: int := 3

  /**
   * Lines 160-168: the sum of the distances from p to those of the first n
   * targets that lie within fov of it.
   */
  function DistSum(p: Point, targets: seq<Point>, fov: real, dist: (Point, Point) -> real, n: nat): real
    requires n <= |targets|
  {
    if n == 0 then 0.0
    else
      DistSum(p, targets, fov, dist, n - 1)
      + (if WithinFov(targets[n - 1], p, fov) then dist(targets[n - 1], p) else 0.0)
  }

  /**
   * Lines 177-184: the visible-target count of a slot, or 0 when some
   * committed object lies strictly within 0.2 of it.
   */
  function FilteredScore(p: Point, count: int, objs: seq<Point>): int
  {
    if exists j :: 0 <= j < |objs| && TooClose(p, objs[j]) then 0 else count
  }

  /** The value std::max_element finds (line 201); MaxIsMaximum states what it is. */
  function Max(s: seq<int>): int
    requires |s| > 0
  {
    if |s| == 1 then s[0]
    else
      var m := Max(s[..|s| - 1]);
      if s[|s| - 1] > m then s[|s| - 1] else m
  }

  /** Lines 204-210: the indices among the first n whose score equals v. */
  function IndicesOf(s: seq<int>, v: int, n: nat): seq<int>
    requires n <= |s|
  {
    if n == 0 then []
    else IndicesOf(s, v, n - 1) + (if s[n - 1] == v then [n - 1] else [])
  }

  /**
   * Lines 215-222 over the first n candidates: the (index, value) pair left
   * by keeping the candidate whose sum is strictly below the best so far,
   * starting from (0, 10000).
   */
  function TieBreak(idx: seq<int>, sums: seq<real>, n: nat): (int, real)
    requires n <= |idx| && forall j :: 0 <= j < |idx| ==> 0 <= idx[j] < |sums|
  {
    if n == 0 then (0, MinStart)
    else
      var (f, m) := TieBreak(idx, sums, n - 1);
      var c := idx[n - 1];
      if sums[c] < m then (c, sums[c]) else (f, m)
  }

  /**
   * Lines 187-228 given a robot's filtered scores and distance sums: the
   * 1-based id of the chosen slot.
   */
  function Choice(scores: seq<int>, sums: seq<real>): (id: int)
    requires |scores| == |sums| >= 3
    ensures 1 <= id <= |scores|
  {
    if forall i :: 0 <= i < |sums| ==> sums[i] == 0.0 then FallbackId
    else
      var idx := IndicesOf(scores, Max(scores), |scores|);
      MaxIndices(scores);
      TieBreakInRange(idx, sums, |idx|);
      if |idx| > 1 then TieBreak(idx, sums, |idx|).0 + 1 else idx[0] + 1
  }

  /** The filtered score of each of the first k global slots against the committed objects. */
  function Scores(k: nat, primPos: seq<Point>, p2t: seq<seq<int>>, objs: seq<Point>): seq<int>
    requires k <= |primPos| && k <= |p2t|
  {
    seq(k, i requires 0 <= i < k => FilteredScore(primPos[i], |p2t[i]|, objs))
  }

  /** The distance sum of each of the first k global slots. */
  function Sums(k: nat, primPos: seq<Point>, targets: seq<Point>, fov: real, dist: (Point, Point) -> real): seq<real>
    requires k <= |primPos|
  {
    seq(k, i requires 0 <= i < k => DistSum(primPos[i], targets, fov, dist, |targets|))
  }

  /** The id chosen for one robot record with k slots, given the committed objects. */
  function Decide(k: nat, primPos: seq<Point>, p2t: seq<seq<int>>, targets: seq<Point>, fov: real,
                  dist: (Point, Point) -> real, objs: seq<Point>): int
    requires 3 <= k <= |primPos| && k <= |p2t|
  {
    Choice(Scores(k, primPos, p2t, objs), Sums(k, primPos, targets, fov, dist))
  }

  /**
   * Lines 147-237 for the first n records, under any per-record decision
   * rule: the ids selected so far and the committed objects, which start as
   * the targets and gain the position of each selected slot.
   */
  function Commit(n: nat, decide: seq<Point> -> int, primPos: seq<Point>, targets: seq<Point>): (r: (seq<int>, seq<Point>))
    requires forall objs :: 1 <= decide(objs) <= |primPos|
  {
    if n == 0 then ([], targets)
    else
      var prev := Commit(n - 1, decide, primPos, targets);
      var id := decide(prev.1);
      (prev.0 + [id], prev.1 + [primPos[id - 1]])
  }

  /** The selector's decision rule for records of k slots. */
  function Rule(k: nat, primPos: seq<Point>, p2t: seq<seq<int>>, targets: seq<Point>, fov: real,
                dist: (Point, Point) -> real): (decide: seq<Point> -> int)
    requires 3 <= k <= |primPos| && k <= |p2t|
    ensures forall objs :: 1 <= decide(objs) <= k
  {
    objs => Decide(k, primPos, p2t, targets, fov, dist, objs)
  }

  /** Lines 147-237 for the first n records of k slots each. */
  function Selections(n: nat, k: nat, primPos: seq<Point>, p2t: seq<seq<int>>, targets: seq<Point>, fov: real,
                      dist: (Point, Point) -> real): (r: (seq<int>, seq<Point>))
    requires 3 <= k <= |primPos| && k <= |p2t|
  {
    Commit(n, Rule(k, primPos, p2t, targets, fov, dist), primPos, targets)
  }

  // ---------------------------------------------------------------------------
  // Properties

  /** Max is an element of s and no element exceeds it. */
  lemma {:induction false} MaxIsMaximum(s: seq<int>)
    requires |s| > 0
    ensures exists i :: 0 <= i < |s| && s[i] == Max(s)
    ensures forall i :: 0 <= i < |s| ==> s[i] <= Max(s)
  {
    if |s| == 1 {
      assert s[0] == Max(s);
    } else {
      var front := s[..|s| - 1];
      MaxIsMaximum(front);
      assert forall i :: 0 <= i < |s| - 1 ==> front[i] == s[i];
      if s[|s| - 1] <= Max(front) {
        var i :| 0 <= i < |front| && front[i] == Max(front);
        assert s[i] == Max(s);
      } else {
        assert s[|s| - 1] == Max(s);
      }
    }
  }

  /** Every listed index is among the first n and holds v. */
  lemma {:induction false} IndicesOfSound(s: seq<int>, v: int, n: nat)
    requires n <= |s|
    ensures forall j :: 0 <= j < |IndicesOf(s, v, n)| ==> 0 <= IndicesOf(s, v, n)[j] < n && s[IndicesOf(s, v, n)[j]] == v
  {
    if n > 0 {
      IndicesOfSound(s, v, n - 1);
    }
  }

  /** The tie-break's index is 0 or one of the candidates, so a valid slot. */
  lemma {:induction false} TieBreakInRange(idx: seq<int>, sums: seq<real>, n: nat)
    requires n <= |idx| && forall j :: 0 <= j < |idx| ==> 0 <= idx[j] < |sums|
    ensures TieBreak(idx, sums, n).0 == 0 || exists j :: 0 <= j < n && TieBreak(idx, sums, n).0 == idx[j]
  {
    if n > 0 {
      TieBreakInRange(idx, sums, n - 1);
    }
  }

  /** The tie-break indices ascend: a scan in slot order. */
  lemma {:induction false} IndicesOfIncreasing(s: seq<int>, v: int, n: nat)
    requires n <= |s|
    ensures Increasing(IndicesOf(s, v, n))
  {
    if n > 0 {
      IndicesOfIncreasing(s, v, n - 1);
      IndicesOfSound(s, v, n - 1);
      var front := IndicesOf(s, v, n - 1);
      forall j | 0 <= j < |front|
        ensures front[j] < n - 1
      {
        assert front[j] in front;
      }
    }
  }

  /** Every slot among the first n that holds v is listed. */
  lemma {:induction false} IndicesOfHas(s: seq<int>, v: int, n: nat, i: int)
    requires n <= |s| && 0 <= i < n && s[i] == v
    ensures i in IndicesOf(s, v, n)
  {
    if i < n - 1 {
      IndicesOfHas(s, v, n - 1, i);
    }
  }

  /** Two slots holding v give two listed indices. */
  lemma IndicesOfTwo(s: seq<int>, v: int, i: int, j: int)
    requires 0 <= i < j < |s| && s[i] == v && s[j] == v
    ensures |IndicesOf(s, v, |s|)| > 1
  {
    var idx := IndicesOf(s, v, |s|);
    IndicesOfHas(s, v, |s|, i);
    IndicesOfHas(s, v, |s|, j);
    var a :| 0 <= a < |idx| && idx[a] == i;
    var b :| 0 <= b < |idx| && idx[b] == j;
    assert a != b;
  }

  /** The tie-break scan keeps (0, 10000) when no candidate's sum is below 10000. */
  lemma {:induction false} TieBreakNone(idx: seq<int>, sums: seq<real>, n: nat)
    requires n <= |idx| && forall j :: 0 <= j < |idx| ==> 0 <= idx[j] < |sums|
    requires forall j :: 0 <= j < n ==> sums[idx[j]] >= MinStart
    ensures TieBreak(idx, sums, n) == (0, MinStart)
  {
    if n > 0 {
      TieBreakNone(idx, sums, n - 1);
    }
  }

  /**
   * When some candidate's sum is below 10000, the scan over ascending
   * candidates returns a candidate with the smallest sum, and every
   * candidate before it has a strictly larger sum.
   */
  lemma {:induction false} TieBreakFound(idx: seq<int>, sums: seq<real>, n: nat)
    requires n <= |idx| && forall j :: 0 <= j < |idx| ==> 0 <= idx[j] < |sums|
    requires Increasing(idx)
    requires exists j :: 0 <= j < n && sums[idx[j]] < MinStart
    ensures var r := TieBreak(idx, sums, n);
      && (exists j :: 0 <= j < n && idx[j] == r.0)
      && 0 <= r.0 < |sums| && r.1 == sums[r.0] && r.1 < MinStart
      && (forall j :: 0 <= j < n ==> r.1 <= sums[idx[j]])
      && (forall j :: 0 <= j < n && idx[j] < r.0 ==> r.1 < sums[idx[j]])
  {
    var c := idx[n - 1];
    if forall j :: 0 <= j < n - 1 ==> sums[idx[j]] >= MinStart {
      TieBreakNone(idx, sums, n - 1);
      assert TieBreak(idx, sums, n) == (c, sums[c]);
    } else {
      TieBreakFound(idx, sums, n - 1);
      var p := TieBreak(idx, sums, n - 1);
      if sums[c] >= p.1 {
        assert TieBreak(idx, sums, n) == p;
        var jp :| 0 <= jp < n - 1 && idx[jp] == p.0;
        assert p.0 < c;
      } else {
        assert TieBreak(idx, sums, n) == (c, sums[c]);
      }
    }
  }

  /** A slot whose filtered score is positive is at least 0.2 from every committed object. */
  lemma PositiveScoreIsSafe(p: Point, count: int, objs: seq<Point>)
    requires FilteredScore(p, count, objs) > 0
    ensures forall j :: 0 <= j < |objs| ==> !TooClose(p, objs[j])
    ensures FilteredScore(p, count, objs) == count
  {
  }

  /** Fallback: when every distance sum is 0 the robot gets primitive 3. */
  lemma ChoiceFallback(scores: seq<int>, sums: seq<real>)
    requires |scores| == |sums| >= 3
    requires forall i :: 0 <= i < |sums| ==> sums[i] == 0.0
    ensures Choice(scores, sums) == FallbackId
  {
  }

  /** Some slot has a non-zero distance sum: the robot observes a target. */
  predicate Observed(sums: seq<real>)
  {
    exists i :: 0 <= i < |sums| && sums[i] != 0.0
  }

  /** At least two slots share the maximal score. */
  predicate SeveralMaxima(scores: seq<int>)
    requires |scores| > 0
  {
    exists i, j :: 0 <= i < j < |scores| && scores[i] == Max(scores) && scores[j] == Max(scores)
  }

  /** Some slot of maximal score has a distance sum below the sentinel 10000. */
  predicate MaximumBelowSentinel(scores: seq<int>, sums: seq<real>)
    requires |scores| == |sums| > 0
  {
    exists i :: 0 <= i < |scores| && scores[i] == Max(scores) && sums[i] < MinStart
  }

  /** The indices of maximal score are exactly the maximal slots, ascending. */
  lemma MaxIndices(scores: seq<int>)
    requires |scores| > 0
    ensures var idx := IndicesOf(scores, Max(scores), |scores|);
      && |idx| > 0 && Increasing(idx)
      && (forall j :: 0 <= j < |idx| ==> 0 <= idx[j] < |scores| && scores[idx[j]] == Max(scores))
      && (SeveralMaxima(scores) <==> |idx| > 1)
  {
    var mx := Max(scores);
    var idx := IndicesOf(scores, mx, |scores|);
    IndicesOfIncreasing(scores, mx, |scores|);
    IndicesOfSound(scores, mx, |scores|);
    MaxIsMaximum(scores);
    var i0 :| 0 <= i0 < |scores| && scores[i0] == mx;
    IndicesOfHas(scores, mx, |scores|, i0);
    SeveralMaximaIndices(scores);
  }

  /** The tie-break branch (line 214) is taken exactly when two slots share the maximal score. */
  lemma SeveralMaximaIndices(scores: seq<int>)
    requires |scores| > 0
    ensures SeveralMaxima(scores) <==> |IndicesOf(scores, Max(scores), |scores|)| > 1
  {
    var mx := Max(scores);
    var idx := IndicesOf(scores, mx, |scores|);
    if SeveralMaxima(scores) {
      var i, j :| 0 <= i < j < |scores| && scores[i] == mx && scores[j] == mx;
      IndicesOfTwo(scores, mx, i, j);
    }
    if |idx| > 1 {
      IndicesOfIncreasing(scores, mx, |scores|);
      IndicesOfSound(scores, mx, |scores|);
      var a, b := idx[0], idx[1];
      assert 0 <= a < b < |scores| && scores[a] == mx && scores[b] == mx;
    }
  }

  /** With a single slot of maximal score, the robot gets that slot. */
  lemma ChoiceUniqueMaximum(scores: seq<int>, sums: seq<real>)
    requires |scores| == |sums| >= 3
    requires Observed(sums) && !SeveralMaxima(scores)
    ensures var c := Choice(scores, sums) - 1;
      scores[c] == Max(scores) && forall i :: 0 <= i < |scores| && i != c ==> scores[i] < scores[c]
  {
    MaxIndices(scores);
    MaxIsMaximum(scores);
    var c := Choice(scores, sums) - 1;
    var m := Max(scores);
    var sc := scores[c];
    forall i | 0 <= i < |scores| && i != c
      ensures scores[i] < sc
    {
      var si := scores[i];
      if i < c {
        assert !(si == m && sc == m);
      } else {
        assert !(sc == m && si == m);
      }
    }
  }

  /** With several slots of maximal score the choice is the tie-break's. */
  lemma ChoiceIsTieBreak(scores: seq<int>, sums: seq<real>)
    requires |scores| == |sums| >= 3
    requires Observed(sums) && SeveralMaxima(scores)
    ensures var idx := IndicesOf(scores, Max(scores), |scores|);
      && (forall j :: 0 <= j < |idx| ==> 0 <= idx[j] < |sums|)
      && Choice(scores, sums) == TieBreak(idx, sums, |idx|).0 + 1
  {
    MaxIndices(scores);
  }

  /**
   * With several slots of maximal score, one of them with a sum below 10000,
   * the robot gets the first maximal slot whose sum is the smallest.
   */
  lemma ChoiceTieBreak(scores: seq<int>, sums: seq<real>)
    requires |scores| == |sums| >= 3
    requires Observed(sums) && SeveralMaxima(scores) && MaximumBelowSentinel(scores, sums)
    ensures var c := Choice(scores, sums) - 1;
      && scores[c] == Max(scores) && sums[c] < MinStart
      && (forall i :: 0 <= i < |scores| && scores[i] == Max(scores) ==> sums[c] <= sums[i])
      && (forall i :: 0 <= i < c && scores[i] == Max(scores) ==> sums[c] < sums[i])
  {
    MaxIndices(scores);
    ChoiceIsTieBreak(scores, sums);
    TieBreakOverIndices(scores, sums, Max(scores));
  }

  /** The tie-break over the slots of score mx, read back as slots. */
  lemma TieBreakOverIndices(scores: seq<int>, sums: seq<real>, mx: int)
    requires |scores| == |sums|
    requires exists i :: 0 <= i < |scores| && scores[i] == mx && sums[i] < MinStart
    ensures var idx := IndicesOf(scores, mx, |scores|);
      (forall j :: 0 <= j < |idx| ==> 0 <= idx[j] < |sums|) &&
      var f := TieBreak(idx, sums, |idx|).0;
      && 0 <= f < |scores| && scores[f] == mx && sums[f] < MinStart
      && (forall i :: 0 <= i < |scores| && scores[i] == mx ==> sums[f] <= sums[i])
      && (forall i :: 0 <= i < f && scores[i] == mx ==> sums[f] < sums[i])
  {
    var idx := IndicesOf(scores, mx, |scores|);
    IndicesOfIncreasing(scores, mx, |scores|);
    IndicesOfSound(scores, mx, |scores|);
    var i :| 0 <= i < |scores| && scores[i] == mx && sums[i] < MinStart;
    IndicesOfHas(scores, mx, |scores|, i);
    var ji :| 0 <= ji < |idx| && idx[ji] == i;
    TieBreakFound(idx, sums, |idx|);
    var f := TieBreak(idx, sums, |idx|).0;
    var jf :| 0 <= jf < |idx| && idx[jf] == f;
    forall i' | 0 <= i' < |scores| && scores[i'] == mx
      ensures sums[f] <= sums[i'] && (i' < f ==> sums[f] < sums[i'])
    {
      IndicesOfHas(scores, mx, |scores|, i');
      var j' :| 0 <= j' < |idx| && idx[j'] == i';
    }
  }

  /**
   * With several slots of maximal score, none with a sum below 10000, the
   * robot gets slot 0 (id 1), whatever its score.
   */
  lemma ChoiceSentinel(scores: seq<int>, sums: seq<real>)
    requires |scores| == |sums| >= 3
    requires Observed(sums) && SeveralMaxima(scores) && !MaximumBelowSentinel(scores, sums)
    ensures Choice(scores, sums) == 1
  {
    MaxIndices(scores);
    ChoiceIsTieBreak(scores, sums);
    var idx := IndicesOf(scores, Max(scores), |scores|);
    TieBreakNone(idx, sums, |idx|);
  }

  /**
   * Every distance sum is non-negative, and is 0 exactly when every target
   * within fov of the slot is at distance 0 from it.
   */
  lemma {:induction false} DistSumZero(p: Point, targets: seq<Point>, fov: real, dist: (Point, Point) -> real, n: nat)
    requires n <= |targets|
    requires forall a, b :: dist(a, b) >= 0.0
    ensures DistSum(p, targets, fov, dist, n) >= 0.0
    ensures DistSum(p, targets, fov, dist, n) == 0.0 <==>
      forall j :: 0 <= j < n && WithinFov(targets[j], p, fov) ==> dist(targets[j], p) == 0.0
  {
    if n > 0 {
      DistSumZero(p, targets, fov, dist, n - 1);
    }
  }

  /** A slot that sees no target has distance sum 0. */
  lemma {:induction false} DistSumOfBlindSlot(p: Point, targets: seq<Point>, fov: real, dist: (Point, Point) -> real, n: nat)
    requires n <= |targets|
    requires forall j :: 0 <= j < n ==> !WithinFov(targets[j], p, fov)
    ensures DistSum(p, targets, fov, dist, n) == 0.0
  {
    if n > 0 {
      DistSumOfBlindSlot(p, targets, fov, dist, n - 1);
    }
  }

  /**
   * A robot whose first k global slots see no target at all gets the
   * fallback primitive 3, whatever the committed objects.
   */
  lemma BlindRobotFallsBack(k: nat, primPos: seq<Point>, targets: seq<Point>, fov: real,
                            dist: (Point, Point) -> real, objs: seq<Point>)
    requires 3 <= k <= |primPos|
    requires forall i, j :: 0 <= i < k && 0 <= j < |targets| ==> !WithinFov(targets[j], primPos[i], fov)
    ensures Decide(k, primPos, PrimsToTargets(primPos, Ids(|targets|), targets, fov), targets, fov, dist, objs) == FallbackId
  {
    var sums := Sums(k, primPos, targets, fov, dist);
    forall i | 0 <= i < k
      ensures sums[i] == 0.0
    {
      DistSumOfBlindSlot(primPos[i], targets, fov, dist, |targets|);
    }
  }

  /**
   * Committed list growth: after n records there are n selections, and the
   * committed objects are the targets followed by one position per selection.
   */
  lemma {:induction false} CommitLength(n: nat, decide: seq<Point> -> int, primPos: seq<Point>, targets: seq<Point>)
    requires forall objs :: 1 <= decide(objs) <= |primPos|
    ensures |Commit(n, decide, primPos, targets).0| == n
    ensures |Commit(n, decide, primPos, targets).1| == |targets| + n
    ensures Commit(n, decide, primPos, targets).1[..|targets|] == targets
  {
    if n > 0 {
      CommitLength(n - 1, decide, primPos, targets);
    }
  }

  /** Later records only append: the state after r records is a prefix of the state after n. */
  lemma {:induction false} CommitPrefix(r: nat, n: nat, decide: seq<Point> -> int, primPos: seq<Point>, targets: seq<Point>)
    requires forall objs :: 1 <= decide(objs) <= |primPos|
    requires r <= n
    ensures |Commit(r, decide, primPos, targets).0| <= |Commit(n, decide, primPos, targets).0|
    ensures Commit(n, decide, primPos, targets).0[..|Commit(r, decide, primPos, targets).0|] == Commit(r, decide, primPos, targets).0
    ensures |Commit(r, decide, primPos, targets).1| <= |Commit(n, decide, primPos, targets).1|
    ensures Commit(n, decide, primPos, targets).1[..|Commit(r, decide, primPos, targets).1|] == Commit(r, decide, primPos, targets).1
  {
    if r < n {
      CommitPrefix(r, n - 1, decide, primPos, targets);
    }
  }

  /**
   * Record r's selection is what the rule decides against the targets and
   * the r earlier selections, and its position is committed object
   * |targets| + r.
   */
  lemma {:induction false} CommitAt(r: nat, n: nat, decide: seq<Point> -> int, primPos: seq<Point>, targets: seq<Point>)
    requires forall objs :: 1 <= decide(objs) <= |primPos|
    requires r < n
    ensures |Commit(n, decide, primPos, targets).0| == n
    ensures |Commit(n, decide, primPos, targets).1| == |targets| + n
    ensures var (sel, objs) := Commit(n, decide, primPos, targets);
      && 1 <= sel[r] <= |primPos|
      && objs[|targets| + r] == primPos[sel[r] - 1]
      && sel[r] == decide(objs[..|targets| + r])
  {
    CommitLength(n - 1, decide, primPos, targets);
    if r < n - 1 {
      CommitAt(r, n - 1, decide, primPos, targets);
      var prev := Commit(n - 1, decide, primPos, targets).1;
      var next := Commit(n, decide, primPos, targets).1;
      assert next[..|targets| + r] == prev[..|targets| + r];
    } else {
      assert Commit(n, decide, primPos, targets).1[..|targets| + r] == Commit(n - 1, decide, primPos, targets).1;
    }
  }

  /**
   * The selector's record r: a local id in 1..k, decided against the targets
   * and the first r selected positions, whose position it commits.
   */
  lemma SelectionAt(r: nat, n: nat, k: nat, primPos: seq<Point>, p2t: seq<seq<int>>, targets: seq<Point>,
                    fov: real, dist: (Point, Point) -> real)
    requires 3 <= k <= |primPos| && k <= |p2t| && r < n
    ensures |Selections(n, k, primPos, p2t, targets, fov, dist).0| == n
    ensures |Selections(n, k, primPos, p2t, targets, fov, dist).1| == |targets| + n
    ensures var (sel, objs) := Selections(n, k, primPos, p2t, targets, fov, dist);
      && 1 <= sel[r] <= k
      && objs[|targets| + r] == primPos[sel[r] - 1]
      && sel[r] == Decide(k, primPos, p2t, targets, fov, dist, objs[..|targets| + r])
  {
    var decide := Rule(k, primPos, p2t, targets, fov, dist);
    CommitAt(r, n, decide, primPos, targets);
    var (sel, objs) := Commit(n, decide, primPos, targets);
    RuleDecides(k, primPos, p2t, targets, fov, dist, objs[..|targets| + r]);
  }

  /** The rule applied to the committed objects is Decide. */
  lemma RuleDecides(k: nat, primPos: seq<Point>, p2t: seq<seq<int>>, targets: seq<Point>, fov: real,
                    dist: (Point, Point) -> real, objs: seq<Point>)
    requires 3 <= k <= |primPos| && k <= |p2t|
    ensures Rule(k, primPos, p2t, targets, fov, dist)(objs) == Decide(k, primPos, p2t, targets, fov, dist, objs)
    ensures 1 <= Decide(k, primPos, p2t, targets, fov, dist, objs) <= k
  {
  }

  /**
   * When the chosen slot is a maximum of positive score, it is at least 0.2
   * from every object committed before it.
   */
  lemma ChosenMaximumIsSafe(k: nat, primPos: seq<Point>, p2t: seq<seq<int>>, targets: seq<Point>, fov: real,
                            dist: (Point, Point) -> real, objs: seq<Point>)
    requires 3 <= k <= |primPos| && k <= |p2t|
    requires var c := Decide(k, primPos, p2t, targets, fov, dist, objs) - 1;
      Scores(k, primPos, p2t, objs)[c] == Max(Scores(k, primPos, p2t, objs)) > 0
    ensures var c := Decide(k, primPos, p2t, targets, fov, dist, objs) - 1;
      forall j :: 0 <= j < |objs| ==> !TooClose(primPos[c], objs[j])
  {
    var c := Decide(k, primPos, p2t, targets, fov, dist, objs) - 1;
    PositiveScoreIsSafe(primPos[c], |p2t[c]|, objs);
  }

  /**
   * Collision safety from the choice rule itself: when the robot observes a
   * target, the maximal score is positive, and the maximum is unique or some
   * maximal slot has a sum below 10000, the chosen slot is at least 0.2 from
   * every committed object.
   */
  lemma ChosenSlotIsSafe(k: nat, primPos: seq<Point>, p2t: seq<seq<int>>, targets: seq<Point>, fov: real,
                         dist: (Point, Point) -> real, objs: seq<Point>)
    requires 3 <= k <= |primPos| && k <= |p2t|
    requires var scores := Scores(k, primPos, p2t, objs);
      var sums := Sums(k, primPos, targets, fov, dist);
      Observed(sums) && Max(scores) > 0 && (!SeveralMaxima(scores) || MaximumBelowSentinel(scores, sums))
    ensures var c := Decide(k, primPos, p2t, targets, fov, dist, objs) - 1;
      forall j :: 0 <= j < |objs| ==> !TooClose(primPos[c], objs[j])
  {
    var scores := Scores(k, primPos, p2t, objs);
    var sums := Sums(k, primPos, targets, fov, dist);
    if SeveralMaxima(scores) {
      ChoiceTieBreak(scores, sums);
    } else {
      ChoiceUniqueMaximum(scores, sums);
    }
    ChosenMaximumIsSafe(k, primPos, p2t, targets, fov, dist, objs);
  }

  /**
   * Without those conditions the choice can collide. Several maxima, none
   * with a sum below 10000: slot 0 wins although its score is not maximal.
   */
  lemma SentinelPicksNonMaximal()
    ensures Max([0, 1, 1]) == 1
    ensures Choice([0, 1, 1], [0.1, 20000.0, 20000.0]) == 1
  {
    var scores, sums := [0, 1, 1], [0.1, 20000.0, 20000.0];
    assert Max(scores[..1]) == 0 && Max(scores[..2]) == 1;
    assert SeveralMaxima(scores) by {
      assert scores[1] == Max(scores) && scores[2] == Max(scores);
    }
    assert Observed(sums) by {
      assert sums[0] != 0.0;
    }
    assert !MaximumBelowSentinel(scores, sums) by {
      forall i | 0 <= i < |scores| && scores[i] == Max(scores)
        ensures sums[i] >= MinStart
      {
        assert i != 0;
      }
    }
    ChoiceSentinel(scores, sums);
  }

  /** Every slot filtered to 0 while a target is observed: the smallest sum wins, colliding or not. */
  lemma AllFilteredStillChoose()
    ensures Max([0, 0, 0]) == 0
    ensures Choice([0, 0, 0], [0.1, 0.15, 0.05]) == 3
  {
    var scores, sums := [0, 0, 0], [0.1, 0.15, 0.05];
    assert Max(scores[..1]) == 0 && Max(scores[..2]) == 0;
    assert SeveralMaxima(scores) by {
      assert scores[0] == Max(scores) && scores[1] == Max(scores);
    }
    assert MaximumBelowSentinel(scores, sums) by {
      assert scores[2] == Max(scores) && sums[2] < MinStart;
    }
    assert Observed(sums) by {
      assert sums[0] != 0.0;
    }
    ChoiceTieBreak(scores, sums);
  }

  /**
   * A concrete robot whose three primitives sit 0.1 from the only target:
   * each sees it, each is filtered to 0, and the selector still picks
   * primitive 1, within 0.2 of that target.
   */
  lemma CollidingChoice(dist: (Point, Point) -> real)
    requires 0.0 < dist(Point(0.1, 0.0), Point(0.0, 0.0)) < MinStart
    ensures var p, t := Point(0.0, 0.0), Point(0.1, 0.0);
      var p2t := PrimsToTargets([p, p, p], Ids(1), [t], 1.0);
      && Decide(3, [p, p, p], p2t, [t], 1.0, dist, [t]) == 1
      && TooClose(p, t)
  {
    var p, t := Point(0.0, 0.0), Point(0.1, 0.0);
    var prims, targets := [p, p, p], [t];
    var p2t := PrimsToTargets(prims, Ids(1), targets, 1.0);
    var scores := Scores(3, prims, p2t, targets);
    var sums := Sums(3, prims, targets, 1.0, dist);
    assert TooClose(p, t);
    assert WithinFov(t, p, 1.0);
    var d := dist(t, p);
    forall i | 0 <= i < 3
      ensures scores[i] == 0 && sums[i] == d
    {
      assert TooClose(prims[i], targets[0]);
      assert DistSum(prims[i], targets, 1.0, dist, 1) == d;
    }
    assert scores == [0, 0, 0];
    assert Max(scores[..1]) == 0 && Max(scores[..2]) == 0;
    assert SeveralMaxima(scores) by {
      assert scores[0] == Max(scores) && scores[1] == Max(scores);
    }
    assert MaximumBelowSentinel(scores, sums) by {
      assert scores[0] == Max(scores) && sums[0] < MinStart;
    }
    assert Observed(sums) by {
      assert sums[0] != 0.0;
    }
    ChoiceTieBreak(scores, sums);
  }

  // ---------------------------------------------------------------------------
  // The loops of the selector

  /** Lines 160-168. */
  method DistanceSum(p: Point, targets: seq<Point>, fov: real, dist: (Point, Point) -> real) returns (sum: real)
    ensures sum == DistSum(p, targets, fov, dist, |targets|)
  {
    sum := 0.0;
    for j := 0 to |targets|
      invariant sum == DistSum(p, targets, fov, dist, j)
    {
      if WithinFov(targets[j], p, fov) {
        sum := sum + dist(targets[j], p);
      }
    }
  }

  /** Lines 177-184: push the count, then overwrite it with 0 on every collision. */
  method FilterScore(p: Point, count: int, objs: seq<Point>) returns (score: int)
    ensures score == FilteredScore(p, count, objs)
  {
    score := count;
    for j := 0 to |objs|
      invariant score == if exists j' :: 0 <= j' < j && TooClose(p, objs[j']) then 0 else count
    {
      if TooClose(p, objs[j]) {
        score := 0;
      }
    }
  }

  /**
   * Lines 156-185: the distance sum and filtered score of each of the first
   * k global slots, and whether any sum is non-zero.
   */
  method SlotTotals(k: nat, primPos: seq<Point>, p2t: seq<seq<int>>, targets: seq<Point>, fov: real,
                    dist: (Point, Point) -> real, objs: seq<Point>)
    returns (scores: seq<int>, sums: seq<real>, observed: bool)
    requires k <= |primPos| && k <= |p2t|
    ensures scores == Scores(k, primPos, p2t, objs)
    ensures sums == Sums(k, primPos, targets, fov, dist)
    ensures observed == Observed(sums)
  {
    scores, sums, observed := [], [], false;
    ghost var allSums := Sums(k, primPos, targets, fov, dist);
    for i := 0 to k
      invariant scores == Scores(k, primPos, p2t, objs)[..i]
      invariant sums == allSums[..i]
      invariant observed <==> exists i' :: 0 <= i' < i && allSums[i'] != 0.0
    {
      var s := DistanceSum(primPos[i], targets, fov, dist);
      assert s == allSums[i];
      if s != 0.0 {
        observed := true;
      }
      sums := sums + [s];
      var score := FilterScore(primPos[i], |p2t[i]|, objs);
      scores := scores + [score];
    }
    assert scores == Scores(k, primPos, p2t, objs);
    assert sums == allSums;
  }

  /** Lines 204-210: the slots whose score equals mx, in slot order. */
  method SlotsScoring(scores: seq<int>, mx: int) returns (idx: seq<int>)
    ensures idx == IndicesOf(scores, mx, |scores|)
  {
    idx := [];
    for i := 0 to |scores|
      invariant idx == IndicesOf(scores, mx, i)
    {
      if scores[i] == mx {
        idx := idx + [i];
      }
    }
  }

  /** Lines 215-222: the strict-minimum scan over the tied slots, from (0, 10000). */
  method ScanTieBreak(idx: seq<int>, sums: seq<real>) returns (findId: int, minValue: real)
    requires forall j :: 0 <= j < |idx| ==> 0 <= idx[j] < |sums|
    ensures (findId, minValue) == TieBreak(idx, sums, |idx|)
  {
    findId, minValue := 0, MinStart;
    for j := 0 to |idx|
      invariant (findId, minValue) == TieBreak(idx, sums, j)
    {
      if sums[idx[j]] < minValue {
        minValue := sums[idx[j]];
        findId := idx[j];
      }
    }
  }

  /** Lines 156-228 for one robot record with k slots: the id of its primitive. */
  method DecideRobot(k: nat, primPos: seq<Point>, p2t: seq<seq<int>>, targets: seq<Point>, fov: real,
                     dist: (Point, Point) -> real, objs: seq<Point>) returns (id: int)
    requires 3 <= k <= |primPos| && k <= |p2t|
    ensures id == Decide(k, primPos, p2t, targets, fov, dist, objs)
  {
    var scores, sums, observed := SlotTotals(k, primPos, p2t, targets, fov, dist, objs);
    if !observed {
      id := FallbackId;
      return;
    }
    var mx := Max(scores);
    var idx := SlotsScoring(scores, mx);
    MaxIndices(scores);
    if |idx| > 1 {
      var findId, minValue := ScanTieBreak(idx, sums);
      id := findId + 1;
    } else {
      id := idx[0] + 1;
    }
  }

  /**
   * Lines 147-237: the committed objects start as a copy of the targets;
   * each record in turn gets its id decided against them, and the position
   * of that id joins them.
   */
  method SelectPrimitives(n: nat, k: nat, primPos: seq<Point>, p2t: seq<seq<int>>, targets: seq<Point>, fov: real,
                          dist: (Point, Point) -> real) returns (sel: seq<int>)
    requires n > 0 ==> 3 <= k <= |primPos| && k <= |p2t|
    ensures n > 0 ==> sel == Selections(n, k, primPos, p2t, targets, fov, dist).0
    ensures n == 0 ==> sel == []
  {
    var objs := [];
    for i := 0 to |targets|
      invariant objs == targets[..i]
    {
      objs := objs + [targets[i]];
    }
    assert objs == targets;
    sel := [];
    for r := 0 to n
      invariant n > 0 ==> (sel, objs) == Selections(r, k, primPos, p2t, targets, fov, dist)
      invariant n == 0 ==> sel == []
    {
      var id := DecideRobot(k, primPos, p2t, targets, fov, dist, objs);
      assert id == Rule(k, primPos, p2t, targets, fov, dist)(objs);
      sel := sel + [id];
      objs := objs + [primPos[id - 1]];
    }
  }
}
