/**
 * The central node's request handler (MaxMinLPGreedyCentralNode.cpp, lines
 * 11-61 and 239-272). Robots call it over and over. A "ready" call from the
 * robot whose turn it is registers that robot's motion primitives and is
 * answered "wait". Once every robot has registered, the first such call
 * builds the visibility graph, composes every record and runs the greedy
 * selector, all exactly once. From then on the calls release the composed
 * records one robot at a time, answered "start".
 *
 * State is the node's member data as a value and Step is one call of the
 * handler on it; the class GreedyCentralNode at the end holds the same data
 * in fields and is proved to behave as Step says.
 */
module Central {
  import opened Geometry
  import opened Messages
  import opened Visibility
  import opened NeighbourInfo
  import opened Greedy

  datatype Option<T> = None | Some(value: T)

  /**
   * The node's parameters (lines 12-17; defaults 1, 1, 10, 10). The square
   * root the node takes of squared distances is dist.
   */
  datatype Config = Config(numRobot: int, numTarget: int, fov: real, numPrim: int, dist: (Point, Point) -> real)

  /** One service request: the state check, the caller's id and its motion primitives (z ignored). */
  datatype Request = Request(stateCheck: string, robotId: int, primitives: seq<Point>)

  /** The answer field: never set (the default empty string), "wait" or "start". */
  datatype Answer = NoAnswer | Wait | Start

  /** The response: the answer and, on "start", the caller's record if there is one. */
  datatype Response = Response(answer: Answer, neighborInfo: Option<RobotRecord>)

  /** The node's member data. checkRequestSend is true until the graph is built. */
  datatype State = State(
    requestRobotId: int,
    sendRobotId: int,
    checkRequestSend: bool,
    robotStatus: seq<string>,
    eachRobot: seq<RobotRecord>,
    tempTargetPos: seq<Point>,
    targetId: seq<int>,
    targetPos: seq<Point>,
    primitiveId: seq<int>,
    primitivePos: seq<Point>,
    primsToTargets: seq<seq<int>>,
    targetsToPrims: seq<seq<int>>,
    primitiveSelected: seq<int>)

  /** The number of target slots: a loop up to a negative count runs zero times. */
  function TargetCount(c: Config): nat
  {
    if c.numTarget < 0 then 0 else c.numTarget
  }

  /** A registered record: local primitive ids 1..k with one position each. */
  predicate Registered(rec: RobotRecord, k: int)
  {
    k >= 0 && rec.primitiveId == Ids(k) && |rec.primPos| == k
  }

  /**
   * What holds of the member data between calls. Until the graph is built,
   * no graph data exists, the records are uncomposed, and robots 1, 2, ...
   * have registered in turn.
   */
  predicate Inv(c: Config, s: State)
  {
    && c.numPrim >= 3
    && |s.tempTargetPos| == TargetCount(c)
    && (forall j :: 0 <= j < |s.eachRobot| ==> Registered(s.eachRobot[j], c.numPrim))
    && (s.checkRequestSend ==>
          && s.targetId == [] && s.targetPos == [] && s.primitiveId == [] && s.primitivePos == []
          && s.primsToTargets == [] && s.targetsToPrims == [] && s.primitiveSelected == []
          && |s.eachRobot| == s.requestRobotId - 1
          && (forall j :: 0 <= j < |s.eachRobot| ==>
                s.eachRobot[j].robotId == j + 1 && s.eachRobot[j].targetExist == [] && s.eachRobot[j].connectTarget == []))
  }

  /** The member data after the constructor (lines 11-31); every target pose starts at the origin. */
  function Initial(c: Config): (s: State)
    requires c.numPrim >= 3
    ensures Inv(c, s)
  {
    State(1, 1, true, [], [], seq(TargetCount(c), _ => Point(0.0, 0.0)), [], [], [], [], [], [], [])
  }

  /** Lines 40-56: register the caller's record, advance the turn and rewind the release counter. */
  function Submit(c: Config, s: State, req: Request): State
    requires 0 <= c.numPrim <= |req.primitives|
  {
    var rec := RobotRecord(req.robotId, Ids(c.numPrim), req.primitives[..c.numPrim], [], []);
    s.(robotStatus := s.robotStatus + ["initialized"], eachRobot := s.eachRobot + [rec],
       requestRobotId := s.requestRobotId + 1, sendRobotId := 1)
  }

  /** The registered records hold k primitive positions each. */
  lemma RecordsWellFormed(c: Config, s: State)
    requires Inv(c, s)
    ensures forall j :: 0 <= j < |s.eachRobot| ==> WellFormed(s.eachRobot[j]) && |s.eachRobot[j].primPos| == c.numPrim
  {
  }

  /**
   * Lines 62-239, run on empty graph data: number the targets and every
   * registered primitive, link them by the field of view, compose every
   * record and select one primitive per record.
   */
  function Build(c: Config, s: State): (t: State)
    requires Inv(c, s) && s.checkRequestSend
    ensures |t.eachRobot| == |s.eachRobot|
    ensures |t.primsToTargets| == |t.primitivePos| == |s.eachRobot| * c.numPrim
    ensures |s.eachRobot| > 0 ==> c.numPrim <= |t.primitivePos|
    ensures forall j :: 0 <= j < |t.eachRobot| ==> |t.eachRobot[j].targetExist| == c.numPrim
  {
    var k := c.numPrim;
    var targets := s.tempTargetPos;
    RecordsWellFormed(c, s);
    var prims := AllPositions(s.eachRobot);
    var p2t := PrimsToTargets(prims, Ids(|targets|), targets, c.fov);
    var t2p := TargetsToPrims(targets, Ids(|prims|), prims, c.fov);
    AllPositionsLength(s.eachRobot, k);
    AdjacencyShape(prims, targets, c.fov);
    ComposedAllRecords(s.eachRobot, p2t, t2p, targets, prims);
    s.(targetId := Ids(|targets|), targetPos := targets,
       primitiveId := Ids(|prims|), primitivePos := prims,
       primsToTargets := p2t, targetsToPrims := t2p,
       eachRobot := ComposedAll(s.eachRobot, p2t, t2p, targets, prims),
       primitiveSelected := if |s.eachRobot| == 0 then [] else Selections(|s.eachRobot|, k, prims, p2t, targets, c.fov, c.dist).0,
       checkRequestSend := false)
  }

  /** Lines 246-250: the last record carrying the id, as the loop keeps overwriting. */
  function LastWithId(rs: seq<RobotRecord>, id: int): Option<RobotRecord>
  {
    if rs == [] then None
    else if rs[|rs| - 1].robotId == id then Some(rs[|rs| - 1])
    else LastWithId(rs[..|rs| - 1], id)
  }

  /** The caller's primitives must be there when the call will register them (line 48 reads them). */
  predicate CanStep(c: Config, s: State, req: Request)
  {
    req.stateCheck == "ready" && req.robotId == s.requestRobotId ==> |req.primitives| >= c.numPrim
  }

  /** Lines 39-57: a ready call registers the caller when its turn has come; the invariant holds after. */
  function Admit(c: Config, s: State, req: Request): (s1: State)
    requires Inv(c, s) && CanStep(c, s, req) && req.stateCheck == "ready"
    ensures Inv(c, s1)
  {
    if Accepted(s, req) then Submit(c, s, req) else s
  }

  /** One call of the handler (lines 37-260). */
  function Step(c: Config, s: State, req: Request): (State, Response)
    requires Inv(c, s) && CanStep(c, s, req)
  {
    if req.stateCheck != "ready" then (s, Response(NoAnswer, None))
    else
      var s1 := Admit(c, s, req);
      var answer := if Accepted(s, req) then Wait else NoAnswer;
      if s1.requestRobotId != c.numRobot + 1 then (s1, Response(answer, None))
      else Round(c, s1, req.robotId, answer)
  }

  /**
   * Lines 60-256, once every robot has registered: build the graph if it is
   * still pending; on the caller's release turn answer "start" with its
   * record and advance the release turn, reopening registration after the
   * last robot.
   */
  function Round(c: Config, s1: State, robotId: int, answer: Answer): (State, Response)
    requires Inv(c, s1)
  {
    var s2 := if s1.checkRequestSend then Build(c, s1) else s1;
    if s2.sendRobotId != robotId then (s2, Response(answer, None))
    else
      var s3 := s2.(sendRobotId := s2.sendRobotId + 1);
      var s4 := if s3.sendRobotId == c.numRobot + 1 then s3.(requestRobotId := 1) else s3;
      (s4, Response(Start, LastWithId(s2.eachRobot, robotId)))
  }

  // ---------------------------------------------------------------------------
  // Properties of the handler

  /** No record carries the id: the response carries none. */
  lemma {:induction false} LastWithIdNone(rs: seq<RobotRecord>, id: int)
    requires forall j :: 0 <= j < |rs| ==> rs[j].robotId != id
    ensures LastWithId(rs, id) == None
  {
    if rs != [] {
      LastWithIdNone(rs[..|rs| - 1], id);
    }
  }

  /** The response carries the last record with the id. */
  lemma {:induction false} LastWithIdAt(rs: seq<RobotRecord>, id: int, j: int)
    requires 0 <= j < |rs| && rs[j].robotId == id
    requires forall j' :: j < j' < |rs| ==> rs[j'].robotId != id
    ensures LastWithId(rs, id) == Some(rs[j])
  {
    if j < |rs| - 1 {
      LastWithIdAt(rs[..|rs| - 1], id, j);
    }
  }

  /** Whatever the call, the member data keeps the invariant. */
  lemma StepPreservesInv(c: Config, s: State, req: Request)
    requires Inv(c, s) && CanStep(c, s, req)
    ensures Inv(c, Step(c, s, req).0)
  {
    if req.stateCheck == "ready" {
      var s1 := Admit(c, s, req);
      if s1.requestRobotId == c.numRobot + 1 {
        RoundKeepsInv(c, s1, req.robotId, if Accepted(s, req) then Wait else NoAnswer);
      }
    }
  }

  lemma RoundKeepsInv(c: Config, s1: State, robotId: int, answer: Answer)
    requires Inv(c, s1)
    ensures Inv(c, Round(c, s1, robotId, answer).0)
  {
    if s1.checkRequestSend {
      BuildKeepsRecords(c, s1);
    }
  }

  /**
   * Once every robot has registered: the graph is built, the caller's
   * release turn decides the "start" answer, and a release advances the
   * release turn past the caller, reopening registration after the last
   * robot. The status list is kept.
   */
  lemma RoundCounters(c: Config, s1: State, robotId: int, answer: Answer)
    requires Inv(c, s1) && answer != Start
    ensures var (t, res) := Round(c, s1, robotId, answer);
      && !t.checkRequestSend
      && t.robotStatus == s1.robotStatus
      && (res.answer == Start <==> s1.sendRobotId == robotId)
      && (res.answer == Start ==> res.neighborInfo == LastWithId(t.eachRobot, robotId))
      && (s1.sendRobotId != robotId ==>
            res == Response(answer, None) && t.sendRobotId == s1.sendRobotId && t.requestRobotId == s1.requestRobotId)
      && (s1.sendRobotId == robotId ==>
            t.sendRobotId == robotId + 1 && t.requestRobotId == if robotId == c.numRobot then 1 else s1.requestRobotId)
  {
    if s1.checkRequestSend {
      BuildKeepsRecords(c, s1);
    }
  }

  /** The call registers the caller exactly when it is ready and its turn has come. */
  predicate Accepted(s: State, req: Request)
  {
    req.stateCheck == "ready" && req.robotId == s.requestRobotId
  }

  /**
   * Registration: a ready caller whose turn it is gains one record with its
   * id, local ids 1..k and its first k primitive positions, and one
   * "initialized" status; any other call registers nothing. Building the
   * graph keeps every record's id and positions.
   */
  lemma StepRegisters(c: Config, s: State, req: Request)
    requires Inv(c, s) && CanStep(c, s, req)
    ensures var t := Step(c, s, req).0;
      && |t.eachRobot| == |s.eachRobot| + (if Accepted(s, req) then 1 else 0)
      && t.robotStatus == s.robotStatus + (if Accepted(s, req) then ["initialized"] else [])
      && (forall j :: 0 <= j < |s.eachRobot| ==>
            t.eachRobot[j].robotId == s.eachRobot[j].robotId && t.eachRobot[j].primPos == s.eachRobot[j].primPos)
      && (Accepted(s, req) ==>
            && t.eachRobot[|s.eachRobot|].robotId == req.robotId
            && t.eachRobot[|s.eachRobot|].primitiveId == Ids(c.numPrim)
            && t.eachRobot[|s.eachRobot|].primPos == req.primitives[..c.numPrim])
  {
    if req.stateCheck == "ready" {
      var s1 := Admit(c, s, req);
      if s1.requestRobotId == c.numRobot + 1 {
        RoundKeepsRecords(c, s1, req.robotId, if Accepted(s, req) then Wait else NoAnswer);
      }
    }
  }

  /**
   * A call that registers nothing (not ready, a duplicate or out of turn)
   * leaves the member data, composed payloads included, as it was; only
   * the ready call that finds every robot registered builds the graph, and
   * only a release moves the two counters.
   */
  lemma RejectedCallKeepsState(c: Config, s: State, req: Request)
    requires Inv(c, s) && CanStep(c, s, req) && !Accepted(s, req)
    ensures var (t, res) := Step(c, s, req);
      var s2 := if req.stateCheck == "ready" && s.requestRobotId == c.numRobot + 1 && s.checkRequestSend then Build(c, s) else s;
      && t == s2.(sendRobotId := t.sendRobotId, requestRobotId := t.requestRobotId)
      && (res.answer != Start ==> t == s2)
  {
  }

  /**
   * A registration once the graph is built appends the caller's fresh,
   * uncomposed record and keeps every earlier record whole.
   */
  lemma LateRegistrationAppends(c: Config, s: State, req: Request)
    requires Inv(c, s) && CanStep(c, s, req) && Accepted(s, req) && !s.checkRequestSend
    ensures Step(c, s, req).0.eachRobot
      == s.eachRobot + [RobotRecord(req.robotId, Ids(c.numPrim), req.primitives[..c.numPrim], [], [])]
  {
  }

  lemma RoundKeepsRecords(c: Config, s1: State, robotId: int, answer: Answer)
    requires Inv(c, s1)
    ensures var t := Round(c, s1, robotId, answer).0;
      && t.robotStatus == s1.robotStatus
      && |t.eachRobot| == |s1.eachRobot|
      && forall j :: 0 <= j < |s1.eachRobot| ==>
           && t.eachRobot[j].robotId == s1.eachRobot[j].robotId
           && t.eachRobot[j].primitiveId == s1.eachRobot[j].primitiveId
           && t.eachRobot[j].primPos == s1.eachRobot[j].primPos
  {
    if s1.checkRequestSend {
      BuildKeepsRecords(c, s1);
    }
  }

  /** Building composes the records in place: same count, ids, local ids and positions. */
  lemma BuildKeepsRecords(c: Config, s: State)
    requires Inv(c, s) && s.checkRequestSend
    ensures var t := Build(c, s);
      && t.robotStatus == s.robotStatus
      && t.requestRobotId == s.requestRobotId && t.sendRobotId == s.sendRobotId
      && |t.eachRobot| == |s.eachRobot|
      && forall j :: 0 <= j < |s.eachRobot| ==>
           && t.eachRobot[j].robotId == s.eachRobot[j].robotId
           && t.eachRobot[j].primitiveId == s.eachRobot[j].primitiveId
           && t.eachRobot[j].primPos == s.eachRobot[j].primPos
  {
    var t := Build(c, s);
    forall j | 0 <= j < |s.eachRobot|
      ensures && t.eachRobot[j].robotId == s.eachRobot[j].robotId
              && t.eachRobot[j].primitiveId == s.eachRobot[j].primitiveId
              && t.eachRobot[j].primPos == s.eachRobot[j].primPos
    {
      BuildRecord(c, s, j);
    }
  }

  /** On a release the record sent is the last one registered under the caller's id. */
  lemma StartInfo(c: Config, s: State, req: Request)
    requires Inv(c, s) && CanStep(c, s, req)
    requires Step(c, s, req).1.answer == Start
    ensures Step(c, s, req).1.neighborInfo == LastWithId(Step(c, s, req).0.eachRobot, req.robotId)
  {
    var s1 := Admit(c, s, req);
    RoundCounters(c, s1, req.robotId, if Accepted(s, req) then Wait else NoAnswer);
  }

  /**
   * The graph is built at most once: the flag only goes from set to clear,
   * and it clears exactly on the ready call that leaves the turn counter at
   * numRobot + 1. Once clear, the graph data never changes again.
   */
  lemma BuildOnce(c: Config, s: State, req: Request)
    requires Inv(c, s) && CanStep(c, s, req)
    ensures var t := Step(c, s, req).0;
      && (!s.checkRequestSend ==> !t.checkRequestSend)
      && (s.checkRequestSend && !t.checkRequestSend <==>
            s.checkRequestSend && req.stateCheck == "ready"
            && (if Accepted(s, req) then s.requestRobotId + 1 else s.requestRobotId) == c.numRobot + 1)
      && (!s.checkRequestSend ==>
            && t.targetId == s.targetId && t.targetPos == s.targetPos
            && t.primitiveId == s.primitiveId && t.primitivePos == s.primitivePos
            && t.primsToTargets == s.primsToTargets && t.targetsToPrims == s.targetsToPrims
            && t.primitiveSelected == s.primitiveSelected)
  {
    if req.stateCheck == "ready" {
      var s1 := Admit(c, s, req);
      if s1.requestRobotId == c.numRobot + 1 {
        RoundCounters(c, s1, req.robotId, if Accepted(s, req) then Wait else NoAnswer);
      }
    }
  }

  /**
   * The build sees one full round: numRobot records whose ids are 1, 2, ...,
   * numRobot in that order.
   */
  lemma BuildSeesFullRound(c: Config, s: State, req: Request)
    requires Inv(c, s) && CanStep(c, s, req)
    requires s.checkRequestSend && !Step(c, s, req).0.checkRequestSend
    ensures var t := Step(c, s, req).0;
      && |t.eachRobot| == c.numRobot
      && forall j :: 0 <= j < |t.eachRobot| ==> t.eachRobot[j].robotId == j + 1
  {
    StepRegisters(c, s, req);
  }

  /**
   * Answers: "start" goes to the ready caller whose release turn it is once
   * every robot has registered; "wait" to a caller just registered that is
   * not released in the same call; every other call is left unanswered.
   * A release advances the release turn past the caller, and the release of
   * robot numRobot opens registration again from robot 1.
   */
  lemma StepAnswers(c: Config, s: State, req: Request)
    requires Inv(c, s) && CanStep(c, s, req)
    ensures var (t, res) := Step(c, s, req);
      var turn := if Accepted(s, req) then s.requestRobotId + 1 else s.requestRobotId;
      var release := if Accepted(s, req) then 1 else s.sendRobotId;
      && (res.answer == Start <==> req.stateCheck == "ready" && turn == c.numRobot + 1 && release == req.robotId)
      && (res.answer == Wait <==> Accepted(s, req) && res.answer != Start)
      && (res.answer != Start ==> res.neighborInfo == None && t.sendRobotId == release && t.requestRobotId == turn)
      && (res.answer == Start ==>
            && !t.checkRequestSend
            && t.sendRobotId == req.robotId + 1
            && t.requestRobotId == (if req.robotId == c.numRobot then 1 else c.numRobot + 1))
  {
    if req.stateCheck == "ready" {
      var s1 := Admit(c, s, req);
      if s1.requestRobotId == c.numRobot + 1 {
        RoundCounters(c, s1, req.robotId, if Accepted(s, req) then Wait else NoAnswer);
      }
    }
  }

  /**
   * A release carries the caller's own record: the last one registered under
   * its id, or none. When the records are numbered 1, 2, ... in order, as
   * after the first round, it is the record at position id - 1.
   */
  lemma StartCarriesOwnRecord(c: Config, s: State, req: Request)
    requires Inv(c, s) && CanStep(c, s, req)
    requires Step(c, s, req).1.answer == Start
    ensures var (t, res) := Step(c, s, req);
      && (res.neighborInfo.Some? ==> res.neighborInfo.value in t.eachRobot && res.neighborInfo.value.robotId == req.robotId)
      && ((forall j :: 0 <= j < |t.eachRobot| ==> t.eachRobot[j].robotId == j + 1) ==>
            res.neighborInfo == if 1 <= req.robotId <= |t.eachRobot| then Some(t.eachRobot[req.robotId - 1]) else None)
  {
    var t := Step(c, s, req).0;
    StartInfo(c, s, req);
    LastWithIdMember(t.eachRobot, req.robotId);
    if forall j :: 0 <= j < |t.eachRobot| ==> t.eachRobot[j].robotId == j + 1 {
      if 1 <= req.robotId <= |t.eachRobot| {
        LastWithIdAt(t.eachRobot, req.robotId, req.robotId - 1);
      } else {
        LastWithIdNone(t.eachRobot, req.robotId);
      }
    }
  }

  /**
   * While records are released the registration turn is numRobot+1, so a
   * ready call from id numRobot+1 passes the guard at line 39 and moves the
   * turn to numRobot+2 (line 55); the release branch at line 60 is skipped.
   */
  lemma OverflowRegistration(c: Config, s: State, req: Request)
    requires Inv(c, s) && CanStep(c, s, req)
    requires s.requestRobotId == c.numRobot + 1 && req.stateCheck == "ready" && req.robotId == c.numRobot + 1
    ensures var (t, res) := Step(c, s, req);
      t.requestRobotId == c.numRobot + 2 && t.sendRobotId == 1 && res == Response(Wait, None)
  {
  }

  /**
   * Past numRobot+1 the registration turn only grows: line 60 never holds,
   * so no call is answered "start" and line 253 never reopens registration.
   */
  lemma StalledStaysStalled(c: Config, s: State, req: Request)
    requires Inv(c, s) && CanStep(c, s, req) && s.requestRobotId > c.numRobot + 1
    ensures var (t, res) := Step(c, s, req);
      t.requestRobotId >= s.requestRobotId && res.answer != Start
  {
  }

  /** `states[k+1]` and `resps[k]` are what the handler leaves and answers on call `reqs[k]`. */
  predicate IsTrace(c: Config, states: seq<State>, reqs: seq<Request>, resps: seq<Response>)
  {
    && |states| == |reqs| + 1 && |resps| == |reqs|
    && forall k :: 0 <= k < |reqs| ==>
         && Inv(c, states[k]) && CanStep(c, states[k], reqs[k])
         && Step(c, states[k], reqs[k]) == (states[k + 1], resps[k])
  }

  /** Once the turn is past numRobot+1, no later call of any trace is answered "start". */
  lemma {:induction false} StallIsPermanent(c: Config, states: seq<State>, reqs: seq<Request>, resps: seq<Response>, n: nat)
    requires IsTrace(c, states, reqs, resps) && n < |states| && states[0].requestRobotId > c.numRobot + 1
    ensures states[n].requestRobotId >= states[0].requestRobotId
    ensures n < |reqs| ==> resps[n].answer != Start
  {
    if n > 0 {
      StallIsPermanent(c, states, reqs, resps, n - 1);
      StalledStaysStalled(c, states[n - 1], reqs[n - 1]);
      assert states[n] == Step(c, states[n - 1], reqs[n - 1]).0;
    }
    if n < |reqs| {
      StalledStaysStalled(c, states[n], reqs[n]);
      assert (states[n + 1], resps[n]) == Step(c, states[n], reqs[n]);
    }
  }

  /** A record found by id is one of the records and carries that id. */
  lemma {:induction false} LastWithIdMember(rs: seq<RobotRecord>, id: int)
    ensures LastWithId(rs, id).Some? ==> LastWithId(rs, id).value in rs && LastWithId(rs, id).value.robotId == id
  {
    if rs != [] {
      LastWithIdMember(rs[..|rs| - 1], id);
    }
  }

  // ---------------------------------------------------------------------------
  // Properties of the build

  /**
   * As written, slot i of every record is marked from global primitive i,
   * which is the first record's primitive i: the marker says whether some
   * target lies within the field of view of that primitive.
   */
  lemma BuildMarkers(c: Config, s: State, r: int, i: int)
    requires Inv(c, s) && s.checkRequestSend
    requires 0 <= r < |s.eachRobot| && 0 <= i < c.numPrim
    ensures Build(c, s).primitivePos[i] == s.eachRobot[0].primPos[i]
    ensures Build(c, s).eachRobot[r].targetExist[i] <==>
      exists t :: 0 <= t < |s.tempTargetPos| && WithinFov(s.eachRobot[0].primPos[i], s.tempTargetPos[t], c.fov)
  {
    BuildRecord(c, s, r);
    RecordsWellFormed(c, s);
    var prims := AllPositions(s.eachRobot);
    AllPositionsAt(s.eachRobot, c.numPrim, 0, i);
    SeesSomeTarget(prims, s.tempTargetPos, c.fov, i);
  }

  /**
   * The graph data the build leaves, and every record composed from it
   * in place.
   */
  lemma BuildRecord(c: Config, s: State, r: int)
    requires Inv(c, s) && s.checkRequestSend && 0 <= r < |s.eachRobot|
    ensures var t := Build(c, s);
      && t.targetPos == s.tempTargetPos
      && t.primitivePos == AllPositions(s.eachRobot)
      && t.primsToTargets == PrimsToTargets(t.primitivePos, Ids(|t.targetPos|), t.targetPos, c.fov)
      && t.targetsToPrims == TargetsToPrims(t.targetPos, Ids(|t.primitivePos|), t.primitivePos, c.fov)
      && c.numPrim <= |t.primsToTargets| && |t.targetsToPrims| == |t.targetPos|
      && IdsWithin(t.primsToTargets, |t.targetPos|) && IdsWithin(t.targetsToPrims, |t.primitivePos|)
      && t.eachRobot[r] == Composed(s.eachRobot[r], t.primsToTargets, t.targetsToPrims, t.targetPos, t.primitivePos)
  {
    RecordsWellFormed(c, s);
    var prims := AllPositions(s.eachRobot);
    AdjacencyShape(prims, s.tempTargetPos, c.fov);
    ComposedAllAt(s.eachRobot, PrimsToTargets(prims, Ids(|s.tempTargetPos|), s.tempTargetPos, c.fov),
      TargetsToPrims(s.tempTargetPos, Ids(|prims|), prims, c.fov), s.tempTargetPos, prims, r);
  }

  /** What the builder's loops need of the registered records and of the graph they give. */
  lemma BuildInputs(c: Config, s: State)
    requires Inv(c, s)
    ensures forall j :: 0 <= j < |s.eachRobot| ==> WellFormed(s.eachRobot[j]) && |s.eachRobot[j].primPos| == c.numPrim
    ensures var prims := AllPositions(s.eachRobot);
      && |prims| == |s.eachRobot| * c.numPrim
      && AdjacencyShapeHolds(prims, s.tempTargetPos, c.fov)
      && SlotsCovered(s.eachRobot, PrimsToTargets(prims, Ids(|s.tempTargetPos|), s.tempTargetPos, c.fov))
  {
    RecordsWellFormed(c, s);
    AllPositionsLength(s.eachRobot, c.numPrim);
    AdjacencyShape(AllPositions(s.eachRobot), s.tempTargetPos, c.fov);
  }

  /** The built pieces, put in place, are the built state. */
  lemma BuildIs(c: Config, s: State, tIds: seq<int>, tPos: seq<Point>, pIds: seq<int>, pPos: seq<Point>,
                p2t: seq<seq<int>>, t2p: seq<seq<int>>, composed: seq<RobotRecord>, selected: seq<int>)
    requires Inv(c, s) && s.checkRequestSend
    requires forall j :: 0 <= j < |s.eachRobot| ==> WellFormed(s.eachRobot[j])
    requires tIds == Ids(|s.tempTargetPos|) && tPos == s.tempTargetPos
    requires pPos == AllPositions(s.eachRobot) && pIds == Ids(|pPos|)
    requires p2t == PrimsToTargets(pPos, tIds, tPos, c.fov)
    requires t2p == TargetsToPrims(tPos, pIds, pPos, c.fov)
    requires AdjacencyShapeHolds(pPos, tPos, c.fov) && SlotsCovered(s.eachRobot, p2t)
    requires composed == ComposedAll(s.eachRobot, p2t, t2p, tPos, pPos)
    requires |s.eachRobot| > 0 ==> c.numPrim <= |pPos| && c.numPrim <= |p2t|
    requires |s.eachRobot| > 0 ==> selected == Selections(|s.eachRobot|, c.numPrim, pPos, p2t, tPos, c.fov, c.dist).0
    requires |s.eachRobot| == 0 ==> selected == []
    ensures Build(c, s) == s.(targetId := tIds, targetPos := tPos, primitiveId := pIds, primitivePos := pPos,
                              primsToTargets := p2t, targetsToPrims := t2p, eachRobot := composed,
                              primitiveSelected := selected, checkRequestSend := false)
  {
  }

  // ---------------------------------------------------------------------------
  // The node

  /**
   * Lines 62-239 on the member data: number the targets and the primitives,
   * list both adjacency views, compose every record where it stands and
   * select one primitive per record.
   */
  method BuildState(c: Config, s: State) returns (t: State)
    requires Inv(c, s) && s.checkRequestSend
    ensures t == Build(c, s)
  {
    BuildInputs(c, s);
    var tIds, tPos := ListTargets(s.tempTargetPos, c.numTarget);
    var pIds, pPos, p2t := ListPrimitives(s.eachRobot, tIds, tPos, c.fov);
    var t2p := ListTargetsToPrims(tIds, tPos, pIds, pPos, c.fov);
    var composed := ComposeRecords(s.eachRobot, p2t, t2p, tPos, pPos);
    var selected := SelectPrimitives(|s.eachRobot|, c.numPrim, pPos, p2t, s.tempTargetPos, c.fov, c.dist);
    BuildIs(c, s, tIds, tPos, pIds, pPos, p2t, t2p, composed, selected);
    t := s.(targetId := tIds, targetPos := tPos, primitiveId := pIds, primitivePos := pPos,
            primsToTargets := p2t, targetsToPrims := t2p, eachRobot := composed,
            primitiveSelected := selected, checkRequestSend := false);
  }

  /** Lines 246-250: scan every record, keeping the last one with the caller's id. */
  method FindRecord(rs: seq<RobotRecord>, id: int) returns (found: Option<RobotRecord>)
    ensures found == LastWithId(rs, id)
  {
    found := None;
    for j := 0 to |rs|
      invariant found == LastWithId(rs[..j], id)
    {
      assert rs[..j + 1][..j] == rs[..j];
      if rs[j].robotId == id {
        found := Some(rs[j]);
      }
    }
    assert rs[..|rs|] == rs;
  }

  /** The node's robot information (m_robot_info): the status list and the records. */
  datatype RobotInfo = RobotInfo(robotStatus: seq<string>, eachRobot: seq<RobotRecord>)

  /**
   * The graph data the build fills once: target ids and positions, primitive
   * ids and positions, and the two adjacency views.
   */
  datatype Graph = Graph(targetId: seq<int>, targetPos: seq<Point>, primitiveId: seq<int>, primitivePos: seq<Point>,
                         primsToTargets: seq<seq<int>>, targetsToPrims: seq<seq<int>>)

  /**
   * The central node: its parameters, fixed once read, and its member data,
   * updated in place by the service handler Initialize and by UpdatePose.
   */
  class GreedyCentralNode {
    const numRobot: int
    const numTarget: int
    const fov: real
    const numPrim: int
    const dist: (Point, Point) -> real

    var requestRobotId: int
    var sendRobotId: int
    var checkRequestSend: bool
    var robotInfo: RobotInfo
    var tempTargetPos: seq<Point>
    var graph: Graph
    var primitiveSelected: seq<int>

    function Cfg(): Config
    {
      Config(numRobot, numTarget, fov, numPrim, dist)
    }

    /** The member data as a value. */
    ghost function Abs(): State
      reads this
    {
      State(requestRobotId, sendRobotId, checkRequestSend, robotInfo.robotStatus, robotInfo.eachRobot, tempTargetPos,
            graph.targetId, graph.targetPos, graph.primitiveId, graph.primitivePos, graph.primsToTargets, graph.targetsToPrims,
            primitiveSelected)
    }

    ghost predicate Valid()
      reads this
    {
      Inv(Cfg(), Abs())
    }

    /**
     * Lines 11-31: the parameters as read (the defaults 1, 1, 10, 10 stand
     * where a parameter is missing), both turn counters at 1, the graph still
     * to build, and one target slot per configured target, at the origin
     * until its pose arrives.
     */
    constructor (numRobot: int, numTarget: int, fov: real, numPrim: int, dist: (Point, Point) -> real)
      requires numPrim >= 3
      ensures Cfg() == Config(numRobot, numTarget, fov, numPrim, dist)
      ensures Abs() == Initial(Cfg())
      ensures Valid()
    {
      this.numRobot, this.numTarget, this.fov, this.numPrim, this.dist := numRobot, numTarget, fov, numPrim, dist;
      requestRobotId, sendRobotId, checkRequestSend := 1, 1, true;
      robotInfo := RobotInfo([], []);
      graph := Graph([], [], [], [], [], []);
      primitiveSelected := [];
      var poses := [];
      var i := 0;
      while i < numTarget
        invariant 0 <= i <= if numTarget < 0 then 0 else numTarget
        invariant poses == seq(i, _ => Point(0.0, 0.0))
      {
        poses := poses + [Point(0.0, 0.0)];
        i := i + 1;
      }
      tempTargetPos := poses;
    }

    /** Line 271: a target's pose replaces its slot; nothing else changes. */
    method UpdatePose(target: int, pose: Point)
      requires Valid() && 0 <= target < |tempTargetPos|
      modifies this
      ensures Valid()
      ensures Abs() == old(Abs()).(tempTargetPos := old(tempTargetPos)[target := pose])
    {
      tempTargetPos := tempTargetPos[target := pose];
    }

    /** Lines 62-239: build the graph, compose the records and select the primitives, once. */
    method BuildGraph()
      requires Valid() && checkRequestSend
      modifies this
      ensures Valid()
      ensures Abs() == Build(Cfg(), old(Abs()))
    {
      var t := BuildState(Cfg(), State(requestRobotId, sendRobotId, checkRequestSend, robotInfo.robotStatus, robotInfo.eachRobot,
                                       tempTargetPos, graph.targetId, graph.targetPos, graph.primitiveId, graph.primitivePos,
                                       graph.primsToTargets, graph.targetsToPrims, primitiveSelected));
      graph := Graph(t.targetId, t.targetPos, t.primitiveId, t.primitivePos, t.primsToTargets, t.targetsToPrims);
      robotInfo := robotInfo.(eachRobot := t.eachRobot);
      primitiveSelected := t.primitiveSelected;
      checkRequestSend := false;
      BuildKeepsRecords(Cfg(), old(Abs()));
    }

    /** Lines 39-57: register the caller's record and advance the turn. */
    method Register(robotId: int, primitives: seq<Point>)
      requires Valid() && requestRobotId == robotId && |primitives| >= numPrim
      modifies this
      ensures Valid()
      ensures Abs() == Submit(Cfg(), old(Abs()), Request("ready", robotId, primitives))
    {
      robotInfo := robotInfo.(robotStatus := robotInfo.robotStatus + ["initialized"]);
      var ids, pos := [], [];
      for i := 0 to numPrim
        invariant ids == Ids(i) && pos == primitives[..i]
      {
        ids := ids + [i + 1];
        pos := pos + [primitives[i]];
      }
      robotInfo := robotInfo.(eachRobot := robotInfo.eachRobot + [RobotRecord(robotId, ids, pos, [], [])]);
      requestRobotId := requestRobotId + 1;
      sendRobotId := 1;
      assert Abs() == Admit(Cfg(), old(Abs()), Request("ready", robotId, primitives));
    }

    /** Lines 242-255: release the caller's record and advance the release turn. */
    method Release(robotId: int) returns (info: Option<RobotRecord>)
      requires Valid() && !checkRequestSend
      modifies this
      ensures Valid()
      ensures info == LastWithId(old(robotInfo.eachRobot), robotId)
      ensures var s3 := old(Abs()).(sendRobotId := old(sendRobotId) + 1);
        Abs() == if s3.sendRobotId == numRobot + 1 then s3.(requestRobotId := 1) else s3
    {
      sendRobotId := sendRobotId + 1;
      info := FindRecord(robotInfo.eachRobot, robotId);
      if sendRobotId == numRobot + 1 {
        requestRobotId := 1;
      }
    }

    /** Lines 60-256: the rest of the call once every robot has registered, as Round describes it. */
    method CompleteRound(robotId: int, answer: Answer) returns (res: Response)
      requires Valid()
      modifies this
      ensures Valid()
      ensures (Abs(), res) == Round(Cfg(), old(Abs()), robotId, answer)
    {
      if checkRequestSend {
        BuildGraph();
      }
      if sendRobotId == robotId {
        var info := Release(robotId);
        res := Response(Start, info);
      } else {
        res := Response(answer, None);
      }
    }

    /** Lines 37-260: one service call, as Step describes it. */
    method Initialize(stateCheck: string, robotId: int, primitives: seq<Point>) returns (res: Response)
      requires Valid() && CanStep(Cfg(), Abs(), Request(stateCheck, robotId, primitives))
      modifies this
      ensures Valid()
      ensures (Abs(), res) == Step(Cfg(), old(Abs()), Request(stateCheck, robotId, primitives))
    {
      res := Response(NoAnswer, None);
      if stateCheck != "ready" {
        return;
      }
      if requestRobotId == robotId {
        Register(robotId, primitives);
        res := Response(Wait, None);
      }
      if requestRobotId == numRobot + 1 {
        res := CompleteRound(robotId, res.answer);
      }
      StepPreservesInv(Cfg(), old(Abs()), Request(stateCheck, robotId, primitives));
    }
  }
}
