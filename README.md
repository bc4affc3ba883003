# Greedy central node of the max-min LP multi-robot simulation

This project models the central node of the greedy max-min LP task allocation simulation
(`MaxMinLPGreedyCentralNode`). Robots call the node's `/robot_request` service over and over.

- **Registration.** A "ready" call from the robot whose turn it is (ids 1, 2, ... in order)
  registers that robot's motion primitives and is answered "wait".
- **Build.** Once every robot has registered, the node does three things, all exactly once per
  process:
  - it builds a visibility graph between all submitted primitives and all targets;
  - it composes, for every robot record, the per-primitive neighbour information (the targets a
    primitive sees, and for each of them the other primitives that see it);
  - it runs a greedy selector that picks one primitive per robot. The selector prefers the
    primitive that sees the most targets, zeroes the score of primitives within 0.2 of an already
    committed object, and breaks ties by the smallest distance sum.
- **Release.** The composed records are then handed out one robot at a time, answered "start".
  After the last robot is served, registration reopens at robot 1.

The model follows the code as written, including where it differs from what its comments suggest:

- The per-robot loops index the global primitive arrays with the robot's local slot i
  (lines 108, 163, 177). From the second robot on, both the payload and the scores therefore
  come from the first robot's primitives.
- The fallback reads global slot 2 (line 193). The commit reads global slot id - 1 for the
  robot's local id (line 234).
- A record's primitive ids are local (1..k, line 47). The self-exclusion at line 129 compares a
  global id with that local id.
- The build flag `m_check_request_send` is never set again, so the build happens at most once.
- The accumulators are never cleared. A second round of registrations appends fresh, uncomposed
  records. A release then sends the last record registered under the caller's id, which after the
  first round is the fresh one.
- While records are handed out, the registration turn stays at numRobot+1. A ready call from
  id numRobot+1 then passes the line-39 guard and moves the turn to numRobot+2 (line 55;
  `Central.OverflowRegistration`). From then on the turn never equals numRobot+1 again, so no
  call is answered "start" and registration never reopens (`Central.StallIsPermanent`).
- `m_primitive_selected` is computed but never sent.
- `neighbor_primitive_exist` is false only when the target's whole primitive list is empty
  (line 122), not when the only primitive seeing it is the slot itself. Because that slot sees the
  target, the marker is always true for a listed target (`ComposedNeighbours`).
- The comment at line 181 says 2 m; the constant used is 0.2, and the model uses 0.2.
- The collision filter does not make the choice safe in every case (`Greedy.ChosenSlotIsSafe`).
  The chosen slot is at least 0.2 from every committed object when all of these hold:
  - the robot observes a target;
  - the top score is positive;
  - the maximum is unique, or some maximal slot has a distance sum below 10000.

  The code can choose a slot within 0.2 of a committed object in two cases:
  - With several maxima, none with a sum below 10000, slot 0 wins even when its score is not
    maximal (`Greedy.SentinelPicksNonMaximal`).
  - When every slot is filtered to 0 while a target is still observed, the tie-break among the
    zero-score slots picks a colliding slot (`Greedy.AllFilteredStillChoose`). A concrete robot
    with all three primitives 0.1 from the only target gets primitive 1, which is within 0.2 of
    that target (`Greedy.CollidingChoice`).

Layout:

- `geometry.dfy` (module Geometry): points, squared distances, the field-of-view test, the
  collision test.
- `messages.dfy` (module Messages): the records the node keeps and sends.
- `visibility.dfy` (module Visibility): the graph builder.
- `neighbours.dfy` (module NeighbourInfo): the composer.
- `greedy.dfy` (module Greedy): the selector.
- `central.dfy` (module Central): the handler's state machine, and the class
  `GreedyCentralNode`.

Each loop of the source is a method proved equal to a pure function. The properties are lemmas
about those functions. The node's member data as a value is `Central.State`, and one service call
is `Central.Step`. The class holds the same data in fields (grouped as `RobotInfo` and `Graph`,
like `m_robot_info`). Its `Initialize` method is proved to leave exactly the state and response
that `Step` gives.

## Model

| member | source | states |
|---|---|---|
| Geometry.SqDistProperties | max_min_lp_simulation/src/MaxMinLPGreedyCentralNode.cpp:96-98 | Squared distance is symmetric and non-negative, so the target-minus-primitive and primitive-minus-target forms agree |
| Geometry.EuclideanWithinFov | max_min_lp_simulation/src/MaxMinLPGreedyCentralNode.cpp:80-82 | For a true Euclidean distance, the squared field-of-view test holds exactly when the distance is at most fov |
| Geometry.EuclideanTooClose | max_min_lp_simulation/src/MaxMinLPGreedyCentralNode.cpp:179-181 | For a true Euclidean distance, the squared collision test holds exactly when the distance is below 0.2 |
| Geometry.WithinFov | max_min_lp_simulation/src/MaxMinLPGreedyCentralNode.cpp:80-82 | The field-of-view test on squared distances, also used at lines 96-98 and 163-165; EuclideanWithinFov states that it is the code's `sqrt(...) <= m_fov` |
| Geometry.TooClose | max_min_lp_simulation/src/MaxMinLPGreedyCentralNode.cpp:179-181 | The collision test on squared distances; EuclideanTooClose states that it is the code's `sqrt(...) < 0.2` |
| Visibility.PrimsToTargets | max_min_lp_simulation/src/MaxMinLPGreedyCentralNode.cpp:72-90 | One list per primitive of the ids of the targets within its fov, in id order; VisibilitySymmetric and AdjacencyShape state its meaning |
| Visibility.TargetsToPrims | max_min_lp_simulation/src/MaxMinLPGreedyCentralNode.cpp:93-103 | One list per target of the ids of the primitives within its fov, in id order; VisibilitySymmetric and AdjacencyShape state its meaning |
| Visibility.InFov | max_min_lp_simulation/src/MaxMinLPGreedyCentralNode.cpp:79-85 | The list of visible ids only holds ids of the scanned points |
| Visibility.AllPositions | max_min_lp_simulation/src/MaxMinLPGreedyCentralNode.cpp:72-76 | The flat primitive list starts with the first record's positions |
| Visibility.InFovMembers | max_min_lp_simulation/src/MaxMinLPGreedyCentralNode.cpp:79-85 | With points numbered 1..N, id x is listed exactly when x is in range and point x is within fov |
| Visibility.InFovIncreasing | max_min_lp_simulation/src/MaxMinLPGreedyCentralNode.cpp:93-101 | Scanning ascending ids gives an ascending list |
| Visibility.VisibilitySymmetric | max_min_lp_simulation/src/MaxMinLPGreedyCentralNode.cpp:72-103 | Target t is in primitive j's list iff primitive j+1 is in target t's list iff the two are within fov |
| Visibility.SeesSomeTarget | max_min_lp_simulation/src/MaxMinLPGreedyCentralNode.cpp:79-85 | A primitive's target list is non-empty iff some target is within its fov |
| Visibility.AdjacencyShape | max_min_lp_simulation/src/MaxMinLPGreedyCentralNode.cpp:72-103 | One list per primitive, one list per target; every list ascends and holds only valid ids of the other side |
| Visibility.AllPositionsAt | max_min_lp_simulation/src/MaxMinLPGreedyCentralNode.cpp:71-89 | With k primitives per record, robot r's slot i is global primitive r*k+i+1 |
| Visibility.AllPositionsLength | max_min_lp_simulation/src/MaxMinLPGreedyCentralNode.cpp:71-89 | n records of k primitives give n*k global primitives |
| Visibility.ListInFov | max_min_lp_simulation/src/MaxMinLPGreedyCentralNode.cpp:79-85 | The inner push loop yields exactly the visible-id list |
| Visibility.ListTargets | max_min_lp_simulation/src/MaxMinLPGreedyCentralNode.cpp:63-67 | Targets are numbered 1..n, and their positions are the current pose snapshot |
| Visibility.ListPrimitives | max_min_lp_simulation/src/MaxMinLPGreedyCentralNode.cpp:71-90 | The nested loop numbers all primitives 1..N in submission order, with their positions and target lists |
| Visibility.ListTargetsToPrims | max_min_lp_simulation/src/MaxMinLPGreedyCentralNode.cpp:93-103 | The loop yields, per target, the list of primitives seeing it |
| NeighbourInfo.NeighbourNode | max_min_lp_simulation/src/MaxMinLPGreedyCentralNode.cpp:128-135 | A target's primitive list without the compared id, each id with its position; NeighbourNodeExcludesSelf states its meaning |
| NeighbourInfo.TargetNodeFor | max_min_lp_simulation/src/MaxMinLPGreedyCentralNode.cpp:115-139 | The target node of one slot: ids, positions, markers and neighbour nodes per listed target; TargetNodeEntry states its meaning |
| NeighbourInfo.Markers | max_min_lp_simulation/src/MaxMinLPGreedyCentralNode.cpp:108-112 | Slot i's marker is whether global adjacency list i is non-empty; BuildMarkers reads it on the built graph |
| NeighbourInfo.SlotNodes | max_min_lp_simulation/src/MaxMinLPGreedyCentralNode.cpp:111-141 | One target node per marked slot, in slot order; SlotNodesCount and SlotNodeAt state its meaning |
| NeighbourInfo.Composed | max_min_lp_simulation/src/MaxMinLPGreedyCentralNode.cpp:106-144 | Composing a record keeps its robot id, local ids and positions |
| NeighbourInfo.ComposedAll | max_min_lp_simulation/src/MaxMinLPGreedyCentralNode.cpp:106-144 | Composition keeps the number of records |
| NeighbourInfo.NeighbourNodeExcludesSelf | max_min_lp_simulation/src/MaxMinLPGreedyCentralNode.cpp:128-135 | The neighbour list never holds the compared id and holds every other id of the target's list, in order, each with its position |
| NeighbourInfo.SlotNodesCount | max_min_lp_simulation/src/MaxMinLPGreedyCentralNode.cpp:107-142 | A record gains exactly one target node per slot with a true marker |
| NeighbourInfo.SlotNodeAt | max_min_lp_simulation/src/MaxMinLPGreedyCentralNode.cpp:107-142 | Marked slot i's node follows those of earlier marked slots and is built from global list i with local id i's exclusion |
| NeighbourInfo.ComposedAllAt | max_min_lp_simulation/src/MaxMinLPGreedyCentralNode.cpp:106-144 | Record j of the composed list is record j composed in place |
| NeighbourInfo.ComposedAllRecords | max_min_lp_simulation/src/MaxMinLPGreedyCentralNode.cpp:106-144 | Every record is composed in place |
| NeighbourInfo.TargetNodeEntry | max_min_lp_simulation/src/MaxMinLPGreedyCentralNode.cpp:113-139 | Entry e of a target node: the target id and position; a marker that is false iff that target's list is empty; the neighbours without the compared id |
| NeighbourInfo.ComposedNodeEntry | max_min_lp_simulation/src/MaxMinLPGreedyCentralNode.cpp:107-141 | On a fresh record, marked slot i's node lists global list i's targets, with their positions, markers and neighbours other than local id i+1 |
| NeighbourInfo.ComposedTargetNode | max_min_lp_simulation/src/MaxMinLPGreedyCentralNode.cpp:108-118 | On the field-of-view graph, marked slot i's node lists exactly the targets within fov of global primitive i, with their positions |
| NeighbourInfo.ComposedNeighbours | max_min_lp_simulation/src/MaxMinLPGreedyCentralNode.cpp:122-135 | Each listed target's marker is true, and its neighbour list holds exactly the primitives within fov of it other than id i+1 |
| NeighbourInfo.SeenTargetEntry | max_min_lp_simulation/src/MaxMinLPGreedyCentralNode.cpp:79-101 | A target seen by primitive i is within fov; its own list contains i+1 and exactly the primitives within fov |
| NeighbourInfo.CollectNeighbours | max_min_lp_simulation/src/MaxMinLPGreedyCentralNode.cpp:128-135 | The skip-and-push loop yields the neighbour node without the compared id |
| NeighbourInfo.BuildTargetNode | max_min_lp_simulation/src/MaxMinLPGreedyCentralNode.cpp:113-139 | The per-target loop yields the slot's target node |
| NeighbourInfo.FillRecord | max_min_lp_simulation/src/MaxMinLPGreedyCentralNode.cpp:107-143 | The per-slot loop appends one marker per slot and one node per marked slot |
| NeighbourInfo.ComposeRecords | max_min_lp_simulation/src/MaxMinLPGreedyCentralNode.cpp:106-144 | Walking the records and updating each in place yields every record composed |
| Greedy.DistSum | max_min_lp_simulation/src/MaxMinLPGreedyCentralNode.cpp:160-168 | The sum of distances to the targets within fov of a slot; DistSumZero and DistSumOfBlindSlot state its meaning |
| Greedy.FilteredScore | max_min_lp_simulation/src/MaxMinLPGreedyCentralNode.cpp:177-184 | A slot's visible-target count, or 0 on any collision; PositiveScoreIsSafe states its meaning |
| Greedy.Max | max_min_lp_simulation/src/MaxMinLPGreedyCentralNode.cpp:201 | The largest score; MaxIsMaximum states its meaning |
| Greedy.IndicesOf | max_min_lp_simulation/src/MaxMinLPGreedyCentralNode.cpp:204-210 | The slots holding a score, in order; IndicesOfSound, IndicesOfHas and IndicesOfIncreasing state its meaning |
| Greedy.TieBreak | max_min_lp_simulation/src/MaxMinLPGreedyCentralNode.cpp:215-222 | The strict-minimum scan from (0, 10000); TieBreakNone and TieBreakFound state its meaning |
| Greedy.Scores | max_min_lp_simulation/src/MaxMinLPGreedyCentralNode.cpp:176-184 | Every slot's filtered score against the committed objects; SlotTotals computes it |
| Greedy.Sums | max_min_lp_simulation/src/MaxMinLPGreedyCentralNode.cpp:159-174 | Every slot's distance sum; SlotTotals computes it |
| Greedy.Decide | max_min_lp_simulation/src/MaxMinLPGreedyCentralNode.cpp:156-228 | One robot's choice from its scores and sums; BlindRobotFallsBack, ChosenSlotIsSafe and the Choice lemmas state its meaning |
| Greedy.Commit | max_min_lp_simulation/src/MaxMinLPGreedyCentralNode.cpp:147-237 | The selections and committed objects after n records under a decision rule; CommitLength, CommitPrefix and CommitAt state its meaning |
| Greedy.Selections | max_min_lp_simulation/src/MaxMinLPGreedyCentralNode.cpp:147-237 | The selector's selections and committed objects; SelectionAt states its meaning |
| Greedy.MaxIsMaximum | max_min_lp_simulation/src/MaxMinLPGreedyCentralNode.cpp:201 | The maximum found is an element, and no element exceeds it |
| Greedy.IndicesOfSound | max_min_lp_simulation/src/MaxMinLPGreedyCentralNode.cpp:204-210 | Every collected index is in range and holds the maximum score |
| Greedy.IndicesOfHas | max_min_lp_simulation/src/MaxMinLPGreedyCentralNode.cpp:204-210 | Every index holding the value is collected |
| Greedy.IndicesOfIncreasing | max_min_lp_simulation/src/MaxMinLPGreedyCentralNode.cpp:204-210 | The collected indices ascend |
| Greedy.IndicesOfTwo | max_min_lp_simulation/src/MaxMinLPGreedyCentralNode.cpp:204-214 | Two slots holding the value give more than one collected index |
| Greedy.MaxIndices | max_min_lp_simulation/src/MaxMinLPGreedyCentralNode.cpp:201-214 | The maximal indices are non-empty, ascending and all maximal; there are several exactly when two slots share the maximum |
| Greedy.SeveralMaximaIndices | max_min_lp_simulation/src/MaxMinLPGreedyCentralNode.cpp:201-214 | Two slots share the maximal score exactly when more than one maximal index is listed, so the line-214 branch is taken |
| Greedy.TieBreakInRange | max_min_lp_simulation/src/MaxMinLPGreedyCentralNode.cpp:215-222 | The tie-break index is 0 or one of the candidates |
| Greedy.TieBreakNone | max_min_lp_simulation/src/MaxMinLPGreedyCentralNode.cpp:215-222 | With no candidate sum below 10000, the scan keeps (0, 10000) |
| Greedy.TieBreakFound | max_min_lp_simulation/src/MaxMinLPGreedyCentralNode.cpp:215-222 | Otherwise it returns a candidate with the smallest sum (below 10000), and every earlier candidate has a strictly larger one |
| Greedy.Choice | max_min_lp_simulation/src/MaxMinLPGreedyCentralNode.cpp:187-228 | The chosen id is a valid 1-based slot |
| Greedy.Rule | max_min_lp_simulation/src/MaxMinLPGreedyCentralNode.cpp:187-228 | The per-robot decision is always an id in 1..k |
| Greedy.PositiveScoreIsSafe | max_min_lp_simulation/src/MaxMinLPGreedyCentralNode.cpp:177-184 | A positive filtered score means no committed object is within 0.2, and the score is the visible-target count |
| Greedy.Observed | max_min_lp_simulation/src/MaxMinLPGreedyCentralNode.cpp:158-172 | `target_observed`: some slot has a non-zero distance sum; DistSumOfBlindSlot and BlindRobotFallsBack state its meaning |
| Greedy.ChoiceFallback | max_min_lp_simulation/src/MaxMinLPGreedyCentralNode.cpp:187-198 | When every distance sum is 0, the robot gets primitive 3 |
| Greedy.ChoiceUniqueMaximum | max_min_lp_simulation/src/MaxMinLPGreedyCentralNode.cpp:201-227 | With one maximal slot, the robot gets that slot, whose score beats every other |
| Greedy.ChoiceIsTieBreak | max_min_lp_simulation/src/MaxMinLPGreedyCentralNode.cpp:214-224 | With several maximal slots, the choice is the tie-break's index plus 1 |
| Greedy.ChoiceTieBreak | max_min_lp_simulation/src/MaxMinLPGreedyCentralNode.cpp:214-224 | With several maxima, one below 10000: the first maximal slot with the smallest sum |
| Greedy.TieBreakOverIndices | max_min_lp_simulation/src/MaxMinLPGreedyCentralNode.cpp:204-222 | The tie-break over the maximal slots, read as slots: maximal, smallest sum, first such |
| Greedy.ChoiceSentinel | max_min_lp_simulation/src/MaxMinLPGreedyCentralNode.cpp:214-224 | With several maxima and no sum below 10000, the robot gets slot 0 (id 1), whatever its score |
| Greedy.DistSumZero | max_min_lp_simulation/src/MaxMinLPGreedyCentralNode.cpp:160-168 | A distance sum is non-negative, and 0 iff every visible target is at distance 0 |
| Greedy.DistSumOfBlindSlot | max_min_lp_simulation/src/MaxMinLPGreedyCentralNode.cpp:160-168 | A slot seeing no target has distance sum 0 |
| Greedy.BlindRobotFallsBack | max_min_lp_simulation/src/MaxMinLPGreedyCentralNode.cpp:159-198 | A robot whose slots see no target gets primitive 3, whatever is committed |
| Greedy.CommitLength | max_min_lp_simulation/src/MaxMinLPGreedyCentralNode.cpp:147-237 | After n records: n selections, and the committed objects are the targets followed by n positions |
| Greedy.CommitPrefix | max_min_lp_simulation/src/MaxMinLPGreedyCentralNode.cpp:155-237 | Later records only append to the selections and to the committed objects |
| Greedy.CommitAt | max_min_lp_simulation/src/MaxMinLPGreedyCentralNode.cpp:155-237 | Record r's id is decided against the targets and the r earlier positions, and its position is committed next |
| Greedy.SelectionAt | max_min_lp_simulation/src/MaxMinLPGreedyCentralNode.cpp:147-237 | The selector gives record r an id in 1..k, decided against the previously committed objects, and commits that id's position |
| Greedy.ChosenMaximumIsSafe | max_min_lp_simulation/src/MaxMinLPGreedyCentralNode.cpp:176-228 | A chosen slot whose score is the positive maximum is at least 0.2 from every committed object |
| Greedy.ChosenSlotIsSafe | max_min_lp_simulation/src/MaxMinLPGreedyCentralNode.cpp:176-228 | A robot that observes a target, with a positive top score that is unique or has a sum below 10000, gets a slot at least 0.2 from every committed object |
| Greedy.SentinelPicksNonMaximal | max_min_lp_simulation/src/MaxMinLPGreedyCentralNode.cpp:214-224 | Scores [0,1,1] with sums [0.1,20000,20000] choose slot 0, whose score is not maximal |
| Greedy.AllFilteredStillChoose | max_min_lp_simulation/src/MaxMinLPGreedyCentralNode.cpp:200-228 | All scores filtered to 0 with sums [0.1,0.15,0.05] still choose id 3 by the tie-break |
| Greedy.CollidingChoice | max_min_lp_simulation/src/MaxMinLPGreedyCentralNode.cpp:176-228 | Three primitives 0.1 from the only target: the robot gets primitive 1, within 0.2 of that target |
| Greedy.DistanceSum | max_min_lp_simulation/src/MaxMinLPGreedyCentralNode.cpp:160-168 | The accumulation loop yields the distance sum over visible targets |
| Greedy.FilterScore | max_min_lp_simulation/src/MaxMinLPGreedyCentralNode.cpp:177-184 | Push-then-overwrite yields 0 on any collision, the count otherwise |
| Greedy.SlotTotals | max_min_lp_simulation/src/MaxMinLPGreedyCentralNode.cpp:156-185 | The slot loop yields every filtered score and distance sum, and whether any sum is non-zero |
| Greedy.SlotsScoring | max_min_lp_simulation/src/MaxMinLPGreedyCentralNode.cpp:202-210 | The index loop yields the maximal slots in order |
| Greedy.ScanTieBreak | max_min_lp_simulation/src/MaxMinLPGreedyCentralNode.cpp:215-222 | The minimum scan yields the tie-break pair |
| Greedy.DecideRobot | max_min_lp_simulation/src/MaxMinLPGreedyCentralNode.cpp:156-228 | One robot's scoring and choice yields the decision the lemmas above characterise |
| Greedy.SelectPrimitives | max_min_lp_simulation/src/MaxMinLPGreedyCentralNode.cpp:147-237 | The selector loop, with its growing committed list, yields the selections |
| Central.Submit | max_min_lp_simulation/src/MaxMinLPGreedyCentralNode.cpp:40-56 | The caller's record and status appended, the turn advanced, the release turn rewound; StepRegisters states its effect |
| Central.Step | max_min_lp_simulation/src/MaxMinLPGreedyCentralNode.cpp:37-260 | One call of the handler; StepAnswers, StepRegisters, RejectedCallKeepsState, BuildOnce and StepPreservesInv state its meaning |
| Central.Round | max_min_lp_simulation/src/MaxMinLPGreedyCentralNode.cpp:60-256 | The full-round branch: build if pending, then release on the caller's turn; RoundCounters states its meaning |
| Central.LastWithId | max_min_lp_simulation/src/MaxMinLPGreedyCentralNode.cpp:246-250 | The last record with the id; LastWithIdNone, LastWithIdAt and LastWithIdMember state its meaning |
| Central.Initial | max_min_lp_simulation/src/MaxMinLPGreedyCentralNode.cpp:22-31 | The constructed member data satisfies the invariant |
| Central.RecordsWellFormed | max_min_lp_simulation/src/MaxMinLPGreedyCentralNode.cpp:46-52 | Every registered record has k ids and k positions |
| Central.Build | max_min_lp_simulation/src/MaxMinLPGreedyCentralNode.cpp:62-239 | The build keeps the record count; it makes one target list and position per global primitive, and k markers per record |
| Central.Admit | max_min_lp_simulation/src/MaxMinLPGreedyCentralNode.cpp:39-57 | Registering the caller (or not) keeps the invariant |
| Central.Accepted | max_min_lp_simulation/src/MaxMinLPGreedyCentralNode.cpp:38-39 | The registration guard: a ready call from the robot whose turn it is; StepRegisters and RejectedCallKeepsState state its effect |
| Central.LastWithIdNone | max_min_lp_simulation/src/MaxMinLPGreedyCentralNode.cpp:246-250 | No record with the id: nothing is sent |
| Central.LastWithIdAt | max_min_lp_simulation/src/MaxMinLPGreedyCentralNode.cpp:246-250 | The last record with the id is the one sent |
| Central.LastWithIdMember | max_min_lp_simulation/src/MaxMinLPGreedyCentralNode.cpp:246-250 | A record sent is one of the records and carries the caller's id |
| Central.StepPreservesInv | max_min_lp_simulation/src/MaxMinLPGreedyCentralNode.cpp:37-260 | Every call keeps the invariant |
| Central.RoundKeepsInv | max_min_lp_simulation/src/MaxMinLPGreedyCentralNode.cpp:60-256 | The full-round branch keeps the invariant |
| Central.RoundCounters | max_min_lp_simulation/src/MaxMinLPGreedyCentralNode.cpp:60-256 | After the full-round branch the graph is built; "start" goes iff it is the caller's release turn; the counters advance and reset as written |
| Central.StepRegisters | max_min_lp_simulation/src/MaxMinLPGreedyCentralNode.cpp:38-57 | A call adds exactly one record and status iff it is ready and in turn, with the caller's id, ids 1..k and first k positions; earlier records keep their ids and positions |
| Central.RejectedCallKeepsState | max_min_lp_simulation/src/MaxMinLPGreedyCentralNode.cpp:38-256 | A call that registers nothing leaves the member data as it was, payloads included, except the build on the round-completing call and the counters of a release; without a release it changes nothing else |
| Central.LateRegistrationAppends | max_min_lp_simulation/src/MaxMinLPGreedyCentralNode.cpp:39-57 | A registration after the build appends the caller's fresh uncomposed record and keeps every earlier record whole |
| Central.RoundKeepsRecords | max_min_lp_simulation/src/MaxMinLPGreedyCentralNode.cpp:60-256 | The full-round branch keeps every record's id, local ids and positions |
| Central.BuildKeepsRecords | max_min_lp_simulation/src/MaxMinLPGreedyCentralNode.cpp:62-239 | The build changes neither counters nor statuses and keeps every record's id, local ids and positions |
| Central.StartInfo | max_min_lp_simulation/src/MaxMinLPGreedyCentralNode.cpp:242-250 | A "start" carries the last record registered under the caller's id |
| Central.BuildOnce | max_min_lp_simulation/src/MaxMinLPGreedyCentralNode.cpp:59-240 | The flag never sets again; it clears exactly on the ready call that brings the turn to numRobot+1; afterwards the graph and selections never change |
| Central.BuildSeesFullRound | max_min_lp_simulation/src/MaxMinLPGreedyCentralNode.cpp:38-61 | The build sees exactly numRobot records with ids 1..numRobot in order |
| Central.StepAnswers | max_min_lp_simulation/src/MaxMinLPGreedyCentralNode.cpp:37-257 | "start" iff ready, all registered and the caller's release turn; "wait" iff registered and not released; otherwise no answer, and the counters as written |
| Central.StartCarriesOwnRecord | max_min_lp_simulation/src/MaxMinLPGreedyCentralNode.cpp:242-250 | A release carries a record with the caller's id, and, with records numbered in order, record id-1 or none |
| Central.OverflowRegistration | max_min_lp_simulation/src/MaxMinLPGreedyCentralNode.cpp:38-60 | During the release, a ready call from id numRobot+1 is answered "wait" and moves the registration turn to numRobot+2 |
| Central.StalledStaysStalled | max_min_lp_simulation/src/MaxMinLPGreedyCentralNode.cpp:38-255 | Past numRobot+1 the registration turn never decreases and no call is answered "start" |
| Central.StallIsPermanent | max_min_lp_simulation/src/MaxMinLPGreedyCentralNode.cpp:37-260 | In any sequence of calls starting past numRobot+1, the turn stays past numRobot+1 and no call is answered "start" |
| Central.BuildMarkers | max_min_lp_simulation/src/MaxMinLPGreedyCentralNode.cpp:106-112 | Every record's slot-i marker says whether the first record's primitive i sees some target |
| Central.BuildRecord | max_min_lp_simulation/src/MaxMinLPGreedyCentralNode.cpp:62-144 | The build leaves the snapshot targets, the flat primitives and the two field-of-view views, and composes each record in place |
| Central.BuildState | max_min_lp_simulation/src/MaxMinLPGreedyCentralNode.cpp:62-239 | The builder's loops, in order, leave the built state |
| Central.FindRecord | max_min_lp_simulation/src/MaxMinLPGreedyCentralNode.cpp:246-250 | The overwriting scan finds the last record with the id |
| Central.GreedyCentralNode.constructor | max_min_lp_simulation/src/MaxMinLPGreedyCentralNode.cpp:11-31 | The parameters as given, both counters 1, the build pending, and one target slot per target at the origin |
| Central.GreedyCentralNode.UpdatePose | max_min_lp_simulation/src/MaxMinLPGreedyCentralNode.cpp:271 | One target slot takes the new pose; nothing else changes |
| Central.GreedyCentralNode.BuildGraph | max_min_lp_simulation/src/MaxMinLPGreedyCentralNode.cpp:61-240 | The fields become the built state, and the invariant still holds |
| Central.GreedyCentralNode.Register | max_min_lp_simulation/src/MaxMinLPGreedyCentralNode.cpp:39-57 | The fields become the state after registering the caller, and the invariant still holds |
| Central.GreedyCentralNode.Release | max_min_lp_simulation/src/MaxMinLPGreedyCentralNode.cpp:242-255 | After the build: the caller's last record is returned; the release turn advances, reopening registration after the last robot; the invariant still holds |
| Central.GreedyCentralNode.CompleteRound | max_min_lp_simulation/src/MaxMinLPGreedyCentralNode.cpp:60-256 | The fields and response are those of the full-round branch, and the invariant still holds |
| Central.GreedyCentralNode.Initialize | max_min_lp_simulation/src/MaxMinLPGreedyCentralNode.cpp:37-260 | The call keeps the invariant and leaves exactly the state and response of one handler step |

## Left out

- ROS plumbing: the node handle, service and subscriber registration (lines 14-20, 32-33), and
  `main` with `ros::spin` (lines 274-282). The parameters are the constructor's arguments; where
  a parameter is missing, a caller passes the defaults 1, 1, 10, 10 of line 12.
- The name scan of updatePose (lines 263-269), which can read an uninitialised index.
  `UpdatePose` takes the target slot and the new pose directly. The asynchronous interleaving of
  pose callbacks with service calls is only modelled as separate calls on the class.
- Floating point: `sqrt`, `pow` and float rounding are not modelled.
  - Positions are reals.
  - The field-of-view and collision tests compare squared distances with fov² and 0.04.
    `Geometry.EuclideanWithinFov` and `Geometry.EuclideanTooClose` show that this agrees with
    the square-root form.
  - Distance sums use a caller-supplied distance function `dist`.
- The z coordinate and the orientation of poses, which the node never reads.
- `strcmp` on C strings becomes string equality with "ready".
- The handler's return value, which is always true. The response is the answer tag and the
  optional record.
- A registering request carrying fewer than numPrim primitives. Line 48 reads out of bounds
  there, so `Initialize` requires it not to happen.
- Configurations with fewer than 3 primitives per robot. The constructor and the invariant
  require numPrim >= 3, so the model leaves out some configurations the code handles, such as
  2 robots with 2 primitives each. The reasons:
  - Line 193 reads global slot 2. That slot is out of bounds only when fewer than 3
    primitives are registered in all and the fallback fires.
  - Line 201 is reached only for a robot with a non-zero distance sum, so never with an empty
    score list.
  - With numPrim < 3, the fallback id 3 lies outside the robot's local ids 1..k. The model's
    selection contracts (ids in 1..k) do not cover that case.
- `NeighbourInfo.ComposedTargetNode` and `NeighbourInfo.ComposedNeighbours` take three requires
  on the shape of the two views. `Visibility.AdjacencyShape` proves these requires for every
  graph the node builds.
