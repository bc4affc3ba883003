/**
 * The records the central node keeps per robot and sends back on "start".
 * They stand for the message types server_to_robots, target_node and
 * primitive_node, whose x and y position vectors are paired into Points here.
 */
module Messages {
  import opened Geometry

  /** The other primitives that see one target (one primitive_node). */
  datatype PrimitiveNode = PrimitiveNode(neighborPrimitiveId: seq<int>, neighborPos: seq<Point>)

  /** The targets one primitive sees, each with its neighbour primitives (one target_node). */
  datatype TargetNode = TargetNode(
    targetId: seq<int>,
    targetPos: seq<Point>,
    neighborPrimitiveExist: seq<bool>,
    connectPrimitive: seq<PrimitiveNode>)

  /**
   * One robot's submission (its id, the local primitive ids 1..k and their
   * positions) and, once the graph is built, its neighbour information.
   */
  datatype RobotRecord = RobotRecord(
    robotId: int,
    primitiveId: seq<int>,
    primPos: seq<Point>,
    targetExist: seq<bool>,
    connectTarget: seq<TargetNode>)

  /** Every primitive id of a record has a position. */
  predicate WellFormed(rec: RobotRecord)
  {
    |rec.primitiveId| == |rec.primPos|
  }
}
