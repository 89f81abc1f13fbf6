/**
 * The multi-agent base station node (src/ma_base.py): the operator's GUI
 * commands for each robot (task name, task value, goal point, reset), robots
 * added while running, and the base artifact list sent to the robots.
 *
 * The receivers of ma_base.py call addNeighbor and resetDataCheck and read
 * GUI and reset fields that only the node of src/BOBCAT.py and the agent
 * records of src/containers.py have, so the station is modelled over that
 * node. Its neighbour table is keyed by id, as the source's dictionary is.
 * The marker building and publishing are left out.
 */
module MABaseNode {
  import opened Helpers
  import opened Containers
  import opened Bobcat
  import opened BaseStation

  /** The neighbour of id `nid` in a table with distinct ids. */
  function Record(ns: seq<Agent>, nid: string): (k: nat)
    requires nid in Ids(ns)
    ensures k < |ns| && ns[k].id == nid
  {
    AgentIndex(ns, nid).value
  }

  class MABase {
    const node: Node

    /** __init__: a base node; the GUI subscriptions are left out. */
    constructor(n: Node)
      requires n.kind == "base"
      ensures node == n
    {
      node := n;
    }

    /**
     * AddRobotReceiver: a robot whose id is not in the table is added at
     * its end; a known id leaves the table as it is.
     */
    method AddRobotReceiver(nid: string, now: int)
      requires node.Valid() && nid != node.id
      modifies node`neighbors
      ensures node.Valid()
      ensures Ids(node.neighbors) == if nid in Ids(old(node.neighbors)) then Ids(old(node.neighbors))
                                     else Ids(old(node.neighbors)) + [nid]
      ensures old(node.neighbors) <= node.neighbors
    {
      if nid !in Ids(node.neighbors) {
        var n := node.AddRobot(nid, now);
      }
    }

    /** GuiTaskNameReceiver: that robot's task name and GUI stamp; no other field or robot changes. */
    method GuiTaskNameReceiver(nid: string, name: string, now: int)
      requires nid in Ids(node.neighbors)
      modifies node.neighbors`guiStamp, node.neighbors`guiTaskName
      ensures var n := node.neighbors[Record(node.neighbors, nid)];
        n.guiTaskName == name && n.guiStamp == now
      ensures forall i :: 0 <= i < |node.neighbors| && node.neighbors[i].id != nid ==>
        node.neighbors[i].guiStamp == old(node.neighbors[i].guiStamp) &&
        node.neighbors[i].guiTaskName == old(node.neighbors[i].guiTaskName)
    {
      var n := node.neighbors[Record(node.neighbors, nid)];
      n.guiStamp := now;
      n.guiTaskName := name;
    }

    /** GuiTaskValueReceiver: that robot's task value and GUI stamp; no other field or robot changes. */
    method GuiTaskValueReceiver(nid: string, value: string, now: int)
      requires nid in Ids(node.neighbors)
      modifies node.neighbors`guiStamp, node.neighbors`guiTaskValue
      ensures var n := node.neighbors[Record(node.neighbors, nid)];
        n.guiTaskValue == value && n.guiStamp == now
      ensures forall i :: 0 <= i < |node.neighbors| && node.neighbors[i].id != nid ==>
        node.neighbors[i].guiStamp == old(node.neighbors[i].guiStamp) &&
        node.neighbors[i].guiTaskValue == old(node.neighbors[i].guiTaskValue)
    {
      var n := node.neighbors[Record(node.neighbors, nid)];
      n.guiStamp := now;
      n.guiTaskValue := value;
    }

    /**
     * GuiGoalReceiver: a goal at x = y = 0 is a GUI glitch and is dropped;
     * any other becomes that robot's goal point under the next sequence
     * number, with the task set to go there.
     */
    method GuiGoalReceiver(nid: string, goal: Point, now: int)
      requires nid in Ids(node.neighbors)
      modifies node.neighbors`guiStamp, node.neighbors`guiGoalPoint, node.neighbors`guiTaskName,
               node.neighbors`guiTaskValue
      ensures var n := node.neighbors[Record(node.neighbors, nid)];
        if goal.x == 0.0 && goal.y == 0.0 then
          n.guiStamp == old(n.guiStamp) && n.guiGoalPoint == old(n.guiGoalPoint) &&
          n.guiTaskName == old(n.guiTaskName) && n.guiTaskValue == old(n.guiTaskValue)
        else
          n.guiStamp == now && n.guiGoalPoint == GoalPoint(old(n.guiGoalPoint.seqNo) + 1, goal) &&
          n.guiTaskName == "task" && n.guiTaskValue == "Goal"
      ensures forall i :: 0 <= i < |node.neighbors| && node.neighbors[i].id != nid ==>
        unchanged(node.neighbors[i])
    {
      if goal.x != 0.0 || goal.y != 0.0 {
        var n := node.neighbors[Record(node.neighbors, nid)];
        n.guiStamp := now;
        n.guiGoalPoint := GoalPoint(n.guiGoalPoint.seqNo + 1, goal);
        n.guiTaskName := "task";
        n.guiTaskValue := "Goal";
      }
    }

    /**
     * GuiResetReceiver: only a reset naming that robot counts. A newer one
     * meant for the robots alone is stored for them to act on; any other goes
     * through the node's reset check.
     */
    method GuiResetReceiver(nid: string, data: Reset, now: int)
      requires node.Valid() && nid in Ids(node.neighbors)
      modifies node.neighbors, node.base`lastArtifact, node`artifacts
      ensures data.agent != nid ==>
        node.artifacts == old(node.artifacts) && forall i :: 0 <= i < |node.neighbors| ==> unchanged(node.neighbors[i])
      ensures var n := node.neighbors[Record(node.neighbors, nid)];
        data.agent == nid && !data.base && data.robots && data.stamp > old(n.resetStamp) ==>
        n.reset == data && n.guiStamp == now && n.resetStamp == old(n.resetStamp) &&
        node.artifacts == old(node.artifacts) &&
        forall i :: 0 <= i < |node.neighbors| && node.neighbors[i] != n ==> unchanged(node.neighbors[i])
      ensures data.agent == nid && !(!data.base && data.robots &&
                                     data.stamp > old(node.neighbors[Record(node.neighbors, nid)].resetStamp)) ==>
        (old(node.Acts(data)) ==> node.ResetEffect(node.neighbors[Record(node.neighbors, nid)], data, now)) &&
        (!old(node.Acts(data)) ==> node.artifacts == old(node.artifacts) &&
                                   forall i :: 0 <= i < |node.neighbors| ==> unchanged(node.neighbors[i]))
      ensures forall i :: 0 <= i < |node.neighbors| && node.neighbors[i].id != data.agent ==>
        unchanged(node.neighbors[i])
    {
      if data.agent == nid {
        var n := node.neighbors[Record(node.neighbors, nid)];
        if !data.base && data.robots && data.stamp > n.resetStamp {
          n.guiStamp := now;
          n.reset := data;
        } else {
          node.ResetDataCheck(data, now);
        }
      }
    }

    /**
     * buildBaseArtifacts: the base artifact list is rebuilt, one entry per
     * neighbour with the hash the base holds for it; unlike the newer base
     * station, the update flag is left as it was.
     */
    method BuildBaseArtifacts(now: int)
      modifies node.base`baseStamp, node.base`baseArtifacts
      ensures node.base.baseStamp == now
      ensures |node.base.baseArtifacts| == |node.neighbors|
      ensures forall i :: 0 <= i < |node.neighbors| ==>
        node.base.baseArtifacts[i] == AgentArtifact(node.neighbors[i].id, node.neighbors[i].lastArtifact)
    {
      node.base.baseStamp := now;
      var list := Summarize(node.neighbors);
      node.base.baseArtifacts := list;
    }

    /**
     * run: every neighbour's artifacts are checked. updateArtifacts returns
     * no value, so the test guarding buildBaseArtifacts never holds and the
     * base artifact list is not rebuilt here.
     */
    method Run(now: int)
      modifies node`artifacts, node`report, node`artifactsUpdated
      modifies node.neighbors`checkArtifacts, node.neighbors`numArtifacts, node.neighbors`lastArtifact
      ensures var r := CheckNeighbors(old(node.BaseScene(now)), Ids(node.neighbors), node.id,
                                      old(NewArtifactLists(node.neighbors)),
                                      Sweep(old(node.artifacts), old(node.report), old(node.artifactsUpdated), []));
        node.artifacts == r.artifacts && node.report == r.report && node.artifactsUpdated == r.updated
      ensures node.base.baseArtifacts == old(node.base.baseArtifacts) && node.base.baseStamp == old(node.base.baseStamp)
    {
      var toFuse := node.UpdateArtifacts(now);
    }
  }
}
