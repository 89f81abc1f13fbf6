/**
 * The multi-agent robot node (src/ma_robot.py), the robot of the older
 * generation built on the multi-agent node: the task topic and the status
 * suffix, the pose history and mission start, beacon drops with the
 * reverse-drop counter, the artifact ledger keyed by position, the goal
 * deconfliction loop, the stop / goal-point / explore commands, and the
 * blocks of run (stuck check, GUI task, neighbour count, report gate, mode
 * dispatch).
 *
 * ma_robot.py reads members the records of multi_agent.py do not have: the
 * agent's status, candidate goals, goal costs, explore goal and path and GUI
 * fields, the neighbours' goal costs, and an artifact record naming its
 * agent (it calls ArtifactReport with the agent id, the artifact and the key).
 * The node keeps the agent's members itself, the neighbours' costed goals
 * are an input (`rivals`), and the ledger entries carry the agent id.
 * Publishing, sleeps and the simulator's set-pose service are left out; the
 * mode dispatch returns what it tells the guidance layer (a Directive).
 */
module MARobotNode {
  import opened Helpers
  import opened Containers
  import opened Bobcat
  import opened Beacons
  import opened Actions
  import opened Monitors
  import opened RobotNode
  import opened MultiAgentNode

  // ---------------------------------------------------------------------------
  // Task topic and status suffix

  /** The statuses the task topic carries in normal operation. */
  predicate Normal(task: string)
  {
    task == "Able to plan home" || task == "Exploring"
  }

  /**
   * The suffix and its external flag after updateStatus(s): the suffix as
   * Noted says, and the flag survives only an append.
   */
  predicate StatusNoted(t0: string, e0: bool, s: string, t1: string, e1: bool)
  {
    t1 == Noted(t0, s) && e1 == (e0 && t0 != "" && !Contains(t0, s))
  }

  // ---------------------------------------------------------------------------
  // Goal deconfliction

  /** Some neighbour's goal lies within r of g and costs less than g. */
  predicate Outbid(g: Goal, rivals: seq<Goal>, r: real)
  {
    exists j :: 0 <= j < |rivals| && Closer(g.pose, rivals[j].pose, r) && g.cost > rivals[j].cost
  }

  /** From candidate i on, the first one not outbid, or the last one. */
  function FirstUnbid(gs: seq<Goal>, rivals: seq<Goal>, r: real, i: nat): (k: nat)
    requires i < |gs|
    ensures i <= k < |gs|
    ensures forall j :: i <= j < k ==> Outbid(gs[j], rivals, r)
    ensures k < |gs| - 1 ==> !Outbid(gs[k], rivals, r)
    decreases |gs| - i
  {
    if i == |gs| - 1 || !Outbid(gs[i], rivals, r) then i else FirstUnbid(gs, rivals, r, i + 1)
  }

  /**
   * The candidate deconflictGoals settles on: the first one no neighbour
   * outbids, the last when every one is outbid, and the last when there are
   * no neighbours at all, since the loop's conflict flag is then never
   * cleared.
   */
  function Chosen(gs: seq<Goal>, rivals: seq<Goal>, r: real): (k: nat)
    requires |gs| > 0
    ensures k < |gs|
    ensures |rivals| == 0 ==> k == |gs| - 1
    ensures |rivals| > 0 ==> (forall j :: 0 <= j < k ==> Outbid(gs[j], rivals, r)) &&
                             (k < |gs| - 1 ==> !Outbid(gs[k], rivals, r))
  {
    if |rivals| == 0 then |gs| - 1 else FirstUnbid(gs, rivals, r, 0)
  }

  /** The goal deconflictGoals leaves: the explore goal with no candidates, else a candidate. */
  function Target(gs: seq<Goal>, rivals: seq<Goal>, r: real, current: Goal, exploreGoal: Point,
                  explorePath: seq<Point>): (g: Goal)
    ensures |gs| == 0 ==> g == current.(pose := exploreGoal, path := explorePath)
    ensures |gs| == 1 ==> g == gs[0]
    ensures |gs| > 0 ==> g in gs
  {
    if |gs| == 0 then current.(pose := exploreGoal, path := explorePath)
    else if |gs| == 1 then gs[0]
    else gs[Chosen(gs, rivals, r)]
  }

  /** The choice among two or more candidates meets a conflict, and "Replanning" is noted. */
  predicate Replans(gs: seq<Goal>, rivals: seq<Goal>, r: real)
  {
    |gs| >= 2 && Outbid(gs[0], rivals, r)
  }

  /**
   * The suffix after deconflictGoals: a conflict met while no suffix is set
   * notes "Replanning" (later conflicts see the suffix and note nothing).
   */
  predicate Replanned(t0: string, e0: bool, replans: bool, t1: string, e1: bool)
  {
    if replans && t0 == "" then StatusNoted(t0, e0, "Replanning", t1, e1) else t1 == t0 && e1 == e0
  }

  /** Replanning is noted exactly as the status update would note it, and only on an empty suffix. */
  lemma ReplannedNote(t0: string, e0: bool, replans: bool, t1: string, e1: bool)
    requires Replanned(t0, e0, replans, t1, e1)
    ensures replans && t0 == "" ==> t1 == "Replanning" && !e1
    ensures t0 != "" ==> t1 == t0 && e1 == e0
  {
  }

  /**
   * The while loop of deconflictGoals over two or more candidates: each
   * candidate in turn is checked against every neighbour's goal until one
   * outbids it; the loop ends at the first candidate no neighbour outbids.
   * `replanned` says whether some check met a conflict.
   */
  method ChooseGoal(gs: seq<Goal>, rivals: seq<Goal>, r: real) returns (k: nat, replanned: bool)
    requires |gs| >= 2
    ensures k == Chosen(gs, rivals, r)
    ensures replanned == Outbid(gs[0], rivals, r)
  {
    var conflict := true;
    var i := 0;
    replanned := false;
    while conflict && i < |gs|
      invariant 0 <= i <= |gs|
      invariant i == 0 ==> conflict && !replanned
      invariant i > 0 ==> replanned == Outbid(gs[0], rivals, r)
      invariant conflict && |rivals| > 0 ==> forall q :: 0 <= q < i ==> Outbid(gs[q], rivals, r)
      invariant conflict && i < |gs| ==>
        Chosen(gs, rivals, r) == if |rivals| == 0 then |gs| - 1 else FirstUnbid(gs, rivals, r, i)
      invariant conflict && i == |gs| ==> Chosen(gs, rivals, r) == |gs| - 1
      invariant !conflict ==> 0 < i && Chosen(gs, rivals, r) == i - 1
    {
      ghost var before := replanned;
      var j := 0;
      while j < |rivals|
        invariant 0 <= j <= |rivals|
        invariant conflict == (j == 0)
        invariant replanned == before
        invariant forall q :: 0 <= q < j ==> !(Closer(gs[i].pose, rivals[q].pose, r) && gs[i].cost > rivals[q].cost)
      {
        if Closer(gs[i].pose, rivals[j].pose, r) {
          if gs[i].cost > rivals[j].cost {
            conflict := true;
            replanned := true;
            break;
          } else {
            conflict := false;
          }
        }
        conflict := false;
        j := j + 1;
      }
      i := i + 1;
    }
    k := i - 1;
  }

  // ---------------------------------------------------------------------------
  // The artifact ledger of this node

  /** ArtifactReport(agent_id, artifact, key) as this node calls it: new, unreported, stamped with the agent. */
  function Logged(keyOf: Point -> string, who: string, a: Artifact, now: int): (r: ArtifactReport)
    ensures r.artifact == a && r.agentId == who && r.id == keyOf(a.position) && !r.reported && r.isNew
  {
    ArtifactReport(keyOf(a.position), who, a, false, 0, true, now, false)
  }

  /**
   * artifactCheck for one detection of agent `who`: an artifact at an unseen
   * key is stored under `who`; for the node's own detection the report flag
   * rises unless the ledger already holds an artifact within planar
   * distance 3 (of any agent).
   */
  function Log(keyOf: Point -> string, who: string, self: string, st: Ledger, a: Artifact, now: int): Ledger
  {
    if Keyed(keyOf, st.arts, keyOf(a.position)) then st
    else Ledger(st.arts + [Logged(keyOf, who, a, now)],
                st.report || (who == self && !NearStored(st.arts, a.position)))
  }

  /** artifactCheck over one agent's detections, in order. */
  function LogAll(keyOf: Point -> string, who: string, self: string, st: Ledger, xs: seq<Artifact>, now: int): Ledger
  {
    if |xs| == 0 then st
    else Log(keyOf, who, self, LogAll(keyOf, who, self, st, xs[..|xs| - 1], now), xs[|xs| - 1], now)
  }

  /** The entries from index `from` on are unreported and stamped with `who`. */
  predicate StampedFrom(arts: seq<ArtifactReport>, from: nat, who: string)
  {
    forall i :: from <= i < |arts| ==> arts[i].agentId == who && !arts[i].reported
  }

  lemma LogStep(keyOf: Point -> string, who: string, self: string, st: Ledger, a: Artifact, now: int)
    ensures var r := Log(keyOf, who, self, st, a, now);
      st.arts <= r.arts &&
      (forall k :: Keyed(keyOf, r.arts, k) <==> Keyed(keyOf, st.arts, k) || k == keyOf(a.position)) &&
      (KeysDistinct(keyOf, st.arts) ==> KeysDistinct(keyOf, r.arts))
  {
    var r := Log(keyOf, who, self, st, a, now);
    if !Keyed(keyOf, st.arts, keyOf(a.position)) {
      assert r.arts[|st.arts|].artifact.position == a.position;
      forall k | Keyed(keyOf, r.arts, k) ensures Keyed(keyOf, st.arts, k) || k == keyOf(a.position) {
        var i :| 0 <= i < |r.arts| && keyOf(r.arts[i].artifact.position) == k;
        if i < |st.arts| {
          assert r.arts[i] == st.arts[i];
        }
      }
      forall k | Keyed(keyOf, st.arts, k) ensures Keyed(keyOf, r.arts, k) {
        var i :| 0 <= i < |st.arts| && keyOf(st.arts[i].artifact.position) == k;
        assert r.arts[i] == st.arts[i];
      }
    }
  }

  /**
   * What artifactCheck stores: the ledger only grows at the end, every
   * detection's key is stored, nothing else is, and keys stay distinct.
   */
  lemma {:induction false} LogAllKeys(keyOf: Point -> string, who: string, self: string, st: Ledger,
                                      xs: seq<Artifact>, now: int)
    ensures var r := LogAll(keyOf, who, self, st, xs, now);
      st.arts <= r.arts &&
      (forall k :: Keyed(keyOf, r.arts, k) <==> Keyed(keyOf, st.arts, k) || Brought(keyOf, xs, k)) &&
      (KeysDistinct(keyOf, st.arts) ==> KeysDistinct(keyOf, r.arts))
    decreases |xs|
  {
    if |xs| > 0 {
      var n := |xs| - 1;
      var p := LogAll(keyOf, who, self, st, xs[..n], now);
      var r := Log(keyOf, who, self, p, xs[n], now);
      assert LogAll(keyOf, who, self, st, xs, now) == r;
      LogAllKeys(keyOf, who, self, st, xs[..n], now);
      LogStep(keyOf, who, self, p, xs[n], now);
      forall k {
        BroughtLast(keyOf, xs, k);
      }
    }
  }

  /** Every entry artifactCheck adds is unreported and stamped with the sending agent. */
  lemma {:induction false} LogAllStamped(keyOf: Point -> string, who: string, self: string, st: Ledger,
                                         xs: seq<Artifact>, now: int)
    ensures var r := LogAll(keyOf, who, self, st, xs, now);
      st.arts <= r.arts && StampedFrom(r.arts, |st.arts|, who)
    decreases |xs|
  {
    if |xs| > 0 {
      LogAllStamped(keyOf, who, self, st, xs[..|xs| - 1], now);
    }
  }

  /** Detection n is at a new key exactly when the ledger built from the earlier ones lacks its key. */
  lemma LogNewAtLast(keyOf: Point -> string, who: string, self: string, st: Ledger, xs: seq<Artifact>, now: int)
    requires |xs| > 0
    ensures var n := |xs| - 1;
      !Keyed(keyOf, LogAll(keyOf, who, self, st, xs[..n], now).arts, keyOf(xs[n].position)) <==>
      NewAt(keyOf, st.arts, xs, n)
  {
    var n := |xs| - 1;
    var p := LogAll(keyOf, who, self, st, xs[..n], now);
    LogAllKeys(keyOf, who, self, st, xs[..n], now);
    if !Keyed(keyOf, p.arts, keyOf(xs[n].position)) {
      forall j | 0 <= j < n ensures keyOf(xs[j].position) != keyOf(xs[n].position) {
        assert keyOf(xs[..n][j].position) == keyOf(xs[j].position);
      }
    } else if !Keyed(keyOf, st.arts, keyOf(xs[n].position)) {
      var i :| 0 <= i < n && keyOf(xs[..n][i].position) == keyOf(xs[n].position);
      assert keyOf(xs[i].position) == keyOf(xs[n].position);
    }
  }

  /**
   * Own detection i is at a new key and nothing the ledger holds by then
   * (the earlier detections included) lies within planar distance 3.
   */
  predicate Alone(keyOf: Point -> string, self: string, st: Ledger, xs: seq<Artifact>, now: int, i: int)
    requires 0 <= i < |xs|
  {
    NewAt(keyOf, st.arts, xs, i) && !NearStored(LogAll(keyOf, self, self, st, xs[..i], now).arts, xs[i].position)
  }

  /** Whether detection i is Alone depends only on the detections up to it. */
  lemma AlonePrefix(keyOf: Point -> string, self: string, st: Ledger, xs: seq<Artifact>, now: int, n: int, i: int)
    requires 0 <= i < n <= |xs|
    ensures Alone(keyOf, self, st, xs[..n], now, i) <==> Alone(keyOf, self, st, xs, now, i)
  {
    assert xs[..n][..i] == xs[..i];
    assert NewAt(keyOf, st.arts, xs[..n], i) <==> NewAt(keyOf, st.arts, xs, i);
  }

  /**
   * artifactCheck raises the report flag exactly for an own detection that is
   * Alone; another agent's detections never raise it.
   */
  lemma {:induction false} LogAllReport(keyOf: Point -> string, who: string, self: string, st: Ledger,
                                        xs: seq<Artifact>, now: int)
    ensures LogAll(keyOf, who, self, st, xs, now).report <==>
            st.report || (who == self && exists i :: 0 <= i < |xs| && Alone(keyOf, self, st, xs, now, i))
    decreases |xs|
  {
    if |xs| > 0 {
      var n := |xs| - 1;
      var p := LogAll(keyOf, who, self, st, xs[..n], now);
      LogAllReport(keyOf, who, self, st, xs[..n], now);
      LogNewAtLast(keyOf, who, self, st, xs, now);
      if who == self {
        forall i | 0 <= i < n ensures Alone(keyOf, self, st, xs[..n], now, i) <==> Alone(keyOf, self, st, xs, now, i) {
          AlonePrefix(keyOf, self, st, xs, now, n, i);
        }
        var last := Alone(keyOf, self, st, xs, now, n);
        assert last <==> !Keyed(keyOf, p.arts, keyOf(xs[n].position)) && !NearStored(p.arts, xs[n].position);
        if p.report && !st.report {
          var i :| 0 <= i < n && Alone(keyOf, self, st, xs[..n], now, i);
          assert Alone(keyOf, self, st, xs, now, i);
        }
        if !st.report && exists i :: 0 <= i < |xs| && Alone(keyOf, self, st, xs, now, i) {
          var i :| 0 <= i < |xs| && Alone(keyOf, self, st, xs, now, i);
          if i < n {
            assert Alone(keyOf, self, st, xs[..n], now, i);
          }
        }
      }
    }
  }

  /** artifactCheck over the neighbours' detections, each list under its neighbour's id. */
  function LogNeighbors(keyOf: Point -> string, self: string, st: Ledger, ids: seq<string>,
                        ss: seq<NeighborState>, now: int): Ledger
    requires |ids| == |ss|
  {
    if |ids| == 0 then st
    else LogAll(keyOf, ids[|ids| - 1], self,
                LogNeighbors(keyOf, self, st, ids[..|ids| - 1], ss[..|ss| - 1], now),
                ss[|ss| - 1].newArtifacts, now)
  }

  /**
   * The neighbours' detections only add entries at the end, stamped with
   * some neighbour's id, keep keys distinct, and never raise the report flag.
   */
  lemma {:induction false} LogNeighborsQuiet(keyOf: Point -> string, self: string, st: Ledger, ids: seq<string>,
                                             ss: seq<NeighborState>, now: int)
    requires |ids| == |ss| && self !in ids
    ensures var r := LogNeighbors(keyOf, self, st, ids, ss, now);
      r.report == st.report && st.arts <= r.arts &&
      (forall i :: |st.arts| <= i < |r.arts| ==> r.arts[i].agentId in ids && !r.arts[i].reported) &&
      (KeysDistinct(keyOf, st.arts) ==> KeysDistinct(keyOf, r.arts))
    decreases |ids|
  {
    if |ids| > 0 {
      var n := |ids| - 1;
      var p := LogNeighbors(keyOf, self, st, ids[..n], ss[..n], now);
      assert forall x :: x in ids[..n] ==> x in ids;
      LogNeighborsQuiet(keyOf, self, st, ids[..n], ss[..n], now);
      LogAllKeys(keyOf, ids[n], self, p, ss[n].newArtifacts, now);
      LogAllStamped(keyOf, ids[n], self, p, ss[n].newArtifacts, now);
      LogAllReport(keyOf, ids[n], self, p, ss[n].newArtifacts, now);
    }
  }

  /** The artifactCheck loop over one agent's detections. */
  method LogEach(keyOf: Point -> string, who: string, self: string, st: Ledger, xs: seq<Artifact>, now: int)
    returns (r: Ledger)
    ensures r == LogAll(keyOf, who, self, st, xs, now)
  {
    r := st;
    var i := 0;
    while i < |xs|
      invariant 0 <= i <= |xs|
      invariant r == LogAll(keyOf, who, self, st, xs[..i], now)
    {
      assert xs[..i + 1][..i] == xs[..i];
      var a := xs[i];
      var stored := KeyScan(keyOf, r.arts, keyOf(a.position));
      if !stored {
        var ignore := false;
        if who == self {
          ignore := NearStoredScan(r.arts, a.position);
        }
        r := Ledger(r.arts + [Logged(keyOf, who, a, now)], r.report || (who == self && !ignore));
      }
      i := i + 1;
    }
    assert xs[..i] == xs;
  }

  /** The neighbour loop of run, as far as artifactCheck goes. */
  method LogNeighborsEach(keyOf: Point -> string, self: string, st: Ledger, ids: seq<string>,
                          ss: seq<NeighborState>, now: int) returns (r: Ledger)
    requires |ids| == |ss|
    ensures r == LogNeighbors(keyOf, self, st, ids, ss, now)
  {
    r := st;
    var i := 0;
    while i < |ids|
      invariant 0 <= i <= |ids|
      invariant r == LogNeighbors(keyOf, self, st, ids[..i], ss[..i], now)
    {
      assert ids[..i + 1][..i] == ids[..i] && ss[..i + 1][..i] == ss[..i];
      r := LogEach(keyOf, ids[i], self, r, ss[i].newArtifacts, now);
      i := i + 1;
    }
    assert ids[..i] == ids && ss[..i] == ss;
  }

  // ---------------------------------------------------------------------------
  // Neighbour count and the mode dispatch

  /** How many neighbours were heard after `check`. */
  function Current(ss: seq<NeighborState>, check: int): (n: nat)
    ensures n <= |ss|
    ensures n == 0 <==> forall i :: 0 <= i < |ss| ==> ss[i].lastMessage <= check
  {
    if |ss| == 0 then 0
    else Current(ss[..|ss| - 1], check) + if ss[|ss| - 1].lastMessage > check then 1 else 0
  }

  /** The mode a GUI task value selects; a Deploy drops at once and ends in Explore; others keep the mode. */
  function TaskMode(value: string, mode: string): string
  {
    if value == "Explore" || value == "Deploy" then "Explore"
    else if value == "Home" then "Home"
    else if value == "Stop" then "Stop"
    else mode
  }

  /**
   * The precedence of run: a report not yet acknowledged sends the robot to
   * report; then the modes Home, Stop and Deploy (drop here in comm, head
   * home without), an accepted GUI goal until within 1 of it; else explore.
   */
  function Arbitration(reportHeld: bool, mode: string, incomm: bool, goalAccepted: bool, atGuiGoal: bool): Directive
  {
    if reportHeld then HeadFor("Report")
    else if mode == "Home" then HeadFor("Home")
    else if mode == "Stop" then Halt
    else if mode == "Deploy" then (if incomm then Hold else HeadFor("Home"))
    else if goalAccepted && !atGuiGoal then HeadFor("guiCommand")
    else Explore
  }

  /**
   * Reporting beats every mode; the robot explores exactly when no report is
   * held, no mode holds it, and no accepted GUI goal is still ahead.
   */
  lemma ArbitrationOrder(reportHeld: bool, mode: string, incomm: bool, goalAccepted: bool, atGuiGoal: bool)
    ensures reportHeld ==> Arbitration(reportHeld, mode, incomm, goalAccepted, atGuiGoal) == HeadFor("Report")
    ensures Arbitration(reportHeld, mode, incomm, goalAccepted, atGuiGoal) == Explore <==>
            !reportHeld && mode != "Home" && mode != "Stop" && mode != "Deploy" && (goalAccepted ==> atGuiGoal)
    ensures !reportHeld && mode == "Stop" ==> Arbitration(reportHeld, mode, incomm, goalAccepted, atGuiGoal) == Halt
  {
  }

  // ---------------------------------------------------------------------------
  // The node

  /**
   * MARobot: the multi-agent node `ma` with the robot's own state. The
   * agent's members that the records of multi_agent.py lack (its status,
   * goal, candidate goals, explore goal and path, and GUI fields) are fields
   * here, filled by receivers outside this model.
   */
  class MARobot {
    const ma: MultiAgent
    const deconflictRadius: real
    const stopCheck: int
    const reverseDrop: bool
    const simComms: bool

    var startedMission: bool
    var initialPose: Option<Pose>
    var newTask: string
    var newTaskExternal: bool
    var taskCount: int
    var beaconCommLost: int
    var stopStart: bool
    var mode: string
    var stuck: int

    var status: string
    var goal: Goal
    var goals: seq<Goal>
    var exploreGoal: Point
    var explorePath: seq<Point>
    var guiAccept: bool
    var guiTaskName: string
    var guiTaskValue: string
    var guiGoalAccept: bool
    var guiGoalPoint: Point

    /** __init__: mission not started, no task suffix, counters at zero, exploring; history and report reset. */
    constructor(node: MultiAgent, radius: real, stopSecs: int, reverse: bool, sim: bool)
      modifies node`history, node`report
      ensures ma == node && deconflictRadius == radius && stopCheck == stopSecs
      ensures reverseDrop == reverse && simComms == sim
      ensures !startedMission && initialPose.None? && newTask == "" && !newTaskExternal
      ensures taskCount == 0 && beaconCommLost == 0 && stopStart && mode == "Explore" && stuck == 0
      ensures node.history == [] && !node.report
    {
      ma, deconflictRadius, stopCheck, reverseDrop, simComms := node, radius, stopSecs, reverse, sim;
      startedMission, initialPose := false, None;
      newTask, newTaskExternal, taskCount := "", false, 0;
      beaconCommLost, stopStart, mode, stuck := 0, true, "Explore", 0;
      status, goal, goals := "", Goal(0.0, [], Origin), [];
      exploreGoal, explorePath := Origin, [];
      guiAccept, guiTaskName, guiTaskValue := false, "", "";
      guiGoalAccept, guiGoalPoint := false, Origin;
      new;
      node.history := [];
      node.report := false;
    }

    /**
     * TaskMonitor: a task other than the robot's status and the normal ones
     * becomes the external suffix; otherwise the suffix is cleared once more
     * than ten normal messages have passed, and the count goes up until then.
     */
    method TaskMonitor(task: string)
      modifies this`newTask, this`newTaskExternal, this`taskCount
      ensures task != status && !Normal(task) ==>
        newTask == task && newTaskExternal && taskCount == old(taskCount)
      ensures !(task != status && !Normal(task)) && old(taskCount) > 10 ==>
        newTask == "" && !newTaskExternal && taskCount == 0
      ensures !(task != status && !Normal(task)) && old(taskCount) <= 10 ==>
        newTask == old(newTask) && newTaskExternal == old(newTaskExternal) && taskCount == old(taskCount) + 1
      ensures 0 <= old(taskCount) <= 11 ==> 0 <= taskCount <= 11
    {
      if task != status && !Normal(task) {
        newTask := task;
        newTaskExternal := true;
      } else if taskCount > 10 {
        newTask := "";
        newTaskExternal := false;
        taskCount := 0;
      } else {
        taskCount := taskCount + 1;
      }
    }

    /** updateStatus: append a status not yet in the suffix, else the suffix becomes it. */
    method UpdateStatus(s: string)
      modifies this`newTask, this`newTaskExternal
      ensures StatusNoted(old(newTask), old(newTaskExternal), s, newTask, newTaskExternal)
    {
      if newTask != "" && !Contains(newTask, s) {
        newTask := newTask + "+++" + s;
      } else {
        newTask := s;
        newTaskExternal := false;
      }
    }

    /** getStatus: the status, with the suffix after '+++' when there is one. */
    method GetStatus() returns (r: string)
      ensures r == Shown(status, newTask)
    {
      if newTask != "" {
        r := status + "+++" + newTask;
      } else {
        r := status;
      }
    }

    /**
     * updateHistory: the first pose is remembered; the mission starts once the
     * robot is more than 5 from it, and stays started; the pose joins the buffer.
     */
    method UpdateHistory()
      modifies this`initialPose, this`startedMission, ma`history
      ensures initialPose == if old(initialPose).None? then Some(ma.agent.state.odometry) else old(initialPose)
      ensures startedMission == (old(startedMission) || (old(initialPose).Some? &&
                Farther(ma.agent.state.odometry.position, old(initialPose).value.position, 5.0)))
      ensures ma.history == Kept(old(ma.history) + [ma.agent.state.odometry], ma.hislen)
    {
      if initialPose.None? {
        initialPose := Some(ma.agent.state.odometry);
      } else if !startedMission {
        if Farther(ma.agent.state.odometry.position, initialPose.value.position, 5.0) {
          startedMission := true;
        }
      }
      ma.UpdateHistory();
    }

    /** stop: the status becomes 'Stop'; the in-place goal is sent once, in simulation. */
    method Stop()
      modifies this`status, this`stopStart
      ensures status == "Stop" && stopStart == (old(stopStart) && !simComms)
    {
      status := "Stop";
      if stopStart && simComms {
        stopStart := false;
      }
    }

    /** setGoalPoint: the status becomes the reason and the goal is frontier exploration's. */
    method SetGoalPoint(reason: string)
      modifies this`stopStart, this`status, this`goal
      ensures stopStart && status == reason
      ensures goal == old(goal).(pose := exploreGoal, path := explorePath)
    {
      stopStart := true;
      status := reason;
      goal := goal.(pose := exploreGoal, path := explorePath);
    }

    /**
     * deconflictGoals: with no candidates the frontier goal, with one that
     * one, else the first candidate no neighbour outbids (see Chosen); a
     * conflict met while no suffix is set notes 'Replanning'.
     */
    method DeconflictGoals(rivals: seq<Goal>)
      modifies this`goal, this`newTask, this`newTaskExternal
      ensures goal == Target(goals, rivals, deconflictRadius, old(goal), exploreGoal, explorePath)
      ensures Replanned(old(newTask), old(newTaskExternal), Replans(goals, rivals, deconflictRadius),
                        newTask, newTaskExternal)
    {
      if |goals| == 0 {
        goal := goal.(pose := exploreGoal, path := explorePath);
      } else if |goals| == 1 {
        goal := goals[0];
      } else {
        var k, replanned := ChooseGoal(goals, rivals, deconflictRadius);
        if replanned && newTask == "" {
          UpdateStatus("Replanning");
        }
        goal := goals[k];
      }
    }

    /** deconflictExplore: explore, towards the deconflicted goal. */
    method DeconflictExplore(rivals: seq<Goal>)
      modifies this`stopStart, this`status, this`goal, this`newTask, this`newTaskExternal
      ensures stopStart && status == "Explore"
      ensures goal == Target(goals, rivals, deconflictRadius, old(goal), exploreGoal, explorePath)
      ensures Replanned(old(newTask), old(newTaskExternal), Replans(goals, rivals, deconflictRadius),
                        newTask, newTaskExternal)
    {
      stopStart := true;
      status := "Explore";
      DeconflictGoals(rivals);
    }

    /**
     * deployBeacon: with an idle beacon, the robot stops, the beacon is put
     * down at `placed` and exploration resumes; with none, no beacon is
     * assumed carried and the mode returns to 'Explore'.
     */
    method DeployBeacon(placed: Point, rivals: seq<Goal>)
      modifies ma`beacons, ma`numBeacons, this`mode, this`stopStart, this`status, this`goal,
               this`newTask, this`newTaskExternal
      ensures Stock(ma.beacons, ma.numBeacons) == Dropped(old(Stock(ma.beacons, ma.numBeacons)), placed)
      ensures IdleCount(old(ma.beacons)) == 0 ==>
        mode == "Explore" && stopStart == old(stopStart) && status == old(status) && goal == old(goal) &&
        newTask == old(newTask) && newTaskExternal == old(newTaskExternal)
      ensures IdleCount(old(ma.beacons)) > 0 ==>
        mode == old(mode) && stopStart && status == "Explore" &&
        goal == Target(goals, rivals, deconflictRadius, old(goal), exploreGoal, explorePath) &&
        Replanned(old(newTask), old(newTaskExternal), Replans(goals, rivals, deconflictRadius), newTask, newTaskExternal)
    {
      NoIdleMeansNone(ma.beacons);
      var k := FindIdle(ma.beacons);
      if k.Some? {
        Stop();
        status := "Deploy";
        DeconflictExplore(rivals);
        ma.DeployBeacon(placed);
      } else {
        ma.DeployBeacon(placed);
        mode := "Explore";
      }
    }
  
    /**
     * In comm and past minAnchorDist from the anchor, the planned drop
     * survives the beacons' check (Verdict).
     */
    predicate DropDue(turned: bool)
      reads this, ma, ma.agent
    {
      var pos := ma.agent.state.odometry.position;
      !Closer(pos, ma.anchorPos, ma.minAnchorDist) &&
      Verdict(ma.beacons, pos,
              PlanDrop(Farther(pos, ma.anchorPos, ma.maxAnchorDist), ma.delayDrop, ma.agent.atnode,
                       Turning(ma.history, ma.hislen, ma.turnDetect, turned),
                       ma.maxAnchorDist, ma.maxDist, ma.junctionDist)).drop
    }

    /**
     * The in-comm part of beaconCheck: the lost-comm count is cleared; a due
     * drop uses up a pending delay, else it is to be deployed.
     */
    method InCommCheck(turned: bool) returns (deploy: bool)
      modifies this`beaconCommLost, ma`delayDrop
      ensures beaconCommLost == 0
      ensures deploy == (old(DropDue(turned)) && !old(ma.delayDrop))
      ensures ma.delayDrop == (old(ma.delayDrop) && !old(DropDue(turned)))
    {
      beaconCommLost := 0;
      deploy := false;
      var pos := ma.agent.state.odometry.position;
      if Closer(pos, ma.anchorPos, ma.minAnchorDist) {
        return;
      }
      var plan := PlanDrop(Farther(pos, ma.anchorPos, ma.maxAnchorDist), ma.delayDrop, ma.agent.atnode,
                           Turning(ma.history, ma.hislen, ma.turnDetect, turned),
                           ma.maxAnchorDist, ma.maxDist, ma.junctionDist);
      var v := CheckDrop(ma.beacons, pos, plan, Closer(pos, ma.anchorPos, ma.maxAnchorDist));
      if v.drop {
        if ma.delayDrop {
          ma.delayDrop := false;
        } else {
          deploy := true;
        }
      }
    }

    /** The reverse-drop count out of comm: past 5 missed checks the mode becomes 'Deploy' and the count restarts. */
    method OutOfCommStep()
      modifies this`beaconCommLost, this`mode
      ensures old(beaconCommLost) + 1 > 5 ==> mode == "Deploy" && beaconCommLost == 0
      ensures old(beaconCommLost) + 1 <= 5 ==> mode == old(mode) && beaconCommLost == old(beaconCommLost) + 1
      ensures 0 <= old(beaconCommLost) <= 5 ==> 0 <= beaconCommLost <= 5
    {
      beaconCommLost := beaconCommLost + 1;
      if beaconCommLost > 5 {
        mode := "Deploy";
        beaconCommLost := 0;
      }
    }

    /**
     * beaconCheck, while beacons are carried: in comm, a due drop deploys
     * (or uses up a delay) with DeployBeacon's effect on the robot's task;
     * out of comm with reverse drops on, the lost-comm count moves towards a
     * reverse deploy. The count stays within 0..5; without a deploy the task
     * is left as it was.
     */
    method BeaconCheck(turned: bool, placed: Point, rivals: seq<Goal>)
      modifies this`beaconCommLost, this`mode, this`stopStart, this`status, this`goal,
               this`newTask, this`newTaskExternal, ma`delayDrop, ma`beacons, ma`numBeacons
      ensures 0 <= old(beaconCommLost) <= 5 ==> 0 <= beaconCommLost <= 5
      ensures old(ma.numBeacons) <= 0 || (!ma.base.incomm && !reverseDrop) ==>
        beaconCommLost == old(beaconCommLost) && mode == old(mode) && ma.delayDrop == old(ma.delayDrop) &&
        ma.beacons == old(ma.beacons) && ma.numBeacons == old(ma.numBeacons)
      ensures old(ma.numBeacons) > 0 && !ma.base.incomm && reverseDrop ==>
        ma.beacons == old(ma.beacons) && ma.numBeacons == old(ma.numBeacons) &&
        (old(beaconCommLost) + 1 > 5 ==> mode == "Deploy" && beaconCommLost == 0) &&
        (old(beaconCommLost) + 1 <= 5 ==> mode == old(mode) && beaconCommLost == old(beaconCommLost) + 1)
      ensures old(ma.numBeacons) > 0 && ma.base.incomm ==>
        beaconCommLost == 0 && ma.delayDrop == (old(ma.delayDrop) && !old(DropDue(turned))) &&
        Stock(ma.beacons, ma.numBeacons) ==
          if old(DropDue(turned)) && !old(ma.delayDrop) then Dropped(old(Stock(ma.beacons, ma.numBeacons)), placed)
          else old(Stock(ma.beacons, ma.numBeacons))
      ensures old(ma.numBeacons) > 0 && ma.base.incomm && old(DropDue(turned)) && !old(ma.delayDrop) ==>
        (IdleCount(old(ma.beacons)) == 0 ==>
          mode == "Explore" && stopStart == old(stopStart) && status == old(status) && goal == old(goal) &&
          newTask == old(newTask) && newTaskExternal == old(newTaskExternal)) &&
        (IdleCount(old(ma.beacons)) > 0 ==>
          mode == old(mode) && stopStart && status == "Explore" &&
          goal == Target(goals, rivals, deconflictRadius, old(goal), exploreGoal, explorePath) &&
          Replanned(old(newTask), old(newTaskExternal), Replans(goals, rivals, deconflictRadius), newTask, newTaskExternal))
      ensures !(old(ma.numBeacons) > 0 && ma.base.incomm && old(DropDue(turned)) && !old(ma.delayDrop)) ==>
        stopStart == old(stopStart) && status == old(status) && goal == old(goal) &&
        newTask == old(newTask) && newTaskExternal == old(newTaskExternal)
      ensures old(ma.numBeacons) > 0 && ma.base.incomm && !(old(DropDue(turned)) && !old(ma.delayDrop)) ==>
        mode == old(mode)
    {
      if ma.numBeacons > 0 {
        if ma.base.incomm {
          var deploy := InCommCheck(turned);
          if deploy {
            DeployBeacon(placed, rivals);
          }
        } else if reverseDrop {
          OutOfCommStep();
        }
      }
    }
  
    /**
     * The stuck check of run, once the mission has started and the robot is
     * not stopped: with a path and a full buffer, a robot that moved less
     * than 0.5 over the buffer counts one more stationary step (else the
     * count restarts) and past stopCheck steps 'Stuck' is noted; with no
     * path, 'No Path' is noted.
     */
    method StuckCheck()
      requires |ma.history| > 0
      modifies this`stuck, this`newTask, this`newTaskExternal
      ensures !(startedMission && status != "Stop") || (|goal.path| > 0 && |ma.history| != ma.hislen) ==>
        stuck == old(stuck) && newTask == old(newTask) && newTaskExternal == old(newTaskExternal)
      ensures startedMission && status != "Stop" && |goal.path| > 0 && |ma.history| == ma.hislen ==>
        stuck == (if Closer(ma.history[0].position, ma.history[|ma.history| - 1].position, 0.5)
                  then old(stuck) + 1 else 0) &&
        if stuck > stopCheck then StatusNoted(old(newTask), old(newTaskExternal), "Stuck", newTask, newTaskExternal)
        else newTask == old(newTask) && newTaskExternal == old(newTaskExternal)
      ensures startedMission && status != "Stop" && |goal.path| == 0 ==>
        stuck == old(stuck) && StatusNoted(old(newTask), old(newTaskExternal), "No Path", newTask, newTaskExternal)
    {
      if startedMission && status != "Stop" {
        if |goal.path| > 0 && |ma.history| == ma.hislen {
          if Closer(ma.history[0].position, ma.history[|ma.history| - 1].position, 0.5) {
            stuck := stuck + 1;
          } else {
            stuck := 0;
          }
          if stuck > stopCheck {
            UpdateStatus("Stuck");
          }
        } else if |goal.path| == 0 {
          UpdateStatus("No Path");
        }
      }
    }

    /**
     * The GUI task block of run: an accepted 'task' command sets the mode as
     * TaskMode says; 'Explore' also drops an accepted GUI goal and 'Deploy'
     * deploys at once and skips this round's beacon check. The command is
     * consumed.
     */
    method GuiTask(placed: Point, rivals: seq<Goal>) returns (checkBeacon: bool)
      modifies this`guiAccept, this`guiGoalAccept, this`mode, this`stopStart, this`status, this`goal,
               this`newTask, this`newTaskExternal, ma`beacons, ma`numBeacons
      ensures !guiAccept
      ensures var cmd := old(guiAccept) && guiTaskName == "task";
        mode == (if cmd then TaskMode(guiTaskValue, old(mode)) else old(mode)) &&
        guiGoalAccept == (old(guiGoalAccept) && !(cmd && guiTaskValue == "Explore")) &&
        checkBeacon == !(cmd && guiTaskValue == "Deploy")
      ensures Stock(ma.beacons, ma.numBeacons) ==
        if checkBeacon then old(Stock(ma.beacons, ma.numBeacons))
        else Dropped(old(Stock(ma.beacons, ma.numBeacons)), placed)
      ensures checkBeacon || IdleCount(old(ma.beacons)) == 0 ==>
        stopStart == old(stopStart) && status == old(status) && goal == old(goal) &&
        newTask == old(newTask) && newTaskExternal == old(newTaskExternal)
      ensures !checkBeacon && IdleCount(old(ma.beacons)) > 0 ==>
        stopStart && status == "Explore" &&
        goal == Target(goals, rivals, deconflictRadius, old(goal), exploreGoal, explorePath) &&
        Replanned(old(newTask), old(newTaskExternal), Replans(goals, rivals, deconflictRadius), newTask, newTaskExternal)
    {
      checkBeacon := true;
      if guiAccept {
        if guiTaskName == "task" {
          if guiTaskValue == "Explore" {
            guiGoalAccept := false;
            mode := "Explore";
          } else if guiTaskValue == "Home" {
            mode := "Home";
          } else if guiTaskValue == "Stop" {
            mode := "Stop";
          } else if guiTaskValue == "Deploy" {
            DeployBeacon(placed, rivals);
            checkBeacon := false;
            mode := "Explore";
          }
        }
        guiAccept := false;
      }
    }

    /** The neighbour count of run: how many neighbours were heard within 30 comm thresholds. */
    method CountNeighbors(now: int) returns (n: nat)
      ensures n == Current(Views(ma.neighbors), NeighborCheck(now, ma.commThreshold))
    {
      var check := NeighborCheck(now, ma.commThreshold);
      ghost var vs := Views(ma.neighbors);
      n := 0;
      var i := 0;
      while i < |ma.neighbors|
        invariant 0 <= i <= |ma.neighbors|
        invariant n == Current(vs[..i], check)
      {
        assert vs[..i + 1][..i] == vs[..i];
        if ma.neighbors[i].state.lastMessage > check {
          n := n + 1;
        }
        i := i + 1;
      }
      assert vs[..i] == vs;
    }

    /**
     * artifactCheck for every neighbour: their detections join the ledger
     * under their ids, keys stay distinct, and the report flag is untouched.
     */
    method ArtifactCheckNeighbors(now: int)
      requires ma.Valid()
      modifies ma`artifacts, ma`report
      ensures Ledger(ma.artifacts, ma.report) ==
              LogNeighbors(ma.keyOf, ma.id, Ledger(old(ma.artifacts), old(ma.report)), NeighborIds(ma.neighbors),
                           Views(ma.neighbors), now)
      ensures ma.report == old(ma.report) && old(ma.artifacts) <= ma.artifacts
      ensures KeysDistinct(ma.keyOf, old(ma.artifacts)) ==> KeysDistinct(ma.keyOf, ma.artifacts)
    {
      var ids, views, st0 := NeighborIds(ma.neighbors), Views(ma.neighbors), Ledger(ma.artifacts, ma.report);
      var st := LogNeighborsEach(ma.keyOf, ma.id, st0, ids, views, now);
      LogNeighborsQuiet(ma.keyOf, ma.id, st0, ids, views, now);
      ma.artifacts, ma.report := st.arts, st.report;
      assert Views(ma.neighbors) == views;
    }

    /** artifactCheck for the robot itself: its detections join the ledger under its own id. */
    method ArtifactCheckSelf(now: int)
      modifies ma`artifacts, ma`report
      ensures Ledger(ma.artifacts, ma.report) ==
              LogAll(ma.keyOf, ma.agent.id, ma.id, Ledger(old(ma.artifacts), old(ma.report)),
                     ma.agent.state.newArtifacts, now)
    {
      var st := LogEach(ma.keyOf, ma.agent.id, ma.id, Ledger(ma.artifacts, ma.report), ma.agent.state.newArtifacts, now);
      ma.artifacts, ma.report := st.arts, st.report;
    }

    /**
     * artifactCheckReport: an own artifact not yet reported raises the flag;
     * with the flag up, the robot's artifact list is fingerprinted.
     */
    method ArtifactCheckReport()
      modifies ma`report, ma.agent`lastArtifact
      ensures ma.report == (old(ma.report) || OwnPending(ma.artifacts, ma.id))
      ensures ma.agent.lastArtifact ==
              if ma.report then DigestOf(ma.agent.state.newArtifacts) else old(ma.agent.lastArtifact)
    {
      if !ma.report {
        var found := FindOwnPending(ma.artifacts, ma.id);
        if found {
          ma.report := true;
        }
      }
      if ma.report {
        ma.agent.lastArtifact := DigestOf(ma.agent.state.newArtifacts);
      }
    }

    /**
     * The report block of run: a pending report is over once the run is solo
     * or the base holds this robot's fingerprint, and every artifact counts
     * as reported; until then the robot heads to report and nothing else is
     * decided this round.
     */
    method ReportGate() returns (held: bool)
      modifies ma`report, ma`artifacts, this`stopStart, this`status, this`goal
      ensures held == (old(ma.report) && !(ma.solo || ma.base.lastArtifact == ma.agent.lastArtifact))
      ensures held ==> ma.report && ma.artifacts == old(ma.artifacts) && stopStart && status == "Report" &&
                       goal == old(goal).(pose := exploreGoal, path := explorePath)
      ensures !held ==> !ma.report && stopStart == old(stopStart) && status == old(status) && goal == old(goal) &&
                        ma.artifacts == if old(ma.report) then AllReported(old(ma.artifacts)) else old(ma.artifacts)
    {
      held := false;
      if ma.report {
        if ma.solo || ma.base.lastArtifact == ma.agent.lastArtifact {
          ma.report := false;
          ma.artifacts := MarkReported(ma.artifacts);
        } else {
          SetGoalPoint("Report");
          held := true;
        }
      }
    }

    /**
     * The mode block of run, with no report held, as Arbitration orders it:
     * Home and a reverse deploy out of comm head home, Stop stops, a reverse
     * deploy in comm drops a beacon and returns to exploring, an accepted GUI
     * goal is pursued until within 1 of it, and otherwise the robot explores.
     */
    method Dispatch(placed: Point, rivals: seq<Goal>) returns (d: Directive)
      modifies this`mode, this`stopStart, this`status, this`goal, this`newTask, this`newTaskExternal,
               this`guiGoalAccept, ma`beacons, ma`numBeacons
      ensures d == old(Arbitration(false, mode, ma.base.incomm, guiGoalAccept,
                                   Closer(ma.agent.state.odometry.position, guiGoalPoint, 1.0)))
      ensures d.HeadFor? ==> status == d.target && stopStart && goal == old(goal).(pose := exploreGoal, path := explorePath)
      ensures d.HeadFor? ==>
        (newTask, newTaskExternal) ==
          if old(mode) == "Deploy" && old(newTask) == "" then ("Regain comms deploy", false)
          else (old(newTask), old(newTaskExternal))
      ensures d == Halt ==>
        status == "Stop" && stopStart == (old(stopStart) && !simComms) && goal == old(goal) &&
        newTask == old(newTask) && newTaskExternal == old(newTaskExternal)
      ensures d == Explore ==>
        status == "Explore" && stopStart && goal == Target(goals, rivals, deconflictRadius, old(goal), exploreGoal, explorePath) &&
        Replanned(old(newTask), old(newTaskExternal), Replans(goals, rivals, deconflictRadius), newTask, newTaskExternal)
      ensures d == Hold && IdleCount(old(ma.beacons)) > 0 ==>
        stopStart && status == "Explore" &&
        goal == Target(goals, rivals, deconflictRadius, old(goal), exploreGoal, explorePath) &&
        Replanned(old(newTask), old(newTaskExternal), Replans(goals, rivals, deconflictRadius), newTask, newTaskExternal)
      ensures d == Hold && IdleCount(old(ma.beacons)) == 0 ==>
        stopStart == old(stopStart) && status == old(status) && goal == old(goal) &&
        newTask == old(newTask) && newTaskExternal == old(newTaskExternal)
      ensures mode == if d == Hold then "Explore" else old(mode)
      ensures guiGoalAccept == (old(guiGoalAccept) && d != Explore)
      ensures Stock(ma.beacons, ma.numBeacons) ==
        if d == Hold then Dropped(old(Stock(ma.beacons, ma.numBeacons)), placed) else old(Stock(ma.beacons, ma.numBeacons))
    {
      var at := Closer(ma.agent.state.odometry.position, guiGoalPoint, 1.0);
      d := Arbitration(false, mode, ma.base.incomm, guiGoalAccept, at);
      if mode == "Stop" {
        Stop();
      } else if mode == "Deploy" {
        ReverseDeploy(placed, rivals);
      } else if mode == "Home" || (guiGoalAccept && !at) {
        SetGoalPoint(if mode == "Home" then "Home" else "guiCommand");
      } else {
        if guiGoalAccept {
          guiGoalAccept := false;
        }
        DeconflictExplore(rivals);
      }
    }
  
    /**
     * Reverse-deploy mode: in comm, drop a beacon and return to exploring;
     * out of comm, head home (RegainHome).
     */
    method ReverseDeploy(placed: Point, rivals: seq<Goal>)
      modifies this`mode, this`stopStart, this`status, this`goal, this`newTask, this`newTaskExternal,
               ma`beacons, ma`numBeacons
      ensures old(ma.base.incomm) ==>
        mode == "Explore" && Stock(ma.beacons, ma.numBeacons) == Dropped(old(Stock(ma.beacons, ma.numBeacons)), placed)
      ensures old(ma.base.incomm) && IdleCount(old(ma.beacons)) > 0 ==>
        stopStart && status == "Explore" &&
        goal == Target(goals, rivals, deconflictRadius, old(goal), exploreGoal, explorePath) &&
        Replanned(old(newTask), old(newTaskExternal), Replans(goals, rivals, deconflictRadius), newTask, newTaskExternal)
      ensures old(ma.base.incomm) && IdleCount(old(ma.beacons)) == 0 ==>
        stopStart == old(stopStart) && status == old(status) && goal == old(goal) &&
        newTask == old(newTask) && newTaskExternal == old(newTaskExternal)
      ensures !old(ma.base.incomm) ==>
        mode == old(mode) && ma.beacons == old(ma.beacons) && ma.numBeacons == old(ma.numBeacons) &&
        stopStart && status == "Home" && goal == old(goal).(pose := exploreGoal, path := explorePath) &&
        (newTask, newTaskExternal) ==
          if old(newTask) == "" then ("Regain comms deploy", false) else (old(newTask), old(newTaskExternal))
    {
      if ma.base.incomm {
        DeployBeacon(placed, rivals);
        mode := "Explore";
      } else {
        RegainHome();
      }
    }

    /** Out of comm in Deploy: note 'Regain comms deploy' unless a suffix is set, and head home. */
    method RegainHome()
      modifies this`stopStart, this`status, this`goal, this`newTask, this`newTaskExternal
      ensures stopStart && status == "Home" && goal == old(goal).(pose := exploreGoal, path := explorePath)
      ensures (newTask, newTaskExternal) ==
        if old(newTask) == "" then ("Regain comms deploy", false) else (old(newTask), old(newTaskExternal))
    {
      if newTask == "" {
        UpdateStatus("Regain comms deploy");
      }
      SetGoalPoint("Home");
    }

    /** The GUI task, then the beacon check unless the GUI deployed; the lost-comm count stays within 0..5. */
    method TaskAndBeacons(turned: bool, placed: Point, rivals: seq<Goal>)
      modifies this`guiAccept, this`guiGoalAccept, this`mode, this`stopStart, this`status, this`goal,
               this`newTask, this`newTaskExternal, this`beaconCommLost, ma`delayDrop, ma`beacons, ma`numBeacons
      ensures 0 <= old(beaconCommLost) <= 5 ==> 0 <= beaconCommLost <= 5
    {
      var checkBeacon := GuiTask(placed, rivals);
      if checkBeacon {
        BeaconCheck(turned, placed, rivals);
      }
    }

    /**
     * The first part of run: the pose history, the stuck check, the GUI task,
     * and the beacon check unless the GUI deployed. The lost-comm count stays
     * within 0..5.
     */
    method Advance(turned: bool, placed: Point, rivals: seq<Goal>)
      modifies this, ma`history, ma`delayDrop, ma`beacons, ma`numBeacons
      ensures ma.history == Kept(old(ma.history) + [ma.agent.state.odometry], ma.hislen)
      ensures 0 <= old(beaconCommLost) <= 5 ==> 0 <= beaconCommLost <= 5
    {
      UpdateHistory();
      StuckCheck();
      TaskAndBeacons(turned, placed, rivals);
    }

    /**
     * The artifact part of run: every neighbour's and the robot's own
     * detections join the ledger, and the report flag ends up raised
     * whenever an own artifact is unreported.
     */
    method Ledgers(now: int)
      requires ma.Valid()
      modifies ma`artifacts, ma`report, ma.agent`lastArtifact
      ensures OwnPending(ma.artifacts, ma.id) ==> ma.report
    {
      ArtifactCheckNeighbors(now);
      ArtifactCheckSelf(now);
      ArtifactCheckReport();
    }

    /** The neighbour count and the artifact part of run. */
    method Survey(now: int) returns (n: nat)
      requires ma.Valid()
      modifies ma`artifacts, ma`report, ma.agent`lastArtifact
      ensures n == Current(Views(ma.neighbors), NeighborCheck(now, ma.commThreshold))
      ensures OwnPending(ma.artifacts, ma.id) ==> ma.report
    {
      n := CountNeighbors(now);
      ghost var views := Views(ma.neighbors);
      Ledgers(now);
      assert Views(ma.neighbors) == views;
    }

    /**
     * The last part of run: the report block and, with no report held, the
     * mode block. The robot heads to report exactly while the report is held;
     * if every unreported own artifact had raised the flag, none is left
     * unreported once the robot stops heading to report.
     */
    method Decide(placed: Point, rivals: seq<Goal>) returns (d: Directive)
      modifies this`mode, this`stopStart, this`status, this`goal, this`newTask, this`newTaskExternal,
               this`guiGoalAccept, ma`report, ma`artifacts, ma`beacons, ma`numBeacons
      ensures d == HeadFor("Report") <==> ma.report
      ensures ma.report ==> status == "Report"
      ensures (OwnPending(old(ma.artifacts), ma.id) ==> old(ma.report)) ==> !ma.report ==> !OwnPending(ma.artifacts, ma.id)
    {
      var held := ReportGate();
      if held {
        d := HeadFor("Report");
      } else {
        d := Dispatch(placed, rivals);
      }
    }

    /**
     * run, one round: Advance, Survey, then Decide. Returns what the guidance
     * layer is told and the neighbour count published. A robot that is not
     * heading to report has no own artifact left unreported.
     */
    method Run(now: int, turned: bool, placed: Point, rivals: seq<Goal>) returns (d: Directive, n: nat)
      requires ma.Valid()
      modifies this, ma`history, ma`delayDrop, ma`beacons, ma`numBeacons, ma`artifacts, ma`report,
               ma.agent`lastArtifact
      ensures n == Current(Views(ma.neighbors), NeighborCheck(now, ma.commThreshold))
      ensures d == HeadFor("Report") <==> ma.report
      ensures ma.report ==> status == "Report"
      ensures !ma.report ==> !OwnPending(ma.artifacts, ma.id)
      ensures 0 <= old(beaconCommLost) <= 5 ==> 0 <= beaconCommLost <= 5
    {
      Advance(turned, placed, rivals);
      n := Survey(now);
      ghost var views := Views(ma.neighbors);
      ghost var lost := beaconCommLost;
      d := Decide(placed, rivals);
      assert Views(ma.neighbors) == views;
      assert beaconCommLost == lost;
    }
  }
}
