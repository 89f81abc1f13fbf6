/**
 * The self-contained robot node (src/robot.py): its pose history and
 * mission-start flag, the status line, the beacon check with the reverse-drop
 * counter, the stuck check, the GUI command table, the neighbour count, the
 * report gate with the mode dispatch that follows it, and the aerial
 * map-ignore edges.
 *
 * robot.py calls updateStatus, addBlacklist, deconflictGoals, stop and
 * setGoalPoint without defining them; the actions model's are used. Its
 * deployBeacon and deconflictExplore are word for word those of behaviors.py,
 * so the behaviours model's are used. The robot's mode is kept with the
 * behaviours, which write it too. Publishing and the log lines are outputs;
 * the mode dispatch also returns what it decided (a Directive).
 */
module RobotNode {
  import opened Helpers
  import opened Containers
  import opened Bobcat
  import opened Beacons
  import opened Actions
  import opened Monitors
  import opened Behaviors

  // ---------------------------------------------------------------------------
  // Pose history and status line

  /** The last `n` entries of `h`, or all of it when it is no longer. */
  function Recent<T>(h: seq<T>, n: nat): (r: seq<T>)
    ensures |r| <= n || r == h
    ensures |r| == if |h| > n then n else |h|
    ensures forall i :: 0 <= i < |r| ==> r[i] == h[|h| - |r| + i]
  {
    if |h| > n then h[|h| - n..] else h
  }

  /** The buffer after one more pose: bounded by `n`, ending with the pose just read. */
  lemma HistoryBounded<T>(h: seq<T>, p: T, n: nat)
    requires n > 0
    ensures var r := Recent(h + [p], n);
      |r| <= n && |r| > 0 && r[|r| - 1] == p && (|h| < n ==> r == h + [p])
  {
  }

  /** The status as shown: the agent's status, then "+++" and the suffix when there is one. */
  function Shown(status: string, suffix: string): (r: string)
    ensures |status| <= |r| && r[..|status|] == status
    ensures suffix != "" ==> Contains(r, suffix)
    ensures suffix == "" ==> r == status
  {
    if suffix != "" then
      ContainsSuffix(status + "+++", suffix);
      status + "+++" + suffix
    else status
  }

  // ---------------------------------------------------------------------------
  // GUI commands and the mode dispatch

  /** The mode a GUI task value selects; an unknown value keeps the mode. A deploy ends in Explore. */
  function ModeFor(value: string, mode: string): string
  {
    if value == "Explore" || value == "Start" || value == "Deploy" then "Explore"
    else if value == "Home" then "Home"
    else if value == "Stop" then "Stop"
    else if value == "Goal" then "Goal"
    else mode
  }

  /** What one run tells the guidance layer. */
  datatype Directive = HeadFor(target: string) | Halt | Explore | Hold

  /**
   * The precedence of run: an unacknowledged report sends the robot to
   * report; then the GUI's Home and Stop, the reverse-drop Deploy (hold in
   * comm, head home without), the GUI goal until within 1 of it; else explore.
   */
  function Arbitrate(reportHeld: bool, mode: string, incomm: bool, atGuiGoal: bool): Directive
  {
    if reportHeld then HeadFor("Report")
    else if mode == "Home" then HeadFor("Home")
    else if mode == "Stop" then Halt
    else if mode == "Deploy" then (if incomm then Hold else HeadFor("Home"))
    else if mode == "Goal" && !atGuiGoal then HeadFor("guiCommand")
    else Explore
  }

  /**
   * Reporting beats every mode; a robot explores only when no report is held
   * and no GUI mode (Home, Stop, an unreached Goal) nor a reverse drop holds it.
   */
  lemma ArbitrateOrder(reportHeld: bool, mode: string, incomm: bool, atGuiGoal: bool)
    ensures reportHeld ==> Arbitrate(reportHeld, mode, incomm, atGuiGoal) == HeadFor("Report")
    ensures Arbitrate(reportHeld, mode, incomm, atGuiGoal) == Explore <==>
            !reportHeld && mode != "Home" && mode != "Stop" && mode != "Deploy" && (mode == "Goal" ==> atGuiGoal)
    ensures !reportHeld && mode == "Home" ==> Arbitrate(reportHeld, mode, incomm, atGuiGoal) == HeadFor("Home")
  {
  }

  /** The time before which a neighbour's last message is too old to count. */
  function NeighborCheck(now: int, threshold: int): int
  {
    if now > threshold * 30 then now - threshold * 30 else now
  }

  /** How many of the neighbours were heard after `check`. */
  function Heard(ns: seq<Agent>, check: int): (n: nat)
    reads ns
    ensures n <= |ns|
    ensures n == 0 <==> forall i :: 0 <= i < |ns| ==> ns[i].lastMessage <= check
    decreases |ns|
  {
    if |ns| == 0 then 0
    else Heard(ns[..|ns| - 1], check) + if ns[|ns| - 1].lastMessage > check then 1 else 0
  }

  // ---------------------------------------------------------------------------
  // The regain counter as robot.py holds it

  /**
   * The reverse-drop fields of run as robot.py holds them: the regain counter
   * is absent (None) until first assigned, because __init__ assigns a
   * differently named attribute.
   */
  datatype DropState = DropState(mode: string, regain: Option<int>)

  /**
   * One run of robot.py on those fields, as written: out of comm, a long
   * comm loss puts the robot in Deploy mode; a held report returns before the
   * mode dispatch; the Deploy branch reads the counter in comm and writes it
   * out of comm. None is the AttributeError of reading the absent counter.
   */
  function RunAsWritten(s: DropState, incomm: bool, lostLong: bool, reportHeld: bool): Option<DropState>
  {
    var mode := if !incomm && lostLong then "Deploy" else s.mode;
    if reportHeld || mode != "Deploy" then Some(s.(mode := mode))
    else if !incomm then Some(DropState(mode, Some(0)))
    else match s.regain
      case None => None
      case Some(n) => Some(if n > 5 then DropState("Explore", Some(0)) else DropState(mode, Some(n + 1)))
  }

  /**
   * The fault: entering Deploy mode out of comm while a report is held skips
   * the only write of the counter, and the next run, back in comm with the
   * report acknowledged, reads it.
   */
  lemma RegainFault()
    ensures var first := RunAsWritten(DropState("Explore", None), false, true, true);
      first == Some(DropState("Deploy", None)) && RunAsWritten(first.value, true, false, false).None?
  {
  }

  // ---------------------------------------------------------------------------
  // The robot

  class Robot {
    const node: Node
    const act: Actions
    const beh: Behaviors
    const anchorPos: Point
    const maxAnchorDist: real
    const maxDist: real
    const junctionDist: real
    const minAnchorDist: real
    const turnDetect: bool
    const reverseDropEnable: bool
    const hislen: nat
    var startedMission: bool
    var initialPose: Option<Pose>
    var history: seq<Pose>
    var blBeacons: seq<Point>
    var statusCount: int
    var beaconCommLost: int
    var regainBase: int
    var stuck: int
    var blgoals: seq<Point>
    var delayDrop: bool
    var reverseDrop: bool
    var plannerStatus: bool
    var launchStatus: bool
    var isAerial: bool
    var wait: bool

    /** The objects the robot works through share one node. */
    predicate Linked()
    {
      act.node == node && beh.node == node && beh.act == act
    }

    /**
     * __init__: no history or mission yet, nothing tried, reverse drops as
     * configured, and the regain counter at 0 (see RegainFault).
     */
    constructor(n: Node, a: Actions, b: Behaviors, anchor: Point, anchorDropDist: real, dropDist: real,
                junction: real, turns: bool, delay: bool, reverse: bool, historyLength: nat)
      requires a.node == n && b.node == n && b.act == a && historyLength >= 2
      ensures Linked() && node == n && act == a && beh == b && hislen == historyLength
      ensures anchorPos == anchor && maxAnchorDist == anchorDropDist && maxDist == dropDist
      ensures junctionDist == junction && minAnchorDist == 10.0 && turnDetect == turns
      ensures reverseDropEnable == reverse && reverseDrop == reverse && delayDrop == delay
      ensures !startedMission && initialPose.None? && history == [] && blBeacons == [] && blgoals == []
      ensures statusCount == 0 && beaconCommLost == 0 && regainBase == 0 && stuck == 0
      ensures plannerStatus && launchStatus && !isAerial && wait
    {
      node, act, beh, anchorPos := n, a, b, anchor;
      maxAnchorDist, maxDist, junctionDist, minAnchorDist := anchorDropDist, dropDist, junction, 10.0;
      turnDetect, reverseDropEnable, hislen := turns, reverse, historyLength;
      startedMission, initialPose, history, blBeacons := false, None, [], [];
      statusCount, beaconCommLost, regainBase, stuck := 0, 0, 0, 0;
      blgoals, delayDrop, reverseDrop := [], delay, reverse;
      plannerStatus, launchStatus, isAerial, wait := true, true, false, true;
    }

    // -------------------------------------------------------------------------
    // Callbacks

    /** WaitMonitor: a positive origin-detection status ends the wait. */
    method WaitMonitor(status: int)
      modifies this`wait
      ensures wait == (old(wait) && status <= 0)
    {
      if status > 0 {
        wait := false;
      }
    }

    /** PlannerMonitor: record the planner's status; a failure is noted. */
    method PlannerMonitor(ok: bool)
      modifies this`plannerStatus, act`newStatus
      ensures plannerStatus == ok
      ensures act.newStatus == if ok then old(act.newStatus) else Noted(old(act.newStatus), "Unable to plan")
    {
      plannerStatus := ok;
      if !ok {
        act.UpdateStatus("Unable to plan");
      }
    }

    /** LaunchMonitor: only an aerial robot hears from its velocity controller. */
    method LaunchMonitor(enabled: bool)
      modifies this`isAerial, this`launchStatus
      ensures isAerial && launchStatus == enabled
    {
      isAerial := true;
      launchStatus := enabled;
    }

    // -------------------------------------------------------------------------
    // updateHistory and getStatus

    /**
     * updateHistory: the first pose is remembered; afterwards the mission
     * starts once the robot is more than 5 from it, and stays started. The
     * pose joins the buffer, which keeps its last hislen entries.
     */
    method UpdateHistory()
      modifies this`initialPose, this`startedMission, this`history
      ensures var pose := node.agent.odometry;
        history == Recent(old(history) + [pose], hislen) &&
        initialPose == (if old(initialPose).None? then Some(pose) else old(initialPose)) &&
        startedMission == (old(startedMission) ||
                           (old(initialPose).Some? && Farther(pose.position, old(initialPose).value.position, 5.0)))
    {
      var pose := node.agent.odometry;
      if initialPose.None? {
        initialPose := Some(pose);
      } else if !startedMission {
        if Farther(pose.position, initialPose.value.position, 5.0) {
          startedMission := true;
        }
      }
      history := history + [pose];
      if |history| > hislen {
        history := history[|history| - hislen..];
      }
    }

    /**
     * getStatus: every seventh call clears the suffix; the status shown is the
     * agent's with the suffix, if any, after "+++".
     */
    method GetStatus() returns (status: string)
      modifies this`statusCount, act`newStatus
      ensures old(statusCount) > 5 ==> statusCount == 0 && act.newStatus == ""
      ensures old(statusCount) <= 5 ==> statusCount == old(statusCount) + 1 && act.newStatus == old(act.newStatus)
      ensures status == Shown(node.agent.status, act.newStatus)
    {
      if statusCount > 5 {
        act.newStatus := "";
        statusCount := 0;
      } else {
        statusCount := statusCount + 1;
      }
      if act.newStatus != "" {
        status := node.agent.status + "+++" + act.newStatus;
      } else {
        status := node.agent.status;
      }
    }

    // -------------------------------------------------------------------------
    // beaconCheck

    /**
     * At least minAnchorDist from the anchor, the planned drop survives the
     * beacons' check (Verdict).
     */
    predicate DropDue(turned: bool)
      reads this, node, node.agent
    {
      var pos := node.agent.odometry.position;
      !Closer(pos, anchorPos, minAnchorDist) &&
      Verdict(node.beacons, pos,
              PlanDrop(Farther(pos, anchorPos, maxAnchorDist), delayDrop, node.agent.atnode,
                       Turning(history, hislen, turnDetect, turned), maxAnchorDist, maxDist, junctionDist)).drop
    }

    /**
     * The in-comm part of beaconCheck: re-arm reverse drops and clear the lost
     * counter, then decide as the beacon monitor does, with a pending delay
     * absorbing one drop.
     */
    method InCommDecision(turned: bool) returns (deploy: bool, reason: string)
      modifies this`beaconCommLost, this`reverseDrop, this`delayDrop
      ensures beaconCommLost == 0 && reverseDrop == reverseDropEnable
      ensures deploy == (old(DropDue(turned)) && !old(delayDrop))
      ensures delayDrop == (old(delayDrop) && !old(DropDue(turned)))
      ensures var pos := node.agent.odometry.position;
        deploy ==> reason == Verdict(node.beacons, pos,
                     PlanDrop(Farther(pos, anchorPos, maxAnchorDist), old(delayDrop), node.agent.atnode,
                              Turning(history, hislen, turnDetect, turned), maxAnchorDist, maxDist, junctionDist)).reason
    {
      deploy, reason := false, "";
      beaconCommLost := 0;
      reverseDrop := reverseDropEnable;
      var pos := node.agent.odometry.position;
      if Closer(pos, anchorPos, minAnchorDist) {
        return;
      }
      var plan := PlanDrop(Farther(pos, anchorPos, maxAnchorDist), delayDrop, node.agent.atnode,
                           Turning(history, hislen, turnDetect, turned), maxAnchorDist, maxDist, junctionDist);
      var v := CheckDrop(node.beacons, pos, plan, Closer(pos, anchorPos, maxAnchorDist));
      if v.drop {
        if delayDrop {
          delayDrop := false;
        } else {
          deploy, reason := true, v.reason;
        }
      }
    }

    /** The in-comm part of beaconCheck: decide, then drop as DeployBeacon does when the decision says so. */
    method InCommCheck(turned: bool, placed: Point, now: int)
      requires Linked() && node.Valid()
      modifies this`beaconCommLost, this`reverseDrop, this`delayDrop
      modifies beh`mode, node`numBeacons, node`beacons, node.agent`status, node.agent`goal
      modifies act`useTraj, act`blacklist, act`blacklistUpdated, act`replan, act`newStatus, act`blacklistResetTime
      modifies act`stopStart, act`neighborWait, act`lastReplanTime
      ensures beaconCommLost == 0 && reverseDrop == reverseDropEnable
      ensures delayDrop == (old(delayDrop) && !old(DropDue(turned)))
      ensures old(DropDue(turned)) && !old(delayDrop) ==>
        beh.View() == DroppedFrom(old(beh.View()), old(act.StoppedInputs(startedMission, now)),
                                  old(act.Stopped(startedMission, now)), act.nearbyRobot, act.stopCheck,
                                  placed, stuck, plannerStatus) &&
        beh.mode == if FirstIdle(old(node.beacons)).Some? then old(beh.mode) else "Explore"
      ensures !(old(DropDue(turned)) && !old(delayDrop)) ==>
        beh.View() == old(beh.View()) && beh.mode == old(beh.mode) && unchanged(act)
    {
      ghost var v, i, s := beh.View(), act.StoppedInputs(startedMission, now), act.Stopped(startedMission, now);
      var deploy, reason := InCommDecision(turned);
      assert beh.View() == v && act.StoppedInputs(startedMission, now) == i && act.Stopped(startedMission, now) == s;
      if deploy {
        beh.DeployBeacon(placed, stuck, plannerStatus, startedMission, now);
      }
    }

    /**
     * The out-of-comm part of beaconCheck while reverse drops are armed: after
     * more than five cycles, go back to drop (Deploy mode) and remember where,
     * unless an earlier try lies within junctionDist, which disarms reverse
     * drops; the counter starts again.
     */
    method OutOfCommStep()
      requires reverseDrop && 0 <= beaconCommLost <= 5
      modifies this`beaconCommLost, this`reverseDrop, this`blBeacons, beh`mode
      ensures 0 <= beaconCommLost <= 5
      ensures var pos := node.agent.odometry.position;
        var tried := NearAny(old(blBeacons), pos, junctionDist);
        if old(beaconCommLost) < 5 then
          beaconCommLost == old(beaconCommLost) + 1 && reverseDrop && blBeacons == old(blBeacons) &&
          beh.mode == old(beh.mode)
        else
          beaconCommLost == 0 && reverseDrop == !tried &&
          blBeacons == (if tried then old(blBeacons) else old(blBeacons) + [pos]) &&
          beh.mode == if tried then old(beh.mode) else "Deploy"
    {
      beaconCommLost := beaconCommLost + 1;
      if beaconCommLost > 5 {
        var pos := node.agent.odometry.position;
        var tried := NearAnyScan(blBeacons, pos, junctionDist);
        if tried {
          reverseDrop := false;
        }
        if reverseDrop {
          beh.mode := "Deploy";
          blBeacons := blBeacons + [pos];
        }
        beaconCommLost := 0;
      }
    }

    /**
     * beaconCheck: with beacons left, drop one in comm when the decision says
     * so (DeployBeacon's effect on the registry), or count towards a reverse
     * drop out of comm, entering Deploy mode on the sixth cycle unless an
     * earlier try lies near. With none left nothing happens.
     */
    method BeaconCheck(turned: bool, placed: Point, now: int)
      requires Linked() && node.Valid() && 0 <= beaconCommLost <= 5
      modifies this`beaconCommLost, this`reverseDrop, this`delayDrop, this`blBeacons
      modifies beh`mode, node`numBeacons, node`beacons, node.agent`status, node.agent`goal
      modifies act`useTraj, act`blacklist, act`blacklistUpdated, act`replan, act`newStatus, act`blacklistResetTime
      modifies act`stopStart, act`neighborWait, act`lastReplanTime
      ensures 0 <= beaconCommLost <= 5
      ensures old(node.numBeacons) <= 0 ==>
        beaconCommLost == old(beaconCommLost) && reverseDrop == old(reverseDrop) && delayDrop == old(delayDrop) &&
        blBeacons == old(blBeacons) && node.beacons == old(node.beacons) && node.numBeacons == old(node.numBeacons) &&
        beh.mode == old(beh.mode) && node.agent.status == old(node.agent.status) &&
        node.agent.goal == old(node.agent.goal) && unchanged(act)
      ensures old(node.numBeacons) > 0 && node.base.incomm ==>
        beaconCommLost == 0 && reverseDrop == reverseDropEnable && blBeacons == old(blBeacons) &&
        delayDrop == (old(delayDrop) && !old(DropDue(turned)))
      ensures old(node.numBeacons) > 0 && node.base.incomm && old(DropDue(turned)) && !old(delayDrop) ==>
        beh.View() == DroppedFrom(old(beh.View()), old(act.StoppedInputs(startedMission, now)),
                                  old(act.Stopped(startedMission, now)), act.nearbyRobot, act.stopCheck,
                                  placed, stuck, plannerStatus) &&
        beh.mode == if FirstIdle(old(node.beacons)).Some? then old(beh.mode) else "Explore"
      ensures old(node.numBeacons) > 0 && node.base.incomm && !(old(DropDue(turned)) && !old(delayDrop)) ==>
        node.beacons == old(node.beacons) && node.numBeacons == old(node.numBeacons) && beh.mode == old(beh.mode) &&
        node.agent.status == old(node.agent.status) && node.agent.goal == old(node.agent.goal) && unchanged(act)
      ensures old(node.numBeacons) > 0 && !node.base.incomm ==>
        node.beacons == old(node.beacons) && node.numBeacons == old(node.numBeacons) && delayDrop == old(delayDrop) &&
        node.agent.status == old(node.agent.status) && node.agent.goal == old(node.agent.goal) && unchanged(act)
      ensures old(node.numBeacons) > 0 && !node.base.incomm && !old(reverseDrop) ==>
        beaconCommLost == old(beaconCommLost) && !reverseDrop && blBeacons == old(blBeacons) && beh.mode == old(beh.mode)
      ensures old(node.numBeacons) > 0 && !node.base.incomm && old(reverseDrop) && old(beaconCommLost) < 5 ==>
        beaconCommLost == old(beaconCommLost) + 1 && reverseDrop && blBeacons == old(blBeacons) && beh.mode == old(beh.mode)
      ensures old(node.numBeacons) > 0 && !node.base.incomm && old(reverseDrop) && old(beaconCommLost) == 5 ==>
        var pos := node.agent.odometry.position;
        var tried := NearAny(old(blBeacons), pos, junctionDist);
        beaconCommLost == 0 && reverseDrop == !tried &&
        blBeacons == (if tried then old(blBeacons) else old(blBeacons) + [pos]) &&
        beh.mode == (if tried then old(beh.mode) else "Deploy")
    {
      if node.numBeacons > 0 {
        if node.base.incomm {
          InCommCheck(turned, placed, now);
        } else if reverseDrop {
          OutOfCommStep();
        }
      }
    }

    /** artifactCheckReport: an unreported own artifact raises the report flag; nothing lowers it here. */
    method ArtifactCheckReport()
      modifies node`report
      ensures node.report == (old(node.report) || OwnPending(node.artifacts, node.id))
    {
      if !node.report {
        var pending := FindOwnPending(node.artifacts, node.id);
        if pending {
          node.report := true;
        }
      }
    }

    // -------------------------------------------------------------------------
    // The stuck block of run

    /** The stuck block runs once the mission has started, unless stopped or on an aerial robot ('A' in the id). */
    predicate Watching()
      reads this`startedMission, node.agent
    {
      startedMission && node.agent.status != "Stop" && 'A' !in node.id
    }

    /**
     * The stuck block of run: as the stuck monitor, with the robot's own
     * counter and candidates, and only while Watching.
     */
    method StuckCheck(now: int)
      requires act.stopCheck > 0 && stuck >= 0
      modifies this`stuck, this`blgoals, act`blacklist, act`blacklistResetTime, act`newStatus
      ensures stuck >= 0
      ensures !old(Watching()) ==>
        stuck == old(stuck) && blgoals == old(blgoals) && act.blacklist == old(act.blacklist) &&
        act.newStatus == old(act.newStatus)
      ensures old(Watching()) && |node.agent.goal.path| == 0 ==>
        stuck == old(stuck) && blgoals == old(blgoals) && act.blacklist == old(act.blacklist) &&
        act.newStatus == Noted(old(act.newStatus), "No Path")
      ensures old(Watching()) && |node.agent.goal.path| > 0 && |history| == hislen && hislen > 0 ==>
        var s1 := if Still(history) then old(stuck) + 1 else 0;
        var b1 := if Still(history) then old(blgoals) + [node.agent.goal.pose] else [];
        var c := if s1 >= act.stopCheck && s1 % act.stopCheck == 0
                 then Commit(b1, hislen, act.deconflictRadius) else None;
        stuck == s1 &&
        blgoals == (if c.Some? then [] else b1) &&
        (c.None? ==> act.blacklist == old(act.blacklist)) &&
        (c.Some? ==> act.blacklist == if NearAny(old(act.blacklist), c.value, act.deconflictRadius)
                                      then old(act.blacklist) else old(act.blacklist) + [c.value]) &&
        act.newStatus == if s1 >= act.stopCheck then Noted(old(act.newStatus), "Stuck") else old(act.newStatus)
      ensures old(Watching()) && |node.agent.goal.path| > 0 && !(|history| == hislen && hislen > 0) ==>
        stuck == old(stuck) && blgoals == old(blgoals) && act.blacklist == old(act.blacklist) &&
        act.newStatus == old(act.newStatus)
    {
      if Watching() {
        if |node.agent.goal.path| > 0 && |history| == hislen && hislen > 0 {
          if Still(history) {
            stuck := stuck + 1;
            blgoals := blgoals + [node.agent.goal.pose];
          } else {
            stuck := 0;
            blgoals := [];
          }
          if stuck >= act.stopCheck {
            if stuck % act.stopCheck == 0 {
              var c := CommitPoint(blgoals, hislen, act.deconflictRadius);
              if c.Some? {
                act.AddBlacklist(c.value, now);
                blgoals := [];
              }
            }
            act.UpdateStatus("Stuck");
          }
        } else if |node.agent.goal.path| == 0 {
          act.UpdateStatus("No Path");
        }
      }
    }

    // -------------------------------------------------------------------------
    // GUI commands, neighbours, report gate, mode dispatch

    /**
     * The GUI block of run: an accepted "task" command sets the mode (a Deploy
     * drops a beacon at once and skips this run's beacon check); any accepted
     * command is consumed.
     */
    method GuiTask(placed: Point, now: int) returns (checkBeacon: bool)
      requires Linked() && node.Valid()
      modifies node.agent`guiAccept, beh`mode, node`numBeacons, node`beacons, node.agent`status, node.agent`goal
      modifies act`useTraj, act`blacklist, act`blacklistUpdated, act`replan, act`newStatus, act`blacklistResetTime
      modifies act`stopStart, act`neighborWait, act`lastReplanTime
      ensures !node.agent.guiAccept
      ensures var task := old(node.agent.guiAccept) && node.agent.guiTaskName == "task";
        var deploy := task && node.agent.guiTaskValue == "Deploy";
        checkBeacon == !deploy &&
        beh.mode == (if task then ModeFor(node.agent.guiTaskValue, old(beh.mode)) else old(beh.mode)) &&
        (!deploy ==> node.beacons == old(node.beacons) && node.numBeacons == old(node.numBeacons) &&
                     node.agent.status == old(node.agent.status) && node.agent.goal == old(node.agent.goal) &&
                     unchanged(act)) &&
        (deploy ==> beh.View() == DroppedFrom(old(beh.View()), old(act.StoppedInputs(startedMission, now)),
                                  old(act.Stopped(startedMission, now)), act.nearbyRobot, act.stopCheck,
                                  placed, stuck, plannerStatus))
    {
      checkBeacon := true;
      if node.agent.guiAccept {
        if node.agent.guiTaskName == "task" {
          var value := node.agent.guiTaskValue;
          if value == "Explore" || value == "Start" {
            beh.mode := "Explore";
          } else if value == "Home" {
            beh.mode := "Home";
          } else if value == "Stop" {
            beh.mode := "Stop";
          } else if value == "Goal" {
            beh.mode := "Goal";
          } else if value == "Deploy" {
            GuiDeploy(placed, now);
            checkBeacon := false;
          }
        }
        node.agent.guiAccept := false;
      }
    }

    /** The GUI's Deploy: drop as DeployBeacon does, then explore. */
    method GuiDeploy(placed: Point, now: int)
      requires Linked() && node.Valid()
      modifies beh`mode, node`numBeacons, node`beacons, node.agent`status, node.agent`goal
      modifies act`useTraj, act`blacklist, act`blacklistUpdated, act`replan, act`newStatus, act`blacklistResetTime
      modifies act`stopStart, act`neighborWait, act`lastReplanTime
      ensures beh.mode == "Explore"
      ensures beh.View() == DroppedFrom(old(beh.View()), old(act.StoppedInputs(startedMission, now)),
                                        old(act.Stopped(startedMission, now)), act.nearbyRobot, act.stopCheck,
                                        placed, stuck, plannerStatus)
    {
      beh.DeployBeacon(placed, stuck, plannerStatus, startedMission, now);
      beh.mode := "Explore";
    }

    /** The neighbour count run publishes: those heard within 30 comm thresholds of `now`. */
    method CountNeighbors(now: int) returns (count: nat)
      ensures count == Heard(node.neighbors, NeighborCheck(now, node.commThreshold))
    {
      var check := NeighborCheck(now, node.commThreshold);
      var ns := node.neighbors;
      count := 0;
      var i := 0;
      while i < |ns|
        invariant 0 <= i <= |ns|
        invariant count == Heard(ns[..i], check)
      {
        assert ns[..i + 1][..i] == ns[..i];
        if ns[i].lastMessage > check {
          count := count + 1;
        }
        i := i + 1;
      }
      assert ns[..i] == ns;
    }

    /**
     * The report gate of run: once the run is solo or the base holds this
     * robot's report hash, the report ends and every artifact is marked
     * reported; while it is not, the report is held.
     */
    method ReportGate() returns (held: bool)
      modifies node`report, node`artifacts
      ensures var ack := node.solo || node.base.lastArtifact == node.agent.lastArtifact;
        held == (old(node.report) && !ack) && node.report == held &&
        node.artifacts == if old(node.report) && ack then AllReported(old(node.artifacts)) else old(node.artifacts)
    {
      held := false;
      if node.report {
        if node.solo || node.base.lastArtifact == node.agent.lastArtifact {
          node.report := false;
          node.artifacts := MarkReported(node.artifacts);
        } else {
          held := true;
        }
      }
    }

    /**
     * The Deploy branch of run. In comm, wait more than five cycles, then drop
     * (unless an active beacon is within junctionDist) and go back to
     * Explore; out of comm, note it and head home (setGoalPoint) with the
     * counter cleared.
     */
    method DeployMode(placed: Point, now: int)
      requires Linked() && node.Valid() && 0 <= regainBase <= 6
      modifies this`regainBase, beh`mode, node`numBeacons, node`beacons, node.agent`status, node.agent`goal
      modifies act`useTraj, act`blacklist, act`blacklistUpdated, act`replan, act`newStatus, act`blacklistResetTime
      modifies act`stopStart, act`neighborWait, act`lastReplanTime
      modifies act`paused, act`trajOn, act`guiBehavior, act`exploreToGoal, act`lastGoalTime
      ensures 0 <= regainBase <= 6
      ensures !old(node.base.incomm) ==>
        regainBase == 0 && beh.mode == old(beh.mode) &&
        node.beacons == old(node.beacons) && node.numBeacons == old(node.numBeacons) &&
        act.GoalPointSet("Home", Noted(old(act.newStatus), "Regain comms deploy"), stuck, plannerStatus,
                         startedMission, now)
      ensures old(node.base.incomm) && old(regainBase) <= 5 ==>
        regainBase == old(regainBase) + 1 && beh.mode == old(beh.mode) &&
        node.beacons == old(node.beacons) && node.numBeacons == old(node.numBeacons) &&
        node.agent.status == old(node.agent.status) && node.agent.goal == old(node.agent.goal) && unchanged(act)
      ensures old(node.base.incomm) && old(regainBase) > 5 ==>
        regainBase == 0 && beh.mode == "Explore" &&
        (old(DistCheckOf(node.beacons, node.agent.odometry.position, junctionDist, true)).drop ==>
          beh.View() == DroppedFrom(old(beh.View()), old(act.StoppedInputs(startedMission, now)),
                                      old(act.Stopped(startedMission, now)), act.nearbyRobot, act.stopCheck,
                                      placed, stuck, plannerStatus)) &&
        (!old(DistCheckOf(node.beacons, node.agent.odometry.position, junctionDist, true)).drop ==>
          beh.View() == old(beh.View()) && unchanged(act))
    {
      if node.base.incomm {
        if regainBase > 5 {
          DropIfClear(placed, now);
          beh.mode := "Explore";
          regainBase := 0;
        } else {
          regainBase := regainBase + 1;
        }
      } else {
        regainBase := 0;
        act.RegainHome(stuck, plannerStatus, startedMission, now);
      }
    }

    /** Drop as DeployBeacon does unless an active beacon is within junctionDist. */
    method DropIfClear(placed: Point, now: int)
      requires Linked() && node.Valid()
      modifies beh`mode, node`numBeacons, node`beacons, node.agent`status, node.agent`goal
      modifies act`useTraj, act`blacklist, act`blacklistUpdated, act`replan, act`newStatus, act`blacklistResetTime
      modifies act`stopStart, act`neighborWait, act`lastReplanTime
      ensures old(DistCheckOf(node.beacons, node.agent.odometry.position, junctionDist, true)).drop ==>
        beh.View() == DroppedFrom(old(beh.View()), old(act.StoppedInputs(startedMission, now)),
                                      old(act.Stopped(startedMission, now)), act.nearbyRobot, act.stopCheck,
                                      placed, stuck, plannerStatus)
      ensures !old(DistCheckOf(node.beacons, node.agent.odometry.position, junctionDist, true)).drop ==>
        beh.View() == old(beh.View()) && unchanged(act)
    {
      ghost var v, i, s := beh.View(), act.StoppedInputs(startedMission, now), act.Stopped(startedMission, now);
      var dc := BeaconDistCheck(node.beacons, node.agent.odometry.position, junctionDist, true);
      assert beh.View() == v && act.StoppedInputs(startedMission, now) == i && act.Stopped(startedMission, now) == s;
      if dc.drop {
        beh.DeployBeacon(placed, stuck, plannerStatus, startedMission, now);
      }
    }

    /**
     * The mode dispatch of run, after the report gate: act on the mode and say
     * what the guidance layer is told, as Arbitrate orders it. A held report,
     * Home and a GUI goal not yet reached set the goal point (setGoalPoint
     * under 'Report', 'Home', 'guiCommand'); Stop stops (stop()); Deploy is
     * DeployMode; otherwise the robot explores (deconflictExplore), and
     * reaching the GUI goal resumes exploring.
     */
    method Dispatch(held: bool, placed: Point, now: int) returns (d: Directive)
      requires Linked() && node.Valid() && 0 <= regainBase <= 6
      modifies this`regainBase, beh`mode, node`numBeacons, node`beacons, node.agent`status, node.agent`goal
      modifies act`useTraj, act`blacklist, act`blacklistUpdated, act`replan, act`newStatus, act`blacklistResetTime
      modifies act`stopStart, act`neighborWait, act`lastReplanTime
      modifies act`paused, act`trajOn, act`guiBehavior, act`exploreToGoal, act`lastGoalTime
      ensures 0 <= regainBase <= 6
      ensures d == old(Arbitrate(held, beh.mode, node.base.incomm,
                                 Closer(node.agent.odometry.position, node.agent.guiGoalPoint.position, 1.0)))
      ensures held || old(beh.mode) != "Deploy" ==>
        node.beacons == old(node.beacons) && node.numBeacons == old(node.numBeacons) && regainBase == old(regainBase)
      ensures held ==>
        beh.mode == old(beh.mode) && act.GoalPointSet("Report", old(act.newStatus), stuck, plannerStatus, startedMission, now)
      ensures !held && old(beh.mode) != "Deploy" ==> ModeStepped(old(beh.mode), d, now)
      ensures !held && old(beh.mode) == "Deploy" && !old(node.base.incomm) ==>
        regainBase == 0 && beh.mode == "Deploy" &&
        node.beacons == old(node.beacons) && node.numBeacons == old(node.numBeacons) &&
        act.GoalPointSet("Home", Noted(old(act.newStatus), "Regain comms deploy"), stuck, plannerStatus,
                         startedMission, now)
      ensures !held && old(beh.mode) == "Deploy" && old(node.base.incomm) && old(regainBase) <= 5 ==>
        regainBase == old(regainBase) + 1 && beh.mode == "Deploy" &&
        node.beacons == old(node.beacons) && node.numBeacons == old(node.numBeacons) &&
        node.agent.status == old(node.agent.status) && node.agent.goal == old(node.agent.goal) && unchanged(act)
      ensures !held && old(beh.mode) == "Deploy" && old(node.base.incomm) && old(regainBase) > 5 ==>
        regainBase == 0 && beh.mode == "Explore" &&
        (old(DistCheckOf(node.beacons, node.agent.odometry.position, junctionDist, true)).drop ==>
          beh.View() == DroppedFrom(old(beh.View()), old(act.StoppedInputs(startedMission, now)),
                                      old(act.Stopped(startedMission, now)), act.nearbyRobot, act.stopCheck,
                                      placed, stuck, plannerStatus)) &&
        (!old(DistCheckOf(node.beacons, node.agent.odometry.position, junctionDist, true)).drop ==>
          beh.View() == old(beh.View()) && unchanged(act))
    {
      if held {
        act.SetGoalPoint("Report", stuck, plannerStatus, startedMission, now);
        d := HeadFor("Report");
      } else if beh.mode == "Deploy" {
        d := if node.base.incomm then Hold else HeadFor("Home");
        DeployMode(placed, now);
      } else {
        d := ModeStep(now);
      }
    }

    /**
     * What the modes other than Deploy do, from `mode`, having told the
     * guidance layer `d`: setGoalPoint under d's target, stop() (Halted), or
     * deconflictExplore with an arrived GUI goal turned back into Explore.
     */
    twostate predicate ModeStepped(mode: string, d: Directive, now: int)
      reads this`stuck, this`plannerStatus, this`startedMission, beh, node.agent, act, act.node.agent
    {
      (d.HeadFor? ==> beh.mode == mode &&
                      act.GoalPointSet(d.target, old(act.newStatus), stuck, plannerStatus, startedMission, now)) &&
      (d == Halt ==> beh.mode == mode && act.Halted(startedMission, now)) &&
      (d == Explore ==>
        beh.mode == (if mode == "Goal" then "Explore" else mode) &&
        act.stopStart && node.agent.status == "Explore" &&
        act.ChoiceNow() == DeconflictExplored(old(act.GoalInputsAt(now)), old(act.newStatus),
                                              old(act.blacklistResetTime), act.stopCheck, stuck, plannerStatus))
    }

    /** Home, Stop, Goal and Explore: as ModeStepped says, with `d` as Arbitrate orders it. */
    method ModeStep(now: int) returns (d: Directive)
      requires Linked() && node.Valid() && beh.mode != "Deploy"
      modifies beh`mode, node.agent`status, node.agent`goal
      modifies act`useTraj, act`blacklist, act`blacklistUpdated, act`replan, act`newStatus, act`blacklistResetTime
      modifies act`stopStart, act`neighborWait, act`lastReplanTime
      modifies act`paused, act`trajOn, act`guiBehavior, act`exploreToGoal, act`lastGoalTime
      ensures d == old(Arbitrate(false, beh.mode, node.base.incomm,
                                 Closer(node.agent.odometry.position, node.agent.guiGoalPoint.position, 1.0)))
      ensures ModeStepped(old(beh.mode), d, now)
    {
      var atGuiGoal := Closer(node.agent.odometry.position, node.agent.guiGoalPoint.position, 1.0);
      if beh.mode == "Stop" {
        d := Halt;
        act.Stop(startedMission, now);
      } else if beh.mode == "Home" || (beh.mode == "Goal" && !atGuiGoal) {
        var reason := if beh.mode == "Home" then "Home" else "guiCommand";
        d := HeadFor(reason);
        act.SetGoalPoint(reason, stuck, plannerStatus, startedMission, now);
      } else {
        d := Explore;
        ExploreStep(now);
      }
    }

    /** deconflictExplore, with an arrived GUI goal turned back into Explore. */
    method ExploreStep(now: int)
      requires Linked()
      modifies beh`mode, act`stopStart, node.agent`status, node.agent`goal
      modifies act`useTraj, act`blacklist, act`blacklistUpdated, act`replan, act`newStatus, act`blacklistResetTime
      ensures beh.mode == if old(beh.mode) == "Goal" then "Explore" else old(beh.mode)
      ensures act.stopStart && node.agent.status == "Explore"
      ensures act.ChoiceNow() == DeconflictExplored(old(act.GoalInputsAt(now)), old(act.newStatus),
                                                    old(act.blacklistResetTime), act.stopCheck, stuck, plannerStatus)
    {
      beh.DeconflictExplore(stuck, plannerStatus, now);
      if beh.mode == "Goal" {
        beh.mode := "Explore";
      }
    }

    // -------------------------------------------------------------------------
    // Aerial map ignore

    /**
     * The last block of run: an aerial robot not yet launched asks everyone to
     * ignore its maps; once launched it withdraws that request. Each edge
     * stamps the reset with `now`, names the robot, targets robots, and
     * refreshes the GUI stamp.
     */
    method AerialCheck(now: int)
      modifies node.agent`reset, node.agent`guiStamp
      ensures var r := old(node.agent.reset);
        if isAerial && !launchStatus && !r.ignore then
          node.agent.reset == r.(stamp := now, agent := node.id, ignore := true, robots := true) &&
          node.agent.guiStamp == now
        else if isAerial && launchStatus && r.ignore then
          node.agent.reset == r.(stamp := now, agent := node.id, ignore := false, robots := true) &&
          node.agent.guiStamp == now
        else
          node.agent.reset == r && node.agent.guiStamp == old(node.agent.guiStamp)
      ensures isAerial ==> node.agent.reset.ignore == !launchStatus
    {
      var r := node.agent.reset;
      if isAerial && !launchStatus && !r.ignore {
        node.agent.reset := r.(stamp := now, agent := node.id, ignore := true, robots := true);
        node.agent.guiStamp := now;
      } else if isAerial && launchStatus && r.ignore {
        node.agent.reset := r.(stamp := now, agent := node.id, ignore := false, robots := true);
        node.agent.guiStamp := now;
      }
    }
  }
}
