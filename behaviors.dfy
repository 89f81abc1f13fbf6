/**
 * The behaviours a robot runs (src/behaviors.py; src/robot.py carries the
 * same two methods): dropping the next beacon it carries, and exploring with
 * goal deconfliction and the trajectory-follower fallback.
 *
 * The robot's mode lives here because the drop writes it. The stuck counter
 * and the planner's status belong to the robot and are parameters. The
 * service calls, sleeps and the placement offset computed from the yaw are
 * not modelled: the position the beacon ends up at is the input `placed`.
 */
module Behaviors {
  import opened Helpers
  import opened Containers
  import opened Bobcat
  import opened Beacons
  import opened Actions

  /**
   * The trajectory-follower step from the goal-choice state `c`: when
   * `follow`, note it and head for the planner's goal (`explore` along
   * `path`), and blacklist the path's end when the planner has failed, the
   * robot at `pos` is within 1 of it and it is not already within `radius` of
   * a blacklisted point (the reset timer starts at the first entry).
   */
  function FollowedChoice(c: Choice, follow: bool, explore: Point, path: seq<Point>, pos: Point, radius: real,
                          plannerOk: bool, now: int): (r: Choice)
    ensures !follow ==> r == c
    ensures r.useTraj == c.useTraj && r.blacklistUpdated == c.blacklistUpdated && r.replan == c.replan
    ensures follow ==> r.goal.pose == explore && r.goal.path == path && Contains(r.newStatus, "Following Trajectory")
    ensures r.blacklist == c.blacklist || (follow && !plannerOk && r.blacklist == c.blacklist + [PathEnd(r.goal)])
  {
    if !follow then c
    else
      var goal := c.goal.(pose := explore, path := path);
      var tail := PathEnd(goal);
      var add := |goal.path| > 0 && !plannerOk && Closer(tail, pos, 1.0) && !NearAny(c.blacklist, tail, radius);
      c.(goal := goal, newStatus := Noted(c.newStatus, "Following Trajectory"),
         blacklist := if add then c.blacklist + [tail] else c.blacklist,
         blacklistResetTime := if add && c.blacklist == [] then now + 20 else c.blacklistResetTime)
  }

  /**
   * What deconflictExplore leaves, from deconflictGoals' inputs `i`, the
   * status suffix `ns` and the blacklist reset time `brt`: the goal as
   * deconflictGoals chooses it, then the follower step exactly when that
   * choice asks for the follower, or the planner has failed and the robot is
   * stuck for more than `stopCheck` cycles or within 1 of the chosen goal.
   */
  function DeconflictExplored(i: GoalInputs, ns: string, brt: int, stopCheck: int, stuck: int, plannerOk: bool): Choice
  {
    var o := Deconflict(i);
    var follow := o.useTraj || (!plannerOk && (stuck > stopCheck || Closer(o.goal.pose, i.position, 1.0)));
    FollowedChoice(Choice(o.goal, o.useTraj, o.blacklist, o.blacklistUpdated, o.replan, NotedAll(ns, o.notes), brt),
                   follow, i.explore, i.explorePath, i.position, i.radius, plannerOk, i.now)
  }

  /** What a drop writes: the beacons, the count, the status, the stop and wait state and the goal choice. */
  datatype DropView = DropView(beacons: seq<Beacon>, numBeacons: int, status: string, stopStart: bool,
                               neighborWait: int, lastReplanTime: int, choice: Choice)

  /**
   * The drop from `v`, where stop() leaves the goal inputs `i` and the
   * replan state `s` (`nearby`: a robot is near). With an idle beacon `k`
   * (the first this robot carries and has not dropped): beacon `k` is down
   * at `placed`, one fewer is carried, the wait grows when a robot is near,
   * the robot reported 'Deploy' and resumed exploring from what stop() left
   * (DeconflictExplored). With none, the count becomes 0 and nothing else
   * changes.
   */
  function DroppedFrom(v: DropView, i: GoalInputs, s: Replanning, nearby: bool, stopCheck: int,
                       placed: Point, stuck: int, plannerOk: bool): DropView
  {
    match FirstIdle(v.beacons)
    case Some(k) =>
      DropView(Deploy(v.beacons, k, placed), v.numBeacons - 1, "Explore", true,
               v.neighborWait + (if nearby then 1 else 0), s.lastReplanTime,
               DeconflictExplored(i, s.newStatus, v.choice.blacklistResetTime, stopCheck, stuck, plannerOk))
    case None => v.(numBeacons := 0)
  }

  class Behaviors {
    const node: Node
    const act: Actions
    var mode: string

    constructor(n: Node, a: Actions)
      requires a.node == n
      ensures node == n && act == a && mode == "Explore"
    {
      node, act := n, a;
      mode := "Explore";
    }

    /**
     * The trajectory-follower half of deconflictExplore: when the follower is
     * called for, note it, head for the planner's goal along its path, and
     * blacklist the path's end when the planner has failed and the robot is
     * within 1 of it.
     */
    method FollowStep(stuck: int, plannerOk: bool, now: int)
      requires act.node == node
      modifies node.agent`goal, act`newStatus, act`blacklist, act`blacklistResetTime
      ensures act.ChoiceNow() == FollowedChoice(old(act.ChoiceNow()), old(act.FollowTrajectory(stuck, plannerOk)),
                                                node.agent.exploreGoal, node.agent.explorePath,
                                                node.agent.odometry.position, act.deconflictRadius, plannerOk, now)
    {
      if act.FollowTrajectory(stuck, plannerOk) {
        act.UpdateStatus("Following Trajectory");
        act.UpdateGoalPath();
        var goal := node.agent.goal;
        if |goal.path| > 0 {
          var tail := goal.path[|goal.path| - 1];
          if !plannerOk && Closer(tail, node.agent.odometry.position, 1.0) {
            act.AddBlacklist(tail, now);
          }
        }
      }
    }

    /** deconflictExplore: report "Explore", then the goal as DeconflictExplored says. */
    method DeconflictExplore(stuck: int, plannerOk: bool, now: int)
      requires act.node == node
      modifies act`stopStart, node.agent`status, node.agent`goal
      modifies act`useTraj, act`blacklist, act`blacklistUpdated, act`replan, act`newStatus, act`blacklistResetTime
      ensures act.stopStart && node.agent.status == "Explore"
      ensures act.ChoiceNow() == DeconflictExplored(old(act.GoalInputsAt(now)), old(act.newStatus),
                                                    old(act.blacklistResetTime), act.stopCheck, stuck, plannerOk)
    {
      ghost var i, ns, brt := act.GoalInputsAt(now), act.newStatus, act.blacklistResetTime;
      Announce("Explore");
      assert act.GoalInputsAt(now) == i;
      ghost var o := Deconflict(i);
      act.DeconflictGoals(now);
      assert act.ChoiceNow() == Choice(o.goal, o.useTraj, o.blacklist, o.blacklistUpdated, o.replan, NotedAll(ns, o.notes), brt);
      assert act.FollowTrajectory(stuck, plannerOk) <==>
             o.useTraj || (!plannerOk && (stuck > act.stopCheck || Closer(o.goal.pose, node.agent.odometry.position, 1.0)));
      FollowStep(stuck, plannerOk, now);
      assert act.ChoiceNow() == DeconflictExplored(i, ns, brt, act.stopCheck, stuck, plannerOk);
    }

    /** Set the stop flag and report `status`. */
    method Announce(status: string)
      modifies act`stopStart, node.agent`status
      ensures act.stopStart && node.agent.status == status
    {
      act.stopStart := true;
      node.agent.status := status;
    }

    /** The part of the robot's state deployBeacon writes, besides the mode. */
    function View(): DropView
      reads node`beacons, node`numBeacons, node.agent`status
      reads act`stopStart, act`useTraj, act`blacklist, act`blacklistUpdated, act`replan, act`newStatus
      reads act`blacklistResetTime, act`neighborWait, act`lastReplanTime, act.node.agent`goal
    {
      DropView(node.beacons, node.numBeacons, node.agent.status, act.stopStart, act.neighborWait, act.lastReplanTime,
               act.ChoiceNow())
    }

    /**
     * deployBeacon: drop the next beacon as DroppedFrom says, from the state
     * stop() leaves, keeping the mode; with none left the count was stale,
     * and the mode becomes Explore.
     */
    method DeployBeacon(placed: Point, stuck: int, plannerOk: bool, startedMission: bool, now: int)
      requires act.node == node && node.Valid()
      modifies node`numBeacons, node`beacons, this`mode, act`stopStart, node.agent`status, node.agent`goal
      modifies act`useTraj, act`blacklist, act`blacklistUpdated, act`replan, act`newStatus, act`blacklistResetTime
      modifies act`neighborWait, act`lastReplanTime
      ensures View() == DroppedFrom(old(View()), old(act.StoppedInputs(startedMission, now)),
                                    old(act.Stopped(startedMission, now)), act.nearbyRobot, act.stopCheck,
                                    placed, stuck, plannerOk)
      ensures mode == if FirstIdle(old(node.beacons)).Some? then old(mode) else "Explore"
    {
      ghost var i, s := act.StoppedInputs(startedMission, now), act.Stopped(startedMission, now);
      var k := FindIdle(node.beacons);
      assert act.StoppedInputs(startedMission, now) == i && act.Stopped(startedMission, now) == s;
      if k.Some? {
        DeployAt(k.value, placed, stuck, plannerOk, startedMission, now);
      } else {
        node.numBeacons := 0;
        mode := "Explore";
      }
    }

    /** The drop of beacon `k`, as DeployBeacon's first case says. */
    method DeployAt(k: nat, placed: Point, stuck: int, plannerOk: bool, startedMission: bool, now: int)
      requires act.node == node && node.Valid() && k < |node.beacons|
      modifies node`numBeacons, node`beacons, act`stopStart, node.agent`status, node.agent`goal
      modifies act`useTraj, act`blacklist, act`blacklistUpdated, act`replan, act`newStatus, act`blacklistResetTime
      modifies act`neighborWait, act`lastReplanTime
      ensures node.beacons == Deploy(old(node.beacons), k, placed) && node.numBeacons == old(node.numBeacons) - 1
      ensures act.stopStart && node.agent.status == "Explore"
      ensures act.neighborWait == old(act.neighborWait) + (if act.nearbyRobot then 1 else 0)
      ensures act.lastReplanTime == old(act.Stopped(startedMission, now)).lastReplanTime
      ensures act.ChoiceNow() == DeconflictExplored(old(act.StoppedInputs(startedMission, now)),
                                                    old(act.Stopped(startedMission, now)).newStatus,
                                                    old(act.blacklistResetTime), act.stopCheck, stuck, plannerOk)
    {
      StopAndResume(stuck, plannerOk, startedMission, now);
      node.numBeacons := node.numBeacons - 1;
      node.beacons := Deploy(node.beacons, k, placed);
    }

    /** The robot's side of a drop: stop(), report 'Deploy', then deconflictExplore. */
    method StopAndResume(stuck: int, plannerOk: bool, startedMission: bool, now: int)
      requires act.node == node && node.Valid()
      modifies act`stopStart, node.agent`status, node.agent`goal
      modifies act`useTraj, act`blacklist, act`blacklistUpdated, act`replan, act`newStatus, act`blacklistResetTime
      modifies act`neighborWait, act`lastReplanTime
      ensures act.stopStart && node.agent.status == "Explore"
      ensures act.neighborWait == old(act.neighborWait) + (if act.nearbyRobot then 1 else 0)
      ensures act.lastReplanTime == old(act.Stopped(startedMission, now)).lastReplanTime
      ensures act.ChoiceNow() == DeconflictExplored(old(act.StoppedInputs(startedMission, now)),
                                                    old(act.Stopped(startedMission, now)).newStatus,
                                                    old(act.blacklistResetTime), act.stopCheck, stuck, plannerOk)
    {
      ghost var i, s, brt := act.StoppedInputs(startedMission, now), act.Stopped(startedMission, now), act.blacklistResetTime;
      Halt(startedMission, now);
      assert act.blacklistResetTime == brt;
      DropAndResume(stuck, plannerOk, now);
      assert act.ChoiceNow() == DeconflictExplored(i, s.newStatus, brt, act.stopCheck, stuck, plannerOk);
    }

    /** Report 'Deploy' while the beacon goes down, then deconflictExplore. */
    method DropAndResume(stuck: int, plannerOk: bool, now: int)
      requires act.node == node
      modifies act`stopStart, node.agent`status, node.agent`goal
      modifies act`useTraj, act`blacklist, act`blacklistUpdated, act`replan, act`newStatus, act`blacklistResetTime
      ensures act.stopStart && node.agent.status == "Explore"
      ensures act.ChoiceNow() == DeconflictExplored(old(act.GoalInputsAt(now)), old(act.newStatus),
                                                    old(act.blacklistResetTime), act.stopCheck, stuck, plannerOk)
    {
      ghost var i, ns, brt := act.GoalInputsAt(now), act.newStatus, act.blacklistResetTime;
      node.agent.status := "Deploy";
      assert act.GoalInputsAt(now) == i;
      DeconflictExplore(stuck, plannerOk, now);
    }

    /** The stop() before a drop, leaving deconflictGoals' inputs as StoppedInputs says. */
    method Halt(startedMission: bool, now: int)
      requires act.node == node && node.Valid()
      modifies node.agent`status, act`newStatus, act`neighborWait, act`replan, act`lastReplanTime
      modifies act`stopStart, node.agent`goal
      ensures act.GoalInputsAt(now) == old(act.StoppedInputs(startedMission, now))
      ensures act.neighborWait == old(act.neighborWait) + (if act.nearbyRobot then 1 else 0)
      ensures var s := old(act.Stopped(startedMission, now));
        act.newStatus == s.newStatus && act.lastReplanTime == s.lastReplanTime
    {
      ghost var i := act.StoppedInputs(startedMission, now);
      act.Stop(startedMission, now);
      assert node.agent !in node.neighbors;
      assert act.GoalInputsAt(now) == i;
    }
  }
}
