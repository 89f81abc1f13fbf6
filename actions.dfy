/**
 * The actions a behaviour-based robot takes (src/actions.py): the status
 * suffix, the goal blacklist, the two-phase beacon drop, goal deconfliction
 * against neighbours and the trajectory-follower fallback.
 *
 * The Python mixin reads and writes attributes that other mixins own. Here the
 * node's registries (beacons, numBeacons, the own agent record, neighbours)
 * are reached through `node`, and the flags that both the monitors and the
 * actions write (deployBeacon, dropReason, guiBehavior, newStatus) live in
 * Actions, which the monitors refer to. Values the monitors own and the
 * actions only read (stuck, planner_status, startedMission) are parameters.
 * Python's False/None for a string attribute is the empty string.
 */
module Actions {
  import opened Helpers
  import opened Containers
  import opened Bobcat
  import opened Beacons

  // ---------------------------------------------------------------------------
  // Status suffix

  /**
   * updateStatus: a status not yet mentioned is appended after "+++"; with no
   * suffix, or one already mentioning it, the suffix becomes just that status.
   * Either way the status is mentioned afterwards (checkStatus holds).
   */
  function Noted(ns: string, s: string): (r: string)
    ensures s != "" ==> r != "" && Contains(r, s)
    ensures ns != "" && !Contains(ns, s) ==> |ns| < |r| && r[..|ns|] == ns
    ensures ns == "" || Contains(ns, s) ==> r == s
  {
    if ns != "" && !Contains(ns, s) then
      ContainsSuffix(ns + "+++", s);
      ns + "+++" + s
    else
      ContainsSelf(s);
      s
  }

  /** The suffix after several updateStatus calls in turn. */
  function NotedAll(ns: string, ss: seq<string>): string
  {
    if |ss| == 0 then ns else Noted(NotedAll(ns, ss[..|ss| - 1]), ss[|ss| - 1])
  }

  // ---------------------------------------------------------------------------
  // Blacklist and goal conflicts

  /** Blacklist points are pairwise at least `r` apart. */
  predicate Apart(bl: seq<Point>, r: real)
  {
    forall i, j :: 0 <= i < j < |bl| ==> !Closer(bl[i], bl[j], r)
  }

  /** addBlacklist keeps the blacklist spread out: it only adds a point clear of all others. */
  lemma AddKeepsApart(bl: seq<Point>, g: Point, r: real)
    requires Apart(bl, r) && !NearAny(bl, g, r)
    ensures Apart(bl + [g], r)
  {
    var nb := bl + [g];
    forall i, j | 0 <= i < j < |nb|
      ensures !Closer(nb[i], nb[j], r)
    {
      if j == |bl| {
        assert nb[i] == bl[i] && nb[j] == g;
      } else {
        assert nb[i] == bl[i] && nb[j] == bl[j];
      }
    }
  }

  /** What deconflictGoals reads of a neighbour: when it last spoke, its goal, where it is. */
  datatype Rival = Rival(lastMessage: int, goal: Goal, position: Point)

  /** The neighbours as deconflictGoals sees them. */
  function RivalsOf(ns: seq<Agent>): (r: seq<Rival>)
    reads ns`lastMessage, ns`goal, ns`odometry
    ensures |r| == |ns|
    ensures forall j :: 0 <= j < |ns| ==> r[j] == Rival(ns[j].lastMessage, ns[j].goal, ns[j].odometry.position)
  {
    if |ns| == 0 then []
    else RivalsOf(ns[..|ns| - 1]) + [Rival(ns[|ns| - 1].lastMessage, ns[|ns| - 1].goal, ns[|ns| - 1].odometry.position)]
  }

  /** A neighbour heard from within the last 15 seconds. */
  predicate Fresh(v: Rival, now: int)
  {
    now <= v.lastMessage + 15
  }

  /** A current neighbour's goal is within `r` of `g` and cheaper than it. */
  predicate Contested(g: Goal, rs: seq<Rival>, r: real, now: int)
  {
    exists j :: 0 <= j < |rs| && Fresh(rs[j], now) && Closer(g.pose, rs[j].goal.pose, r) && g.cost > rs[j].goal.cost
  }

  /**
   * The single-goal test: a current neighbour's goal is within `r` of `p` and
   * the neighbour is nearer to its goal than this robot (at `pos`) is to `p`.
   */
  predicate Crowded(p: Point, pos: Point, rs: seq<Rival>, r: real, now: int)
  {
    exists j :: 0 <= j < |rs| && Fresh(rs[j], now) && Closer(p, rs[j].goal.pose, r) &&
                DistSq(p, pos) > DistSq(rs[j].goal.pose, rs[j].position)
  }

  method ScanRivals(g: Goal, rs: seq<Rival>, r: real, now: int) returns (hit: bool)
    ensures hit == Contested(g, rs, r, now)
  {
    var j := 0;
    while j < |rs|
      invariant 0 <= j <= |rs|
      invariant forall k :: 0 <= k < j ==> !(Fresh(rs[k], now) && Closer(g.pose, rs[k].goal.pose, r) && g.cost > rs[k].goal.cost)
    {
      if Fresh(rs[j], now) && Closer(g.pose, rs[j].goal.pose, r) && g.cost > rs[j].goal.cost {
        return true;
      }
      j := j + 1;
    }
    return false;
  }

  method ScanCrowd(p: Point, pos: Point, rs: seq<Rival>, r: real, now: int) returns (hit: bool)
    ensures hit == Crowded(p, pos, rs, r, now)
  {
    hit := false;
    var j := 0;
    while j < |rs|
      invariant 0 <= j <= |rs|
      invariant hit <==> exists k :: 0 <= k < j && Fresh(rs[k], now) && Closer(p, rs[k].goal.pose, r) &&
                                     DistSq(p, pos) > DistSq(rs[k].goal.pose, rs[k].position)
    {
      if Fresh(rs[j], now) && Closer(p, rs[j].goal.pose, r) && DistSq(p, pos) > DistSq(rs[j].goal.pose, rs[j].position) {
        hit := true;
      }
      j := j + 1;
    }
  }

  /** A candidate goal neither blacklisted nor contested. */
  predicate Clear(g: Goal, bl: seq<Point>, rs: seq<Rival>, r: real, now: int)
  {
    !NearAny(bl, g.pose, r) && !Contested(g, rs, r, now)
  }

  /** The first candidate that is neither blacklisted nor contested. */
  function FirstClear(gs: seq<Goal>, bl: seq<Point>, rs: seq<Rival>, r: real, now: int): (k: Option<nat>)
    ensures k.Some? ==> k.value < |gs| && Clear(gs[k.value], bl, rs, r, now) &&
                        forall j :: 0 <= j < k.value ==> !Clear(gs[j], bl, rs, r, now)
    ensures k.None? ==> forall j :: 0 <= j < |gs| ==> !Clear(gs[j], bl, rs, r, now)
  {
    if |gs| == 0 then None
    else if Clear(gs[0], bl, rs, r, now) then Some(0)
    else match FirstClear(gs[1..], bl, rs, r, now)
      case Some(k) => Some(k + 1)
      case None => None
  }

  /** The first candidate that is not blacklisted. */
  function FirstFree(gs: seq<Goal>, bl: seq<Point>, r: real): (k: Option<nat>)
    ensures k.Some? ==> k.value < |gs| && !NearAny(bl, gs[k.value].pose, r) &&
                        forall j :: 0 <= j < k.value ==> NearAny(bl, gs[j].pose, r)
    ensures k.None? ==> forall j :: 0 <= j < |gs| ==> NearAny(bl, gs[j].pose, r)
  {
    if |gs| == 0 then None
    else if !NearAny(bl, gs[0].pose, r) then Some(0)
    else match FirstFree(gs[1..], bl, r)
      case Some(k) => Some(k + 1)
      case None => None
  }

  /** The first candidate within 0.5 of `p` (an updated path for the same goal). */
  function FirstNear(gs: seq<Goal>, p: Point): (k: Option<nat>)
    ensures k.Some? ==> k.value < |gs| && Closer(p, gs[k.value].pose, 0.5) &&
                        forall j :: 0 <= j < k.value ==> !Closer(p, gs[j].pose, 0.5)
    ensures k.None? ==> forall j :: 0 <= j < |gs| ==> !Closer(p, gs[j].pose, 0.5)
  {
    if |gs| == 0 then None
    else if Closer(p, gs[0].pose, 0.5) then Some(0)
    else match FirstNear(gs[1..], p)
      case Some(k) => Some(k + 1)
      case None => None
  }

  method FindNear(gs: seq<Goal>, p: Point) returns (k: Option<nat>)
    ensures k == FirstNear(gs, p)
  {
    var j := 0;
    while j < |gs|
      invariant 0 <= j <= |gs|
      invariant forall i :: 0 <= i < j ==> !Closer(p, gs[i].pose, 0.5)
    {
      if Closer(p, gs[j].pose, 0.5) {
        return Some(j);
      }
      j := j + 1;
    }
    return None;
  }

  /** The status note the multi-goal loop leaves for one candidate it rejects. */
  function NoteFor(g: Goal, bl: seq<Point>, rs: seq<Rival>, r: real, now: int): seq<string>
  {
    if NearAny(bl, g.pose, r) then ["Replanning Blacklist"]
    else if Contested(g, rs, r, now) then ["Replanning Neighbor"]
    else []
  }

  /** The notes for the candidates examined, in order. */
  function Notes(gs: seq<Goal>, bl: seq<Point>, rs: seq<Rival>, r: real, now: int): seq<string>
  {
    if |gs| == 0 then [] else Notes(gs[..|gs| - 1], bl, rs, r, now) + NoteFor(gs[|gs| - 1], bl, rs, r, now)
  }

  /** What the multi-goal loop ends with. */
  datatype Pick = Pick(conflict: bool, next: nat, good: Option<nat>, notes: seq<string>)

  /** One candidate of the multi-goal loop: is it blacklisted, is it ruled out, and the note left for it. */
  method Examine(g: Goal, bl: seq<Point>, rs: seq<Rival>, r: real, now: int)
    returns (blocked: bool, conflict: bool, note: seq<string>)
    ensures blocked == NearAny(bl, g.pose, r)
    ensures conflict == !Clear(g, bl, rs, r, now)
    ensures note == NoteFor(g, bl, rs, r, now)
  {
    blocked := NearAnyScan(bl, g.pose, r);
    conflict := blocked;
    note := if blocked then ["Replanning Blacklist"] else [];
    if !blocked {
      var contested := ScanRivals(g, rs, r, now);
      conflict := contested;
      if contested {
        note := ["Replanning Neighbor"];
      }
    }
  }

  /**
   * The multi-goal loop of deconflictGoals: examine candidates in order until
   * one is clear, remembering the first one that is not blacklisted.
   */
  method PickGoal(gs: seq<Goal>, bl: seq<Point>, rs: seq<Rival>, r: real, now: int) returns (p: Pick)
    ensures p.conflict <==> FirstClear(gs, bl, rs, r, now).None?
    ensures p.next <= |gs| && p.next == match FirstClear(gs, bl, rs, r, now) case Some(k) => k + 1 case None => |gs|
    ensures p.good == FirstFree(gs, bl, r)
    ensures p.notes == Notes(gs[..p.next], bl, rs, r, now)
  {
    var conflict := true;
    var i := 0;
    var good: Option<nat> := None;
    var notes: seq<string> := [];
    while conflict && i < |gs|
      invariant 0 <= i <= |gs|
      invariant forall j :: 0 <= j < i - 1 ==> !Clear(gs[j], bl, rs, r, now)
      invariant i == 0 ==> conflict
      invariant i > 0 ==> (conflict <==> !Clear(gs[i - 1], bl, rs, r, now))
      invariant good.Some? ==> good.value < i && !NearAny(bl, gs[good.value].pose, r) &&
                               forall j :: 0 <= j < good.value ==> NearAny(bl, gs[j].pose, r)
      invariant good.None? ==> forall j :: 0 <= j < i ==> NearAny(bl, gs[j].pose, r)
      invariant notes == Notes(gs[..i], bl, rs, r, now)
    {
      assert gs[..i + 1][..i] == gs[..i];
      var blocked, note;
      blocked, conflict, note := Examine(gs[i], bl, rs, r, now);
      if !blocked && good.None? {
        good := Some(i);
      }
      notes := notes + note;
      i := i + 1;
    }
    if conflict {
      FirstClearAt(gs, bl, rs, r, now, |gs|);
    } else {
      FirstClearAt(gs, bl, rs, r, now, i - 1);
    }
    if good.Some? {
      FirstFreeAt(gs, bl, r, good.value);
    } else {
      FirstFreeAt(gs, bl, r, |gs|);
    }
    p := Pick(conflict, i, good, notes);
  }

  /** Once every candidate before `k` is ruled out, FirstClear is `k` when it is clear, and none past the end. */
  lemma FirstClearAt(gs: seq<Goal>, bl: seq<Point>, rs: seq<Rival>, r: real, now: int, k: nat)
    requires k <= |gs|
    requires forall j :: 0 <= j < k ==> !Clear(gs[j], bl, rs, r, now)
    ensures k < |gs| && Clear(gs[k], bl, rs, r, now) ==> FirstClear(gs, bl, rs, r, now) == Some(k)
    ensures k == |gs| ==> FirstClear(gs, bl, rs, r, now) == None
  {
  }

  /** Once every candidate before `k` is blacklisted, FirstFree is `k` when it is free, and none past the end. */
  lemma FirstFreeAt(gs: seq<Goal>, bl: seq<Point>, r: real, k: nat)
    requires k <= |gs|
    requires forall j :: 0 <= j < k ==> NearAny(bl, gs[j].pose, r)
    ensures k < |gs| && !NearAny(bl, gs[k].pose, r) ==> FirstFree(gs, bl, r) == Some(k)
    ensures k == |gs| ==> FirstFree(gs, bl, r) == None
  {
  }

  // ---------------------------------------------------------------------------
  // deconflictGoals as a whole

  /** Everything deconflictGoals reads. */
  datatype GoalInputs = GoalInputs(
    goals: seq<Goal>, current: Goal, position: Point, explore: Point, explorePath: seq<Point>,
    rivals: seq<Rival>, blacklist: seq<Point>, radius: real, mappingRange: real, single: bool,
    useTraj: bool, blacklistUpdated: string, replan: string, now: int)

  /** Everything deconflictGoals writes, and the status notes it leaves, in order. */
  datatype GoalOutcome = GoalOutcome(goal: Goal, useTraj: bool, blacklist: seq<Point>,
                                     blacklistUpdated: string, replan: string, notes: seq<string>)

  /** The goal-choice state of the actions object after a behaviour has run. */
  datatype Choice = Choice(goal: Goal, useTraj: bool, blacklist: seq<Point>, blacklistUpdated: string,
                           replan: string, newStatus: string, blacklistResetTime: int)

  /** The current goal is far off (and not the origin): keep going to it. */
  predicate LongGoal(i: GoalInputs)
  {
    Farther(i.position, i.explore, i.mappingRange) &&
    Farther(i.position, i.current.pose, i.mappingRange + 2.0) &&
    i.current.pose != Origin
  }

  /** The current goal with the frontier planner's goal and path (updateGoalPath). */
  function Explored(i: GoalInputs): Goal
  {
    i.current.(pose := i.explore, path := i.explorePath)
  }

  /** Where a goal's path ends, or the goal itself when it has no path. */
  function PathEnd(g: Goal): Point
  {
    if |g.path| > 0 then g.path[|g.path| - 1] else g.pose
  }

  /**
   * deconflictGoals. A far current goal that is not blacklisted is kept
   * (refreshed from a candidate within 0.5 of it). Otherwise: with
   * single-goal deconfliction the planner's goal is taken, noting a blacklist
   * or neighbour conflict for a replan; with no candidate the planner's goal,
   * with one candidate that one; with several, the first clear candidate, else
   * the first not blacklisted, else the planner's goal with the blacklist
   * emptied and the trajectory follower on. Without single-goal deconfliction,
   * zero or one candidates end with the trajectory follower on exactly when
   * the chosen goal or its path end is blacklisted.
   */
  function Deconflict(i: GoalInputs): GoalOutcome
  {
    if LongGoal(i) && !NearAny(i.blacklist, i.current.pose, i.radius) then
      var g := if |i.goals| == 0 then (if Closer(i.current.pose, i.explore, 0.5) then Explored(i) else i.current)
               else match FirstNear(i.goals, i.current.pose)
                 case Some(k) => i.goals[k]
                 case None => i.current;
      GoalOutcome(g, i.useTraj, i.blacklist, i.blacklistUpdated, i.replan, [])
    else
      var o :=
        if i.single && i.explore != Origin then
          var bu := if NearAny(i.blacklist, i.explore, i.radius) then "blacklist" else i.blacklistUpdated;
          var rp := if bu == "" && Crowded(i.explore, i.position, i.rivals, i.radius, i.now) then "neighbor" else i.replan;
          GoalOutcome(Explored(i), i.useTraj, i.blacklist, bu, rp, [])
        else if |i.goals| == 0 then
          GoalOutcome(Explored(i), i.useTraj, i.blacklist, i.blacklistUpdated, i.replan, [])
        else if |i.goals| == 1 then
          GoalOutcome(i.goals[0], i.useTraj, i.blacklist, i.blacklistUpdated, i.replan, [])
        else
          match FirstClear(i.goals, i.blacklist, i.rivals, i.radius, i.now)
          case Some(k) =>
            GoalOutcome(i.goals[k], false, i.blacklist, i.blacklistUpdated, i.replan,
                        Notes(i.goals[..k + 1], i.blacklist, i.rivals, i.radius, i.now))
          case None =>
            var notes := Notes(i.goals, i.blacklist, i.rivals, i.radius, i.now);
            match FirstFree(i.goals, i.blacklist, i.radius)
            case Some(k) => GoalOutcome(i.goals[k], false, i.blacklist, i.blacklistUpdated, i.replan, notes)
            case None => GoalOutcome(Explored(i), true, [], i.blacklistUpdated, i.replan, notes);
      if !i.single && |i.goals| <= 1 then
        o.(useTraj := NearAny(o.blacklist, o.goal.pose, i.radius) || NearAny(o.blacklist, PathEnd(o.goal), i.radius))
      else o
  }

  /** The branch deconflictGoals takes when the planner offers several candidates. */
  predicate MultiGoal(i: GoalInputs)
  {
    !(LongGoal(i) && !NearAny(i.blacklist, i.current.pose, i.radius)) &&
    !(i.single && i.explore != Origin) && |i.goals| > 1
  }

  /**
   * With several candidates the robot heads for one of them unless every one
   * is blacklisted; the one it picks is the first clear candidate, or failing
   * that the first one not blacklisted; and the blacklist is emptied only when
   * every candidate is blacklisted, which is also the only case that turns the
   * trajectory follower on.
   */
  lemma DeconflictMulti(i: GoalInputs)
    requires MultiGoal(i)
    ensures var o := Deconflict(i);
      (o.useTraj <==> forall j :: 0 <= j < |i.goals| ==> NearAny(i.blacklist, i.goals[j].pose, i.radius)) &&
      (o.useTraj ==> o.goal == Explored(i) && o.blacklist == []) &&
      (!o.useTraj ==> o.blacklist == i.blacklist && o.goal in i.goals &&
                      !NearAny(i.blacklist, o.goal.pose, i.radius)) &&
      ((exists j :: 0 <= j < |i.goals| && Clear(i.goals[j], i.blacklist, i.rivals, i.radius, i.now)) ==>
         Clear(o.goal, i.blacklist, i.rivals, i.radius, i.now))
  {
    var o := Deconflict(i);
    match FirstClear(i.goals, i.blacklist, i.rivals, i.radius, i.now)
    case Some(k) =>
      assert !NearAny(i.blacklist, i.goals[k].pose, i.radius);
    case None =>
      match FirstFree(i.goals, i.blacklist, i.radius)
      case Some(k) =>
      case None =>
  }

  /**
   * With zero or one candidates and no single-goal deconfliction (and no far
   * goal kept), the trajectory follower is on exactly when the chosen goal or
   * the end of its path is blacklisted.
   */
  lemma DeconflictFew(i: GoalInputs)
    requires !(LongGoal(i) && !NearAny(i.blacklist, i.current.pose, i.radius))
    requires !i.single && |i.goals| <= 1
    ensures var o := Deconflict(i);
      o.goal == (if |i.goals| == 0 then Explored(i) else i.goals[0]) &&
      (o.useTraj <==> NearAny(i.blacklist, o.goal.pose, i.radius) ||
                      NearAny(i.blacklist, PathEnd(o.goal), i.radius))
  {
  }

  /** deconflictGoals on values: the loops of the source, proved to decide as Deconflict says. */
  method DecideGoals(i: GoalInputs) returns (o: GoalOutcome)
    ensures o == Deconflict(i)
  {
    var curBlocked := NearAnyScan(i.blacklist, i.current.pose, i.radius);
    var explored := i.current.(pose := i.explore, path := i.explorePath);
    if LongGoal(i) && !curBlocked {
      var g := i.current;
      if |i.goals| == 0 {
        if Closer(i.current.pose, i.explore, 0.5) {
          g := explored;
        }
      } else {
        var k := FindNear(i.goals, i.current.pose);
        if k.Some? {
          g := i.goals[k.value];
        }
      }
      return GoalOutcome(g, i.useTraj, i.blacklist, i.blacklistUpdated, i.replan, []);
    }
    if i.single && i.explore != Origin {
      var bu := i.blacklistUpdated;
      var expBlocked := NearAnyScan(i.blacklist, i.explore, i.radius);
      if expBlocked {
        bu := "blacklist";
      }
      var rp := i.replan;
      if bu == "" {
        var crowded := ScanCrowd(i.explore, i.position, i.rivals, i.radius, i.now);
        if crowded {
          rp := "neighbor";
        }
      }
      o := GoalOutcome(explored, i.useTraj, i.blacklist, bu, rp, []);
    } else if |i.goals| == 0 {
      o := GoalOutcome(explored, i.useTraj, i.blacklist, i.blacklistUpdated, i.replan, []);
    } else if |i.goals| == 1 {
      o := GoalOutcome(i.goals[0], i.useTraj, i.blacklist, i.blacklistUpdated, i.replan, []);
    } else {
      var p := PickGoal(i.goals, i.blacklist, i.rivals, i.radius, i.now);
      if p.conflict {
        assert p.next == |i.goals| && i.goals[..p.next] == i.goals;
        if p.good.Some? {
          o := GoalOutcome(i.goals[p.good.value], false, i.blacklist, i.blacklistUpdated, i.replan, p.notes);
        } else {
          o := GoalOutcome(explored, true, [], i.blacklistUpdated, i.replan, p.notes);
        }
      } else {
        o := GoalOutcome(i.goals[p.next - 1], false, i.blacklist, i.blacklistUpdated, i.replan, p.notes);
      }
    }
    if !i.single && |i.goals| <= 1 {
      var goalBlocked := NearAnyScan(o.blacklist, o.goal.pose, i.radius);
      var endBlocked := NearAnyScan(o.blacklist, PathEnd(o.goal), i.radius);
      o := o.(useTraj := goalBlocked || endBlocked);
    }
  }

  // ---------------------------------------------------------------------------
  // Replanning

  /** The note replanStatus adds for a replan reason. */
  function ReplanNote(reason: string): string
  {
    if reason == "neighbor" then "Replanning Neighbor"
    else if reason == "neighborPath" then "Replanning Neighbor Path"
    else if reason == "gui" then "Replanning GUI"
    else if reason == "blacklist" then "Replanning Blacklist"
    else if reason == "newBlacklist" then "Replanning New Blacklist"
    else "Replanning"
  }

  /** The fields replanCheck writes, and whether it asked the planner to replan. */
  datatype Replanning = Replanning(newStatus: string, replan: string, lastReplanTime: int, replanned: bool)

  /**
   * replanCheck on values. Nothing happens until more than stopCheck seconds
   * after the last attempt, and only once the mission has started with a
   * replan or a blacklist replan pending. Then the time is taken; a blacklist
   * replan is noted and stays pending; a neighbour-path replan with no
   * neighbour wait is stale and dropped silently, left pending; any other
   * replan is noted and cleared.
   */
  function ReplanOn(ns: string, replan: string, blacklistUpdated: string, neighborWait: int,
                    lastReplanTime: int, stopCheck: int, startedMission: bool, now: int): (r: Replanning)
    ensures r.replanned ==> now > lastReplanTime + stopCheck && r.lastReplanTime == now &&
                            Contains(r.newStatus, ReplanNote(if blacklistUpdated != "" then blacklistUpdated else replan))
    ensures r.replanned && blacklistUpdated == "" ==> r.replan == ""
    ensures !r.replanned ==> r.newStatus == ns && r.replan == replan
    ensures r.lastReplanTime != lastReplanTime ==> r.lastReplanTime == now && startedMission
  {
    if now > lastReplanTime + stopCheck && startedMission && (replan != "" || blacklistUpdated != "") then
      if blacklistUpdated != "" then Replanning(Noted(ns, ReplanNote(blacklistUpdated)), replan, now, true)
      else if neighborWait == 0 && replan == "neighborPath" then Replanning(ns, replan, now, false)
      else Replanning(Noted(ns, ReplanNote(replan)), "", now, true)
    else Replanning(ns, replan, lastReplanTime, false)
  }

  /**
   * Replans are spaced: two replans asked at `t1` and then `t2` (the second
   * check starting from what the first left) are more than stopCheck
   * seconds apart.
   */
  lemma ReplanSpaced(ns: string, replan: string, bu: string, wait: int, lrt: int, stopCheck: int,
                     started: bool, t1: int, bu2: string, wait2: int, t2: int)
    requires ReplanOn(ns, replan, bu, wait, lrt, stopCheck, started, t1).replanned
    ensures var r1 := ReplanOn(ns, replan, bu, wait, lrt, stopCheck, started, t1);
      ReplanOn(r1.newStatus, r1.replan, bu2, wait2, r1.lastReplanTime, stopCheck, started, t2).replanned ==>
        t2 > t1 + stopCheck
  {
  }

  // ---------------------------------------------------------------------------
  // The actions object

  class Actions {
    const node: Node
    const deconflictRadius: real
    const mappingRange: real
    const singleGoalDeconflict: bool
    const useExtTraj: bool
    const stopCheck: int
    const useSimComms: bool
    var newStatus: string
    var blacklist: seq<Point>
    var blacklistResetTime: int
    var useTraj: bool
    var trajOn: bool
    var lastBeacon: string
    var beaconDeployed: bool
    var deployBeacon: bool
    var dropReason: string
    var guiBehavior: string
    var blacklistUpdated: string
    var replan: string
    var lastReplanTime: int
    var stopStart: bool
    var paused: bool
    var nearbyRobot: bool
    var neighborWait: int
    var lastGoalTime: int
    var exploreToGoal: bool

    /**
     * __init__ with the parameters it reads. paused, nearbyRobot,
     * neighborWait and exploreToGoal are read before any assignment in the
     * source; they start not paused, with no robot near, no wait and no
     * exploration towards a GUI goal.
     */
    constructor(n: Node, radius: real, range: real, single: bool, extTraj: bool, stop: int, simComms: bool)
      ensures node == n && deconflictRadius == radius && mappingRange == range
      ensures singleGoalDeconflict == single && useExtTraj == extTraj && stopCheck == stop && useSimComms == simComms
      ensures newStatus == "" && blacklist == [] && !useTraj && !trajOn && lastBeacon == ""
      ensures !beaconDeployed && !deployBeacon && dropReason == "" && guiBehavior == ""
      ensures blacklistUpdated == "" && replan == "" && lastReplanTime == 0
      ensures stopStart && !paused && !nearbyRobot && neighborWait == 0 && lastGoalTime == 0 && !exploreToGoal
    {
      node, deconflictRadius, mappingRange := n, radius, range;
      singleGoalDeconflict, useExtTraj, stopCheck, useSimComms := single, extTraj, stop, simComms;
      newStatus, blacklist, blacklistResetTime := "", [], 0;
      useTraj, trajOn, lastBeacon, beaconDeployed := false, false, "", false;
      deployBeacon, dropReason, guiBehavior := false, "", "";
      blacklistUpdated, replan, lastReplanTime := "", "", 0;
      stopStart, paused, nearbyRobot, neighborWait := true, false, false, 0;
      lastGoalTime, exploreToGoal := 0, false;
    }

    /** updateStatus. */
    method UpdateStatus(s: string)
      modifies this`newStatus
      ensures newStatus == Noted(old(newStatus), s)
    {
      if newStatus != "" && !Contains(newStatus, s) {
        newStatus := newStatus + "+++" + s;
      } else {
        newStatus := s;
      }
    }

    /** checkStatus: the suffix is set and mentions `s`. */
    predicate CheckStatus(s: string)
      reads this`newStatus
    {
      newStatus != "" && Contains(newStatus, s)
    }

    /** checkBlacklist: no blacklist point lies within deconflictRadius of `g`. */
    method CheckBlacklist(g: Point) returns (clear: bool)
      ensures clear <==> forall i :: 0 <= i < |blacklist| ==> !Closer(blacklist[i], g, deconflictRadius)
    {
      var hit := NearAnyScan(blacklist, g, deconflictRadius);
      clear := !hit;
    }

    /**
     * addBlacklist: `g` is added only when clear of every blacklist point; the
     * first point sets the blacklist reset time 20 seconds ahead.
     */
    method AddBlacklist(g: Point, now: int)
      modifies this`blacklist, this`blacklistResetTime
      ensures blacklist == if NearAny(old(blacklist), g, deconflictRadius) then old(blacklist) else old(blacklist) + [g]
      ensures blacklistResetTime == if !NearAny(old(blacklist), g, deconflictRadius) && old(blacklist) == []
                                    then now + 20 else old(blacklistResetTime)
    {
      var clear := CheckBlacklist(g);
      if clear {
        if blacklist == [] {
          blacklistResetTime := now + 20;
        }
        blacklist := blacklist + [g];
      }
    }

    /** updateGoalPath: head for the frontier planner's goal along its path. */
    method UpdateGoalPath()
      modifies node.agent`goal
      ensures node.agent.goal == old(node.agent.goal).(pose := node.agent.exploreGoal, path := node.agent.explorePath)
    {
      node.agent.goal := node.agent.goal.(pose := node.agent.exploreGoal, path := node.agent.explorePath);
    }

    /**
     * dropBeacon, second phase: the beacon asked for has been put down at
     * `placed`. One beacon fewer is carried, that beacon is active and
     * reachable, the drop flags are cleared and a GUI deploy is done.
     */
    method FinishDrop(placed: Point)
      requires lastBeacon != "" && HasBeacon(node.beacons, lastBeacon)
      modifies node`numBeacons, node`beacons, this`deployBeacon, this`beaconDeployed, this`lastBeacon, this`guiBehavior
      ensures node.numBeacons == old(node.numBeacons) - 1
      ensures node.beacons == Deploy(old(node.beacons), BeaconIndex(old(node.beacons), old(lastBeacon)).value, placed)
      ensures !deployBeacon && !beaconDeployed && lastBeacon == ""
      ensures guiBehavior == if old(guiBehavior) == "deployBeacon" then "" else old(guiBehavior)
    {
      node.numBeacons := node.numBeacons - 1;
      var k := BeaconIndex(node.beacons, lastBeacon).value;
      node.beacons := Deploy(node.beacons, k, placed);
      deployBeacon, beaconDeployed, lastBeacon := false, false, "";
      if guiBehavior == "deployBeacon" {
        guiBehavior := "";
      }
    }

    /**
     * dropBeacon, first phase: ask for the first idle beacon to be put down,
     * or, with none left, give up on the inventory (numBeacons becomes 0) and
     * on a GUI deploy.
     */
    method StartDrop()
      modifies node.agent`status, this`lastBeacon, node`numBeacons, this`guiBehavior
      ensures match FirstIdle(old(node.beacons))
        case Some(k) =>
          lastBeacon == old(node.beacons)[k].id && node.agent.status == "Deploy" &&
          node.numBeacons == old(node.numBeacons) && guiBehavior == old(guiBehavior)
        case None =>
          lastBeacon == old(lastBeacon) && node.agent.status == old(node.agent.status) && node.numBeacons == 0 &&
          guiBehavior == if old(guiBehavior) == "deployBeacon" then "" else old(guiBehavior)
    {
      var k := FindIdle(node.beacons);
      if k.Some? {
        node.agent.status := "Deploy";
        lastBeacon := node.beacons[k.value].id;
      } else {
        node.numBeacons := 0;
        if guiBehavior == "deployBeacon" {
          guiBehavior := "";
        }
      }
    }

    /**
     * dropBeacon: with a beacon asked for and reported down, finish the drop
     * (a GUI deploy is done); with one asked for but not yet down, keep
     * heading for the planner's goal; otherwise ask for the first idle beacon
     * and enter 'Deploy', or, with none idle, give up on the inventory and on
     * a GUI deploy.
     */
    method DropBeacon(placed: Point)
      requires lastBeacon != "" ==> HasBeacon(node.beacons, lastBeacon)
      modifies node`numBeacons, node`beacons, node.agent`status, node.agent`goal
      modifies this`deployBeacon, this`beaconDeployed, this`lastBeacon, this`guiBehavior
      ensures old(lastBeacon) != "" && old(beaconDeployed) ==>
        node.numBeacons == old(node.numBeacons) - 1 && !deployBeacon && !beaconDeployed && lastBeacon == "" &&
        node.beacons == Deploy(old(node.beacons), BeaconIndex(old(node.beacons), old(lastBeacon)).value, placed) &&
        guiBehavior == (if old(guiBehavior) == "deployBeacon" then "" else old(guiBehavior)) &&
        node.agent.status == old(node.agent.status) && node.agent.goal == old(node.agent.goal)
      ensures old(lastBeacon) != "" && !old(beaconDeployed) ==>
        node.numBeacons == old(node.numBeacons) && node.beacons == old(node.beacons) && lastBeacon == old(lastBeacon) &&
        node.agent.goal == old(node.agent.goal).(pose := node.agent.exploreGoal, path := node.agent.explorePath) &&
        node.agent.status == old(node.agent.status) && guiBehavior == old(guiBehavior) &&
        deployBeacon == old(deployBeacon) && !beaconDeployed
      ensures old(lastBeacon) == "" ==>
        node.beacons == old(node.beacons) && node.agent.goal == old(node.agent.goal) &&
        deployBeacon == old(deployBeacon) && beaconDeployed == old(beaconDeployed) &&
        match FirstIdle(old(node.beacons))
        case Some(k) =>
          lastBeacon == old(node.beacons)[k].id && node.numBeacons == old(node.numBeacons) &&
          node.agent.status == "Deploy" && guiBehavior == old(guiBehavior)
        case None =>
          lastBeacon == "" && node.numBeacons == 0 && node.agent.status == old(node.agent.status) &&
          guiBehavior == if old(guiBehavior) == "deployBeacon" then "" else old(guiBehavior)
    {
      if lastBeacon != "" && beaconDeployed {
        FinishDrop(placed);
      } else if lastBeacon != "" {
        UpdateGoalPath();
      } else {
        StartDrop();
      }
    }

    /** The inputs deconflictGoals reads at time `now`. */
    /** The goal-choice state as it stands. */
    function ChoiceNow(): Choice
      reads this`useTraj, this`blacklist, this`blacklistUpdated, this`replan, this`newStatus, this`blacklistResetTime
      reads node.agent`goal
    {
      Choice(node.agent.goal, useTraj, blacklist, blacklistUpdated, replan, newStatus, blacklistResetTime)
    }

    function GoalInputsAt(now: int): GoalInputs
      reads this`blacklist, this`useTraj, this`blacklistUpdated, this`replan, node`neighbors
      reads node.agent`goals, node.agent`goal, node.agent`odometry, node.agent`exploreGoal, node.agent`explorePath
      reads node.neighbors`lastMessage, node.neighbors`goal, node.neighbors`odometry
    {
      GoalInputs(node.agent.goals, node.agent.goal, node.agent.odometry.position, node.agent.exploreGoal,
                 node.agent.explorePath, RivalsOf(node.neighbors), blacklist, deconflictRadius, mappingRange,
                 singleGoalDeconflict, useTraj, blacklistUpdated, replan, now)
    }

    /** Apply the status notes in order. */
    method NoteAll(ss: seq<string>)
      modifies this`newStatus
      ensures newStatus == NotedAll(old(newStatus), ss)
    {
      var k := 0;
      while k < |ss|
        invariant 0 <= k <= |ss|
        invariant newStatus == NotedAll(old(newStatus), ss[..k])
      {
        assert ss[..k + 1][..k] == ss[..k];
        UpdateStatus(ss[k]);
        k := k + 1;
      }
      assert ss[..k] == ss;
    }

    /** deconflictGoals: choose the goal, as Deconflict says. */
    method DeconflictGoals(now: int)
      modifies node.agent`goal, this`useTraj, this`blacklist, this`blacklistUpdated, this`replan, this`newStatus
      ensures var o := Deconflict(old(GoalInputsAt(now)));
        node.agent.goal == o.goal && useTraj == o.useTraj && blacklist == o.blacklist &&
        blacklistUpdated == o.blacklistUpdated && replan == o.replan &&
        newStatus == NotedAll(old(newStatus), o.notes)
    {
      var o := DecideGoals(GoalInputsAt(now));
      node.agent.goal := o.goal;
      useTraj, blacklist, blacklistUpdated, replan := o.useTraj, o.blacklist, o.blacklistUpdated, o.replan;
      NoteAll(o.notes);
    }

    /** Whether the robot should fall back on the trajectory follower (trajCheck's test). */
    predicate FollowTrajectory(stuck: int, plannerOk: bool)
      reads this`useTraj, node.agent`goal, node.agent`odometry
    {
      useTraj ||
      (!plannerOk && (stuck > stopCheck || Closer(node.agent.goal.pose, node.agent.odometry.position, 1.0)))
    }

    /**
     * trajCheck. When the robot should follow the trajectory: ask for a replan
     * (the result) unless one was just made or asked for within stopCheck
     * seconds; switch the external follower on once; head for the planner's
     * goal; and, once the mission has started and the planner has failed,
     * blacklist the end of that path if the robot is within 1 of it. Otherwise
     * switch the follower off.
     */
    method TrajCheck(alreadyReplanned: bool, stuck: int, plannerOk: bool, startedMission: bool, now: int)
      returns (askReplan: bool)
      modifies this`trajOn, this`newStatus, node.agent`goal, this`blacklist, this`blacklistResetTime
      ensures var follow := old(FollowTrajectory(stuck, plannerOk));
        var goal := old(node.agent.goal).(pose := node.agent.exploreGoal, path := node.agent.explorePath);
        var tail := PathEnd(goal);
        var mark := follow && |goal.path| > 0 && startedMission && !plannerOk &&
                    Closer(tail, node.agent.odometry.position, 1.0);
        askReplan == (follow && !alreadyReplanned && now > old(lastReplanTime) + stopCheck) &&
        trajOn == (if follow then old(trajOn) || useExtTraj else false) &&
        newStatus == (if follow && useExtTraj && !old(trajOn) then Noted(old(newStatus), "Following Trajectory")
                      else old(newStatus)) &&
        node.agent.goal == (if follow then goal else old(node.agent.goal)) &&
        blacklist == (if mark && !NearAny(old(blacklist), tail, deconflictRadius)
                      then old(blacklist) + [tail] else old(blacklist)) &&
        blacklistResetTime == (if mark && !NearAny(old(blacklist), tail, deconflictRadius) && old(blacklist) == []
                               then now + 20 else old(blacklistResetTime))
    {
      askReplan := false;
      if FollowTrajectory(stuck, plannerOk) {
        askReplan := !alreadyReplanned && now > lastReplanTime + stopCheck;
        if useExtTraj && !trajOn {
          UpdateStatus("Following Trajectory");
          trajOn := true;
        }
        UpdateGoalPath();
        var goal := node.agent.goal;
        if |goal.path| > 0 {
          var tail := goal.path[|goal.path| - 1];
          if startedMission && !plannerOk && Closer(tail, node.agent.odometry.position, 1.0) {
            AddBlacklist(tail, now);
          }
        }
      } else if trajOn {
        trajOn := false;
      }
    }

    // -------------------------------------------------------------------------
    // stop, explore and setGoalPoint

    /** replanCheck: as ReplanOn says, with the node's pending replans. */
    method ReplanCheck(startedMission: bool, now: int) returns (replanned: bool)
      modifies this`newStatus, this`replan, this`lastReplanTime
      ensures var r := ReplanOn(old(newStatus), old(replan), blacklistUpdated, neighborWait, old(lastReplanTime),
                                stopCheck, startedMission, now);
        newStatus == r.newStatus && replan == r.replan && lastReplanTime == r.lastReplanTime &&
        replanned == r.replanned
    {
      replanned := false;
      if now > lastReplanTime + stopCheck && startedMission && (replan != "" || blacklistUpdated != "") {
        lastReplanTime := now;
        if blacklistUpdated != "" {
          UpdateStatus(ReplanNote(blacklistUpdated));
          replanned := true;
        } else if !(neighborWait == 0 && replan == "neighborPath") {
          UpdateStatus(ReplanNote(replan));
          replan := "";
          replanned := true;
        }
      }
    }

    /**
     * The goal stop() leaves: the first stop in simulation sends an in-place
     * goal and keeps the recorded one; otherwise the goal becomes the
     * planner's (stopUpdate).
     */
    function StoppedGoal(): Goal
      reads this`stopStart, node.agent`goal, node.agent`exploreGoal, node.agent`explorePath
    {
      if stopStart && useSimComms then node.agent.goal
      else node.agent.goal.(pose := node.agent.exploreGoal, path := node.agent.explorePath)
    }

    /**
     * The suffix and replan state stop() leaves: with a robot near it notes
     * 'Waiting', and once the wait passes stopCheck cycles it asks for a
     * neighbour-path replan (replanCheck).
     */
    function Stopped(startedMission: bool, now: int): Replanning
      reads this`nearbyRobot, this`newStatus, this`replan, this`lastReplanTime, this`neighborWait, this`blacklistUpdated
    {
      if !nearbyRobot then Replanning(newStatus, replan, lastReplanTime, false)
      else
        var ns := Noted(newStatus, "Waiting");
        if neighborWait + 1 > stopCheck
        then ReplanOn(ns, "neighborPath", blacklistUpdated, neighborWait + 1, lastReplanTime, stopCheck, startedMission, now)
        else Replanning(ns, replan, lastReplanTime, false)
    }

    /** What deconflictGoals reads after stop(). */
    function StoppedInputs(startedMission: bool, now: int): GoalInputs
      reads this`blacklist, this`useTraj, this`blacklistUpdated, this`replan, node`neighbors, this`stopStart
      reads this`nearbyRobot, this`newStatus, this`lastReplanTime, this`neighborWait
      reads node.agent`goals, node.agent`goal, node.agent`odometry, node.agent`exploreGoal, node.agent`explorePath
      reads node.neighbors`lastMessage, node.neighbors`goal, node.neighbors`odometry
    {
      GoalInputsAt(now).(current := StoppedGoal(), replan := Stopped(startedMission, now).replan)
    }

    /** stopUpdate: send the in-place goal once in simulation, else head for the planner's goal. */
    method StopUpdate()
      modifies this`stopStart, node.agent`goal
      ensures stopStart == (old(stopStart) && !useSimComms)
      ensures node.agent.goal == old(StoppedGoal())
    {
      if stopStart && useSimComms {
        stopStart := false;
      } else {
        UpdateGoalPath();
      }
    }

    /**
     * What stop() leaves: the status 'Stop'; with a robot near, the wait is
     * noted and counted, and a wait beyond stopCheck cycles asks for a
     * neighbour-path replan (Stopped); then the goal as StoppedGoal says.
     */
    twostate predicate Halted(startedMission: bool, now: int)
      reads this, node.agent
    {
      var s := old(Stopped(startedMission, now));
      node.agent.status == "Stop" &&
      neighborWait == old(neighborWait) + (if nearbyRobot then 1 else 0) &&
      newStatus == s.newStatus && replan == s.replan && lastReplanTime == s.lastReplanTime &&
      stopStart == (old(stopStart) && !useSimComms) && node.agent.goal == old(StoppedGoal())
    }

    /** stop: report 'Stop', wait for a robot near, then stopUpdate. */
    method Stop(startedMission: bool, now: int)
      modifies node.agent`status, this`newStatus, this`neighborWait, this`replan, this`lastReplanTime
      modifies this`stopStart, node.agent`goal
      ensures Halted(startedMission, now)
    {
      node.agent.status := "Stop";
      WaitForNeighbor(startedMission, now);
      StopUpdate();
    }

    /** The neighbour wait of stop, as Stopped says. */
    method WaitForNeighbor(startedMission: bool, now: int)
      modifies this`newStatus, this`neighborWait, this`replan, this`lastReplanTime
      ensures neighborWait == old(neighborWait) + if nearbyRobot then 1 else 0
      ensures var s := old(Stopped(startedMission, now));
        newStatus == s.newStatus && replan == s.replan && lastReplanTime == s.lastReplanTime
    {
      if nearbyRobot {
        UpdateStatus("Waiting");
        neighborWait := neighborWait + 1;
        if neighborWait > stopCheck {
          replan := "neighborPath";
          var replanned := ReplanCheck(startedMission, now);
        }
      }
    }

    /** deconflictGoals' outcome when it is skipped: everything as it was. */
    function Skipped(i: GoalInputs): GoalOutcome
    {
      GoalOutcome(i.current, i.useTraj, i.blacklist, i.blacklistUpdated, i.replan, [])
    }

    /** explore's goal choice: deconflictGoals unless a blacklist replan is pending. */
    function Chosen(i: GoalInputs): GoalOutcome
    {
      if i.blacklistUpdated == "" then Deconflict(i) else Skipped(i)
    }

    /**
     * What explore leaves, from deconflictGoals' inputs `i`, the suffix `ns`,
     * the follower flag `on`, and the replan and blacklist reset times: the
     * goal is deconflicted unless a blacklist replan is pending, then
     * FollowedFrom.
     */
    predicate ExploredFrom(i: GoalInputs, ns: string, on: bool, lrt: int, brt: int,
                           stuck: int, plannerOk: bool, startedMission: bool, now: int)
      reads this`useTraj, this`blacklistUpdated, this`replan, this`lastReplanTime, this`trajOn, this`newStatus
      reads this`blacklist, this`blacklistResetTime, this`neighborWait
      reads node.agent`goal, node.agent`odometry, node.agent`exploreGoal, node.agent`explorePath
    {
      var o := Chosen(i);
      FollowedFrom(o.goal, o.useTraj, o.blacklist, o.blacklistUpdated, o.replan, NotedAll(ns, o.notes), on, lrt, brt,
                   stuck, plannerOk, startedMission, now)
    }

    /**
     * The end of explore, from the goal `g`, follower request `ut`,
     * blacklist `bl`, pending replans `bu` and `rp`, the suffix `ns`, the
     * follower flag `on` and the two times: replanCheck, then trajCheck told
     * whether a replan was just asked.
     */
    predicate FollowedFrom(g: Goal, ut: bool, bl: seq<Point>, bu: string, rp: string, ns: string, on: bool,
                           lrt: int, brt: int, stuck: int, plannerOk: bool, startedMission: bool, now: int)
      reads this`useTraj, this`blacklistUpdated, this`replan, this`lastReplanTime, this`trajOn, this`newStatus
      reads this`blacklist, this`blacklistResetTime, this`neighborWait
      reads node.agent`goal, node.agent`odometry, node.agent`exploreGoal, node.agent`explorePath
    {
      var r := ReplanOn(ns, rp, bu, neighborWait, lrt, stopCheck, startedMission, now);
      var pos := node.agent.odometry.position;
      var follow := ut || (!plannerOk && (stuck > stopCheck || Closer(g.pose, pos, 1.0)));
      var goal := g.(pose := node.agent.exploreGoal, path := node.agent.explorePath);
      var tail := PathEnd(goal);
      var add := follow && |goal.path| > 0 && startedMission && !plannerOk && Closer(tail, pos, 1.0) &&
                 !NearAny(bl, tail, deconflictRadius);
      useTraj == ut && blacklistUpdated == bu &&
      replan == r.replan && lastReplanTime == r.lastReplanTime &&
      trajOn == (follow && (on || useExtTraj)) &&
      newStatus == (if follow && useExtTraj && !on then Noted(r.newStatus, "Following Trajectory") else r.newStatus) &&
      node.agent.goal == (if follow then goal else g) &&
      blacklist == (if add then bl + [tail] else bl) &&
      blacklistResetTime == (if add && bl == [] then now + 20 else brt)
    }

    /**
     * explore: report 'Explore' (moving again when it was not), choose the
     * goal unless a blacklist replan is pending, check for a replan, then
     * fall back on the trajectory follower as trajCheck says.
     */
    method Explore(stuck: int, plannerOk: bool, startedMission: bool, now: int)
      modifies this`stopStart, this`paused, node.agent`status, node.agent`goal
      modifies this`useTraj, this`blacklist, this`blacklistUpdated, this`replan, this`newStatus
      modifies this`lastReplanTime, this`trajOn, this`blacklistResetTime
      ensures stopStart && node.agent.status == "Explore"
      ensures paused == (old(paused) && old(node.agent.status) == "Explore")
      ensures ExploredFrom(old(GoalInputsAt(now)), old(newStatus), old(trajOn), old(lastReplanTime),
                           old(blacklistResetTime), stuck, plannerOk, startedMission, now)
    {
      ghost var i, ns, on, lrt, brt := GoalInputsAt(now), newStatus, trajOn, lastReplanTime, blacklistResetTime;
      Resume("Explore");
      assert GoalInputsAt(now) == i;
      ChooseAndFollow(stuck, plannerOk, startedMission, now);
      assert ExploredFrom(i, ns, on, lrt, brt, stuck, plannerOk, startedMission, now);
    }

    /** explore after its status: the goal choice, then FollowUp. */
    method ChooseAndFollow(stuck: int, plannerOk: bool, startedMission: bool, now: int)
      modifies node.agent`goal, this`useTraj, this`blacklist, this`blacklistUpdated, this`replan, this`newStatus
      modifies this`lastReplanTime, this`trajOn, this`blacklistResetTime
      ensures ExploredFrom(old(GoalInputsAt(now)), old(newStatus), old(trajOn), old(lastReplanTime),
                           old(blacklistResetTime), stuck, plannerOk, startedMission, now)
    {
      ChooseUnlessBlacklisted(now);
      FollowUp(stuck, plannerOk, startedMission, now);
    }

    /** The start of explore: a new status means moving again (move()). */
    method Resume(status: string)
      modifies this`stopStart, this`paused, node.agent`status
      ensures stopStart && node.agent.status == status
      ensures paused == (old(paused) && old(node.agent.status) == status)
    {
      stopStart := true;
      if node.agent.status != status {
        paused := false;
        node.agent.status := status;
      }
    }

    /** The goal choice of explore: deconflictGoals unless a blacklist replan is pending. */
    method ChooseUnlessBlacklisted(now: int)
      modifies node.agent`goal, this`useTraj, this`blacklist, this`blacklistUpdated, this`replan, this`newStatus
      ensures var i := old(GoalInputsAt(now));
        var o := Chosen(i);
        node.agent.goal == o.goal && useTraj == o.useTraj && blacklist == o.blacklist &&
        blacklistUpdated == o.blacklistUpdated && replan == o.replan &&
        newStatus == NotedAll(old(newStatus), o.notes)
    {
      if blacklistUpdated == "" {
        DeconflictGoals(now);
      }
    }

    /** The end of explore: replanCheck, then trajCheck, as FollowedFrom says. */
    method FollowUp(stuck: int, plannerOk: bool, startedMission: bool, now: int)
      modifies node.agent`goal, this`blacklist, this`replan, this`newStatus
      modifies this`lastReplanTime, this`trajOn, this`blacklistResetTime
      ensures FollowedFrom(old(node.agent.goal), useTraj, old(blacklist), blacklistUpdated, old(replan),
                           old(newStatus), old(trajOn), old(lastReplanTime), old(blacklistResetTime),
                           stuck, plannerOk, startedMission, now)
    {
      var replanned := ReplanCheck(startedMission, now);
      var ask := TrajCheck(replanned, stuck, plannerOk, startedMission, now);
    }

    /**
     * setGoalPoint without a pending blacklist replan: head for the
     * planner's goal under `reason`. A GUI goal older than 180 seconds ends
     * the GUI behaviour. The status becomes the reason (moving again) when it
     * differs or stopCheck seconds have passed, unless paused. Out of GUI
     * mode, a failed planner switches the external follower on; otherwise it
     * is switched off.
     */
    method Aim(reason: string, plannerOk: bool, now: int)
      modifies this`guiBehavior, this`exploreToGoal, this`stopStart, this`lastGoalTime, this`paused
      modifies node.agent`status, node.agent`goal, this`trajOn, this`newStatus
      ensures var timeout := reason == "guiCommand" && now > old(lastGoalTime) + 180;
        guiBehavior == (if timeout then "" else old(guiBehavior)) &&
        exploreToGoal == (old(exploreToGoal) && !timeout)
      ensures var refresh := !old(paused) && (old(node.agent.status) != reason || now > old(lastGoalTime) + stopCheck);
        stopStart && lastGoalTime == (if refresh then now else old(lastGoalTime)) && paused == old(paused) &&
        node.agent.status == (if refresh then reason else old(node.agent.status))
      ensures node.agent.goal == old(node.agent.goal).(pose := node.agent.exploreGoal, path := node.agent.explorePath)
      ensures var ext := useExtTraj && !plannerOk && reason != "guiCommand";
        trajOn == ext &&
        newStatus == if ext && !old(trajOn) then Noted(old(newStatus), "Following Trajectory") else old(newStatus)
    {
      if reason == "guiCommand" && now > lastGoalTime + 180 {
        guiBehavior := "";
        exploreToGoal := false;
      }
      stopStart := true;
      if !paused && (node.agent.status != reason || now > lastGoalTime + stopCheck) {
        lastGoalTime := now;
        paused := false;
        node.agent.status := reason;
      }
      UpdateGoalPath();
      if useExtTraj && !plannerOk && reason != "guiCommand" {
        if !trajOn {
          trajOn := true;
          UpdateStatus("Following Trajectory");
        }
      } else if trajOn {
        trajOn := false;
      }
    }

    /**
     * What setGoalPoint leaves, from the state before the call except that
     * the status suffix was `ns`: a pending blacklist replan is cleared and
     * the robot explores instead (ExploredFrom); otherwise it heads for the
     * planner's goal under `reason` as Aim says, the rest unchanged.
     */
    twostate predicate GoalPointSet(reason: string, ns: string, stuck: int, plannerOk: bool, startedMission: bool, now: int)
      reads this, node.agent
    {
      stopStart &&
      (old(blacklistUpdated) != "" ==>
        node.agent.status == "Explore" && paused == (old(paused) && old(node.agent.status) == "Explore") &&
        guiBehavior == old(guiBehavior) && exploreToGoal == old(exploreToGoal) && lastGoalTime == old(lastGoalTime) &&
        ExploredFrom(old(GoalInputsAt(now)).(blacklistUpdated := ""), ns, old(trajOn),
                     old(lastReplanTime), old(blacklistResetTime), stuck, plannerOk, startedMission, now)) &&
      (old(blacklistUpdated) == "" ==>
        var timeout := reason == "guiCommand" && now > old(lastGoalTime) + 180;
        var refresh := !old(paused) && (old(node.agent.status) != reason || now > old(lastGoalTime) + stopCheck);
        var ext := useExtTraj && !plannerOk && reason != "guiCommand";
        guiBehavior == (if timeout then "" else old(guiBehavior)) &&
        exploreToGoal == (old(exploreToGoal) && !timeout) &&
        lastGoalTime == (if refresh then now else old(lastGoalTime)) && paused == old(paused) &&
        node.agent.status == (if refresh then reason else old(node.agent.status)) &&
        node.agent.goal == old(node.agent.goal).(pose := node.agent.exploreGoal, path := node.agent.explorePath) &&
        trajOn == ext &&
        newStatus == (if ext && !old(trajOn) then Noted(ns, "Following Trajectory") else ns) &&
        useTraj == old(useTraj) && blacklist == old(blacklist) && blacklistUpdated == "" && replan == old(replan) &&
        lastReplanTime == old(lastReplanTime) && blacklistResetTime == old(blacklistResetTime))
    }

    /**
     * setGoalPoint: a pending blacklist replan is cleared and the robot
     * explores instead (explore from that state); otherwise it heads for the
     * planner's goal under `reason` (Aim).
     */
    method SetGoalPoint(reason: string, stuck: int, plannerOk: bool, startedMission: bool, now: int)
      modifies this`stopStart, this`paused, node.agent`status, node.agent`goal
      modifies this`useTraj, this`blacklist, this`blacklistUpdated, this`replan, this`newStatus
      modifies this`lastReplanTime, this`trajOn, this`blacklistResetTime
      modifies this`guiBehavior, this`exploreToGoal, this`lastGoalTime
      ensures GoalPointSet(reason, old(newStatus), stuck, plannerOk, startedMission, now)
    {
      if blacklistUpdated != "" {
        blacklistUpdated := "";
        Explore(stuck, plannerOk, startedMission, now);
      } else {
        Aim(reason, plannerOk, now);
      }
    }

    /**
     * The out-of-comm step of reverse-deploy mode: note 'Regain comms deploy',
     * then head home (setGoalPoint).
     */
    method RegainHome(stuck: int, plannerOk: bool, startedMission: bool, now: int)
      modifies this`stopStart, this`paused, node.agent`status, node.agent`goal
      modifies this`useTraj, this`blacklist, this`blacklistUpdated, this`replan, this`newStatus
      modifies this`lastReplanTime, this`trajOn, this`blacklistResetTime
      modifies this`guiBehavior, this`exploreToGoal, this`lastGoalTime
      ensures GoalPointSet("Home", Noted(old(newStatus), "Regain comms deploy"), stuck, plannerOk, startedMission, now)
    {
      UpdateStatus("Regain comms deploy");
      SetGoalPoint("Home", stuck, plannerOk, startedMission, now);
    }
  }
}
