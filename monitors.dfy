/**
 * The monitors of the behaviour-based robot (src/monitors.py). Each monitor
 * reads the node's registries, comm flags and pose and sets the flags the
 * actions then act upon: the beacon drop request and its reason, the
 * reverse-drop state machine, the artifact report flag, the stuck counter
 * with its blacklist candidates, and the GUI behaviour.
 *
 * The pose buffer belongs to the node that composes the monitors and the
 * actions; the monitors only read it, so it is a parameter here. The turn
 * test on the averaged first and last parts of that buffer works on
 * quaternion yaws and is the input `turned`.
 */
module Monitors {
  import opened Helpers
  import opened Containers
  import opened Bobcat
  import opened Beacons
  import opened Actions

  // ---------------------------------------------------------------------------
  // BeaconMonitor's decision

  /** A drop decision: whether to drop, why, and the range the beacons must cover. */
  datatype DropPlan = DropPlan(drop: bool, reason: string, checkDist: real)

  /**
   * The drop the robot plans before consulting the beacons. A junction beats a
   * turn, which beats the end of the anchor's range (unless the drop is being
   * delayed for a trailing robot).
   */
  function PlanDrop(anchorFar: bool, delay: bool, atNode: bool, turning: bool,
                    maxAnchorDist: real, maxDist: real, junctionDist: real): DropPlan
  {
    if atNode then DropPlan(true, "at junction", junctionDist)
    else if turning then DropPlan(true, "at turn", junctionDist + 5.0)
    else if anchorFar && !delay then DropPlan(true, "anchor distance", maxDist)
    else DropPlan(false, "", maxAnchorDist)
  }

  /**
   * The plan after beaconDistCheck: its verdict on the drop, and a plan with
   * no reason or only the anchor-distance reason renamed "beacon distance"
   * when some active beacon is out of range.
   */
  function Verdict(bs: seq<Beacon>, pos: Point, p: DropPlan): DropPlan
  {
    var dc := DistCheckOf(bs, pos, p.checkDist, p.drop);
    var reason := if dc.numDistBeacons > 0 && (p.reason == "" || p.reason == "anchor distance")
                  then "beacon distance" else p.reason;
    DropPlan(dc.drop, reason, p.checkDist)
  }

  /**
   * The pose buffer shows a turn: turn detection is on, the buffer is full,
   * its averaged first and last parts moved apart and turned (`turned`), and
   * the robot moved more than 0.5 in the last step.
   */
  predicate Turning(history: seq<Pose>, hislen: nat, turnDetect: bool, turned: bool)
  {
    turnDetect && 2 <= |history| == hislen && turned &&
    Farther(history[|history| - 2].position, history[|history| - 1].position, 0.5)
  }

  /**
   * The cancel for a robot coming home after its first drop, as written: it
   * asks for a y coordinate both below and above 1.
   */
  predicate Deadband(numBeacons: nat, anchorNear: bool, pos: Point)
  {
    numBeacons > 0 && anchorNear && pos.y < 1.0 && pos.y > 1.0
  }

  /** The homecoming cancel never fires. */
  lemma DeadbandNeverFires(numBeacons: nat, anchorNear: bool, pos: Point)
    ensures !Deadband(numBeacons, anchorNear, pos)
  {
  }

  /**
   * beaconDistCheck, the renaming of the reason and the homecoming cancel, in
   * the order the monitor runs them. `anchorNear` is whether the robot is
   * within the anchor's range.
   */
  method CheckDrop(bs: seq<Beacon>, pos: Point, p: DropPlan, anchorNear: bool) returns (v: DropPlan)
    ensures v == Verdict(bs, pos, p)
  {
    var dc := BeaconDistCheck(bs, pos, p.checkDist, p.drop);
    var reason := p.reason;
    if dc.numDistBeacons > 0 && (reason == "" || reason == "anchor distance") {
      reason := "beacon distance";
    }
    var drop := dc.drop;
    if Deadband(dc.numBeacons, anchorNear, pos) {
      drop := false;
    }
    v := DropPlan(drop, reason, p.checkDist);
  }

  /**
   * What BeaconMonitor decides. Reasons keep their precedence: a junction or
   * turn reason survives the beacon check, and "beacon distance" replaces only
   * an empty or anchor-distance reason, exactly when an active beacon is out
   * of range. Any active beacon in range cancels the drop; with no active
   * beacon the plan stands. A drop always carries a reason.
   */
  lemma BeaconDecision(bs: seq<Beacon>, pos: Point, anchorFar: bool, delay: bool, atNode: bool,
                       turning: bool, maxAnchorDist: real, maxDist: real, junctionDist: real)
    ensures var p := PlanDrop(anchorFar, delay, atNode, turning, maxAnchorDist, maxDist, junctionDist);
      var v := Verdict(bs, pos, p);
      (atNode ==> v.reason == "at junction" && v.checkDist == junctionDist) &&
      (!atNode && turning ==> v.reason == "at turn" && v.checkDist == junctionDist + 5.0) &&
      (!atNode && !turning ==>
        (v.reason == "beacon distance" <==> OutOfRange(bs, pos, v.checkDist)) &&
        (v.reason == "anchor distance" <==> anchorFar && !delay && !OutOfRange(bs, pos, v.checkDist))) &&
      (v.drop <==> !InRange(bs, pos, p.checkDist) && (p.drop || OutOfRange(bs, pos, p.checkDist))) &&
      ((forall i :: 0 <= i < |bs| ==> !bs[i].active) ==> v.drop == p.drop) &&
      (v.drop ==> v.reason != "")
  {
    var p := PlanDrop(anchorFar, delay, atNode, turning, maxAnchorDist, maxDist, junctionDist);
    CountsMeaning(bs, pos, p.checkDist);
    DistCheckMeaning(bs, pos, p.checkDist, p.drop);
  }

  // ---------------------------------------------------------------------------
  // ArtifactMonitor's registry views

  /** Some artifact this agent found has not been reported yet. */
  predicate OwnPending(rs: seq<ArtifactReport>, id: string)
  {
    exists i :: 0 <= i < |rs| && rs[i].agentId == id && !rs[i].reported
  }

  /** The scan over the registry for an unreported own artifact. */
  method FindOwnPending(rs: seq<ArtifactReport>, id: string) returns (found: bool)
    ensures found == OwnPending(rs, id)
  {
    var i := 0;
    while i < |rs|
      invariant 0 <= i <= |rs|
      invariant forall j :: 0 <= j < i ==> !(rs[j].agentId == id && !rs[j].reported)
    {
      if rs[i].agentId == id && !rs[i].reported {
        return true;
      }
      i := i + 1;
    }
    return false;
  }

  /** The registry with every entry marked reported and nothing else changed. */
  function AllReported(rs: seq<ArtifactReport>): (r: seq<ArtifactReport>)
    ensures |r| == |rs|
    ensures forall i :: 0 <= i < |rs| ==> r[i] == rs[i].(reported := true)
    ensures forall id :: !OwnPending(r, id)
  {
    if |rs| == 0 then [] else AllReported(rs[..|rs| - 1]) + [rs[|rs| - 1].(reported := true)]
  }

  /** The marking loop over the registry. */
  method MarkReported(rs: seq<ArtifactReport>) returns (r: seq<ArtifactReport>)
    ensures r == AllReported(rs)
  {
    r := [];
    var i := 0;
    while i < |rs|
      invariant 0 <= i <= |rs|
      invariant r == AllReported(rs[..i])
    {
      assert rs[..i + 1][..i] == rs[..i];
      r := r + [rs[i].(reported := true)];
      i := i + 1;
    }
    assert rs[..i] == rs;
  }

  /** The report list after Agent.updateHash: images stripped unless the agent reports them. */
  function Rehashed(arts: seq<Artifact>, reportImages: bool): seq<Artifact>
  {
    if reportImages then arts else StripImages(arts)
  }

  // ---------------------------------------------------------------------------
  // StuckMonitor's blacklist candidate

  /** The robot has neither moved 0.5 nor turned 60 degrees over the whole buffer. */
  predicate Still(h: seq<Pose>)
    requires |h| > 0
  {
    Closer(h[0].position, h[|h| - 1].position, 0.5) && -60 < AngleDiff(h[0].yaw, h[|h| - 1].yaw) < 60
  }

  /** The goals within `r` of `c`, in order: the outlier filter. */
  function Survivors(gs: seq<Point>, c: Point, r: real): (s: seq<Point>)
    ensures |s| <= |gs|
    ensures forall x :: x in s <==> x in gs && Closer(x, c, r)
  {
    if |gs| == 0 then []
    else
      var n := |gs| - 1;
      assert gs == gs[..n] + [gs[n]];
      Survivors(gs[..n], c, r) + if Closer(gs[n], c, r) then [gs[n]] else []
  }

  /**
   * The point a stuck robot blacklists: the mean of the goals near the mean of
   * all candidate goals, provided more than half a buffer of them survive and
   * their mean is not the origin. (`hislen / 2` is compared against a length,
   * so integer and true division agree.)
   */
  function Commit(bg: seq<Point>, hislen: nat, radius: real): Option<Point>
    requires |bg| > 0
  {
    var s := Survivors(bg, Mean(bg), radius * 2.0);
    if |s| > hislen / 2 && Mean(s) != Origin then Some(Mean(s)) else None
  }

  /** The averaging and filtering loops of StuckMonitor. */
  method CommitPoint(bg: seq<Point>, hislen: nat, radius: real) returns (c: Option<Point>)
    requires |bg| > 0
    ensures c == Commit(bg, hislen, radius)
  {
    var avg := AveragePosition(bg);
    var kept: seq<Point> := [];
    var i := 0;
    while i < |bg|
      invariant 0 <= i <= |bg|
      invariant kept == Survivors(bg[..i], avg, radius * 2.0)
    {
      assert bg[..i + 1][..i] == bg[..i];
      if Closer(bg[i], avg, radius * 2.0) {
        kept := kept + [bg[i]];
      }
      i := i + 1;
    }
    assert bg[..i] == bg;
    c := None;
    if |kept| > hislen / 2 {
      var m := AveragePosition(kept);
      if m != Origin {
        c := Some(m);
      }
    }
  }

  lemma {:induction false} SurvivorsAll(g: Point, n: nat, r: real)
    requires 0.0 < r
    ensures Survivors(seq(n, _ => g), g, r) == seq(n, _ => g)
  {
    if n > 0 {
      var gs := seq(n, _ => g);
      assert gs[..n - 1] == seq(n - 1, _ => g);
      SurvivorsAll(g, n - 1, r);
      DistanceMeaning(g, g, 0.0, r);
      assert gs[n - 1] == g;
    }
  }

  /**
   * A robot stuck on one goal (away from the origin) for more than half a
   * buffer blacklists exactly that goal.
   */
  lemma StuckOnOneGoal(g: Point, n: nat, hislen: nat, radius: real)
    requires 0.0 < radius && g != Origin && n > hislen / 2
    ensures Commit(seq(n, _ => g), hislen, radius) == Some(g)
  {
    MeanRepeated(g, n);
    SurvivorsAll(g, n, radius * 2.0);
  }

  // ---------------------------------------------------------------------------
  // GUIMonitor's command table

  /** The behaviour a GUI task value asks for; an unknown value keeps the current one. */
  function GuiBehaviorFor(value: string, current: string): string
  {
    if value == "Explore" || value == "Start" then ""
    else if value == "Home" then "home"
    else if value == "Stop" then "stop"
    else if value == "Goal" then "goToGoal"
    else if value == "Deploy" then "deployBeacon"
    else current
  }

  // ---------------------------------------------------------------------------
  // The monitors object

  class Monitors {
    const node: Node
    const act: Actions
    const anchorPos: Point
    const maxAnchorDist: real
    const maxDist: real
    const junctionDist: real
    const minAnchorDist: real
    const turnDetect: bool
    const hislen: nat
    var blBeacons: seq<Point>
    var beaconCommLost: int
    var regainBase: int
    var checkReverse: bool
    var reverseDrop: bool
    var delayDrop: bool
    var stuck: int
    var blgoals: seq<Point>

    /** The counters stay within the ranges their resets keep them in. */
    predicate Counters()
      reads this`beaconCommLost, this`regainBase, this`stuck
    {
      0 <= beaconCommLost <= 5 && 0 <= regainBase <= 6 && 0 <= stuck
    }

    constructor(n: Node, a: Actions, anchor: Point, anchorDropDist: real, dropDist: real,
                junction: real, turns: bool, delay: bool, historyLength: nat)
      requires historyLength >= 2
      ensures node == n && act == a && anchorPos == anchor && maxAnchorDist == anchorDropDist
      ensures maxDist == dropDist && junctionDist == junction && turnDetect == turns
      ensures minAnchorDist == 10.0 && hislen == historyLength && hislen >= 2
      ensures blBeacons == [] && beaconCommLost == 0 && regainBase == 0 && checkReverse
      ensures !reverseDrop && delayDrop == delay && stuck == 0 && blgoals == []
      ensures Counters()
    {
      node, act, anchorPos := n, a, anchor;
      maxAnchorDist, maxDist, junctionDist := anchorDropDist, dropDist, junction;
      minAnchorDist, turnDetect, hislen := 10.0, turns, historyLength;
      blBeacons, beaconCommLost, regainBase, checkReverse := [], 0, 0, true;
      reverseDrop, delayDrop, stuck, blgoals := false, delay, 0, [];
    }

    // -------------------------------------------------------------------------
    // ReverseDropMonitor

    /**
     * The first half of ReverseDropMonitor: regaining comms re-arms the check;
     * after more than five cycles out of comm the robot tries to back up to
     * drop, unless it already tried within junctionDist of here, which
     * disarms the check until comms come back.
     */
    method ReverseAttempt()
      requires Counters()
      modifies this`checkReverse, this`beaconCommLost, this`reverseDrop, this`blBeacons
      ensures Counters()
      ensures node.base.incomm ==>
        checkReverse && beaconCommLost == 0 && reverseDrop == old(reverseDrop) && blBeacons == old(blBeacons)
      ensures !node.base.incomm && !(old(checkReverse) && !old(reverseDrop)) ==>
        checkReverse == old(checkReverse) && beaconCommLost == old(beaconCommLost) &&
        reverseDrop == old(reverseDrop) && blBeacons == old(blBeacons)
      ensures !node.base.incomm && old(checkReverse) && !old(reverseDrop) ==>
        var pos := node.agent.odometry.position;
        var tried := NearAny(old(blBeacons), pos, junctionDist);
        if old(beaconCommLost) < 5 then
          beaconCommLost == old(beaconCommLost) + 1 && checkReverse && !reverseDrop && blBeacons == old(blBeacons)
        else
          beaconCommLost == 0 && reverseDrop == !tried && checkReverse == !tried &&
          blBeacons == if tried then old(blBeacons) else old(blBeacons) + [pos]
    {
      if node.base.incomm {
        checkReverse := true;
        beaconCommLost := 0;
      }
      if checkReverse && !node.base.incomm && !reverseDrop {
        beaconCommLost := beaconCommLost + 1;
        if beaconCommLost > 5 {
          reverseDrop := true;
          var pos := node.agent.odometry.position;
          var tried := NearAnyScan(blBeacons, pos, junctionDist);
          if tried {
            reverseDrop := false;
            checkReverse := false;
          }
          if reverseDrop {
            blBeacons := blBeacons + [pos];
          }
          beaconCommLost := 0;
        }
      }
    }

    /**
     * The second half of ReverseDropMonitor: back in comm after a reverse
     * drop attempt, the robot drops once more than five cycles have passed, or
     * at once near the anchor, provided no active beacon is within
     * junctionDist; either way the attempt ends.
     */
    method RegainDrop()
      requires Counters()
      modifies this`reverseDrop, this`regainBase, act`deployBeacon, act`dropReason
      ensures Counters()
      ensures !(old(reverseDrop) && node.base.incomm) ==>
        regainBase == 0 && reverseDrop == old(reverseDrop) &&
        act.deployBeacon == old(act.deployBeacon) && act.dropReason == old(act.dropReason)
      ensures old(reverseDrop) && node.base.incomm ==>
        var pos := node.agent.odometry.position;
        var settle := old(regainBase) > 5 || !Farther(pos, anchorPos, 10.0);
        var dc := DistCheckOf(node.beacons, pos, junctionDist, true);
        if settle then
          !reverseDrop && regainBase == 0 && act.deployBeacon == (dc.drop || old(act.deployBeacon)) &&
          act.dropReason == if !dc.drop then old(act.dropReason)
                            else if old(regainBase) > 5 then "Regain comms" else "Near anchor"
        else
          reverseDrop && regainBase == old(regainBase) + 1 &&
          act.deployBeacon == old(act.deployBeacon) && act.dropReason == old(act.dropReason)
    {
      if reverseDrop && node.base.incomm {
        var pos := node.agent.odometry.position;
        if regainBase > 5 {
          var dc := BeaconDistCheck(node.beacons, pos, junctionDist, true);
          if dc.drop {
            act.dropReason := "Regain comms";
            act.deployBeacon := true;
          }
          regainBase := 0;
          reverseDrop := false;
        } else if Farther(pos, anchorPos, 10.0) {
          regainBase := regainBase + 1;
        } else {
          var dc := BeaconDistCheck(node.beacons, pos, junctionDist, true);
          if dc.drop {
            act.dropReason := "Near anchor";
            act.deployBeacon := true;
          }
          regainBase := 0;
          reverseDrop := false;
        }
      } else {
        regainBase := 0;
      }
    }

    /**
     * ReverseDropMonitor: ReverseAttempt then RegainDrop. In comm the check is
     * re-armed, the lost counter cleared and a pending reverse attempt settles
     * as RegainDrop says; out of comm the regain counter is cleared, no drop
     * is asked for and the lost counter moves as ReverseAttempt says.
     */
    method ReverseDropMonitor()
      requires Counters()
      modifies this`checkReverse, this`beaconCommLost, this`reverseDrop, this`blBeacons
      modifies this`regainBase, act`deployBeacon, act`dropReason
      ensures Counters()
      ensures node.base.incomm ==> checkReverse && beaconCommLost == 0 && blBeacons == old(blBeacons)
      ensures !node.base.incomm ==>
        regainBase == 0 && act.deployBeacon == old(act.deployBeacon) && act.dropReason == old(act.dropReason)
      ensures node.base.incomm && !old(reverseDrop) ==>
        !reverseDrop && regainBase == 0 && act.deployBeacon == old(act.deployBeacon) && act.dropReason == old(act.dropReason)
      ensures node.base.incomm && old(reverseDrop) ==>
        var pos := node.agent.odometry.position;
        var settle := old(regainBase) > 5 || !Farther(pos, anchorPos, 10.0);
        var dc := DistCheckOf(node.beacons, pos, junctionDist, true);
        if settle then
          !reverseDrop && regainBase == 0 && act.deployBeacon == (dc.drop || old(act.deployBeacon)) &&
          act.dropReason == if !dc.drop then old(act.dropReason)
                            else if old(regainBase) > 5 then "Regain comms" else "Near anchor"
        else
          reverseDrop && regainBase == old(regainBase) + 1 &&
          act.deployBeacon == old(act.deployBeacon) && act.dropReason == old(act.dropReason)
      ensures !node.base.incomm && !(old(checkReverse) && !old(reverseDrop)) ==>
        checkReverse == old(checkReverse) && beaconCommLost == old(beaconCommLost) &&
        reverseDrop == old(reverseDrop) && blBeacons == old(blBeacons)
      ensures !node.base.incomm && old(checkReverse) && !old(reverseDrop) ==>
        var pos := node.agent.odometry.position;
        var tried := NearAny(old(blBeacons), pos, junctionDist);
        if old(beaconCommLost) < 5 then
          beaconCommLost == old(beaconCommLost) + 1 && checkReverse && !reverseDrop && blBeacons == old(blBeacons)
        else
          beaconCommLost == 0 && reverseDrop == !tried && checkReverse == !tried &&
          blBeacons == if tried then old(blBeacons) else old(blBeacons) + [pos]
    {
      ReverseAttempt();
      RegainDrop();
    }

    // -------------------------------------------------------------------------
    // BeaconMonitor

    /**
     * BeaconMonitor: a drop is asked for only with beacons left, in comm and
     * at least minAnchorDist from the anchor, when the decision above says
     * so; a pending delay absorbs that one drop instead.
     */
    method BeaconMonitor(history: seq<Pose>, turned: bool)
      modifies act`deployBeacon, act`dropReason, this`delayDrop
      ensures var pos := node.agent.odometry.position;
        var considered := node.numBeacons > 0 && node.base.incomm && !Closer(pos, anchorPos, minAnchorDist);
        var v := Verdict(node.beacons, pos,
                         PlanDrop(Farther(pos, anchorPos, maxAnchorDist), old(delayDrop), node.agent.atnode,
                                  Turning(history, hislen, turnDetect, turned), maxAnchorDist, maxDist, junctionDist));
        act.deployBeacon == (considered && v.drop && !old(delayDrop)) &&
        delayDrop == (old(delayDrop) && !(considered && v.drop)) &&
        act.dropReason == if considered && v.drop && !old(delayDrop) then v.reason else old(act.dropReason)
    {
      act.deployBeacon := false;
      if node.numBeacons > 0 {
        var pos := node.agent.odometry.position;
        if node.base.incomm {
          if Closer(pos, anchorPos, minAnchorDist) {
            return;
          }
          var plan := PlanDrop(Farther(pos, anchorPos, maxAnchorDist), delayDrop, node.agent.atnode,
                               Turning(history, hislen, turnDetect, turned), maxAnchorDist, maxDist, junctionDist);
          var v := CheckDrop(node.beacons, pos, plan, Closer(pos, anchorPos, maxAnchorDist));
          if v.drop {
            if delayDrop {
              delayDrop := false;
            } else {
              act.dropReason := v.reason;
              act.deployBeacon := true;
            }
          }
        }
      }
    }

    // -------------------------------------------------------------------------
    // ArtifactMonitor

    /**
     * ArtifactMonitor: an unreported own artifact raises the report flag (and
     * rehashes the report); the flag drops only once the run is solo or the
     * base holds this report's hash, and then every artifact is marked
     * reported; otherwise, in comm, the report is rehashed.
     */
    method ArtifactMonitor()
      modifies node`report, node`artifacts, node.agent`checkArtifacts, node.agent`lastArtifact
      ensures var raise := !old(node.report) && OwnPending(old(node.artifacts), node.id);
        var rep := old(node.report) || raise;
        var c1 := if raise then Rehashed(old(node.agent.checkArtifacts), node.agent.reportImages)
                  else old(node.agent.checkArtifacts);
        var d1 := if raise then DigestOf(c1) else old(node.agent.lastArtifact);
        var done := rep && (node.solo || node.base.lastArtifact == d1);
        var again := rep && !done && node.base.incomm;
        node.report == (rep && !done) &&
        node.artifacts == (if done then AllReported(old(node.artifacts)) else old(node.artifacts)) &&
        node.agent.checkArtifacts == (if again then Rehashed(c1, node.agent.reportImages) else c1) &&
        node.agent.lastArtifact == (if again then DigestOf(node.agent.checkArtifacts) else d1)
    {
      if !node.report {
        var pending := FindOwnPending(node.artifacts, node.id);
        if pending {
          node.report := true;
          node.agent.UpdateHash();
        }
      }
      if node.report {
        if node.solo || node.base.lastArtifact == node.agent.lastArtifact {
          node.report := false;
          node.artifacts := MarkReported(node.artifacts);
        } else if node.base.incomm && node.base.lastArtifact != node.agent.lastArtifact {
          node.agent.UpdateHash();
        }
      }
    }

    // -------------------------------------------------------------------------
    // StuckMonitor

    /** The stuck counter and the candidate goals, over a full buffer while a path is set. */
    method StuckCount(history: seq<Pose>)
      requires |history| > 0
      modifies this`stuck, this`blgoals
      ensures stuck == if Still(history) then old(stuck) + 1 else 0
      ensures blgoals == if Still(history) then old(blgoals) + [node.agent.goal.pose] else []
    {
      if Still(history) {
        stuck := stuck + 1;
        blgoals := blgoals + [node.agent.goal.pose];
      } else {
        stuck := 0;
        blgoals := [];
      }
    }

    /** At every stopCheck-th stuck cycle, blacklist the candidates' point if there is one. */
    method StuckBlacklist(now: int)
      requires act.stopCheck > 0 && stuck >= act.stopCheck && |blgoals| > 0
      modifies this`blgoals, act`blacklist, act`blacklistResetTime
      ensures var c := if stuck % act.stopCheck == 0 then Commit(old(blgoals), hislen, act.deconflictRadius) else None;
        var g := if c.Some? then c.value else Origin;
        var bl := old(act.blacklist);
        var added := c.Some? && !NearAny(bl, g, act.deconflictRadius);
        blgoals == (if c.Some? then [] else old(blgoals)) &&
        act.blacklist == (if added then bl + [g] else bl) &&
        act.blacklistResetTime == if added && bl == [] then now + 20 else old(act.blacklistResetTime)
    {
      if stuck % act.stopCheck == 0 {
        var c := CommitPoint(blgoals, hislen, act.deconflictRadius);
        if c.Some? {
          act.AddBlacklist(c.value, now);
          blgoals := [];
        }
      }
    }

    /**
     * StuckMonitor: with a path and a full buffer, count still cycles and
     * collect the goals; from stopCheck cycles on report "Stuck" and
     * blacklist at every multiple of stopCheck. Without a path report
     * "No Path".
     */
    method StuckMonitor(history: seq<Pose>, now: int)
      requires act.stopCheck > 0 && stuck >= 0
      modifies this`stuck, this`blgoals, act`blacklist, act`blacklistResetTime, act`newStatus
      ensures stuck >= 0
      ensures |node.agent.goal.path| == 0 ==>
        stuck == old(stuck) && blgoals == old(blgoals) && act.blacklist == old(act.blacklist) &&
        act.newStatus == Noted(old(act.newStatus), "No Path")
      ensures |node.agent.goal.path| > 0 && |history| != hislen ==>
        stuck == old(stuck) && blgoals == old(blgoals) && act.blacklist == old(act.blacklist) &&
        act.newStatus == old(act.newStatus)
      ensures |node.agent.goal.path| > 0 && |history| == hislen && hislen > 0 ==>
        var s1 := if Still(history) then old(stuck) + 1 else 0;
        var b1 := if Still(history) then old(blgoals) + [node.agent.goal.pose] else [];
        var c := if s1 >= act.stopCheck && s1 % act.stopCheck == 0
                 then Commit(b1, hislen, act.deconflictRadius) else None;
        stuck == s1 &&
        blgoals == (if c.Some? then [] else b1) &&
        (c.None? ==> act.blacklist == old(act.blacklist) && act.blacklistResetTime == old(act.blacklistResetTime)) &&
        (c.Some? ==> act.blacklist == if NearAny(old(act.blacklist), c.value, act.deconflictRadius)
                                      then old(act.blacklist) else old(act.blacklist) + [c.value]) &&
        act.newStatus == if s1 >= act.stopCheck then Noted(old(act.newStatus), "Stuck") else old(act.newStatus)
    {
      if |node.agent.goal.path| > 0 && |history| == hislen && hislen > 0 {
        StuckCount(history);
        if stuck >= act.stopCheck {
          StuckBlacklist(now);
          act.UpdateStatus("Stuck");
        }
      } else if |node.agent.goal.path| == 0 {
        act.UpdateStatus("No Path");
      }
    }

    // -------------------------------------------------------------------------
    // GUIMonitor

    /**
     * GUIMonitor: an accepted "task" command sets the GUI behaviour from its
     * value (Deploy also gives the drop its reason); any accepted command is
     * consumed.
     */
    method GUIMonitor()
      modifies act`guiBehavior, act`dropReason, node.agent`guiAccept
      ensures !node.agent.guiAccept
      ensures var value := node.agent.guiTaskValue;
        if old(node.agent.guiAccept) && node.agent.guiTaskName == "task" then
          act.guiBehavior == GuiBehaviorFor(value, old(act.guiBehavior)) &&
          act.dropReason == if value == "Deploy" then "GUI Command" else old(act.dropReason)
        else
          act.guiBehavior == old(act.guiBehavior) && act.dropReason == old(act.dropReason)
    {
      if node.agent.guiAccept {
        if node.agent.guiTaskName == "task" {
          var value := node.agent.guiTaskValue;
          if value == "Explore" || value == "Start" {
            act.guiBehavior := "";
          } else if value == "Home" {
            act.guiBehavior := "home";
          } else if value == "Stop" {
            act.guiBehavior := "stop";
          } else if value == "Goal" {
            act.guiBehavior := "goToGoal";
          } else if value == "Deploy" {
            act.guiBehavior := "deployBeacon";
            act.dropReason := "GUI Command";
          }
        }
        node.agent.guiAccept := false;
      }
    }
  }
}
