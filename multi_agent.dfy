/**
 * The first-generation multi-agent node (src/multi_agent.py): the same
 * registries as the coordinator (neighbours, beacons, artifacts) with simpler
 * rules. Neighbours are refreshed from direct and relayed messages, beacons
 * are owned in numbered blocks, a robot drops its beacons as the coordinator
 * does, and artifacts are keyed by their printed position.
 *
 * Python prints a position's coordinates with str(); that text is `keyOf`,
 * a parameter of the node, and nothing here depends on what it is.
 */
module MultiAgentNode {
  import opened Helpers
  import opened Containers
  import opened Bobcat
  import opened Beacons
  import opened Monitors
  import opened RobotNode

  // ---------------------------------------------------------------------------
  // Messages

  /**
   * What a message carries about one agent: its id, who it last talked to
   * directly, its pose, its next goal, its map as text, when it was last heard,
   * its beacon list and its new artifacts.
   */
  datatype Msg = Msg(id: string, cid: string, odometry: Pose, goal: Point, mapData: string,
                     lastMessage: int, commBeacons: seq<BeaconEntry>, newArtifacts: seq<Artifact>)

  /** An agent message: the sender's own data, its type, and what it knows about the others. */
  datatype AgentMsg = AgentMsg(body: Msg, kind: string, neighbors: seq<Msg>)

  // ---------------------------------------------------------------------------
  // Beacon ownership

  /** Beacon number i belongs to the robot with number `sid` carrying `n` beacons: the sid-th block of n. */
  predicate Owned(i: int, sid: int, n: int)
  {
    (sid - 1) * n < i <= sid * n
  }

  lemma MulMonotonic(a: int, b: int, n: int)
    requires a <= b && n >= 0
    ensures a * n <= b * n
  {
    assert b * n - a * n == (b - a) * n;
  }

  /** Two robots with different numbers never own the same beacon. */
  lemma OwnershipDisjoint(i: int, s: int, t: int, n: int)
    requires n >= 0 && Owned(i, s, n) && Owned(i, t, n)
    ensures s == t
  {
    if s < t {
      MulMonotonic(s, t - 1, n);
    } else if t < s {
      MulMonotonic(t, s - 1, n);
    }
  }

  /** The decimal digits of n. */
  function Digits(n: nat): (s: string)
    ensures |s| > 0
  {
    if n < 10 then [(48 + n) as char] else Digits(n / 10) + [(48 + n % 10) as char]
  }

  /**
   * A BeaconObj as __init__ creates it: not yet placed, reachable, inactive.
   * This generation's BeaconObj has no clock or comm flag; those are 0 and false.
   */
  function NewBeaconObj(i: nat, sid: int, n: int): (b: Beacon)
    ensures Idle(b) <==> Owned(i, sid, n)
    ensures b.simcomm && !b.active && b.pos == Origin
  {
    Beacon("B" + Digits(i), Owned(i, sid, n), Origin, 0, 0, false, true, false)
  }

  /** The beacon registry __init__ builds: B1 .. B<total>, each owned as Owned says. */
  function Registry(total: nat, sid: int, n: int): (bs: seq<Beacon>)
    ensures |bs| == total
    ensures forall i :: 0 <= i < total ==> bs[i] == NewBeaconObj(i + 1, sid, n)
  {
    if total == 0 then [] else Registry(total - 1, sid, n) + [NewBeaconObj(total, sid, n)]
  }

  /** How many of the numbers 1 .. t the block (lo, hi] holds. */
  function InBlock(t: int, lo: int, hi: int): int
  {
    var top := if t < hi then t else hi;
    var bottom := if lo < 0 then 0 else lo;
    if top > bottom then top - bottom else 0
  }

  lemma InBlockStep(t: int, lo: int, hi: int)
    requires t >= 1
    ensures InBlock(t, lo, hi) == InBlock(t - 1, lo, hi) + if lo < t <= hi then 1 else 0
  {
  }

  lemma InBlockBounds(t: int, lo: int, hi: int)
    requires lo <= hi
    ensures 0 <= InBlock(t, lo, hi) <= hi - lo
    ensures t >= hi && lo >= 0 ==> InBlock(t, lo, hi) == hi - lo
    ensures hi <= 0 ==> InBlock(t, lo, hi) == 0
  {
  }

  lemma {:induction false} RegistryCount(total: nat, sid: int, n: int)
    ensures IdleCount(Registry(total, sid, n)) == InBlock(total, (sid - 1) * n, sid * n)
  {
    if total > 0 {
      var lo, hi := (sid - 1) * n, sid * n;
      RegistryCount(total - 1, sid, n);
      var bs := Registry(total, sid, n);
      assert bs[..total - 1] == Registry(total - 1, sid, n);
      assert IdleCount(bs) == IdleCount(bs[..total - 1]) + if Idle(bs[total - 1]) then 1 else 0;
      assert Idle(bs[total - 1]) <==> lo < total <= hi;
      InBlockStep(total, lo, hi);
    }
  }

  /**
   * A robot carries the beacons of its block: the registry holds no more idle
   * beacons than the robot's count, and exactly that many once the registry
   * reaches the end of its block (the base, with number 0, owns none).
   */
  lemma RegistryOwnsBlock(total: nat, sid: int, n: int)
    requires n >= 0
    ensures IdleCount(Registry(total, sid, n)) <= n
    ensures sid >= 1 && total >= sid * n ==> IdleCount(Registry(total, sid, n)) == n
    ensures sid <= 0 ==> IdleCount(Registry(total, sid, n)) == 0
  {
    var lo, hi := (sid - 1) * n, sid * n;
    assert hi - lo == n;
    RegistryCount(total, sid, n);
    InBlockBounds(total, lo, hi);
    if sid >= 1 {
      MulMonotonic(0, sid - 1, n);
    }
    if sid <= 0 {
      MulMonotonic(sid, 0, n);
    }
  }

  /** The registry loop of __init__. */
  method BuildRegistry(total: nat, sid: int, n: int) returns (bs: seq<Beacon>)
    ensures bs == Registry(total, sid, n)
  {
    bs := [];
    var i := 1;
    while i <= total
      invariant 1 <= i <= total + 1
      invariant bs == Registry(i - 1, sid, n)
    {
      var owner := i <= sid * n && i > (sid - 1) * n;
      bs := bs + [Beacon("B" + Digits(i), owner, Origin, 0, 0, false, true, false)];
      i := i + 1;
    }
  }

  // ---------------------------------------------------------------------------
  // Beacon activation from a message

  /** Some entry of the list names `id`. */
  predicate Named(es: seq<BeaconEntry>, id: string)
  {
    exists j :: 0 <= j < |es| && es[j].id == id
  }

  /** The position of the last entry naming `id`, if any: where an inactive beacon places itself. */
  function Placement(es: seq<BeaconEntry>, id: string): (r: Option<Point>)
    ensures r.Some? <==> Named(es, id)
    ensures r.Some? ==> exists j :: 0 <= j < |es| && es[j].id == id && es[j].pos == r.value
  {
    if |es| == 0 then None
    else
      var n := |es| - 1;
      assert forall j :: 0 <= j < n ==> es[..n][j] == es[j];
      if es[n].id == id then Some(es[n].pos)
      else
        var r := Placement(es[..n], id);
        assert Named(es, id) ==> Named(es[..n], id);
        r
  }

  /** The activation loop: every entry naming `id` activates it there, the last one winning. */
  method ScanPlacement(es: seq<BeaconEntry>, id: string) returns (r: Option<Point>)
    ensures r == Placement(es, id)
  {
    r := None;
    var j := 0;
    while j < |es|
      invariant 0 <= j <= |es|
      invariant r == Placement(es[..j], id)
    {
      assert es[..j + 1][..j] == es[..j];
      if es[j].id == id {
        r := Some(es[j].pos);
      }
      j := j + 1;
    }
    assert es[..j] == es;
  }

  // ---------------------------------------------------------------------------
  // Artifacts keyed by position

  /** Some stored report sits at a position whose key is k. */
  predicate Keyed(keyOf: Point -> string, arts: seq<ArtifactReport>, k: string)
  {
    exists i :: 0 <= i < |arts| && keyOf(arts[i].artifact.position) == k
  }

  /** No two stored reports share a key. */
  predicate KeysDistinct(keyOf: Point -> string, arts: seq<ArtifactReport>)
  {
    forall i, j :: 0 <= i < j < |arts| ==> keyOf(arts[i].artifact.position) != keyOf(arts[j].artifact.position)
  }

  /** ArtifactReport(artifact, id) of this generation: new and unreported, keyed by position. */
  function Fresh(keyOf: Point -> string, a: Artifact, now: int): (r: ArtifactReport)
    ensures r.artifact == a && !r.reported && r.isNew
  {
    ArtifactReport(keyOf(a.position), "", a, false, 0, true, now, false)
  }

  /** The stored reports and the report flag. */
  datatype Ledger = Ledger(arts: seq<ArtifactReport>, report: bool)

  /**
   * artifactCheck for one detection: an artifact at an unseen key is stored,
   * and for an own detection the report flag rises unless some neighbour
   * already holds an artifact within planar distance 3.
   */
  function Take(keyOf: Point -> string, st: Ledger, a: Artifact, own: bool, others: seq<ArtifactReport>,
                now: int): Ledger
  {
    if Keyed(keyOf, st.arts, keyOf(a.position)) then st
    else Ledger(st.arts + [Fresh(keyOf, a, now)], st.report || (own && !NearStored(others, a.position)))
  }

  /** artifactCheck over a list of detections, in order. */
  function TakeAll(keyOf: Point -> string, st: Ledger, xs: seq<Artifact>, own: bool,
                   others: seq<ArtifactReport>, now: int): Ledger
  {
    if |xs| == 0 then st
    else Take(keyOf, TakeAll(keyOf, st, xs[..|xs| - 1], own, others, now), xs[|xs| - 1], own, others, now)
  }

  /** Detection i brings a key neither stored before nor brought by an earlier detection. */
  predicate NewAt(keyOf: Point -> string, arts: seq<ArtifactReport>, xs: seq<Artifact>, i: int)
    requires 0 <= i < |xs|
  {
    !Keyed(keyOf, arts, keyOf(xs[i].position)) &&
    forall j :: 0 <= j < i ==> keyOf(xs[j].position) != keyOf(xs[i].position)
  }

  lemma TakeStep(keyOf: Point -> string, st: Ledger, a: Artifact, own: bool, others: seq<ArtifactReport>, now: int)
    ensures var r := Take(keyOf, st, a, own, others, now);
      st.arts <= r.arts && Keyed(keyOf, r.arts, keyOf(a.position)) &&
      (forall k :: Keyed(keyOf, r.arts, k) <==> Keyed(keyOf, st.arts, k) || k == keyOf(a.position)) &&
      (KeysDistinct(keyOf, st.arts) ==> KeysDistinct(keyOf, r.arts))
  {
    var r := Take(keyOf, st, a, own, others, now);
    if !Keyed(keyOf, st.arts, keyOf(a.position)) {
      assert r.arts[|st.arts|].artifact.position == a.position;
      forall k | Keyed(keyOf, r.arts, k) ensures Keyed(keyOf, st.arts, k) || k == keyOf(a.position) {
        var i :| 0 <= i < |r.arts| && keyOf(r.arts[i].artifact.position) == k;
        if i < |st.arts| {
          assert r.arts[i] == st.arts[i];
        }
      }
      forall k | Keyed(keyOf, st.arts, k) ensures Keyed(keyOf, r.arts, k) {
        var i :| 0 <= i < |st.arts| && keyOf(st.arts[i].artifact.position) == k;
        assert r.arts[i] == st.arts[i];
      }
    }
  }

  /** Some detection sits at a position whose key is k. */
  predicate Brought(keyOf: Point -> string, xs: seq<Artifact>, k: string)
  {
    exists i :: 0 <= i < |xs| && keyOf(xs[i].position) == k
  }

  lemma BroughtLast(keyOf: Point -> string, xs: seq<Artifact>, k: string)
    requires |xs| > 0
    ensures Brought(keyOf, xs, k) <==> Brought(keyOf, xs[..|xs| - 1], k) || k == keyOf(xs[|xs| - 1].position)
  {
    var n := |xs| - 1;
    if Brought(keyOf, xs, k) && k != keyOf(xs[n].position) {
      var i :| 0 <= i < |xs| && keyOf(xs[i].position) == k;
      assert xs[..n][i] == xs[i];
    }
    if Brought(keyOf, xs[..n], k) {
      var i :| 0 <= i < n && keyOf(xs[..n][i].position) == k;
      assert xs[i] == xs[..n][i];
    }
  }

  /**
   * What artifactCheck stores: the stored reports only grow at the end, every
   * detection's key is stored, nothing else is, and keys stay distinct.
   */
  lemma {:induction false} TakeAllKeys(keyOf: Point -> string, st: Ledger, xs: seq<Artifact>, own: bool,
                                       others: seq<ArtifactReport>, now: int)
    ensures var r := TakeAll(keyOf, st, xs, own, others, now);
      st.arts <= r.arts &&
      (forall k :: Keyed(keyOf, r.arts, k) <==> Keyed(keyOf, st.arts, k) || Brought(keyOf, xs, k)) &&
      (KeysDistinct(keyOf, st.arts) ==> KeysDistinct(keyOf, r.arts))
    decreases |xs|
  {
    if |xs| > 0 {
      var n := |xs| - 1;
      var p := TakeAll(keyOf, st, xs[..n], own, others, now);
      TakeAllKeys(keyOf, st, xs[..n], own, others, now);
      TakeStep(keyOf, p, xs[n], own, others, now);
      forall k {
        BroughtLast(keyOf, xs, k);
      }
    }
  }

  /** Detection n is at a new key exactly when the ledger built from the earlier ones lacks its key. */
  lemma NewAtLast(keyOf: Point -> string, st: Ledger, xs: seq<Artifact>, own: bool,
                  others: seq<ArtifactReport>, now: int)
    requires |xs| > 0
    ensures var n := |xs| - 1;
      !Keyed(keyOf, TakeAll(keyOf, st, xs[..n], own, others, now).arts, keyOf(xs[n].position)) <==>
      NewAt(keyOf, st.arts, xs, n)
  {
    var n := |xs| - 1;
    var p := TakeAll(keyOf, st, xs[..n], own, others, now);
    TakeAllKeys(keyOf, st, xs[..n], own, others, now);
    if !Keyed(keyOf, p.arts, keyOf(xs[n].position)) {
      forall j | 0 <= j < n ensures keyOf(xs[j].position) != keyOf(xs[n].position) {
        assert keyOf(xs[..n][j].position) == keyOf(xs[j].position);
      }
    } else if !Keyed(keyOf, st.arts, keyOf(xs[n].position)) {
      var i :| 0 <= i < n && keyOf(xs[..n][i].position) == keyOf(xs[n].position);
      assert keyOf(xs[i].position) == keyOf(xs[n].position);
    }
  }

  /** Some detection is an own one at a new key with no neighbour artifact within planar distance 3. */
  predicate Reportable(keyOf: Point -> string, arts: seq<ArtifactReport>, xs: seq<Artifact>, own: bool,
                       others: seq<ArtifactReport>)
  {
    own && exists i :: 0 <= i < |xs| && NewAt(keyOf, arts, xs, i) && !NearStored(others, xs[i].position)
  }

  /** artifactCheck raises the report flag exactly for a reportable detection. */
  lemma {:induction false} TakeAllReport(keyOf: Point -> string, st: Ledger, xs: seq<Artifact>, own: bool,
                                         others: seq<ArtifactReport>, now: int)
    ensures TakeAll(keyOf, st, xs, own, others, now).report <==>
            st.report || Reportable(keyOf, st.arts, xs, own, others)
    decreases |xs|
  {
    if |xs| > 0 {
      var n := |xs| - 1;
      var p := TakeAll(keyOf, st, xs[..n], own, others, now);
      TakeAllReport(keyOf, st, xs[..n], own, others, now);
      NewAtLast(keyOf, st, xs, own, others, now);
      assert forall i :: 0 <= i < n ==> (NewAt(keyOf, st.arts, xs[..n], i) <==> NewAt(keyOf, st.arts, xs, i));
      if p.report && !st.report {
        var i :| 0 <= i < n && NewAt(keyOf, st.arts, xs[..n], i) && !NearStored(others, xs[..n][i].position);
        assert NewAt(keyOf, st.arts, xs, i) && !NearStored(others, xs[i].position);
      }
      if !st.report && Reportable(keyOf, st.arts, xs, own, others) {
        var i :| 0 <= i < |xs| && NewAt(keyOf, st.arts, xs, i) && !NearStored(others, xs[i].position);
        if i < n {
          assert NewAt(keyOf, st.arts, xs[..n], i) && !NearStored(others, xs[..n][i].position);
        }
      }
    }
  }

  /** The artifactCheck loop over one list of detections. */
  method TakeEach(keyOf: Point -> string, st: Ledger, xs: seq<Artifact>, own: bool,
                  others: seq<ArtifactReport>, now: int) returns (r: Ledger)
    ensures r == TakeAll(keyOf, st, xs, own, others, now)
  {
    r := st;
    var i := 0;
    while i < |xs|
      invariant 0 <= i <= |xs|
      invariant r == TakeAll(keyOf, st, xs[..i], own, others, now)
    {
      assert xs[..i + 1][..i] == xs[..i];
      var a := xs[i];
      var key := keyOf(a.position);
      var stored := KeyScan(keyOf, r.arts, key);
      if !stored {
        var near := false;
        if own {
          near := NearStoredScan(others, a.position);
        }
        r := Ledger(r.arts + [Fresh(keyOf, a, now)], r.report || (own && !near));
      }
      i := i + 1;
    }
    assert xs[..i] == xs;
  }

  /** The membership test of the key in the dictionary. */
  method KeyScan(keyOf: Point -> string, arts: seq<ArtifactReport>, k: string) returns (found: bool)
    ensures found == Keyed(keyOf, arts, k)
  {
    var i := 0;
    while i < |arts|
      invariant 0 <= i <= |arts|
      invariant forall j :: 0 <= j < i ==> keyOf(arts[j].artifact.position) != k
    {
      if keyOf(arts[i].artifact.position) == k {
        return true;
      }
      i := i + 1;
    }
    return false;
  }

  // ---------------------------------------------------------------------------
  // Neighbours

  /** The part of a neighbour record that messages update. */
  datatype NeighborState = NeighborState(cid: string, odometry: Pose, goal: Point, mapData: string,
                                         commBeacons: seq<BeaconEntry>, newArtifacts: seq<Artifact>,
                                         lastMessage: int, incomm: bool)

  /**
   * What this node knows about another agent (Neighbor), or about itself
   * (Agent): the part messages update (`state`), whether it is at a junction,
   * the artifacts kept for it, the fingerprint of its last artifact list the
   * base has seen, and whether the simulator lets it be reached.
   */
  class Neighbor {
    const id: string
    const pid: string
    var state: NeighborState
    var atnode: bool
    var artifacts: seq<ArtifactReport>
    var lastArtifact: Digest
    var simcomm: bool

    /** __init__: nothing heard yet except the clock; in comm and reachable. */
    constructor(agentId: string, parentId: string, now: int)
      ensures id == agentId && pid == parentId && !atnode && artifacts == [] && lastArtifact == NoDigest && simcomm
      ensures state == NeighborState("", Pose(Origin, 0), Origin, "", [], [], now, true)
    {
      id, pid := agentId, parentId;
      state := NeighborState("", Pose(Origin, 0), Origin, "", [], [], now, true);
      atnode, artifacts, lastArtifact, simcomm := false, [], NoDigest, true;
    }

    /** update, as Refreshed says. */
    method Update(m: Msg, updater: string, now: int)
      modifies this`state
      ensures state == Refreshed(old(state), m, updater, now)
    {
      var s := state.(odometry := m.odometry, goal := m.goal);
      if |m.mapData| > 100 {
        s := s.(mapData := m.mapData);
      }
      if updater != "" {
        s := s.(commBeacons := m.commBeacons, newArtifacts := m.newArtifacts, cid := updater,
                lastMessage := now, incomm := true);
      } else {
        s := s.(cid := m.cid, lastMessage := m.lastMessage, incomm := false);
      }
      state := s;
    }
  }

  /** The ids of some neighbours, in order. */
  function NeighborIds(ns: seq<Neighbor>): (r: seq<string>)
    ensures |r| == |ns| && forall j :: 0 <= j < |ns| ==> r[j] == ns[j].id
  {
    if |ns| == 0 then [] else NeighborIds(ns[..|ns| - 1]) + [ns[|ns| - 1].id]
  }

  /** Where `x` is listed. */
  function IndexOf(ids: seq<string>, x: string): (j: nat)
    requires x in ids
    ensures j < |ids| && ids[j] == x
  {
    if ids[|ids| - 1] == x then |ids| - 1 else IndexOf(ids[..|ids| - 1], x)
  }

  /** In a list without repeats, the listed position of an id is the only one. */
  lemma IndexOfUnique(ids: seq<string>, j: nat)
    requires Distinct(ids) && j < |ids|
    ensures IndexOf(ids, ids[j]) == j
  {
  }

  /**
   * The neighbour ids __init__ sets up: the potential neighbours other than
   * `self`, in order; a repeated id keeps its first place, as a dictionary key does.
   */
  function Others(ids: seq<string>, self: string): (r: seq<string>)
    ensures Distinct(r)
    ensures forall x :: x in r <==> x in ids && x != self
  {
    if |ids| == 0 then []
    else
      var n := |ids| - 1;
      var p := Others(ids[..n], self);
      assert forall x :: x in ids <==> x in ids[..n] || x == ids[n];
      if ids[n] != self && ids[n] !in p then p + [ids[n]] else p
  }

  /** Fresh neighbour records for the potential neighbours other than `self`, each id once, in order. */
  method MakeNeighbors(ids: seq<string>, self: string, now: int) returns (ns: seq<Neighbor>)
    ensures forall i :: 0 <= i < |ns| ==>
      fresh(ns[i]) && ns[i].pid == self && ns[i].simcomm && ns[i].artifacts == [] &&
      ns[i].state == NeighborState("", Pose(Origin, 0), Origin, "", [], [], now, true)
    ensures NeighborIds(ns) == Others(ids, self)
  {
    var wanted := Others(ids, self);
    ns := [];
    var k := 0;
    while k < |wanted|
      invariant 0 <= k <= |wanted|
      invariant forall i :: 0 <= i < |ns| ==>
        fresh(ns[i]) && ns[i].pid == self && ns[i].simcomm && ns[i].artifacts == [] &&
        ns[i].state == NeighborState("", Pose(Origin, 0), Origin, "", [], [], now, true)
      invariant NeighborIds(ns) == wanted[..k]
    {
      var n := new Neighbor(wanted[k], self, now);
      assert NeighborIds(ns + [n]) == NeighborIds(ns) + [wanted[k]];
      assert wanted[..k + 1] == wanted[..k] + [wanted[k]];
      ns := ns + [n];
      k := k + 1;
    }
    assert k == |wanted| && wanted[..k] == wanted;
  }

  // ---------------------------------------------------------------------------
  // What a message changes in a neighbour record

  /** The records of some neighbours, in order. */
  function Views(ns: seq<Neighbor>): (r: seq<NeighborState>)
    reads ns`state
    ensures |r| == |ns| && forall j :: 0 <= j < |ns| ==> r[j] == ns[j].state
  {
    if |ns| == 0 then [] else Views(ns[..|ns| - 1]) + [ns[|ns| - 1].state]
  }

  /** Whether each neighbour is reachable under simulated comms, in order. */
  function SimFlags(ns: seq<Neighbor>): (r: seq<bool>)
    reads ns`simcomm
    ensures |r| == |ns| && forall j :: 0 <= j < |ns| ==> r[j] == ns[j].simcomm
  {
    if |ns| == 0 then [] else SimFlags(ns[..|ns| - 1]) + [ns[|ns| - 1].simcomm]
  }

  /**
   * Neighbor.update on a record: pose and goal always, the map only from a
   * message longer than 100 characters. A message from the agent itself
   * (`updater` names the receiving node) also brings its beacons and
   * artifacts, links it through the receiver, stamps it `now` and marks it in
   * comm; a relayed one takes the relay's link and time and marks it out of
   * direct comm.
   */
  function Refreshed(s: NeighborState, m: Msg, updater: string, now: int): (r: NeighborState)
    ensures r.odometry == m.odometry && r.goal == m.goal
    ensures r.mapData == if |m.mapData| > 100 then m.mapData else s.mapData
    ensures r.incomm <==> updater != ""
    ensures updater != "" ==> r.cid == updater && r.lastMessage == now &&
                              r.commBeacons == m.commBeacons && r.newArtifacts == m.newArtifacts
    ensures updater == "" ==> r.cid == m.cid && r.lastMessage == m.lastMessage &&
                              r.commBeacons == s.commBeacons && r.newArtifacts == s.newArtifacts
  {
    var map' := if |m.mapData| > 100 then m.mapData else s.mapData;
    if updater != "" then NeighborState(updater, m.odometry, m.goal, map', m.commBeacons, m.newArtifacts, now, true)
    else NeighborState(m.cid, m.odometry, m.goal, map', s.commBeacons, s.newArtifacts, m.lastMessage, false)
  }

  /** Every relayed record other than the receiver's own names a known neighbour. */
  predicate Relayable(ids: seq<string>, self: string, ms: seq<Msg>)
  {
    forall k :: 0 <= k < |ms| && ms[k].id != self ==> ms[k].id in ids
  }

  /**
   * One relayed record: it is taken only after the start, when it is more than
   * 5 seconds newer than what the receiver holds, and the receiver is not in
   * direct comm with that agent.
   */
  function RelayStep(ss: seq<NeighborState>, ids: seq<string>, self: string, m: Msg, notStart: bool,
                     now: int): (r: seq<NeighborState>)
    requires |ss| == |ids| && (m.id != self ==> m.id in ids)
    ensures |r| == |ss|
  {
    if m.id == self then ss
    else
      var j := IndexOf(ids, m.id);
      if notStart && m.lastMessage > ss[j].lastMessage + 5 && (ss[j].cid != self || !ss[j].incomm)
      then ss[j := Refreshed(ss[j], m, "", now)]
      else ss
  }

  /** The relayed records, in order. */
  function Relays(ss: seq<NeighborState>, ids: seq<string>, self: string, ms: seq<Msg>, notStart: bool,
                  now: int): (r: seq<NeighborState>)
    requires |ss| == |ids| && Relayable(ids, self, ms)
    ensures |r| == |ss|
  {
    if |ms| == 0 then ss
    else
      var n := |ms| - 1;
      assert Relayable(ids, self, ms[..n]) by {
        forall k | 0 <= k < n && ms[..n][k].id != self ensures ms[..n][k].id in ids {
          assert ms[..n][k] == ms[k];
        }
      }
      RelayStep(Relays(ss, ids, self, ms[..n], notStart, now), ids, self, ms[n], notStart, now)
  }

  /**
   * What relaying does to the receiver's records: nothing before the start; a
   * neighbour in direct comm keeps its record; a record only ever moves to a
   * message more than 5 seconds newer, about that same agent, and is then out
   * of direct comm.
   */
  lemma {:induction false} RelaysMeaning(ss: seq<NeighborState>, ids: seq<string>, self: string, ms: seq<Msg>,
                                         notStart: bool, now: int)
    requires |ss| == |ids| && Distinct(ids) && Relayable(ids, self, ms)
    ensures var r := Relays(ss, ids, self, ms, notStart, now);
      (!notStart ==> r == ss) &&
      forall j :: 0 <= j < |ss| ==>
        r[j].lastMessage >= ss[j].lastMessage &&
        (ss[j].cid == self && ss[j].incomm ==> r[j] == ss[j]) &&
        (r[j] != ss[j] ==>
          !r[j].incomm && r[j].lastMessage > ss[j].lastMessage + 5 &&
          exists k :: 0 <= k < |ms| && ms[k].id == ids[j] && r[j].lastMessage == ms[k].lastMessage &&
                      r[j].cid == ms[k].cid && r[j].odometry == ms[k].odometry)
    decreases |ms|
  {
    if |ms| > 0 {
      var n := |ms| - 1;
      assert Relayable(ids, self, ms[..n]) by {
        forall k | 0 <= k < n && ms[..n][k].id != self ensures ms[..n][k].id in ids {
          assert ms[..n][k] == ms[k];
        }
      }
      RelaysMeaning(ss, ids, self, ms[..n], notStart, now);
      var p := Relays(ss, ids, self, ms[..n], notStart, now);
      var r := Relays(ss, ids, self, ms, notStart, now);
      forall j | 0 <= j < |ss| && r[j] != ss[j]
        ensures exists k :: 0 <= k < |ms| && ms[k].id == ids[j] && r[j].lastMessage == ms[k].lastMessage &&
                            r[j].cid == ms[k].cid && r[j].odometry == ms[k].odometry
      {
        if r[j] != p[j] {
          assert ms[n].id == ids[j];
        } else {
          var k :| 0 <= k < n && ms[..n][k].id == ids[j] && p[j].lastMessage == ms[..n][k].lastMessage &&
                   p[j].cid == ms[..n][k].cid && p[j].odometry == ms[..n][k].odometry;
          assert ms[..n][k] == ms[k];
        }
      }
    }
  }

  /**
   * CommReceiver's effect on the neighbour records once the message is
   * processed. A beacon's message counts while that beacon is reachable and a
   * base's always, both from the start of the clock; a robot's only while it is
   * reachable, and only after that robot was heard before (a first message is
   * taken directly but not its relays). The sender's record is refreshed
   * directly, then the relayed records are applied.
   */
  function Received(ss: seq<NeighborState>, ids: seq<string>, sims: seq<bool>, beaconSim: bool, self: string,
                    m: AgentMsg, now: int): (r: seq<NeighborState>)
    requires |ss| == |ids| == |sims| && Relayable(ids, self, m.neighbors)
    requires m.kind != "beacon" && m.kind != "base" ==> m.body.id in ids
    ensures |r| == |ss|
  {
    if m.kind == "beacon" then
      if beaconSim then Relays(ss, ids, self, m.neighbors, now > 0, now) else ss
    else if m.kind == "base" then Relays(ss, ids, self, m.neighbors, now > 0, now)
    else
      var j := IndexOf(ids, m.body.id);
      if sims[j] then
        Relays(ss[j := Refreshed(ss[j], m.body, self, now)], ids, self, m.neighbors, ss[j].lastMessage > 0, now)
      else ss
  }

  /**
   * A reachable robot's message leaves its record fresh and in direct comm
   * through the receiver, whatever it relays; an unreachable robot's message
   * changes nothing.
   */
  lemma SenderRecord(ss: seq<NeighborState>, ids: seq<string>, sims: seq<bool>, beaconSim: bool, self: string,
                     m: AgentMsg, now: int)
    requires |ss| == |ids| == |sims| && Distinct(ids) && Relayable(ids, self, m.neighbors) && self != ""
    requires m.kind != "beacon" && m.kind != "base" && m.body.id in ids
    ensures var j := IndexOf(ids, m.body.id);
      var r := Received(ss, ids, sims, beaconSim, self, m, now);
      (sims[j] ==> r[j] == Refreshed(ss[j], m.body, self, now) && r[j].incomm && r[j].cid == self &&
                   r[j].lastMessage == now) &&
      (!sims[j] ==> r == ss)
  {
    var j := IndexOf(ids, m.body.id);
    if sims[j] {
      var pre := ss[j := Refreshed(ss[j], m.body, self, now)];
      RelaysMeaning(pre, ids, self, m.neighbors, ss[j].lastMessage > 0, now);
    }
  }

  // ---------------------------------------------------------------------------
  // Simulated comms

  /**
   * recurCommCheck on the node's reachability marks: from `cid`, every agent its
   * comm check reports in comm (other than the node itself) is marked and
   * expanded in turn. Marks are only ever added, the node's own mark is left
   * alone, and afterwards `cid` and every newly marked agent are closed: what
   * they see in comm is marked.
   */
  method Reach(sims: map<string, bool>, checks: map<string, seq<CommsCheck>>, self: string, cid: string)
    returns (r: map<string, bool>)
    requires ChecksKnown(sims, checks, self)
    ensures Grows(sims, r)
    ensures self in sims ==> r[self] == sims[self]
    ensures Closed(r, checks, self, cid)
    ensures forall x :: x in r && r[x] && !sims[x] ==> Closed(r, checks, self, x)
    ensures forall x :: x in r && r[x] && !sims[x] ==> Reaches(checks, self, cid, x)
    decreases |Unreached(sims)|
  {
    r := sims;
    if cid in checks {
      var cs := checks[cid];
      var i := 0;
      while i < |cs|
        invariant 0 <= i <= |cs|
        invariant Grows(sims, r)
        invariant self in sims ==> r[self] == sims[self]
        invariant forall k :: 0 <= k < i && cs[k].incomm && cs[k].id != self ==> r[cs[k].id]
        invariant forall x :: x in r && r[x] && !sims[x] ==> Closed(r, checks, self, x) && Reaches(checks, self, cid, x)
      {
        var c := cs[i];
        if c.incomm && c.id != self && !r[c.id] {
          UnreachedShrinks(sims, r, c.id);
          ghost var prev := r;
          var marked := r[c.id := true];
          r := Reach(marked, checks, self, c.id);
          assert Link(checks, self, cid, c.id) by {
            assert cs[i].incomm && cs[i].id == c.id;
          }
          LinkReaches(checks, self, cid, c.id);
          forall x | x in r && r[x] && !sims[x]
            ensures Closed(r, checks, self, x) && Reaches(checks, self, cid, x)
          {
            if marked[x] && x != c.id {
              assert prev[x];
              ClosedGrows(marked, r, checks, self, x);
            } else if x != c.id {
              ReachesTrans(checks, self, cid, c.id, x);
            }
          }
        }
        i := i + 1;
      }
    }
  }

  // ---------------------------------------------------------------------------
  // Artifacts heard by the base

  /** Every beacon entry the neighbours report, in neighbour order. */
  function Entries(ns: seq<Neighbor>): seq<BeaconEntry>
    reads ns`state
  {
    if |ns| == 0 then [] else Entries(ns[..|ns| - 1]) + ns[|ns| - 1].state.commBeacons
  }

  /** Every artifact the neighbours hold, in neighbour order. */
  function HeldByNeighbors(ns: seq<Neighbor>): seq<ArtifactReport>
    reads ns`artifacts
  {
    if |ns| == 0 then [] else HeldByNeighbors(ns[..|ns| - 1]) + ns[|ns| - 1].artifacts
  }

  /** Some neighbours' new-artifact lists, in order, joined, for those in comm. */
  function InCommArtifacts(ns: seq<Neighbor>): seq<Artifact>
    reads ns`state
  {
    if |ns| == 0 then []
    else
      var last := ns[|ns| - 1].state;
      InCommArtifacts(ns[..|ns| - 1]) + if last.incomm then last.newArtifacts else []
  }

  /** Taking two lists is taking the first, then the second. */
  lemma {:induction false} TakeAllAppend(keyOf: Point -> string, st: Ledger, xs: seq<Artifact>, ys: seq<Artifact>,
                                         own: bool, others: seq<ArtifactReport>, now: int)
    ensures TakeAll(keyOf, st, xs + ys, own, others, now) ==
            TakeAll(keyOf, TakeAll(keyOf, st, xs, own, others, now), ys, own, others, now)
    decreases |ys|
  {
    if |ys| == 0 {
      assert xs + ys == xs;
    } else {
      var n := |ys| - 1;
      assert (xs + ys)[..|xs + ys| - 1] == xs + ys[..n];
      TakeAllAppend(keyOf, st, xs, ys[..n], own, others, now);
    }
  }

  /** The beacon registry and how many beacons the robot believes it carries. */
  datatype Stock = Stock(beacons: seq<Beacon>, numBeacons: int)

  /**
   * deployBeacon's effect on the registry: the first idle beacon is put down
   * where the robot is and one fewer is carried; with none idle, none is
   * carried any more.
   */
  function Dropped(st: Stock, placed: Point): (r: Stock)
    ensures IdleCount(st.beacons) > 0 ==>
      IdleCount(r.beacons) == IdleCount(st.beacons) - 1 && r.numBeacons == st.numBeacons - 1
    ensures IdleCount(st.beacons) == 0 ==> r == Stock(st.beacons, 0)
    ensures |r.beacons| == |st.beacons|
  {
    match FirstIdle(st.beacons)
    case Some(k) =>
      DeployUsesOne(st.beacons, k, placed);
      Stock(Deploy(st.beacons, k, placed), st.numBeacons - 1)
    case None =>
      NoIdleCount(st.beacons);
      st.(numBeacons := 0)
  }

  lemma {:induction false} NoIdleCount(bs: seq<Beacon>)
    requires forall j :: 0 <= j < |bs| ==> !Idle(bs[j])
    ensures IdleCount(bs) == 0
    decreases |bs|
  {
    if |bs| > 0 {
      NoIdleCount(bs[..|bs| - 1]);
    }
  }

  /** The pose buffer with the quirk of a zero length: Python's `h[-0:]` is the whole list, so it never trims. */
  function Kept(h: seq<Pose>, hislen: nat): (r: seq<Pose>)
    ensures hislen > 0 ==> |r| <= hislen
    ensures |h| > 0 ==> |r| > 0 && r[|r| - 1] == h[|h| - 1]
    ensures r <= h || hislen > 0
  {
    if hislen == 0 then h else Recent(h, hislen)
  }

  // ---------------------------------------------------------------------------
  // The node

  class MultiAgent {
    const id: string
    const kind: string
    const solo: bool
    const commThreshold: int
    const maxAnchorDist: real
    const maxDist: real
    const junctionDist: real
    const turnDetect: bool
    const hislen: nat
    const minAnchorDist: real
    const anchorPos: Point
    const keyOf: Point -> string
    const agent: Neighbor
    const base: Base
    const neighbors: seq<Neighbor>

    var delayDrop: bool
    var numBeacons: int
    var beacons: seq<Beacon>
    var beaconsArray: seq<BeaconEntry>
    var simcomms: map<string, bool>
    var commcheck: map<string, seq<CommsCheck>>
    var artifacts: seq<ArtifactReport>
    var history: seq<Pose>
    var report: bool
    var status: string
    var wait: bool
    var beacon: Beacon

    /** The node's own record is itself, and each neighbour is another agent, listed once. */
    predicate Valid()
    {
      agent.id == id && Distinct(NeighborIds(neighbors)) && id !in NeighborIds(neighbors)
    }

    /**
     * __init__: a base carries no beacons; the registry holds B1 .. B<total>,
     * a robot owning the block of its number `sid` (other nodes use 0); the
     * neighbours are the potential neighbours other than the node itself; the
     * pose buffer holds ten seconds at the node's rate.
     */
    constructor(vehicle: string, nodeKind: string, isSolo: bool, threshold: int, anchorDrop: real,
                dropDist: real, jDist: real, turns: bool, delay: bool, carried: int, totalBeacons: nat,
                sid: int, rate: nat, anchor: Point, potential: seq<string>, key: Point -> string, now: int)
      ensures Valid() && id == vehicle && kind == nodeKind && solo == isSolo && commThreshold == threshold
      ensures maxAnchorDist == anchorDrop && maxDist == dropDist && junctionDist == jDist && turnDetect == turns
      ensures hislen == rate * 10 && minAnchorDist == 10.0 && anchorPos == anchor && keyOf == key
      ensures delayDrop == delay && numBeacons == (if nodeKind == "base" then 0 else carried)
      ensures beacons == Registry(totalBeacons, if nodeKind == "robot" then sid else 0, numBeacons)
      ensures forall x :: x in NeighborIds(neighbors) <==> x in potential && x != vehicle
      ensures beaconsArray == [] && simcomms == map[] && commcheck == map[] && artifacts == [] && history == []
      ensures !report && status == "" && wait
      ensures beacon == Beacon(vehicle, vehicle != "", Origin, 0, 0, false, true, false) && !beacon.active
      ensures fresh(agent) && fresh(base)
    {
      id, kind, solo, commThreshold := vehicle, nodeKind, isSolo, threshold;
      maxAnchorDist, maxDist, junctionDist, turnDetect := anchorDrop, dropDist, jDist, turns;
      hislen, minAnchorDist, anchorPos, keyOf := rate * 10, 10.0, anchor, key;
      delayDrop := delay;
      var carry := if nodeKind == "base" then 0 else carried;
      numBeacons := carry;
      agent := new Neighbor(vehicle, vehicle, now);
      base := new Base(now);
      var ns := MakeNeighbors(potential, vehicle, now);
      var bs := BuildRegistry(totalBeacons, if nodeKind == "robot" then sid else 0, carry);
      neighbors, beacons := ns, bs;
      beaconsArray, simcomms, commcheck, artifacts, history := [], map[], map[], [], [];
      report, status, wait := false, "", true;
      beacon := Beacon(vehicle, vehicle != "", Origin, 0, 0, false, true, false);
    }

    /**
     * CommCheck: a neighbour is in comm iff it was heard within the comm
     * threshold; so is the base station, for a robot that is not solo.
     */
    method CommCheck(now: int)
      requires Valid()
      modifies neighbors`state, base`incomm
      ensures forall i :: 0 <= i < |neighbors| ==>
        neighbors[i].state == old(neighbors[i].state).(incomm := old(neighbors[i].state).lastMessage > now - commThreshold)
      ensures base.incomm == if kind == "robot" && !solo then base.lastMessage > now - commThreshold
                             else old(base.incomm)
    {
      var i := 0;
      while i < |neighbors|
        invariant 0 <= i <= |neighbors|
        invariant forall j :: 0 <= j < |neighbors| ==>
          neighbors[j].state == if j < i then old(neighbors[j].state).(incomm := old(neighbors[j].state).lastMessage > now - commThreshold)
                                else old(neighbors[j].state)
        invariant base.incomm == old(base.incomm)
      {
        var nb := neighbors[i];
        assert forall j :: 0 <= j < |neighbors| && j != i ==> neighbors[j] != nb by {
          assert forall j :: 0 <= j < |neighbors| && j != i ==> NeighborIds(neighbors)[j] != NeighborIds(neighbors)[i];
        }
        nb.state := nb.state.(incomm := nb.state.lastMessage > now - commThreshold);
        i := i + 1;
      }
      if kind == "robot" && !solo {
        base.incomm := base.lastMessage > now - commThreshold;
      }
    }

    /** recurCommCheck on the node's own marks, as Reach says. */
    method RecurCommCheck(cid: string)
      requires ChecksKnown(simcomms, commcheck, id)
      modifies this`simcomms
      ensures Grows(old(simcomms), simcomms) && Closed(simcomms, commcheck, id, cid)
      ensures id in simcomms ==> simcomms[id] == old(simcomms)[id]
      ensures forall x :: x in simcomms && simcomms[x] && !old(simcomms)[x] ==>
        Closed(simcomms, commcheck, id, x) && Reaches(commcheck, id, cid, x)
    {
      simcomms := Reach(simcomms, commcheck, id, cid);
    }

    /** One relayed record, as RelayStep says. */
    method RelayOne(m: Msg, notStart: bool, now: int)
      requires Valid() && (m.id != id ==> m.id in NeighborIds(neighbors))
      modifies neighbors`state
      ensures Views(neighbors) == RelayStep(old(Views(neighbors)), NeighborIds(neighbors), id, m, notStart, now)
    {
      if m.id != id {
        var j := IndexOf(NeighborIds(neighbors), m.id);
        var nb := neighbors[j];
        if notStart && m.lastMessage > nb.state.lastMessage + 5 && (nb.state.cid != id || !nb.state.incomm) {
          Refresh(j, m, "", now);
        }
      }
    }

    /** The relay loop of CommReceiver. */
    method RelayAll(ms: seq<Msg>, notStart: bool, now: int)
      requires Valid() && Relayable(NeighborIds(neighbors), id, ms)
      modifies neighbors`state
      ensures Views(neighbors) == Relays(old(Views(neighbors)), NeighborIds(neighbors), id, ms, notStart, now)
    {
      var i := 0;
      while i < |ms|
        invariant 0 <= i <= |ms|
        invariant Relayable(NeighborIds(neighbors), id, ms[..i])
        invariant Views(neighbors) == Relays(old(Views(neighbors)), NeighborIds(neighbors), id, ms[..i], notStart, now)
      {
        assert ms[..i + 1][..i] == ms[..i];
        RelayOne(ms[i], notStart, now);
        i := i + 1;
      }
      assert ms[..i] == ms;
    }

    /**
     * Neighbour `j`'s record refreshed from a message, by `updater` (this
     * node for the sender's own record, "" for a relayed one); the other
     * records stay as they were.
     */
    method Refresh(j: nat, body: Msg, updater: string, now: int)
      requires Valid() && j < |neighbors|
      modifies neighbors`state
      ensures Views(neighbors) == old(Views(neighbors))[j := Refreshed(old(neighbors[j].state), body, updater, now)]
    {
      var nb := neighbors[j];
      ghost var before := Views(neighbors);
      assert forall i :: 0 <= i < |neighbors| && i != j ==> neighbors[i] != nb by {
        assert forall i :: 0 <= i < |neighbors| && i != j ==> NeighborIds(neighbors)[i] != NeighborIds(neighbors)[j];
      }
      nb.Update(body, updater, now);
      assert Views(neighbors) == before[j := nb.state];
    }

    /** CommReceiver once the message is to be processed: as Received says. */
    method Receive(m: AgentMsg, now: int)
      requires Valid() && Relayable(NeighborIds(neighbors), id, m.neighbors)
      requires m.kind == "beacon" ==> HasBeacon(beacons, m.body.id)
      requires m.kind != "beacon" && m.kind != "base" ==> m.body.id in NeighborIds(neighbors)
      modifies neighbors`state
      ensures Views(neighbors) == Received(old(Views(neighbors)), NeighborIds(neighbors), SimFlags(neighbors),
                                           m.kind == "beacon" && beacons[BeaconIndex(beacons, m.body.id).value].simcomm,
                                           id, m, now)
    {
      if m.kind == "beacon" {
        var k := BeaconIndex(beacons, m.body.id).value;
        if beacons[k].simcomm {
          RelayAll(m.neighbors, now > 0, now);
        }
      } else if m.kind == "base" {
        RelayAll(m.neighbors, now > 0, now);
      } else {
        var j := IndexOf(NeighborIds(neighbors), m.body.id);
        var nb := neighbors[j];
        if nb.simcomm {
          var notStart := nb.state.lastMessage > 0;
          Refresh(j, m.body, id, now);
          RelayAll(m.neighbors, notStart, now);
        }
      }
    }

    /**
     * CommReceiver. An inactive beacon node looks for its own id among the
     * message's beacons: found, it activates there (the last entry naming it
     * wins) and goes on; not found, it ignores the message. The message then
     * changes the neighbour records as Received says.
     */
    method CommReceiver(m: AgentMsg, now: int)
      requires Valid() && Relayable(NeighborIds(neighbors), id, m.neighbors)
      requires m.kind == "beacon" ==> HasBeacon(beacons, m.body.id)
      requires m.kind != "beacon" && m.kind != "base" ==> m.body.id in NeighborIds(neighbors)
      modifies this`beacon, neighbors`state
      ensures var place := Placement(m.body.commBeacons, id);
        var gated := kind == "beacon" && !old(beacon.active);
        (gated && place.None? ==> beacon == old(beacon) && Views(neighbors) == old(Views(neighbors))) &&
        (!(gated && place.None?) ==>
          beacon == (if gated then old(beacon).(active := true, pos := place.value) else old(beacon)) &&
          Views(neighbors) == Received(old(Views(neighbors)), NeighborIds(neighbors), SimFlags(neighbors),
                                       m.kind == "beacon" && beacons[BeaconIndex(beacons, m.body.id).value].simcomm,
                                       id, m, now))
    {
      ghost var views := Views(neighbors);
      if kind == "beacon" && !beacon.active {
        var place := ScanPlacement(m.body.commBeacons, id);
        if place.None? {
          return;
        }
        beacon := beacon.(active := true, pos := place.value);
        assert Views(neighbors) == views;
      }
      Receive(m, now);
    }

    /** updateHistory: the pose joins the buffer, which keeps its last hislen poses. */
    method UpdateHistory()
      modifies this`history
      ensures history == Kept(old(history) + [agent.state.odometry], hislen)
    {
      history := history + [agent.state.odometry];
      if hislen > 0 && |history| > hislen {
        history := history[|history| - hislen..];
      }
    }

    /**
     * updateBeacons: every active beacon the neighbours report, then (for
     * nodes other than the base) every one the base reports, activates the
     * same beacon here at the reported position unless it is active already.
     */
    method UpdateBeacons()
      requires Known(beacons, Entries(neighbors) + if kind != "base" then base.commBeacons else [])
      modifies this`beacons
      ensures beacons == ActivateAll(old(beacons), Entries(neighbors) + if kind != "base" then base.commBeacons else [])
    {
      var fromNeighbors := Entries(neighbors);
      var fromBase := if kind != "base" then base.commBeacons else [];
      ActivateAllAppend(beacons, fromNeighbors, fromBase);
      var bs := ActivateEach(beacons, fromNeighbors);
      bs := ActivateEach(bs, fromBase);
      beacons := bs;
    }

    /** publishBeacons: the beacon list sent out is every active beacon, in registry order. */
    method PublishBeacons()
      modifies this`beaconsArray
      ensures beaconsArray == ActiveEntries(beacons)
    {
      beaconsArray := ListActive(beacons);
    }

    /**
     * deployBeacon: put the first idle beacon down at `placed` (where the
     * robot stands, less the simulator's offset) and carry one fewer; with
     * none idle, assume none are carried.
     */
    method DeployBeacon(placed: Point)
      modifies this`beacons, this`numBeacons
      ensures Stock(beacons, numBeacons) == Dropped(old(Stock(beacons, numBeacons)), placed)
    {
      var k := FindIdle(beacons);
      if k.Some? {
        numBeacons := numBeacons - 1;
        beacons := Deploy(beacons, k.value, placed);
      } else {
        numBeacons := 0;
      }
    }

    /**
     * beaconCheck. It runs only while beacons are carried and the base is in
     * comm: the pose joins the buffer; within minAnchorDist of the anchor
     * nothing is dropped; otherwise the drop is planned and checked against
     * the beacons, and a drop either uses up a pending delay or deploys.
     */
    method BeaconCheck(turned: bool, placed: Point)
      modifies this`history, this`delayDrop, this`beacons, this`numBeacons
      ensures !(old(numBeacons) > 0 && base.incomm) ==>
        history == old(history) && delayDrop == old(delayDrop) && beacons == old(beacons) &&
        numBeacons == old(numBeacons)
      ensures old(numBeacons) > 0 && base.incomm ==>
        var pos := agent.state.odometry.position;
        var considered := !Closer(pos, anchorPos, minAnchorDist);
        var v := Verdict(old(beacons), pos,
                         PlanDrop(Farther(pos, anchorPos, maxAnchorDist), old(delayDrop), agent.atnode,
                                  Turning(history, hislen, turnDetect, turned), maxAnchorDist, maxDist, junctionDist));
        var deploy := considered && v.drop && !old(delayDrop);
        history == Kept(old(history) + [agent.state.odometry], hislen) &&
        delayDrop == (old(delayDrop) && !(considered && v.drop)) &&
        Stock(beacons, numBeacons) ==
          if deploy then Dropped(old(Stock(beacons, numBeacons)), placed) else old(Stock(beacons, numBeacons))
    {
      if numBeacons > 0 && base.incomm {
        UpdateHistory();
        var pos := agent.state.odometry.position;
        if Closer(pos, anchorPos, minAnchorDist) {
          return;
        }
        var plan := PlanDrop(Farther(pos, anchorPos, maxAnchorDist), delayDrop, agent.atnode,
                             Turning(history, hislen, turnDetect, turned), maxAnchorDist, maxDist, junctionDist);
        var v := CheckDrop(beacons, pos, plan, Closer(pos, anchorPos, maxAnchorDist));
        if v.drop {
          if delayDrop {
            delayDrop := false;
          } else {
            DeployBeacon(placed);
          }
        }
      }
    }

    /**
     * baseArtifacts: the artifacts of every neighbour in comm are stored under
     * their keys (a key already stored is kept), and each such neighbour's
     * list is fingerprinted as the one the base has seen.
     */
    method BaseArtifacts(now: int)
      requires Valid()
      modifies this`artifacts, neighbors`lastArtifact
      ensures artifacts == TakeAll(keyOf, Ledger(old(artifacts), report), InCommArtifacts(neighbors), false, [], now).arts
      ensures forall i :: 0 <= i < |neighbors| ==>
        neighbors[i].lastArtifact == if neighbors[i].state.incomm then DigestOf(neighbors[i].state.newArtifacts)
                                     else old(neighbors[i].lastArtifact)
    {
      // The neighbours' lists are taken in neighbour order, as one joined list;
      // the fingerprints are disjoint state and are set in a second pass.
      var st := TakeEach(keyOf, Ledger(artifacts, report), InCommArtifacts(neighbors), false, [], now);
      artifacts := st.arts;
      var i := 0;
      while i < |neighbors|
        invariant 0 <= i <= |neighbors|
        invariant artifacts == st.arts
        invariant forall j :: 0 <= j < |neighbors| ==>
          neighbors[j].lastArtifact == if j < i && neighbors[j].state.incomm then DigestOf(neighbors[j].state.newArtifacts)
                                       else old(neighbors[j].lastArtifact)
      {
        var nb := neighbors[i];
        if nb.state.incomm {
          assert forall j :: 0 <= j < |neighbors| && j != i ==> neighbors[j] != nb by {
            assert forall j :: 0 <= j < |neighbors| && j != i ==> NeighborIds(neighbors)[j] != NeighborIds(neighbors)[i];
          }
          nb.lastArtifact := DigestOf(nb.state.newArtifacts);
        }
        i := i + 1;
      }
    }

    /**
     * artifactCheck for every neighbour, into that neighbour's own list: each
     * new key is stored; neighbours never raise the report flag.
     */
    method ArtifactCheckNeighbors(now: int)
      requires Valid()
      modifies neighbors`artifacts
      ensures forall i :: 0 <= i < |neighbors| ==>
        neighbors[i].artifacts ==
          TakeAll(keyOf, Ledger(old(neighbors[i].artifacts), false), neighbors[i].state.newArtifacts, false, [], now).arts
    {
      var i := 0;
      while i < |neighbors|
        invariant 0 <= i <= |neighbors|
        invariant forall j :: 0 <= j < |neighbors| ==>
          neighbors[j].artifacts == if j < i then
            TakeAll(keyOf, Ledger(old(neighbors[j].artifacts), false), neighbors[j].state.newArtifacts, false, [], now).arts
          else old(neighbors[j].artifacts)
      {
        var nb := neighbors[i];
        var st := TakeEach(keyOf, Ledger(nb.artifacts, false), nb.state.newArtifacts, false, [], now);
        assert forall j :: 0 <= j < |neighbors| && j != i ==> neighbors[j] != nb by {
          assert forall j :: 0 <= j < |neighbors| && j != i ==> NeighborIds(neighbors)[j] != NeighborIds(neighbors)[i];
        }
        nb.artifacts := st.arts;
        i := i + 1;
      }
    }

    /**
     * artifactCheck for the node itself: each new key is stored, and a new
     * artifact raises the report flag unless a neighbour already holds one
     * within planar distance 3.
     */
    method ArtifactCheckSelf(now: int)
      modifies this`artifacts, this`report
      ensures Ledger(artifacts, report) ==
              TakeAll(keyOf, Ledger(old(artifacts), old(report)), agent.state.newArtifacts, true, HeldByNeighbors(neighbors), now)
    {
      var st := TakeEach(keyOf, Ledger(artifacts, report), agent.state.newArtifacts, true, HeldByNeighbors(neighbors), now);
      artifacts, report := st.arts, st.report;
    }

    /**
     * artifactCheckReport: with no report pending, any unreported artifact
     * raises the flag; with the flag up, the own artifact list is
     * fingerprinted so the base's acknowledgement can be matched.
     */
    method ArtifactCheckReport()
      modifies this`report, agent`lastArtifact
      ensures report == (old(report) || exists i :: 0 <= i < |artifacts| && !artifacts[i].reported)
      ensures agent.lastArtifact == if report then DigestOf(agent.state.newArtifacts) else old(agent.lastArtifact)
    {
      if !report {
        var i := 0;
        while i < |artifacts|
          invariant 0 <= i <= |artifacts|
          invariant !report && forall j :: 0 <= j < i ==> artifacts[j].reported
        {
          if !artifacts[i].reported {
            report := true;
            break;
          }
          i := i + 1;
        }
      }
      if report {
        agent.lastArtifact := DigestOf(agent.state.newArtifacts);
      }
    }

    /**
     * The report block of the main loop. With a report pending: once the run
     * is solo or the base holds this robot's fingerprint, the report is done,
     * every artifact counts as reported, and 'Explore' is published only if the
     * robot was reporting; otherwise 'Report' is published. Returns the task
     * published, if any.
     */
    method ReportBlock() returns (task: Option<string>)
      modifies this`report, this`artifacts
      ensures !old(report) ==> task.None? && !report && artifacts == old(artifacts)
      ensures old(report) && (solo || base.lastArtifact == agent.lastArtifact) ==>
        !report && artifacts == AllReported(old(artifacts)) &&
        task == if status == "Report" then Some("Explore") else None
      ensures old(report) && !(solo || base.lastArtifact == agent.lastArtifact) ==>
        report && artifacts == old(artifacts) && task == Some("Report")
    {
      task := None;
      if report {
        if solo || base.lastArtifact == agent.lastArtifact {
          if status == "Report" {
            task := Some("Explore");
          }
          report := false;
          artifacts := MarkReported(artifacts);
        } else {
          task := Some("Report");
        }
      }
    }
  }

}
