/**
 * Beacon inventory and the beacon-distance test, shared by every robot variant
 * (src/robot.py, src/monitors.py, src/actions.py, src/behaviors.py,
 * src/ma_robot.py, src/multi_agent.py all repeat the same two loops).
 *
 * The registry is the node's list of beacon records in insertion order, so
 * "the first beacon" means the first in that order, as a Python 3 dictionary
 * gives it.
 */
module Beacons {
  import opened Helpers
  import opened Containers

  // ---------------------------------------------------------------------------
  // Which beacon to drop

  /** A beacon this agent carries and has not dropped yet. */
  predicate Idle(b: Beacon)
  {
    b.owner && !b.active
  }

  /** The position of the first idle beacon, if any. */
  function FirstIdle(bs: seq<Beacon>): (r: Option<nat>)
    ensures r.Some? ==> r.value < |bs| && Idle(bs[r.value]) &&
                        forall j :: 0 <= j < r.value ==> !Idle(bs[j])
    ensures r.None? ==> forall j :: 0 <= j < |bs| ==> !Idle(bs[j])
  {
    if |bs| == 0 then None
    else if Idle(bs[0]) then Some(0)
    else match FirstIdle(bs[1..])
      case Some(k) => Some(k + 1)
      case None => None
  }

  /** The deployment loop: scan the registry for the first idle beacon. */
  method FindIdle(bs: seq<Beacon>) returns (r: Option<nat>)
    ensures r == FirstIdle(bs)
  {
    var k := 0;
    while k < |bs|
      invariant 0 <= k <= |bs|
      invariant forall j :: 0 <= j < k ==> !Idle(bs[j])
    {
      if Idle(bs[k]) {
        return Some(k);
      }
      k := k + 1;
    }
    return None;
  }

  /** How many beacons are still to be dropped. */
  function IdleCount(bs: seq<Beacon>): (n: nat)
    ensures n <= |bs|
  {
    if |bs| == 0 then 0 else IdleCount(bs[..|bs| - 1]) + if Idle(bs[|bs| - 1]) then 1 else 0
  }

  /** Beacon `k` is put down at `pos`: it is active and reachable from then on. */
  function Deploy(bs: seq<Beacon>, k: nat, pos: Point): (r: seq<Beacon>)
    requires k < |bs|
    ensures |r| == |bs| && r[k].id == bs[k].id && r[k].active && r[k].simcomm && r[k].pos == pos
    ensures forall j :: 0 <= j < |bs| && j != k ==> r[j] == bs[j]
  {
    bs[k := bs[k].(active := true, simcomm := true, pos := pos)]
  }

  lemma {:induction false} IdleCountUpdate(bs: seq<Beacon>, k: nat, b: Beacon)
    requires k < |bs|
    ensures IdleCount(bs[k := b]) ==
            IdleCount(bs) - (if Idle(bs[k]) then 1 else 0) + (if Idle(b) then 1 else 0)
    decreases |bs|
  {
    var n := |bs| - 1;
    assert bs[k := b][..n] == if k < n then bs[..n][k := b] else bs[..n];
    if k < n {
      IdleCountUpdate(bs[..n], k, b);
    }
  }

  /**
   * Dropping an idle beacon uses up exactly one beacon of the inventory: the
   * decrement of numBeacons the sources pair with a drop keeps count.
   */
  lemma DeployUsesOne(bs: seq<Beacon>, k: nat, pos: Point)
    requires k < |bs| && Idle(bs[k])
    ensures IdleCount(Deploy(bs, k, pos)) == IdleCount(bs) - 1
  {
    IdleCountUpdate(bs, k, Deploy(bs, k, pos)[k]);
  }

  /** With nothing left to drop, the registry has no idle beacon at all. */
  lemma {:induction false} NoIdleMeansNone(bs: seq<Beacon>)
    ensures FirstIdle(bs).None? <==> IdleCount(bs) == 0
    decreases |bs|
  {
    if |bs| > 0 {
      var n := |bs| - 1;
      NoIdleMeansNone(bs[..n]);
      if FirstIdle(bs).None? {
        assert forall j :: 0 <= j < n ==> !Idle(bs[..n][j]);
        assert FirstIdle(bs[..n]).None?;
      } else {
        var k := FirstIdle(bs).value;
        if k < n {
          assert Idle(bs[..n][k]);
          assert FirstIdle(bs[..n]).Some?;
        }
      }
    }
  }

  // ---------------------------------------------------------------------------
  // beaconDistCheck

  /** How many beacons are active. */
  function ActiveCount(bs: seq<Beacon>): (n: nat)
    ensures n <= |bs|
  {
    if |bs| == 0 then 0 else ActiveCount(bs[..|bs| - 1]) + if bs[|bs| - 1].active then 1 else 0
  }

  /** How many active beacons lie farther than `d` from `p`. */
  function FarCount(bs: seq<Beacon>, p: Point, d: real): (n: nat)
  {
    if |bs| == 0 then 0
    else FarCount(bs[..|bs| - 1], p, d) + if bs[|bs| - 1].active && Farther(p, bs[|bs| - 1].pos, d) then 1 else 0
  }

  /** What beaconDistCheck returns: the drop flag and the two counts. */
  datatype DistCheck = DistCheck(drop: bool, numBeacons: nat, numDistBeacons: nat)

  /**
   * beaconDistCheck: any active beacon past `d` asks for a drop; any active
   * beacon within `d` cancels it.
   */
  function DistCheckOf(bs: seq<Beacon>, p: Point, d: real, drop: bool): DistCheck
  {
    var n, f := ActiveCount(bs), FarCount(bs, p, d);
    DistCheck(if n - f > 0 then false else drop || f > 0, n, f)
  }

  /** Some active beacon is within `d` of `p`. */
  predicate InRange(bs: seq<Beacon>, p: Point, d: real)
  {
    exists i :: 0 <= i < |bs| && bs[i].active && !Farther(p, bs[i].pos, d)
  }

  /** Some active beacon is past `d` from `p`. */
  predicate OutOfRange(bs: seq<Beacon>, p: Point, d: real)
  {
    exists i :: 0 <= i < |bs| && bs[i].active && Farther(p, bs[i].pos, d)
  }

  lemma {:induction false} CountsMeaning(bs: seq<Beacon>, p: Point, d: real)
    ensures FarCount(bs, p, d) <= ActiveCount(bs)
    ensures FarCount(bs, p, d) < ActiveCount(bs) <==> InRange(bs, p, d)
    ensures FarCount(bs, p, d) > 0 <==> OutOfRange(bs, p, d)
    ensures ActiveCount(bs) == 0 <==> forall i :: 0 <= i < |bs| ==> !bs[i].active
    decreases |bs|
  {
    if |bs| > 0 {
      var n := |bs| - 1;
      var q := bs[..n];
      CountsMeaning(q, p, d);
      assert forall i :: 0 <= i < n ==> q[i] == bs[i];
      if InRange(q, p, d) {
        var i :| 0 <= i < n && q[i].active && !Farther(p, q[i].pos, d);
        assert bs[i].active && !Farther(p, bs[i].pos, d);
      }
      if OutOfRange(q, p, d) {
        var i :| 0 <= i < n && q[i].active && Farther(p, q[i].pos, d);
        assert bs[i].active && Farther(p, bs[i].pos, d);
      }
      if InRange(bs, p, d) && !(bs[n].active && !Farther(p, bs[n].pos, d)) {
        var i :| 0 <= i < |bs| && bs[i].active && !Farther(p, bs[i].pos, d);
        assert q[i].active && !Farther(p, q[i].pos, d);
      }
      if OutOfRange(bs, p, d) && !(bs[n].active && Farther(p, bs[n].pos, d)) {
        var i :| 0 <= i < |bs| && bs[i].active && Farther(p, bs[i].pos, d);
        assert q[i].active && Farther(p, q[i].pos, d);
      }
    }
  }

  /**
   * What beaconDistCheck decides: it asks for a drop exactly when no active
   * beacon is within range and either the caller already wanted one or some
   * active beacon is out of range. So an in-range beacon always cancels, and
   * with no active beacon the caller's flag comes back unchanged.
   */
  lemma DistCheckMeaning(bs: seq<Beacon>, p: Point, d: real, drop: bool)
    ensures var r := DistCheckOf(bs, p, d, drop);
      r.numDistBeacons <= r.numBeacons &&
      (r.drop <==> !InRange(bs, p, d) && (drop || OutOfRange(bs, p, d))) &&
      (r.numBeacons == 0 ==> r.drop == drop)
  {
    CountsMeaning(bs, p, d);
  }

  /** The beaconDistCheck loop over the registry. */
  method BeaconDistCheck(bs: seq<Beacon>, p: Point, d: real, drop: bool) returns (r: DistCheck)
    ensures r == DistCheckOf(bs, p, d, drop)
  {
    var n, f := 0, 0;
    var want := drop;
    var i := 0;
    while i < |bs|
      invariant 0 <= i <= |bs|
      invariant n == ActiveCount(bs[..i]) && f == FarCount(bs[..i], p, d)
      invariant want == (drop || f > 0)
    {
      assert bs[..i + 1][..i] == bs[..i];
      if bs[i].active {
        n := n + 1;
        if Farther(p, bs[i].pos, d) {
          f := f + 1;
          want := true;
        }
      }
      i := i + 1;
    }
    assert bs[..i] == bs;
    if n - f > 0 {
      want := false;
    }
    r := DistCheck(want, n, f);
  }
}
