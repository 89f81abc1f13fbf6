/**
 * The multi-agent beacon node (src/ma_beacon.py): a beacon stays silent until
 * a message lists it among the deployed beacons, then takes the position the
 * list gives and stays active. Raising the antenna is a publication and is
 * left out.
 */
module MABeaconNode {
  import opened Helpers
  import opened Containers
  import opened MultiAgentNode

  class MABeacon {
    const node: MultiAgent

    /** __init__: the node's own beacon record, owned by itself and not yet active. */
    constructor(n: MultiAgent)
      modifies n`beacon
      ensures node == n
      ensures n.beacon == Beacon(n.id, n.id != "", Origin, 0, 0, false, true, false)
    {
      node := n;
      n.beacon := Beacon(n.id, n.id != "", Origin, 0, 0, false, true, false);
    }

    /**
     * beaconCommCheck: an active beacon accepts every message. An inactive one
     * accepts a message only when the message's beacon list names it, and
     * then becomes active at the position of the last entry naming it.
     */
    method BeaconCommCheck(es: seq<BeaconEntry>) returns (ok: bool)
      modifies node`beacon
      ensures old(node.beacon.active) ==> ok && node.beacon == old(node.beacon)
      ensures !old(node.beacon.active) ==> (ok <==> Named(es, node.id))
      ensures !ok ==> node.beacon == old(node.beacon)
      ensures !old(node.beacon.active) && ok ==>
        node.beacon == old(node.beacon).(active := true, pos := Placement(es, node.id).value)
    {
      if !node.beacon.active {
        var activate := false;
        var j := 0;
        while j < |es|
          invariant 0 <= j <= |es|
          invariant activate == Placement(es[..j], node.id).Some?
          invariant node.beacon == if activate then old(node.beacon).(active := true, pos := Placement(es[..j], node.id).value)
                                   else old(node.beacon)
        {
          assert es[..j + 1][..j] == es[..j];
          if es[j].id == node.id {
            activate := true;
            node.beacon := node.beacon.(active := true, pos := es[j].pos);
          }
          j := j + 1;
        }
        assert es[..j] == es;
        if !activate {
          return false;
        }
      }
      return true;
    }

    /**
     * run: the artifact ledger is reconciled with the neighbours' lists, and
     * the node goes on only while its beacon is active.
     */
    method Run(now: int) returns (r: bool)
      requires node.Valid()
      modifies node`artifacts, node.neighbors`lastArtifact
      ensures node.artifacts == TakeAll(node.keyOf, Ledger(old(node.artifacts), node.report),
                                        InCommArtifacts(node.neighbors), false, [], now).arts
      ensures r == node.beacon.active
    {
      node.BaseArtifacts(now);
      r := node.beacon.active;
    }
  }
}
