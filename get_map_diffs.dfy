/**
 * The map-diff service (src/get_map_diffs.py): it stores the map diffs this
 * robot's merger publishes and the ones saved for each neighbour, keyed by
 * owner and then by the diff's sequence number, and answers a request for
 * missing diffs with those it holds.
 *
 * The test-bandwidth publisher is switched off in the source and left out.
 */
module MapDiffService {
  import opened Containers

  /** A neighbour's diffs as the coordinator forwards them. */
  datatype NeighborMaps = NeighborMaps(owner: string, octomaps: seq<MapDiff>)

  /** One agent's part of a request: the sequence numbers it lacks. */
  datatype AgentRequest = AgentRequest(id: string, missing: seq<int>)

  /** One agent's part of the answer. */
  datatype AgentResponse = AgentResponse(id: string, owner: string, octomaps: seq<MapDiff>,
                                         numOctomaps: int, received: seq<int>)

  /**
   * A store after the diffs are filed in order: every diff is stored under
   * its sequence number, a later diff with the same number replacing an
   * earlier one, and every other entry is kept.
   */
  function Filed(m: map<int, MapDiff>, ds: seq<MapDiff>): (r: map<int, MapDiff>)
    ensures r.Keys == m.Keys + set d | d in ds :: d.seqNo
    ensures forall k :: k in m && (forall d :: d in ds ==> d.seqNo != k) ==> r[k] == m[k]
    ensures |ds| > 0 ==> r[ds[|ds| - 1].seqNo] == ds[|ds| - 1]
  {
    if |ds| == 0 then m
    else
      var r := Filed(m, ds[..|ds| - 1])[ds[|ds| - 1].seqNo := ds[|ds| - 1]];
      assert forall d :: d in ds <==> d in ds[..|ds| - 1] || d == ds[|ds| - 1];
      r
  }

  /** A diff stays stored as last filed: no later diff in the batch has its number. */
  lemma {:induction false} LastFiledWins(m: map<int, MapDiff>, ds: seq<MapDiff>, i: nat)
    requires i < |ds| && forall j :: i < j < |ds| ==> ds[j].seqNo != ds[i].seqNo
    ensures Filed(m, ds)[ds[i].seqNo] == ds[i]
    decreases |ds|
  {
    if i < |ds| - 1 {
      LastFiledWins(m, ds[..|ds| - 1], i);
    }
  }

  /** The numbers in `missing` that `diffs` holds, in request order. */
  function Held(diffs: map<int, MapDiff>, missing: seq<int>): (r: seq<int>)
    ensures |r| <= |missing|
    ensures forall k :: k in r <==> k in missing && k in diffs
  {
    if |missing| == 0 then []
    else
      var r := Held(diffs, missing[..|missing| - 1]);
      assert forall k :: k in missing <==> k in missing[..|missing| - 1] || k == missing[|missing| - 1];
      if missing[|missing| - 1] in diffs then r + [missing[|missing| - 1]] else r
  }

  /** The answer for a known agent: the held diffs in request order, counted. */
  function Answer(id: string, diffs: map<int, MapDiff>, missing: seq<int>): (a: AgentResponse)
    ensures a.id == id && a.owner == id && a.received == Held(diffs, missing)
    ensures a.numOctomaps == |a.octomaps| == |a.received|
    ensures forall k :: 0 <= k < |a.received| ==> a.octomaps[k] == diffs[a.received[k]]
  {
    var held := Held(diffs, missing);
    AgentResponse(id, id, seq(|held|, k requires 0 <= k < |held| => diffs[held[k]]), |held|, held)
  }

  /** The whole answer: one entry per requested agent the service knows, in request order. */
  function Answers(store: map<string, map<int, MapDiff>>, req: seq<AgentRequest>): (resp: seq<AgentResponse>)
    ensures |resp| <= |req|
    ensures forall a :: a in resp ==>
              exists r :: r in req && r.id in store && a == Answer(r.id, store[r.id], r.missing)
    ensures forall r :: r in req && r.id in store ==> Answer(r.id, store[r.id], r.missing) in resp
  {
    if |req| == 0 then []
    else
      var r := req[|req| - 1];
      var rest := Answers(store, req[..|req| - 1]);
      if r.id in store then
        var a := Answer(r.id, store[r.id], r.missing);
        assert forall q :: q in req <==> q in req[..|req| - 1] || q == r;
        rest + [a]
      else
        assert forall q :: q in req <==> q in req[..|req| - 1] || q == r;
        rest
  }

  /** Asking again for what was answered gives the same answer. */
  lemma {:induction false} HeldAgain(diffs: map<int, MapDiff>, missing: seq<int>)
    ensures Held(diffs, Held(diffs, missing)) == Held(diffs, missing)
    decreases |missing|
  {
    if |missing| > 0 {
      var n := |missing| - 1;
      var h := Held(diffs, missing[..n]);
      HeldAgain(diffs, missing[..n]);
      if missing[n] in diffs {
        assert (h + [missing[n]])[..|h|] == h;
      }
    }
  }

  /** What the store keeps for one agent. */
  class MapDiffs {
    const id: string
    var store: map<string, map<int, MapDiff>>

    predicate Valid()
      reads this
    {
      id in store
    }

    /** __init__: the service starts knowing only its own robot, with no diffs. */
    constructor(vehicle: string)
      ensures Valid() && id == vehicle && store == map[vehicle := map[]]
    {
      id := vehicle;
      store := map[vehicle := map[]];
    }

    /** DiffReceiver: file each published diff under this robot. */
    method DiffReceiver(octomaps: seq<MapDiff>)
      requires Valid()
      modifies this`store
      ensures Valid() && store == old(store)[id := Filed(old(store)[id], octomaps)]
    {
      var i := 0;
      while i < |octomaps|
        invariant 0 <= i <= |octomaps|
        invariant store == old(store)[id := Filed(old(store)[id], octomaps[..i])]
      {
        FiledStep(old(store)[id], octomaps, i);
        store := store[id := store[id][octomaps[i].seqNo := octomaps[i]]];
        i := i + 1;
      }
      assert i == |octomaps| && octomaps[..i] == octomaps;
    }

    /** NeighborDiffReceiver, one neighbour: make its entry if unseen, then file its diffs. */
    method FileNeighbor(nmap: NeighborMaps)
      requires Valid()
      modifies this`store
      ensures Valid() && store == Filing(old(store), nmap)
    {
      // The source makes the entry first and fills it in place; the filled
      // entry is assigned once here, which leaves the same store.
      var m := if nmap.owner in store then store[nmap.owner] else map[];
      m := FileAll(m, nmap.octomaps);
      store := store[nmap.owner := m];
    }

    /** NeighborDiffReceiver: file each neighbour's diffs in turn. */
    method NeighborDiffReceiver(nmaps: seq<NeighborMaps>)
      requires Valid()
      modifies this`store
      ensures Valid() && store == FilingAll(old(store), nmaps)
    {
      var i := 0;
      while i < |nmaps|
        invariant 0 <= i <= |nmaps|
        invariant Valid() && store == FilingAll(old(store), nmaps[..i])
      {
        assert nmaps[..i + 1][..i] == nmaps[..i];
        FileNeighbor(nmaps[i]);
        i := i + 1;
      }
      assert nmaps[..i] == nmaps;
    }

    /** handle_get_map_diffs: answer every known agent with the diffs it lacks and the store holds. */
    method HandleGetMapDiffs(req: seq<AgentRequest>) returns (resp: seq<AgentResponse>)
      ensures resp == Answers(store, req)
    {
      resp := AnswerAll(store, req);
    }
  }

  /** The diff loop of NeighborDiffReceiver: each diff, in turn, stored under its sequence number. */
  method FileAll(m: map<int, MapDiff>, ds: seq<MapDiff>) returns (r: map<int, MapDiff>)
    ensures r == Filed(m, ds)
  {
    r := m;
    var i := 0;
    while i < |ds|
      invariant 0 <= i <= |ds|
      invariant r == Filed(m, ds[..i])
    {
      FiledStep(m, ds, i);
      r := r[ds[i].seqNo := ds[i]];
      i := i + 1;
    }
    assert i == |ds| && ds[..i] == ds;
  }

  /** Filing one more diff of the batch stores it under its number. */
  lemma FiledStep(m: map<int, MapDiff>, ds: seq<MapDiff>, i: nat)
    requires i < |ds|
    ensures Filed(m, ds[..i + 1]) == Filed(m, ds[..i])[ds[i].seqNo := ds[i]]
  {
    assert ds[..i + 1][..i] == ds[..i];
  }

  /** The request loop of handle_get_map_diffs, over the store it reads. */
  method AnswerAll(store: map<string, map<int, MapDiff>>, req: seq<AgentRequest>) returns (resp: seq<AgentResponse>)
    ensures resp == Answers(store, req)
  {
    resp := [];
    var i := 0;
    while i < |req|
      invariant 0 <= i <= |req|
      invariant resp == Answers(store, req[..i])
    {
      var r := req[i];
      AnswersStep(store, req, i);
      if r.id in store {
        var a := Respond(r.id, store[r.id], r.missing);
        resp := resp + [a];
      }
      i := i + 1;
    }
    assert i == |req| && req[..i] == req;
  }

  /** One more request answered: its agent's answer follows, if the service knows the agent. */
  lemma AnswersStep(store: map<string, map<int, MapDiff>>, req: seq<AgentRequest>, i: nat)
    requires i < |req|
    ensures Answers(store, req[..i + 1]) == Answers(store, req[..i]) +
      (if req[i].id in store then [Answer(req[i].id, store[req[i].id], req[i].missing)] else [])
  {
    assert req[..i + 1][..i] == req[..i];
  }

  /** The store after one neighbour's diffs: an entry for the owner, with the diffs filed. */
  function Filing(store: map<string, map<int, MapDiff>>, nmap: NeighborMaps): (r: map<string, map<int, MapDiff>>)
    ensures r.Keys == store.Keys + {nmap.owner}
    ensures r[nmap.owner] == Filed(if nmap.owner in store then store[nmap.owner] else map[], nmap.octomaps)
    ensures forall o :: o in store && o != nmap.owner ==> r[o] == store[o]
  {
    store[nmap.owner := Filed(if nmap.owner in store then store[nmap.owner] else map[], nmap.octomaps)]
  }

  /** The store after every neighbour's diffs, in order. */
  function FilingAll(store: map<string, map<int, MapDiff>>, nmaps: seq<NeighborMaps>): (r: map<string, map<int, MapDiff>>)
    ensures r.Keys == store.Keys + set n | n in nmaps :: n.owner
  {
    if |nmaps| == 0 then store
    else
      var r := Filing(FilingAll(store, nmaps[..|nmaps| - 1]), nmaps[|nmaps| - 1]);
      assert forall n :: n in nmaps <==> n in nmaps[..|nmaps| - 1] || n == nmaps[|nmaps| - 1];
      r
  }

  /** An owner none of the neighbours' entries names keeps exactly the diffs it had. */
  lemma {:induction false} FilingAllUntouched(store: map<string, map<int, MapDiff>>, nmaps: seq<NeighborMaps>, o: string)
    requires o in store && forall n :: n in nmaps ==> n.owner != o
    ensures FilingAll(store, nmaps)[o] == store[o]
    decreases |nmaps|
  {
    if |nmaps| > 0 {
      var m := |nmaps| - 1;
      forall n | n in nmaps[..m] ensures n.owner != o {
        assert n in nmaps;
      }
      FilingAllUntouched(store, nmaps[..m], o);
    }
  }

  /** Filing never loses a sequence number an owner already held. */
  lemma {:induction false} FilingAllGrows(store: map<string, map<int, MapDiff>>, nmaps: seq<NeighborMaps>, o: string)
    requires o in store
    ensures store[o].Keys <= FilingAll(store, nmaps)[o].Keys
    decreases |nmaps|
  {
    if |nmaps| > 0 {
      FilingAllGrows(store, nmaps[..|nmaps| - 1], o);
    }
  }

  /** Filing one neighbour's diffs keeps every number any owner held. */
  lemma FilingStep(prev: map<string, map<int, MapDiff>>, last: NeighborMaps, o: string, k: int)
    requires o in prev && k in prev[o]
    ensures o in Filing(prev, last) && k in Filing(prev, last)[o]
  {
    if o == last.owner {
      assert prev[o].Keys <= Filed(prev[o], last.octomaps).Keys;
    }
  }

  /** Filing one neighbour's diffs holds each of them under that neighbour. */
  lemma FilingLast(prev: map<string, map<int, MapDiff>>, last: NeighborMaps, d: MapDiff)
    requires d in last.octomaps
    ensures last.owner in Filing(prev, last) && d.seqNo in Filing(prev, last)[last.owner]
  {
    assert d.seqNo in set x | x in last.octomaps :: x.seqNo;
  }

  /** FilingAll files the last neighbour's diffs over the store the earlier ones left. */
  lemma FilingAllUnfold(store: map<string, map<int, MapDiff>>, nmaps: seq<NeighborMaps>)
    requires |nmaps| > 0
    ensures FilingAll(store, nmaps) == Filing(FilingAll(store, nmaps[..|nmaps| - 1]), nmaps[|nmaps| - 1])
  {
  }

  /** Every diff sent by an owner is held under that owner afterwards. */
  lemma {:induction false} FilingAllHolds(store: map<string, map<int, MapDiff>>, nmaps: seq<NeighborMaps>, i: nat, d: MapDiff)
    requires i < |nmaps| && d in nmaps[i].octomaps
    ensures nmaps[i].owner in FilingAll(store, nmaps) && d.seqNo in FilingAll(store, nmaps)[nmaps[i].owner]
    decreases |nmaps|
  {
    var m := |nmaps| - 1;
    var prev := FilingAll(store, nmaps[..m]);
    FilingAllUnfold(store, nmaps);
    if i < m {
      assert nmaps[..m][i] == nmaps[i];
      FilingAllHolds(store, nmaps[..m], i, d);
      FilingStep(prev, nmaps[m], nmaps[i].owner, d.seqNo);
    } else {
      assert i == m;
      FilingLast(prev, nmaps[m], d);
    }
  }

  /**
   * Nothing is lost: after the neighbours' diffs are filed, every owner seen
   * holds every sequence number it was sent, and an owner never sent anything
   * keeps exactly what it had.
   */
  lemma FilingAllKeeps(store: map<string, map<int, MapDiff>>, nmaps: seq<NeighborMaps>)
    ensures var r := FilingAll(store, nmaps);
      (forall o :: o in store && (forall n :: n in nmaps ==> n.owner != o) ==> r[o] == store[o]) &&
      (forall o :: o in store ==> store[o].Keys <= r[o].Keys) &&
      (forall n, d :: n in nmaps && d in n.octomaps ==> d.seqNo in r[n.owner])
  {
    forall o | o in store && (forall n :: n in nmaps ==> n.owner != o)
      ensures FilingAll(store, nmaps)[o] == store[o]
    {
      FilingAllUntouched(store, nmaps, o);
    }
    forall o | o in store
      ensures store[o].Keys <= FilingAll(store, nmaps)[o].Keys
    {
      FilingAllGrows(store, nmaps, o);
    }
    forall n, d | n in nmaps && d in n.octomaps
      ensures d.seqNo in FilingAll(store, nmaps)[n.owner]
    {
      var i :| 0 <= i < |nmaps| && nmaps[i] == n;
      FilingAllHolds(store, nmaps, i, d);
    }
  }

  /** The inner loop of handle_get_map_diffs for one known agent. */
  method Respond(id: string, diffs: map<int, MapDiff>, missing: seq<int>) returns (a: AgentResponse)
    ensures a == Answer(id, diffs, missing)
  {
    var octomaps: seq<MapDiff> := [];
    var received: seq<int> := [];
    var num := 0;
    var i := 0;
    while i < |missing|
      invariant 0 <= i <= |missing|
      invariant received == Held(diffs, missing[..i])
      invariant num == |octomaps| == |received|
      invariant forall k :: 0 <= k < |received| ==> octomaps[k] == diffs[received[k]]
    {
      assert missing[..i + 1][..i] == missing[..i];
      if missing[i] in diffs {
        octomaps := octomaps + [diffs[missing[i]]];
        num := num + 1;
        received := received + [missing[i]];
      }
      i := i + 1;
    }
    assert missing[..i] == missing;
    a := AgentResponse(id, id, octomaps, num, received);
  }
}
