/**
 * The node layer shared by every agent type (src/BOBCAT.py): the registries of
 * neighbours, beacons and artifact reports, and the bookkeeping run on them each
 * cycle -- comm checks, simulated-comm reachability, resets, direct-message
 * requests and responses, beacon reconciliation and the artifact check.
 *
 * ROS topics, publishers and the clock are left out: every operation that reads
 * the clock takes the current time `now` as a parameter.
 */
module Bobcat {
  import opened Helpers
  import opened Containers

  // ---------------------------------------------------------------------------
  // Messages

  /** One entry of a CommsCheckArray message: whether the sender sees agent `id` in comm. */
  datatype CommsCheck = CommsCheck(id: string, incomm: bool)

  /** One entry of a DMRespArray message: map diffs and images sent for agent `id`. */
  datatype DMResp = DMResp(id: string, octomaps: seq<MapDiff>, images: seq<string>)

  // ---------------------------------------------------------------------------
  // subsample

  /** The poses of the path at the indices divisible by 20, in order. */
  function EveryTwentieth(path: seq<Point>): (r: seq<Point>)
    ensures |r| == (|path| + 19) / 20
    ensures forall k :: 0 <= k < |r| ==> r[k] == path[20 * k]
  {
    seq((|path| + 19) / 20, k requires 0 <= k < (|path| + 19) / 20 => path[20 * k])
  }

  /** The subsampled path: every twentieth pose, closed with the last pose when that is not already last. */
  function Subsampled(path: seq<Point>): seq<Point>
  {
    var e := EveryTwentieth(path);
    if |e| > 0 && e[|e| - 1] != path[|path| - 1] then e + [path[|path| - 1]] else e
  }

  /**
   * A subsampled path keeps the first and the last pose, takes only poses of
   * the path, and has at most one pose in twenty plus one.
   */
  lemma SubsampledShape(path: seq<Point>)
    ensures |path| == 0 <==> |Subsampled(path)| == 0
    ensures |path| > 0 ==> Subsampled(path)[0] == path[0]
    ensures |path| > 0 ==> Subsampled(path)[|Subsampled(path)| - 1] == path[|path| - 1]
    ensures forall p :: p in Subsampled(path) ==> p in path
    ensures |Subsampled(path)| <= (|path| + 19) / 20 + 1
    ensures |path| <= 1 ==> Subsampled(path) == path
  {
    var e := EveryTwentieth(path);
    forall p | p in e ensures p in path {
      var k :| 0 <= k < |e| && e[k] == p;
      assert path[20 * k] == p;
    }
    if |path| == 1 {
      assert e == [path[0]];
    }
  }

  /**
   * subsample: the goal with its path reduced for sending. The result is a fresh
   * Goal message, so its cost is the message default, zero.
   */
  method Subsample(g: Goal) returns (r: Goal)
    ensures r.pose == g.pose && r.path == Subsampled(g.path) && r.cost == 0.0
  {
    var poses: seq<Point> := [];
    var i := 0;
    while i < |g.path|
      invariant 0 <= i <= |g.path|
      invariant poses == EveryTwentieth(g.path[..i])
    {
      if i % 20 == 0 {
        poses := poses + [g.path[i]];
      }
      i := i + 1;
    }
    assert g.path[..i] == g.path;
    if |poses| > 0 && poses[|poses| - 1] != g.path[|g.path| - 1] {
      poses := poses + [g.path[|g.path| - 1]];
    }
    r := Goal(0.0, poses, g.pose);
  }

  // ---------------------------------------------------------------------------
  // Simulated comms: reachability closure

  /**
   * Whether simCommCheck sets neighbour `x`'s simulated-comm flag from the
   * reachability entries `sims`: it has one, it is not a known beacon of `bs`
   * (an id containing "B"), and it is not "Base".
   */
  predicate SetsNeighbor(bs: seq<Beacon>, sims: map<string, bool>, x: string)
  {
    x in sims && !(Contains(x, "B") && HasBeacon(bs, x)) && x != "Base"
  }

  /** `a`'s comm check reports `b` in comm, and `b` is not `self`. */
  predicate Link(checks: map<string, seq<CommsCheck>>, self: string, a: string, b: string)
  {
    a in checks && b != self && exists k :: 0 <= k < |checks[a]| && checks[a][k].incomm && checks[a][k].id == b
  }

  /** Each agent of `p` reports the next one in comm. */
  predicate Chain(checks: map<string, seq<CommsCheck>>, self: string, p: seq<string>)
  {
    forall i :: 0 <= i < |p| - 1 ==> Link(checks, self, p[i], p[i + 1])
  }

  /** A chain of in-comm reports leads from `a` to `b`. */
  ghost predicate Reaches(checks: map<string, seq<CommsCheck>>, self: string, a: string, b: string)
  {
    exists p :: Chain(checks, self, p) && |p| > 0 && p[0] == a && p[|p| - 1] == b
  }

  /** Some agent marked in `sims` reaches `x`. */
  ghost predicate ReachedFrom(sims: map<string, bool>, checks: map<string, seq<CommsCheck>>, self: string, x: string)
  {
    exists c :: c in sims && sims[c] && Reaches(checks, self, c, x)
  }

  /** A link is a chain of two. */
  lemma LinkReaches(checks: map<string, seq<CommsCheck>>, self: string, a: string, b: string)
    requires Link(checks, self, a, b)
    ensures Reaches(checks, self, a, b)
  {
    assert Chain(checks, self, [a, b]);
  }

  /** Chains compose: reaching `b` from `a` and `c` from `b` reaches `c` from `a`. */
  lemma {:induction false} ReachesTrans(checks: map<string, seq<CommsCheck>>, self: string, a: string, b: string, c: string)
    requires Reaches(checks, self, a, b) && Reaches(checks, self, b, c)
    ensures Reaches(checks, self, a, c)
  {
    var p :| Chain(checks, self, p) && |p| > 0 && p[0] == a && p[|p| - 1] == b;
    var q :| Chain(checks, self, q) && |q| > 0 && q[0] == b && q[|q| - 1] == c;
    var r := p + q[1..];
    forall i | 0 <= i < |r| - 1
      ensures Link(checks, self, r[i], r[i + 1])
    {
      if i < |p| - 1 {
        assert r[i] == p[i] && r[i + 1] == p[i + 1];
      } else {
        assert r[i] == q[i - |p| + 1] && r[i + 1] == q[i - |p| + 2];
      }
    }
    assert Chain(checks, self, r);
  }

  /** Every agent `c`'s comm check reports in comm, other than `self`, is marked reachable. */
  predicate Closed(sims: map<string, bool>, checks: map<string, seq<CommsCheck>>, self: string, c: string)
  {
    c in checks ==>
      forall k :: 0 <= k < |checks[c]| && checks[c][k].incomm && checks[c][k].id != self ==>
        checks[c][k].id in sims && sims[checks[c][k].id]
  }

  /** Every agent a comm check reports in comm (other than `self`) has an entry of its own. */
  predicate ChecksKnown(sims: map<string, bool>, checks: map<string, seq<CommsCheck>>, self: string)
  {
    forall c, k :: c in checks && 0 <= k < |checks[c]| && checks[c][k].incomm && checks[c][k].id != self ==>
      checks[c][k].id in sims
  }

  /** `b` has the keys of `a` and keeps every reachable mark of `a`. */
  predicate Grows(a: map<string, bool>, b: map<string, bool>)
  {
    a.Keys == b.Keys && forall x :: x in a && a[x] ==> b[x]
  }

  /** The agents not (yet) marked reachable. */
  function Unreached(m: map<string, bool>): set<string>
  {
    set x | x in m && !m[x]
  }

  lemma ClosedGrows(a: map<string, bool>, b: map<string, bool>, checks: map<string, seq<CommsCheck>>,
                    self: string, c: string)
    requires Grows(a, b) && Closed(a, checks, self, c)
    ensures Closed(b, checks, self, c)
  {
  }

  /** Marking an unreached agent leaves fewer unreached agents than at the start. */
  lemma UnreachedShrinks(a: map<string, bool>, b: map<string, bool>, x: string)
    requires Grows(a, b) && x in b && !b[x]
    ensures |Unreached(b[x := true])| < |Unreached(a)|
  {
    var u := Unreached(b[x := true]);
    assert u <= Unreached(a) - {x};
    assert x in Unreached(a);
    SubsetSize(u, Unreached(a) - {x});
  }

  lemma {:induction false} SubsetSize(a: set<string>, b: set<string>)
    requires a <= b
    ensures |a| <= |b|
    decreases |b|
  {
    if b != {} {
      var y :| y in b;
      SubsetSize(a - {y}, b - {y});
    }
  }

  /** The reachability entries after each comm-check entry, in order, is stored under its id. */
  function Absorb(m: map<string, bool>, entries: seq<CommsCheck>): map<string, bool>
  {
    if |entries| == 0 then m
    else Absorb(m, entries[..|entries| - 1])[entries[|entries| - 1].id := entries[|entries| - 1].incomm]
  }

  /** Storing the entries adds exactly their ids to the keys. */
  lemma {:induction false} AbsorbKeys(m: map<string, bool>, entries: seq<CommsCheck>)
    ensures forall x :: x in Absorb(m, entries) <==> x in m || Lists(entries, |entries|, x)
  {
    if |entries| > 0 {
      var n := |entries| - 1;
      AbsorbKeys(m, entries[..n]);
      forall x ensures Lists(entries, |entries|, x) <==> Lists(entries[..n], n, x) || x == entries[n].id {
        if Lists(entries[..n], n, x) {
          var k :| 0 <= k < n && entries[..n][k].id == x;
          assert entries[k].id == x;
        }
      }
    }
  }

  /** The last entry for an id decides its mark. */
  lemma {:induction false} AbsorbLastWins(m: map<string, bool>, entries: seq<CommsCheck>, k: nat)
    requires k < |entries| && LastOf(entries, |entries|, k)
    ensures entries[k].id in Absorb(m, entries) && Absorb(m, entries)[entries[k].id] == entries[k].incomm
  {
    var n := |entries| - 1;
    if k < n {
      assert entries[..n][k] == entries[k];
      assert LastOf(entries[..n], n, k);
      AbsorbLastWins(m, entries[..n], k);
    }
  }

  /** An id no entry lists keeps its mark. */
  lemma {:induction false} AbsorbKeeps(m: map<string, bool>, entries: seq<CommsCheck>, x: string)
    requires x in m && !Lists(entries, |entries|, x)
    ensures x in Absorb(m, entries) && Absorb(m, entries)[x] == m[x]
  {
    if |entries| > 0 {
      var n := |entries| - 1;
      AbsorbKeeps(m, entries[..n], x);
    }
  }

  /** No entry among the first `n` after entry `k` has its id: entry k is the one that counts. */
  predicate LastOf(entries: seq<CommsCheck>, n: int, k: int)
    requires 0 <= k < n <= |entries|
  {
    forall j :: k < j < n ==> entries[j].id != entries[k].id
  }

  /** Some entry among the first `n` has id x. */
  predicate Lists(entries: seq<CommsCheck>, n: int, x: string)
    requires 0 <= n <= |entries|
  {
    exists k :: 0 <= k < n && entries[k].id == x
  }

  // ---------------------------------------------------------------------------
  // Registry lookups

  /** The position of the first agent of the list with that id, if any. */
  function AgentIndex(agents: seq<Agent>, nid: string): (r: Option<nat>)
    ensures r.None? <==> forall i :: 0 <= i < |agents| ==> agents[i].id != nid
    ensures r.Some? ==> r.value < |agents| && agents[r.value].id == nid &&
                        forall i :: 0 <= i < r.value ==> agents[i].id != nid
  {
    if |agents| == 0 then None
    else if agents[0].id == nid then Some(0)
    else
      var r := AgentIndex(agents[1..], nid);
      assert forall i :: 0 < i < |agents| ==> agents[i] == agents[1..][i - 1];
      if r.None? then None else Some(r.value + 1)
  }

  /** The position of the first beacon of the list with that id, if any. */
  function BeaconIndex(bs: seq<Beacon>, bid: string): (r: Option<nat>)
    ensures r.None? <==> forall i :: 0 <= i < |bs| ==> bs[i].id != bid
    ensures r.Some? ==> r.value < |bs| && bs[r.value].id == bid &&
                        forall i :: 0 <= i < r.value ==> bs[i].id != bid
  {
    if |bs| == 0 then None
    else if bs[0].id == bid then Some(0)
    else
      var r := BeaconIndex(bs[1..], bid);
      assert forall i :: 0 < i < |bs| ==> bs[i] == bs[1..][i - 1];
      if r.None? then None else Some(r.value + 1)
  }

  /** Whether some beacon of the list has that id (`bid in self.beacons`). */
  predicate HasBeacon(bs: seq<Beacon>, bid: string)
  {
    exists i :: 0 <= i < |bs| && bs[i].id == bid
  }

  /** The beacons with their comm flag recomputed from the time of their last direct message. */
  function BeaconsInComm(bs: seq<Beacon>, checkTime: int): (r: seq<Beacon>)
    ensures |r| == |bs|
    ensures forall i :: 0 <= i < |bs| ==> r[i] == bs[i].(incomm := bs[i].lastDirectMessage > checkTime)
  {
    seq(|bs|, i requires 0 <= i < |bs| => bs[i].(incomm := bs[i].lastDirectMessage > checkTime))
  }

  /** The beacons with the simulated-comm flag of every beacon-named entry taken from `sims`. */
  function BeaconsSimComm(bs: seq<Beacon>, sims: map<string, bool>): (r: seq<Beacon>)
    ensures |r| == |bs|
    ensures forall i :: 0 <= i < |bs| ==>
      r[i] == if Contains(bs[i].id, "B") && bs[i].id in sims then bs[i].(simcomm := sims[bs[i].id]) else bs[i]
  {
    seq(|bs|, i requires 0 <= i < |bs| =>
      if Contains(bs[i].id, "B") && bs[i].id in sims then bs[i].(simcomm := sims[bs[i].id]) else bs[i])
  }

  /** The artifact reports that did not come from agent `nid`, in order. */
  function WithoutAgent(arts: seq<ArtifactReport>, nid: string): seq<ArtifactReport>
  {
    if |arts| == 0 then []
    else WithoutAgent(arts[..|arts| - 1], nid) + (if arts[|arts| - 1].agentId == nid then [] else [arts[|arts| - 1]])
  }

  /** Dropping an agent's reports keeps exactly the reports of the other agents. */
  lemma {:induction false} WithoutAgentContents(arts: seq<ArtifactReport>, nid: string)
    ensures forall a :: a in WithoutAgent(arts, nid) <==> a in arts && a.agentId != nid
    ensures |WithoutAgent(arts, nid)| <= |arts|
  {
    if |arts| > 0 {
      var n := |arts| - 1;
      WithoutAgentContents(arts[..n], nid);
      assert arts == arts[..n] + [arts[n]];
    }
  }

  /** Whether a reset applies to a node of this type: base and robots by their flags, beacons always. */
  predicate AppliesTo(kind: string, data: Reset)
  {
    (kind == "base" && data.base) || (kind == "robot" && data.robots) || kind == "beacon"
  }

  // ---------------------------------------------------------------------------
  // Direct-message responses

  /** The position of the first report whose artifact has that id, if any. */
  function ReportIndex(arts: seq<ArtifactReport>, aid: string): (r: Option<nat>)
    ensures r.None? <==> forall i :: 0 <= i < |arts| ==> arts[i].artifact.artifactId != aid
    ensures r.Some? ==> r.value < |arts| && arts[r.value].artifact.artifactId == aid &&
                        forall i :: 0 <= i < r.value ==> arts[i].artifact.artifactId != aid
  {
    if |arts| == 0 then None
    else if arts[0].artifact.artifactId == aid then Some(0)
    else
      var r := ReportIndex(arts[1..], aid);
      assert forall i :: 0 < i < |arts| ==> arts[i] == arts[1..][i - 1];
      if r.None? then None else Some(r.value + 1)
  }

  /** The reports after the first one for artifact `aid`, if any, saves the received image. */
  function SaveImage(arts: seq<ArtifactReport>, aid: string): seq<ArtifactReport>
  {
    match ReportIndex(arts, aid)
    case None => arts
    case Some(k) => arts[k := arts[k].(imageSaved := true)]
  }

  /** The reports after each image of `ids`, in turn, is saved. */
  function SaveImages(arts: seq<ArtifactReport>, ids: seq<string>): seq<ArtifactReport>
  {
    if |ids| == 0 then arts else SaveImage(SaveImages(arts, ids[..|ids| - 1]), ids[|ids| - 1])
  }

  /** The images of `ids` whose artifact has a report, in order. */
  function KnownImages(arts: seq<ArtifactReport>, ids: seq<string>): seq<string>
  {
    if |ids| == 0 then []
    else KnownImages(arts, ids[..|ids| - 1]) + (if ReportIndex(arts, ids[|ids| - 1]).Some? then [ids[|ids| - 1]] else [])
  }

  /** Two report lists with the same artifact ids, position by position. */
  predicate SameIds(a: seq<ArtifactReport>, b: seq<ArtifactReport>)
  {
    |a| == |b| && forall i :: 0 <= i < |a| ==> a[i].artifact.artifactId == b[i].artifact.artifactId
  }

  lemma ReportIndexSameIds(a: seq<ArtifactReport>, b: seq<ArtifactReport>, aid: string)
    requires SameIds(a, b)
    ensures ReportIndex(a, aid) == ReportIndex(b, aid)
  {
    var ra, rb := ReportIndex(a, aid), ReportIndex(b, aid);
    if ra.Some? && rb.Some? {
      assert !(ra.value < rb.value) && !(rb.value < ra.value);
    }
  }

  /**
   * Saving images changes only the saved-image marks: every report keeps its
   * artifact, its origin and its place, and the images no report knows change nothing.
   */
  lemma {:induction false} SaveImagesKeeps(arts: seq<ArtifactReport>, ids: seq<string>)
    ensures SameIds(arts, SaveImages(arts, ids))
    ensures forall i :: 0 <= i < |arts| ==>
      SaveImages(arts, ids)[i] == arts[i].(imageSaved := SaveImages(arts, ids)[i].imageSaved)
    ensures forall i :: 0 <= i < |arts| && arts[i].imageSaved ==> SaveImages(arts, ids)[i].imageSaved
  {
    if |ids| > 0 {
      var front := SaveImages(arts, ids[..|ids| - 1]);
      SaveImagesKeeps(arts, ids[..|ids| - 1]);
      ReportIndexSameIds(arts, front, ids[|ids| - 1]);
    }
  }

  /** Which images are known depends only on the artifact ids of the reports. */
  lemma {:induction false} KnownImagesSameIds(a: seq<ArtifactReport>, b: seq<ArtifactReport>, ids: seq<string>)
    requires SameIds(a, b)
    ensures KnownImages(a, ids) == KnownImages(b, ids)
  {
    if |ids| > 0 {
      KnownImagesSameIds(a, b, ids[..|ids| - 1]);
      ReportIndexSameIds(a, b, ids[|ids| - 1]);
    }
  }

  /** The known images of a concatenation are those of each part, in order. */
  lemma {:induction false} KnownImagesAppend(arts: seq<ArtifactReport>, a: seq<string>, b: seq<string>)
    ensures KnownImages(arts, a + b) == KnownImages(arts, a) + KnownImages(arts, b)
    decreases |b|
  {
    if |b| == 0 {
      assert a + b == a;
    } else {
      var n := |b| - 1;
      KnownImagesAppend(arts, a, b[..n]);
      assert (a + b)[..|a + b| - 1] == a + b[..n];
    }
  }

  /** Saving two lists of images in turn saves their concatenation. */
  lemma {:induction false} SaveImagesAppend(arts: seq<ArtifactReport>, a: seq<string>, b: seq<string>)
    ensures SaveImages(SaveImages(arts, a), b) == SaveImages(arts, a + b)
    decreases |b|
  {
    if |b| == 0 {
      assert a + b == a;
    } else {
      var n := |b| - 1;
      var ab := a + b;
      assert ab[..|ab| - 1] == a + b[..n] && ab[|ab| - 1] == b[n];
      SaveImagesAppend(arts, a, b[..n]);
      calc {
        SaveImages(arts, ab);
        SaveImage(SaveImages(arts, a + b[..n]), b[n]);
        SaveImage(SaveImages(SaveImages(arts, a), b[..n]), b[n]);
      }
    }
  }

  /** The map diffs a response carries for agent `nid`, entry after entry. */
  function DiffsFor(resp: seq<DMResp>, nid: string): seq<MapDiff>
  {
    if |resp| == 0 then []
    else DiffsFor(resp[..|resp| - 1], nid) + (if resp[|resp| - 1].id == nid then resp[|resp| - 1].octomaps else [])
  }

  /** The images a response carries for agent `nid`, entry after entry. */
  function ImagesFor(resp: seq<DMResp>, nid: string): seq<string>
  {
    if |resp| == 0 then []
    else ImagesFor(resp[..|resp| - 1], nid) + (if resp[|resp| - 1].id == nid then resp[|resp| - 1].images else [])
  }

  /** Every image a response carries, entry after entry. */
  function AllImages(resp: seq<DMResp>): seq<string>
  {
    if |resp| == 0 then [] else AllImages(resp[..|resp| - 1]) + resp[|resp| - 1].images
  }

  /** Whether a response delivers anything, entry after entry: a map diff, or an image of a reported artifact. */
  predicate Delivers(arts: seq<ArtifactReport>, resp: seq<DMResp>)
  {
    |resp| > 0 &&
    (Delivers(arts, resp[..|resp| - 1]) ||
     |resp[|resp| - 1].octomaps| > 0 || |KnownImages(arts, resp[|resp| - 1].images)| > 0)
  }

  /** A response delivers something iff one of its entries carries a diff or an image of a reported artifact. */
  lemma {:induction false} DeliversMeaning(arts: seq<ArtifactReport>, resp: seq<DMResp>)
    ensures Delivers(arts, resp) <==>
      exists k :: 0 <= k < |resp| && (|resp[k].octomaps| > 0 || |KnownImages(arts, resp[k].images)| > 0)
  {
    if |resp| > 0 {
      var n := |resp| - 1;
      DeliversMeaning(arts, resp[..n]);
      if Delivers(arts, resp[..n]) {
        var k :| 0 <= k < n && (|resp[..n][k].octomaps| > 0 || |KnownImages(arts, resp[..n][k].images)| > 0);
        assert resp[k] == resp[..n][k];
      }
      if exists k :: 0 <= k < |resp| && (|resp[k].octomaps| > 0 || |KnownImages(arts, resp[k].images)| > 0) {
        var k :| 0 <= k < |resp| && (|resp[k].octomaps| > 0 || |KnownImages(arts, resp[k].images)| > 0);
        if k < n {
          assert resp[..n][k] == resp[k];
        }
      }
    }
  }

  /** One more response entry extends what the response carries for each agent and overall. */
  lemma ResponseStep(arts: seq<ArtifactReport>, resp: seq<DMResp>, i: nat, nid: string)
    requires i < |resp|
    ensures DiffsFor(resp[..i + 1], nid) == DiffsFor(resp[..i], nid) + (if resp[i].id == nid then resp[i].octomaps else [])
    ensures ImagesFor(resp[..i + 1], nid) == ImagesFor(resp[..i], nid) + (if resp[i].id == nid then resp[i].images else [])
    ensures AllImages(resp[..i + 1]) == AllImages(resp[..i]) + resp[i].images
    ensures Delivers(arts, resp[..i + 1]) <==>
      Delivers(arts, resp[..i]) || |resp[i].octomaps| > 0 || |KnownImages(arts, resp[i].images)| > 0
  {
    assert resp[..i + 1][..i] == resp[..i];
  }

  /** The ids of the agent records, in order. */
  function Ids(ns: seq<Agent>): (r: seq<string>)
    ensures |r| == |ns| && forall j :: 0 <= j < |ns| ==> r[j] == ns[j].id
  {
    seq(|ns|, j requires 0 <= j < |ns| => ns[j].id)
  }

  /** The delivery parts of the agent records, in order. */
  function Inboxes(ns: seq<Agent>): (r: seq<Inbox>)
    reads ns
    ensures |r| == |ns| && forall j :: 0 <= j < |ns| ==> r[j] == ns[j].InboxOf()
  {
    seq(|ns|, j reads ns requires 0 <= j < |ns| => ns[j].InboxOf())
  }

  /** Every record after a response: each receives what the response carries for its id. */
  function DeliverAll(boxes: seq<Inbox>, ids: seq<string>, arts: seq<ArtifactReport>, resp: seq<DMResp>,
                      reportImages: bool): (r: seq<Inbox>)
    requires |boxes| == |ids|
    ensures |r| == |boxes|
  {
    seq(|boxes|, j requires 0 <= j < |boxes| =>
      Deliver(boxes[j], DiffsFor(resp, ids[j]), KnownImages(arts, ImagesFor(resp, ids[j])), reportImages))
  }

  /** Whether a response, with reported images, attaches an image to some record's artifact list. */
  predicate RehashesAny(boxes: seq<Inbox>, ids: seq<string>, arts: seq<ArtifactReport>, resp: seq<DMResp>,
                        reportImages: bool)
    requires |boxes| == |ids|
  {
    reportImages && exists j :: 0 <= j < |boxes| && NamesAny(boxes[j].checkArtifacts, KnownImages(arts, ImagesFor(resp, ids[j])))
  }

  /** An empty response changes no record and rehashes nothing. */
  lemma DeliverAllNothing(boxes: seq<Inbox>, ids: seq<string>, arts: seq<ArtifactReport>, ri: bool)
    requires |boxes| == |ids|
    ensures DeliverAll(boxes, ids, arts, [], ri) == boxes
    ensures !RehashesAny(boxes, ids, arts, [], ri)
  {
    forall j | 0 <= j < |boxes| ensures DeliverAll(boxes, ids, arts, [], ri)[j] == boxes[j] {
      DeliverNothing(boxes[j], ri);
    }
  }

  /** Distinct ids. */
  predicate Distinct(ids: seq<string>)
  {
    forall i, j :: 0 <= i < j < |ids| ==> ids[i] != ids[j]
  }

  /**
   * One more response entry, for the record at k, changes that record only,
   * by one delivery of the entry; a rehash happens by then iff it happened
   * before or this delivery rehashes.
   */
  lemma DeliverAllStep(boxes: seq<Inbox>, ids: seq<string>, arts: seq<ArtifactReport>, resp: seq<DMResp>,
                       ri: bool, i: nat, k: nat)
    requires |boxes| == |ids| && Distinct(ids) && i < |resp| && k < |ids| && ids[k] == resp[i].id
    ensures DeliverAll(boxes, ids, arts, resp[..i + 1], ri) ==
      DeliverAll(boxes, ids, arts, resp[..i], ri)[k := Deliver(DeliverAll(boxes, ids, arts, resp[..i], ri)[k],
                                                                resp[i].octomaps, KnownImages(arts, resp[i].images), ri)]
    ensures RehashesAny(boxes, ids, arts, resp[..i + 1], ri) <==>
      RehashesAny(boxes, ids, arts, resp[..i], ri) ||
      (ri && NamesAny(DeliverAll(boxes, ids, arts, resp[..i], ri)[k].checkArtifacts, KnownImages(arts, resp[i].images)))
  {
    var before := DeliverAll(boxes, ids, arts, resp[..i], ri);
    var after := DeliverAll(boxes, ids, arts, resp[..i + 1], ri);
    var known := KnownImages(arts, resp[i].images);
    forall j | 0 <= j < |boxes|
      ensures after[j] == (if j == k then Deliver(before[j], resp[i].octomaps, known, ri) else before[j])
      ensures NamesAny(boxes[j].checkArtifacts, KnownImages(arts, ImagesFor(resp[..i + 1], ids[j]))) <==>
        NamesAny(boxes[j].checkArtifacts, KnownImages(arts, ImagesFor(resp[..i], ids[j]))) ||
        (j == k && NamesAny(boxes[j].checkArtifacts, known))
    {
      ResponseStep(arts, resp, i, ids[j]);
      var e := if resp[i].id == ids[j] then resp[i].images else [];
      KnownImagesAppend(arts, ImagesFor(resp[..i], ids[j]), e);
      NamesAnyAppend(boxes[j].checkArtifacts, KnownImages(arts, ImagesFor(resp[..i], ids[j])), KnownImages(arts, e));
      if j == k {
        DeliverTwice(boxes[j], DiffsFor(resp[..i], ids[j]), KnownImages(arts, ImagesFor(resp[..i], ids[j])),
                     resp[i].octomaps, known, ri);
      } else {
        assert KnownImages(arts, e) == [];
        assert !NamesAny(boxes[j].checkArtifacts, []);
        assert DiffsFor(resp[..i], ids[j]) + [] == DiffsFor(resp[..i], ids[j]);
        assert KnownImages(arts, ImagesFor(resp[..i], ids[j])) + [] == KnownImages(arts, ImagesFor(resp[..i], ids[j]));
      }
    }
    assert after == before[k := Deliver(before[k], resp[i].octomaps, known, ri)];
    AttachTwice(boxes[k].checkArtifacts, KnownImages(arts, ImagesFor(resp[..i], ids[k])), known);
  }

  // ---------------------------------------------------------------------------
  // Direct-message requests

  /** One entry of a DMReqArray message: what is missing from agent `id`. */
  datatype DMReq = DMReq(id: string, missingDiffs: seq<int>, missingImages: seq<string>)

  /** What requestMissing reads of a neighbour record. */
  datatype Peer = Peer(id: string, incomm: bool, missingDiffs: seq<int>, missingImages: seq<string>)

  /** The neighbour records as requestMissing sees them, in order. */
  function Peers(ns: seq<Agent>): (r: seq<Peer>)
    reads ns
    ensures |r| == |ns|
    ensures forall j :: 0 <= j < |ns| ==>
      r[j] == Peer(ns[j].id, ns[j].incomm, ns[j].missingDiffs, ns[j].missingImages)
  {
    seq(|ns|, j reads ns requires 0 <= j < |ns| =>
      Peer(ns[j].id, ns[j].incomm, ns[j].missingDiffs, ns[j].missingImages))
  }

  /** Whether some map diff or image of that neighbour is missing. */
  predicate Missing(p: Peer)
  {
    |p.missingDiffs| > 0 || |p.missingImages| > 0
  }

  /** The request: one entry per neighbour with something missing, in order. */
  function RequestList(ps: seq<Peer>): seq<DMReq>
  {
    if |ps| == 0 then []
    else
      var p := ps[|ps| - 1];
      RequestList(ps[..|ps| - 1]) + (if Missing(p) then [DMReq(p.id, p.missingDiffs, p.missingImages)] else [])
  }

  /** The request lists exactly the neighbours with something missing, each with its ledgers. */
  lemma {:induction false} RequestListContents(ps: seq<Peer>)
    ensures |RequestList(ps)| <= |ps|
    ensures RequestList(ps) == [] <==> forall j :: 0 <= j < |ps| ==> !Missing(ps[j])
    ensures forall r :: r in RequestList(ps) <==>
      exists j :: 0 <= j < |ps| && Missing(ps[j]) && r == DMReq(ps[j].id, ps[j].missingDiffs, ps[j].missingImages)
  {
    if |ps| > 0 {
      var n := |ps| - 1;
      RequestListContents(ps[..n]);
      assert forall j :: 0 <= j < n ==> ps[..n][j] == ps[j];
    }
  }

  /**
   * The first neighbour, in order, with something missing, in comm, and with a
   * non-empty id (an empty id is false in the source's test); "" if none.
   */
  function FirstMissingInComm(ps: seq<Peer>): (t: string)
    ensures t != "" ==> exists j :: 0 <= j < |ps| && ps[j].id == t && ps[j].incomm && Missing(ps[j])
    ensures t == "" <==> forall j :: 0 <= j < |ps| && Missing(ps[j]) && ps[j].incomm ==> ps[j].id == ""
  {
    if |ps| == 0 then ""
    else if Missing(ps[0]) && ps[0].incomm && ps[0].id != "" then ps[0].id
    else
      var t := FirstMissingInComm(ps[1..]);
      assert forall j :: 0 < j < |ps| ==> ps[j] == ps[1..][j - 1];
      t
  }

  /** The id of the first beacon in comm, other than the node itself, not yet asked; "" if none. */
  function FirstFreeBeacon(bs: seq<Beacon>, self: string, tried: seq<string>): (t: string)
    ensures t != "" ==> exists j :: 0 <= j < |bs| && bs[j].id == t && bs[j].incomm && t != self && t !in tried
    ensures (forall j :: 0 <= j < |bs| ==> bs[j].id != "") ==>
      (t == "" <==> forall j :: 0 <= j < |bs| ==> !(bs[j].id != self && bs[j].incomm && bs[j].id !in tried))
  {
    if |bs| == 0 then ""
    else if self != bs[0].id && bs[0].incomm && bs[0].id !in tried then bs[0].id
    else
      var t := FirstFreeBeacon(bs[1..], self, tried);
      assert forall j :: 0 < j < |bs| ==> bs[j] == bs[1..][j - 1];
      t
  }

  /** The id of the first neighbour in comm not yet asked; "" if none. */
  function FirstFreePeer(ps: seq<Peer>, tried: seq<string>): (t: string)
    ensures t != "" ==> exists j :: 0 <= j < |ps| && ps[j].id == t && ps[j].incomm && t !in tried
    ensures (forall j :: 0 <= j < |ps| ==> ps[j].id != "") ==>
      (t == "" <==> forall j :: 0 <= j < |ps| ==> !(ps[j].incomm && ps[j].id !in tried))
  {
    if |ps| == 0 then ""
    else if ps[0].incomm && ps[0].id !in tried then ps[0].id
    else
      var t := FirstFreePeer(ps[1..], tried);
      assert forall j :: 0 < j < |ps| ==> ps[j] == ps[1..][j - 1];
      t
  }

  /**
   * Whom requestMissing asks, in order of preference: the first neighbour in
   * comm that something is missing from; the base station, if in comm and not
   * yet asked; the first beacon in comm not yet asked; the first neighbour in
   * comm not yet asked. "" is nobody.
   */
  function ChooseTarget(ps: seq<Peer>, bs: seq<Beacon>, self: string, baseInComm: bool, tried: seq<string>): string
  {
    var first := FirstMissingInComm(ps);
    if first != "" then first
    else if self != "Base" && baseInComm && "Base" !in tried then "Base"
    else
      var beacon := FirstFreeBeacon(bs, self, tried);
      if beacon != "" then beacon else FirstFreePeer(ps, tried)
  }

  /**
   * The chosen target is never the node itself and is in comm: a neighbour,
   * the base station or a beacon. Only the first rule may pick an agent
   * already asked; the others pick only agents not yet asked.
   */
  lemma ChooseTargetSound(ps: seq<Peer>, bs: seq<Beacon>, self: string, baseInComm: bool, tried: seq<string>)
    requires forall j :: 0 <= j < |ps| ==> ps[j].id != self
    ensures var t := ChooseTarget(ps, bs, self, baseInComm, tried);
      t != "" ==>
        t != self &&
        ((exists j :: 0 <= j < |ps| && ps[j].id == t && ps[j].incomm) ||
         (t == "Base" && baseInComm) ||
         (exists j :: 0 <= j < |bs| && bs[j].id == t && bs[j].incomm))
    ensures var t := ChooseTarget(ps, bs, self, baseInComm, tried);
      t in tried ==> t == FirstMissingInComm(ps)
  {
  }

  /**
   * With every id non-empty, somebody is asked whenever some neighbour in
   * comm has not been asked yet.
   */
  lemma ChooseTargetFinds(ps: seq<Peer>, bs: seq<Beacon>, self: string, baseInComm: bool, tried: seq<string>)
    requires forall j :: 0 <= j < |ps| ==> ps[j].id != ""
    requires forall j :: 0 <= j < |bs| ==> bs[j].id != ""
    requires exists j :: 0 <= j < |ps| && ps[j].incomm && ps[j].id !in tried
    ensures ChooseTarget(ps, bs, self, baseInComm, tried) != ""
  {
  }

  // ---------------------------------------------------------------------------
  // Beacon activation

  /** Every active heard entry names a known beacon (otherwise the lookup fails). */
  predicate Known(bs: seq<Beacon>, es: seq<BeaconEntry>)
  {
    forall j :: 0 <= j < |es| && es[j].active ==> HasBeacon(bs, es[j].id)
  }

  /** Only position and activity may differ between `bs` and `r`, and active beacons do not change. */
  predicate OnlyActivated(bs: seq<Beacon>, r: seq<Beacon>)
  {
    |r| == |bs| &&
    forall i :: 0 <= i < |bs| ==>
      r[i] == bs[i].(pos := r[i].pos, active := r[i].active) && (bs[i].active ==> r[i] == bs[i])
  }

  /**
   * updateBeacons for one heard entry: an active entry activates the beacon
   * it names at its position, unless that beacon is active already.
   */
  function Activate(bs: seq<Beacon>, e: BeaconEntry): (r: seq<Beacon>)
    requires e.active ==> HasBeacon(bs, e.id)
    ensures OnlyActivated(bs, r)
  {
    if !e.active then bs
    else
      var k := BeaconIndex(bs, e.id).value;
      if bs[k].active then bs else bs[k := bs[k].(pos := e.pos, active := true)]
  }

  /** The heard entries applied in order. */
  function ActivateAll(bs: seq<Beacon>, es: seq<BeaconEntry>): (r: seq<Beacon>)
    requires Known(bs, es)
    ensures OnlyActivated(bs, r)
    decreases |es|
  {
    if |es| == 0 then bs
    else
      var n := |es| - 1;
      assert Known(bs, es[..n]) by {
        forall j | 0 <= j < n && es[..n][j].active ensures HasBeacon(bs, es[..n][j].id) {
          assert es[..n][j] == es[j];
        }
      }
      var prev := ActivateAll(bs, es[..n]);
      assert es[n].active ==> HasBeacon(prev, es[n].id) by {
        if es[n].active {
          var i :| 0 <= i < |bs| && bs[i].id == es[n].id;
          assert prev[i].id == bs[i].id;
        }
      }
      Activate(prev, es[n])
  }

  /** Applying two lists of entries is applying their concatenation. */
  lemma {:induction false} ActivateAllAppend(bs: seq<Beacon>, a: seq<BeaconEntry>, b: seq<BeaconEntry>)
    requires Known(bs, a + b)
    ensures Known(bs, a) && Known(ActivateAll(bs, a), b)
    ensures ActivateAll(bs, a + b) == ActivateAll(ActivateAll(bs, a), b)
    decreases |b|
  {
    KnownSplit(bs, a, b);
    if |b| > 0 {
      var n := |b| - 1;
      var ab := a + b;
      assert ab[..|ab| - 1] == a + b[..n] && ab[|ab| - 1] == b[n];
      KnownPrefix(bs, ab, a + b[..n]);
      ActivateAllAppend(bs, a, b[..n]);
      var pa := ActivateAll(bs, a);
      calc {
        ActivateAll(bs, ab);
        Activate(ActivateAll(bs, a + b[..n]), b[n]);
        Activate(ActivateAll(pa, b[..n]), b[n]);
      }
    } else {
      assert a + b == a;
    }
  }

  /** Entries that name known beacons, split in two, still do: before and after the first part. */
  lemma KnownSplit(bs: seq<Beacon>, a: seq<BeaconEntry>, b: seq<BeaconEntry>)
    requires Known(bs, a + b)
    ensures Known(bs, a) && Known(ActivateAll(bs, a), b)
  {
    assert Known(bs, a) by {
      forall j | 0 <= j < |a| && a[j].active ensures HasBeacon(bs, a[j].id) {
        assert (a + b)[j] == a[j];
      }
    }
    var pa := ActivateAll(bs, a);
    forall j | 0 <= j < |b| && b[j].active ensures HasBeacon(pa, b[j].id) {
      assert (a + b)[|a| + j] == b[j];
      var i :| 0 <= i < |bs| && bs[i].id == b[j].id;
      assert pa[i].id == bs[i].id;
    }
  }

  /** Every active heard entry leaves the beacon it names active. */
  lemma {:induction false} ActivateAllActivates(bs: seq<Beacon>, es: seq<BeaconEntry>)
    requires Known(bs, es)
    ensures forall j :: 0 <= j < |es| && es[j].active ==>
      ActivateAll(bs, es)[BeaconIndex(bs, es[j].id).value].active
    decreases |es|
  {
    if |es| > 0 {
      var n := |es| - 1;
      assert Known(bs, es[..n]) by {
        forall j | 0 <= j < n && es[..n][j].active ensures HasBeacon(bs, es[..n][j].id) {
          assert es[..n][j] == es[j];
        }
      }
      ActivateAllActivates(bs, es[..n]);
      var prev := ActivateAll(bs, es[..n]);
      var r := ActivateAll(bs, es);
      assert r == Activate(prev, es[n]);
      assert OnlyActivated(prev, r);
      BeaconIndexSameIds(bs, prev, es[n].id);
      forall j | 0 <= j < |es| && es[j].active
        ensures r[BeaconIndex(bs, es[j].id).value].active
      {
        var k := BeaconIndex(bs, es[j].id).value;
        if j < n {
          assert es[..n][j] == es[j];
          assert prev[k].active;
          assert r[k] == prev[k];
        } else {
          assert BeaconIndex(prev, es[n].id).value == k;
          if !prev[k].active {
            assert r == prev[k := prev[k].(pos := es[n].pos, active := true)];
          }
        }
      }
    }
  }

  /** The first index of an id depends only on the ids. */
  lemma {:induction false} BeaconIndexSameIds(bs: seq<Beacon>, cs: seq<Beacon>, bid: string)
    requires |bs| == |cs| && forall i :: 0 <= i < |bs| ==> bs[i].id == cs[i].id
    ensures BeaconIndex(bs, bid) == BeaconIndex(cs, bid)
    decreases |bs|
  {
    if |bs| > 0 && bs[0].id != bid {
      assert forall i :: 0 <= i < |bs| - 1 ==> bs[1..][i] == bs[i + 1] && cs[1..][i] == cs[i + 1];
      BeaconIndexSameIds(bs[1..], cs[1..], bid);
    }
  }

  /** A beacon becomes active only when some active entry names it. */
  lemma {:induction false} ActivateAllOnly(bs: seq<Beacon>, es: seq<BeaconEntry>)
    requires Known(bs, es)
    ensures forall i :: 0 <= i < |bs| && ActivateAll(bs, es)[i].active && !bs[i].active ==>
      exists j :: 0 <= j < |es| && es[j].active && es[j].id == bs[i].id && ActivateAll(bs, es)[i].pos == es[j].pos
    decreases |es|
  {
    if |es| > 0 {
      var n := |es| - 1;
      assert Known(bs, es[..n]) by {
        forall j | 0 <= j < n && es[..n][j].active ensures HasBeacon(bs, es[..n][j].id) {
          assert es[..n][j] == es[j];
        }
      }
      ActivateAllOnly(bs, es[..n]);
      var prev := ActivateAll(bs, es[..n]);
      var r := ActivateAll(bs, es);
      forall i | 0 <= i < |bs| && r[i].active && !bs[i].active
        ensures exists j :: 0 <= j < |es| && es[j].active && es[j].id == bs[i].id && r[i].pos == es[j].pos
      {
        if prev[i].active {
          var j :| 0 <= j < n && es[..n][j].active && es[..n][j].id == bs[i].id && prev[i].pos == es[..n][j].pos;
          assert es[..n][j] == es[j];
        } else {
          assert es[n].active && es[n].id == bs[i].id && r[i].pos == es[n].pos;
        }
      }
    }
  }

  /** The published beacon array: the active beacons, in order. */
  function ActiveEntries(bs: seq<Beacon>): (r: seq<BeaconEntry>)
    ensures |r| <= |bs|
    ensures forall e :: e in r <==>
      exists i :: 0 <= i < |bs| && bs[i].active && e == BeaconEntry(bs[i].id, true, bs[i].pos)
  {
    if |bs| == 0 then []
    else
      var n := |bs| - 1;
      var prev := ActiveEntries(bs[..n]);
      assert forall i :: 0 <= i < n ==> bs[..n][i] == bs[i];
      prev + (if bs[n].active then [BeaconEntry(bs[n].id, true, bs[n].pos)] else [])
  }

  /** Known holds for every prefix of the entries. */
  lemma KnownPrefix(bs: seq<Beacon>, es: seq<BeaconEntry>, q: seq<BeaconEntry>)
    requires Known(bs, es) && q <= es
    ensures Known(bs, q)
  {
    assert forall j :: 0 <= j < |q| ==> q[j] == es[j];
  }

  /** The loop over one list of heard entries. */
  method ActivateEach(bs: seq<Beacon>, es: seq<BeaconEntry>) returns (r: seq<Beacon>)
    requires Known(bs, es)
    ensures r == ActivateAll(bs, es)
  {
    r := bs;
    var k := 0;
    while k < |es|
      invariant 0 <= k <= |es|
      invariant Known(bs, es[..k])
      invariant r == ActivateAll(bs, es[..k])
    {
      assert es[..k + 1][..k] == es[..k];
      KnownPrefix(bs, es, es[..k + 1]);
      r := Activate(r, es[k]);
      k := k + 1;
    }
    assert es[..k] == es;
  }

  /** The loop building the published beacon array. */
  method ListActive(bs: seq<Beacon>) returns (r: seq<BeaconEntry>)
    ensures r == ActiveEntries(bs)
  {
    r := [];
    var k := 0;
    while k < |bs|
      invariant 0 <= k <= |bs|
      invariant r == ActiveEntries(bs[..k])
    {
      assert bs[..k + 1][..k] == bs[..k];
      if bs[k].active {
        r := r + [BeaconEntry(bs[k].id, bs[k].active, bs[k].pos)];
      }
      k := k + 1;
    }
    assert bs[..k] == bs;
  }

  /** The beacon lists the neighbours report, in neighbour order. */
  function CommEntries(ns: seq<Agent>): seq<BeaconEntry>
    reads ns
  {
    if |ns| == 0 then [] else CommEntries(ns[..|ns| - 1]) + ns[|ns| - 1].commBeacons
  }


  /** The entries of a prefix of the neighbours come first among all their entries. */
  lemma {:induction false} CommEntriesPrefix(ns: seq<Agent>, i: nat)
    requires i <= |ns|
    ensures CommEntries(ns[..i]) <= CommEntries(ns)
    decreases |ns|
  {
    if i < |ns| {
      var n := |ns| - 1;
      assert ns[..n][..i] == ns[..i];
      CommEntriesPrefix(ns[..n], i);
    } else {
      assert ns[..i] == ns;
    }
  }

  // ---------------------------------------------------------------------------
  // Artifact intake

  /**
   * What artifactCheck depends on besides the stored reports: whose list it
   * reads, whether that is this node's own agent, whether this node is the
   * base station, whether images are sent, where the neighbours and the
   * beacons are, and the time.
   */
  datatype Scene = Scene(agentId: string, own: bool, isBase: bool, sendImages: bool,
                         odoms: seq<Point>, beaconPos: seq<Point>, now: int)

  /** The running state of artifactCheck: the reports, what went to the agent's list, the flags, what goes to fusion. */
  datatype Intake = Intake(artifacts: seq<ArtifactReport>, added: seq<Artifact>, report: bool,
                           updated: bool, fuse: seq<ArtifactReport>)

  /** Some point of `ps` lies within distance `r` of `p`. */
  predicate NearAny(ps: seq<Point>, p: Point, r: real)
  {
    exists k :: 0 <= k < |ps| && Closer(ps[k], p, r)
  }

  /** Some stored report lies within planar distance 3 of `p`. */
  predicate NearStored(arts: seq<ArtifactReport>, p: Point)
  {
    exists k :: 0 <= k < |arts| && Closer2D(p, arts[k].artifact.position, 3.0)
  }

  /** An artifact is taken in only if its id is not stored yet and its x and y are non-zero. */
  predicate Eligible(arts: seq<ArtifactReport>, a: Artifact)
  {
    ReportIndex(arts, a.artifactId).None? && a.position.x != 0.0 && a.position.y != 0.0
  }

  /** An own 'rope' within 5 of a neighbour or within 2 of a beacon is presumed to be a robot. */
  predicate RopeNear(sc: Scene, a: Artifact)
  {
    sc.own && a.objClass == "rope" && (NearAny(sc.odoms, a.position, 5.0) || NearAny(sc.beaconPos, a.position, 2.0))
  }

  /**
   * The report stored for an eligible artifact: new and unreported, except a
   * rope near a robot or beacon, which is stored as already reported.
   */
  function Entry(sc: Scene, a: Artifact): (e: ArtifactReport)
    ensures e.artifact.artifactId == a.artifactId && e.artifact.objClass == a.objClass
    ensures e.artifact.position == a.position && e.agentId == sc.agentId
    ensures e.reported <==> RopeNear(sc, a)
    ensures e.artifact == Marked(a, sc.sendImages)
  {
    var r := NewReport(sc.agentId, a, sc.sendImages, sc.now);
    if RopeNear(sc, a) then r.(reported := true) else r
  }

  /**
   * artifactCheck for one artifact. An eligible artifact is stored; a rope
   * near a robot or beacon is not added to the agent's list. For the own
   * agent, the hash flag is recomputed: set only if the artifact is neither
   * near a stored one nor a suspect rope, and then the node also reports.
   * The base station always updates and fuses the new report.
   */
  function CheckOne(sc: Scene, st: Intake, a: Artifact): Intake
  {
    if !Eligible(st.artifacts, a) then st
    else
      var ignore := sc.own && (NearStored(st.artifacts, a.position) || RopeNear(sc, a));
      var entry := Entry(sc, a);
      Intake(st.artifacts + [entry],
             st.added + (if RopeNear(sc, a) then [] else [Marked(a, sc.sendImages)]),
             st.report || (sc.own && !ignore),
             (if sc.own then !ignore else st.updated) || sc.isBase,
             st.fuse + (if sc.isBase then [entry] else []))
  }

  /** artifactCheck over a list of new artifacts, in order. */
  function CheckAll(sc: Scene, st: Intake, xs: seq<Artifact>): Intake
  {
    if |xs| == 0 then st else CheckOne(sc, CheckAll(sc, st, xs[..|xs| - 1]), xs[|xs| - 1])
  }

  /** One more artifact checks it against the state the earlier ones left. */
  lemma CheckAllStep(sc: Scene, st: Intake, xs: seq<Artifact>, i: nat)
    requires i < |xs|
    ensures CheckAll(sc, st, xs[..i + 1]) == CheckOne(sc, CheckAll(sc, st, xs[..i]), xs[i])
  {
    assert xs[..i + 1][..i] == xs[..i];
  }

  /** No two reports share an artifact id. */
  predicate DistinctKeys(arts: seq<ArtifactReport>)
  {
    forall i, j :: 0 <= i < j < |arts| ==> arts[i].artifact.artifactId != arts[j].artifact.artifactId
  }

  /** The artifacts held by the reports not yet reported, in order. */
  function UnreportedArtifacts(rs: seq<ArtifactReport>): seq<Artifact>
  {
    if |rs| == 0 then []
    else UnreportedArtifacts(rs[..|rs| - 1]) + (if rs[|rs| - 1].reported then [] else [rs[|rs| - 1].artifact])
  }

  /** One step either leaves the state alone or stores exactly the entry of an eligible artifact. */
  lemma CheckOneStep(sc: Scene, st: Intake, a: Artifact)
    ensures var r := CheckOne(sc, st, a);
      if Eligible(st.artifacts, a) then
        r.artifacts == st.artifacts + [Entry(sc, a)] &&
        r.added == st.added + (if RopeNear(sc, a) then [] else [Marked(a, sc.sendImages)])
      else r == st
  {
  }

  /** Stored reports stay as they were. */
  lemma {:induction false} CheckAllGrows(sc: Scene, st: Intake, xs: seq<Artifact>)
    ensures st.artifacts <= CheckAll(sc, st, xs).artifacts
    decreases |xs|
  {
    if |xs| > 0 {
      var n := |xs| - 1;
      CheckAllGrows(sc, st, xs[..n]);
      CheckOneStep(sc, CheckAll(sc, st, xs[..n]), xs[n]);
    }
  }

  /** Ids stay distinct. */
  lemma {:induction false} CheckAllDistinct(sc: Scene, st: Intake, xs: seq<Artifact>)
    requires DistinctKeys(st.artifacts)
    ensures DistinctKeys(CheckAll(sc, st, xs).artifacts)
    decreases |xs|
  {
    if |xs| > 0 {
      var n := |xs| - 1;
      CheckAllDistinct(sc, st, xs[..n]);
      CheckOneStep(sc, CheckAll(sc, st, xs[..n]), xs[n]);
    }
  }

  /** A stored id stays stored when reports are only appended. */
  lemma StoredStays(p: seq<ArtifactReport>, r: seq<ArtifactReport>, aid: string)
    requires p <= r && ReportIndex(p, aid).Some?
    ensures ReportIndex(r, aid).Some?
  {
    var i := ReportIndex(p, aid).value;
    assert r[i] == p[i];
  }

  /** Every artifact of the list with non-zero x and y has a stored report afterwards. */
  lemma {:induction false} CheckAllStores(sc: Scene, st: Intake, xs: seq<Artifact>)
    ensures forall j :: 0 <= j < |xs| && xs[j].position.x != 0.0 && xs[j].position.y != 0.0 ==>
      ReportIndex(CheckAll(sc, st, xs).artifacts, xs[j].artifactId).Some?
    decreases |xs|
  {
    if |xs| > 0 {
      var n := |xs| - 1;
      CheckAllStores(sc, st, xs[..n]);
      var p := CheckAll(sc, st, xs[..n]);
      var r := CheckAll(sc, st, xs);
      CheckOneStep(sc, p, xs[n]);
      assert p.artifacts <= r.artifacts;
      forall j | 0 <= j < |xs| && xs[j].position.x != 0.0 && xs[j].position.y != 0.0
        ensures ReportIndex(r.artifacts, xs[j].artifactId).Some?
      {
        if j < n {
          assert xs[..n][j] == xs[j];
          StoredStays(p.artifacts, r.artifacts, xs[j].artifactId);
        } else if Eligible(p.artifacts, xs[n]) {
          assert r.artifacts[|p.artifacts|].artifact.artifactId == xs[j].artifactId;
        }
      }
    }
  }

  /** Every new report comes from an artifact of the list with non-zero x and y. */
  lemma {:induction false} CheckAllFrom(sc: Scene, st: Intake, xs: seq<Artifact>)
    ensures |st.artifacts| <= |CheckAll(sc, st, xs).artifacts|
    ensures var r := CheckAll(sc, st, xs);
      forall k :: |st.artifacts| <= k < |r.artifacts| ==>
        exists j :: 0 <= j < |xs| && r.artifacts[k].artifact.artifactId == xs[j].artifactId &&
                    xs[j].position.x != 0.0 && xs[j].position.y != 0.0
    decreases |xs|
  {
    if |xs| > 0 {
      var n := |xs| - 1;
      var ys := xs[..n];
      CheckAllFrom(sc, st, ys);
      var p := CheckAll(sc, st, ys);
      var r := CheckAll(sc, st, xs);
      assert r == CheckOne(sc, p, xs[n]);
      CheckOneStep(sc, p, xs[n]);
      forall k | |st.artifacts| <= k < |r.artifacts|
        ensures exists j :: 0 <= j < |xs| && r.artifacts[k].artifact.artifactId == xs[j].artifactId &&
                            xs[j].position.x != 0.0 && xs[j].position.y != 0.0
      {
        if k < |p.artifacts| {
          var j :| 0 <= j < n && p.artifacts[k].artifact.artifactId == ys[j].artifactId &&
                   ys[j].position.x != 0.0 && ys[j].position.y != 0.0;
          assert ys[j] == xs[j] && r.artifacts[k] == p.artifacts[k];
        } else {
          assert r.artifacts[k].artifact.artifactId == xs[n].artifactId;
        }
      }
    }
  }

  /** A new report is stored as already reported exactly when it is an own rope near a robot or beacon. */
  lemma {:induction false} CheckAllRope(sc: Scene, st: Intake, xs: seq<Artifact>)
    ensures |st.artifacts| <= |CheckAll(sc, st, xs).artifacts|
    ensures var r := CheckAll(sc, st, xs);
      forall k :: |st.artifacts| <= k < |r.artifacts| ==>
        (r.artifacts[k].reported <==> RopeNear(sc, r.artifacts[k].artifact))
    decreases |xs|
  {
    if |xs| > 0 {
      var n := |xs| - 1;
      CheckAllRope(sc, st, xs[..n]);
      var p := CheckAll(sc, st, xs[..n]);
      CheckOneStep(sc, p, xs[n]);
      var e := Entry(sc, xs[n]);
      assert RopeNear(sc, e.artifact) == RopeNear(sc, xs[n]);
    }
  }

  /**
   * The agent's list grows by exactly the artifacts of the new reports stored
   * unreported, in order: each is the artifact its report holds, image mark included.
   */
  lemma {:induction false} CheckAllAdded(sc: Scene, st: Intake, xs: seq<Artifact>)
    ensures |st.artifacts| <= |CheckAll(sc, st, xs).artifacts|
    ensures var r := CheckAll(sc, st, xs);
      r.added == st.added + UnreportedArtifacts(r.artifacts[|st.artifacts|..])
    decreases |xs|
  {
    if |xs| > 0 {
      var n := |xs| - 1;
      CheckAllAdded(sc, st, xs[..n]);
      var p := CheckAll(sc, st, xs[..n]);
      var r := CheckAll(sc, st, xs);
      CheckOneStep(sc, p, xs[n]);
      if Eligible(p.artifacts, xs[n]) {
        AddedStep(st.artifacts, p.artifacts, Entry(sc, xs[n]), st.added, p.added);
      }
    }
  }

  /** The step of CheckAllAdded: one more stored entry, and the added list extended to match. */
  lemma AddedStep(s0: seq<ArtifactReport>, ps: seq<ArtifactReport>, e: ArtifactReport, added0: seq<Artifact>,
                  added: seq<Artifact>)
    requires |s0| <= |ps|
    requires added == added0 + UnreportedArtifacts(ps[|s0|..])
    ensures added + (if e.reported then [] else [e.artifact]) == added0 + UnreportedArtifacts((ps + [e])[|s0|..])
  {
    var pt := ps[|s0|..];
    var tail := (ps + [e])[|s0|..];
    assert tail == pt + [e];
    assert tail[..|tail| - 1] == pt;
    assert UnreportedArtifacts(tail) == UnreportedArtifacts(pt) + if e.reported then [] else [e.artifact];
  }

  /** The flags after one artifact: the step of CheckAllFlags. */
  lemma CheckOneFlags(sc: Scene, st: Intake, a: Artifact)
    ensures var r := CheckOne(sc, st, a);
      (!sc.own ==> r.report == st.report) &&
      (!sc.own && !sc.isBase ==> r.updated == st.updated) &&
      (sc.isBase ==> r.updated == (st.updated || Eligible(st.artifacts, a))) &&
      (sc.own && !sc.isBase ==>
        r.updated == if Eligible(st.artifacts, a) then !NearStored(st.artifacts, a.position) && !RopeNear(sc, a)
                     else st.updated) &&
      r.fuse == st.fuse + (if sc.isBase && Eligible(st.artifacts, a) then [Entry(sc, a)] else [])
  {
  }

  /**
   * The flags: only the own agent sets `report`; for another agent off the
   * base station the hash flag is left alone; at the base station the hash
   * flag is set exactly when something new was stored, and every new report
   * goes to fusion, in order; elsewhere nothing does.
   */
  lemma CheckAllFlags(sc: Scene, st: Intake, xs: seq<Artifact>)
    ensures var r := CheckAll(sc, st, xs);
      |st.artifacts| <= |r.artifacts| &&
      (!sc.own ==> r.report == st.report) &&
      (!sc.own && !sc.isBase ==> r.updated == st.updated) &&
      (sc.isBase ==> (r.updated <==> st.updated || |r.artifacts| > |st.artifacts|)) &&
      (sc.isBase ==> r.fuse == st.fuse + r.artifacts[|st.artifacts|..]) &&
      (!sc.isBase ==> r.fuse == st.fuse)
  {
    CheckAllReportFlags(sc, st, xs);
    CheckAllFuse(sc, st, xs);
  }

  /** The report and hash flags of CheckAllFlags. */
  lemma {:induction false} CheckAllReportFlags(sc: Scene, st: Intake, xs: seq<Artifact>)
    ensures var r := CheckAll(sc, st, xs);
      |st.artifacts| <= |r.artifacts| &&
      (!sc.own ==> r.report == st.report) &&
      (!sc.own && !sc.isBase ==> r.updated == st.updated) &&
      (sc.isBase ==> (r.updated <==> st.updated || |r.artifacts| > |st.artifacts|))
    decreases |xs|
  {
    if |xs| > 0 {
      var n := |xs| - 1;
      CheckAllReportFlags(sc, st, xs[..n]);
      var p := CheckAll(sc, st, xs[..n]);
      CheckOneStep(sc, p, xs[n]);
      CheckOneFlags(sc, p, xs[n]);
    }
  }

  /** The fusion list of CheckAllFlags. */
  lemma {:induction false} CheckAllFuse(sc: Scene, st: Intake, xs: seq<Artifact>)
    ensures var r := CheckAll(sc, st, xs);
      |st.artifacts| <= |r.artifacts| &&
      (sc.isBase ==> r.fuse == st.fuse + r.artifacts[|st.artifacts|..]) &&
      (!sc.isBase ==> r.fuse == st.fuse)
    decreases |xs|
  {
    if |xs| > 0 {
      var n := |xs| - 1;
      CheckAllFuse(sc, st, xs[..n]);
      var p := CheckAll(sc, st, xs[..n]);
      var r := CheckAll(sc, st, xs);
      CheckOneStep(sc, p, xs[n]);
      CheckOneFlags(sc, p, xs[n]);
      if Eligible(p.artifacts, xs[n]) {
        assert r.artifacts[|st.artifacts|..] == p.artifacts[|st.artifacts|..] + [r.artifacts[|p.artifacts|]];
      }
    }
  }

  /**
   * For the own agent away from the base, the hash flag is decided by the
   * last new report alone: it is set iff that report was not stored as a
   * suspect rope and lies 3 m or more from every report stored before it.
   * With nothing new stored the flag is kept.
   */
  lemma {:induction false} CheckAllOwnFlag(sc: Scene, st: Intake, xs: seq<Artifact>)
    requires sc.own && !sc.isBase
    ensures var r := CheckAll(sc, st, xs);
      |st.artifacts| <= |r.artifacts| &&
      (|r.artifacts| == |st.artifacts| ==> r.updated == st.updated) &&
      (|r.artifacts| > |st.artifacts| ==>
        var k := |r.artifacts| - 1;
        (r.updated <==> !r.artifacts[k].reported && !NearStored(r.artifacts[..k], r.artifacts[k].artifact.position)))
    decreases |xs|
  {
    if |xs| > 0 {
      var n := |xs| - 1;
      CheckAllOwnFlag(sc, st, xs[..n]);
      var p := CheckAll(sc, st, xs[..n]);
      var r := CheckAll(sc, st, xs);
      assert r == CheckOne(sc, p, xs[n]);
      OwnFlagStep(sc, p, xs[n]);
    }
  }

  /** The step of CheckAllOwnFlag: a report appended by one check decides the flag. */
  lemma OwnFlagStep(sc: Scene, p: Intake, a: Artifact)
    requires sc.own && !sc.isBase
    ensures var r := CheckOne(sc, p, a);
      r == p ||
      (|r.artifacts| == |p.artifacts| + 1 && r.artifacts[..|p.artifacts|] == p.artifacts &&
       var k := |r.artifacts| - 1;
       (r.updated <==> !r.artifacts[k].reported && !NearStored(r.artifacts[..k], r.artifacts[k].artifact.position)))
  {
    var r := CheckOne(sc, p, a);
    CheckOneStep(sc, p, a);
    CheckOneFlags(sc, p, a);
    if Eligible(p.artifacts, a) {
      assert r.artifacts[..|p.artifacts|] == p.artifacts;
    }
  }

  /**
   * The screening of an eligible artifact: whether it goes to the agent's
   * list, and whether it is ignored for reporting (near a stored report, or
   * a suspect rope). Only the own agent's artifacts are screened.
   */
  method Screen(sc: Scene, arts: seq<ArtifactReport>, art: Artifact) returns (add: bool, ignore: bool)
    ensures add == !RopeNear(sc, art)
    ensures ignore == (sc.own && (NearStored(arts, art.position) || RopeNear(sc, art)))
  {
    add, ignore := true, false;
    if sc.own {
      ignore := NearStoredScan(arts, art.position);
      if art.objClass == "rope" {
        var nearRobot := NearAnyScan(sc.odoms, art.position, 5.0);
        var nearBeacon := NearAnyScan(sc.beaconPos, art.position, 2.0);
        if nearRobot || nearBeacon {
          add, ignore := false, true;
        }
      }
    }
  }

  /**
   * The body of artifactCheck's loop for one artifact, on the running state;
   * `add` says whether the caller appends the artifact to the agent's list.
   */
  method TakeIn(sc: Scene, st: Intake, art: Artifact) returns (r: Intake, add: bool, stored: Artifact)
    ensures r == CheckOne(sc, st, art)
    ensures r.added == st.added + if add then [stored] else []
    ensures add ==> stored == r.artifacts[|st.artifacts|].artifact
  {
    if !(ReportIndex(st.artifacts, art.artifactId).None? && art.position.x != 0.0 && art.position.y != 0.0) {
      return st, false, art;
    }
    var ignore;
    add, ignore := Screen(sc, st.artifacts, art);
    var entry := NewReport(sc.agentId, art, sc.sendImages, sc.now);
    if !add {
      entry := entry.(reported := true);
    }
    var updated := if sc.own then !ignore else st.updated;
    var fuse := st.fuse;
    if sc.isBase {
      updated, fuse := true, fuse + [entry];
    }
    stored := entry.artifact;
    r := Intake(st.artifacts + [entry], st.added + (if add then [stored] else []),
                st.report || (sc.own && !ignore), updated, fuse);
  }

  /** Where the neighbours are, by their odometry. */
  function Odometries(ns: seq<Agent>): (r: seq<Point>)
    reads ns`odometry
    ensures |r| == |ns| && forall j :: 0 <= j < |ns| ==> r[j] == ns[j].odometry.position
  {
    if |ns| == 0 then [] else Odometries(ns[..|ns| - 1]) + [ns[|ns| - 1].odometry.position]
  }

  /** The new-artifact lists of some agents. */
  function NewArtifactLists(ns: seq<Agent>): (r: seq<seq<Artifact>>)
    reads ns`newArtifacts
    ensures |r| == |ns| && forall j :: 0 <= j < |ns| ==> r[j] == ns[j].newArtifacts
  {
    if |ns| == 0 then [] else NewArtifactLists(ns[..|ns| - 1]) + [ns[|ns| - 1].newArtifacts]
  }

  /** The running state of updateArtifacts: the reports, the report flag, the update flag, what goes to fusion. */
  datatype Sweep = Sweep(artifacts: seq<ArtifactReport>, report: bool, updated: bool, fuse: seq<ArtifactReport>)

  /**
   * updateArtifacts: artifactCheck for each neighbour in turn, each starting
   * from the reports the previous one left; the update flag is set if any
   * check asks for it. Neighbour `j` is checked in scene `sc` with its own id.
   */
  function CheckNeighbors(sc: Scene, ids: seq<string>, self: string, lists: seq<seq<Artifact>>, sw: Sweep): Sweep
    requires |ids| == |lists|
  {
    if |ids| == 0 then sw
    else
      var n := |ids| - 1;
      var p := CheckNeighbors(sc, ids[..n], self, lists[..n], sw);
      var r := CheckAll(sc.(agentId := ids[n], own := ids[n] == self), Intake(p.artifacts, [], p.report, false, []), lists[n]);
      Sweep(r.artifacts, r.report, p.updated || r.updated, p.fuse + r.fuse)
  }

  /** One more neighbour checked. */
  lemma SweepStep(sc: Scene, ids: seq<string>, self: string, lists: seq<seq<Artifact>>, sw0: Sweep, i: nat, p: Sweep, st: Intake)
    requires |ids| == |lists| && i < |ids|
    requires p == CheckNeighbors(sc, ids[..i], self, lists[..i], sw0)
    requires var r := CheckAll(sc.(agentId := ids[i], own := ids[i] == self), Intake(p.artifacts, [], p.report, false, []), lists[i]);
      st.artifacts == r.artifacts && st.report == r.report && st.updated == r.updated && st.fuse == r.fuse
    ensures Sweep(st.artifacts, st.report, p.updated || st.updated, p.fuse + st.fuse) ==
            CheckNeighbors(sc, ids[..i + 1], self, lists[..i + 1], sw0)
  {
    assert ids[..i + 1][..i] == ids[..i] && lists[..i + 1][..i] == lists[..i];
  }

  /**
   * Off the base station, checking neighbours (never the node itself)
   * neither reports, nor marks an update, nor fuses.
   */
  lemma {:induction false} CheckNeighborsOffBase(sc: Scene, ids: seq<string>, self: string, lists: seq<seq<Artifact>>, sw: Sweep)
    requires |ids| == |lists| && !sc.isBase
    requires forall j :: 0 <= j < |ids| ==> ids[j] != self
    ensures var r := CheckNeighbors(sc, ids, self, lists, sw);
      r.report == sw.report && r.updated == sw.updated && r.fuse == sw.fuse
    decreases |ids|
  {
    if |ids| > 0 {
      var n := |ids| - 1;
      var p := CheckNeighbors(sc, ids[..n], self, lists[..n], sw);
      CheckNeighborsOffBase(sc, ids[..n], self, lists[..n], sw);
      CheckAllFlags(sc.(agentId := ids[n], own := false), Intake(p.artifacts, [], p.report, false, []), lists[n]);
    }
  }

  /**
   * At the base station, checking neighbours sets the update flag exactly
   * when some report was stored, and every new report is fused, in order.
   */
  lemma {:induction false} CheckNeighborsAtBase(sc: Scene, ids: seq<string>, self: string, lists: seq<seq<Artifact>>, sw: Sweep)
    requires |ids| == |lists| && sc.isBase
    requires forall j :: 0 <= j < |ids| ==> ids[j] != self
    ensures AtBase(sw, CheckNeighbors(sc, ids, self, lists, sw))
    decreases |ids|
  {
    if |ids| > 0 {
      var n := |ids| - 1;
      assert ids[n] != self;
      CheckNeighborsAtBase(sc, ids[..n], self, lists[..n], sw);
      AtBaseStep(sw, CheckNeighbors(sc, ids[..n], self, lists[..n], sw), sc.(agentId := ids[n], own := false), lists[n]);
    }
  }

  /** What checking neighbours at the base station keeps, from sweep `sw` to sweep `q`. */
  predicate AtBase(sw: Sweep, q: Sweep)
  {
    sw.artifacts <= q.artifacts && q.report == sw.report &&
    (q.updated <==> sw.updated || |q.artifacts| > |sw.artifacts|) &&
    q.fuse == sw.fuse + q.artifacts[|sw.artifacts|..]
  }

  /** One more neighbour checked at the base station keeps AtBase. */
  lemma AtBaseStep(sw: Sweep, p: Sweep, scn: Scene, xs: seq<Artifact>)
    requires scn.isBase && !scn.own && AtBase(sw, p)
    ensures var r := CheckAll(scn, Intake(p.artifacts, [], p.report, false, []), xs);
      AtBase(sw, Sweep(r.artifacts, r.report, p.updated || r.updated, p.fuse + r.fuse))
  {
    var st := Intake(p.artifacts, [], p.report, false, []);
    CheckAllFlags(scn, st, xs);
    CheckAllGrows(scn, st, xs);
    var r := CheckAll(scn, st, xs);
    var older, newer := p.artifacts[|sw.artifacts|..], r.artifacts[|p.artifacts|..];
    assert r.fuse == newer by {
      assert [] + newer == newer;
    }
    SliceSplit(sw.artifacts, p.artifacts, r.artifacts);
    ConcatAssoc(sw.fuse, older, newer);
  }

  /** The part of `c` past a prefix `a` is the part of `b` past `a` and then the part of `c` past `b`. */
  lemma SliceSplit<T>(a: seq<T>, b: seq<T>, c: seq<T>)
    requires a <= b <= c
    ensures c[|a|..] == b[|a|..] + c[|b|..]
  {
  }

  lemma ConcatAssoc<T>(a: seq<T>, b: seq<T>, c: seq<T>)
    ensures (a + b) + c == a + (b + c)
  {
  }

  /** Where the beacons are. */
  function BeaconPoints(bs: seq<Beacon>): (r: seq<Point>)
    ensures |r| == |bs| && forall j :: 0 <= j < |bs| ==> r[j] == bs[j].pos
  {
    seq(|bs|, j requires 0 <= j < |bs| => bs[j].pos)
  }

  /** The scanning loops artifactCheck runs. */
  method NearAnyScan(ps: seq<Point>, p: Point, r: real) returns (near: bool)
    ensures near == NearAny(ps, p, r)
  {
    var k := 0;
    while k < |ps|
      invariant 0 <= k <= |ps|
      invariant forall m :: 0 <= m < k ==> !Closer(ps[m], p, r)
    {
      if Closer(ps[k], p, r) {
        return true;
      }
      k := k + 1;
    }
    return false;
  }

  method NearStoredScan(arts: seq<ArtifactReport>, p: Point) returns (near: bool)
    ensures near == NearStored(arts, p)
  {
    near := false;
    var k := 0;
    while k < |arts|
      invariant 0 <= k <= |arts|
      invariant near <==> exists m :: 0 <= m < k && Closer2D(p, arts[m].artifact.position, 3.0)
    {
      if Closer2D(p, arts[k].artifact.position, 3.0) {
        near := true;
      }
      k := k + 1;
    }
  }

  // ---------------------------------------------------------------------------
  // The node

  /**
   * The state of a BOBCAT node: what it knows about itself (`agent`), the base
   * station, its robot neighbours, the beacons and the artifacts reported so far.
   * Dictionaries keyed by id are lists in insertion order.
   */
  class Node {
    const id: string
    const kind: string
    const solo: bool
    const sendImages: bool
    const reportImages: bool
    const commThreshold: int
    const dmWait: int
    const startTime: int
    const myBeacons: seq<string>
    const agent: Agent
    const base: Base
    var neighbors: seq<Agent>
    var beacons: seq<Beacon>
    var beaconsArray: seq<BeaconEntry>
    var simcomms: map<string, bool>
    var commcheck: map<string, seq<CommsCheck>>
    var artifacts: seq<ArtifactReport>
    var artifactsUpdated: bool
    var report: bool
    var lastDMReq: int
    var dmReqs: seq<string>
    var numBeacons: int

    /**
     * The registry invariant: the own agent carries the node's id, neighbours are
     * keyed by distinct ids other than the node's own, and every agent record
     * shares the node's image-reporting setting.
     */
    predicate Valid()
      reads this
    {
      agent.id == id && agent.reportImages == reportImages &&
      (forall i :: 0 <= i < |neighbors| ==> neighbors[i].id != id && neighbors[i].reportImages == reportImages) &&
      (forall i, j :: 0 <= i < j < |neighbors| ==> neighbors[i].id != neighbors[j].id)
    }

    /**
     * __init__, without ROS: images are reported only if they are sent at all,
     * and the beacon count is the number of listed beacons (an empty parameter
     * splits to one empty name, which counts as none).
     */
    constructor(nodeId: string, nodeType: string, isSolo: bool, withImages: bool, withReports: bool,
                threshold: int, wait: int, carried: seq<string>, now: int)
      requires |carried| > 0
      ensures id == nodeId && kind == nodeType && solo == isSolo && sendImages == withImages
      ensures reportImages == (withReports && withImages)
      ensures commThreshold == threshold && dmWait == wait && startTime == now && myBeacons == carried
      ensures numBeacons == if carried[0] != "" then |carried| else 0
      ensures fresh(agent) && fresh(base) && agent.id == nodeId && agent.Initialized(0, now)
      ensures neighbors == [] && beacons == [] && beaconsArray == [] && simcomms == map[] && commcheck == map[]
      ensures artifacts == [] && !artifactsUpdated && !report && lastDMReq == 0 && dmReqs == []
      ensures Valid()
    {
      id, kind, solo, sendImages := nodeId, nodeType, isSolo, withImages;
      reportImages := withReports && withImages;
      commThreshold, dmWait, startTime, myBeacons := threshold, wait, now, carried;
      numBeacons := if carried[0] != "" then |carried| else 0;
      agent := new Agent(nodeId, nodeId, nodeType, withReports && withImages, now);
      base := new Base(now);
      neighbors, beacons, beaconsArray := [], [], [];
      simcomms, commcheck := map[], map[];
      artifacts, artifactsUpdated, report := [], false, false;
      lastDMReq, dmReqs := 0, [];
    }

    /**
     * addNeighbor: a robot gets a fresh agent record (replacing any record of that
     * id in place); a beacon gets a fresh beacon record, owned if it is one of the
     * beacons this node carries.
     */
    method AddRobot(nid: string, now: int) returns (n: Agent)
      requires Valid() && nid != id
      modifies this`neighbors
      ensures Valid() && fresh(n) && n.id == nid && n.Initialized(0, now) && n.MapsInitialized(0, false)
      ensures match AgentIndex(old(neighbors), nid)
        case Some(k) => neighbors == old(neighbors)[k := n]
        case None => neighbors == old(neighbors) + [n]
    {
      n := new Agent(nid, id, "robot", reportImages, now);
      var k := 0;
      while k < |neighbors|
        invariant 0 <= k <= |neighbors|
        invariant forall i :: 0 <= i < k ==> neighbors[i].id != nid
      {
        if neighbors[k].id == nid {
          neighbors := neighbors[k := n];
          return;
        }
        k := k + 1;
      }
      neighbors := neighbors + [n];
    }

    /** addNeighbor for a beacon. */
    method AddBeacon(nid: string, now: int)
      modifies this`beacons
      ensures match BeaconIndex(old(beacons), nid)
        case Some(k) => beacons == old(beacons)[k := NewBeacon(nid, nid in myBeacons, now)]
        case None => beacons == old(beacons) + [NewBeacon(nid, nid in myBeacons, now)]
      ensures HasBeacon(beacons, nid)
    {
      var b := NewBeacon(nid, nid in myBeacons, now);
      var k := 0;
      while k < |beacons|
        invariant 0 <= k <= |beacons|
        invariant forall i :: 0 <= i < k ==> beacons[i].id != nid
      {
        if beacons[k].id == nid {
          beacons := beacons[k := b];
          assert beacons[k].id == nid;
          return;
        }
        k := k + 1;
      }
      beacons := beacons + [b];
      assert beacons[|beacons| - 1].id == nid;
    }

    // -------------------------------------------------------------------------
    // CommCheck

    /**
     * CommCheck: once the comm threshold has passed since start, an agent is in
     * comm iff its last direct message is more recent than `commThreshold` ago;
     * the base station's flag is kept by the base itself and by solo agents.
     */
    method CommCheck(now: int)
      modifies neighbors`incomm, this`beacons, base`incomm
      ensures now < startTime + commThreshold ==>
        beacons == old(beacons) && base.incomm == old(base.incomm) &&
        forall i :: 0 <= i < |neighbors| ==> neighbors[i].incomm == old(neighbors[i].incomm)
      ensures now >= startTime + commThreshold ==>
        beacons == BeaconsInComm(old(beacons), now - commThreshold) &&
        (forall i :: 0 <= i < |neighbors| ==>
          neighbors[i].incomm == (neighbors[i].lastDirectMessage > now - commThreshold)) &&
        base.incomm == if kind != "base" && !solo then base.lastDirectMessage > now - commThreshold
                       else old(base.incomm)
    {
      if now < startTime + commThreshold {
        return;
      }
      var checkTime := now - commThreshold;
      var i := 0;
      while i < |neighbors|
        invariant 0 <= i <= |neighbors|
        invariant forall j :: 0 <= j < i ==> neighbors[j].incomm == (neighbors[j].lastDirectMessage > checkTime)
        invariant beacons == old(beacons) && base.incomm == old(base.incomm)
      {
        neighbors[i].incomm := neighbors[i].lastDirectMessage > checkTime;
        i := i + 1;
      }
      var bs := beacons;
      var k := 0;
      while k < |bs|
        invariant 0 <= k <= |bs| && |bs| == |beacons|
        invariant forall j :: 0 <= j < |bs| ==>
          bs[j] == if j < k then BeaconsInComm(beacons, checkTime)[j] else beacons[j]
      {
        bs := bs[k := bs[k].(incomm := bs[k].lastDirectMessage > checkTime)];
        k := k + 1;
      }
      beacons := bs;
      if kind != "base" && !solo {
        base.incomm := base.lastDirectMessage > checkTime;
      }
    }

    // -------------------------------------------------------------------------
    // Simulated comms

    /**
     * simCommChecker: the node's own comm check sets its direct reachability
     * entries (a later entry for the same id wins); any other agent's check is
     * stored whole under that agent's id.
     */
    method SimCommChecker(entries: seq<CommsCheck>, nid: string)
      modifies this`simcomms, this`commcheck
      ensures nid == id ==> simcomms == Absorb(old(simcomms), entries) && commcheck == old(commcheck)
      ensures nid != id ==> simcomms == old(simcomms) && commcheck == old(commcheck)[nid := entries]
    {
      if nid == id {
        var sims := simcomms;
        var i := 0;
        while i < |entries|
          invariant 0 <= i <= |entries|
          invariant sims == Absorb(old(simcomms), entries[..i])
        {
          assert entries[..i + 1][..i] == entries[..i];
          sims := sims[entries[i].id := entries[i].incomm];
          i := i + 1;
        }
        assert entries[..i] == entries;
        simcomms := sims;
      } else {
        commcheck := commcheck[nid := entries];
      }
    }

    /**
     * recurCommCheck: every agent that `cid`'s check reports in comm and that is
     * not yet reachable becomes reachable, and is then expanded in turn. Marks only
     * go from unreachable to reachable, the node's own entry is never touched, and
     * on return `cid` and every newly marked agent are closed.
     */
    method RecurCommCheck(cid: string)
      requires ChecksKnown(simcomms, commcheck, id)
      modifies this`simcomms
      ensures Grows(old(simcomms), simcomms)
      ensures id in simcomms ==> simcomms[id] == old(simcomms)[id]
      ensures Closed(simcomms, commcheck, id, cid)
      ensures forall x :: x in simcomms && simcomms[x] && !old(simcomms)[x] ==> Closed(simcomms, commcheck, id, x)
      ensures forall x :: x in simcomms && simcomms[x] && !old(simcomms)[x] ==> Reaches(commcheck, id, cid, x)
      decreases |Unreached(simcomms)|
    {
      if cid in commcheck {
        var checks := commcheck[cid];
        var i := 0;
        while i < |checks|
          invariant 0 <= i <= |checks|
          invariant Grows(old(simcomms), simcomms)
          invariant id in simcomms ==> simcomms[id] == old(simcomms)[id]
          invariant forall k :: 0 <= k < i && checks[k].incomm && checks[k].id != id ==> simcomms[checks[k].id]
          invariant forall x :: x in simcomms && simcomms[x] && !old(simcomms)[x] ==>
            Closed(simcomms, commcheck, id, x) && Reaches(commcheck, id, cid, x)
        {
          var check := checks[i];
          if check.incomm && check.id != id && !simcomms[check.id] {
            UnreachedShrinks(old(simcomms), simcomms, check.id);
            ghost var prev := simcomms;
            simcomms := simcomms[check.id := true];
            ghost var before := simcomms;
            RecurCommCheck(check.id);
            assert Link(commcheck, id, cid, check.id) by {
              assert checks[i].incomm && checks[i].id == check.id;
            }
            LinkReaches(commcheck, id, cid, check.id);
            forall x | x in simcomms && simcomms[x] && !old(simcomms)[x]
              ensures Closed(simcomms, commcheck, id, x) && Reaches(commcheck, id, cid, x)
            {
              if before[x] && x != check.id {
                assert prev[x];
                ClosedGrows(before, simcomms, commcheck, id, x);
              } else if x != check.id {
                ReachesTrans(commcheck, id, cid, check.id, x);
              }
            }
          }
          i := i + 1;
        }
      }
    }

    /**
     * simCommCheck's closure: every agent whose check is known and that is
     * reachable gets expanded. Afterwards the reachable set is closed under the
     * checks: whatever a reachable agent sees in comm is reachable too.
     */
    method SimCommClosure()
      requires ChecksKnown(simcomms, commcheck, id)
      modifies this`simcomms
      ensures Grows(old(simcomms), simcomms)
      ensures id in simcomms ==> simcomms[id] == old(simcomms)[id]
      ensures forall c :: c in simcomms && simcomms[c] ==> Closed(simcomms, commcheck, id, c)
      ensures forall x :: x in simcomms && simcomms[x] && !old(simcomms)[x] ==> ReachedFrom(old(simcomms), commcheck, id, x)
    {
      var todo := commcheck.Keys;
      while todo != {}
        invariant todo <= commcheck.Keys
        invariant Grows(old(simcomms), simcomms)
        invariant id in simcomms ==> simcomms[id] == old(simcomms)[id]
        invariant forall c :: c !in todo && c in simcomms && simcomms[c] ==> Closed(simcomms, commcheck, id, c)
        invariant forall x :: x in simcomms && simcomms[x] && !old(simcomms)[x] ==>
          Closed(simcomms, commcheck, id, x) && ReachedFrom(old(simcomms), commcheck, id, x)
        decreases |todo|
      {
        var c :| c in todo;
        if c in simcomms && simcomms[c] {
          ghost var before := simcomms;
          RecurCommCheck(c);
          forall x | x !in todo - {c} && x in simcomms && simcomms[x]
            ensures Closed(simcomms, commcheck, id, x)
          {
            if x != c && before[x] {
              ClosedGrows(before, simcomms, commcheck, id, x);
            }
          }
          forall x | x in simcomms && simcomms[x] && !old(simcomms)[x]
            ensures Closed(simcomms, commcheck, id, x) && ReachedFrom(old(simcomms), commcheck, id, x)
          {
            if before[x] {
              ClosedGrows(before, simcomms, commcheck, id, x);
            } else if old(simcomms)[c] {
              assert Reaches(commcheck, id, c, x);
            } else {
              var c0 :| c0 in old(simcomms) && old(simcomms)[c0] && Reaches(commcheck, id, c0, c);
              ReachesTrans(commcheck, id, c0, c, x);
            }
          }
        }
        todo := todo - {c};
      }
    }

    /**
     * simCommCheck's second half: beacons and neighbours take their simulated-comm
     * flag from the reachability entries (an id containing "B" that names a known
     * beacon is a beacon; "Base" is never a neighbour), and the base station takes
     * the entry of "Base" as soon as there are entries at all.
     */
    method ApplySimComms()
      requires |simcomms| > 0 && id != "Base" ==> "Base" in simcomms
      modifies this`beacons, neighbors`simcomm, base`simcomm
      ensures beacons == BeaconsSimComm(old(beacons), simcomms)
      ensures forall i :: 0 <= i < |neighbors| ==>
        neighbors[i].simcomm == if SetsNeighbor(old(beacons), simcomms, neighbors[i].id) then simcomms[neighbors[i].id]
                                else old(neighbors[i].simcomm)
      ensures base.simcomm == if |simcomms| > 0 && id != "Base" then simcomms["Base"] else old(base.simcomm)
    {
      var i := 0;
      while i < |neighbors|
        invariant 0 <= i <= |neighbors|
        invariant beacons == old(beacons) && base.simcomm == old(base.simcomm)
        invariant forall j :: 0 <= j < |neighbors| ==>
          neighbors[j].simcomm == if j < i && SetsNeighbor(old(beacons), simcomms, neighbors[j].id) then simcomms[neighbors[j].id]
                                  else if exists k :: 0 <= k < i && neighbors[k] == neighbors[j] && SetsNeighbor(old(beacons), simcomms, neighbors[k].id)
                                  then simcomms[neighbors[j].id] else old(neighbors[j].simcomm)
      {
        var n := neighbors[i];
        if n.id in simcomms && !(Contains(n.id, "B") && HasBeacon(beacons, n.id)) && n.id != "Base" {
          n.simcomm := simcomms[n.id];
        }
        i := i + 1;
      }
      var bs := beacons;
      var k := 0;
      while k < |bs|
        invariant 0 <= k <= |bs| && |bs| == |beacons|
        invariant forall j :: 0 <= j < |bs| ==> bs[j] == if j < k then BeaconsSimComm(beacons, simcomms)[j] else beacons[j]
      {
        if Contains(bs[k].id, "B") && bs[k].id in simcomms {
          bs := bs[k := bs[k].(simcomm := simcomms[bs[k].id])];
        }
        k := k + 1;
      }
      beacons := bs;
      if |simcomms| > 0 && id != "Base" {
        base.simcomm := simcomms["Base"];
      }
    }

    /**
     * simCommCheck: the reachability closure, then the flags. Afterwards the
     * reachable set is closed under the comm checks, only grows, and the node's
     * own entry is untouched.
     */
    method SimCommCheck()
      requires ChecksKnown(simcomms, commcheck, id)
      requires |simcomms| > 0 && id != "Base" ==> "Base" in simcomms
      modifies this`simcomms, this`beacons, neighbors`simcomm, base`simcomm
      ensures Grows(old(simcomms), simcomms)
      ensures id in simcomms ==> simcomms[id] == old(simcomms)[id]
      ensures forall c :: c in simcomms && simcomms[c] ==> Closed(simcomms, commcheck, id, c)
      ensures forall x :: x in simcomms && simcomms[x] && !old(simcomms)[x] ==> ReachedFrom(old(simcomms), commcheck, id, x)
      ensures beacons == BeaconsSimComm(old(beacons), simcomms)
      ensures forall i :: 0 <= i < |neighbors| ==>
        neighbors[i].simcomm == if SetsNeighbor(old(beacons), simcomms, neighbors[i].id) then simcomms[neighbors[i].id]
                                else old(neighbors[i].simcomm)
      ensures base.simcomm == if |simcomms| > 0 && id != "Base" then simcomms["Base"] else old(base.simcomm)
    {
      SimCommClosure();
      ApplySimComms();
    }

    // -------------------------------------------------------------------------
    // resetDataCheck

    /** Whether resetDataCheck acts on `data`: a named agent, a flag for this node's type, a newer stamp. */
    predicate Acts(data: Reset)
      reads this, neighbors
    {
      data.agent != "" && AppliesTo(kind, data) &&
      match AgentIndex(neighbors, data.agent)
      case Some(k) => data.stamp > neighbors[k].resetStamp
      case None => false
    }

    /** resetDataCheck's effect on the record of the reset neighbour `n`, the base record and the reports. */
    twostate predicate RecordReset(n: Agent, data: Reset, now: int)
      reads this, n, base
    {
      n.resetStamp == data.stamp &&
      (data.maReset ==> n.Initialized(data.stamp, now)) &&
      (!data.maReset ==> n.RecordKept()) &&
      artifacts == (if data.maReset then WithoutAgent(old(artifacts), n.id) else old(artifacts)) &&
      base.lastArtifact == (if data.maReset && FirstArtifactOf(base.baseArtifacts, n.id).Some? then NoDigest
                            else old(base.lastArtifact))
    }

    /** resetDataCheck's effect on the map data of the reset neighbour `n`. */
    twostate predicate MapsReset(n: Agent, data: Reset)
      reads n
    {
      (data.clear || data.reset || data.hardReset ==>
        n.MapsInitialized(if data.clear then old(n.numDiffs) else 0, true)) &&
      (!(data.clear || data.reset || data.hardReset) ==>
        n.mapDiffs == RemoveDiffs(old(n.mapDiffs), data.seqs) && n.diffClear == (|data.seqs| > 0) &&
        n.numOctomaps == old(n.numOctomaps) && n.updateMapDiffs == old(n.updateMapDiffs) &&
        n.numDiffs == old(n.numDiffs) && n.missingDiffs == old(n.missingDiffs))
    }

    /** resetDataCheck's whole effect on the reset neighbour `n`. */
    twostate predicate ResetEffect(n: Agent, data: Reset, now: int)
      reads this, n, base
    {
      RecordReset(n, data, now) && MapsReset(n, data) && n.reset == data && n.guiStamp == now
    }

    /** The artifact-report part of an agent reset: every report from that agent is deleted. */
    method DropArtifactsOf(nid: string)
      modifies this`artifacts
      ensures artifacts == WithoutAgent(old(artifacts), nid)
    {
      var kept := [];
      var i := 0;
      while i < |artifacts|
        invariant 0 <= i <= |artifacts|
        invariant kept == WithoutAgent(artifacts[..i], nid)
      {
        assert artifacts[..i + 1][..i] == artifacts[..i];
        if artifacts[i].agentId != nid {
          kept := kept + [artifacts[i]];
        }
        i := i + 1;
      }
      assert artifacts[..i] == artifacts;
      artifacts := kept;
    }

    /** The ma_reset part of resetDataCheck: everything known of agent `n` and its reports is forgotten. */
    method ForgetAgent(n: Agent, stamp: int, now: int)
      modifies n`guiStamp, n`guiTaskName, n`guiTaskValue, n`guiGoalPoint, n`guiAccept,
        n`status, n`odometry, n`exploreGoal, n`explorePath, n`goal, n`goals,
        n`atnode, n`commBeacons, n`newArtifacts, n`checkArtifacts, n`numArtifacts,
        n`images, n`missingImages, n`lastArtifact, n`resetStamp, n`resetAgent, base`lastArtifact, this`artifacts
      ensures n.Initialized(stamp, now)
      ensures artifacts == WithoutAgent(old(artifacts), n.id)
      ensures base.lastArtifact == if FirstArtifactOf(base.baseArtifacts, n.id).Some? then NoDigest
                                   else old(base.lastArtifact)
    {
      n.Initialize(stamp, now);
      base.ResetArtifact(n.id);
      DropArtifactsOf(n.id);
    }

    /** The map part of resetDataCheck, after the record part has set the clear flag. */
    method ResetMaps(n: Agent, data: Reset)
      requires n.diffClear == data.clear
      modifies n`mapDiffs, n`numOctomaps, n`updateMapDiffs, n`numDiffs, n`missingDiffs, n`diffClear
      ensures MapsReset(n, data)
    {
      if data.clear || data.reset || data.hardReset {
        var numDiffs := if data.clear then n.numDiffs else 0;
        n.InitializeMaps(numDiffs, true);
      } else {
        n.DeleteDiffs(data.seqs);
      }
    }

    /** The body of resetDataCheck once it has decided to act on neighbour `n`. */
    method ResetNeighbor(n: Agent, data: Reset, now: int)
      modifies n, base`lastArtifact, this`artifacts
      ensures ResetEffect(n, data, now)
    {
      if data.maReset {
        ResetForget(n, data, now);
      } else {
        ResetKeep(n, data, now);
      }
    }

    /** resetDataCheck on neighbour `n` without ma_reset: the record and the reports are kept. */
    method ResetKeep(n: Agent, data: Reset, now: int)
      requires !data.maReset
      modifies n`resetStamp, n`mapDiffs, n`numOctomaps, n`updateMapDiffs, n`numDiffs, n`missingDiffs, n`diffClear, n`reset, n`guiStamp
      ensures ResetEffect(n, data, now)
    {
      ResetStamps(n, data, now);
    }

    /**
     * resetDataCheck on neighbour `n` with ma_reset. The map part and the saved
     * reset are written before the record is initialised: the two touch
     * disjoint fields except the GUI stamp, which both set to the current time,
     * so the final state is the one the source's order produces.
     */
    method ResetForget(n: Agent, data: Reset, now: int)
      requires data.maReset
      modifies n, base`lastArtifact, this`artifacts
      ensures ResetEffect(n, data, now)
    {
      ResetStamps(n, data, now);
      ghost var maps := (n.mapDiffs, n.numOctomaps, n.updateMapDiffs, n.numDiffs, n.missingDiffs, n.diffClear);
      ForgetAgent(n, data.stamp, now);
      assert maps == (n.mapDiffs, n.numOctomaps, n.updateMapDiffs, n.numDiffs, n.missingDiffs, n.diffClear);
    }

    /** resetDataCheck's stamps, maps and saved reset for neighbour `n`. */
    method ResetStamps(n: Agent, data: Reset, now: int)
      modifies n`resetStamp, n`mapDiffs, n`numOctomaps, n`updateMapDiffs, n`numDiffs, n`missingDiffs, n`diffClear, n`reset, n`guiStamp
      ensures n.resetStamp == data.stamp && MapsReset(n, data) && n.reset == data && n.guiStamp == now
    {
      n.MarkReset(data.stamp, data.clear);
      ResetMapsAndStore(n, data, now);
    }

    /** The map part of resetDataCheck followed by saving the reset with the current time. */
    method ResetMapsAndStore(n: Agent, data: Reset, now: int)
      requires n.diffClear == data.clear
      modifies n`mapDiffs, n`numOctomaps, n`updateMapDiffs, n`numDiffs, n`missingDiffs, n`diffClear, n`reset, n`guiStamp
      ensures MapsReset(n, data) && n.reset == data && n.guiStamp == now
    {
      ResetMaps(n, data);
      n.StoreReset(data, now);
    }

    /**
     * resetDataCheck: a reset order for a neighbour acts only when it names an
     * agent, carries the flag for this node's type, and is newer than the last
     * reset applied to that neighbour; then it may clear the neighbour's record
     * and reports (ma_reset) and its map diffs (clear, reset, hard reset) or
     * delete the listed diffs. Other neighbours are untouched.
     */
    method ResetDataCheck(data: Reset, now: int)
      requires Valid()
      requires data.agent != "" && AppliesTo(kind, data) ==> AgentIndex(neighbors, data.agent).Some?
      modifies neighbors, base`lastArtifact, this`artifacts
      ensures !old(Acts(data)) ==> artifacts == old(artifacts) && base.lastArtifact == old(base.lastArtifact)
      ensures !old(Acts(data)) ==> forall i :: 0 <= i < |neighbors| ==> unchanged(neighbors[i])
      ensures old(Acts(data)) ==> ResetEffect(neighbors[AgentIndex(neighbors, data.agent).value], data, now)
      ensures forall i :: 0 <= i < |neighbors| && neighbors[i].id != data.agent ==> unchanged(neighbors[i])
    {
      if data.agent != "" && AppliesTo(kind, data) {
        var k := AgentIndex(neighbors, data.agent).value;
        var n := neighbors[k];
        if data.stamp > n.resetStamp {
          ResetNeighbor(n, data, now);
        }
      }
    }

    // -------------------------------------------------------------------------
    // DMResponseReceiever

    /** The scan of the reports for the first one whose artifact has that id. */
    method FindReport(arts: seq<ArtifactReport>, aid: string) returns (r: Option<nat>)
      ensures r == ReportIndex(arts, aid)
    {
      var k := 0;
      while k < |arts|
        invariant 0 <= k <= |arts|
        invariant forall j :: 0 <= j < k ==> arts[j].artifact.artifactId != aid
      {
        if arts[k].artifact.artifactId == aid {
          return Some(k);
        }
        k := k + 1;
      }
      return None;
    }

    /** The received images are saved on their reports; those with a report are returned, in order. */
    method SaveReceivedImages(images: seq<string>) returns (known: seq<string>)
      modifies this`artifacts
      ensures artifacts == SaveImages(old(artifacts), images)
      ensures known == KnownImages(old(artifacts), images)
    {
      var arts := artifacts;
      known := [];
      var i := 0;
      while i < |images|
        invariant 0 <= i <= |images|
        invariant artifacts == old(artifacts)
        invariant arts == SaveImages(artifacts, images[..i])
        invariant known == KnownImages(artifacts, images[..i])
      {
        assert images[..i + 1][..i] == images[..i];
        SaveImagesKeeps(artifacts, images[..i]);
        ReportIndexSameIds(artifacts, arts, images[i]);
        var k := FindReport(arts, images[i]);
        if k.Some? {
          arts := arts[k.value := arts[k.value].(imageSaved := true)];
          known := known + [images[i]];
        }
        i := i + 1;
      }
      assert images[..i] == images;
      artifacts := arts;
    }

    /**
     * One entry of a response, for neighbour `n`: its diffs, then its images.
     * The source handles each image completely before the next; here the
     * reports are marked first and the neighbour's record after. The two are
     * disjoint, and whether an image is known depends only on the artifact ids
     * of the reports, which marking keeps, so the end state is the same.
     */
    method ReceiveEntry(n: Agent, e: DMResp) returns (received: bool)
      requires n.reportImages == reportImages
      modifies n`mapDiffs, n`numOctomaps, n`updateMapDiffs, n`missingDiffs,
        n`checkArtifacts, n`lastArtifact, n`missingImages, this`artifacts, this`artifactsUpdated
      ensures n.InboxOf() == Deliver(old(n.InboxOf()), e.octomaps, KnownImages(old(artifacts), e.images), reportImages)
      ensures artifacts == SaveImages(old(artifacts), e.images)
      ensures artifactsUpdated ==
        (old(artifactsUpdated) || (reportImages && NamesAny(old(n.checkArtifacts), KnownImages(old(artifacts), e.images))))
      ensures received == (|e.octomaps| > 0 || |KnownImages(old(artifacts), e.images)| > 0)
    {
      n.ReceiveDiffs(e.octomaps);
      var known := SaveReceivedImages(e.images);
      var rehashed := n.ReceiveImages(known);
      artifactsUpdated := artifactsUpdated || rehashed;
      received := |e.octomaps| > 0 || |known| > 0;
    }

    /** One entry of a response, delivered to the neighbour at k; no other neighbour changes. */
    method ReceiveAt(k: nat, e: DMResp) returns (received: bool)
      requires Valid() && k < |neighbors|
      modifies neighbors`mapDiffs, neighbors`numOctomaps, neighbors`updateMapDiffs, neighbors`missingDiffs,
        neighbors`checkArtifacts, neighbors`lastArtifact, neighbors`missingImages, this`artifacts, this`artifactsUpdated
      ensures Inboxes(neighbors) ==
        old(Inboxes(neighbors))[k := Deliver(old(neighbors[k].InboxOf()), e.octomaps, KnownImages(old(artifacts), e.images), reportImages)]
      ensures artifacts == SaveImages(old(artifacts), e.images)
      ensures artifactsUpdated == (old(artifactsUpdated) ||
        (reportImages && NamesAny(old(neighbors[k].checkArtifacts), KnownImages(old(artifacts), e.images))))
      ensures received == (|e.octomaps| > 0 || |KnownImages(old(artifacts), e.images)| > 0)
      ensures Valid()
    {
      var n := neighbors[k];
      ghost var prev := Inboxes(neighbors);
      received := ReceiveEntry(n, e);
      forall j | 0 <= j < |neighbors| && j != k
        ensures neighbors[j].InboxOf() == prev[j]
      {
        assert neighbors[j].id != n.id;
      }
    }

    /**
     * The state after the first i entries of `resp` are delivered, starting
     * from the records `boxes`, the reports `arts` and the update flag `updated`.
     */
    predicate ReceivedUpTo(resp: seq<DMResp>, i: nat, boxes: seq<Inbox>, arts: seq<ArtifactReport>, updated: bool)
      requires i <= |resp| && |boxes| == |neighbors|
      reads this`neighbors, this`artifacts, this`artifactsUpdated, neighbors
    {
      Inboxes(neighbors) == DeliverAll(boxes, Ids(neighbors), arts, resp[..i], reportImages) &&
      artifacts == SaveImages(arts, AllImages(resp[..i])) &&
      artifactsUpdated == (updated || RehashesAny(boxes, Ids(neighbors), arts, resp[..i], reportImages))
    }

    /**
     * Entry i of a response, delivered to the neighbour it names, given that
     * the entries before it have been: then they and it have.
     */
    method ReceiveNext(resp: seq<DMResp>, i: nat, ghost boxes: seq<Inbox>, ghost arts: seq<ArtifactReport>,
                       ghost updated: bool, before: bool) returns (received: bool)
      requires Valid() && i < |resp| && AgentIndex(neighbors, resp[i].id).Some? && |boxes| == |neighbors|
      requires ReceivedUpTo(resp, i, boxes, arts, updated) && before == Delivers(arts, resp[..i])
      modifies neighbors`mapDiffs, neighbors`numOctomaps, neighbors`updateMapDiffs, neighbors`missingDiffs,
        neighbors`checkArtifacts, neighbors`lastArtifact, neighbors`missingImages, this`artifacts, this`artifactsUpdated
      ensures Valid()
      ensures ReceivedUpTo(resp, i + 1, boxes, arts, updated) && received == Delivers(arts, resp[..i + 1])
    {
      var e := resp[i];
      var k := AgentIndex(neighbors, e.id).value;
      assert Distinct(Ids(neighbors));
      DeliverAllStep(boxes, Ids(neighbors), arts, resp, reportImages, i, k);
      ResponseStep(arts, resp, i, e.id);
      SaveImagesKeeps(arts, AllImages(resp[..i]));
      KnownImagesSameIds(arts, artifacts, e.images);
      SaveImagesAppend(arts, AllImages(resp[..i]), e.images);
      var r := ReceiveAt(k, e);
      received := before || r;
    }

    /** The entries of a response, in order, each delivered to the neighbour it names. */
    method ReceiveAll(resp: seq<DMResp>) returns (received: bool)
      requires Valid()
      requires forall k :: 0 <= k < |resp| ==> AgentIndex(neighbors, resp[k].id).Some?
      modifies neighbors`mapDiffs, neighbors`numOctomaps, neighbors`updateMapDiffs, neighbors`missingDiffs,
        neighbors`checkArtifacts, neighbors`lastArtifact, neighbors`missingImages, this`artifacts, this`artifactsUpdated
      ensures Valid()
      ensures ReceivedUpTo(resp, |resp|, old(Inboxes(neighbors)), old(artifacts), old(artifactsUpdated))
      ensures received == Delivers(old(artifacts), resp)
    {
      ghost var boxes := Inboxes(neighbors);
      ghost var arts := artifacts;
      assert resp[..0] == [];
      DeliverAllNothing(boxes, Ids(neighbors), arts, reportImages);
      received := false;
      var i := 0;
      while i < |resp|
        invariant 0 <= i <= |resp| && Valid()
        invariant ReceivedUpTo(resp, i, boxes, arts, old(artifactsUpdated)) && received == Delivers(arts, resp[..i])
      {
        received := ReceiveNext(resp, i, boxes, arts, old(artifactsUpdated), received);
        i := i + 1;
      }
      assert i == |resp| && resp[..i] == resp;
    }

    /**
     * DMResponseReceiever: every entry of the response is delivered to the
     * neighbour it names (an entry for an agent that is not a neighbour is a
     * KeyError in the source). If anything was delivered, the request log is
     * cleared and the request time set back by dmWait, so that the next
     * request for what is still missing goes out at once.
     */
    method DMResponseReceiver(resp: seq<DMResp>, now: int)
      requires Valid()
      requires forall k :: 0 <= k < |resp| ==> AgentIndex(neighbors, resp[k].id).Some?
      modifies neighbors`mapDiffs, neighbors`numOctomaps, neighbors`updateMapDiffs, neighbors`missingDiffs,
        neighbors`checkArtifacts, neighbors`lastArtifact, neighbors`missingImages,
        this`artifacts, this`artifactsUpdated, this`lastDMReq, this`dmReqs
      ensures ReceivedUpTo(resp, |resp|, old(Inboxes(neighbors)), old(artifacts), old(artifactsUpdated))
      ensures Delivers(old(artifacts), resp) ==> lastDMReq == now - dmWait && dmReqs == []
      ensures !Delivers(old(artifacts), resp) ==> lastDMReq == old(lastDMReq) && dmReqs == old(dmReqs)
    {
      var received := ReceiveAll(resp);
      ghost var boxes, arts, updated := Inboxes(neighbors), artifacts, artifactsUpdated;
      ClearRequests(received, now);
      assert Inboxes(neighbors) == boxes && artifacts == arts && artifactsUpdated == updated;
    }

    /** If something was received, the request log is cleared and the request time set back by dmWait. */
    method ClearRequests(received: bool, now: int)
      modifies this`lastDMReq, this`dmReqs
      ensures received ==> lastDMReq == now - dmWait && dmReqs == []
      ensures !received ==> lastDMReq == old(lastDMReq) && dmReqs == old(dmReqs)
    {
      if received {
        lastDMReq := now - dmWait;
        dmReqs := [];
      }
    }

    /**
     * The request list and the first neighbour in comm that something is
     * missing from, in one pass over the neighbours.
     */
    method BuildRequests() returns (reqs: seq<DMReq>, first: string)
      ensures reqs == RequestList(Peers(neighbors))
      ensures first == FirstMissingInComm(Peers(neighbors))
    {
      ghost var ps := Peers(neighbors);
      reqs, first := [], "";
      var i := 0;
      while i < |neighbors|
        invariant 0 <= i <= |neighbors|
        invariant reqs == RequestList(ps[..i])
        invariant FirstMissingInComm(ps) == if first != "" then first else FirstMissingInComm(ps[i..])
      {
        var nb := neighbors[i];
        var p := Peer(nb.id, nb.incomm, nb.missingDiffs, nb.missingImages);
        assert p == ps[i];
        assert ps[..i + 1][..i] == ps[..i];
        assert ps[i..][1..] == ps[i + 1..];
        if Missing(p) {
          reqs := reqs + [DMReq(p.id, p.missingDiffs, p.missingImages)];
          if first == "" && p.incomm {
            first := p.id;
          }
        }
        i := i + 1;
      }
      assert ps[..i] == ps;
    }

    /** The first beacon in comm, other than this node, not asked yet. */
    method FindBeacon() returns (t: string)
      ensures t == FirstFreeBeacon(beacons, id, dmReqs)
    {
      var i := 0;
      while i < |beacons|
        invariant 0 <= i <= |beacons|
        invariant FirstFreeBeacon(beacons, id, dmReqs) == FirstFreeBeacon(beacons[i..], id, dmReqs)
      {
        var b := beacons[i];
        assert beacons[i..][1..] == beacons[i + 1..];
        if id != b.id && b.incomm && b.id !in dmReqs {
          return b.id;
        }
        i := i + 1;
      }
      t := "";
    }

    /** The first neighbour in comm not asked yet. */
    method FindPeer() returns (t: string)
      ensures t == FirstFreePeer(Peers(neighbors), dmReqs)
    {
      ghost var ps := Peers(neighbors);
      var i := 0;
      while i < |neighbors|
        invariant 0 <= i <= |neighbors|
        invariant FirstFreePeer(ps, dmReqs) == FirstFreePeer(ps[i..], dmReqs)
      {
        var nb := neighbors[i];
        assert ps[i].id == nb.id && ps[i].incomm == nb.incomm;
        assert ps[i..][1..] == ps[i + 1..];
        if nb.incomm && nb.id !in dmReqs {
          return nb.id;
        }
        i := i + 1;
      }
      t := "";
    }

    /** The preference order of ChooseTarget, given the first neighbour found by BuildRequests. */
    method PickTarget(first: string) returns (t: string)
      requires first == FirstMissingInComm(Peers(neighbors))
      ensures t == ChooseTarget(Peers(neighbors), beacons, id, base.incomm, dmReqs)
    {
      t := first;
      if t == "" && id != "Base" && base.incomm && "Base" !in dmReqs {
        t := "Base";
      }
      if t == "" {
        t := FindBeacon();
      }
      if t == "" {
        t := FindPeer();
      }
    }

    /**
     * requestMissing: at most once per dmWait, build the list of everything
     * missing from the neighbours and send it to the agent ChooseTarget picks,
     * remembering whom it asked; when nobody can be asked, forget whom it asked
     * and allow the next request at once. `target` is "" when nothing is sent;
     * `reqs` is the message sent.
     */
    method RequestMissing(now: int) returns (target: string, reqs: seq<DMReq>)
      modifies this`lastDMReq, this`dmReqs
      ensures now - old(lastDMReq) < dmWait ==>
        target == "" && reqs == [] && lastDMReq == old(lastDMReq) && dmReqs == old(dmReqs)
      ensures now - old(lastDMReq) >= dmWait ==>
        reqs == RequestList(old(Peers(neighbors))) &&
        target == (if reqs == [] then "" else ChooseTarget(old(Peers(neighbors)), beacons, id, old(base.incomm), old(dmReqs)))
      ensures target != "" ==> lastDMReq == now && dmReqs == old(dmReqs) + [target]
      ensures target == "" && reqs != [] ==> lastDMReq == now - dmWait && dmReqs == []
      ensures reqs == [] ==> lastDMReq == old(lastDMReq) && dmReqs == old(dmReqs)
    {
      if now - lastDMReq < dmWait {
        return "", [];
      }
      var first;
      reqs, first := BuildRequests();
      if reqs == [] {
        return "", reqs;
      }
      target := PickTarget(first);
      if target != "" {
        lastDMReq, dmReqs := now, dmReqs + [target];
      } else {
        lastDMReq, dmReqs := now - dmWait, [];
      }
    }

    /** Every beacon entry updateBeacons reads: the neighbours', then the base station's unless this is the base. */
    function Heard(): seq<BeaconEntry>
      reads this, neighbors, base
    {
      CommEntries(neighbors) + if kind != "base" then base.commBeacons else []
    }

    /**
     * updateBeacons: activate every beacon some neighbour (or, off the base,
     * the base station) reports active, and publish the active beacons.
     */
    method UpdateBeacons()
      requires Known(beacons, Heard())
      modifies this`beacons, this`beaconsArray
      ensures beacons == ActivateAll(old(beacons), old(Heard()))
      ensures beaconsArray == ActiveEntries(beacons)
    {
      ghost var heard, all := Heard(), CommEntries(neighbors);
      KnownPrefix(beacons, heard, all);
      var bs := ActivateFromNeighbors(beacons);
      if kind != "base" {
        ActivateAllAppend(beacons, all, base.commBeacons);
        bs := ActivateEach(bs, base.commBeacons);
      } else {
        assert heard == all;
      }
      beacons := bs;
      beaconsArray := ListActive(bs);
    }

    /** The loop over the neighbours' beacon lists. */
    method ActivateFromNeighbors(b0: seq<Beacon>) returns (bs: seq<Beacon>)
      requires Known(b0, CommEntries(neighbors))
      ensures bs == ActivateAll(b0, CommEntries(neighbors))
    {
      bs := b0;
      var i := 0;
      while i < |neighbors|
        invariant 0 <= i <= |neighbors|
        invariant Known(b0, CommEntries(neighbors[..i]))
        invariant bs == ActivateAll(b0, CommEntries(neighbors[..i]))
      {
        var before := CommEntries(neighbors[..i]);
        assert neighbors[..i + 1][..i] == neighbors[..i];
        CommEntriesPrefix(neighbors, i + 1);
        KnownPrefix(b0, CommEntries(neighbors), before + neighbors[i].commBeacons);
        ActivateAllAppend(b0, before, neighbors[i].commBeacons);
        bs := ActivateEach(bs, neighbors[i].commBeacons);
        i := i + 1;
      }
      assert neighbors[..i] == neighbors;
    }

    /** What artifactCheck depends on besides the stored reports and the agent. */
    function BaseScene(now: int): Scene
      reads this`neighbors, this`beacons, neighbors`odometry
    {
      Scene("", false, kind == "base", sendImages, Odometries(neighbors), BeaconPoints(beacons), now)
    }

    /**
     * artifactCheck: take in the new artifacts of agent `a` as CheckAll says,
     * adding the accepted ones to the agent's list; if the hash flag ends up
     * set, rehash the agent's list. `toFuse` lists the reports the base
     * station fuses, in order. The surroundings `sc` (BaseScene at the time of
     * the call, with the agent's id) are read by the caller.
     */
    method ArtifactCheck(a: Agent, sc: Scene) returns (updated: bool, toFuse: seq<ArtifactReport>)
      requires sc.agentId == a.id && sc.own == (a.id == id)
      modifies this`artifacts, this`report, a`checkArtifacts, a`numArtifacts, a`lastArtifact
      ensures var st := CheckAll(sc, Intake(old(artifacts), [], old(report), false, []), old(a.newArtifacts));
        artifacts == st.artifacts && report == st.report && updated == st.updated && toFuse == st.fuse &&
        a.numArtifacts == old(a.numArtifacts) + |st.added| &&
        (updated ==> a.checkArtifacts == (if a.reportImages then old(a.checkArtifacts) + st.added
                                          else StripImages(old(a.checkArtifacts) + st.added)) &&
                     a.lastArtifact == DigestOf(a.checkArtifacts)) &&
        (!updated ==> a.checkArtifacts == old(a.checkArtifacts) + st.added && a.lastArtifact == old(a.lastArtifact))
    {
      var st := TakeInAll(a, sc);
      if st.updated {
        a.UpdateHash();
      }
      updated, toFuse := st.updated, st.fuse;
    }

    /** artifactCheck's loop over the agent's new artifacts, before the rehash. */
    method TakeInAll(a: Agent, sc: Scene) returns (st: Intake)
      modifies this`artifacts, this`report, a`checkArtifacts, a`numArtifacts
      ensures st == CheckAll(sc, Intake(old(artifacts), [], old(report), false, []), old(a.newArtifacts))
      ensures artifacts == st.artifacts && report == st.report
      ensures a.checkArtifacts == old(a.checkArtifacts) + st.added && a.numArtifacts == old(a.numArtifacts) + |st.added|
    {
      var st0 := Intake(artifacts, [], report, false, []);
      st := st0;
      var xs := a.newArtifacts;
      var i := 0;
      while i < |xs|
        invariant 0 <= i <= |xs|
        invariant st == CheckAll(sc, st0, xs[..i])
        invariant artifacts == st.artifacts && report == st.report
        invariant a.checkArtifacts == old(a.checkArtifacts) + st.added && a.numArtifacts == old(a.numArtifacts) + |st.added|
      {
        CheckAllStep(sc, st0, xs, i);
        var add, stored;
        st, add, stored := TakeIn(sc, st, xs[i]);
        artifacts, report := st.artifacts, st.report;
        if add {
          a.AddArtifact(stored);
        }
        i := i + 1;
      }
      assert i == |xs| && xs[..i] == xs;
    }

    /**
     * updateArtifacts: artifactCheck for every neighbour, in order, setting
     * artifactsUpdated if any of them asks for it. `toFuse` lists the reports
     * the base station fuses, in order.
     */
    method UpdateArtifacts(now: int) returns (toFuse: seq<ArtifactReport>)
      modifies this`artifacts, this`report, this`artifactsUpdated
      modifies neighbors`checkArtifacts, neighbors`numArtifacts, neighbors`lastArtifact
      ensures var r := CheckNeighbors(old(BaseScene(now)), Ids(neighbors), id, old(NewArtifactLists(neighbors)),
                                      Sweep(old(artifacts), old(report), old(artifactsUpdated), []));
        artifacts == r.artifacts && report == r.report && artifactsUpdated == r.updated && toFuse == r.fuse
    {
      var sc := BaseScene(now);
      ghost var ids, lists := Ids(neighbors), NewArtifactLists(neighbors);
      ghost var sw0 := Sweep(artifacts, report, artifactsUpdated, []);
      toFuse := [];
      var i := 0;
      while i < |neighbors|
        invariant 0 <= i <= |neighbors|
        invariant forall j :: 0 <= j < |neighbors| ==> neighbors[j].newArtifacts == lists[j]
        invariant Sweep(artifacts, report, artifactsUpdated, toFuse) == CheckNeighbors(sc, ids[..i], id, lists[..i], sw0)
      {
        toFuse := CheckNeighborAt(i, sc, toFuse, ids, lists, sw0);
        i := i + 1;
      }
      assert ids[..i] == ids && lists[..i] == lists;
    }

    /** One round of updateArtifacts: artifactCheck for neighbour `i`. */
    method CheckNeighborAt(i: nat, sc: Scene, toFuse: seq<ArtifactReport>, ghost ids: seq<string>,
                           ghost lists: seq<seq<Artifact>>, ghost sw0: Sweep) returns (toFuse': seq<ArtifactReport>)
      requires i < |neighbors| == |ids| == |lists|
      requires forall j :: 0 <= j < |neighbors| ==> neighbors[j].id == ids[j] && neighbors[j].newArtifacts == lists[j]
      requires Sweep(artifacts, report, artifactsUpdated, toFuse) == CheckNeighbors(sc, ids[..i], id, lists[..i], sw0)
      modifies this`artifacts, this`report, this`artifactsUpdated
      modifies neighbors`checkArtifacts, neighbors`numArtifacts, neighbors`lastArtifact
      ensures forall j :: 0 <= j < |neighbors| ==> neighbors[j].newArtifacts == lists[j]
      ensures Sweep(artifacts, report, artifactsUpdated, toFuse') == CheckNeighbors(sc, ids[..i + 1], id, lists[..i + 1], sw0)
    {
      var nb := neighbors[i];
      ghost var p := Sweep(artifacts, report, artifactsUpdated, toFuse);
      var updated, fuse := ArtifactCheck(nb, sc.(agentId := nb.id, own := nb.id == id));
      SweepStep(sc, ids, id, lists, sw0, i, p, Intake(artifacts, [], report, updated, fuse));
      if updated {
        artifactsUpdated := true;
      }
      toFuse' := toFuse + fuse;
    }
  }
}
