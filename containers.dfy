/**
 * Registries of the coordinator (src/containers.py): what a node knows about
 * each other agent (`Agent`), about the base station (`Base`), about each relay
 * beacon (`Beacon`) and about each artifact report (`ArtifactReport`), together
 * with the messages they are updated from.
 */
module Containers {
  import opened Helpers

  // ---------------------------------------------------------------------------
  // Messages

  /** The AgentReset message: a reset order from the operator, newest stamp wins. */
  datatype Reset = Reset(stamp: int, agent: string, ignore: bool, base: bool, robots: bool,
                         maReset: bool, clear: bool, reset: bool, hardReset: bool, seqs: seq<int>)

  /** A default AgentReset(): zero stamp, no target, every flag false. */
  const NoReset := Reset(0, "", false, false, false, false, false, false, false, [])

  /** One entry of a BeaconArray message. */
  datatype BeaconEntry = BeaconEntry(id: string, active: bool, pos: Point)

  /** An artifact detection; `hasImageData` says whether its image payload is non-empty. */
  datatype Artifact = Artifact(artifactId: string, objClass: string, position: Point,
                               objProb: real, imageFormat: string, hasImageData: bool)

  /** A GUI goal point: a stamped pose whose header sequence number orders updates. */
  datatype GoalPoint = GoalPoint(seqNo: int, position: Point)

  /** A goal with its cost and the planned path to it. */
  datatype Goal = Goal(cost: real, path: seq<Point>, pose: Point)

  /** A map difference (Octomap) identified by its header sequence number. */
  datatype MapDiff = MapDiff(seqNo: int, content: string)

  /**
   * The artifact hash of updateHash: the MD5 digest of the artifact list. MD5 is
   * taken to be collision-free, so the digest is represented by the list itself;
   * `NoDigest` is the empty string the fields start from.
   */
  datatype Digest = NoDigest | DigestOf(arts: seq<Artifact>)

  /** An artifact with its image payload emptied. */
  function WithoutImage(a: Artifact): Artifact
  {
    a.(hasImageData := false)
  }

  /** Every artifact of the list with its image payload emptied. */
  function StripImages(arts: seq<Artifact>): (r: seq<Artifact>)
    ensures |r| == |arts|
    ensures forall i :: 0 <= i < |arts| ==> r[i] == WithoutImage(arts[i])
  {
    if |arts| == 0 then [] else StripImages(arts[..|arts| - 1]) + [WithoutImage(arts[|arts| - 1])]
  }

  /** One entry of the base station's per-agent artifact hash list (AgentArtifact). */
  datatype AgentArtifact = AgentArtifact(id: string, lastArtifact: Digest)

  /**
   * The fields of an AgentMsg / NeighborMsg read when it is received. `goalPath`
   * is the compressed path: three integers per pose, in decimetres.
   */
  datatype AgentMsg = AgentMsg(
    id: string, cid: string, stamp: int, lastMessage: int,
    status: string, battery: real, latestPoseGraph: int,
    newArtifacts: seq<Artifact>, pose: Pose, goalCost: real, goalPath: seq<int>,
    numDiffs: int, guiStamp: int, guiTaskName: string, guiTaskValue: string,
    guiGoalPoint: GoalPoint, reset: Reset, commBeacons: seq<BeaconEntry>)

  // ---------------------------------------------------------------------------
  // decompressPath

  function Decimetres(c: int): real
  {
    0.1 * c as real
  }

  /** Reference decoding of a compressed path, one pose per three integers. */
  function Decompress(c: seq<int>): seq<Point>
    requires |c| % 3 == 0
  {
    if |c| == 0 then []
    else
      var n := |c|;
      Decompress(c[..n - 3]) + [Point(Decimetres(c[n - 3]), Decimetres(c[n - 2]), Decimetres(c[n - 1]))]
  }

  /** Pose k of the decoded path is 0.1 times the k-th triple. */
  lemma {:induction false} DecompressAt(c: seq<int>)
    requires |c| % 3 == 0
    ensures |Decompress(c)| == |c| / 3
    ensures forall k :: 0 <= k < |c| / 3 ==>
      Decompress(c)[k] == Point(Decimetres(c[3 * k]), Decimetres(c[3 * k + 1]), Decimetres(c[3 * k + 2]))
  {
    if |c| > 0 {
      var n := |c|;
      DecompressAt(c[..n - 3]);
    }
  }

  /** Decoding a concatenation of whole triples decodes each part. */
  lemma {:induction false} DecompressAppend(c: seq<int>, d: seq<int>)
    requires |c| % 3 == 0 && |d| % 3 == 0
    ensures Decompress(c + d) == Decompress(c) + Decompress(d)
    decreases |d|
  {
    if |d| > 0 {
      var n := |d|;
      assert (c + d)[..|c + d| - 3] == c + d[..n - 3];
      DecompressAppend(c, d[..n - 3]);
      assert (c + d)[|c + d| - 3..] == d[n - 3..];
    } else {
      assert c + d == c;
    }
  }

  /**
   * decompressPath: builds the path with an index loop. A list whose length is
   * not a multiple of three makes the source index past its end.
   */
  method DecompressPath(c: seq<int>) returns (path: seq<Point>)
    requires |c| % 3 == 0
    ensures path == Decompress(c)
    ensures |path| == |c| / 3
  {
    path := [];
    var i := 0;
    while i < |c|
      invariant 0 <= i <= |c| && i % 3 == 0
      invariant path == Decompress(c[..i])
    {
      var p := Point(Decimetres(c[i]), Decimetres(c[i + 1]), Decimetres(c[i + 2]));
      assert c[..i + 3][..i] == c[..i];
      path := path + [p];
      i := i + 3;
    }
    assert c[..|c|] == c;
    DecompressAt(c);
  }

  // ---------------------------------------------------------------------------
  // The missing-diff and missing-image ledgers

  predicate NoDuplicates<T(==)>(s: seq<T>)
  {
    forall i, j :: 0 <= i < j < |s| ==> s[i] != s[j]
  }

  /** Append x unless it is already listed. */
  function AddNew<T(==)>(s: seq<T>, x: T): seq<T>
  {
    if x in s then s else s + [x]
  }

  /** The ledger after recording every index in [lo, hi) not yet listed, in increasing order. */
  function AddRange(m: seq<int>, lo: int, hi: int): seq<int>
    decreases hi - lo
  {
    if hi <= lo then m else AddNew(AddRange(m, lo, hi - 1), hi - 1)
  }

  /**
   * The missing-diff ledger keeps what it had, gains exactly the indices of the
   * range, and never lists an index twice.
   */
  lemma {:induction false} AddRangeContents(m: seq<int>, lo: int, hi: int)
    ensures forall x :: x in AddRange(m, lo, hi) <==> x in m || lo <= x < hi
    ensures |m| <= |AddRange(m, lo, hi)| && AddRange(m, lo, hi)[..|m|] == m
    ensures NoDuplicates(m) ==> NoDuplicates(AddRange(m, lo, hi))
    decreases hi - lo
  {
    if lo < hi {
      AddRangeContents(m, lo, hi - 1);
      var r := AddRange(m, lo, hi - 1);
      if hi - 1 !in r {
        assert (r + [hi - 1])[..|m|] == r[..|m|];
      }
    }
  }

  /** Whether an announced artifact brings an image to fetch. */
  predicate HasImage(a: Artifact)
  {
    a.imageFormat != "empty"
  }

  /** One artifact of a received message: record its image once in both lists. */
  function ImageStep(known: seq<string>, missing: seq<string>, a: Artifact): (seq<string>, seq<string>)
  {
    if HasImage(a) && a.artifactId !in known && a.artifactId !in missing
    then (known + [a.artifactId], missing + [a.artifactId])
    else (known, missing)
  }

  /** The image ledgers (images, missingImages) after every artifact of the message, in order. */
  function ImageLedger(known: seq<string>, missing: seq<string>, arts: seq<Artifact>): (seq<string>, seq<string>)
  {
    if |arts| == 0 then (known, missing)
    else
      var p := ImageLedger(known, missing, arts[..|arts| - 1]);
      ImageStep(p.0, p.1, arts[|arts| - 1])
  }

  /** Some artifact of the list names id and carries an image. */
  predicate Announces(arts: seq<Artifact>, id: string)
  {
    exists a :: a in arts && a.artifactId == id && HasImage(a)
  }

  /**
   * Both image lists only grow, an id joins them only when announced with an image
   * and listed in neither, and neither list gains a duplicate.
   */
  lemma {:induction false} ImageLedgerContents(known: seq<string>, missing: seq<string>, arts: seq<Artifact>)
    ensures var r := ImageLedger(known, missing, arts);
      (forall id :: id in r.0 <==> id in known || (id !in known && id !in missing && Announces(arts, id))) &&
      (forall id :: id in r.1 <==> id in missing || (id !in known && id !in missing && Announces(arts, id))) &&
      |known| <= |r.0| && |missing| <= |r.1| && r.0[..|known|] == known && r.1[..|missing|] == missing &&
      (NoDuplicates(known) ==> NoDuplicates(r.0)) && (NoDuplicates(missing) ==> NoDuplicates(r.1))
  {
    if |arts| > 0 {
      var front := arts[..|arts| - 1];
      var a := arts[|arts| - 1];
      ImageLedgerContents(known, missing, front);
      var p := ImageLedger(known, missing, front);
      assert forall id :: Announces(arts, id) <==> Announces(front, id) || (a.artifactId == id && HasImage(a)) by {
        assert arts == front + [a];
      }
      if HasImage(a) && a.artifactId !in p.0 && a.artifactId !in p.1 {
        assert (p.0 + [a.artifactId])[..|known|] == p.0[..|known|];
        assert (p.1 + [a.artifactId])[..|missing|] == p.1[..|missing|];
      }
    }
  }

  /** Python's `list.remove(x)`: drop the first occurrence of x. */
  function RemoveFirst<T(==)>(s: seq<T>, x: T): (r: seq<T>)
    ensures x !in s ==> r == s
  {
    if |s| == 0 then s
    else if s[0] == x then s[1..] else [s[0]] + RemoveFirst(s[1..], x)
  }

  lemma NoDuplicatesTail<T>(s: seq<T>)
    requires NoDuplicates(s) && |s| > 0
    ensures NoDuplicates(s[1..]) && s[0] !in s[1..]
  {
    assert forall i :: 0 <= i < |s[1..]| ==> s[1..][i] == s[i + 1];
  }

  lemma NoDuplicatesCons<T>(a: T, r: seq<T>)
    requires NoDuplicates(r) && a !in r
    ensures NoDuplicates([a] + r)
  {
    assert forall i :: 0 < i < |[a] + r| ==> ([a] + r)[i] == r[i - 1];
  }

  /** In a list without duplicates, removing x removes it completely and keeps the list duplicate-free. */
  lemma {:induction false} RemoveFirstNoDuplicates<T>(s: seq<T>, x: T)
    requires NoDuplicates(s)
    ensures forall y :: y in RemoveFirst(s, x) <==> y in s && y != x
    ensures NoDuplicates(RemoveFirst(s, x))
  {
    if |s| > 0 {
      NoDuplicatesTail(s);
      if s[0] != x {
        RemoveFirstNoDuplicates(s[1..], x);
        NoDuplicatesCons(s[0], RemoveFirst(s[1..], x));
      }
    }
  }

  /** The first map diff of the list with sequence number q, if any. */
  function FirstDiffIndex(diffs: seq<MapDiff>, q: int): (r: Option<nat>)
    ensures r.None? <==> forall i :: 0 <= i < |diffs| ==> diffs[i].seqNo != q
    ensures r.Some? ==> r.value < |diffs| && diffs[r.value].seqNo == q &&
                        forall i :: 0 <= i < r.value ==> diffs[i].seqNo != q
  {
    if |diffs| == 0 then None
    else if diffs[0].seqNo == q then Some(0)
    else
      var r := FirstDiffIndex(diffs[1..], q);
      if r.None? then
        assert forall i :: 0 <= i < |diffs| ==> diffs[i].seqNo != q by {
          forall i | 0 <= i < |diffs| ensures diffs[i].seqNo != q {
            if i > 0 { assert diffs[i] == diffs[1..][i - 1]; }
          }
        }
        None
      else
        assert forall i :: 0 <= i < r.value + 1 ==> diffs[i].seqNo != q by {
          forall i | 0 <= i < r.value + 1 ensures diffs[i].seqNo != q {
            if i > 0 { assert diffs[i] == diffs[1..][i - 1]; }
          }
        }
        Some(r.value + 1)
  }

  /** The diffs with the first one of sequence number q deleted. */
  function RemoveDiff(diffs: seq<MapDiff>, q: int): seq<MapDiff>
  {
    match FirstDiffIndex(diffs, q)
    case None => diffs
    case Some(k) => diffs[..k] + diffs[k + 1..]
  }

  /** The diffs after deleting, for each q of `seqs` in turn, the first diff numbered q. */
  function RemoveDiffs(diffs: seq<MapDiff>, seqs: seq<int>): seq<MapDiff>
  {
    if |seqs| == 0 then diffs else RemoveDiff(RemoveDiffs(diffs, seqs[..|seqs| - 1]), seqs[|seqs| - 1])
  }

  /** The scan for the first diff numbered q, stopping at the first match. */
  method FindDiff(diffs: seq<MapDiff>, q: int) returns (r: Option<nat>)
    ensures r == FirstDiffIndex(diffs, q)
  {
    var j := 0;
    while j < |diffs|
      invariant 0 <= j <= |diffs|
      invariant forall k :: 0 <= k < j ==> diffs[k].seqNo != q
    {
      if diffs[j].seqNo == q {
        return Some(j);
      }
      j := j + 1;
    }
    return None;
  }

  /** One deletion removes at most one diff, and only one numbered q. */
  lemma RemoveDiffKeeps(m: seq<MapDiff>, q: int)
    ensures |m| - 1 <= |RemoveDiff(m, q)| <= |m|
    ensures forall d :: d in RemoveDiff(m, q) ==> d in m
    ensures forall d :: d in m && d.seqNo != q ==> d in RemoveDiff(m, q)
  {
    match FirstDiffIndex(m, q)
    case None =>
    case Some(k) =>
      var r := m[..k] + m[k + 1..];
      assert forall i :: 0 <= i < |r| ==> r[i] == if i < k then m[i] else m[i + 1];
      forall d | d in m && d.seqNo != q ensures d in r {
        var i :| 0 <= i < |m| && m[i] == d;
        if i < k { assert r[i] == d; } else { assert r[i - 1] == d; }
      }
  }

  /** Each deletion removes at most one diff, and only one numbered as asked. */
  lemma {:induction false} RemoveDiffsShrinks(diffs: seq<MapDiff>, seqs: seq<int>)
    ensures |diffs| - |seqs| <= |RemoveDiffs(diffs, seqs)| <= |diffs|
    ensures forall d :: d in RemoveDiffs(diffs, seqs) ==> d in diffs
    ensures forall d :: d in diffs && d.seqNo !in seqs ==> d in RemoveDiffs(diffs, seqs)
  {
    if |seqs| > 0 {
      var front, last := seqs[..|seqs| - 1], seqs[|seqs| - 1];
      var mid := RemoveDiffs(diffs, front);
      assert RemoveDiffs(diffs, seqs) == RemoveDiff(mid, last);
      RemoveDiffsShrinks(diffs, front);
      RemoveDiffKeeps(mid, last);
    }
  }

  /** The sequence numbers of a list of diffs. */
  function SeqNos(diffs: seq<MapDiff>): (r: seq<int>)
    ensures |r| == |diffs| && forall i :: 0 <= i < |diffs| ==> r[i] == diffs[i].seqNo
  {
    if |diffs| == 0 then [] else SeqNos(diffs[..|diffs| - 1]) + [diffs[|diffs| - 1].seqNo]
  }

  /** A ledger after each received entry, in turn, is removed once (`list.remove` guarded by `in`). */
  function RemoveEach<T(==)>(m: seq<T>, received: seq<T>): seq<T>
  {
    if |received| == 0 then m else RemoveFirst(RemoveEach(m, received[..|received| - 1]), received[|received| - 1])
  }

  /**
   * A duplicate-free missing-diff ledger (which the ledger is: see AddRangeContents)
   * no longer lists any received diff, and keeps exactly the others.
   */
  lemma {:induction false} RemoveEachContents<T>(m: seq<T>, received: seq<T>)
    requires NoDuplicates(m)
    ensures NoDuplicates(RemoveEach(m, received))
    ensures forall x :: x in RemoveEach(m, received) <==> x in m && x !in received
  {
    if |received| > 0 {
      var front := received[..|received| - 1];
      RemoveEachContents(m, front);
      RemoveFirstNoDuplicates(RemoveEach(m, front), received[|received| - 1]);
      assert received == front + [received[|received| - 1]];
    }
  }

  lemma RemoveEachStep(m: seq<int>, octomaps: seq<MapDiff>, i: nat)
    requires i < |octomaps|
    ensures RemoveEach(m, SeqNos(octomaps[..i + 1])) ==
            RemoveFirst(RemoveEach(m, SeqNos(octomaps[..i])), octomaps[i].seqNo)
  {
    assert SeqNos(octomaps[..i + 1])[..i] == SeqNos(octomaps[..i]);
  }

  /** The missing-diff ledger after each received diff, in turn, is struck off if listed. */
  method DropReceived(missing: seq<int>, octomaps: seq<MapDiff>) returns (r: seq<int>)
    ensures r == RemoveEach(missing, SeqNos(octomaps))
  {
    r := missing;
    var i := 0;
    while i < |octomaps|
      invariant 0 <= i <= |octomaps|
      invariant r == RemoveEach(missing, SeqNos(octomaps[..i]))
    {
      RemoveEachStep(missing, octomaps, i);
      if octomaps[i].seqNo in r {
        r := RemoveFirst(r, octomaps[i].seqNo);
      }
      i := i + 1;
    }
    assert octomaps[..i] == octomaps;
  }

  /** The position of the first artifact of the list named aid, if any. */
  function FirstNamed(arts: seq<Artifact>, aid: string): (r: Option<nat>)
    ensures r.None? <==> forall i :: 0 <= i < |arts| ==> arts[i].artifactId != aid
    ensures r.Some? ==> r.value < |arts| && arts[r.value].artifactId == aid &&
                        forall i :: 0 <= i < r.value ==> arts[i].artifactId != aid
  {
    if |arts| == 0 then None
    else if arts[0].artifactId == aid then Some(0)
    else
      var r := FirstNamed(arts[1..], aid);
      assert forall i :: 0 < i < |arts| ==> arts[i] == arts[1..][i - 1];
      if r.None? then None else Some(r.value + 1)
  }

  /** The list with the first artifact named `aid`, if any, given its image payload. */
  function AttachImage(arts: seq<Artifact>, aid: string): (r: seq<Artifact>)
    ensures FirstNamed(arts, aid).None? ==> r == arts
  {
    match FirstNamed(arts, aid)
    case None => arts
    case Some(k) => arts[k := arts[k].(hasImageData := true)]
  }

  /** Attaching an image changes no id and no other artifact. */
  lemma AttachImageKeeps(arts: seq<Artifact>, aid: string)
    ensures |AttachImage(arts, aid)| == |arts|
    ensures forall i :: 0 <= i < |arts| ==> AttachImage(arts, aid)[i].artifactId == arts[i].artifactId
    ensures forall i :: 0 <= i < |arts| && arts[i].artifactId != aid ==> AttachImage(arts, aid)[i] == arts[i]
  {
  }

  /** Whether some artifact of the list is named aid. */
  predicate Names(arts: seq<Artifact>, aid: string)
  {
    exists i :: 0 <= i < |arts| && arts[i].artifactId == aid
  }

  /** The list after each id of `ids`, in turn, attaches its image. */
  function AttachImages(arts: seq<Artifact>, ids: seq<string>): seq<Artifact>
  {
    if |ids| == 0 then arts else AttachImage(AttachImages(arts, ids[..|ids| - 1]), ids[|ids| - 1])
  }

  /** Whether some id of `ids` names an artifact of the list. */
  predicate NamesAny(arts: seq<Artifact>, ids: seq<string>)
  {
    exists k :: 0 <= k < |ids| && Names(arts, ids[k])
  }

  /** Attaching images changes no id, hence no answer of Names. */
  lemma {:induction false} AttachImagesNames(arts: seq<Artifact>, ids: seq<string>, aid: string)
    ensures Names(AttachImages(arts, ids), aid) == Names(arts, aid)
  {
    if |ids| > 0 {
      var front := AttachImages(arts, ids[..|ids| - 1]);
      AttachImagesNames(arts, ids[..|ids| - 1], aid);
      AttachImageKeeps(front, ids[|ids| - 1]);
      if Names(front, aid) {
        var i :| 0 <= i < |front| && front[i].artifactId == aid;
        assert AttachImages(arts, ids)[i].artifactId == aid;
      }
    }
  }

  /** Ids that name no artifact of the list attach nothing. */
  lemma {:induction false} AttachImagesNone(arts: seq<Artifact>, ids: seq<string>)
    requires !NamesAny(arts, ids)
    ensures AttachImages(arts, ids) == arts
  {
    if |ids| > 0 {
      var n := |ids| - 1;
      assert !NamesAny(arts, ids[..n]) by {
        forall k | 0 <= k < n ensures !Names(arts, ids[..n][k]) {
          assert ids[..n][k] == ids[k];
        }
      }
      AttachImagesNone(arts, ids[..n]);
      assert !Names(arts, ids[n]);
    }
  }

  /** Attaching one more id attaches its image to the list built so far. */
  lemma AttachImagesSnoc(arts: seq<Artifact>, ids: seq<string>, aid: string)
    ensures AttachImages(arts, ids + [aid]) == AttachImage(AttachImages(arts, ids), aid)
  {
    assert (ids + [aid])[..|ids|] == ids;
  }

  /** Attaching two lists of images in turn attaches their concatenation. */
  lemma {:induction false} AttachImagesAppend(arts: seq<Artifact>, a: seq<string>, b: seq<string>)
    ensures AttachImages(AttachImages(arts, a), b) == AttachImages(arts, a + b)
    decreases |b|
  {
    if |b| == 0 {
      assert a + b == a;
    } else {
      var n := |b| - 1;
      var front := b[..n];
      assert b == front + [b[n]];
      assert a + b == (a + front) + [b[n]];
      AttachImagesAppend(arts, a, front);
      AttachImagesSnoc(arts, a + front, b[n]);
      AttachImagesSnoc(AttachImages(arts, a), front, b[n]);
    }
  }

  /** A list of ids names an artifact iff one of its two parts does. */
  lemma NamesAnyAppend(arts: seq<Artifact>, a: seq<string>, b: seq<string>)
    ensures NamesAny(arts, a + b) <==> NamesAny(arts, a) || NamesAny(arts, b)
  {
    if NamesAny(arts, a + b) {
      var k :| 0 <= k < |a + b| && Names(arts, (a + b)[k]);
      if k >= |a| {
        assert b[k - |a|] == (a + b)[k];
      }
    }
    if NamesAny(arts, a) {
      var k :| 0 <= k < |a| && Names(arts, a[k]);
      assert (a + b)[k] == a[k];
    }
    if NamesAny(arts, b) {
      var k :| 0 <= k < |b| && Names(arts, b[k]);
      assert (a + b)[|a| + k] == b[k];
    }
  }

  /** Removing the entries of two lists in turn removes those of their concatenation. */
  lemma {:induction false} RemoveEachAppend<T>(m: seq<T>, a: seq<T>, b: seq<T>)
    ensures RemoveEach(RemoveEach(m, a), b) == RemoveEach(m, a + b)
    decreases |b|
  {
    if |b| == 0 {
      assert a + b == a;
    } else {
      var n := |b| - 1;
      RemoveEachAppend(m, a, b[..n]);
      assert (a + b)[..|a + b| - 1] == a + b[..n];
    }
  }

  /** The part of an agent record that a direct-message response delivers to. */
  datatype Inbox = Inbox(mapDiffs: seq<MapDiff>, numOctomaps: int, updateMapDiffs: bool,
                         missingDiffs: seq<int>, checkArtifacts: seq<Artifact>,
                         lastArtifact: Digest, missingImages: seq<string>)

  /**
   * The record after it receives the map diffs `diffs` and the images of the
   * known artifacts `known`: diffs are appended and counted and leave the
   * missing-diff ledger; images leave the missing-image ledger and, with
   * reported images, are attached and rehash the artifact list when one names
   * a listed artifact.
   */
  function Deliver(s: Inbox, diffs: seq<MapDiff>, known: seq<string>, reportImages: bool): Inbox
  {
    var arts := if reportImages then AttachImages(s.checkArtifacts, known) else s.checkArtifacts;
    Inbox(s.mapDiffs + diffs, s.numOctomaps + |diffs|, s.updateMapDiffs || |diffs| > 0,
          RemoveEach(s.missingDiffs, SeqNos(diffs)), arts,
          if reportImages && NamesAny(s.checkArtifacts, known) then DigestOf(arts) else s.lastArtifact,
          RemoveEach(s.missingImages, known))
  }

  lemma SeqNosAppend(a: seq<MapDiff>, b: seq<MapDiff>)
    ensures SeqNos(a + b) == SeqNos(a) + SeqNos(b)
  {
  }

  /** The artifact list and its digest after two rounds of attached images, as after one. */
  lemma AttachTwice(arts: seq<Artifact>, k1: seq<string>, k2: seq<string>)
    ensures AttachImages(AttachImages(arts, k1), k2) == AttachImages(arts, k1 + k2)
    ensures NamesAny(AttachImages(arts, k1), k2) == NamesAny(arts, k2)
    ensures NamesAny(arts, k1 + k2) <==> NamesAny(arts, k1) || NamesAny(arts, k2)
    ensures !NamesAny(arts, k2) ==> AttachImages(arts, k1 + k2) == AttachImages(arts, k1)
  {
    var a1 := AttachImages(arts, k1);
    AttachImagesAppend(arts, k1, k2);
    NamesAnyAppend(arts, k1, k2);
    assert NamesAny(a1, k2) == NamesAny(arts, k2) by {
      forall k | 0 <= k < |k2| ensures Names(a1, k2[k]) == Names(arts, k2[k]) {
        AttachImagesNames(arts, k1, k2[k]);
      }
    }
    if !NamesAny(a1, k2) {
      AttachImagesNone(a1, k2);
    }
  }

  /**
   * After a delivery, duplicate-free ledgers stay duplicate-free and list
   * exactly what they listed before and was not received; the diffs are all
   * appended and counted.
   */
  lemma DeliverLedgers(s: Inbox, diffs: seq<MapDiff>, known: seq<string>, ri: bool)
    requires NoDuplicates(s.missingDiffs) && NoDuplicates(s.missingImages)
    ensures NoDuplicates(Deliver(s, diffs, known, ri).missingDiffs)
    ensures NoDuplicates(Deliver(s, diffs, known, ri).missingImages)
    ensures forall q :: q in Deliver(s, diffs, known, ri).missingDiffs <==> q in s.missingDiffs && q !in SeqNos(diffs)
    ensures forall a :: a in Deliver(s, diffs, known, ri).missingImages <==> a in s.missingImages && a !in known
    ensures Deliver(s, diffs, known, ri).numOctomaps - |Deliver(s, diffs, known, ri).mapDiffs| ==
            s.numOctomaps - |s.mapDiffs|
  {
    RemoveEachContents(s.missingDiffs, SeqNos(diffs));
    RemoveEachContents(s.missingImages, known);
  }

  /** Delivering nothing changes nothing. */
  lemma DeliverNothing(s: Inbox, ri: bool)
    ensures Deliver(s, [], [], ri) == s
  {
    assert s.mapDiffs + [] == s.mapDiffs;
    assert !NamesAny(s.checkArtifacts, []);
  }

  /** Two deliveries in turn are one delivery of everything, in order. */
  lemma DeliverTwice(s: Inbox, d1: seq<MapDiff>, k1: seq<string>, d2: seq<MapDiff>, k2: seq<string>, ri: bool)
    ensures Deliver(Deliver(s, d1, k1, ri), d2, k2, ri) == Deliver(s, d1 + d2, k1 + k2, ri)
  {
    DeliverTwiceDiffs(s, d1, k1, d2, k2, ri);
    DeliverTwiceImages(s, d1, k1, d2, k2, ri);
  }

  /** The map-diff part of DeliverTwice. */
  lemma DeliverTwiceDiffs(s: Inbox, d1: seq<MapDiff>, k1: seq<string>, d2: seq<MapDiff>, k2: seq<string>, ri: bool)
    ensures var r2, r := Deliver(Deliver(s, d1, k1, ri), d2, k2, ri), Deliver(s, d1 + d2, k1 + k2, ri);
      r2.mapDiffs == r.mapDiffs && r2.numOctomaps == r.numOctomaps &&
      r2.updateMapDiffs == r.updateMapDiffs && r2.missingDiffs == r.missingDiffs
  {
    assert s.mapDiffs + d1 + d2 == s.mapDiffs + (d1 + d2);
    SeqNosAppend(d1, d2);
    RemoveEachAppend(s.missingDiffs, SeqNos(d1), SeqNos(d2));
  }

  /** The image and artifact part of DeliverTwice. */
  lemma DeliverTwiceImages(s: Inbox, d1: seq<MapDiff>, k1: seq<string>, d2: seq<MapDiff>, k2: seq<string>, ri: bool)
    ensures var r2, r := Deliver(Deliver(s, d1, k1, ri), d2, k2, ri), Deliver(s, d1 + d2, k1 + k2, ri);
      r2.missingImages == r.missingImages && r2.checkArtifacts == r.checkArtifacts &&
      r2.lastArtifact == r.lastArtifact
  {
    RemoveEachAppend(s.missingImages, k1, k2);
    if ri {
      AttachTwice(s.checkArtifacts, k1, k2);
    }
  }

  // ---------------------------------------------------------------------------
  // Agent

  /** What a node knows about one agent (itself or a neighbour). */
  class Agent {
    const id: string
    const pid: string
    const kind: string
    const reportImages: bool
    var cid: string
    var reset: Reset
    var lastMessage: int
    var lastDirectMessage: int
    var incomm: bool
    var simcomm: bool
    // fields set by initialize()
    var status: string
    var guiStamp: int
    var guiTaskName: string
    var guiTaskValue: string
    var guiGoalPoint: GoalPoint
    var guiAccept: bool
    var odometry: Pose
    var exploreGoal: Point
    var explorePath: seq<Point>
    var goal: Goal
    var goals: seq<Goal>
    var atnode: bool
    var commBeacons: seq<BeaconEntry>
    var newArtifacts: seq<Artifact>
    var checkArtifacts: seq<Artifact>
    var numArtifacts: int
    var images: seq<string>
    var missingImages: seq<string>
    var lastArtifact: Digest
    var resetStamp: int
    var resetAgent: bool
    // fields set by initializeMaps()
    var mapDiffs: seq<MapDiff>
    var numOctomaps: int
    var updateMapDiffs: bool
    var numDiffs: int
    var missingDiffs: seq<int>
    var diffClear: bool

    /** The GUI fields as initialize() leaves them, `now` being its clock reading. */
    predicate GuiCleared(now: int)
      reads this
    {
      guiStamp == now && guiTaskName == "" && guiTaskValue == "" &&
      guiGoalPoint == GoalPoint(0, Origin) && !guiAccept
    }

    /** The status, pose and plan fields as initialize() leaves them. */
    predicate PlanCleared()
      reads this
    {
      status == "" && odometry == Pose(Origin, 0) && exploreGoal == Origin && explorePath == [] &&
      goal == Goal(0.0, [], Origin) && goals == [] && !atnode && commBeacons == []
    }

    /** The artifact fields as initialize() leaves them. */
    predicate ArtifactsCleared()
      reads this
    {
      newArtifacts == [] && checkArtifacts == [] && numArtifacts == 0 &&
      images == [] && missingImages == [] && lastArtifact == NoDigest
    }

    /** The state initialize(resetTime) leaves. */
    predicate Initialized(resetTime: int, now: int)
      reads this
    {
      GuiCleared(now) && PlanCleared() && ArtifactsCleared() &&
      resetStamp == resetTime && (resetAgent <==> resetTime != 0)
    }

    /** The state initializeMaps(numDiffs, diffClear) leaves. */
    predicate MapsInitialized(n: int, clear: bool)
      reads this
    {
      mapDiffs == [] && numOctomaps == 0 && !updateMapDiffs &&
      numDiffs == n && missingDiffs == [] && diffClear == clear
    }

    constructor(agentId: string, parentId: string, agentType: string, withImages: bool, now: int)
      ensures id == agentId && pid == parentId && kind == agentType && reportImages == withImages
      ensures cid == "" && reset == NoReset && lastMessage == now && lastDirectMessage == now
      ensures incomm && simcomm
      ensures Initialized(0, now) && MapsInitialized(0, false)
    {
      id, pid, kind, reportImages := agentId, parentId, agentType, withImages;
      cid, reset := "", NoReset;
      lastMessage, lastDirectMessage := now, now;
      incomm, simcomm := true, true;
      guiStamp, guiTaskName, guiTaskValue := now, "", "";
      guiGoalPoint, guiAccept := GoalPoint(0, Origin), false;
      status, odometry, exploreGoal, explorePath := "", Pose(Origin, 0), Origin, [];
      goal, goals, atnode, commBeacons := Goal(0.0, [], Origin), [], false, [];
      newArtifacts, checkArtifacts, numArtifacts := [], [], 0;
      images, missingImages, lastArtifact := [], [], NoDigest;
      resetStamp, resetAgent := 0, false;
      mapDiffs, numOctomaps, updateMapDiffs := [], 0, false;
      numDiffs, missingDiffs, diffClear := 0, [], false;
    }

    method ClearGui(now: int)
      modifies this`guiStamp, this`guiTaskName, this`guiTaskValue, this`guiGoalPoint, this`guiAccept
      ensures GuiCleared(now)
    {
      guiStamp, guiTaskName, guiTaskValue := now, "", "";
      guiGoalPoint, guiAccept := GoalPoint(0, Origin), false;
    }

    method ClearPlan()
      modifies this`status, this`odometry, this`exploreGoal, this`explorePath, this`goal, this`goals,
        this`atnode, this`commBeacons
      ensures PlanCleared()
    {
      status, odometry, exploreGoal, explorePath := "", Pose(Origin, 0), Origin, [];
      goal, goals, atnode, commBeacons := Goal(0.0, [], Origin), [], false, [];
    }

    method ClearArtifacts()
      modifies this`newArtifacts, this`checkArtifacts, this`numArtifacts, this`images,
        this`missingImages, this`lastArtifact
      ensures ArtifactsCleared()
    {
      newArtifacts, checkArtifacts, numArtifacts := [], [], 0;
      images, missingImages, lastArtifact := [], [], NoDigest;
    }

    /**
     * initialize(resetTime): forgets everything learnt about the agent. A non-zero
     * reset time makes the agent wait for a message confirming that reset.
     */
    method Initialize(resetTime: int, now: int)
      modifies this`guiStamp, this`guiTaskName, this`guiTaskValue, this`guiGoalPoint, this`guiAccept,
        this`status, this`odometry, this`exploreGoal, this`explorePath, this`goal, this`goals,
        this`atnode, this`commBeacons, this`newArtifacts, this`checkArtifacts, this`numArtifacts,
        this`images, this`missingImages, this`lastArtifact, this`resetStamp, this`resetAgent
      ensures Initialized(resetTime, now)
    {
      ClearGui(now);
      ClearPlan();
      ClearArtifacts();
      resetStamp := resetTime;
      resetAgent := resetTime != 0;
    }

    /** initializeMaps(numDiffs, diffClear): forgets the map data of the agent. */
    method InitializeMaps(n: int, clear: bool)
      modifies this`mapDiffs, this`numOctomaps, this`updateMapDiffs, this`numDiffs,
        this`missingDiffs, this`diffClear
      ensures MapsInitialized(n, clear)
    {
      mapDiffs, numOctomaps, updateMapDiffs := [], 0, false;
      numDiffs, missingDiffs, diffClear := n, [], clear;
    }

    /**
     * guiUpdate: takes the GUI stamp; the task only when both name and value are
     * set; the goal point only for a greater sequence number; the reset only for
     * a greater stamp.
     */
    method GuiUpdate(msg: AgentMsg)
      modifies this`guiStamp, this`guiTaskName, this`guiTaskValue, this`guiAccept,
        this`guiGoalPoint, this`reset
      ensures GuiUpdated(msg)
      ensures guiGoalPoint.seqNo >= old(guiGoalPoint.seqNo) && reset.stamp >= old(reset.stamp)
    {
      guiStamp := msg.guiStamp;
      if msg.guiTaskName != "" && msg.guiTaskValue != "" {
        guiTaskName := msg.guiTaskName;
        guiTaskValue := msg.guiTaskValue;
        guiAccept := true;
      }
      if msg.guiGoalPoint.seqNo > guiGoalPoint.seqNo {
        guiGoalPoint := msg.guiGoalPoint;
      }
      if msg.reset.stamp > reset.stamp {
        reset := msg.reset;
      }
    }

    /** The GUI fields after guiUpdate(msg), in terms of their values before it. */
    twostate predicate GuiUpdated(msg: AgentMsg)
      reads this
    {
      guiStamp == msg.guiStamp &&
      (if msg.guiTaskName != "" && msg.guiTaskValue != ""
       then guiTaskName == msg.guiTaskName && guiTaskValue == msg.guiTaskValue && guiAccept
       else guiTaskName == old(guiTaskName) && guiTaskValue == old(guiTaskValue) && guiAccept == old(guiAccept)) &&
      guiGoalPoint == (if msg.guiGoalPoint.seqNo > old(guiGoalPoint.seqNo) then msg.guiGoalPoint else old(guiGoalPoint)) &&
      reset == (if msg.reset.stamp > old(reset.stamp) then msg.reset else old(reset))
    }

    /** The fields initialize() clears, other than the GUI stamp and the reset stamp, are untouched. */
    twostate predicate RecordKept()
      reads this
    {
      guiTaskName == old(guiTaskName) && guiTaskValue == old(guiTaskValue) &&
      guiGoalPoint == old(guiGoalPoint) && guiAccept == old(guiAccept) &&
      status == old(status) && odometry == old(odometry) && exploreGoal == old(exploreGoal) &&
      explorePath == old(explorePath) && goal == old(goal) && goals == old(goals) && atnode == old(atnode) &&
      commBeacons == old(commBeacons) && newArtifacts == old(newArtifacts) &&
      checkArtifacts == old(checkArtifacts) && numArtifacts == old(numArtifacts) && images == old(images) &&
      missingImages == old(missingImages) && lastArtifact == old(lastArtifact) && resetAgent == old(resetAgent)
    }

    /** The GUI fields are untouched. */
    twostate predicate GuiKept()
      reads this
    {
      guiStamp == old(guiStamp) && guiTaskName == old(guiTaskName) && guiTaskValue == old(guiTaskValue) &&
      guiAccept == old(guiAccept) && guiGoalPoint == old(guiGoalPoint) && reset == old(reset)
    }

    /** Status, pose and goal taken from a message; the goal pose is the path's last pose. */
    method UpdatePlan(msg: AgentMsg)
      requires |msg.goalPath| % 3 == 0
      modifies this`status, this`newArtifacts, this`odometry, this`goal
      ensures status == msg.status && odometry == msg.pose
      ensures newArtifacts == if |msg.newArtifacts| > 0 then msg.newArtifacts else old(newArtifacts)
      ensures goal.cost == msg.goalCost && goal.path == Decompress(msg.goalPath)
      ensures goal.pose == if |goal.path| > 0 then goal.path[|goal.path| - 1] else old(goal.pose)
    {
      status := msg.status;
      if |msg.newArtifacts| > 0 {
        newArtifacts := msg.newArtifacts;
      }
      odometry := msg.pose;
      var path := DecompressPath(msg.goalPath);
      var pose := if |path| > 0 then path[|path| - 1] else goal.pose;
      goal := Goal(msg.goalCost, path, pose);
    }

    /** Whether a message announcing `announced` diffs extends the missing-diff ledger. */
    predicate LedgerGrows(announced: int)
      reads this
    {
      !diffClear && announced > numDiffs && !reset.ignore
    }

    /** The missing-diff part of updateCommon. */
    method UpdateMissingDiffs(announced: int)
      modifies this`missingDiffs, this`numDiffs
      ensures old(LedgerGrows(announced)) ==>
        missingDiffs == AddRange(old(missingDiffs), old(numDiffs), announced) && numDiffs == announced
      ensures !old(LedgerGrows(announced)) ==> missingDiffs == old(missingDiffs) && numDiffs == old(numDiffs)
    {
      if !diffClear && announced > numDiffs && !reset.ignore {
        var i := numDiffs;
        while i < announced
          invariant numDiffs <= i <= announced
          invariant missingDiffs == AddRange(old(missingDiffs), numDiffs, i)
          invariant numDiffs == old(numDiffs)
        {
          if i !in missingDiffs {
            missingDiffs := missingDiffs + [i];
          }
          i := i + 1;
        }
        numDiffs := announced;
      }
    }

    /** The image part of updateCommon. */
    method UpdateImages(arts: seq<Artifact>)
      modifies this`images, this`missingImages
      ensures (images, missingImages) == ImageLedger(old(images), old(missingImages), arts)
    {
      var k := 0;
      while k < |arts|
        invariant 0 <= k <= |arts|
        invariant (images, missingImages) == ImageLedger(old(images), old(missingImages), arts[..k])
      {
        var a := arts[k];
        assert arts[..k + 1][..k] == arts[..k];
        if a.imageFormat != "empty" && a.artifactId !in images && a.artifactId !in missingImages {
          images := images + [a.artifactId];
          missingImages := missingImages + [a.artifactId];
        }
        k := k + 1;
      }
      assert arts[..k] == arts;
    }

    /** updateCommon: the part of a received message accepted whether direct or relayed. */
    method UpdateCommon(msg: AgentMsg)
      requires |msg.goalPath| % 3 == 0
      modifies this`status, this`newArtifacts, this`odometry, this`goal, this`missingDiffs, this`numDiffs,
        this`images, this`missingImages,
        this`guiStamp, this`guiTaskName, this`guiTaskValue, this`guiAccept, this`guiGoalPoint, this`reset
      ensures status == msg.status && odometry == msg.pose
      ensures newArtifacts == if |msg.newArtifacts| > 0 then msg.newArtifacts else old(newArtifacts)
      ensures goal.cost == msg.goalCost && goal.path == Decompress(msg.goalPath)
      ensures goal.pose == if |goal.path| > 0 then goal.path[|goal.path| - 1] else old(goal.pose)
      ensures old(LedgerGrows(msg.numDiffs)) ==>
        missingDiffs == AddRange(old(missingDiffs), old(numDiffs), msg.numDiffs) && numDiffs == msg.numDiffs
      ensures !old(LedgerGrows(msg.numDiffs)) ==> missingDiffs == old(missingDiffs) && numDiffs == old(numDiffs)
      ensures (images, missingImages) == ImageLedger(old(images), old(missingImages), msg.newArtifacts)
      ensures if msg.guiStamp > old(guiStamp) then GuiUpdated(msg) else GuiKept()
    {
      UpdateTrack(msg);
      if msg.guiStamp > guiStamp {
        GuiUpdate(msg);
      }
    }

    /** updateCommon before the GUI fields: status, plan, diff ledger and image ledger. */
    method UpdateTrack(msg: AgentMsg)
      requires |msg.goalPath| % 3 == 0
      modifies this`status, this`newArtifacts, this`odometry, this`goal, this`missingDiffs, this`numDiffs,
        this`images, this`missingImages
      ensures status == msg.status && odometry == msg.pose
      ensures newArtifacts == if |msg.newArtifacts| > 0 then msg.newArtifacts else old(newArtifacts)
      ensures goal.cost == msg.goalCost && goal.path == Decompress(msg.goalPath)
      ensures goal.pose == if |goal.path| > 0 then goal.path[|goal.path| - 1] else old(goal.pose)
      ensures old(LedgerGrows(msg.numDiffs)) ==>
        missingDiffs == AddRange(old(missingDiffs), old(numDiffs), msg.numDiffs) && numDiffs == msg.numDiffs
      ensures !old(LedgerGrows(msg.numDiffs)) ==> missingDiffs == old(missingDiffs) && numDiffs == old(numDiffs)
      ensures (images, missingImages) == ImageLedger(old(images), old(missingImages), msg.newArtifacts)
    {
      UpdatePlan(msg);
      UpdateMissingDiffs(msg.numDiffs);
      UpdateImages(msg.newArtifacts);
    }

    /** A message is held back while the agent awaits confirmation of a newer reset. */
    predicate Rejects(msg: AgentMsg)
      reads this
    {
      resetAgent && msg.reset.stamp < resetStamp
    }

    /**
     * update(neighbor, updater): reset gating, then the direct-contact fields when
     * `updater` names the receiving node (a non-empty id), or the relayed ones.
     */
    method Update(msg: AgentMsg, updater: string, now: int)
      requires |msg.goalPath| % 3 == 0
      modifies this`resetAgent, this`commBeacons, this`cid, this`lastMessage, this`lastDirectMessage,
        this`incomm, this`status, this`newArtifacts, this`odometry, this`goal, this`missingDiffs,
        this`numDiffs, this`images, this`missingImages,
        this`guiStamp, this`guiTaskName, this`guiTaskValue, this`guiAccept, this`guiGoalPoint, this`reset
      ensures old(Rejects(msg)) ==> unchanged(this)
      ensures !old(Rejects(msg)) ==> !resetAgent && status == msg.status && odometry == msg.pose
      ensures !old(Rejects(msg)) && updater != "" ==>
        cid == updater && incomm && lastDirectMessage == now && lastMessage == msg.stamp &&
        commBeacons == msg.commBeacons
      ensures !old(Rejects(msg)) && updater == "" ==>
        cid == msg.cid && !incomm && lastMessage == msg.lastMessage &&
        lastDirectMessage == old(lastDirectMessage) && commBeacons == old(commBeacons)
      ensures !old(Rejects(msg)) ==>
        (images, missingImages) == ImageLedger(old(images), old(missingImages), msg.newArtifacts)
      ensures !old(Rejects(msg)) && old(LedgerGrows(msg.numDiffs)) ==>
        missingDiffs == AddRange(old(missingDiffs), old(numDiffs), msg.numDiffs) && numDiffs == msg.numDiffs
    {
      if resetAgent {
        if msg.reset.stamp < resetStamp {
          return;
        } else {
          resetAgent := false;
        }
      }
      Accept(msg, updater, now);
    }

    /** The accepting part of update(neighbor, updater), once the reset gate has passed. */
    method Accept(msg: AgentMsg, updater: string, now: int)
      requires |msg.goalPath| % 3 == 0
      modifies this`commBeacons, this`cid, this`lastMessage, this`lastDirectMessage,
        this`incomm, this`status, this`newArtifacts, this`odometry, this`goal, this`missingDiffs,
        this`numDiffs, this`images, this`missingImages,
        this`guiStamp, this`guiTaskName, this`guiTaskValue, this`guiAccept, this`guiGoalPoint, this`reset
      ensures status == msg.status && odometry == msg.pose
      ensures updater != "" ==>
        cid == updater && incomm && lastDirectMessage == now && lastMessage == msg.stamp &&
        commBeacons == msg.commBeacons
      ensures updater == "" ==>
        cid == msg.cid && !incomm && lastMessage == msg.lastMessage &&
        lastDirectMessage == old(lastDirectMessage) && commBeacons == old(commBeacons)
      ensures (images, missingImages) == ImageLedger(old(images), old(missingImages), msg.newArtifacts)
      ensures old(LedgerGrows(msg.numDiffs)) ==>
        missingDiffs == AddRange(old(missingDiffs), old(numDiffs), msg.numDiffs) && numDiffs == msg.numDiffs
    {
      if updater != "" {
        AcceptDirect(msg, updater, now);
      } else {
        AcceptRelayed(msg);
      }
    }

    /** update(neighbor, updater) from the sender itself: the direct-contact fields, then updateCommon. */
    method AcceptDirect(msg: AgentMsg, updater: string, now: int)
      requires |msg.goalPath| % 3 == 0
      modifies this`commBeacons, this`cid, this`lastMessage, this`lastDirectMessage,
        this`incomm, this`status, this`newArtifacts, this`odometry, this`goal, this`missingDiffs,
        this`numDiffs, this`images, this`missingImages,
        this`guiStamp, this`guiTaskName, this`guiTaskValue, this`guiAccept, this`guiGoalPoint, this`reset
      ensures status == msg.status && odometry == msg.pose
      ensures cid == updater && incomm && lastDirectMessage == now && lastMessage == msg.stamp &&
        commBeacons == msg.commBeacons
      ensures (images, missingImages) == ImageLedger(old(images), old(missingImages), msg.newArtifacts)
      ensures old(LedgerGrows(msg.numDiffs)) ==>
        missingDiffs == AddRange(old(missingDiffs), old(numDiffs), msg.numDiffs) && numDiffs == msg.numDiffs
    {
      MarkDirect(msg, updater, now);
      assert LedgerGrows(msg.numDiffs) == old(LedgerGrows(msg.numDiffs));
      assert (images, missingImages, missingDiffs, numDiffs) ==
             old((images, missingImages, missingDiffs, numDiffs));
      UpdateCommon(msg);
    }

    /** update(neighbor) for a relayed record: updateCommon, then the relay fields. */
    method AcceptRelayed(msg: AgentMsg)
      requires |msg.goalPath| % 3 == 0
      modifies this`cid, this`lastMessage, this`incomm, this`status, this`newArtifacts, this`odometry,
        this`goal, this`missingDiffs, this`numDiffs, this`images, this`missingImages,
        this`guiStamp, this`guiTaskName, this`guiTaskValue, this`guiAccept, this`guiGoalPoint, this`reset
      ensures status == msg.status && odometry == msg.pose
      ensures cid == msg.cid && !incomm && lastMessage == msg.lastMessage
      ensures (images, missingImages) == ImageLedger(old(images), old(missingImages), msg.newArtifacts)
      ensures old(LedgerGrows(msg.numDiffs)) ==>
        missingDiffs == AddRange(old(missingDiffs), old(numDiffs), msg.numDiffs) && numDiffs == msg.numDiffs
    {
      UpdateCommon(msg);
      MarkRelayed(msg);
    }

    /** The direct-contact fields of update(neighbor, updater). */
    method MarkDirect(msg: AgentMsg, updater: string, now: int)
      modifies this`commBeacons, this`cid, this`lastMessage, this`lastDirectMessage, this`incomm
      ensures cid == updater && incomm && lastDirectMessage == now && lastMessage == msg.stamp
      ensures commBeacons == msg.commBeacons
    {
      commBeacons := msg.commBeacons;
      cid := updater;
      lastMessage := msg.stamp;
      lastDirectMessage := now;
      incomm := true;
    }

    /** The relayed-message fields of update(neighbor). */
    method MarkRelayed(msg: AgentMsg)
      modifies this`cid, this`lastMessage, this`incomm
      ensures cid == msg.cid && !incomm && lastMessage == msg.lastMessage
    {
      cid := msg.cid;
      incomm := false;
      lastMessage := msg.lastMessage;
    }

    /**
     * updateHash: the digest of the artifact list; when images are not reported
     * their payloads are first emptied in the list itself.
     */
    method UpdateHash()
      modifies this`checkArtifacts, this`lastArtifact
      ensures checkArtifacts == if reportImages then old(checkArtifacts) else StripImages(old(checkArtifacts))
      ensures lastArtifact == DigestOf(checkArtifacts)
    {
      if !reportImages {
        var k := 0;
        var stripped := [];
        while k < |checkArtifacts|
          invariant 0 <= k <= |checkArtifacts|
          invariant stripped == StripImages(checkArtifacts[..k])
        {
          assert checkArtifacts[..k + 1][..k] == checkArtifacts[..k];
          stripped := stripped + [WithoutImage(checkArtifacts[k])];
          k := k + 1;
        }
        assert checkArtifacts[..k] == checkArtifacts;
        checkArtifacts := stripped;
      }
      lastArtifact := DigestOf(checkArtifacts);
    }

    /** The first part of resetDataCheck's change to the reset agent. */
    method MarkReset(stamp: int, clear: bool)
      modifies this`resetStamp, this`diffClear
      ensures resetStamp == stamp && diffClear == clear
    {
      resetStamp := stamp;
      diffClear := clear;
    }

    /** The last part of resetDataCheck: the reset is saved and stamped with the time. */
    method StoreReset(data: Reset, now: int)
      modifies this`guiStamp, this`reset
      ensures guiStamp == now && reset == data
    {
      guiStamp := now;
      reset := data;
    }

    /**
     * resetDataCheck's sequence removal: for each listed sequence number, in order,
     * mark the diffs cleared and delete the first diff with that number.
     */
    method DeleteDiffs(seqs: seq<int>)
      modifies this`mapDiffs, this`diffClear
      ensures mapDiffs == RemoveDiffs(old(mapDiffs), seqs)
      ensures diffClear == (old(diffClear) || |seqs| > 0)
    {
      var diffs := mapDiffs;
      var i := 0;
      while i < |seqs|
        invariant 0 <= i <= |seqs|
        invariant diffs == RemoveDiffs(old(mapDiffs), seqs[..i])
        invariant mapDiffs == old(mapDiffs) && diffClear == old(diffClear)
      {
        assert seqs[..i + 1][..i] == seqs[..i];
        var remove := FindDiff(diffs, seqs[i]);
        if remove.Some? {
          var k := remove.value;
          diffs := diffs[..k] + diffs[k + 1..];
        }
        i := i + 1;
      }
      assert seqs[..i] == seqs;
      mapDiffs := diffs;
      diffClear := diffClear || |seqs| > 0;
    }

    /**
     * DMResponseReceiever's map part: each received diff is appended and counted,
     * and its sequence number, if listed, is removed from the missing-diff ledger.
     */
    method ReceiveDiffs(octomaps: seq<MapDiff>)
      modifies this`mapDiffs, this`numOctomaps, this`updateMapDiffs, this`missingDiffs
      ensures mapDiffs == old(mapDiffs) + octomaps
      ensures numOctomaps == old(numOctomaps) + |octomaps|
      ensures updateMapDiffs == (old(updateMapDiffs) || |octomaps| > 0)
      ensures missingDiffs == RemoveEach(old(missingDiffs), SeqNos(octomaps))
    {
      var missing := DropReceived(missingDiffs, octomaps);
      mapDiffs, numOctomaps := mapDiffs + octomaps, numOctomaps + |octomaps|;
      updateMapDiffs, missingDiffs := updateMapDiffs || |octomaps| > 0, missing;
    }

    /**
     * DMResponseReceiever's image part for a received image whose artifact is known:
     * with reported images, the first listed artifact of that id takes the image
     * and the digest is recomputed; the id leaves the missing-image ledger.
     */
    method ReceiveImage(aid: string) returns (rehashed: bool)
      modifies this`checkArtifacts, this`lastArtifact, this`missingImages
      ensures rehashed <==> reportImages && Names(old(checkArtifacts), aid)
      ensures rehashed ==> checkArtifacts == AttachImage(old(checkArtifacts), aid) &&
                           lastArtifact == DigestOf(checkArtifacts)
      ensures !rehashed ==> checkArtifacts == old(checkArtifacts) && lastArtifact == old(lastArtifact)
      ensures missingImages == RemoveFirst(old(missingImages), aid)
    {
      rehashed := false;
      if reportImages {
        var arts := checkArtifacts;
        var k := 0;
        while k < |arts|
          invariant 0 <= k <= |arts|
          invariant forall j :: 0 <= j < k ==> arts[j].artifactId != aid
        {
          if arts[k].artifactId == aid {
            rehashed := true;
            break;
          }
          k := k + 1;
        }
        if rehashed {
          assert FirstNamed(arts, aid) == Some(k);
          checkArtifacts := arts[k := arts[k].(hasImageData := true)];
          lastArtifact := DigestOf(checkArtifacts);
        }
      }
      if aid in missingImages {
        missingImages := RemoveFirst(missingImages, aid);
      }
    }

    /** The fields a direct-message response delivers to. */
    function InboxOf(): Inbox
      reads this
    {
      Inbox(mapDiffs, numOctomaps, updateMapDiffs, missingDiffs, checkArtifacts, lastArtifact, missingImages)
    }

    /**
     * DMResponseReceiever's image part for the received images whose artifacts
     * are known, in order: each is received as by ReceiveImage, and the list is
     * rehashed if any of them was attached.
     */
    method ReceiveImages(known: seq<string>) returns (rehashed: bool)
      modifies this`checkArtifacts, this`lastArtifact, this`missingImages
      ensures rehashed <==> reportImages && NamesAny(old(checkArtifacts), known)
      ensures checkArtifacts == if reportImages then AttachImages(old(checkArtifacts), known) else old(checkArtifacts)
      ensures lastArtifact == if rehashed then DigestOf(checkArtifacts) else old(lastArtifact)
      ensures missingImages == RemoveEach(old(missingImages), known)
    {
      rehashed := false;
      var i := 0;
      while i < |known|
        invariant 0 <= i <= |known|
        invariant rehashed <==> reportImages && NamesAny(old(checkArtifacts), known[..i])
        invariant checkArtifacts == if reportImages then AttachImages(old(checkArtifacts), known[..i]) else old(checkArtifacts)
        invariant lastArtifact == if rehashed then DigestOf(checkArtifacts) else old(lastArtifact)
        invariant missingImages == RemoveEach(old(missingImages), known[..i])
      {
        assert known[..i + 1][..i] == known[..i];
        AttachImagesNames(old(checkArtifacts), known[..i], known[i]);
        NamesAnyAppend(old(checkArtifacts), known[..i], [known[i]]);
        assert known[..i] + [known[i]] == known[..i + 1];
        var r := ReceiveImage(known[i]);
        rehashed := rehashed || r;
        i := i + 1;
      }
      assert known[..i] == known;
    }

    /** addArtifact: record one of the agent's own artifacts for its report hash. */
    method AddArtifact(a: Artifact)
      modifies this`checkArtifacts, this`numArtifacts
      ensures checkArtifacts == old(checkArtifacts) + [a]
      ensures numArtifacts == old(numArtifacts) + 1
    {
      checkArtifacts := checkArtifacts + [a];
      numArtifacts := numArtifacts + 1;
    }
  }

  // ---------------------------------------------------------------------------
  // Base

  /** The entry the base station lists for an agent: the first with that id. */
  function FirstArtifactOf(entries: seq<AgentArtifact>, agentId: string): (r: Option<Digest>)
    ensures r.None? <==> forall i :: 0 <= i < |entries| ==> entries[i].id != agentId
    ensures r.Some? ==> exists i :: 0 <= i < |entries| && entries[i].id == agentId &&
                               r.value == entries[i].lastArtifact &&
                               forall j :: 0 <= j < i ==> entries[j].id != agentId
  {
    if |entries| == 0 then None
    else if entries[0].id == agentId then Some(entries[0].lastArtifact)
    else
      var r := FirstArtifactOf(entries[1..], agentId);
      if r.Some? then
        ghost var i :| 0 <= i < |entries[1..]| && entries[1..][i].id == agentId &&
          r.value == entries[1..][i].lastArtifact && forall j :: 0 <= j < i ==> entries[1..][j].id != agentId;
        assert entries[i + 1].id == agentId;
        assert forall j :: 0 <= j < i + 1 ==> entries[j].id != agentId by {
          forall j | 0 <= j < i + 1 ensures entries[j].id != agentId {
            if j > 0 { assert entries[j] == entries[1..][j - 1]; }
          }
        }
        r
      else
        assert forall i :: 0 <= i < |entries| ==> entries[i].id != agentId by {
          forall i | 0 <= i < |entries| ensures entries[i].id != agentId {
            if i > 0 { assert entries[i] == entries[1..][i - 1]; }
          }
        }
        r
  }

  /** What a node knows about the base station. */
  class Base {
    var baseStamp: int
    var lastMessage: int
    var lastDirectMessage: int
    var lastArtifact: Digest
    var incomm: bool
    var simcomm: bool
    var baseArtifacts: seq<AgentArtifact>
    var commBeacons: seq<BeaconEntry>

    constructor(now: int)
      ensures baseStamp == now && lastMessage == now && lastDirectMessage == now
      ensures lastArtifact == NoDigest && incomm && simcomm && baseArtifacts == [] && commBeacons == []
    {
      baseStamp, lastMessage, lastDirectMessage := now, now, now;
      lastArtifact := NoDigest;
      incomm, simcomm := true, true;
      baseArtifacts, commBeacons := [], [];
    }

    /** update: a direct message from the base station. */
    method Update(stamp: int, beacons: seq<BeaconEntry>, now: int)
      modifies this`lastMessage, this`lastDirectMessage, this`commBeacons
      ensures lastMessage == stamp && lastDirectMessage == now && commBeacons == beacons
    {
      lastMessage := stamp;
      lastDirectMessage := now;
      commBeacons := beacons;
    }

    /**
     * updateArtifacts: adopt the base station's artifact list and, if it lists
     * `agentId`, the hash it holds for that agent (first entry wins).
     */
    method UpdateArtifacts(agentId: string, stamp: int, entries: seq<AgentArtifact>)
      modifies this`baseStamp, this`baseArtifacts, this`lastArtifact
      ensures baseStamp == stamp && baseArtifacts == entries
      ensures lastArtifact == match FirstArtifactOf(entries, agentId)
        case Some(h) => h
        case None => old(lastArtifact)
    {
      baseStamp := stamp;
      baseArtifacts := entries;
      var i := 0;
      while i < |entries| && entries[i].id != agentId
        invariant 0 <= i <= |entries|
        invariant FirstArtifactOf(entries, agentId) == FirstArtifactOf(entries[i..], agentId)
      {
        assert entries[i..][1..] == entries[i + 1..];
        i := i + 1;
      }
      if i < |entries| {
        lastArtifact := entries[i].lastArtifact;
      } else {
        assert entries[i..] == [];
      }
    }

    /** resetArtifact: forget the hash held for `agentId` if the base lists that agent. */
    method ResetArtifact(agentId: string)
      modifies this`lastArtifact
      ensures lastArtifact == if FirstArtifactOf(baseArtifacts, agentId).Some? then NoDigest else old(lastArtifact)
    {
      var i := 0;
      while i < |baseArtifacts|
        invariant 0 <= i <= |baseArtifacts|
        invariant FirstArtifactOf(baseArtifacts, agentId).Some? ==
          FirstArtifactOf(baseArtifacts[i..], agentId).Some?
        invariant lastArtifact == old(lastArtifact)
      {
        assert baseArtifacts[i..][1..] == baseArtifacts[i + 1..];
        if baseArtifacts[i].id == agentId {
          lastArtifact := NoDigest;
          return;
        }
        i := i + 1;
      }
    }
  }

  // ---------------------------------------------------------------------------
  // BeaconObj and ArtifactReport

  /** What a node knows about one relay beacon. */
  datatype Beacon = Beacon(id: string, owner: bool, pos: Point, lastMessage: int,
                           lastDirectMessage: int, incomm: bool, simcomm: bool, active: bool)

  /** A freshly created BeaconObj: not heard, not reachable, not deployed. */
  function NewBeacon(id: string, owner: bool, now: int): (b: Beacon)
    ensures b.id == id && b.owner == owner && b.pos == Origin
    ensures !b.incomm && !b.simcomm && !b.active
  {
    Beacon(id, owner, Origin, now, now, false, false, false)
  }

  /** An artifact as tracked for reporting. */
  datatype ArtifactReport = ArtifactReport(id: string, agentId: string, artifact: Artifact,
                                           reported: bool, score: int, isNew: bool, firstSeen: int,
                                           imageSaved: bool)

  /**
   * ArtifactReport(agent_id, artifact, sendImages): unreported and new; its image is
   * marked 'empty' when it has no data or images are not sent, and kept for direct
   * requests only when images are sent.
   */
  function NewReport(agentId: string, a: Artifact, sendImages: bool, now: int): (r: ArtifactReport)
    ensures r.id == a.artifactId && r.agentId == agentId && !r.reported && r.isNew
    ensures r.artifact == Marked(a, sendImages)
    ensures r.imageSaved == sendImages
  {
    ArtifactReport(a.artifactId, agentId, Marked(a, sendImages), false, 0, true, now, sendImages)
  }

  /**
   * The artifact as ArtifactReport leaves it: the constructor marks the image
   * of the artifact object it is given 'empty' when there is no image data or
   * images are not sent, and that same object is what the caller goes on using.
   */
  function Marked(a: Artifact, sendImages: bool): (m: Artifact)
    ensures m.imageFormat == if !a.hasImageData || !sendImages then "empty" else a.imageFormat
    ensures m.(imageFormat := a.imageFormat) == a
  {
    if !a.hasImageData || !sendImages then a.(imageFormat := "empty") else a
  }
}
