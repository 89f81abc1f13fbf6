/**
 * The base station (src/base.py): a coordinator node that fuses the artifact
 * reports of every robot into one table, publishes the fused artifacts not yet
 * scored, tells each robot which of its reports it holds (the base artifact
 * list), and forwards GUI commands and resets to the robots' records.
 *
 * The fused table is a dictionary keyed by report id; it is a sequence here in
 * insertion order, a replaced entry keeping its place. The originals of a
 * fused entry are a dictionary too, kept the same way. The fusion loop walks
 * the table as it stood when the loop began; under Python 3 the entry it adds
 * mid-loop makes the view raise instead, which this model does not carry.
 * Markers and publishing are outputs: the published artifacts are returned.
 */
module BaseStation {
  import opened Helpers
  import opened Containers
  import opened Bobcat

  /** A fused artifact: the report the base publishes, and the reports it was fused from. */
  datatype Fused = Fused(report: ArtifactReport, originals: seq<ArtifactReport>)

  // ---------------------------------------------------------------------------
  // The fused table

  function Keys(fs: seq<Fused>): set<string>
  {
    set f | f in fs :: f.report.id
  }

  /** Entries are keyed by distinct ids. */
  predicate DistinctIds(fs: seq<Fused>)
  {
    forall i, j :: 0 <= i < j < |fs| ==> fs[i].report.id != fs[j].report.id
  }

  /** The position of the entry with that id, if any. */
  function FusedIndex(fs: seq<Fused>, id: string): (r: Option<nat>)
    ensures r.None? <==> id !in Keys(fs)
    ensures r.Some? ==> r.value < |fs| && fs[r.value].report.id == id &&
                        forall i :: 0 <= i < r.value ==> fs[i].report.id != id
  {
    if |fs| == 0 then None
    else if fs[0].report.id == id then Some(0)
    else
      var r := FusedIndex(fs[1..], id);
      assert forall f :: f in fs <==> f == fs[0] || f in fs[1..];
      if r.None? then None else Some(r.value + 1)
  }

  /** Store an entry under its id: a known id is replaced in place, a new one appended. */
  function Put(fs: seq<Fused>, f: Fused): (r: seq<Fused>)
    ensures f in r && Keys(r) == Keys(fs) + {f.report.id}
    ensures forall g :: g in r ==> g == f || g in fs
    ensures forall g :: g in fs && g.report.id != f.report.id ==> g in r
    ensures DistinctIds(fs) ==> DistinctIds(r)
  {
    match FusedIndex(fs, f.report.id)
    case Some(k) =>
      var r := fs[k := f];
      assert forall i :: 0 <= i < |r| ==> r[i].report.id == fs[i].report.id;
      forall g | g in r ensures g == f || g in fs {
        var i :| 0 <= i < |r| && r[i] == g;
        if i != k {
          assert g == fs[i];
        }
      }
      forall g | g in fs && g.report.id != f.report.id ensures g in r {
        var i :| 0 <= i < |fs| && fs[i] == g;
        assert r[i] == g;
      }
      assert Keys(r) == Keys(fs) + {f.report.id} by {
        forall x | x in Keys(fs) ensures x in Keys(r) {
          var g :| g in fs && g.report.id == x;
          var i :| 0 <= i < |fs| && fs[i] == g;
          assert r[i].report.id == x;
        }
        forall x | x in Keys(r) ensures x in Keys(fs) {
          var g :| g in r && g.report.id == x;
          var i :| 0 <= i < |r| && r[i] == g;
          assert fs[i].report.id == x;
        }
      }
      r
    case None =>
      var r := fs + [f];
      assert forall g :: g in r <==> g in fs || g == f;
      r
  }

  /** `del` of an id: the entries with that id go, the rest stay in order. */
  function Remove(fs: seq<Fused>, id: string): (r: seq<Fused>)
    ensures forall g :: g in r <==> g in fs && g.report.id != id
    ensures DistinctIds(fs) ==> DistinctIds(r)
  {
    if |fs| == 0 then []
    else
      var rest := Remove(fs[..|fs| - 1], id);
      var last := fs[|fs| - 1];
      assert forall g :: g in fs <==> g in fs[..|fs| - 1] || g == last;
      assert DistinctIds(fs) ==> forall g :: g in rest ==> g.report.id != last.report.id by {
        if DistinctIds(fs) {
          forall g | g in rest ensures g.report.id != last.report.id {
            var i :| 0 <= i < |fs| - 1 && fs[i] == g;
          }
        }
      }
      if last.report.id == id then rest else rest + [last]
  }

  /** Every id of `rem` deleted in turn. */
  function RemoveAll(fs: seq<Fused>, rem: seq<string>): (r: seq<Fused>)
    ensures forall g :: g in r <==> g in fs && g.report.id !in rem
    ensures DistinctIds(fs) ==> DistinctIds(r)
  {
    if |rem| == 0 then fs
    else
      var r := Remove(RemoveAll(fs, rem[..|rem| - 1]), rem[|rem| - 1]);
      assert forall x :: x in rem <==> x in rem[..|rem| - 1] || x == rem[|rem| - 1];
      r
  }

  // ---------------------------------------------------------------------------
  // fuseArtifact

  function Positions(os: seq<ArtifactReport>): (ps: seq<Point>)
    ensures |ps| == |os|
  {
    if |os| == 0 then [] else Positions(os[..|os| - 1]) + [os[|os| - 1].artifact.position]
  }

  function ProbSum(os: seq<ArtifactReport>): real
  {
    if |os| == 0 then 0.0 else ProbSum(os[..|os| - 1]) + os[|os| - 1].artifact.objProb
  }

  /** A fused entry sits at the mean position of its originals, with their mean probability. */
  predicate Averaged(f: Fused)
  {
    |f.originals| > 0 &&
    f.report.artifact.position == Mean(Positions(f.originals)) &&
    f.report.artifact.objProb == ProbSum(f.originals) / |f.originals| as real
  }

  /** Some original has that id. */
  predicate HasOriginal(os: seq<ArtifactReport>, id: string)
  {
    exists o :: o in os && o.id == id
  }

  /** A report may be fused with an entry: same class, and closer than `dist` in the plane. */
  predicate Matches(a: ArtifactReport, f: Fused, dist: real)
  {
    a.artifact.objClass == f.report.artifact.objClass &&
    Closer2D(a.artifact.position, f.report.artifact.position, dist)
  }

  /**
   * The entry that replaces `f` when `a` is fused into it, and the report the
   * loop variable names afterwards. The report joins the originals unless one
   * has its id; the entry moves to the originals' means. The averaging loop
   * reuses the name of the report being fused, so afterwards that name means
   * the last original: the new id ends with that original's id, and the next
   * entries of the table are compared with it.
   */
  function Merge(f: Fused, a: ArtifactReport): (m: (Fused, ArtifactReport))
    ensures Averaged(m.0) && m.0.report.id == f.report.id + "_" + m.1.id
    ensures m.1 in m.0.originals && (HasOriginal(f.originals, a.id) ==> m.0.originals == f.originals)
    ensures !HasOriginal(f.originals, a.id) ==> m.0.originals == f.originals + [a] && m.1 == a
  {
    var os := if HasOriginal(f.originals, a.id) then f.originals else f.originals + [a];
    var last := os[|os| - 1];
    var id := f.report.id + "_" + last.id;
    var art := f.report.artifact.(artifactId := id, position := Mean(Positions(os)),
                                  objProb := ProbSum(os) / |os| as real);
    (Fused(f.report.(id := id, artifact := art), os), last)
  }

  /** Where the fusion loop stands: the table, the loop variable, whether anything fused, the ids to delete. */
  datatype FuseState = FuseState(fused: seq<Fused>, cur: ArtifactReport, fuse: bool, rem: seq<string>)

  /** One round of the fusion loop, over entry `f` of the snapshot. */
  function FuseStep(st: FuseState, f: Fused, dist: real): FuseState
  {
    if Matches(st.cur, f, dist) then
      var m := Merge(f, st.cur);
      FuseState(Put(st.fused, m.0), m.1, true, st.rem + [f.report.id])
    else st
  }

  /** The fusion loop over the snapshot `snap`. */
  function FuseOver(st: FuseState, snap: seq<Fused>, dist: real): FuseState
  {
    if |snap| == 0 then st else FuseStep(FuseOver(st, snap[..|snap| - 1], dist), snap[|snap| - 1], dist)
  }

  /**
   * fuseArtifact: run the loop over the table as it stood, delete the entries
   * fused into, and, if nothing fused, store the report under its own id as
   * its own single original.
   */
  function Fuse(fs: seq<Fused>, a: ArtifactReport, dist: real): seq<Fused>
  {
    var st := FuseOver(FuseState(fs, a, false, []), fs, dist);
    if st.fuse then RemoveAll(st.fused, st.rem) else Put(st.fused, Fused(a, [a]))
  }

  lemma {:induction false} FuseOverUnmatched(st: FuseState, snap: seq<Fused>, dist: real)
    requires forall f :: f in snap ==> !Matches(st.cur, f, dist)
    ensures FuseOver(st, snap, dist) == st
    decreases |snap|
  {
    if |snap| > 0 {
      assert forall f :: f in snap[..|snap| - 1] ==> f in snap;
      FuseOverUnmatched(st, snap[..|snap| - 1], dist);
    }
  }

  /** A loop that fuses nothing leaves everything as it was, the deletion list included. */
  lemma {:induction false} FuseOverQuiet(st: FuseState, snap: seq<Fused>, dist: real)
    ensures !FuseOver(st, snap, dist).fuse ==> FuseOver(st, snap, dist) == st
    decreases |snap|
  {
    if |snap| > 0 {
      FuseOverQuiet(st, snap[..|snap| - 1], dist);
    }
  }

  /** The loop keeps every entry averaged and the ids distinct, and never clears the fused flag. */
  lemma {:induction false} FuseOverKeeps(st: FuseState, snap: seq<Fused>, dist: real)
    requires DistinctIds(st.fused) && forall f :: f in st.fused ==> Averaged(f)
    ensures var r := FuseOver(st, snap, dist);
      DistinctIds(r.fused) && (forall f :: f in r.fused ==> Averaged(f)) && (st.fuse ==> r.fuse) &&
      (!r.fuse ==> r == st)
    decreases |snap|
  {
    if |snap| > 0 {
      FuseOverKeeps(st, snap[..|snap| - 1], dist);
    }
  }

  /** Fusing keeps the table's invariant: distinct ids, every entry at the mean of its originals. */
  lemma FuseKeeps(fs: seq<Fused>, a: ArtifactReport, dist: real)
    requires DistinctIds(fs) && forall f :: f in fs ==> Averaged(f)
    ensures var r := Fuse(fs, a, dist);
      DistinctIds(r) && forall f :: f in r ==> Averaged(f)
  {
    var st := FuseState(fs, a, false, []);
    FuseOverKeeps(st, fs, dist);
    if !FuseOver(st, fs, dist).fuse {
      SingleAveraged(a);
    }
  }

  /** A report that matches no entry is added under its own id, as its own single original; nothing else changes. */
  lemma FuseUnmatched(fs: seq<Fused>, a: ArtifactReport, dist: real)
    requires forall f :: f in fs ==> !Matches(a, f, dist)
    ensures Fuse(fs, a, dist) == Put(fs, Fused(a, [a]))
  {
    FuseOverUnmatched(FuseState(fs, a, false, []), fs, dist);
  }

  /** Every entry the report was fused into is gone from the table. */
  lemma FuseRemoves(fs: seq<Fused>, a: ArtifactReport, dist: real)
    requires DistinctIds(fs) && forall f :: f in fs ==> Averaged(f)
    ensures forall id :: id in FuseOver(FuseState(fs, a, false, []), fs, dist).rem ==> id !in Keys(Fuse(fs, a, dist))
  {
    var st := FuseState(fs, a, false, []);
    FuseOverKeeps(st, fs, dist);
    var o := FuseOver(st, fs, dist);
    if o.fuse {
      assert forall g :: g in Fuse(fs, a, dist) ==> g.report.id !in o.rem;
    }
  }

  /** A report alone is at its own position, with its own probability. */
  lemma SingleAveraged(a: ArtifactReport)
    ensures Averaged(Fused(a, [a]))
  {
    var p := a.artifact.position;
    assert [a][..0] == [];
    assert Positions([a]) == seq(1, _ => p);
    MeanRepeated(p, 1);
  }

  /**
   * The reused loop variable as it shows: fusing a report that is already one
   * of an entry's originals, but not its last, names the new entry after the
   * last original instead of the report.
   */
  lemma ShadowedSuffix(a: ArtifactReport, o: ArtifactReport, f: Fused, dist: real)
    requires f.originals == [a, o] && o.id != a.id && Matches(a, f, dist)
    ensures Keys(Fuse([f], a, dist)) == {f.report.id + "_" + o.id}
    ensures f.report.id + "_" + a.id !in Keys(Fuse([f], a, dist))
  {
    assert HasOriginal(f.originals, a.id) by {
      assert a in f.originals;
    }
    var m := Merge(f, a);
    assert m.1 == o;
    OneEntryFuse(f, a, dist);
    var r := Fuse([f], a, dist);
    assert m.0 in r && forall g :: g in r ==> g == m.0;
    assert Keys(r) == {m.0.report.id};
    assert (f.report.id + "_" + a.id)[|f.report.id| + 1..] == a.id;
    assert (f.report.id + "_" + o.id)[|f.report.id| + 1..] == o.id;
  }

  /** Fusing into a one-entry table that matches: the entry is replaced by the merged one. */
  lemma OneEntryFuse(f: Fused, a: ArtifactReport, dist: real)
    requires Matches(a, f, dist)
    ensures var m := Merge(f, a);
      m.0 in Fuse([f], a, dist) && forall g :: g in Fuse([f], a, dist) ==> g == m.0
  {
    var st0 := FuseState([f], a, false, []);
    var m := Merge(f, a);
    assert [f][..0] == [];
    assert FuseOver(st0, [], dist) == st0;
    assert FuseOver(st0, [f], dist) == FuseState(Put([f], m.0), m.1, true, [f.report.id]);
    assert m.0.report.id != f.report.id by {
      assert |m.0.report.id| > |f.report.id|;
    }
    var r := Fuse([f], a, dist);
    assert r == RemoveAll(Put([f], m.0), [f.report.id]);
    forall g | g in r ensures g == m.0 {
      assert g == m.0 || g == f;
    }
  }

  // ---------------------------------------------------------------------------
  // Scores and reports

  /** The artifacts reportArtifacts publishes: those of the entries not yet scored, in table order. */
  function Unreported(fs: seq<Fused>): (r: seq<Artifact>)
    ensures |r| <= |fs|
  {
    if |fs| == 0 then []
    else
      var last := fs[|fs| - 1];
      Unreported(fs[..|fs| - 1]) + if last.report.reported then [] else [last.report.artifact]
  }

  /** What is published is exactly the artifacts of the entries not yet scored. */
  lemma {:induction false} UnreportedMeaning(fs: seq<Fused>)
    ensures forall f :: f in fs && !f.report.reported ==> f.report.artifact in Unreported(fs)
    ensures forall x :: x in Unreported(fs) ==> exists f :: f in fs && !f.report.reported && f.report.artifact == x
    decreases |fs|
  {
    if |fs| > 0 {
      var n := |fs| - 1;
      UnreportedMeaning(fs[..n]);
      assert forall f :: f in fs <==> f in fs[..n] || f == fs[n];
    }
  }

  /** A score for entry `k`: scored and reported, its artifact untouched. */
  function Scored(f: Fused, score: int): Fused
  {
    f.(report := f.report.(score := score, reported := true))
  }

  /** A score touches neither the id, the artifact nor the originals, so the table's invariant stays. */
  lemma ScoredKeeps(fs: seq<Fused>, k: nat, score: int)
    requires k < |fs| && DistinctIds(fs) && forall f :: f in fs ==> Averaged(f)
    ensures var r := fs[k := Scored(fs[k], score)];
      DistinctIds(r) && forall f :: f in r ==> Averaged(f)
  {
    var r := fs[k := Scored(fs[k], score)];
    assert forall i :: 0 <= i < |r| ==> r[i].report.id == fs[i].report.id;
    forall g | g in r ensures Averaged(g) {
      var i :| 0 <= i < |r| && r[i] == g;
      assert Averaged(fs[i]);
      assert g.originals == fs[i].originals && g.report.artifact == fs[i].report.artifact;
    }
  }

  /** Scoring an unscored entry takes exactly one artifact off what is published. */
  lemma {:induction false} ScoreStopsReport(fs: seq<Fused>, k: nat, score: int)
    requires k < |fs|
    ensures |Unreported(fs[k := Scored(fs[k], score)])| ==
            |Unreported(fs)| - if fs[k].report.reported then 0 else 1
    decreases |fs|
  {
    var n := |fs| - 1;
    assert fs[k := Scored(fs[k], score)][..n] == if k < n then fs[..n][k := Scored(fs[k], score)] else fs[..n];
    if k < n {
      ScoreStopsReport(fs[..n], k, score);
    }
  }

  /** The base artifact list: each neighbour's id with the hash the base holds for it, in order. */
  function Summaries(ns: seq<Agent>): (r: seq<AgentArtifact>)
    reads set i | 0 <= i < |ns| :: ns[i]`lastArtifact
    ensures |r| == |ns| && forall i :: 0 <= i < |ns| ==> r[i] == AgentArtifact(ns[i].id, ns[i].lastArtifact)
  {
    if |ns| == 0 then []
    else Summaries(ns[..|ns| - 1]) + [AgentArtifact(ns[|ns| - 1].id, ns[|ns| - 1].lastArtifact)]
  }

  /**
   * A robot reading the base artifact list finds the hash the base holds for
   * it: with distinct ids, the first entry with a neighbour's id is that
   * neighbour's. Together with Base.UpdateArtifacts this closes the report
   * acknowledgement.
   */
  lemma SummaryFound(ns: seq<Agent>, k: nat)
    requires k < |ns| && forall i, j :: 0 <= i < j < |ns| ==> ns[i].id != ns[j].id
    ensures FirstArtifactOf(Summaries(ns), ns[k].id) == Some(ns[k].lastArtifact)
  {
    var s := Summaries(ns);
    assert s[k].id == ns[k].id;
    var r := FirstArtifactOf(s, ns[k].id);
    var i :| 0 <= i < |s| && s[i].id == ns[k].id && r.value == s[i].lastArtifact &&
             forall j :: 0 <= j < i ==> s[j].id != ns[k].id;
    assert i == k;
  }

  /** The loop of buildBaseArtifacts: one entry per neighbour, in order. */
  method Summarize(ns: seq<Agent>) returns (list: seq<AgentArtifact>)
    ensures list == Summaries(ns)
  {
    list := [];
    var i := 0;
    while i < |ns|
      invariant 0 <= i <= |ns|
      invariant list == Summaries(ns[..i])
    {
      assert ns[..i + 1][..i] == ns[..i];
      list := list + [AgentArtifact(ns[i].id, ns[i].lastArtifact)];
      i := i + 1;
    }
    assert ns[..i] == ns;
  }

  // ---------------------------------------------------------------------------
  // The base station node

  class BaseStation {
    const node: Node
    const fuseDist: real
    var fused: seq<Fused>

    /** The fused table's invariant. */
    predicate Valid()
      reads this`fused
    {
      DistinctIds(fused) && forall f :: f in fused ==> Averaged(f)
    }

    /** __init__: a base node with an empty fused table. */
    constructor(n: Node, dist: real)
      requires n.kind == "base"
      ensures Valid() && node == n && fuseDist == dist && fused == []
    {
      node, fuseDist, fused := n, dist, [];
    }

    /** GetArtifactScore: the scored entry is marked reported with its score; the table is otherwise untouched. */
    method GetArtifactScore(aid: string, score: int)
      requires Valid() && aid in Keys(fused)
      modifies this`fused
      ensures Valid()
      ensures var k := FusedIndex(old(fused), aid).value;
        fused == old(fused)[k := Scored(old(fused)[k], score)] &&
        |Unreported(fused)| == |Unreported(old(fused))| - if old(fused)[k].report.reported then 0 else 1
    {
      var k := FusedIndex(fused, aid).value;
      ScoreStopsReport(fused, k, score);
      ScoredKeeps(fused, k, score);
      fused := fused[k := Scored(fused[k], score)];
    }

    /** AddRobotReceiver: an unknown robot gets a fresh record; a known one is left as it is. */
    method AddRobotReceiver(nid: string, now: int)
      requires node.Valid() && nid != node.id
      modifies node`neighbors
      ensures node.Valid()
      ensures AgentIndex(old(node.neighbors), nid).Some? ==> node.neighbors == old(node.neighbors)
      ensures AgentIndex(old(node.neighbors), nid).None? ==>
        |node.neighbors| == |old(node.neighbors)| + 1 && node.neighbors[..|old(node.neighbors)|] == old(node.neighbors) &&
        fresh(node.neighbors[|old(node.neighbors)|]) && node.neighbors[|old(node.neighbors)|].id == nid
    {
      if AgentIndex(node.neighbors, nid).None? {
        var n := node.AddRobot(nid, now);
      }
    }

    /** GuiTaskNameReceiver: the task name and the GUI stamp, nothing else. */
    method GuiTaskNameReceiver(n: Agent, name: string, now: int)
      modifies n`guiStamp, n`guiTaskName
      ensures n.guiTaskName == name && n.guiStamp == now
    {
      n.guiStamp := now;
      n.guiTaskName := name;
    }

    /** GuiTaskValueReceiver: the task value and the GUI stamp, nothing else. */
    method GuiTaskValueReceiver(n: Agent, value: string, now: int)
      modifies n`guiStamp, n`guiTaskValue
      ensures n.guiTaskValue == value && n.guiStamp == now
    {
      n.guiStamp := now;
      n.guiTaskValue := value;
    }

    /**
     * GuiGoalReceiver: a goal at x = y = 0 is a GUI glitch and is dropped;
     * any other becomes the robot's goal point under the next sequence
     * number, with the task set to go there.
     */
    method GuiGoalReceiver(n: Agent, goal: Point, now: int)
      modifies n`guiStamp, n`guiGoalPoint, n`guiTaskName, n`guiTaskValue
      ensures goal.x == 0.0 && goal.y == 0.0 ==>
        n.guiStamp == old(n.guiStamp) && n.guiGoalPoint == old(n.guiGoalPoint) &&
        n.guiTaskName == old(n.guiTaskName) && n.guiTaskValue == old(n.guiTaskValue)
      ensures goal.x != 0.0 || goal.y != 0.0 ==>
        n.guiStamp == now && n.guiGoalPoint == GoalPoint(old(n.guiGoalPoint.seqNo) + 1, goal) &&
        n.guiTaskName == "task" && n.guiTaskValue == "Goal"
    {
      if goal.x != 0.0 || goal.y != 0.0 {
        n.guiStamp := now;
        n.guiGoalPoint := GoalPoint(n.guiGoalPoint.seqNo + 1, goal);
        n.guiTaskName := "task";
        n.guiTaskValue := "Goal";
      }
    }

    /**
     * GuiResetReceiver: only a reset naming this robot counts. A newer one
     * meant for the robots alone is stored for them to act on; any other goes
     * through the reset check of the base itself.
     */
    method GuiResetReceiver(n: Agent, data: Reset, now: int)
      requires node.Valid() && n in node.neighbors
      modifies node.neighbors, node.base`lastArtifact, node`artifacts
      ensures data.agent != n.id ==>
        node.artifacts == old(node.artifacts) && forall i :: 0 <= i < |node.neighbors| ==> unchanged(node.neighbors[i])
      ensures data.agent == n.id && !data.base && data.robots && data.stamp > old(n.resetStamp) ==>
        n.reset == data && n.guiStamp == now && node.artifacts == old(node.artifacts) &&
        forall i :: 0 <= i < |node.neighbors| && node.neighbors[i] != n ==> unchanged(node.neighbors[i])
      ensures data.agent == n.id && !(!data.base && data.robots && data.stamp > old(n.resetStamp)) ==>
        (old(node.Acts(data)) ==> node.ResetEffect(n, data, now)) &&
        (!old(node.Acts(data)) ==> node.artifacts == old(node.artifacts) &&
                                   forall i :: 0 <= i < |node.neighbors| ==> unchanged(node.neighbors[i]))
      ensures forall i :: 0 <= i < |node.neighbors| && node.neighbors[i].id != data.agent ==>
        unchanged(node.neighbors[i])
    {
      if data.agent == n.id {
        if !data.base && data.robots && data.stamp > n.resetStamp {
          n.guiStamp := now;
          n.reset := data;
        } else {
          node.ResetDataCheck(data, now);
        }
      }
    }

    /** buildBaseArtifacts: the base artifact list is rebuilt from the neighbours and the update flag cleared. */
    method BuildBaseArtifacts(now: int)
      modifies node.base`baseStamp, node.base`baseArtifacts, node`artifactsUpdated
      ensures node.base.baseStamp == now && !node.artifactsUpdated
      ensures node.base.baseArtifacts == Summaries(node.neighbors)
    {
      node.base.baseStamp := now;
      var list := Summarize(node.neighbors);
      node.base.baseArtifacts := list;
      node.artifactsUpdated := false;
    }

    /** The rebuild step of run: only when the artifact check changed something. */
    method RebuildIfUpdated(now: int)
      modifies node.base`baseStamp, node.base`baseArtifacts, node`artifactsUpdated
      ensures !node.artifactsUpdated
      ensures old(node.artifactsUpdated) ==>
        node.base.baseStamp == now && |node.base.baseArtifacts| == |node.neighbors| &&
        forall i :: 0 <= i < |node.neighbors| ==>
          node.base.baseArtifacts[i] == AgentArtifact(node.neighbors[i].id, node.neighbors[i].lastArtifact)
      ensures !old(node.artifactsUpdated) ==>
        node.base.baseStamp == old(node.base.baseStamp) && node.base.baseArtifacts == old(node.base.baseArtifacts)
    {
      if node.artifactsUpdated {
        BuildBaseArtifacts(now);
      }
    }

    /** fuseArtifact: fuse one new report into the table, keeping its invariant. */
    method FuseArtifact(a: ArtifactReport)
      requires Valid()
      modifies this`fused
      ensures Valid() && fused == Fuse(old(fused), a, fuseDist)
    {
      FuseKeeps(fused, a, fuseDist);
      fused := FuseInto(fused, a, fuseDist);
    }

    /** The fusion of each report the artifact check handed over, in order. */
    method FuseAll(reports: seq<ArtifactReport>)
      requires Valid()
      modifies this`fused
      ensures Valid() && fused == FuseEach(old(fused), reports, fuseDist)
    {
      var i := 0;
      while i < |reports|
        invariant 0 <= i <= |reports|
        invariant Valid() && fused == FuseEach(old(fused), reports[..i], fuseDist)
      {
        assert reports[..i + 1][..i] == reports[..i];
        FuseArtifact(reports[i]);
        i := i + 1;
      }
      assert reports[..i] == reports;
    }

    /**
     * What the artifact part of run leaves behind: the reports to fuse, the
     * node's reports and report flag are those of the artifact check of every
     * neighbour in order (CheckNeighbors); when that check changed anything
     * the base artifact list is rebuilt from the neighbours at `now`,
     * otherwise it is kept.
     */
    twostate predicate ArtifactRound(now: int, toFuse: seq<ArtifactReport>)
      reads node`neighbors, node`artifacts, node`report, node.base`baseStamp, node.base`baseArtifacts
      reads set i | 0 <= i < |node.neighbors| :: node.neighbors[i]`lastArtifact
    {
      var r := CheckNeighbors(old(node.BaseScene(now)), old(Ids(node.neighbors)), node.id,
                              old(NewArtifactLists(node.neighbors)),
                              Sweep(old(node.artifacts), old(node.report), old(node.artifactsUpdated), []));
      toFuse == r.fuse && node.artifacts == r.artifacts && node.report == r.report &&
      (r.updated ==> node.base.baseStamp == now && |node.base.baseArtifacts| == |node.neighbors| &&
                     forall i :: 0 <= i < |node.neighbors| ==>
                       node.base.baseArtifacts[i] == AgentArtifact(node.neighbors[i].id, node.neighbors[i].lastArtifact)) &&
      (!r.updated ==> node.base.baseStamp == old(node.base.baseStamp) &&
                      node.base.baseArtifacts == old(node.base.baseArtifacts))
    }

    /**
     * The artifact part of run: the artifact check of every neighbour, then
     * the base artifact list rebuilt when anything changed.
     */
    method CheckArtifacts(now: int) returns (toFuse: seq<ArtifactReport>)
      modifies node`artifacts, node`report, node`artifactsUpdated
      modifies node.neighbors`checkArtifacts, node.neighbors`numArtifacts, node.neighbors`lastArtifact
      modifies node.base`baseStamp, node.base`baseArtifacts
      ensures ArtifactRound(now, toFuse)
      ensures !node.artifactsUpdated
    {
      ghost var r := CheckNeighbors(node.BaseScene(now), Ids(node.neighbors), node.id, NewArtifactLists(node.neighbors),
                                    Sweep(node.artifacts, node.report, node.artifactsUpdated, []));
      toFuse := node.UpdateArtifacts(now);
      assert toFuse == r.fuse && node.artifacts == r.artifacts && node.report == r.report &&
             node.artifactsUpdated == r.updated;
      RebuildIfUpdated(now);
    }

    /**
     * run: the artifact check of every neighbour, each new report fused in
     * order; the base artifact list rebuilt when anything changed; then the
     * unscored fused artifacts published. The source fuses each report as it
     * is taken in; the table is touched by nothing else in that check, so
     * fusing once the check is over, in the same order, leaves the same table.
     */
    method Run(now: int) returns (toFuse: seq<ArtifactReport>, published: seq<Artifact>)
      requires Valid()
      modifies this`fused, node`artifacts, node`report, node`artifactsUpdated
      modifies node.neighbors`checkArtifacts, node.neighbors`numArtifacts, node.neighbors`lastArtifact
      modifies node.base`baseStamp, node.base`baseArtifacts
      ensures ArtifactRound(now, toFuse)
      ensures Valid() && fused == FuseEach(old(fused), toFuse, fuseDist)
      ensures !node.artifactsUpdated && published == Unreported(fused)
    {
      toFuse := CheckArtifacts(now);
      published := FuseAndReport(toFuse);
    }

    /** The rest of run: fuse the reports in order, then publish the unscored fused artifacts. */
    method FuseAndReport(toFuse: seq<ArtifactReport>) returns (published: seq<Artifact>)
      requires Valid()
      modifies this`fused
      ensures Valid() && fused == FuseEach(old(fused), toFuse, fuseDist)
      ensures published == Unreported(fused)
    {
      FuseAll(toFuse);
      published := ReportArtifacts();
    }

    /** reportArtifacts: publish every fused artifact not yet scored. */
    method ReportArtifacts() returns (published: seq<Artifact>)
      ensures published == Unreported(fused)
    {
      published := [];
      var i := 0;
      while i < |fused|
        invariant 0 <= i <= |fused|
        invariant published == Unreported(fused[..i])
      {
        assert fused[..i + 1][..i] == fused[..i];
        if !fused[i].report.reported {
          published := published + [fused[i].report.artifact];
        }
        i := i + 1;
      }
      assert fused[..i] == fused;
    }
  }

  /** The fusion loop of fuseArtifact over the table as it stood. */
  method FuseLoop(fs: seq<Fused>, a: ArtifactReport, dist: real) returns (st: FuseState)
    ensures st == FuseOver(FuseState(fs, a, false, []), fs, dist)
  {
    st := FuseState(fs, a, false, []);
    var i := 0;
    while i < |fs|
      invariant 0 <= i <= |fs|
      invariant st == FuseOver(FuseState(fs, a, false, []), fs[..i], dist)
    {
      assert fs[..i + 1][..i] == fs[..i];
      var f := fs[i];
      if Matches(st.cur, f, dist) {
        var m := Merge(f, st.cur);
        st := FuseState(Put(st.fused, m.0), m.1, true, st.rem + [f.report.id]);
      }
      i := i + 1;
    }
    assert fs[..i] == fs;
  }

  /** fuseArtifact on the table as a value: the loop, the deletions, and the new entry if nothing fused. */
  method FuseInto(fs: seq<Fused>, a: ArtifactReport, dist: real) returns (r: seq<Fused>)
    ensures r == Fuse(fs, a, dist)
  {
    var st := FuseLoop(fs, a, dist);
    FuseOverQuiet(FuseState(fs, a, false, []), fs, dist);
    r := DeleteFused(st.fused, st.rem);
    if !st.fuse {
      r := Put(r, Fused(a, [a]));
    }
  }

  /** The deletion loop of fuseArtifact. */
  method DeleteFused(fs: seq<Fused>, rem: seq<string>) returns (r: seq<Fused>)
    ensures r == RemoveAll(fs, rem)
  {
    r := fs;
    var j := 0;
    while j < |rem|
      invariant 0 <= j <= |rem|
      invariant r == RemoveAll(fs, rem[..j])
    {
      assert rem[..j + 1][..j] == rem[..j];
      r := Remove(r, rem[j]);
      j := j + 1;
    }
    assert rem[..j] == rem;
  }

  /** Every report in `reports` fused in order. */
  function FuseEach(fs: seq<Fused>, reports: seq<ArtifactReport>, dist: real): seq<Fused>
  {
    if |reports| == 0 then fs else Fuse(FuseEach(fs, reports[..|reports| - 1], dist), reports[|reports| - 1], dist)
  }

  /** Fusing any number of reports keeps the table's invariant. */
  lemma {:induction false} FuseEachKeeps(fs: seq<Fused>, reports: seq<ArtifactReport>, dist: real)
    requires DistinctIds(fs) && forall f :: f in fs ==> Averaged(f)
    ensures var r := FuseEach(fs, reports, dist);
      DistinctIds(r) && forall f :: f in r ==> Averaged(f)
    decreases |reports|
  {
    if |reports| > 0 {
      FuseEachKeeps(fs, reports[..|reports| - 1], dist);
      FuseKeeps(FuseEach(fs, reports[..|reports| - 1], dist), reports[|reports| - 1], dist);
    }
  }
}
