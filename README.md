# bobcat decision layer in Dafny

This project models the decision layer of bobcat, the coordinator that runs on each robot of a
multi-robot exploration team working under intermittent communication. Once per control cycle the
coordinator turns the robot's pose history, its relay beacons, its comm status, its neighbours'
messages and operator (GUI) commands into four outputs:

- an operating mode (Explore, Home, Stop, Goal, Deploy, Report);
- a chosen goal;
- a relay-beacon drop decision;
- a goal blacklist.

Around that sits the bookkeeping it reads: the agent, beacon and artifact registries, the base
station's artifact fusion, the map-diff lookup service and the objective weights.

The repository holds two generations of the coordinator, and both are modelled:

- **BOBCAT.** `BOBCAT.py` is the data node, with `containers.py`, `monitors.py`, `actions.py`,
  `behaviors.py`, `robot.py`, `base.py`, `objectives.py` and `get_map_diffs.py`. In Python these
  are mixins of one object. Here each file is a module whose class owns the fields that file's
  `__init__` creates:
  - `Bobcat.Node`
  - `Containers.Agent` and `Containers.Base`
  - `Monitors.Monitors`
  - `Actions.Actions`
  - `RobotNode.Robot`
  - `BaseStation.BaseStation`
  - `MapDiffService.MapDiffs`
  - `Objectives.Objective`

  A write to another file's field goes through a `const` reference, with a field-by-field
  `modifies` frame. `behaviors.py` repeats robot.py's `deployBeacon` and `deconflictExplore`, so
  it is modelled once, in `Behaviors`, and `RobotNode` uses it.
- **multi_agent.** The older generation: `multi_agent.py` and the `ma_robot.py`, `ma_base.py` and
  `ma_beacon.py` nodes built on it (modules `MultiAgentNode`, `MARobotNode`, `MABaseNode` and
  `MABeaconNode`). These files were written against different versions of their parent classes:
  - `ma_robot.py` reads members `multi_agent.py` does not define (the goal list,
    `deconflictRadius`, `stopCheck` and others). `MARobotNode.MARobot` therefore holds those
    members itself, over a `MultiAgent` node. The neighbours' current goals, which it reads from
    `neighbor.goal`, are the input `rivals`.
  - `ma_base.py` calls `addNeighbor`, `resetDataCheck` and `updateArtifacts`, which only
    `BOBCAT.py` defines, so `MABaseNode.MABase` is modelled over `Bobcat.Node`.

Conventions used throughout:
- Positions are real coordinates. Every distance test compares squared distances: `Closer(a, b, r)`
  is `getDist(a, b) < r`, and `Farther` is `>`. The planar `getDist2D` ignores z.
- ROS time is an integer parameter `now`.
- The interpreter is Python 3.7 or later. A Python dictionary is a sequence of records in insertion
  order, which is the order its `values()` loop visits. The one loop that adds to the dictionary it
  walks, the base station's fusion, is listed under "Left out".
- A Python `False`/`None` string field is `""`.
- An MD5 fingerprint of an artifact list is `DigestOf(list)`, and the empty fingerprint is
  `NoDigest`. Only the equality of fingerprints matters, and MD5 is taken to be collision-free.
- The multi_agent key of an artifact is the concatenated text of its coordinates. It is the
  parameter `keyOf`, which may map two positions to one key, as the Python text can.
- A pose carries its yaw as a whole number of degrees. The quaternion conversion (`getYaw`,
  `math.degrees`) happens before the model sees the pose.
- The corner test of the beacon checks, built on `averagePose`, is the boolean input `turned`.
- Every method with a loop is proved against a specification function of its inputs. The
  properties the code promises are lemmas about those functions, or invariants its methods keep.

Two behaviours of the code that shape the model:
- Deconfliction candidates that are all blacklisted empty the blacklist (actions.py), so
  blacklist points can be removed.
- The neighbour count of `run` counts a neighbour heard within 30 comm thresholds. Goal deconfliction
  in actions.py uses a fixed window instead: it ignores a neighbour not heard for more than 15 seconds
  (actions.py:308, 360).

## Model

| member | source | states |
|---|---|---|
| Helpers.DistSq | src/util/helpers.py:9-10 | the squared 3-D distance is non-negative and zero between equal points |
| Helpers.DistSq2D | src/util/helpers.py:13-14 | the squared planar distance ignores height: non-negative and never more than the 3-D one |
| Helpers.DistanceMeaning | src/util/helpers.py:9-10 | for the Euclidean distance d, the squared comparisons Closer/Farther hold exactly when d < r / d > r |
| Helpers.DistSymmetric | src/util/helpers.py:9-10 | the distance is symmetric, so "within r" is too, for every r |
| Helpers.AngleDiff | src/util/helpers.py:85-92 | the difference lies in [-180, 180) and is congruent to a - b modulo 360 |
| Helpers.AngleDiffUnique | src/util/helpers.py:85-92 | it is the only angle in [-180, 180) congruent to a - b |
| Helpers.AngleDiffPeriodic | src/util/helpers.py:85-92 | adding whole turns to the first angle leaves the difference unchanged |
| Helpers.AngleDiffAntisymmetric | src/util/helpers.py:85-92 | swapping the arguments negates the difference, except at -180 |
| Helpers.AveragePosition | src/util/helpers.py:71-82 | the one-pass accumulation and division give the centroid of the non-empty list |
| Helpers.MeanRepeated | src/util/helpers.py:71-82 | the centroid of copies of one point is that point |
| Containers.StripImages | src/containers.py:172-174 | same length; every artifact kept with only its image payload emptied |
| Containers.DecompressAt | src/containers.py:178-195 | a list of 3n numbers decodes to n poses, pose k being 0.1 times triple k |
| Containers.DecompressAppend | src/containers.py:178-195 | decoding whole triples distributes over concatenation |
| Containers.DecompressPath | src/containers.py:178-195 | the index loop builds exactly the decoded path, one pose per triple |
| Containers.AddRangeContents | src/containers.py:107-111 | the missing-diff ledger keeps its prefix, gains exactly the indices of the range, and gains no duplicate |
| Containers.ImageLedgerContents | src/containers.py:114-121 | both image lists only grow; an id joins them iff it is announced with an image and is in neither; neither gains a duplicate |
| Containers.RemoveFirst | src/BOBCAT.py:572-573 | removing an absent element changes nothing |
| Containers.RemoveFirstNoDuplicates | src/BOBCAT.py:572-573 | in a duplicate-free list, removal deletes exactly that element and keeps the list duplicate-free |
| Containers.FirstDiffIndex | src/BOBCAT.py:468-472 | None iff no diff has that sequence number; otherwise the first that has it |
| Containers.FindDiff | src/BOBCAT.py:468-472 | the scan with break finds exactly FirstDiffIndex |
| Containers.RemoveDiffKeeps | src/BOBCAT.py:473-474 | one deletion removes at most one diff, and keeps every diff with another number |
| Containers.RemoveDiffsShrinks | src/BOBCAT.py:466-474 | deleting a list of numbers removes at most one diff per number and keeps every diff whose number is not listed |
| Containers.SeqNos | src/util/helpers.py:95-96 | the sequence number of each diff, in order |
| Containers.RemoveEachContents | src/BOBCAT.py:571-573 | after the received diffs, a duplicate-free ledger lists exactly its old numbers that were not received |
| Containers.RemoveEachStep | src/BOBCAT.py:567-573 | one more received diff strikes its number off the ledger as list.remove does |
| Containers.DropReceived | src/BOBCAT.py:567-573 | the loop over received diffs leaves the ledger RemoveEach describes |
| Containers.FirstNamed | src/BOBCAT.py:583-585 | None iff no artifact has that id; otherwise the first that has it |
| Containers.AttachImage | src/BOBCAT.py:583-588 | an id naming no artifact attaches nothing |
| Containers.AttachImageKeeps | src/BOBCAT.py:583-588 | attaching an image changes no id, and no artifact of another id |
| Containers.AttachImagesNames | src/BOBCAT.py:577-588 | attaching images never changes which ids the list names |
| Containers.AttachImagesNone | src/BOBCAT.py:577-588 | images naming no artifact of the list leave it unchanged |
| Containers.AttachImagesAppend | src/BOBCAT.py:577-588 | attaching two image lists in turn is attaching their concatenation |
| Containers.NamesAnyAppend | src/BOBCAT.py:577-588 | a concatenation names an artifact iff one of its parts does |
| Containers.RemoveEachAppend | src/BOBCAT.py:590-592 | striking two lists off in turn is striking their concatenation |
| Containers.AttachTwice | src/BOBCAT.py:577-588 | two rounds of images equal one round of both, and a second round naming nothing adds nothing |
| Containers.DeliverLedgers | src/BOBCAT.py:564-593 | after a delivery both ledgers stay duplicate-free, list exactly what was missing and not received, and the diff count follows the appended diffs |
| Containers.DeliverNothing | src/BOBCAT.py:564-593 | delivering nothing changes nothing |
| Containers.DeliverTwice | src/BOBCAT.py:564-593 | two deliveries in turn are one delivery of everything, in order |
| Containers.Agent.constructor | src/containers.py:24-40 | ids and type as given, no reset, heard now, in comm, and initialised with zero reset time and empty maps |
| Containers.Agent.ClearGui | src/containers.py:45-50 | the GUI fields are cleared with the stamp set to now |
| Containers.Agent.ClearPlan | src/containers.py:43-64 | status, pose, explore goal and path, goals and beacon list are cleared |
| Containers.Agent.ClearArtifacts | src/containers.py:65-70 | the artifact lists, image ledgers and hash are cleared |
| Containers.Agent.Initialize | src/containers.py:42-75 | everything learnt is forgotten; resetAgent holds iff the reset time is non-zero |
| Containers.Agent.InitializeMaps | src/containers.py:77-83 | the map part is emptied with the given diff count and clear flag |
| Containers.Agent.GuiUpdate | src/containers.py:149-163 | stamp taken; task only when both parts are set; goal point only for a greater sequence; reset only for a greater stamp; sequence and stamp never decrease |
| Containers.Agent.UpdatePlan | src/containers.py:86-104 | status and pose copied; new artifacts only if non-empty; goal path decoded and goal pose its last pose when there is one |
| Containers.Agent.UpdateMissingDiffs | src/containers.py:106-111 | the ledger grows by the announced range and the count is taken exactly when not cleared, not ignored and larger; otherwise nothing changes |
| Containers.Agent.UpdateImages | src/containers.py:113-121 | the image lists become the ImageLedger of the announced artifacts |
| Containers.Agent.UpdateCommon | src/containers.py:85-125 | the plan, missing-diff and image updates, and the GUI update only for a newer GUI stamp |
| Containers.Agent.UpdateTrack | src/containers.py:85-121 | status and pose from the message, new artifacts only when the message carries some, goal cost and decompressed path with the pose at its end, the diff ledger grown only when announced, and the image ledger |
| Containers.Agent.Update | src/containers.py:127-147 | a message older than a pending reset changes nothing; otherwise the reset wait ends and the direct or relayed fields are set as the updater says |
| Containers.Agent.Accept | src/containers.py:135-147 | direct: cid, comm flag, both stamps and beacon list from the message; relayed: cid and stamp from the message, out of comm, direct stamp kept |
| Containers.Agent.AcceptDirect | src/containers.py:136-142 | from the sender itself: cid is the receiver, in comm, both stamps and the beacon list from the message, and the common updates |
| Containers.Agent.AcceptRelayed | src/containers.py:143-147 | a relayed record: the common updates, then cid and stamp from the message and out of comm |
| Containers.Agent.MarkDirect | src/containers.py:136-141 | the direct-contact fields are set from the message and now |
| Containers.Agent.MarkRelayed | src/containers.py:145-147 | the relayed fields are set from the message, out of comm |
| Containers.Agent.UpdateHash | src/containers.py:170-176 | payloads are stripped unless images are reported, and the digest is of the resulting list |
| Containers.Agent.MarkReset | src/BOBCAT.py:447-448 | the reset stamp and clear flag are those of the order |
| Containers.Agent.StoreReset | src/BOBCAT.py:477-478 | the reset is saved and the GUI stamp set to now |
| Containers.Agent.DeleteDiffs | src/BOBCAT.py:465-474 | the diffs are RemoveDiffs of the listed numbers, and the clear flag is set iff it was or some number was listed |
| Containers.Agent.ReceiveDiffs | src/BOBCAT.py:567-573 | received diffs appended and counted, the update flag set if any, their numbers struck off the ledger |
| Containers.Agent.ReceiveImage | src/BOBCAT.py:577-593 | rehashed iff images are reported and an artifact has that id; then it carries the image and the digest is recomputed; the id leaves the missing-image ledger |
| Containers.Agent.ReceiveImages | src/BOBCAT.py:577-593 | each known image received in turn; rehashed iff images are reported and some id names an artifact |
| Containers.Agent.AddArtifact | src/containers.py:165-168 | the list grows by exactly the artifact and the count by exactly one |
| Containers.FirstArtifactOf | src/containers.py:219-222 | None iff no entry has that id; otherwise the hash of the first that has it |
| Containers.Base.constructor | src/containers.py:201-209 | stamps now, no hash, in comm, empty lists |
| Containers.Base.Update | src/containers.py:211-214 | stamp, direct stamp and beacon list taken from the message |
| Containers.Base.UpdateArtifacts | src/containers.py:216-222 | the list and stamp adopted; the hash taken from the first entry for the agent, kept if none |
| Containers.Base.ResetArtifact | src/containers.py:224-228 | the hash is forgotten iff the base lists that agent |
| Containers.NewBeacon | src/containers.py:234-242 | a beacon record at the origin, not heard, not reachable, not deployed |
| Containers.NewReport | src/containers.py:255-273 | unreported and new; the artifact it holds is the Marked one |
| Containers.Marked | src/containers.py:266-268 | the image is marked 'empty' when it has no data or images are not sent; nothing else about the artifact changes |
| Bobcat.EveryTwentieth | src/BOBCAT.py:277-279 | one pose in twenty, exactly those at indices divisible by 20, in order |
| Bobcat.SubsampledShape | src/BOBCAT.py:272-284 | the subsampled path is empty iff the path is, keeps the first and last pose, takes only poses of the path, and has at most one in twenty plus one |
| Bobcat.Subsample | src/BOBCAT.py:272-284 | the sent goal keeps the pose, carries the subsampled path, and has the message's default cost |
| Bobcat.ClosedGrows | src/BOBCAT.py:342-347 | an agent whose comm check is closed stays closed when more agents are marked reachable |
| Bobcat.UnreachedShrinks | src/BOBCAT.py:342-347 | marking an unreached agent lowers the number of unreached agents, so the recursion ends |
| Bobcat.AbsorbKeys | src/BOBCAT.py:335-337 | the node's own comm check adds exactly the listed ids |
| Bobcat.AbsorbLastWins | src/BOBCAT.py:335-337 | the last entry for an id decides its mark |
| Bobcat.AbsorbKeeps | src/BOBCAT.py:335-337 | an id no entry lists keeps its mark |
| Bobcat.AgentIndex | src/BOBCAT.py:444-445 | None iff no record has that id; otherwise the first that has it |
| Bobcat.BeaconIndex | src/BOBCAT.py:664-667 | None iff no beacon has that id; otherwise the first that has it |
| Bobcat.BeaconsInComm | src/BOBCAT.py:325-326 | every beacon is in comm iff its last direct message is after the check time; nothing else changes |
| Bobcat.BeaconsSimComm | src/BOBCAT.py:357-359 | a beacon-named entry of a known beacon sets its simulated-comm flag; other beacons are unchanged |
| Bobcat.WithoutAgentContents | src/BOBCAT.py:455-456 | deleting an agent's reports keeps exactly the reports of the other agents |
| Bobcat.ReportIndex | src/BOBCAT.py:578-579 | None iff no report's artifact has that id; otherwise the first that has it |
| Bobcat.ReportIndexSameIds | src/BOBCAT.py:577-580 | the report found for an id depends only on the artifact ids |
| Bobcat.SaveImagesKeeps | src/BOBCAT.py:577-580 | saving images changes only the saved-image marks and never unmarks one |
| Bobcat.KnownImagesSameIds | src/BOBCAT.py:577-580 | which images have a report depends only on the artifact ids |
| Bobcat.KnownImagesAppend | src/BOBCAT.py:577-580 | the known images of a concatenation are those of each part, in order |
| Bobcat.SaveImagesAppend | src/BOBCAT.py:577-580 | saving two image lists in turn is saving their concatenation |
| Bobcat.DeliversMeaning | src/BOBCAT.py:563-594 | a response counts as received iff some entry carries a diff or an image whose artifact has a report |
| Bobcat.ResponseStep | src/BOBCAT.py:564-594 | one more entry extends what is carried for its agent and overall, and is received iff it or the earlier ones were |
| Bobcat.DeliverAll | src/BOBCAT.py:564-594 | one record out for each record in |
| Bobcat.DeliverAllNothing | src/BOBCAT.py:564-594 | an empty response changes no record and rehashes nothing |
| Bobcat.DeliverAllStep | src/BOBCAT.py:564-594 | one more entry changes only the record it names, by one delivery, and rehashes iff before or now |
| Bobcat.RequestListContents | src/BOBCAT.py:606-626 | the request lists exactly the neighbours with something missing, each with its ledgers; it is empty iff nothing is missing |
| Bobcat.FirstMissingInComm | src/BOBCAT.py:627-629 | a found id is a neighbour in comm with something missing; "" iff there is none with a non-empty id |
| Bobcat.FirstFreeBeacon | src/BOBCAT.py:638-642 | a found id is a beacon in comm, not the node, not yet asked; "" iff there is none |
| Bobcat.FirstFreePeer | src/BOBCAT.py:645-649 | a found id is a neighbour in comm not yet asked; "" iff there is none |
| Bobcat.ChooseTargetSound | src/BOBCAT.py:627-649 | the target is never the node itself and is in comm; only the first rule may pick an agent already asked |
| Bobcat.ChooseTargetFinds | src/BOBCAT.py:632-649 | somebody is asked whenever some neighbour in comm has not been asked |
| Bobcat.Activate | src/BOBCAT.py:664-667 | one heard entry only activates beacons |
| Bobcat.ActivateAll | src/BOBCAT.py:662-673 | the heard entries only activate beacons, never deactivate one |
| Bobcat.ActivateAllAppend | src/BOBCAT.py:662-673 | applying two entry lists in turn is applying their concatenation |
| Bobcat.ActivateAllActivates | src/BOBCAT.py:662-673 | every beacon an active entry names is active afterwards |
| Bobcat.ActivateAllOnly | src/BOBCAT.py:662-673 | a beacon becomes active only at the position of some active entry naming it |
| Bobcat.ActiveEntries | src/BOBCAT.py:675-685 | the published array lists exactly the active beacons with their positions |
| Bobcat.ActivateEach | src/BOBCAT.py:664-667 | the loop over one entry list computes ActivateAll |
| Bobcat.ListActive | src/BOBCAT.py:676-685 | the loop builds exactly ActiveEntries |
| Bobcat.Entry | src/BOBCAT.py:724-729 | the stored report keeps the artifact's id, class and position, names the agent, and is marked reported iff it is a rope near a robot or beacon |
| Bobcat.CheckOneStep | src/BOBCAT.py:690-729 | one artifact either stores exactly its report or changes nothing; unless a suspect rope, the agent's list gains the report's own artifact, whose image is marked 'empty' when it has no data or images are not sent |
| Bobcat.CheckAllGrows | src/BOBCAT.py:690-729 | stored reports stay as they were |
| Bobcat.CheckAllDistinct | src/BOBCAT.py:692 | report ids stay distinct |
| Bobcat.CheckAllStores | src/BOBCAT.py:690-724 | every artifact with non-zero x and y has a stored report afterwards |
| Bobcat.CheckAllFrom | src/BOBCAT.py:690-724 | every new report comes from an artifact of the list with non-zero x and y |
| Bobcat.CheckAllRope | src/BOBCAT.py:703-729 | a new report is stored as reported exactly when it is an own rope near a robot or beacon |
| Bobcat.CheckAllAdded | src/BOBCAT.py:723-727 | the agent's list grows by exactly the artifacts of the new reports stored unreported, in order, each the artifact its report holds |
| Bobcat.CheckAllFlags | src/BOBCAT.py:695-734 | only the own agent sets report; at the base the hash flag is set iff something new was stored and each new report is fused in order; elsewhere nothing is fused |
| Bobcat.CheckAllOwnFlag | src/BOBCAT.py:697-722 | for the own agent away from the base the hash flag is kept when nothing new is stored, and otherwise is set iff the last new report is not a suspect rope and lies 3 m or more from every earlier report |
| Bobcat.Screen | src/BOBCAT.py:695-721 | an artifact joins the list unless a suspect rope; it is ignored for reporting iff own and near a stored report or a suspect rope |
| Bobcat.TakeIn | src/BOBCAT.py:691-734 | the loop body computes one CheckOne step, says whether the artifact joins the list and returns the artifact the new report holds, which is the one appended |
| Bobcat.SweepStep | src/BOBCAT.py:744-749 | one more neighbour checked extends the sweep |
| Bobcat.CheckNeighborsOffBase | src/BOBCAT.py:744-749 | off the base, checking other agents neither reports, nor marks an update, nor fuses |
| Bobcat.CheckNeighborsAtBase | src/BOBCAT.py:731-749 | at the base, the update flag is set iff a report was stored, and every new report is fused in order |
| Bobcat.AtBaseStep | src/BOBCAT.py:744-749 | one more neighbour checked at the base station keeps every earlier report, leaves the report flag alone, sets the update flag exactly when something was stored and queues each new report for fusion in order |
| Bobcat.NearAnyScan | src/BOBCAT.py:705-717 | the scan answers whether some point is within the radius |
| Bobcat.NearStoredScan | src/BOBCAT.py:699-701 | the scan answers whether a stored report is within 3 m in the plane |
| Bobcat.Node.constructor | src/BOBCAT.py:68-184 | the node's parameters, its own fresh record, empty registries, images reported only if sent, and the beacon count from the carried list |
| Bobcat.Node.AddRobot | src/BOBCAT.py:186-188 | a fresh initialised record replaces the one of that id in place, or is appended |
| Bobcat.Node.AddBeacon | src/BOBCAT.py:189-192 | a fresh beacon record, owned iff carried, replaces the one of that id or is appended |
| Bobcat.Node.CommCheck | src/BOBCAT.py:315-330 | nothing before start plus threshold; afterwards neighbours and beacons are in comm iff heard within the threshold, the base only off the base and not solo |
| Bobcat.LinkReaches | src/BOBCAT.py:342-347 | one in-comm report is a chain |
| Bobcat.ReachesTrans | src/BOBCAT.py:342-347 | chains of in-comm reports compose |
| Bobcat.Node.SimCommChecker | src/BOBCAT.py:333-340 | the own check sets direct reachability (last entry wins); another agent's check is stored whole |
| Bobcat.Node.RecurCommCheck | src/BOBCAT.py:342-347 | marks only go from unreachable to reachable, the node's own entry is untouched, cid and every newly marked agent are closed, and every newly marked agent is reached from cid by a chain of in-comm reports (Reaches) |
| Bobcat.Node.SimCommClosure | src/BOBCAT.py:350-354 | afterwards whatever a reachable agent sees in comm is reachable, marks only grew, the own entry is untouched, and every newly marked agent is reached by a chain of in-comm reports from an agent marked before (ReachedFrom) |
| Bobcat.Node.ApplySimComms | src/BOBCAT.py:356-365 | beacons, neighbours and the base take their simulated-comm flags from the entries as the id tests say |
| Bobcat.Node.SimCommCheck | src/BOBCAT.py:349-365 | the reachable set is the least closed extension: closed, grown only, each new mark reached from an old one; then beacons, neighbours (SetsNeighbor) and the base take their simulated-comm flags from it |
| Bobcat.Node.DropArtifactsOf | src/BOBCAT.py:455-456 | exactly the reports of that agent are deleted |
| Bobcat.Node.ForgetAgent | src/BOBCAT.py:450-456 | the record is initialised with the reset stamp, its reports deleted, and the base hash forgotten if the base lists it |
| Bobcat.Node.ResetMaps | src/BOBCAT.py:458-474 | clear keeps the diff count, reset and hard reset zero it; otherwise the listed diffs are deleted |
| Bobcat.Node.ResetNeighbor | src/BOBCAT.py:445-478 | the whole effect of an accepted reset on that neighbour |
| Bobcat.Node.ResetKeep | src/BOBCAT.py:445-478 | an accepted reset without ma_reset has the whole ResetEffect |
| Bobcat.Node.ResetForget | src/BOBCAT.py:445-478 | an accepted ma_reset has the whole ResetEffect |
| Bobcat.Node.ResetStamps | src/BOBCAT.py:447-478 | stamp, maps and saved reset as resetDataCheck sets them |
| Bobcat.Node.ResetMapsAndStore | src/BOBCAT.py:458-478 | the map part, then the saved reset stamped now |
| Bobcat.Node.ResetDataCheck | src/BOBCAT.py:430-478 | acts only for a named agent, a flag for this node type and a newer stamp; then has ResetEffect on that neighbour; other neighbours untouched |
| Bobcat.Node.FindReport | src/BOBCAT.py:578-579 | the scan finds exactly ReportIndex |
| Bobcat.Node.SaveReceivedImages | src/BOBCAT.py:577-580 | images saved on their reports; those with a report returned in order |
| Bobcat.Node.ReceiveEntry | src/BOBCAT.py:565-594 | one entry delivered to its neighbour; the update flag set iff a known image is attached with images reported; received iff it carried something |
| Bobcat.Node.ReceiveAt | src/BOBCAT.py:564-594 | one entry delivered to the neighbour at k; no other neighbour's inbox changes |
| Bobcat.Node.ReceiveNext | src/BOBCAT.py:564-594 | delivering entry i after those before it gives the state for the first i + 1 entries |
| Bobcat.Node.ReceiveAll | src/BOBCAT.py:564-594 | every entry delivered in order; received iff the response delivers something |
| Bobcat.Node.DMResponseReceiver | src/BOBCAT.py:562-599 | every entry delivered; if anything was, the request log is cleared and the request time set back by dmWait; otherwise both kept |
| Bobcat.Node.ClearRequests | src/BOBCAT.py:597-599 | when a response was received: log cleared, request time set back by dmWait; otherwise both kept |
| Bobcat.Node.BuildRequests | src/BOBCAT.py:606-629 | the request list and the first neighbour in comm with something missing, in one pass |
| Bobcat.Node.FindBeacon | src/BOBCAT.py:638-642 | the scan finds exactly FirstFreeBeacon |
| Bobcat.Node.FindPeer | src/BOBCAT.py:645-649 | the scan finds exactly FirstFreePeer |
| Bobcat.Node.PickTarget | src/BOBCAT.py:627-649 | the preference order gives ChooseTarget |
| Bobcat.Node.RequestMissing | src/BOBCAT.py:601-659 | nothing within dmWait; otherwise the request list goes to ChooseTarget's pick, which joins the log; with nobody to ask the log is cleared and the next request allowed at once |
| Bobcat.Node.UpdateBeacons | src/BOBCAT.py:661-685 | the beacons are those activated by every heard entry, and the published array lists exactly the active ones |
| Bobcat.Node.ActivateFromNeighbors | src/BOBCAT.py:662-667 | the neighbours' beacon lists applied in order |
| Bobcat.Node.ArtifactCheck | src/BOBCAT.py:687-742 | reports, report flag and fusion list as CheckAll says; accepted artifacts appended to the agent's list and counted; rehashed iff the hash flag ends up set |
| Bobcat.Node.TakeInAll | src/BOBCAT.py:690-727 | the loop over the agent's new artifacts leaves the reports and report flag CheckAll gives, and appends and counts the accepted artifacts on the agent |
| Bobcat.Node.UpdateArtifacts | src/BOBCAT.py:744-749 | artifactCheck for every neighbour in order, as CheckNeighbors says, artifactsUpdated set if any asked |
| Bobcat.Node.CheckNeighborAt | src/BOBCAT.py:745-749 | one round of the loop extends the sweep by neighbour i |
| Beacons.FirstIdle | src/robot.py:121-125 | the beacon chosen for a drop is one this agent carries and has not dropped, and every earlier beacon is not; None exactly when no beacon is idle |
| Beacons.FindIdle | src/robot.py:121-125 | the search loop finds the same beacon as FirstIdle |
| Beacons.IdleCount | src/robot.py:121-127 | the number of beacons left to drop is at most the number of beacons known |
| Beacons.Deploy | src/robot.py:190-193 | the dropped beacon keeps its id and becomes active, reachable and placed at the given position; every other beacon is unchanged |
| Beacons.IdleCountUpdate | src/robot.py:190-193 | replacing one beacon record changes the idle count by exactly the change in that record's idleness |
| Beacons.DeployUsesOne | src/robot.py:190-193 | dropping an idle beacon lowers the idle count by one, matching the decrement of numBeacons |
| Beacons.NoIdleMeansNone | src/robot.py:196-199 | no beacon is found to drop exactly when the idle count is 0, which is why numBeacons is reset to 0 |
| Beacons.ActiveCount | src/robot.py:202-208 | the number of active beacons is at most the number known |
| Beacons.CountsMeaning | src/robot.py:202-217 | the far count is at most the active count; it is below the active count iff some active beacon is in range, positive iff some active beacon is out of range; the active count is 0 iff no beacon is active |
| Beacons.DistCheckMeaning | src/robot.py:202-220 | the drop is asked for exactly when no active beacon is in range and either the caller wanted a drop or some active beacon is out of range; with no active beacon the caller's flag comes back unchanged |
| Beacons.BeaconDistCheck | src/monitors.py:76-94 | the distance loop returns the same drop flag and counts as DistCheckOf |
| Behaviors.Behaviors.constructor | src/robot.py:66 | a new behaviour set starts in mode Explore |
| Behaviors.Behaviors.FollowStep | src/behaviors.py:119-134 | when the follower is called for, the goal becomes the planner's goal and path, "Following Trajectory" is noted, and the path's end is blacklisted when the planner has failed, the robot is within 1 of it and it is not already near a blacklisted point; otherwise the goal, notes and blacklist stay |
| Behaviors.Behaviors.DeconflictExplore | src/behaviors.py:108-140 | status Explore and stopStart set; the goal is the one deconflictGoals picks unless the follower is used, which happens iff deconfliction asks for it or the planner failed and the robot is stuck beyond stopCheck or within 1 of the goal; blacklist and notes follow the follower step |
| Behaviors.FollowedChoice | src/behaviors.py:119-134 | without the follower the goal choice is unchanged; with it the goal is the planner's goal and path and 'Following Trajectory' is noted; the follower request and pending replans are kept, and the blacklist only ever gains the path's end, and only when following with a failed planner |
| Behaviors.Behaviors.Halt | src/behaviors.py:33-35 | stop() as Actions.Actions.Stop says; the goal inputs deconfliction reads afterwards are StoppedInputs of the state before, the wait is counted and the note and replan time are those stop leaves |
| Behaviors.Behaviors.DeployBeacon | src/behaviors.py:25-106 | with an idle beacon: stop() first, then status 'Deploy', then deconflictExplore from the state stop() left; the first idle beacon is down at the placement and one fewer is carried; the mode is kept (DroppedFrom). With none, numBeacons becomes 0, the mode Explore and nothing else changes |
| Objectives.WeightFor | src/objectives.py:29-70 | the weight left by evaluate is 0 or the full weight, and with a positive full weight it is non-zero exactly when the objective is wanted (report pending, GUI behaviour, comms lost, beacon to extend) |
| Objectives.ExploreAlwaysFull | src/objectives.py:33-34 | Explore keeps its full weight whatever the robot's state |
| Objectives.Objective.constructor | src/objectives.py:9-17 | initial weight 1 (0.7 for MaintainComms), weight 1, no priority, multiplier 1 |
| Objectives.Objective.SetPriority | src/objectives.py:19-21 | the objective becomes a priority with multiplier 2 |
| Objectives.Objective.SetWeight | src/objectives.py:23-27 | the weight is the one given, or the initial weight times the multiplier when none is given |
| Objectives.Objective.Evaluate | src/objectives.py:29-70 | the weight is WeightFor of the objective's kind and it is non-zero exactly when the objective is wanted |
| MapDiffService.Filed | src/get_map_diffs.py:46-49 | filing a batch adds exactly the batch's sequence numbers to the store, keeps every entry no diff replaces, and leaves the last diff of the batch stored under its number |
| MapDiffService.LastFiledWins | src/get_map_diffs.py:46-49 | a diff that no later diff of the batch shares a number with is the one stored under that number |
| MapDiffService.Held | src/get_map_diffs.py:73-77 | the numbers answered are exactly the requested numbers the store holds, and there are no more of them than were requested |
| MapDiffService.Answer | src/get_map_diffs.py:64-79 | one agent's answer carries its id as id and owner, the held numbers, one diff per number (the diff stored under it) and a count equal to the number of diffs |
| MapDiffService.Answers | src/get_map_diffs.py:62-85 | the response holds an answer for every requested agent the service knows and nothing else, and is no longer than the request |
| MapDiffService.HeldAgain | src/get_map_diffs.py:73-77 | asking again for the numbers just answered returns the same numbers |
| MapDiffService.MapDiffs.constructor | src/get_map_diffs.py:22-27 | the service starts knowing only its own vehicle, with no diffs |
| MapDiffService.MapDiffs.DiffReceiver | src/get_map_diffs.py:46-49 | the own vehicle's diffs become Filed of the published batch; other agents are untouched |
| MapDiffService.MapDiffs.FileNeighbor | src/get_map_diffs.py:52-60 | one neighbour's entry is created when unseen and its diffs are filed into it |
| MapDiffService.FileAll | src/get_map_diffs.py:59-60 | the neighbour's diff loop leaves the entry as Filed says: each diff stored under its sequence number, the last of a number winning |
| MapDiffService.MapDiffs.NeighborDiffReceiver | src/get_map_diffs.py:51-60 | the store becomes FilingAll of every neighbour's diffs in message order |
| MapDiffService.MapDiffs.HandleGetMapDiffs | src/get_map_diffs.py:62-85 | the service's answer is Answers of the store and the request |
| MapDiffService.AnswerAll | src/get_map_diffs.py:63-65 | the request loop answers, in request order, exactly the requested agents the service knows |
| MapDiffService.Respond | src/get_map_diffs.py:66-77 | the per-agent loop builds Answer of the agent's diffs and missing list |
| MapDiffService.Filing | src/get_map_diffs.py:52-60 | one neighbour's message adds the owner to the agents known, files its diffs into the owner's entry (empty when unseen) and keeps every other agent |
| MapDiffService.FilingAll | src/get_map_diffs.py:51-60 | after every neighbour's message the agents known are the old ones plus every owner seen |
| MapDiffService.FilingAllKeeps | src/get_map_diffs.py:51-60 | nothing is lost: an agent not in the message keeps its diffs, every agent keeps every number it had, and every diff sent is stored under its owner |
| MapDiffService.FilingAllUntouched | src/get_map_diffs.py:51-60 | an owner that no neighbour entry names keeps exactly the diffs it had |
| MapDiffService.FilingAllGrows | src/get_map_diffs.py:51-60 | an owner never loses a sequence number it held |
| MapDiffService.FilingAllHolds | src/get_map_diffs.py:51-60 | every diff a neighbour entry carries is stored under that entry's owner afterwards, whatever came later |
| BaseStation.FusedIndex | src/base.py:117 | the entry found for an id is the first with that id; none is found exactly when the table has no such id |
| BaseStation.Put | src/base.py:203 | storing an entry adds its id to the table's ids, replaces only an entry with the same id, keeps every other entry, and keeps ids distinct |
| BaseStation.Remove | src/base.py:209 | deleting an id removes exactly the entries with that id and keeps ids distinct |
| BaseStation.RemoveAll | src/base.py:207-209 | deleting every listed id keeps exactly the entries whose id is not listed |
| BaseStation.Merge | src/base.py:172-195 | the merged entry is at the mean of its originals, gains the report as an original unless one has its id, and is renamed with "_" and the id the reused loop variable ends up naming, which is the report itself when it was new |
| BaseStation.FuseOverUnmatched | src/base.py:168-170 | a report that matches no entry leaves the fusion loop's state unchanged |
| BaseStation.FuseOverQuiet | src/base.py:166-205 | a fusion loop that sets no fuse flag changes nothing, the deletion list included |
| BaseStation.FuseOverKeeps | src/base.py:166-205 | the fusion loop keeps ids distinct and every entry at the mean of its originals, and never clears the fuse flag |
| BaseStation.FuseKeeps | src/base.py:165-214 | fusing a report keeps the table's invariant: distinct ids and every entry at the mean of its originals |
| BaseStation.FuseUnmatched | src/base.py:211-214 | a report that matches nothing is stored under its own id as its own single original and nothing else changes |
| BaseStation.FuseRemoves | src/base.py:204-209 | every entry the report was fused into is gone from the table afterwards |
| BaseStation.SingleAveraged | src/base.py:213-214 | a report alone is at the mean of its originals |
| BaseStation.ShadowedSuffix | src/base.py:180-194 | fusing a report that is already an entry's first original but not its last names the new entry after the last original, not after the report |
| BaseStation.OneEntryFuse | src/base.py:168-209 | fusing a matching report into a one-entry table leaves exactly the merged entry |
| BaseStation.Unreported | src/base.py:216-219 | no more artifacts are published than the table has entries |
| BaseStation.UnreportedMeaning | src/base.py:216-219 | what is published is exactly the artifacts of the entries not yet scored |
| BaseStation.ScoredKeeps | src/base.py:116-118 | recording a score keeps the table's invariant |
| BaseStation.ScoreStopsReport | src/base.py:116-118 | scoring an unscored entry takes exactly one artifact off what is published; scoring a scored one takes none |
| BaseStation.Summaries | src/base.py:153-163 | the base artifact list has one entry per neighbour, in order, with that neighbour's id and last artifact hash |
| BaseStation.SummaryFound | src/base.py:153-163 | with distinct neighbour ids, a robot looking up its id in the base artifact list finds the hash the base holds for it |
| BaseStation.Summarize | src/base.py:157-161 | the loop over the neighbours builds Summaries |
| BaseStation.BaseStation.constructor | src/base.py:21-29 | a base node with the given fuse distance and an empty fused table |
| BaseStation.BaseStation.GetArtifactScore | src/base.py:116-118 | only the scored entry changes, marked reported with its score, and it leaves what is published |
| BaseStation.BaseStation.AddRobotReceiver | src/base.py:120-124 | an unknown robot is appended as a fresh record with its id; a known one leaves the neighbours unchanged |
| BaseStation.BaseStation.GuiTaskNameReceiver | src/base.py:126-128 | the task name and GUI stamp are set |
| BaseStation.BaseStation.GuiTaskValueReceiver | src/base.py:130-132 | the task value and GUI stamp are set |
| BaseStation.BaseStation.GuiGoalReceiver | src/base.py:134-142 | a goal at x = y = 0 changes nothing; any other becomes the goal point under the next sequence number, with the task "task"/"Goal" and the stamp set |
| BaseStation.BaseStation.GuiResetReceiver | src/base.py:144-151 | a reset for another robot changes nothing; a newer robots-only reset is stored on the robot's record and nothing else; any other reset for that robot has ResetDataCheck's effect when the check acts on it and changes nothing otherwise; no robot but the one named is touched |
| BaseStation.BaseStation.BuildBaseArtifacts | src/base.py:153-163 | the base list becomes Summaries of the neighbours, stamped now, and the update flag is cleared |
| BaseStation.BaseStation.RebuildIfUpdated | src/base.py:223-224 | the base list is rebuilt from the neighbours, stamped now, when the update flag is set, and kept otherwise; the flag ends cleared |
| BaseStation.BaseStation.FuseArtifact | src/base.py:165-214 | the table becomes Fuse of the old table and the report, and keeps its invariant |
| BaseStation.BaseStation.FuseAll | src/base.py:165-214 | fusing the reports one by one leaves FuseEach of them and keeps the invariant |
| BaseStation.BaseStation.CheckArtifacts | src/base.py:222-224 | the artifact check of every neighbour in order (CheckNeighbors) gives the reports to fuse, the node's reports and its flags; the base list is rebuilt exactly when that check changed something |
| BaseStation.BaseStation.FuseAndReport | src/base.py:222-225 | the reports are fused in order keeping the table invariant, and the published artifacts are the unscored ones of the new table |
| BaseStation.BaseStation.Run | src/base.py:221-228 | the reports to fuse, the node's reports and its report flag are those of the artifact check of every neighbour in order (CheckNeighbors); they are fused in order keeping the table invariant; the base list is rebuilt from the neighbours exactly when that check changed something; the update flag ends cleared and what is published is exactly the unscored fused artifacts |
| BaseStation.BaseStation.ReportArtifacts | src/base.py:216-219 | the published artifacts are Unreported of the table |
| BaseStation.FuseLoop | src/base.py:166-205 | the loop over the table computes FuseOver |
| BaseStation.FuseInto | src/base.py:165-214 | fuseArtifact on the table as a value computes Fuse |
| BaseStation.DeleteFused | src/base.py:207-209 | the deletion loop computes RemoveAll |
| BaseStation.FuseEachKeeps | src/base.py:165-214 | fusing any number of reports keeps the table's invariant |
| Actions.Noted | src/actions.py:98-108 | after updateStatus the status is mentioned in the suffix (checkStatus holds); a new status is appended after the old suffix, kept as its prefix; with no suffix, or one already mentioning it, the suffix becomes just that status |
| Actions.AddKeepsApart | src/actions.py:119-127 | adding only points clear of every blacklist point keeps the blacklist's points pairwise at least deconflictRadius apart |
| Actions.RivalsOf | src/actions.py:357-362 | one rival per neighbour, in order, carrying its last message time, goal and position |
| Actions.ScanRivals | src/actions.py:357-371 | the neighbour loop finds a conflict exactly when a current neighbour's goal is within deconflictRadius and cheaper |
| Actions.ScanCrowd | src/actions.py:305-318 | the single-goal neighbour loop asks for a replan exactly when a current neighbour's goal is within deconflictRadius and the neighbour is closer to its goal than this robot to its own |
| Actions.FirstClear | src/actions.py:338-375 | the candidate settled on is the first one neither blacklisted nor contested, every earlier one being one of those; none when all are |
| Actions.FirstFree | src/actions.py:352-355 | the best fallback is the first candidate not blacklisted, every earlier one being blacklisted; none when all are |
| Actions.FirstNear | src/actions.py:283-286 | the updated path for the long goal is the first candidate within 0.5 of it; none when no candidate is |
| Actions.FindNear | src/actions.py:283-286 | the search loop finds FirstNear |
| Actions.PickGoal | src/actions.py:335-375 | the while loop ends in conflict iff no candidate is clear, stops just after the first clear candidate, remembers the first non-blacklisted candidate, and notes a replan for each candidate it rejected |
| Actions.DeconflictMulti | src/actions.py:330-392 | with several candidates the trajectory follower is used iff every candidate is blacklisted, and then the blacklist is emptied and the goal is the planner's; otherwise the goal is a non-blacklisted candidate, the blacklist is kept, and the goal is clear whenever some candidate is |
| Actions.DeconflictFew | src/actions.py:322-329 | with zero or one candidates and no single-goal deconfliction, the goal is the planner's or the only candidate, and the follower is used iff that goal or its path end is blacklisted (actions.py:395-405) |
| Actions.DecideGoals | src/actions.py:258-405 | the loops of deconflictGoals decide as Deconflict |
| Actions.Actions.constructor | src/actions.py:34-86 | the parameters given, an empty status suffix and blacklist, no beacon asked for or deployed, no replan asked, stopStart set, not paused, no robot near and no wait counted |
| Actions.Actions.UpdateStatus | src/actions.py:98-102 | the suffix becomes Noted of the old suffix and the status |
| Actions.Actions.CheckBlacklist | src/actions.py:110-117 | true iff no blacklist point lies within deconflictRadius of the goal |
| Actions.Actions.AddBlacklist | src/actions.py:119-127 | the goal is appended iff it is clear of every blacklist point; the first point sets the reset time 20 seconds ahead |
| Actions.Actions.UpdateGoalPath | src/actions.py:251-255 | the goal becomes the planner's goal and path |
| Actions.Actions.FinishDrop | src/actions.py:131-166 | one beacon fewer is carried, the beacon asked for is active, reachable and placed, the drop flags are cleared and a GUI deploy is done |
| Actions.Actions.StartDrop | src/actions.py:172-244 | the first idle beacon is asked for with status Deploy and the inventory unchanged; with none, numBeacons becomes 0 and a GUI deploy is dropped |
| Actions.Actions.DropBeacon | src/actions.py:129-244 | a beacon asked for and reported down is finished: one fewer carried, deployed at `placed`, drop flags cleared, a GUI deploy done, status and goal kept; one asked for but not down leaves the inventory and status and heads for the planner's goal; otherwise the first idle beacon is asked for with status 'Deploy', or numBeacons becomes 0 and a GUI deploy is dropped when none is idle |
| Actions.Actions.NoteAll | src/actions.py:98-102 | the suffix after the notes equals NotedAll of them in order |
| Actions.Actions.DeconflictGoals | src/actions.py:258-405 | the goal, follower flag, blacklist, replan reasons and notes become Deconflict of the inputs |
| Actions.Actions.TrajCheck | src/actions.py:451-477 | when the follower is called for: a replan is asked unless just made or asked within stopCheck, the external follower switches on once with a note, the goal becomes the planner's, and the path end is blacklisted once the mission started, the planner failed and the robot is within 1 of it, a first blacklist entry setting the reset time 20 ahead; otherwise the follower switches off |
| Actions.ReplanOn | src/actions.py:427-449 | a replan is made only more than stopCheck seconds after the last one; it stamps the time now and notes the replan status of the blacklist reason, else of the pending reason, which is then cleared; without a replan the suffix and the pending reason are kept; the replan time only ever moves to now, and only once the mission started |
| Actions.ReplanSpaced | src/actions.py:427-431 | two replans in a row are more than stopCheck seconds apart |
| Actions.Actions.ReplanCheck | src/actions.py:427-449 | the suffix, pending reason, replan time and result become those ReplanOn gives |
| Actions.Actions.StopUpdate | src/actions.py:533-547 | the first stop in simulation sends the in-place goal, clears stopStart and keeps the recorded goal; otherwise the goal becomes the planner's goal and path |
| Actions.Actions.WaitForNeighbor | src/actions.py:524-530 | with a robot near, 'Waiting' is noted, the wait counted, and a wait beyond stopCheck asks for a neighbour-path replan as ReplanOn says; with none nothing changes |
| Actions.Actions.Stop | src/actions.py:515-531 | status 'Stop', the wait and replan of WaitForNeighbor, then the goal and stopStart StopUpdate leaves (Halted) |
| Actions.Actions.Resume | src/actions.py:481-486 | stopStart is set and the status becomes the given one; a change of status means moving again (move at actions.py:500-506), which clears paused |
| Actions.Actions.Explore | src/actions.py:479-497 | status 'Explore' with stopStart set and paused cleared unless the status already was 'Explore'; the goal is deconflicted unless a blacklist replan is pending; then replanCheck, and trajCheck told whether a replan was made, act on that choice (ExploredFrom) |
| Actions.Actions.Aim | src/actions.py:562-595 | a GUI goal older than 180 seconds ends the GUI behaviour; stopStart is set; unless paused, the status becomes the reason (stamping the goal time) when it differs or stopCheck seconds passed; the goal becomes the planner's; for any reason but 'guiCommand' a failed planner switches the external follower on with one note, otherwise it is off |
| Actions.Actions.SetGoalPoint | src/actions.py:554-595 | a pending blacklist replan is cleared and the robot explores from that state; otherwise Aim's effect, with the blacklist, replans and replan times unchanged (GoalPointSet) |
| Actions.Actions.RegainHome | src/robot.py:502-504 | 'Regain comms deploy' is noted, then the goal point is set under 'Home' as SetGoalPoint says |
| Monitors.DeadbandNeverFires | src/monitors.py:214-215 | the homecoming cancel never fires, since no y is both below 1 and above 1 |
| Monitors.CheckDrop | src/monitors.py:206-215 | beaconDistCheck, the renaming of the reason and the homecoming cancel, run in order, give Verdict of the plan |
| Monitors.BeaconDecision | src/monitors.py:171-215 | a junction gives reason "at junction" and range junctionDist, a turn "at turn" and junctionDist + 5; otherwise "beacon distance" is the reason iff an active beacon is out of range and "anchor distance" iff the anchor is far, no delay is pending and none is; the drop stands iff no active beacon is in range and the plan or an out-of-range beacon asks for it; with no active beacon the plan stands; a drop always has a reason |
| Monitors.FindOwnPending | src/monitors.py:227-232 | the scan finds an artifact of this robot not yet reported iff there is one |
| Monitors.AllReported | src/monitors.py:241-242 | every artifact is marked reported and nothing else changes, so none is pending afterwards |
| Monitors.MarkReported | src/monitors.py:241-242 | the marking loop computes AllReported |
| Monitors.Survivors | src/monitors.py:270-273 | the outlier filter keeps exactly the goals within the radius of the centre, in order |
| Monitors.CommitPoint | src/monitors.py:267-282 | the averaging and filtering steps give Commit of the goals |
| Monitors.SurvivorsAll | src/monitors.py:270-273 | copies of the centre itself all survive the filter |
| Monitors.StuckOnOneGoal | src/monitors.py:266-282 | a robot stuck on one goal away from the origin for more than half a history buffer blacklists exactly that goal |
| Monitors.Monitors.constructor | src/monitors.py:16-55 | the parameters given, minAnchorDist 10, no blacklisted beacons, counters at 0, reverse check armed, no reverse drop, stuck 0 |
| Monitors.Monitors.ReverseAttempt | src/monitors.py:97-125 | in comm the check is re-armed and the lost counter cleared; out of comm, armed and not reversing, the counter grows to 5 and on the sixth cycle a reverse drop starts here unless already tried within junctionDist, which disarms the check instead; the counter then restarts |
| Monitors.Monitors.RegainDrop | src/monitors.py:127-160 | back in comm while reversing, a drop with reason "Regain comms" after more than five cycles or "Near anchor" within 10 of the anchor is asked for when no active beacon is within junctionDist, and the attempt ends; otherwise the regain counter grows, or is cleared when not reversing in comm |
| Monitors.Monitors.ReverseDropMonitor | src/monitors.py:96-160 | in comm the check is re-armed and the lost counter cleared, and a pending reverse attempt settles as RegainDrop says (a drop asked for with the regain or near-anchor reason when no active beacon is near, or one more regain count); out of comm the regain counter is cleared, no drop is asked for, and while armed and not reversing the lost counter grows until the sixth cycle, which starts a reverse drop unless one was tried near here |
| Monitors.Monitors.BeaconMonitor | src/monitors.py:162-223 | a drop is asked for only with beacons left, in comm, at least minAnchorDist from the anchor and when the Verdict says so, with its reason; a pending delay absorbs that one drop instead |
| Monitors.Monitors.ArtifactMonitor | src/monitors.py:225-247 | an unreported own artifact raises the report flag and rehashes; the flag drops, and every artifact is marked reported, only once solo or the base holds this report's hash; otherwise in comm the report is rehashed |
| Monitors.Monitors.StuckCount | src/monitors.py:252-260 | a still robot counts one more stuck cycle and collects its goal; a moving one clears both |
| Monitors.Monitors.StuckBlacklist | src/monitors.py:266-282 | at each multiple of stopCheck the committed point, if any, is added to the blacklist as addBlacklist does and the candidates cleared |
| Monitors.Monitors.StuckMonitor | src/monitors.py:249-289 | with no path "No Path" is noted and nothing else changes; with a path but a partial buffer nothing changes; with a full buffer the stuck count and candidates follow StuckCount, from stopCheck on "Stuck" is noted, and at multiples of stopCheck the committed point is blacklisted |
| Monitors.Monitors.GUIMonitor | src/monitors.py:291-317 | an accepted "task" command sets the GUI behaviour from its value (Deploy also gives the drop reason "GUI Command"); any accepted command is consumed |
| RobotNode.Recent | src/robot.py:101-102 | the trimmed history is the last n entries, or all of them when there are no more than n |
| RobotNode.HistoryBounded | src/robot.py:100-102 | after a pose is added the buffer holds at most hislen poses, ends with the new one, and simply grows while short |
| RobotNode.Shown | src/robot.py:112-117 | the status shown starts with the agent's status, mentions the suffix when there is one, and is just the status when there is none |
| RobotNode.ArbitrateOrder | src/robot.py:461-519 | a held report beats every mode; the robot explores exactly when no report is held and neither Home, Stop, Deploy nor an unreached GUI goal holds it; Home heads home |
| RobotNode.Heard | src/robot.py:439-446 | the neighbours counted as current are at most all of them, and none is counted iff none was heard after the check time |
| RobotNode.RegainFault | src/robot.py:65 | as written, a robot that enters Deploy mode out of comm while a report is held reaches the in-comm Deploy branch with regainBase never assigned (robot.py:487), so that run fails |
| RobotNode.Robot.constructor | src/robot.py:26-70 | the parameters given, no history or mission yet, nothing tried, reverse drops as configured, counters at 0 with the regain counter assigned, planner and launch fine, not aerial |
| RobotNode.Robot.WaitMonitor | src/robot.py:78-80 | a positive origin-detection status ends the wait; otherwise the wait is kept |
| RobotNode.Robot.PlannerMonitor | src/robot.py:82-85 | the planner status is recorded and a failure notes "Unable to plan" |
| RobotNode.Robot.LaunchMonitor | src/robot.py:87-89 | the robot becomes aerial and records its launch status |
| RobotNode.Robot.UpdateHistory | src/robot.py:91-102 | the first pose is remembered; the mission starts once the robot is more than 5 from it and stays started; the buffer becomes the last hislen poses |
| RobotNode.Robot.GetStatus | src/robot.py:104-117 | every seventh call clears the suffix, otherwise the call counter grows; the result is Shown of the status and suffix |
| RobotNode.Robot.InCommDecision | src/robot.py:230-285 | in comm the lost counter is cleared and reverse drops re-armed; a drop is made exactly when DropDue holds (the Verdict says so, at least minAnchorDist from the anchor) and no delay is pending, which a due drop uses up; it carries the verdict's reason |
| RobotNode.Robot.InCommCheck | src/robot.py:230-285 | the in-comm decision as InCommDecision says, then the drop as DeployBeacon says exactly when one is due; otherwise the drop state and actions state are kept |
| RobotNode.Robot.OutOfCommStep | src/robot.py:286-304 | out of comm with reverse drops armed the counter grows to 5; on the sixth cycle the robot enters Deploy mode and remembers the spot unless an earlier try lies within junctionDist, which disarms reverse drops; the counter restarts |
| RobotNode.Robot.BeaconCheck | src/robot.py:222-304 | with no beacon left nothing happens; in comm reverse drops are re-armed and the counter cleared, and when DropDue holds with no delay pending the robot drops as Behaviors.Behaviors.DeployBeacon says (stop, report Deploy, explore again, first idle beacon down); without a drop the registry, mode, status, goal and actions state are kept; out of comm the registry, status and goal are kept, unarmed nothing changes, and armed the counter grows until the sixth cycle, which enters Deploy mode and records the position unless a try lies near |
| RobotNode.Robot.ArtifactCheckReport | src/robot.py:306-316 | the report flag is raised iff an own artifact is unreported, and never lowered here |
| RobotNode.Robot.StuckCheck | src/robot.py:360-401 | only while the mission is on, the robot not stopped and not aerial: with no path "No Path" is noted; with a full buffer the stuck count, candidates, "Stuck" note and blacklist follow the stuck monitor's rule; with a path but no full buffer nothing changes |
| RobotNode.Robot.GuiTask | src/robot.py:403-425 | an accepted "task" command sets the mode from its value; Deploy drops as DeployBeacon says, ends in Explore mode and skips this run's beacon check; without a deploy the registry, status, goal and actions state are kept; any accepted command is consumed |
| RobotNode.Robot.CountNeighbors | src/robot.py:431-446 | the count published is Heard of the neighbours after 30 comm thresholds before now |
| RobotNode.Robot.ReportGate | src/robot.py:461-476 | once solo or the base holds this robot's report hash the report ends and every artifact is marked reported; otherwise the report is held |
| RobotNode.Robot.DeployMode | src/robot.py:483-505 | in comm the robot waits more than five cycles, then drops as DeployBeacon says unless an active beacon is within junctionDist, and returns to Explore with the counter cleared; while waiting nothing else changes; out of comm the counter is cleared, "Regain comms deploy" noted and the goal point set under Home (GoalPointSet), the registry kept |
| RobotNode.Robot.Dispatch | src/robot.py:461-519 | the directive is Arbitrate of the report, mode, comms and GUI goal; a held report sets the goal point under Report (GoalPointSet) and keeps mode and registry; otherwise Home and an unreached GUI goal set the goal point under their reason, Stop stops (Halted), Deploy acts as DeployMode, and otherwise the robot explores as DeconflictExplore says, an arrived GUI goal turning back into Explore |
| RobotNode.Robot.ModeStep | src/robot.py:478-519 | Home and an unreached GUI goal set the goal point under 'Home' or 'guiCommand', Stop stops, and otherwise the robot explores, an arrived GUI goal turning back into Explore (ModeStepped) |
| RobotNode.Robot.AerialCheck | src/robot.py:526-539 | an aerial robot not yet launched asks everyone to ignore its maps, and once launched withdraws it, stamping the reset and the GUI stamp with now; afterwards an aerial robot's reset ignores maps iff it has not launched |
| MultiAgentNode.OwnershipDisjoint | src/multi_agent.py:363-369 | two robots with different numbers never own the same beacon |
| MultiAgentNode.NewBeaconObj | src/multi_agent.py:113-121 | a new beacon record is reachable, inactive and unplaced, and idle exactly when this robot owns it |
| MultiAgentNode.Registry | src/multi_agent.py:363-369 | the registry __init__ builds holds one record per beacon number 1 to total, in order, each owned as the block rule says |
| MultiAgentNode.RegistryCount | src/multi_agent.py:363-369 | the number of idle beacons in the registry is the number of beacon numbers 1 to total inside the robot's block |
| MultiAgentNode.RegistryOwnsBlock | src/multi_agent.py:363-369 | a robot owns at most numBeacons beacons, exactly numBeacons when the registry reaches the end of its block, and the base (number 0) owns none |
| MultiAgentNode.BuildRegistry | src/multi_agent.py:363-369 | the ownership loop builds Registry |
| MultiAgentNode.Placement | src/multi_agent.py:575-579 | an inactive beacon finds a position exactly when some message entry names it, and that position is one such entry's |
| MultiAgentNode.ScanPlacement | src/multi_agent.py:575-579 | the activation loop finds Placement, the last naming entry winning |
| MultiAgentNode.Fresh | src/multi_agent.py:124-135 | a new report carries the artifact, is unreported and new |
| MultiAgentNode.TakeStep | src/multi_agent.py:805-810 | storing one detection keeps every stored report, stores its key, adds no other key, and keeps keys distinct |
| MultiAgentNode.TakeAllKeys | src/multi_agent.py:803-820 | after artifactCheck the stored reports only grew at the end, every detection's key is stored and nothing else new, and keys stay distinct |
| MultiAgentNode.NewAtLast | src/multi_agent.py:809 | a detection is at a new key exactly when the ledger built from the earlier detections lacks its key |
| MultiAgentNode.TakeAllReport | src/multi_agent.py:812-820 | artifactCheck raises the report flag exactly for an own detection at a new key with no neighbour artifact within planar distance 3 |
| MultiAgentNode.TakeEach | src/multi_agent.py:805-820 | the detection loop computes TakeAll |
| MultiAgentNode.KeyScan | src/multi_agent.py:809 | the membership test finds the key iff a stored report has it |
| MultiAgentNode.Neighbor.constructor | src/multi_agent.py:33-47 | a new neighbour record has the given ids, nothing heard but the clock, no artifacts, in comm and reachable |
| MultiAgentNode.Neighbor.Update | src/multi_agent.py:60-78 | the record becomes Refreshed of the message |
| MultiAgentNode.Others | src/multi_agent.py:328 | the neighbour ids are exactly the potential neighbours other than the node itself, each listed once |
| MultiAgentNode.MakeNeighbors | src/multi_agent.py:328-329 | one fresh, reachable, empty record per id of Others, in that order |
| MultiAgentNode.Refreshed | src/multi_agent.py:60-78 | pose and goal are always taken, the map only from a message longer than 100 characters; a direct message also takes beacons and artifacts, links through the receiver, is stamped now and in comm; a relayed one takes the relay's link and time and is out of comm |
| MultiAgentNode.RelayStep | src/multi_agent.py:614-623 | one relayed record changes no record count |
| MultiAgentNode.Relays | src/multi_agent.py:611-623 | the relayed records change no record count |
| MultiAgentNode.RelaysMeaning | src/multi_agent.py:611-623 | nothing is relayed before the start; a neighbour in direct comm keeps its record; a record only moves to a message more than 5 seconds newer about that agent, and is then out of direct comm; last-message times never go back |
| MultiAgentNode.Received | src/multi_agent.py:584-623 | the message processing changes no record count |
| MultiAgentNode.SenderRecord | src/multi_agent.py:595-600 | a reachable robot's message leaves its record Refreshed, in direct comm through the receiver and stamped now; an unreachable robot's message changes nothing |
| MultiAgentNode.Reach | src/multi_agent.py:543-548 | marks are only added, the node's own mark is kept, the start and every newly marked agent see only marked agents in comm, and every newly marked agent is reached from the start by a chain of in-comm reports |
| MultiAgentNode.TakeAllAppend | src/multi_agent.py:788-801 | taking two lists of detections is taking the first, then the second |
| MultiAgentNode.Dropped | src/multi_agent.py:644-705 | with an idle beacon the idle count and numBeacons each drop by one; with none the registry is unchanged and numBeacons is 0 |
| MultiAgentNode.Kept | src/multi_agent.py:625-628 | the buffer holds at most hislen poses and ends with the newest; with hislen 0 the slice h[-0:] keeps everything |
| MultiAgentNode.MultiAgent.constructor | src/multi_agent.py:223-369 | a base carries no beacons; the registry is Registry of the robot's number (0 for other nodes); the neighbours are the potential ones other than the node; the buffer holds ten seconds at the node's rate |
| MultiAgentNode.MultiAgent.CommCheck | src/multi_agent.py:523-531 | each neighbour is in comm iff heard within the threshold, and so is the base for a robot that is not solo; nothing else changes |
| MultiAgentNode.MultiAgent.RecurCommCheck | src/multi_agent.py:543-548 | the node's marks only grow, its own mark is kept, the start and every new mark are closed, and every new mark is reached from the start |
| MultiAgentNode.MultiAgent.RelayOne | src/multi_agent.py:614-623 | one relayed message updates the records as RelayStep |
| MultiAgentNode.MultiAgent.RelayAll | src/multi_agent.py:611-623 | the relay loop updates the records as Relays |
| MultiAgentNode.MultiAgent.Refresh | src/multi_agent.py:600 | the named neighbour's record alone becomes Refreshed by the message, with this node as updater for the sender and none for a relayed record |
| MultiAgentNode.MultiAgent.Receive | src/multi_agent.py:584-623 | the records become Received of the message |
| MultiAgentNode.MultiAgent.CommReceiver | src/multi_agent.py:568-623 | an inactive beacon node not named in the message ignores it; named, it activates at the last naming entry and goes on; the records then change as Received |
| MultiAgentNode.MultiAgent.UpdateHistory | src/multi_agent.py:625-628 | the buffer becomes Kept of the old buffer plus the pose |
| MultiAgentNode.MultiAgent.UpdateBeacons | src/multi_agent.py:630-642 | every active beacon reported by the neighbours, then by the base for non-base nodes, activates the same beacon here at its position unless already active |
| MultiAgentNode.MultiAgent.PublishBeacons | src/multi_agent.py:463-474 | the beacon list sent out is every active beacon, in registry order |
| MultiAgentNode.MultiAgent.DeployBeacon | src/multi_agent.py:644-705 | the registry and count become Dropped of the old ones |
| MultiAgentNode.MultiAgent.BeaconCheck | src/multi_agent.py:707-786 | nothing happens without beacons or out of comm; otherwise the pose joins the buffer, and a drop happens exactly when at least minAnchorDist from the anchor the Verdict asks for one and no delay absorbs it |
| MultiAgentNode.MultiAgent.BaseArtifacts | src/multi_agent.py:788-801 | the artifacts of every neighbour in comm are stored under their keys and each such neighbour's list is fingerprinted; others keep their fingerprint |
| MultiAgentNode.MultiAgent.ArtifactCheckNeighbors | src/multi_agent.py:872-873 | each neighbour's list stores its new keys as TakeAll says, without raising the report flag |
| MultiAgentNode.MultiAgent.ArtifactCheckSelf | src/multi_agent.py:876 | the node's ledger and report flag become TakeAll of its detections against the neighbours' artifacts |
| MultiAgentNode.MultiAgent.ArtifactCheckReport | src/multi_agent.py:822-834 | the report flag is raised iff an artifact is unreported or it was up; with the flag up the own list is fingerprinted |
| MultiAgentNode.MultiAgent.ReportBlock | src/multi_agent.py:879-892 | with no report nothing happens; once solo or hash-equal the report ends, every artifact is marked reported and Explore is published only if the status was Report; otherwise Report is published |
| MARobotNode.FirstUnbid | src/ma_robot.py:419-444 | scanning from a given candidate, the loop stops at the first candidate no neighbour outbids, or runs through to the last; every candidate passed over was outbid |
| MARobotNode.Chosen | src/ma_robot.py:415-447 | the candidate deconflictGoals keeps: with no neighbours the last one (the conflict flag is never cleared), otherwise the first one not outbid, or the last when all are outbid |
| MARobotNode.Target | src/ma_robot.py:403-447 | with no candidates the goal becomes frontier exploration's goal and path, with one candidate that candidate, and otherwise always one of the candidates |
| MARobotNode.ReplannedNote | src/ma_robot.py:429-433 | a conflict notes 'Replanning' exactly as updateStatus would, and only when no task suffix is set; with a suffix the suffix is left alone |
| MARobotNode.ChooseGoal | src/ma_robot.py:415-447 | the while loop over two or more candidates ends on the candidate Chosen names, and reports a conflict exactly when the first candidate is outbid |
| MARobotNode.Logged | src/ma_robot.py:376 | a stored artifact record carries the detection, the sending agent's id and the position key, and starts unreported |
| MARobotNode.LogStep | src/ma_robot.py:360-376 | one detection only appends to the ledger, adds exactly its own key, and keeps keys distinct |
| MARobotNode.LogAllKeys | src/ma_robot.py:358-377 | after artifactCheck the ledger extends the old one, holds exactly the old keys plus every detection's key, and keys stay distinct |
| MARobotNode.LogAllStamped | src/ma_robot.py:358-377 | every entry artifactCheck adds is unreported and stamped with the id of the agent whose detections were read |
| MARobotNode.LogNewAtLast | src/ma_robot.py:361-364 | a detection is stored as new exactly when no earlier entry or earlier detection in the same batch has its key |
| MARobotNode.LogAllReport | src/ma_robot.py:364-373 | the report flag ends up raised exactly when it was already raised or one of the robot's own new detections has no stored artifact within 3 in the plane; a neighbour's detections never raise it |
| MARobotNode.LogNeighborsQuiet | src/ma_robot.py:561-562 | reading every neighbour's detections only appends entries stamped with some neighbour's id, unreported, keeps keys distinct and leaves the report flag as it was |
| MARobotNode.LogEach | src/ma_robot.py:358-377 | the artifactCheck loop computes the ledger LogAll specifies |
| MARobotNode.LogNeighborsEach | src/ma_robot.py:561-562 | the neighbour loop of run computes the ledger LogNeighbors specifies |
| MARobotNode.Current | src/ma_robot.py:561-567 | the neighbour count is at most the number of neighbours, and zero exactly when none was heard after the cut-off |
| MARobotNode.ArbitrationOrder | src/ma_robot.py:583-627 | a held report beats every mode; the robot explores exactly when no report is held, the mode is none of Home, Stop and Deploy, and any accepted GUI goal has been reached; Stop mode halts |
| MARobotNode.MARobot.constructor | src/ma_robot.py:77-143 | a new robot has not started its mission, has no task suffix, zero task, lost-comm and stuck counters, explores, and starts with an empty pose history and no report |
| MARobotNode.MARobot.TaskMonitor | src/ma_robot.py:149-159 | a task that is neither the current status nor a normal one becomes the external suffix; otherwise the suffix is cleared once more than ten messages passed, else the count goes up; the count stays within 0..11 |
| MARobotNode.MARobot.UpdateStatus | src/ma_robot.py:184-189 | a status not already in the suffix is appended after '+++'; otherwise the suffix becomes that status and stops counting as external |
| MARobotNode.MARobot.GetStatus | src/ma_robot.py:191-195 | the shown status is the robot's status, followed by '+++' and the suffix when a suffix is set |
| MARobotNode.MARobot.UpdateHistory | src/ma_robot.py:171-182 | the first pose is remembered; the mission counts as started once the robot is more than 5 from it and stays started; the pose joins the history, which keeps only its last hislen entries |
| MARobotNode.MARobot.Stop | src/ma_robot.py:449-466 | the status becomes 'Stop'; the in-place goal is sent once, in simulation, after which stopStart is cleared |
| MARobotNode.MARobot.SetGoalPoint | src/ma_robot.py:468-483 | the status becomes the reason and the goal takes frontier exploration's goal and path |
| MARobotNode.MARobot.DeconflictGoals | src/ma_robot.py:403-447 | the goal becomes the one Target names, and 'Replanning' is noted as ReplannedNote says exactly when a candidate met a conflict |
| MARobotNode.MARobot.DeconflictExplore | src/ma_robot.py:485-494 | the status becomes 'Explore' and the goal the deconflicted one |
| MARobotNode.MARobot.DeployBeacon | src/ma_robot.py:197-274 | with an idle beacon, that beacon is put down at the drop point, the stock drops by one and the robot explores again; with none, the robot counts as carrying no beacons and the mode returns to 'Explore' |
| MARobotNode.MARobot.InCommCheck | src/ma_robot.py:286-350 | in comm the lost-comm count is cleared; a due drop uses up a pending delay if there is one, else it is to be deployed |
| MARobotNode.MARobot.OutOfCommStep | src/ma_robot.py:351-356 | out of comm with reverse drops on, the count goes up, and past 5 the mode becomes 'Deploy' and the count restarts; it stays within 0..5 |
| MARobotNode.MARobot.BeaconCheck | src/ma_robot.py:276-356 | with no beacons carried, or out of comm without reverse drops, nothing changes; in comm a due drop deploys (with an idle beacon the robot stops, status 'Explore', the goal becomes Target and the replanning note is made; with none the mode becomes 'Explore') or uses up a delay; without a deploy the task is kept; out of comm the reverse-drop count advances; the count stays within 0..5 |
| MARobotNode.MARobot.StuckCheck | src/ma_robot.py:503-518 | once started and not stopped: with a path and a full history, a robot that moved less than 0.5 over the history counts one more stationary round (else the count restarts) and past stopCheck notes 'Stuck'; with no path it notes 'No Path'; otherwise nothing changes |
| MARobotNode.MARobot.GuiTask | src/ma_robot.py:525-547 | an accepted 'task' command sets the mode (Explore, Home, Stop; Deploy deploys and explores), 'Explore' also drops the GUI goal, 'Deploy' skips this round's beacon check; a deploy with an idle beacon leaves stopStart set, status 'Explore', the goal Target names and the replanning note; otherwise status, goal, stopStart and suffix are kept; the command is always consumed |
| MARobotNode.MARobot.CountNeighbors | src/ma_robot.py:553-570 | the published count is the number of neighbours heard within the last 30 comm thresholds, the cut-off never going below zero |
| MARobotNode.MARobot.ArtifactCheckNeighbors | src/ma_robot.py:561-562 | every neighbour's detections join the ledger under their ids, keys stay distinct and the report flag is untouched |
| MARobotNode.MARobot.ArtifactCheckSelf | src/ma_robot.py:572-573 | the robot's own detections join the ledger under its own id, as LogAll specifies |
| MARobotNode.MARobot.ArtifactCheckReport | src/ma_robot.py:389-401 | the report flag is raised exactly when it was raised or an own artifact is unreported; with the flag up the robot's detection list is fingerprinted |
| MARobotNode.MARobot.ReportGate | src/ma_robot.py:583-598 | a held report ends once the robot is solo or the base holds its fingerprint, marking every artifact reported; until then the robot heads to report and nothing else is decided |
| MARobotNode.MARobot.Dispatch | src/ma_robot.py:600-627 | with no report held the action is the one Arbitration names: heading for a target sets that status and the planner's goal (a reverse deploy out of comm first notes 'Regain comms deploy' when no suffix is set); Stop sets status 'Stop' and clears stopStart in simulation, keeping the goal; a reverse deploy in comm drops a beacon and explores (stopStart, status, Target goal, note) or with none keeps them; exploring sets status and Target goal; the stock changes only on a drop |
| MARobotNode.MARobot.RegainHome | src/ma_robot.py:612-616 | 'Regain comms deploy' is noted when no suffix is set, and the robot heads home: stopStart set, status 'Home', the planner's goal |
| MARobotNode.MARobot.Advance | src/ma_robot.py:496-551 | the pose joins the bounded history and the lost-comm count stays within 0..5 through the stuck, GUI and beacon checks |
| MARobotNode.MARobot.Ledgers | src/ma_robot.py:561-575 | after the artifact part of run, an unreported own artifact always has the report flag raised |
| MARobotNode.MARobot.Survey | src/ma_robot.py:553-575 | the neighbour count is the current one and an unreported own artifact always has the report flag raised |
| MARobotNode.MARobot.Decide | src/ma_robot.py:583-627 | the robot heads to report exactly while the report flag stays raised, and once it stops no own artifact is left unreported |
| MARobotNode.MARobot.Run | src/ma_robot.py:496-629 | one round: the robot heads to report exactly while a report is held, a robot not heading to report has no own artifact left unreported, the neighbour count is current and the lost-comm count stays within 0..5 |
| MABaseNode.Record | src/ma_base.py:108-139 | the record of a known robot id is found in the neighbour table and carries that id |
| MABaseNode.MABase.constructor | src/ma_base.py:18-46 | the node wraps a base-kind node whose table and ledger it then serves |
| MABaseNode.MABase.AddRobotReceiver | src/ma_base.py:108-112 | an unknown robot id is added at the end of the table, a known id leaves it as it is; earlier records are kept and ids stay distinct |
| MABaseNode.MABase.GuiTaskNameReceiver | src/ma_base.py:114-116 | that robot's GUI task name and stamp are set; no other field or robot changes |
| MABaseNode.MABase.GuiTaskValueReceiver | src/ma_base.py:118-120 | that robot's GUI task value and stamp are set; no other field or robot changes |
| MABaseNode.MABase.GuiGoalReceiver | src/ma_base.py:122-130 | a goal at x = y = 0 is ignored; any other becomes that robot's goal point under the next sequence number with the task 'Goal', and no other robot changes |
| MABaseNode.MABase.GuiResetReceiver | src/ma_base.py:132-139 | a reset naming another robot changes nothing; a newer robots-only reset is stored for the robot; any other goes through the node's reset check; robots the reset does not name are untouched |
| MABaseNode.MABase.BuildBaseArtifacts | src/ma_base.py:141-149 | the base artifact list holds one entry per neighbour, in table order, with the fingerprint held for it, stamped now |
| MABaseNode.MABase.Run | src/ma_base.py:151-156 | every neighbour's artifacts are checked into the ledger, and the base artifact list and its stamp stay as they were |
| MABeaconNode.MABeacon.constructor | src/ma_beacon.py:11-18 | the node's own beacon record is owned by itself, not yet active, at the origin |
| MABeaconNode.MABeacon.BeaconCommCheck | src/ma_beacon.py:20-36 | an active beacon accepts every message and nothing changes; an inactive one accepts exactly when the message names it, and then becomes active at the position of the last entry naming it; a refused message changes nothing |
| MABeaconNode.MABeacon.Run | src/ma_beacon.py:38-46 | the ledger is reconciled with the in-comm neighbours' lists, and the node goes on exactly while its beacon is active |

## Left out

- ROS plumbing is not modelled: node set-up, publishers and subscribers, `setupComms`, `publishMonitors`, `buildAgentMessage`, `publishNeighbors`, `publishBaseMonitor`, marker building (`buildArtifactMarkers`), `addGUIMonitor` and the `start` and `run` loops of `BOBCAT.py` and `multi_agent.py`. A publication is at most an output value of the modelled method.
- Sleeps, `wait_for_service` and the simulator's set-pose services are blocking I/O. They are left out of `deployBeacon` (robot.py, behaviors.py, ma_robot.py, multi_agent.py) and of `dropBeacon` (actions.py). The position a beacon is placed at is the input `placed`.
- Trigonometry is left out: `getYaw`, `getAngle`, `normalize`, `averagePose` and the yaw-based placement offsets. A pose carries whole-degree yaw, and the corner test built on `averagePose` is the input `turned`.
- Square roots are not computed. Distances are compared through their squares, and `Helpers.DistanceMeaning` ties that comparison to the Euclidean distance.
- MD5 is not computed. A fingerprint is `DigestOf` the hashed list, which treats MD5 as collision-free.
- Wall-clock reads become the parameter `now`. The comparison with the start time is kept, as `Bobcat.Node.CommCheck` and the neighbour counts show.
- Concurrency is not modelled. The ROS callbacks are sequential method calls on one owner object.
- `BOBCAT.py`: `hardResetCheck`, `addMapDiffs`, `addImages` and `DMRequestReceiever` (the map and image requests) are not modelled. They rebuild ROS messages rather than change the registries this model covers.
- `BOBCAT.py`: `CommReceiver` is not modelled as one method. Its acceptance rules are `Containers.Agent.Update`, `Containers.Agent.GuiUpdate`, `Bobcat.Node.ResetDataCheck` and `Bobcat.Node.AddRobot`, which it calls in turn.
- `BOBCAT.py` `getStatus`, `multi_agent.py` `StatusMonitor`/`BaseMonitor` and the `WaitMonitor` callbacks of `multi_agent.py` and `ma_robot.py` only copy one message field into one attribute. `RobotNode.Robot.WaitMonitor` stands for them.
- `multi_agent.py`: `simCommChecker` and `simCommCheck` are not modelled. They repeat the closure that `Bobcat.Node.SimCommCheck` models; for this generation only the recursive step, `MultiAgentNode.MultiAgent.RecurCommCheck`, is modelled.
- `actions.py`: `publishGUITask`, `publishGoalPath`, `updatePlannerGoal`, `buildMonitorStatus` and `publishStatus` are not modelled. They publish, or call the planner's services. `pause` is not modelled; nothing in the core calls it.
- Actions.Actions.Resume: `move` also sets `ignoreStopCommand` and publishes the stop flag; only `paused` is modelled.
- Actions.Actions.WaitForNeighbor: the one-second sleep of `stop` and the log line are left out; `replanStatus` is the note that `ReplanNote` names.
- Actions.Actions.TrajCheck: the 'unstuck' message it publishes is an output and is left out.
- `ma_robot.py`: `publishGUITask` is not modelled; it only publishes. `artifactCheckImages` is not modelled; it attaches an image message to a record and changes no flag.
- `containers.py`: `Beacon.update` only stamps two times from a message and is not modelled.
- BaseStation.BaseStation.FuseArtifact: the interpreter is Python 3, where storing the fused entry (base.py:201) while the loop walks `self.fusedArtifacts.values()` (base.py:168) changes the dictionary's size, and the loop's next step raises RuntimeError. That happens after the new entry is stored and before the entries it absorbed are deleted (base.py:206-207). The model lets the loop walk the table as it stood when the loop began, and so deletes them as Python 2's list copy of `values()` would.
- BaseStation.BaseStation.FuseAll and BaseStation.BaseStation.Run: under Python 3 the first report that fuses with a stored artifact would end these loops with that RuntimeError; the model carries on as FuseArtifact says.
- Bobcat.Node.ResetDataCheck: requires that a reset which applies names a known neighbour. The source looks the robot up with `self.neighbors[nid]` (BOBCAT.py:445), which raises KeyError for an unknown one; the model does not carry that exception.
- Bobcat.Node.DMResponseReceiver, Bobcat.Node.ReceiveAll and Bobcat.Node.ReceiveNext: require every response to come from a known neighbour. The source's `self.neighbors[agent.id]` (BOBCAT.py:565) raises KeyError otherwise.
- Bobcat.Node.UpdateBeacons, Bobcat.Node.ActivateFromNeighbors and MultiAgentNode.MultiAgent.UpdateBeacons: require every beacon heard of to be in the beacon table (`Known`). The source's `self.beacons[beacon.id]` (BOBCAT.py:665-673, multi_agent.py:634-642) raises KeyError for an unknown beacon.
- BaseStation.BaseStation.GetArtifactScore: requires the scored id to be in the fused table. The source's `self.fusedArtifacts[data.id]` (base.py:117-118) raises KeyError otherwise.
- MultiAgentNode.MultiAgent.CommReceiver, MultiAgentNode.MultiAgent.Receive, MultiAgentNode.MultiAgent.RelayOne, MultiAgentNode.MultiAgent.RelayAll, MultiAgentNode.Relays and MultiAgentNode.Received: require the sender and every relayed robot other than the node itself to be known (`HasBeacon`, `NeighborIds`, `Relayable`). The source's `self.beacons[data.id]` and `self.neighbors[...]` (multi_agent.py:588-623) raise KeyError otherwise.
- Containers.Decompress and Containers.DecompressPath, with Containers.Agent.Update, Containers.Agent.Accept, Containers.Agent.AcceptDirect, Containers.Agent.AcceptRelayed, Containers.Agent.UpdatePlan, Containers.Agent.UpdateCommon and Containers.Agent.UpdateTrack, which decode a goal path: require a path whose length is a multiple of three. The source reads `cpath[i]` past the end of any other list (containers.py:183-192) and raises IndexError.
- Bobcat.Node.AddRobot, BaseStation.BaseStation.AddRobotReceiver and MABaseNode.MABase.AddRobotReceiver: require the new robot's id to differ from the node's own. The source would store a neighbour record for the node itself (BOBCAT.py:188, base.py:122-123, ma_base.py:110-111); the registry invariant `Valid` keeps the node out of its own neighbour list, so that case is not modelled.
- Containers.Agent.UpdateHash: strips the image data of the agent's list only. In the source the artifacts of that list are the very objects the node's reports hold (BOBCAT.py:723-724), and a report's saved image shares their image data (containers.py:270-273), so those lose their image data too. The model holds values, so this sharing is not carried over.
- `viewer.py`, the comms-simulator nodes and the node entry points are not modelled. They are UI, timing-driven heartbeats and launch dispatch.
- RobotNode.Robot.constructor: `robot.py` never imports `Bool`, so the subscriber set-up at robot.py:73 raises NameError in `__init__`. The model takes the name as imported.
- RobotNode.Robot.BeaconCheck, RobotNode.Robot.GuiTask, RobotNode.Robot.DeployMode, RobotNode.Robot.InCommCheck, RobotNode.Robot.GuiDeploy and RobotNode.Robot.DropIfClear: `robot.py` never imports `Empty` or `math`. As written, `Empty()` at robot.py:166 raises NameError at the top of the `try`, the `except` at robot.py:196 only logs it, and so a drop never finishes: the robot stays stopped with status 'Deploy', still carries the beacon and does not explore again. With simulated comms `math.cos` at robot.py:156 raises before the `try` and ends the cycle. The model takes both names as imported, so its drops finish as the `try` at behaviors.py:70-99 describes; behaviors.py does import both.
- RobotNode.Robot.StuckCheck: `math.degrees` at robot.py:364-365 raises NameError for the same reason; the model takes `math` as imported.
- RobotNode.Robot.constructor: `BCRobot` derives from `BOBCAT` only, yet calls `stop`, `setGoalPoint`, `updateStatus`, `addBlacklist` and `deconflictGoals`, which only `BCActions` (actions.py) defines. The model gives the robot the actions object, as the robot built from `BCActions` and `BCBehaviors` would have it.
- Actions.Actions.constructor: `nearbyRobot` and `neighborWait` are never assigned anywhere, and `paused`, `exploreToGoal`, `blacklistUpdated`, `replan` and `guiBehavior` are assigned only in later calls (actions.py, monitors.py). Each can be read before any of those assignments has run, which raises AttributeError; the model starts them at false, 0 or "" instead.

## Defects modelled as written

These are reproduced literally, so every property above holds of the code as it stands:

- The y-deadband test `y < 1 and y > 1` (robot.py:278, monitors.py:214) can never hold, so it never cancels a drop. `Monitors.DeadbandNeverFires` states this.
- The comment at robot.py:216-218 speaks of "more than one" beacon in range, but the code tests `> 0`. `Beacons.DistCheckMeaning` states the `> 0` behaviour.
- In `fuseArtifact` the inner loop reuses the name `artifact` (base.py:180, 194). The id appended afterwards is therefore the last original's, not the incoming artifact's. `BaseStation.ShadowedSuffix` exhibits this.
- multi_agent keys an artifact by the concatenated text of its coordinates. Two different positions can therefore share a key, and the second is then ignored. `keyOf` is left arbitrary, so every key property above holds whatever the keys are.
- With candidates but no neighbours, the `deconflictGoals` loop of ma_robot.py never clears `conflict`. It therefore runs to the end and takes the last candidate (`MARobotNode.Chosen`).
- `updateArtifacts` in BOBCAT.py returns nothing. So the test that guards `buildBaseArtifacts` in the `run` of ma_base.py never holds, and that base list is never rebuilt there (`MABaseNode.MABase.Run`).
- `artifactCheck` in BOBCAT.py clears its update flag whenever it meets a new own artifact. Away from the base, whether the hash is refreshed therefore depends only on the last new own artifact (`Bobcat.CheckAllOwnFlag`).

## Findings

| source | as written | input that shows it | evidently intended | confidence | as-written member | corrected member |
|---|---|---|---|---|---|---|
| src/robot.py:65, src/robot.py:487 | `__init__` sets `baseRegain`, but the Deploy branch of `run` reads and increments `regainBase`, which nothing assigns first | A robot out of comm enters Deploy mode while a report is held. On a later run it is back in comm with the report acknowledged, and the Deploy branch reads `regainBase`, which raises AttributeError | the counter the Deploy branch reads starts at 0 in `__init__` | not executed | RobotNode.RegainFault | RobotNode.Robot.DeployMode |
