/**
 * The objectives of the planner (src/objectives.py): each objective holds a
 * weight that evaluate sets from the robot's state, either to nothing or to
 * the initial weight times a multiplier that priority doubles.
 *
 * The subclasses differ only in evaluate, so the class carries which one it
 * is (Kind). The robot state an objective looks at is passed to evaluate as
 * Signals; a GUI behaviour of None is the empty string.
 */
module Objectives {
  import opened Helpers

  datatype Kind = Explore | ReportArtifacts | Input | MaintainComms | ExtendComms

  /** The robot state the objectives read. */
  datatype Signals = Signals(report: bool, guiBehavior: string, baseIncomm: bool,
                             deployBeacon: bool, reverseDrop: bool)

  /**
   * When an objective asks for its full weight: exploring always; reporting
   * while a report is due; input while a GUI behaviour is pending; keeping
   * comms while the base is out of comm; extending comms while a drop, normal
   * or reverse, is wanted.
   */
  predicate Wanted(k: Kind, s: Signals)
  {
    match k
    case Explore => true
    case ReportArtifacts => s.report
    case Input => s.guiBehavior != ""
    case MaintainComms => !s.baseIncomm
    case ExtendComms => s.deployBeacon || s.reverseDrop
  }

  /**
   * The weight evaluate leaves: the full weight (initial weight times
   * multiplier) when wanted, else 0. It is one of those two values, and with a
   * positive full weight it is non-zero exactly when wanted.
   */
  function WeightFor(k: Kind, initialWeight: real, multiplier: int, s: Signals): (w: real)
    ensures w == 0.0 || w == initialWeight * multiplier as real
    ensures initialWeight > 0.0 && multiplier > 0 ==> (w != 0.0 <==> Wanted(k, s))
  {
    if Wanted(k, s) then
      var w := initialWeight * multiplier as real;
      assert initialWeight > 0.0 && multiplier > 0 ==> w > 0.0 by {
        if initialWeight > 0.0 && multiplier > 0 {
          MulPositive(initialWeight, multiplier as real);
        }
      }
      w
    else 0.0
  }

  /** Exploring keeps its full weight whatever the robot's state. */
  lemma ExploreAlwaysFull(initialWeight: real, multiplier: int, s: Signals, t: Signals)
    ensures WeightFor(Explore, initialWeight, multiplier, s) == WeightFor(Explore, initialWeight, multiplier, t)
                                                            == initialWeight * multiplier as real
  {
  }

  class Objective {
    const kind: Kind
    const initialWeight: real
    var weight: real
    var priority: bool
    var multiplier: int

    /** Priority and the doubled multiplier go together; the initial weight is positive. */
    predicate Valid()
      reads this
    {
      initialWeight > 0.0 && (multiplier == 1 || multiplier == 2) && (priority <==> multiplier == 2)
    }

    /**
     * __init__: initial weight 1 (0.7 for keeping comms), no priority,
     * multiplier 1. The weight is set before the subclass lowers the initial
     * weight, so it starts at 1 for every kind.
     */
    constructor(k: Kind)
      ensures Valid() && kind == k && initialWeight == (if k == MaintainComms then 0.7 else 1.0)
      ensures weight == 1.0 && !priority && multiplier == 1
    {
      kind := k;
      initialWeight := if k == MaintainComms then 0.7 else 1.0;
      weight := 1.0;
      priority := false;
      multiplier := 1;
    }

    /** setPriority: the objective is a priority and its multiplier doubles. */
    method SetPriority()
      requires Valid()
      modifies this`priority, this`multiplier
      ensures Valid() && priority && multiplier == 2
    {
      priority := true;
      multiplier := 2;
    }

    /** setWeight: the full weight when no weight is given, else exactly the one given. */
    method SetWeight(w: real, given: bool)
      modifies this`weight
      ensures weight == if given then w else initialWeight * multiplier as real
    {
      if !given {
        weight := initialWeight * multiplier as real;
      } else {
        weight := w;
      }
    }

    /** evaluate: clear the weight, then give the full weight if wanted. */
    method Evaluate(s: Signals)
      requires Valid()
      modifies this`weight
      ensures weight == WeightFor(kind, initialWeight, multiplier, s)
      ensures weight != 0.0 <==> Wanted(kind, s)
    {
      if kind == Explore {
        SetWeight(0.0, false);
      } else {
        SetWeight(0.0, true);
        if Wanted(kind, s) {
          SetWeight(0.0, false);
        }
      }
    }
  }
}
