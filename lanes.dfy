/**
 * Priority lanes.  A lane is a single bit; a set of lanes is a bit vector and
 * a lower bit is a more urgent lane.  JavaScript computes on 32-bit integers;
 * the five lanes are bits 0-4 and every operation below (`|`, `&`, `& ~`,
 * `x & -x`) determines each low bit of its result from the same or lower bits
 * of its operands, so an 8-bit vector computes exactly the JavaScript values.
 */
module Lanes {
  import opened Wrappers
  import opened Scheduler

  type Lane = bv8
  type Lanes = bv8

  const SyncLane: Lane := 1
  /** Continuous input such as a drag. */
  const InputContinuousLane: Lane := 2
  const DefaultLane: Lane := 4
  const IdleLane: Lane := 8
  const TransitionLane: Lane := 16

  const NoLane: Lane := 0
  const NoLanes: Lanes := 0

  /** `m` is exactly one lane. */
  predicate IsSingleLane(m: Lane)
  {
    m != 0 && m & (m - 1) == 0
  }

  function MergeLanes(laneA: Lanes, laneB: Lanes): (r: Lanes)
    ensures IsSubsetOfLanes(r, laneA) && IsSubsetOfLanes(r, laneB)
  {
    laneA | laneB
  }

  /** The most urgent (lowest) lane of `lanes`, or `NoLane` for the empty set. */
  function GetHighestPriorityLane(lanes: Lanes): (r: Lane)
    ensures lanes == NoLanes ==> r == NoLane
    ensures lanes != NoLanes ==> IsSingleLane(r) && r & lanes == r && (r - 1) & lanes == 0
  {
    lanes & -lanes
  }

  predicate IsSubsetOfLanes(lanes: Lanes, subset: Lanes)
  {
    lanes & subset == subset
  }

  predicate IncludeSomeLanes(lanes: Lanes, subset: Lanes)
  {
    lanes & subset != NoLanes
  }

  /** The lanes of `lanes` that are not in `subset`. */
  function RemoveLanes(lanes: Lanes, subset: Lanes): (r: Lanes)
    ensures IsSubsetOfLanes(lanes, r)
    ensures !IncludeSomeLanes(r, subset)
    ensures IsSubsetOfLanes(MergeLanes(r, subset), lanes)
  {
    lanes & !subset
  }

  /** `requestUpdateLanes`, with the batch config's `transition` and the scheduler's current level as parameters. */
  function RequestUpdateLanes(transition: Option<int>, currentSchedulerPriority: SchedulerPriority): (r: Lane)
    ensures transition.Some? ==> r == TransitionLane
    ensures transition.None? ==> r == SchedulerPriorityToLane(currentSchedulerPriority)
  {
    if transition.Some? then TransitionLane else SchedulerPriorityToLane(currentSchedulerPriority)
  }

  /** The scheduler level of the most urgent lane of `lanes`. */
  function LanesToSchedulerPriority(lanes: Lanes): (r: SchedulerPriority)
    ensures r == ImmediatePriority <==> lanes & SyncLane != 0
    ensures r == UserBlockingPriority <==> lanes & SyncLane == 0 && lanes & InputContinuousLane != 0
    ensures r == NormalPriority <==> lanes & (SyncLane | InputContinuousLane) == 0 && lanes & DefaultLane != 0
    ensures r == IdlePriority <==> lanes & (SyncLane | InputContinuousLane | DefaultLane) == 0
  {
    var lane := GetHighestPriorityLane(lanes);
    if lane == SyncLane then ImmediatePriority
    else if lane == InputContinuousLane then UserBlockingPriority
    else if lane == DefaultLane then NormalPriority
    else IdlePriority
  }

  function SchedulerPriorityToLane(schedulerPriority: SchedulerPriority): (r: Lane)
    ensures r == NoLane || IsSingleLane(r)
    ensures r == NoLane <==> schedulerPriority in {LowPriority, IdlePriority}
  {
    match schedulerPriority
    case ImmediatePriority => SyncLane
    case UserBlockingPriority => InputContinuousLane
    case NormalPriority => DefaultLane
    case _ => NoLane
  }

  // ---------------------------------------------------------------------
  // Lane sets as sets: each operation read lane by lane.

  lemma UnionAt(a: Lanes, b: Lanes, m: Lane)
    ensures (a | b) & m != 0 <==> a & m != 0 || b & m != 0
  {
  }

  lemma DifferenceAt(a: Lanes, b: Lanes, m: Lane)
    requires m != 0 && m & (m - 1) == 0
    ensures (a & !b) & m != 0 <==> a & m != 0 && b & m == 0
  {
  }

  lemma SubsetAt(s: Lanes, t: Lanes, m: Lane)
    requires s & t == t && m & t != 0
    ensures m & s != 0
  {
  }

  lemma LowestAt(l: Lanes, m: Lane)
    requires l & -l != 0 && ((l & -l) - 1) & l == 0
    requires m != 0 && m & (m - 1) == 0 && m & l != 0
    ensures l & -l <= m
  {
  }

  /** A lane is in the merge iff it is in one of the operands. */
  lemma MergeLanesIsUnion(a: Lanes, b: Lanes)
    ensures forall m | IsSingleLane(m) :: MergeLanes(a, b) & m != 0 <==> a & m != 0 || b & m != 0
  {
    forall m | IsSingleLane(m)
      ensures MergeLanes(a, b) & m != 0 <==> a & m != 0 || b & m != 0
    {
      UnionAt(a, b, m);
    }
  }

  lemma MergeLanesAlgebra(a: Lanes, b: Lanes, c: Lanes)
    ensures MergeLanes(a, b) == MergeLanes(b, a)
    ensures MergeLanes(MergeLanes(a, b), c) == MergeLanes(a, MergeLanes(b, c))
    ensures MergeLanes(a, a) == a
    ensures MergeLanes(a, NoLanes) == a
  {
  }

  /** A lane is left by `RemoveLanes` iff it is in `lanes` and not in `subset`. */
  lemma RemoveLanesIsDifference(lanes: Lanes, subset: Lanes)
    ensures forall m | IsSingleLane(m) :: RemoveLanes(lanes, subset) & m != 0 <==> lanes & m != 0 && subset & m == 0
  {
    forall m | IsSingleLane(m)
      ensures RemoveLanes(lanes, subset) & m != 0 <==> lanes & m != 0 && subset & m == 0
    {
      DifferenceAt(lanes, subset, m);
    }
  }

  /** `isSubsetOfLanes(lanes, subset)` holds iff every lane of `subset` is a lane of `lanes`. */
  lemma IsSubsetOfLanesMeans(lanes: Lanes, subset: Lanes)
    ensures IsSubsetOfLanes(lanes, subset) <==> forall m | IsSingleLane(m) :: subset & m != 0 ==> lanes & m != 0
  {
    if !IsSubsetOfLanes(lanes, subset) {
      var m := GetHighestPriorityLane(subset & !lanes);
      assert subset & m != 0 && lanes & m == 0;
    } else {
      forall m | IsSingleLane(m) && subset & m != 0
        ensures lanes & m != 0
      {
        SubsetAt(lanes, subset, m);
      }
    }
  }

  /** `includeSomeLanes(lanes, subset)` holds iff the two sets share a lane. */
  lemma IncludeSomeLanesMeans(lanes: Lanes, subset: Lanes)
    ensures IncludeSomeLanes(lanes, subset) <==> exists m | IsSingleLane(m) :: lanes & m != 0 && subset & m != 0
  {
    if IncludeSomeLanes(lanes, subset) {
      var m := GetHighestPriorityLane(lanes & subset);
      assert lanes & m != 0 && subset & m != 0;
    }
  }

  /** The highest-priority lane is a lane of the set, and no lane of the set is more urgent. */
  lemma GetHighestPriorityLaneIsMostUrgent(lanes: Lanes)
    requires lanes != NoLanes
    ensures lanes & GetHighestPriorityLane(lanes) != 0
    ensures forall m | IsSingleLane(m) && lanes & m != 0 :: GetHighestPriorityLane(lanes) <= m
  {
    forall m | IsSingleLane(m) && lanes & m != 0
      ensures GetHighestPriorityLane(lanes) <= m
    {
      LowestAt(lanes, m);
    }
  }

  /**
   * The two maps between scheduler levels and lanes: the three levels that
   * have a lane come back unchanged, and every other lane set, the transition
   * and idle lanes among them, maps to the idle level.
   */
  lemma SchedulerPriorityRoundTrip(p: SchedulerPriority)
    ensures p in {ImmediatePriority, UserBlockingPriority, NormalPriority} ==>
              LanesToSchedulerPriority(SchedulerPriorityToLane(p)) == p
    ensures p in {LowPriority, IdlePriority} ==>
              LanesToSchedulerPriority(SchedulerPriorityToLane(p)) == IdlePriority
    ensures LanesToSchedulerPriority(TransitionLane) == IdlePriority
    ensures LanesToSchedulerPriority(IdleLane) == IdlePriority
  {
  }

  /** Inside a transition the lane does not depend on the scheduler's level. */
  lemma TransitionIgnoresPriority(t: int, p: SchedulerPriority, q: SchedulerPriority)
    ensures RequestUpdateLanes(Some(t), p) == RequestUpdateLanes(Some(t), q) == TransitionLane
  {
  }
}
