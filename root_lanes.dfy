/**
 * The lane bookkeeping of a fiber root: which lanes have work pending,
 * which of those suspended, and which suspended lanes were pinged since.
 */
module RootLanes {
  import opened Lanes
  import opened Fiber

  /** Only a suspended lane can be pinged. */
  ghost predicate PingedWithinSuspended(root: FiberRootNode)
    reads root
  {
    IsSubsetOfLanes(root.suspendedLanes, root.pingedLanes)
  }

  /** `markRootFinished`: `lane` is done, and nothing is suspended or pinged any more. */
  method MarkRootFinished(root: FiberRootNode, lane: Lane)
    modifies root`pendingLanes, root`suspendedLanes, root`pingedLanes
    ensures root.pendingLanes == RemoveLanes(old(root.pendingLanes), lane)
    ensures root.suspendedLanes == NoLanes && root.pingedLanes == NoLanes
    ensures PingedWithinSuspended(root)
  {
    root.pendingLanes := root.pendingLanes & !lane;
    root.suspendedLanes := NoLanes;
    root.pingedLanes := NoLanes;
  }

  /** `markRootSuspended`: the lane becomes suspended and is no longer pinged. */
  method MarkRootSuspended(root: FiberRootNode, suspendedLane: Lane)
    modifies root`suspendedLanes, root`pingedLanes
    ensures root.suspendedLanes == MergeLanes(old(root.suspendedLanes), suspendedLane)
    ensures root.pingedLanes == RemoveLanes(old(root.pingedLanes), suspendedLane)
    ensures old(PingedWithinSuspended(root)) ==> PingedWithinSuspended(root)
  {
    root.suspendedLanes := MergeLanes(root.suspendedLanes, suspendedLane);
    root.pingedLanes := root.pingedLanes & !suspendedLane;
  }

  /** `markRootPinged`: of the pinged lane, only what is suspended is recorded. */
  method MarkRootPinged(root: FiberRootNode, pingedLane: Lane)
    modifies root`pingedLanes
    ensures root.pingedLanes == MergeLanes(old(root.pingedLanes), root.suspendedLanes & pingedLane)
    ensures old(PingedWithinSuspended(root)) ==> PingedWithinSuspended(root)
  {
    PingStaysWithin(root.suspendedLanes, root.pingedLanes, pingedLane);
    root.pingedLanes := MergeLanes(root.pingedLanes, root.suspendedLanes & pingedLane);
  }

  /** Adding suspended lanes to the pinged set keeps it within the suspended set. */
  lemma PingStaysWithin(suspended: Lanes, pinged: Lanes, lane: Lane)
    ensures IsSubsetOfLanes(suspended, pinged) ==>
              IsSubsetOfLanes(suspended, MergeLanes(pinged, suspended & lane))
  {
  }

  /**
   * `getNextLane`: the most urgent pending lane that is not suspended; if
   * every pending lane is suspended, the most urgent pending lane that was
   * pinged; otherwise no lane.
   */
  function GetNextLane(root: FiberRootNode): (r: Lane)
    reads root
    ensures root.pendingLanes == NoLanes ==> r == NoLane
    ensures root.pendingLanes & !root.suspendedLanes != NoLanes ==>
              IsSingleLane(r) && r & root.pendingLanes != 0 && r & root.suspendedLanes == 0 &&
              (r - 1) & root.pendingLanes & !root.suspendedLanes == 0
    ensures root.pendingLanes & !root.suspendedLanes == NoLanes && root.pendingLanes & root.pingedLanes != NoLanes ==>
              IsSingleLane(r) && r & root.pendingLanes & root.pingedLanes != 0 &&
              (r - 1) & root.pendingLanes & root.pingedLanes == 0
    ensures root.pendingLanes & !root.suspendedLanes == NoLanes && root.pendingLanes & root.pingedLanes == NoLanes ==>
              r == NoLane
  {
    var pendingLanes := root.pendingLanes;
    var suspendedLanes := root.suspendedLanes;
    if pendingLanes == NoLanes then NoLane
    else
      var unblockedLanes := pendingLanes & !suspendedLanes;
      if unblockedLanes != NoLanes then GetHighestPriorityLane(unblockedLanes)
      else
        var pingedLanes := pendingLanes & root.pingedLanes;
        if pingedLanes != NoLanes then GetHighestPriorityLane(pingedLanes) else NoLane
  }
}
