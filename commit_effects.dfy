/**
 * The two walks of the commit phase.  `commitEffects` goes depth first
 * through the finished tree, going down only into fibers whose
 * `subtreeFlags` meet the phase's mask, and runs the phase's callback on
 * each fiber it reaches after the fibers below it: the mutation callback
 * places, updates, deletes, queues passive effects, attaches refs and hides
 * or shows Offscreen content; the layout callback attaches refs.
 */
module CommitEffects {
  import opened Wrappers
  import opened Js
  import opened WorkTags
  import opened FiberFlags
  import opened HostTypes
  import opened Fiber
  import opened FiberTree
  import opened HostConfig
  import opened ChildFibers
  import opened CommitWork
  import opened CommitDeletion
  import CompleteWork

  // ---------------------------------------------------------------------
  // Hiding and showing what an Offscreen fiber holds

  /**
   * The host-config call `hideOrUnhideAllChildren` makes on one fiber: hide
   * or show a host instance, or a text instance (shown again with the
   * fiber's content); nothing for any other fiber.
   */
  function HideCall(f: FiberNode, isHidden: bool): seq<Event>
  {
    if f.tag == HostComponent then [if isHidden then Hidden(f.stateNode) else Unhidden(f.stateNode)]
    else if f.tag == HostText then [if isHidden then TextHidden(f.stateNode) else TextUnhidden(f.stateNode, Get(f.memoizedProps, "content"))]
    else []
  }

  /** The calls on each fiber of `ids`, in order. */
  ghost function HideCalls(fibers: map<FiberId, FiberNode>, ids: seq<FiberId>, isHidden: bool): seq<Event>
    decreases |ids|
  {
    if ids == [] then []
    else
      var n := |ids| - 1;
      HideCalls(fibers, ids[..n], isHidden) + (if ids[n] in fibers then HideCall(fibers[ids[n]], isHidden) else [])
  }

  lemma HideCallsSnoc(fibers: map<FiberId, FiberNode>, ids: seq<FiberId>, x: FiberId, isHidden: bool)
    ensures HideCalls(fibers, ids + [x], isHidden) == HideCalls(fibers, ids, isHidden) + (if x in fibers then HideCall(fibers[x], isHidden) else [])
  {
    assert (ids + [x])[..|ids|] == ids;
  }

  /** Adding a fiber to the walk adds it to the host fibers met exactly when it is one. */
  lemma HostsOnlySnoc(fibers: map<FiberId, FiberNode>, ids: seq<FiberId>, x: FiberId)
    ensures CompleteWork.HostsOnly(fibers, ids + [x]) == CompleteWork.HostsOnly(fibers, ids) + (if x in fibers && IsHost(fibers[x]) then [x] else [])
  {
    assert (ids + [x])[..|ids|] == ids;
  }

  /** A walk under a top that is no host meets, among host fibers, exactly the top ones. */
  lemma WalkMeetsTopHosts(fibers: map<FiberId, FiberNode>, t: Tree)
    requires Spans(fibers, t, AtHostsAndHidden) && !IsHost(fibers[t.id])
    ensures CompleteWork.HostsOnly(fibers, Visit(t)) == CompleteWork.TopHosts(fibers, [t])
  {
    CompleteWork.HostsOnlyAppend(fibers, [t.id], VisitAll(t.kids));
    HostsOnlySnoc(fibers, [], t.id);
    CompleteWork.HostsOnlyTop(fibers, t.kids, AtHostsAndHidden);
    assert [t][1..] == [];
  }

  /**
   * `hideOrUnhideAllChildren(finishedWork, isHidden)`, that is
   * `findHostSubtreeRoot` with the hiding callback: a pre-order walk of the
   * subtree `t` under `top` that calls back on every host fiber it meets
   * and goes neither into a host fiber nor into a hidden Offscreen fiber
   * other than `top`.  The walk's `hostSubtreeRoot` is set on a
   * HostComponent and cleared as the walk leaves it, which it does before
   * meeting any other host fiber, so the calls are never skipped.
   */
  method HideOrUnhideAllChildren(store: FiberStore, trace: Trace, top: FiberId, isHidden: bool, ghost t: Tree)
    requires t.id == top && Spans(store.fibers, t, AtHostsAndHidden) && Parented(store.fibers, t) && Distinct(Visit(t))
    modifies store`fibers, trace`events
    ensures store.fibers == old(store.fibers)
    ensures trace.events == old(trace.events) + HideCalls(store.fibers, CompleteWork.TopHosts(store.fibers, [t]), isHidden)
  {
    ghost var e0 := trace.events;
    var node := top;
    ghost var path: seq<nat> := [];
    var hostSubtreeRoot: Option<FiberId> := None;
    NodeInVisit(t, path);
    while true
      invariant ValidPath(t, path) && node == Sub(t, path).id && |Before(t, path)| < |Visit(t)|
      invariant store.fibers == old(store.fibers) && hostSubtreeRoot.None? && (path != [] ==> !IsHost(store.fibers[top]))
      invariant trace.events == e0 + HideCalls(store.fibers, CompleteWork.HostsOnly(store.fibers, Before(t, path)), isHidden)
      decreases |Visit(t)| - |Before(t, path)|
    {
      var more;
      more, node, path, hostSubtreeRoot := HideAndMove(store, trace, top, isHidden, t, e0, node, path, hostSubtreeRoot);
      if !more {
        return;
      }
    }
  }

  /** Meeting one more fiber adds the call on it, if any. */
  lemma HideCallsStep(fibers: map<FiberId, FiberNode>, ids: seq<FiberId>, x: FiberId, isHidden: bool)
    requires x in fibers
    ensures HideCalls(fibers, CompleteWork.HostsOnly(fibers, ids + [x]), isHidden) ==
            HideCalls(fibers, CompleteWork.HostsOnly(fibers, ids), isHidden) + HideCall(fibers[x], isHidden)
  {
    HostsOnlySnoc(fibers, ids, x);
    if IsHost(fibers[x]) {
      HideCallsSnoc(fibers, CompleteWork.HostsOnly(fibers, ids), x, isHidden);
    } else {
      assert HideCall(fibers[x], isHidden) == [];
      assert CompleteWork.HostsOnly(fibers, ids) + [] == CompleteWork.HostsOnly(fibers, ids);
    }
  }

  /** One round of `findHostSubtreeRoot` with the hiding callback: the node at `path`, then the move to the next one. */
  method HideAndMove(store: FiberStore, trace: Trace, top: FiberId, isHidden: bool, ghost t: Tree, ghost e0: seq<Event>,
                     node: FiberId, ghost path: seq<nat>, hostSubtreeRoot: Option<FiberId>)
    returns (more: bool, next: FiberId, ghost path': seq<nat>, hostSubtreeRoot': Option<FiberId>)
    requires t.id == top && Spans(store.fibers, t, AtHostsAndHidden) && Parented(store.fibers, t) && Distinct(Visit(t))
    requires ValidPath(t, path) && node == Sub(t, path).id
    requires hostSubtreeRoot.None? && (path != [] ==> !IsHost(store.fibers[top]))
    requires trace.events == e0 + HideCalls(store.fibers, CompleteWork.HostsOnly(store.fibers, Before(t, path)), isHidden)
    modifies store`fibers, trace`events
    ensures store.fibers == old(store.fibers) && hostSubtreeRoot'.None?
    ensures more ==> ValidPath(t, path') && next == Sub(t, path').id && |Before(t, path)| < |Before(t, path')| < |Visit(t)| &&
                     (path' != [] ==> !IsHost(store.fibers[top])) &&
                     trace.events == e0 + HideCalls(store.fibers, CompleteWork.HostsOnly(store.fibers, Before(t, path')), isHidden)
    ensures !more ==> trace.events == e0 + HideCalls(store.fibers, CompleteWork.TopHosts(store.fibers, [t]), isHidden)
  {
    MetNode(store.fibers, t, path);
    var goDown;
    goDown, hostSubtreeRoot' := HideAt(store, trace, top, isHidden, t, e0, node, path, hostSubtreeRoot);
    if goDown {
      next, path' := GoDown(store, t, AtHostsAndHidden, node, path);
      return true, next, path', hostSubtreeRoot';
    }
    if hostSubtreeRoot' == Some(node) {
      // leaving the subtree of the host fiber just met
      hostSubtreeRoot' := None;
    }
    more, next, path' := LeaveHost(store, top, t, node, path);
  }

  /** The hiding callback on the node at `path`, which joins the fibers met so far. */
  method HideAt(store: FiberStore, trace: Trace, top: FiberId, isHidden: bool, ghost t: Tree, ghost e0: seq<Event>,
                node: FiberId, ghost path: seq<nat>, hostSubtreeRoot: Option<FiberId>)
    returns (goDown: bool, hostSubtreeRoot': Option<FiberId>)
    requires ValidPath(t, path) && node == Sub(t, path).id && node in store.fibers && hostSubtreeRoot.None?
    requires trace.events == e0 + HideCalls(store.fibers, CompleteWork.HostsOnly(store.fibers, Before(t, path)), isHidden)
    modifies trace`events
    ensures trace.events == e0 + HideCalls(store.fibers, CompleteWork.HostsOnly(store.fibers, Before(t, path) + [node]), isHidden)
    ensures hostSubtreeRoot' == if store.fibers[node].tag == HostComponent then Some(node) else None
    ensures goDown <==> (!Stops(AtHostsAndHidden, store.fibers[node]) || (node == top && !IsHost(store.fibers[node]))) &&
                        store.fibers[node].child.Some?
  {
    ghost var f0 := store.fibers;
    HideCallsStep(f0, Before(t, path), node, isHidden);
    ghost var met, call := HideCalls(f0, CompleteWork.HostsOnly(f0, Before(t, path)), isHidden), HideCall(f0[node], isHidden);
    goDown, hostSubtreeRoot' := HideOne(trace, store.fibers[node], node, node == top, isHidden, hostSubtreeRoot);
    assert (e0 + met) + call == e0 + (met + call);
  }

  /** The node at `path` is in the arena, and below the top it is not the top. */
  lemma MetNode(fibers: map<FiberId, FiberNode>, t: Tree, path: seq<nat>)
    requires Spans(fibers, t, AtHostsAndHidden) && Distinct(Visit(t)) && ValidPath(t, path)
    ensures Sub(t, path).id in fibers && (path != [] ==> Sub(t, path).id != t.id)
  {
    if path != [] {
      SubBelow(fibers, t, path, AtHostsAndHidden);
      TopOnlyAtEmptyPath(t, path);
    }
  }

  /** Down from the node at `path` to its first child, pointed back at it. */
  method GoDown(store: FiberStore, ghost t: Tree, ghost cut: Cut, node: FiberId, ghost path: seq<nat>)
    returns (next: FiberId, ghost path': seq<nat>)
    requires Spans(store.fibers, t, cut) && Parented(store.fibers, t) && ValidPath(t, path) && node == Sub(t, path).id
    requires node in store.fibers && store.fibers[node].child.Some?
    requires path != [] ==> !Stops(cut, store.fibers[node])
    modifies store`fibers
    ensures store.fibers == old(store.fibers)
    ensures ValidPath(t, path') && next == Sub(t, path').id && Before(t, path') == Before(t, path) + [node] &&
            |Before(t, path')| < |Visit(t)| && path' != []
  {
    StepDown(store.fibers, t, cut, path);
    var child := store.fibers[node].child.value;
    SetReturn(store, child, Some(node));
    next, path' := child, path + [0];
    NodeInVisit(t, path');
  }

  /**
   * What `findHostSubtreeRoot` does on meeting a fiber: the hiding callback
   * on a host fiber (a HostComponent becomes `hostSubtreeRoot`), nothing on
   * a hidden Offscreen fiber below the top, and otherwise the decision to
   * go down to the child.
   */
  method HideOne(trace: Trace, f: FiberNode, node: FiberId, atTop: bool, isHidden: bool, hostSubtreeRoot: Option<FiberId>)
    returns (goDown: bool, hostSubtreeRoot': Option<FiberId>)
    requires hostSubtreeRoot.None?
    modifies trace`events
    ensures trace.events == old(trace.events) + HideCall(f, isHidden)
    ensures hostSubtreeRoot' == if f.tag == HostComponent then Some(node) else None
    ensures goDown <==> (!Stops(AtHostsAndHidden, f) || (atTop && !IsHost(f))) && f.child.Some?
  {
    goDown, hostSubtreeRoot' := false, hostSubtreeRoot;
    if f.tag == HostComponent {
      if hostSubtreeRoot'.None? {
        hostSubtreeRoot' := Some(node);
        trace.events := trace.events + HideCall(f, isHidden);
      }
    } else if f.tag == HostText {
      if hostSubtreeRoot'.None? {
        trace.events := trace.events + HideCall(f, isHidden);
      }
    } else if f.tag == OffscreenComponent && IsHiddenMode(f.pendingProps) && !atTop {
      // a nested hidden Offscreen fiber is left to its own boundary
    } else if f.child.Some? {
      goDown := true;
    }
  }

  /**
   * After a node the hiding walk does not go into: the end of the walk at
   * the top, or up and across to the next sibling, or the end of the walk on
   * the way up.
   */
  method LeaveHost(store: FiberStore, top: FiberId, ghost t: Tree, node: FiberId, ghost path: seq<nat>)
    returns (more: bool, next: FiberId, ghost path': seq<nat>)
    requires t.id == top && Spans(store.fibers, t, AtHostsAndHidden) && Parented(store.fibers, t) && Distinct(Visit(t))
    requires ValidPath(t, path) && node == Sub(t, path).id && node in store.fibers && (path != [] ==> !IsHost(store.fibers[top]))
    requires path != [] ==> Stops(AtHostsAndHidden, store.fibers[node]) || store.fibers[node].child.None?
    requires path == [] ==> IsHost(store.fibers[node]) || store.fibers[node].child.None?
    modifies store`fibers
    ensures store.fibers == old(store.fibers)
    ensures more ==> ValidPath(t, path') && next == Sub(t, path').id && Before(t, path') == Before(t, path) + [node] &&
                     |Before(t, path)| < |Before(t, path')| < |Visit(t)| && (path' != [] ==> !IsHost(store.fibers[top]))
    ensures !more ==> CompleteWork.HostsOnly(store.fibers, Before(t, path) + [node]) == CompleteWork.TopHosts(store.fibers, [t])
  {
    ghost var f0 := store.fibers;
    next, path' := node, path;
    if node == top {
      MetNode(f0, t, path);
      StepDown(f0, t, AtHostsAndHidden, path);
      if IsHost(f0[node]) {
        HostsOnlySnoc(f0, [], node);
        assert [t][1..] == [];
      } else {
        WalkMeetsTopHosts(f0, t);
      }
      return false, next, path';
    }
    assert path != [];
    LeafVisit(f0, t, AtHostsAndHidden, path);
    var sibling;
    more, sibling, path' := CompleteWork.ClimbToSibling(store, top, t, AtHostsAndHidden, Some(node), path);
    if more {
      next := sibling.value;
    } else {
      WalkMeetsTopHosts(f0, t);
    }
  }

  // ---------------------------------------------------------------------
  // Deleting the children a fiber lost

  /**
   * A fiber of some `deletions` list: the current subtree `tree` it tops,
   * the `return` chain `chain` above it, and the fiber `owner` whose list it is.
   */
  datatype Deletion = Deletion(tree: Tree, chain: seq<FiberId>, owner: FiberId)

  /** Each deletion is filed under its own fiber, which lies in no other deleted subtree and in no chain above a deleted fiber. */
  ghost predicate Apart(dels: map<FiberId, Deletion>)
  {
    forall a, b | a in dels && b in dels :: dels[a].tree.id == a && a !in dels[b].chain && (a != b ==> a !in Visit(dels[b].tree))
  }

  /** No instance and no container has gone, and every instance keeps its kind. */
  ghost predicate SameHostShape(instances0: map<InstanceRef, HostInstance>, containers0: map<ContainerRef, Container>,
                                instances1: map<InstanceRef, HostInstance>, containers1: map<ContainerRef, Container>)
  {
    instances1.Keys == instances0.Keys && containers1.Keys == containers0.Keys &&
    forall x | x in instances0 :: x in instances1 && instances1[x].Instance? == instances0[x].Instance?
  }

  /**
   * What `commitDeletion` needs of a deleted subtree: spanned, parented,
   * met once and shaped, below a shaped return chain whose host parent, if
   * any, has a children array.
   */
  ghost predicate DeletionReady(fibers: map<FiberId, FiberNode>, instances: map<InstanceRef, HostInstance>,
                                containers: map<ContainerRef, Container>, d: Deletion)
  {
    Spans(fibers, d.tree, Nowhere) && Parented(fibers, d.tree) && Distinct(Visit(d.tree)) && ShapedTree(fibers, d.tree) &&
    ReturnChain(fibers, fibers[d.tree.id].ret, d.chain) && ShapedAll(fibers, d.chain) &&
    (HostParentIn(fibers, d.chain).Some? ==> HasChildrenIn(instances, containers, HostParentIn(fibers, d.chain).value))
  }

  /** A deletion stays ready while only flags change on its subtree and chain and the host keeps its shape. */
  lemma DeletionReadyKept(fibers: map<FiberId, FiberNode>, fibers': map<FiberId, FiberNode>,
                          instances: map<InstanceRef, HostInstance>, containers: map<ContainerRef, Container>,
                          instances': map<InstanceRef, HostInstance>, containers': map<ContainerRef, Container>, d: Deletion)
    requires DeletionReady(fibers, instances, containers, d) && KeptOn(fibers, fibers', Visit(d.tree) + d.chain)
    requires SameHostShape(instances, containers, instances', containers')
    ensures DeletionReady(fibers', instances', containers', d)
    ensures forall u :: UnmountPlan(fibers', u, Visit(d.tree)) == UnmountPlan(fibers, u, Visit(d.tree))
  {
    var v := Visit(d.tree);
    assert forall x | x in v :: x in v + d.chain;
    assert forall x | x in d.chain :: x in v + d.chain;
    assert v[0] == d.tree.id;
    SpansKept(fibers, fibers', d.tree, Nowhere);
    ParentedKept(fibers, fibers', d.tree);
    ShapedTreeKept(fibers, fibers', d.tree);
    ReturnChainKept(fibers, fibers', fibers[d.tree.id].ret, d.chain);
    HostParentInKept(fibers, fibers', d.chain);
    SpansIn(fibers, d.tree);
    forall u ensures UnmountPlan(fibers', u, v) == UnmountPlan(fibers, u, v) {
      UnmountPlanKept(fibers, fibers', u, v);
    }
  }

  /** Every node of a spanned subtree is in the arena. */
  lemma {:induction false} SpansIn(fibers: map<FiberId, FiberNode>, t: Tree)
    requires Spans(fibers, t, Nowhere)
    ensures forall x | x in Visit(t) :: x in fibers
  {
    VisitIn(fibers, [t]);
    assert VisitAll([t]) == Visit(t) + VisitAll([]);
  }

  lemma {:induction false} VisitIn(fibers: map<FiberId, FiberNode>, ts: seq<Tree>)
    requires forall i | 0 <= i < |ts| :: Below(fibers, ts[i], Nowhere) || Spans(fibers, ts[i], Nowhere)
    ensures forall x | x in VisitAll(ts) :: x in fibers
    decreases ts
  {
    if ts != [] {
      var t := ts[0];
      assert Spans(fibers, t, Nowhere);
      VisitIn(fibers, t.kids);
      VisitIn(fibers, ts[1..]);
    }
  }

  /** The fibers a deleting fiber lists, when it is flagged `ChildDeletion`. */
  function Listed(f: FiberNode): seq<FiberId>
  {
    if HasFlag(f.flags, ChildDeletion) && f.deletions.Some? then f.deletions.value else []
  }

  /** The fibers once the deleted fibers `ds` are cut loose: no `return`, no `child`. */
  ghost function CutLoose(fibers: map<FiberId, FiberNode>, ds: seq<FiberId>): map<FiberId, FiberNode>
  {
    map y | y in fibers :: if y in ds then fibers[y].(ret := None, child := None) else fibers[y]
  }

  /** The ref detaches of deleting `ds` in order. */
  ghost function DetachesOf(fibers: map<FiberId, FiberNode>, dels: map<FiberId, Deletion>, ds: seq<FiberId>): seq<Event>
    decreases |ds|
  {
    if ds == [] then []
    else
      var n := |ds| - 1;
      DetachesOf(fibers, dels, ds[..n]) + (if ds[n] in dels then DetachCalls(fibers, Visit(dels[ds[n]].tree)) else [])
  }

  /** The effect lists queued for unmounting by deleting `ds` in order. */
  ghost function UnmountsOf(fibers: map<FiberId, FiberNode>, dels: map<FiberId, Deletion>, ds: seq<FiberId>): seq<Option<EffectId>>
    decreases |ds|
  {
    if ds == [] then []
    else
      var n := |ds| - 1;
      UnmountsOf(fibers, dels, ds[..n]) + (if ds[n] in dels then PassiveUnmounts(fibers, Visit(dels[ds[n]].tree)) else [])
  }

  /** The host once `parent` holds `children`, with nothing else changed. */
  function WithChildren(instances: map<InstanceRef, HostInstance>, containers: map<ContainerRef, Container>,
                        parent: HostParent, children: seq<InstanceRef>)
    : (map<InstanceRef, HostInstance>, map<ContainerRef, Container>)
    requires HasChildrenIn(instances, containers, parent)
  {
    match parent
    case ContainerParent(c) => (instances, containers[c := containers[c].(children := children)])
    case InstanceParent(i) => (instances[i := instances[i].(children := children)], containers)
  }

  /**
   * The host once the subtree of `d` left its host parent: each of its top
   * host instances removed from the parent's children in turn, or the
   * error of the removal that threw.  (A deletion that is not shaped is
   * never committed; it is read as leaving the host alone.)
   */
  ghost function HostAfterDeletion(fibers: map<FiberId, FiberNode>, d: Deletion,
                                   instances: map<InstanceRef, HostInstance>, containers: map<ContainerRef, Container>)
    : Result<(map<InstanceRef, HostInstance>, map<ContainerRef, Container>)>
  {
    if !ShapedTree(fibers, d.tree) || !ShapedAll(fibers, d.chain) then Ok((instances, containers))
    else
    var xs, parent := TopHostInstances(fibers, d.tree), HostParentIn(fibers, d.chain);
    if xs == [] || parent.None? || !HasChildrenIn(instances, containers, parent.value) then Ok((instances, containers))
    else
      match RemoveEach(ChildrenIn(instances, containers, parent.value), xs)
      case Err(m) => Err(m)
      case Ok(children) => Ok(WithChildren(instances, containers, parent.value, children))
  }

  /** The host once the subtrees of `ds` left their host parents in order, or the first error. */
  ghost function HostAfterDeletions(fibers: map<FiberId, FiberNode>, dels: map<FiberId, Deletion>, ds: seq<FiberId>,
                                    instances: map<InstanceRef, HostInstance>, containers: map<ContainerRef, Container>)
    : Result<(map<InstanceRef, HostInstance>, map<ContainerRef, Container>)>
    decreases |ds|
  {
    if ds == [] then Ok((instances, containers))
    else
      var n := |ds| - 1;
      match HostAfterDeletions(fibers, dels, ds[..n], instances, containers)
      case Err(m) => Err(m)
      case Ok(h) => if ds[n] in dels then HostAfterDeletion(fibers, dels[ds[n]], h.0, h.1) else Ok(h)
  }

  /** Where a deleted subtree leaves the host is read from kinds and host nodes, not from flags. */
  lemma HostAfterDeletionKept(fibers: map<FiberId, FiberNode>, fibers': map<FiberId, FiberNode>, d: Deletion,
                              instances: map<InstanceRef, HostInstance>, containers: map<ContainerRef, Container>)
    requires Spans(fibers, d.tree, Nowhere) && ShapedTree(fibers, d.tree) && ShapedAll(fibers, d.chain)
    requires KeptOn(fibers, fibers', Visit(d.tree) + d.chain)
    ensures ShapedTree(fibers', d.tree) && ShapedAll(fibers', d.chain)
    ensures HostAfterDeletion(fibers', d, instances, containers) == HostAfterDeletion(fibers, d, instances, containers)
  {
    var v := Visit(d.tree);
    assert forall x | x in d.chain :: x in v + d.chain;
    HostParentInKept(fibers, fibers', d.chain);
    TopHostInstancesKept(fibers, fibers', d.tree, d.chain);
  }

  /** The top host instances of a subtree are read from kinds and host nodes, not from flags. */
  lemma TopHostInstancesKept(fibers: map<FiberId, FiberNode>, fibers': map<FiberId, FiberNode>, t: Tree, chain: seq<FiberId>)
    requires Spans(fibers, t, Nowhere) && ShapedTree(fibers, t) && KeptOn(fibers, fibers', Visit(t) + chain)
    ensures ShapedTree(fibers', t) && TopHostInstances(fibers', t) == TopHostInstances(fibers, t)
  {
    var v := Visit(t);
    assert forall x | x in v :: x in v + chain;
    ShapedTreeKept(fibers, fibers', t);
    SpansIn(fibers, t);
    assert VisitAll([t]) == v + VisitAll([]);
    CompleteWork.TopHostsKept(fibers, fibers', [t]);
    CompleteWork.TopHostsIn(fibers, [t]);
    var xs, xs' := TopHostInstances(fibers, t), TopHostInstances(fibers', t);
    assert |xs'| == |xs| && forall i | 0 <= i < |xs| :: xs'[i] == xs[i];
  }

  /** Where deleted subtrees leave the host is read from kinds and host nodes, not from flags. */
  lemma {:induction false} HostAfterDeletionsKept(fibers: map<FiberId, FiberNode>, fibers': map<FiberId, FiberNode>,
                                                  dels: map<FiberId, Deletion>, ds: seq<FiberId>,
                                                  instances: map<InstanceRef, HostInstance>, containers: map<ContainerRef, Container>)
    requires forall j | 0 <= j < |ds| ::
               ds[j] in dels && Spans(fibers, dels[ds[j]].tree, Nowhere) && ShapedTree(fibers, dels[ds[j]].tree) &&
               ShapedAll(fibers, dels[ds[j]].chain) && KeptOn(fibers, fibers', Visit(dels[ds[j]].tree) + dels[ds[j]].chain)
    ensures HostAfterDeletions(fibers', dels, ds, instances, containers) == HostAfterDeletions(fibers, dels, ds, instances, containers)
    decreases |ds|
  {
    if ds != [] {
      var n := |ds| - 1;
      HostAfterDeletionsKept(fibers, fibers', dels, ds[..n], instances, containers);
      match HostAfterDeletions(fibers, dels, ds[..n], instances, containers) {
        case Err(_) =>
        case Ok(h) => HostAfterDeletionKept(fibers, fibers', dels[ds[n]], h.0, h.1);
      }
    }
  }

  lemma HostAfterDeletionsSnoc(f0: map<FiberId, FiberNode>, dels: map<FiberId, Deletion>, ds: seq<FiberId>, j: nat,
                               instances: map<InstanceRef, HostInstance>, containers: map<ContainerRef, Container>)
    requires j < |ds| && ds[j] in dels
    ensures HostAfterDeletions(f0, dels, ds[..j + 1], instances, containers) ==
            match HostAfterDeletions(f0, dels, ds[..j], instances, containers)
            case Err(m) => Err(m)
            case Ok(h) => HostAfterDeletion(f0, dels[ds[j]], h.0, h.1)
  {
    assert ds[..j + 1][..j] == ds[..j] && ds[..j + 1][j] == ds[j];
  }

  /**
   * `deletions.forEach(childToDelete => commitDeletion(childToDelete, root))`:
   * each deleted subtree in turn unmounts, leaves its host parent and is
   * cut loose; the first error stops the rest.
   */
  method CommitDeletions(store: FiberStore, host: NoopHost, trace: Trace, root: FiberRootNode, ds: seq<FiberId>,
                         ghost dels: map<FiberId, Deletion>)
    returns (r: Result<()>)
    requires Apart(dels) && Distinct(ds)
    requires forall j | 0 <= j < |ds| :: ds[j] in dels && DeletionReady(store.fibers, host.instances, host.containers, dels[ds[j]])
    modifies store`fibers, host`instances, host`containers, trace`events, root`pendingPassiveEffects
    ensures root.pendingPassiveEffects.update == old(root.pendingPassiveEffects.update)
    ensures r.Ok? ==> store.fibers == CutLoose(old(store.fibers), ds)
    ensures r.Ok? ==> trace.events == old(trace.events) + DetachesOf(old(store.fibers), dels, ds)
    ensures r.Ok? ==> root.pendingPassiveEffects.unmount == old(root.pendingPassiveEffects.unmount) + UnmountsOf(old(store.fibers), dels, ds)
    ensures r.Ok? ==> SameHostShape(old(host.instances), old(host.containers), host.instances, host.containers)
    ensures r.Ok? ==> HostAfterDeletions(old(store.fibers), dels, ds, old(host.instances), old(host.containers)) == Ok((host.instances, host.containers))
  {
    ghost var f0, i0, c0, e0, u0 := store.fibers, host.instances, host.containers, trace.events, root.pendingPassiveEffects.unmount;
    assert CutLoose(f0, []) == f0;
    for j := 0 to |ds|
      invariant store.fibers == CutLoose(f0, ds[..j])
      invariant trace.events == e0 + DetachesOf(f0, dels, ds[..j])
      invariant root.pendingPassiveEffects.unmount == u0 + UnmountsOf(f0, dels, ds[..j])
      invariant root.pendingPassiveEffects.update == old(root.pendingPassiveEffects.update)
      invariant SameHostShape(i0, c0, host.instances, host.containers)
      invariant HostAfterDeletions(f0, dels, ds[..j], i0, c0) == Ok((host.instances, host.containers))
    {
      r := CommitOneDeletion(store, host, trace, root, ds, j, dels, f0, i0, c0, e0, u0);
      if r.Err? {
        return;
      }
    }
    assert ds[..|ds|] == ds;
    r := Ok(());
  }

  /** The `j`-th deletion of the list, on the fibers the earlier ones left. */
  method CommitOneDeletion(store: FiberStore, host: NoopHost, trace: Trace, root: FiberRootNode, ds: seq<FiberId>, j: nat,
                           ghost dels: map<FiberId, Deletion>, ghost f0: map<FiberId, FiberNode>,
                           ghost i0: map<InstanceRef, HostInstance>, ghost c0: map<ContainerRef, Container>,
                           ghost e0: seq<Event>, ghost u0: seq<Option<EffectId>>)
    returns (r: Result<()>)
    requires Apart(dels) && Distinct(ds) && j < |ds|
    requires forall k | 0 <= k < |ds| :: ds[k] in dels && DeletionReady(f0, i0, c0, dels[ds[k]])
    requires store.fibers == CutLoose(f0, ds[..j])
    requires trace.events == e0 + DetachesOf(f0, dels, ds[..j])
    requires root.pendingPassiveEffects.unmount == u0 + UnmountsOf(f0, dels, ds[..j])
    requires SameHostShape(i0, c0, host.instances, host.containers)
    requires HostAfterDeletions(f0, dels, ds[..j], i0, c0) == Ok((host.instances, host.containers))
    modifies store`fibers, host`instances, host`containers, trace`events, root`pendingPassiveEffects
    ensures root.pendingPassiveEffects.update == old(root.pendingPassiveEffects.update)
    ensures r.Ok? ==> store.fibers == CutLoose(f0, ds[..j + 1])
    ensures r.Ok? ==> trace.events == e0 + DetachesOf(f0, dels, ds[..j + 1])
    ensures r.Ok? ==> root.pendingPassiveEffects.unmount == u0 + UnmountsOf(f0, dels, ds[..j + 1])
    ensures r.Ok? ==> SameHostShape(i0, c0, host.instances, host.containers)
    ensures r.Ok? ==> HostAfterDeletions(f0, dels, ds[..j + 1], i0, c0) == Ok((host.instances, host.containers))
  {
    var d := ds[j];
    ghost var del := dels[d];
    ghost var cur := store.fibers;
    ghost var v := Visit(del.tree);
    assert d !in ds[..j] by {
      assert forall k | 0 <= k < j :: ds[..j][k] == ds[k];
    }
    assert forall x | x in ds[..j] :: x in dels by {
      assert forall k | 0 <= k < j :: ds[..j][k] == ds[k];
    }
    CutKeeps(f0, ds[..j], v + del.chain, dels, d);
    DeletionReadyKept(f0, cur, i0, c0, host.instances, host.containers, del);
    DetachesKept(f0, cur, del);
    ghost var e1, m1 := trace.events, root.pendingPassiveEffects.unmount;
    ghost var i1, c1 := host.instances, host.containers;
    HostAfterDeletionKept(f0, cur, del, i1, c1);
    r := DeleteOne(store, host, trace, root, d, del);
    if r.Err? {
      return;
    }
    HostAfterDeletionsSnoc(f0, dels, ds, j, i0, c0);
    DeletionsSnoc(f0, dels, ds, j);
    ghost var a, b := DetachesOf(f0, dels, ds[..j]), UnmountsOf(f0, dels, ds[..j]);
    Assoc(e0, a, DetachCalls(f0, v));
    Assoc(u0, b, PassiveUnmounts(f0, v));
    CutLooseSnoc(f0, ds, j);
  }

  /** The detaches and unmounts of a deleted subtree read no fiber's `flags`. */
  lemma DetachesKept(fibers: map<FiberId, FiberNode>, fibers': map<FiberId, FiberNode>, d: Deletion)
    requires Spans(fibers, d.tree, Nowhere) && KeptOn(fibers, fibers', Visit(d.tree) + d.chain)
    ensures DetachCalls(fibers', Visit(d.tree)) == DetachCalls(fibers, Visit(d.tree))
    ensures PassiveUnmounts(fibers', Visit(d.tree)) == PassiveUnmounts(fibers, Visit(d.tree))
  {
    var v := Visit(d.tree);
    assert forall x | x in v :: x in v + d.chain;
    SpansIn(fibers, d.tree);
    DetachesOnFlags(fibers, fibers', v);
  }

  /** Detaches and unmounts read the kinds, refs and queues of the fibers only. */
  lemma {:induction false} DetachesOnFlags(fibers: map<FiberId, FiberNode>, fibers': map<FiberId, FiberNode>, ids: seq<FiberId>)
    requires KeptOn(fibers, fibers', ids) && forall x | x in ids :: x in fibers
    ensures DetachCalls(fibers', ids) == DetachCalls(fibers, ids) && PassiveUnmounts(fibers', ids) == PassiveUnmounts(fibers, ids)
    decreases |ids|
  {
    if ids != [] {
      var n := |ids| - 1;
      assert forall x | x in ids[..n] :: x in ids;
      DetachesOnFlags(fibers, fibers', ids[..n]);
      assert ids[n] in ids;
    }
  }

  /**
   * `commitDeletion(childToDelete, root)` on a ready deletion, read off
   * its plan: when it does not throw it has detached the subtree's refs,
   * queued its effect lists and cut it loose, and the host kept its shape.
   */
  method DeleteOne(store: FiberStore, host: NoopHost, trace: Trace, root: FiberRootNode, d: FiberId, ghost del: Deletion)
    returns (r: Result<()>)
    requires del.tree.id == d && DeletionReady(store.fibers, host.instances, host.containers, del)
    modifies store`fibers, host`instances, host`containers, trace`events, root`pendingPassiveEffects
    ensures root.pendingPassiveEffects.update == old(root.pendingPassiveEffects.update)
    ensures r.Ok? ==> store.fibers == old(store.fibers)[d := old(store.fibers[d]).(ret := None, child := None)]
    ensures r.Ok? ==> trace.events == old(trace.events) + DetachCalls(old(store.fibers), Visit(del.tree))
    ensures r.Ok? ==> root.pendingPassiveEffects.unmount == old(root.pendingPassiveEffects.unmount) + PassiveUnmounts(old(store.fibers), Visit(del.tree))
    ensures r.Ok? ==> SameHostShape(old(host.instances), old(host.containers), host.instances, host.containers)
    ensures r.Ok? ==> HostAfterDeletion(old(store.fibers), del, old(host.instances), old(host.containers)) == Ok((host.instances, host.containers))
  {
    ghost var f0, i0, c0 := store.fibers, host.instances, host.containers;
    ghost var u := Unmounted(trace.events, root.pendingPassiveEffects.unmount);
    UnmountPlanMeaning(f0, u, Visit(del.tree));
    r := CommitDeletion.CommitDeletion(store, host, trace, root, d, del.tree, del.chain);
  }

  lemma DeletionsSnoc(f0: map<FiberId, FiberNode>, dels: map<FiberId, Deletion>, ds: seq<FiberId>, j: nat)
    requires j < |ds| && ds[j] in dels
    ensures DetachesOf(f0, dels, ds[..j + 1]) == DetachesOf(f0, dels, ds[..j]) + DetachCalls(f0, Visit(dels[ds[j]].tree))
    ensures UnmountsOf(f0, dels, ds[..j + 1]) == UnmountsOf(f0, dels, ds[..j]) + PassiveUnmounts(f0, Visit(dels[ds[j]].tree))
  {
    assert ds[..j + 1][..j] == ds[..j] && ds[..j + 1][j] == ds[j];
  }

  /** What the earlier deletions cut loose lies outside the subtree and chain of the next one. */
  lemma CutKeeps(f0: map<FiberId, FiberNode>, done: seq<FiberId>, xs: seq<FiberId>, dels: map<FiberId, Deletion>, d: FiberId)
    requires Apart(dels) && d in dels && d !in done && xs == Visit(dels[d].tree) + dels[d].chain
    requires forall x | x in done :: x in dels
    ensures KeptOn(f0, CutLoose(f0, done), xs)
  {
    assert forall x | x in done :: x != d && x in dels && x !in Visit(dels[d].tree) && x !in dels[d].chain;
  }

  lemma CutLooseSnoc(f0: map<FiberId, FiberNode>, ds: seq<FiberId>, j: nat)
    requires j < |ds| && ds[j] in f0 && ds[j] !in ds[..j]
    ensures CutLoose(f0, ds[..j + 1]) == CutLoose(f0, ds[..j])[ds[j] := CutLoose(f0, ds[..j])[ds[j]].(ret := None, child := None)]
  {
    var a, b := CutLoose(f0, ds[..j + 1]), CutLoose(f0, ds[..j])[ds[j] := CutLoose(f0, ds[..j])[ds[j]].(ret := None, child := None)];
    assert ds[..j + 1] == ds[..j] + [ds[j]];
    assert a.Keys == b.Keys;
    forall y | y in a ensures a[y] == b[y] {
    }
  }

  /** A deletion that did not throw left every instance and container, each instance of its kind. */
  lemma SameHostShapeAfterDeletion(i0: map<InstanceRef, HostInstance>, c0: map<ContainerRef, Container>,
                                   hi: map<InstanceRef, HostInstance>, hc: map<ContainerRef, Container>, host: NoopHost)
    requires SameHostShape(i0, c0, hi, hc)
    requires (host.instances == hi && host.containers == hc) ||
             exists parent :: host.OnlyChildrenOf(parent, hi, hc)
    ensures SameHostShape(i0, c0, host.instances, host.containers)
  {
  }

  /** Committing the deletions reads no `flags`. */
  lemma {:induction false} DetachesOfKept(fibers: map<FiberId, FiberNode>, fibers': map<FiberId, FiberNode>,
                                          dels: map<FiberId, Deletion>, ds: seq<FiberId>)
    requires forall j | 0 <= j < |ds| ::
               ds[j] in dels && Spans(fibers, dels[ds[j]].tree, Nowhere) && KeptOn(fibers, fibers', Visit(dels[ds[j]].tree) + dels[ds[j]].chain)
    ensures DetachesOf(fibers', dels, ds) == DetachesOf(fibers, dels, ds)
    ensures UnmountsOf(fibers', dels, ds) == UnmountsOf(fibers, dels, ds)
    decreases |ds|
  {
    if ds != [] {
      var n := |ds| - 1;
      assert forall j | 0 <= j < n :: ds[..n][j] == ds[j];
      DetachesOfKept(fibers, fibers', dels, ds[..n]);
      DetachesKept(fibers, fibers', dels[ds[n]]);
    }
  }

  /** Cutting loose commutes with setting the flags of a fiber that is not cut loose. */
  lemma CutLooseAround(fibers: map<FiberId, FiberNode>, ds: seq<FiberId>, x: FiberId, c: Flags)
    requires x in fibers && x !in ds
    ensures x in CutLoose(fibers, ds) && CutLoose(fibers, ds)[x] == fibers[x]
    ensures CutLoose(SetFlags(fibers, x, c), ds) == SetFlags(CutLoose(fibers, ds), x, c)
  {
    assert CutLoose(SetFlags(fibers, x, c), ds).Keys == SetFlags(CutLoose(fibers, ds), x, c).Keys;
  }

  /** The hide calls read the kinds, instances and props of the fibers only. */
  lemma {:induction false} HideCallsKept(fibers: map<FiberId, FiberNode>, fibers': map<FiberId, FiberNode>, ids: seq<FiberId>, isHidden: bool)
    requires KeptOn(fibers, fibers', ids) && forall x | x in ids :: x in fibers
    ensures HideCalls(fibers', ids, isHidden) == HideCalls(fibers, ids, isHidden)
    decreases |ids|
  {
    if ids != [] {
      var n := |ids| - 1;
      assert forall x | x in ids[..n] :: x in ids;
      HideCallsKept(fibers, fibers', ids[..n], isHidden);
      assert ids[n] in ids;
    }
  }

  // ---------------------------------------------------------------------
  // The mutation callback

  /** The fibers with `x`'s flags set to `flags`. */
  ghost function SetFlags(fibers: map<FiberId, FiberNode>, x: FiberId, flags: Flags): map<FiberId, FiberNode>
    requires x in fibers
  {
    fibers[x := fibers[x].(flags := flags)]
  }

  lemma SetFlagsSame(fibers: map<FiberId, FiberNode>, x: FiberId)
    requires x in fibers
    ensures SetFlags(fibers, x, fibers[x].flags) == fibers
  {
  }

  /** `finishedWork.flags &= ~flag`, on fibers that are `base` but for the flags `c` of `fiber`. */
  method ClearFlag(store: FiberStore, fiber: FiberId, flag: Flags, ghost base: map<FiberId, FiberNode>, ghost c: Flags)
    requires fiber in base && store.fibers == SetFlags(base, fiber, c)
    modifies store`fibers
    ensures store.fibers == SetFlags(base, fiber, c & !flag)
  {
    var f := store.fibers[fiber];
    var nf := f.flags & !flag;
    SetFlagsTwice(base, fiber, c, nf);
    store.fibers := store.fibers[fiber := f.(flags := nf)];
  }

  lemma SetFlagsTwice(fibers: map<FiberId, FiberNode>, x: FiberId, a: Flags, b: Flags)
    requires x in fibers
    ensures x in SetFlags(fibers, x, a) && SetFlags(SetFlags(fibers, x, a), x, b) == SetFlags(fibers, x, b)
  {
  }

  /**
   * The flags the mutation callback clears on a fiber of kind `tag`: every
   * flag of the mutation walk's mask, `Ref` on a HostComponent and
   * `Visibility` on an Offscreen fiber.
   */
  function MutationHandled(tag: WorkTag): (r: Flags)
    ensures r & (MutationMask | PassiveMask) == MutationMask | PassiveMask
    ensures (r & FiberFlags.Ref != NoFlags <==> tag == HostComponent) && (r & Visibility != NoFlags <==> tag == OffscreenComponent)
  {
    Placement | Update | ChildDeletion | PassiveEffect |
    (if tag == HostComponent then FiberFlags.Ref else NoFlags) | (if tag == OffscreenComponent then Visibility else NoFlags)
  }

  /** The calls `safelyAttachRef` makes for a HostComponent flagged `Ref`, and nothing for another fiber. */
  function AttachCalls(f: FiberNode): seq<Event>
  {
    if f.tag == HostComponent && HasFlag(f.flags, FiberFlags.Ref) && RefWrite(f.ref, f.stateNode).Ok? then RefWrite(f.ref, f.stateNode).value else []
  }

  /** The hide or show calls on the top host fibers of `s`, as `hideOrUnhideAllChildren` makes them. */
  ghost function HideEvents(fibers: map<FiberId, FiberNode>, s: Tree, isHidden: bool): seq<Event>
  {
    HideCalls(fibers, CompleteWork.TopHosts(fibers, [Pruned(fibers, s, AtHostsAndHidden)]), isHidden)
  }

  /** The calls the callback makes for an Offscreen fiber flagged `Visibility` whose subtree is `s`. */
  ghost function VisibilityCalls(fibers: map<FiberId, FiberNode>, f: FiberNode, s: Tree): seq<Event>
  {
    if f.tag == OffscreenComponent && HasFlag(f.flags, Visibility) then HideEvents(fibers, s, IsHiddenMode(f.pendingProps)) else []
  }

  /** The effect list the callback queues to run as 'update': a function component's, when flagged `PassiveEffect`. */
  function UpdateQueued(f: FiberNode): seq<Option<EffectId>>
  {
    if CollectsPassive(f, UpdatePassive) then [LastEffectOf(f.updateQueue)] else []
  }

  /** The fibers once the callback has run on `x`: its deletions cut loose and its handled flags cleared. */
  ghost function MutatedFibers(fibers: map<FiberId, FiberNode>, x: FiberId): map<FiberId, FiberNode>
  {
    if x !in fibers then fibers
    else SetFlags(CutLoose(fibers, Listed(fibers[x])), x, fibers[x].flags & !MutationHandled(fibers[x].tag))
  }

  /**
   * The calls the callback makes on `x` outside the host: the deleted
   * subtrees' ref detaches, the ref attach, and the hide or show calls of
   * an Offscreen fiber flagged `Visibility` on the subtree `t` holds under it.
   */
  ghost function MutationEvents(fibers: map<FiberId, FiberNode>, t: Tree, dels: map<FiberId, Deletion>, x: FiberId): seq<Event>
  {
    if x !in fibers then []
    else DetachesOf(fibers, dels, Listed(fibers[x])) + (AttachCalls(fibers[x]) + VisibilityCalls(fibers, fibers[x], SubtreeAt(t, x)))
  }

  /** The deletions `ds` listed by `owner` are filed under it, lie outside the tree `t` and are ready, each once. */
  ghost predicate DeletionsReady(fibers: map<FiberId, FiberNode>, instances: map<InstanceRef, HostInstance>,
                                 containers: map<ContainerRef, Container>, t: Tree, dels: map<FiberId, Deletion>,
                                 owner: FiberId, ds: seq<FiberId>)
  {
    ChildFibers.Distinct(ds) &&
    forall j | 0 <= j < |ds| ::
      ds[j] in dels && dels[ds[j]].owner == owner && ds[j] !in Visit(t) && DeletionReady(fibers, instances, containers, dels[ds[j]])
  }

  /**
   * What the mutation callback needs at `p` of the finished tree `t`: the
   * host knows the tree's instances, a fiber to place has a host parent
   * with children, and the fibers it deletes are ready.
   */
  ghost predicate MutationReady(fibers: map<FiberId, FiberNode>, instances: map<InstanceRef, HostInstance>,
                                containers: map<ContainerRef, Container>, t: Tree, p: seq<nat>, dels: map<FiberId, Deletion>)
  {
    WholeTree(fibers, t) && ValidPath(t, p) && Sub(t, p).id in fibers && CompleteWork.HostNodesIn(fibers, instances) && Apart(dels) &&
    PlacementReady(fibers, instances, containers, t, p) &&
    DeletionsReady(fibers, instances, containers, t, dels, Sub(t, p).id, Listed(fibers[Sub(t, p).id]))
  }

  /** A fiber at `p` flagged `Placement` has a host parent with children, if it has a host parent at all. */
  ghost predicate PlacementReady(fibers: map<FiberId, FiberNode>, instances: map<InstanceRef, HostInstance>,
                                 containers: map<ContainerRef, Container>, t: Tree, p: seq<nat>)
    requires WholeTree(fibers, t) && ValidPath(t, p)
  {
    Sub(t, p).id in fibers &&
    (HasFlag(fibers[Sub(t, p).id].flags, Placement) && HostParentAt(fibers, t, p).Some? ==>
       HasChildrenIn(instances, containers, HostParentAt(fibers, t, p).value))
  }

  /** A placement that did not throw changed children and parents only. */
  lemma TracksShape(host: NoopHost, instances0: map<InstanceRef, HostInstance>, containers0: map<ContainerRef, Container>)
    ensures forall parent, at | Tracks(host, instances0, containers0, parent, at) ::
              SameHostShape(instances0, containers0, host.instances, host.containers)
  {
  }

  /** Keeping the host's shape composes. */
  lemma SameHostShapeTrans(i0: map<InstanceRef, HostInstance>, c0: map<ContainerRef, Container>,
                           i1: map<InstanceRef, HostInstance>, c1: map<ContainerRef, Container>,
                           i2: map<InstanceRef, HostInstance>, c2: map<ContainerRef, Container>)
    requires SameHostShape(i0, c0, i1, c1) && SameHostShape(i1, c1, i2, c2)
    ensures SameHostShape(i0, c0, i2, c2)
  {
  }

  /**
   * `commitMutationEffectsOnFiber(finishedWork, root)`: with the `flags`
   * and `tag` read on entry, it places, updates, deletes the listed
   * children, queues the passive effects, attaches the ref of a
   * HostComponent and hides or shows an Offscreen fiber's content, clearing
   * each flag it handled.
   */
  method CommitMutationEffectsOnFiber(store: FiberStore, host: NoopHost, trace: Trace, root: FiberRootNode, fiber: FiberId,
                                      ghost t: Tree, ghost p: seq<nat>, ghost dels: map<FiberId, Deletion>)
    returns (r: Result<()>)
    requires MutationReady(store.fibers, host.instances, host.containers, t, p, dels) && Sub(t, p).id == fiber
    modifies store`fibers, host`instances, host`containers, trace`events, root`pendingPassiveEffects
    ensures r.Ok? ==> store.fibers == MutatedFibers(old(store.fibers), fiber)
    ensures r.Ok? ==> trace.events == old(trace.events) + MutationEvents(old(store.fibers), t, dels, fiber)
    ensures r.Ok? ==> root.pendingPassiveEffects ==
                      PendingPassiveEffects(old(root.pendingPassiveEffects.unmount) + UnmountsOf(old(store.fibers), dels, Listed(old(store.fibers[fiber]))),
                                            old(root.pendingPassiveEffects.update) + UpdateQueued(old(store.fibers[fiber])))
    ensures r.Ok? ==> SameHostShape(old(host.instances), old(host.containers), host.instances, host.containers)
    ensures r.Ok? ==> MutatedHost(old(store.fibers), old(host.instances), old(host.containers), t, p, dels) == Ok((host.instances, host.containers))
  {
    ghost var g, e0 := store.fibers, trace.events;
    var flags := store.fibers[fiber].flags;
    var tag := store.fibers[fiber].tag;
    ghost var ds := Listed(g[fiber]);
    r := HostMutations(store, host, trace, root, fiber, flags, t, p, dels);
    if r.Err? {
      return;
    }
    CutLooseOutside(g, ds, t);
    NodeInVisit(t, p);
    r := PassiveRefVisibility(store, trace, root, fiber, flags, tag, t, p, g, CutLoose(g, ds));
    if r.Err? {
      return;
    }
    FindSub(t, p);
    Assoc(e0, DetachesOf(g, dels, ds), AttachCalls(g[fiber]) + VisibilityCalls(g, g[fiber], Sub(t, p)));
  }

  /**
   * The host the mutation callback leaves for the fiber at `p`: its
   * placement, then its text update, then its listed deletions, each on the
   * host the one before left, or the first error.
   */
  ghost function MutatedHost(fibers: map<FiberId, FiberNode>, instances: map<InstanceRef, HostInstance>,
                             containers: map<ContainerRef, Container>, t: Tree, p: seq<nat>, dels: map<FiberId, Deletion>)
    : Result<(map<InstanceRef, HostInstance>, map<ContainerRef, Container>)>
    requires WholeTree(fibers, t) && ValidPath(t, p) && PlacementReady(fibers, instances, containers, t, p)
  {
    var f := fibers[Sub(t, p).id];
    match PlacedIfFlagged(fibers, instances, containers, t, p, f.flags)
    case Err(m) => Err(m)
    case Ok(h) => HostAfterDeletions(fibers, dels, Listed(f), if HasFlag(f.flags, Update) then TextUpdated(h.0, f) else h.0, h.1)
  }

  /** The parts of the callback that change the host: placement, update and deletion. */
  method HostMutations(store: FiberStore, host: NoopHost, trace: Trace, root: FiberRootNode, fiber: FiberId, flags: Flags,
                       ghost t: Tree, ghost p: seq<nat>, ghost dels: map<FiberId, Deletion>)
    returns (r: Result<()>)
    requires MutationReady(store.fibers, host.instances, host.containers, t, p, dels) && Sub(t, p).id == fiber
    requires flags == store.fibers[fiber].flags
    modifies store`fibers, host`instances, host`containers, trace`events, root`pendingPassiveEffects
    ensures root.pendingPassiveEffects.update == old(root.pendingPassiveEffects.update)
    ensures r.Ok? ==> fiber in CutLoose(old(store.fibers), Listed(old(store.fibers[fiber]))) &&
                      store.fibers == SetFlags(CutLoose(old(store.fibers), Listed(old(store.fibers[fiber]))), fiber, flags & !(Placement | Update | ChildDeletion))
    ensures r.Ok? ==> trace.events == old(trace.events) + DetachesOf(old(store.fibers), dels, Listed(old(store.fibers[fiber])))
    ensures r.Ok? ==> root.pendingPassiveEffects.unmount == old(root.pendingPassiveEffects.unmount) + UnmountsOf(old(store.fibers), dels, Listed(old(store.fibers[fiber])))
    ensures r.Ok? ==> SameHostShape(old(host.instances), old(host.containers), host.instances, host.containers)
    ensures r.Ok? ==> MutatedHost(old(store.fibers), old(host.instances), old(host.containers), t, p, dels) == Ok((host.instances, host.containers))
  {
    ghost var g, i0, c0 := store.fibers, host.instances, host.containers;
    NodeInVisit(t, p);
    r := PlaceAndUpdate(store, host, fiber, flags, t, p);
    if r.Err? {
      return;
    }
    ghost var i1, c1 := host.instances, host.containers;
    assert MutatedHost(g, i0, c0, t, p, dels) == HostAfterDeletions(g, dels, Listed(g[fiber]), i1, c1);
    r := DeleteListed(store, host, trace, root, fiber, flags, t, dels, g, i0, c0);
  }

  /** Cutting loose fibers outside the tree keeps the tree's fibers. */
  lemma CutLooseOutside(fibers: map<FiberId, FiberNode>, ds: seq<FiberId>, t: Tree)
    requires forall j | 0 <= j < |ds| :: ds[j] !in Visit(t)
    ensures CutLoose(fibers, ds).Keys == fibers.Keys && KeptOn(fibers, CutLoose(fibers, ds), Visit(t))
    ensures forall x | x in Visit(t) && x in fibers :: CutLoose(fibers, ds)[x] == fibers[x]
  {
  }

  /** The placement and the update on `fiber`, whose flags were `flags` on entry. */
  method PlaceAndUpdate(store: FiberStore, host: NoopHost, fiber: FiberId, flags: Flags, ghost t: Tree, ghost p: seq<nat>)
    returns (r: Result<()>)
    requires WholeTree(store.fibers, t) && ValidPath(t, p) && Sub(t, p).id == fiber && fiber in store.fibers
    requires flags == store.fibers[fiber].flags && CompleteWork.HostNodesIn(store.fibers, host.instances)
    requires HasFlag(flags, Placement) && HostParentAt(store.fibers, t, p).Some? ==>
               HasChildrenIn(host.instances, host.containers, HostParentAt(store.fibers, t, p).value)
    modifies store`fibers, host`instances, host`containers
    ensures r.Ok? ==> store.fibers == SetFlags(old(store.fibers), fiber, flags & !(Placement | Update))
    ensures var placed := PlacedIfFlagged(old(store.fibers), old(host.instances), old(host.containers), t, p, flags);
            (r.Ok? <==> placed.Ok?) && (r.Err? ==> r.message == placed.message) &&
            (r.Ok? ==> host.containers == placed.value.1 &&
                       host.instances == if HasFlag(flags, Update) then TextUpdated(placed.value.0, old(store.fibers[fiber])) else placed.value.0)
    ensures r.Ok? ==> SameHostShape(old(host.instances), old(host.containers), host.instances, host.containers)
  {
    ghost var g, i0, c0 := store.fibers, host.instances, host.containers;
    r := PlaceIfFlagged(store, host, fiber, flags, t, p);
    if r.Err? {
      return;
    }
    ghost var i1, c1 := host.instances, host.containers;
    r := UpdateFiber(store, host, fiber, flags, g);
    SameHostShapeTrans(i0, c0, i1, c1, host.instances, host.containers);
  }

  /** The placement part on `fiber`, whose flags were `flags` on entry: `commitPlacement` and the `Placement` flag cleared, when it is set. */
  method PlaceIfFlagged(store: FiberStore, host: NoopHost, fiber: FiberId, flags: Flags, ghost t: Tree, ghost p: seq<nat>)
    returns (r: Result<()>)
    requires WholeTree(store.fibers, t) && ValidPath(t, p) && Sub(t, p).id == fiber && fiber in store.fibers
    requires flags == store.fibers[fiber].flags && CompleteWork.HostNodesIn(store.fibers, host.instances)
    requires HasFlag(flags, Placement) && HostParentAt(store.fibers, t, p).Some? ==>
               HasChildrenIn(host.instances, host.containers, HostParentAt(store.fibers, t, p).value)
    modifies store`fibers, host`instances, host`containers
    ensures r.Ok? ==> store.fibers == SetFlags(old(store.fibers), fiber, flags & !Placement)
    ensures var placed := PlacedIfFlagged(old(store.fibers), old(host.instances), old(host.containers), t, p, flags);
            (r.Ok? <==> placed.Ok?) && (r.Err? ==> r.message == placed.message) &&
            (r.Ok? ==> placed.value == (host.instances, host.containers))
    ensures r.Ok? ==> SameHostShape(old(host.instances), old(host.containers), host.instances, host.containers)
  {
    ghost var g := store.fibers;
    SetFlagsSame(g, fiber);
    if flags & Placement != NoFlags {
      r := PlaceFiber(store, host, fiber, t, p);
      if r.Err? {
        return;
      }
      ClearFlag(store, fiber, Placement, g, flags);
    } else {
      r := Ok(());
    }
  }

  /** The host after the placement part: `PlacedHost` for a fiber flagged `Placement`, the same host for any other. */
  ghost function PlacedIfFlagged(fibers: map<FiberId, FiberNode>, instances: map<InstanceRef, HostInstance>,
                                 containers: map<ContainerRef, Container>, t: Tree, p: seq<nat>, flags: Flags)
    : Result<(map<InstanceRef, HostInstance>, map<ContainerRef, Container>)>
    requires WholeTree(fibers, t) && ValidPath(t, p)
    requires HasFlag(flags, Placement) && HostParentAt(fibers, t, p).Some? ==>
               HasChildrenIn(instances, containers, HostParentAt(fibers, t, p).value)
  {
    if HasFlag(flags, Placement) then PlacedHost(fibers, instances, containers, t, p) else Ok((instances, containers))
  }

  /**
   * The host `commitPlacement` leaves for the fiber at `p`: the same host
   * without a host parent, and otherwise the host parent's children and the
   * adopted instances' parents once every placement step ran, or the error
   * of the step that threw.
   */
  ghost function PlacedHost(fibers: map<FiberId, FiberNode>, instances: map<InstanceRef, HostInstance>,
                            containers: map<ContainerRef, Container>, t: Tree, p: seq<nat>)
    : Result<(map<InstanceRef, HostInstance>, map<ContainerRef, Container>)>
    requires WholeTree(fibers, t) && ValidPath(t, p)
    requires HostParentAt(fibers, t, p).Some? ==> HasChildrenIn(instances, containers, HostParentAt(fibers, t, p).value)
  {
    match HostParentAt(fibers, t, p)
    case None => Ok((instances, containers))
    case Some(parent) =>
      var rootId := RootIdIn(containers, parent);
      match Place(instances, rootId, Placed(ChildrenIn(instances, containers, parent), {}), PlacementStepsAt(fibers, t, p))
      case Err(m) => Err(m)
      case Ok(at) => Ok((InstancesAt(instances, parent, rootId, at), ContainersAt(containers, parent, at)))
  }

  /** The instances once `commitUpdate(f)` ran: the text instance of a host text fiber takes its `content` prop. */
  function TextUpdated(instances: map<InstanceRef, HostInstance>, f: FiberNode): map<InstanceRef, HostInstance>
  {
    if f.tag == HostText && f.stateNode.HostNode? && f.stateNode.instance in instances && instances[f.stateNode.instance].TextInstance?
    then instances[f.stateNode.instance := instances[f.stateNode.instance].(text := Get(f.memoizedProps, "content"))]
    else instances
  }

  /** `commitPlacement(finishedWork)`: the host becomes the one `PlacedHost` gives, or the placement throws its error. */
  method PlaceFiber(store: FiberStore, host: NoopHost, fiber: FiberId, ghost t: Tree, ghost p: seq<nat>) returns (r: Result<()>)
    requires WholeTree(store.fibers, t) && ValidPath(t, p) && Sub(t, p).id == fiber
    requires CompleteWork.HostNodesIn(store.fibers, host.instances)
    requires var parent := HostParentAt(store.fibers, t, p); parent.Some? ==> HasChildrenIn(host.instances, host.containers, parent.value)
    modifies store`fibers, host`instances, host`containers
    ensures store.fibers == old(store.fibers)
    ensures var placed := PlacedHost(old(store.fibers), old(host.instances), old(host.containers), t, p);
            (r.Ok? <==> placed.Ok?) && (r.Err? ==> r.message == placed.message) &&
            (r.Ok? ==> host.instances == placed.value.0 && host.containers == placed.value.1)
    ensures r.Ok? ==> SameHostShape(old(host.instances), old(host.containers), host.instances, host.containers)
  {
    ghost var i0, c0 := host.instances, host.containers;
    r := CommitPlacement(store, host, fiber, t, p);
    TracksShape(host, i0, c0);
  }

  /** The update part on fibers that are `g` but for `fiber`'s flags, the placement flag already cleared. */
  method UpdateFiber(store: FiberStore, host: NoopHost, fiber: FiberId, flags: Flags, ghost g: map<FiberId, FiberNode>)
    returns (r: Result<()>)
    requires fiber in g && store.fibers == SetFlags(g, fiber, flags & !Placement)
    modifies store`fibers, host`instances
    ensures r.Ok? && store.fibers == SetFlags(g, fiber, flags & !(Placement | Update))
    ensures host.instances == if HasFlag(flags, Update) then TextUpdated(old(host.instances), g[fiber]) else old(host.instances)
    ensures SameHostShape(old(host.instances), host.containers, host.instances, host.containers)
  {
    if flags & Update != NoFlags {
      host.CommitUpdate(store.fibers[fiber]);
      ClearFlag(store, fiber, Update, g, flags & !Placement);
    }
    r := Ok(());
  }

  /** The listed deletions of `fiber`, when it is flagged `ChildDeletion`, committed in order on the fibers `g` had at entry. */
  method DeleteListed(store: FiberStore, host: NoopHost, trace: Trace, root: FiberRootNode, fiber: FiberId, flags: Flags,
                      ghost t: Tree, ghost dels: map<FiberId, Deletion>, ghost g: map<FiberId, FiberNode>,
                      ghost i0: map<InstanceRef, HostInstance>, ghost c0: map<ContainerRef, Container>)
    returns (r: Result<()>)
    requires fiber in g && fiber in Visit(t) && flags == g[fiber].flags && Apart(dels)
    requires DeletionsReady(g, i0, c0, t, dels, fiber, Listed(g[fiber]))
    requires store.fibers == SetFlags(g, fiber, flags & !(Placement | Update))
    requires SameHostShape(i0, c0, host.instances, host.containers)
    modifies store`fibers, host`instances, host`containers, trace`events, root`pendingPassiveEffects
    ensures root.pendingPassiveEffects.update == old(root.pendingPassiveEffects.update)
    ensures r.Ok? ==> fiber in CutLoose(g, Listed(g[fiber])) &&
                      store.fibers == SetFlags(CutLoose(g, Listed(g[fiber])), fiber, flags & !(Placement | Update | ChildDeletion))
    ensures r.Ok? ==> trace.events == old(trace.events) + DetachesOf(g, dels, Listed(g[fiber]))
    ensures r.Ok? ==> root.pendingPassiveEffects.unmount == old(root.pendingPassiveEffects.unmount) + UnmountsOf(g, dels, Listed(g[fiber]))
    ensures r.Ok? ==> SameHostShape(i0, c0, host.instances, host.containers)
    ensures r.Ok? ==> HostAfterDeletions(g, dels, Listed(g[fiber]), old(host.instances), old(host.containers)) == Ok((host.instances, host.containers))
  {
    ghost var ds := Listed(g[fiber]);
    ghost var c := flags & !(Placement | Update);
    ClearedDeletion(flags);
    assert fiber !in ds;
    CutLooseAround(g, ds, fiber, c);
    if flags & ChildDeletion != NoFlags {
      var deletions := store.fibers[fiber].deletions;
      r := DeleteAll(store, host, trace, root, fiber, deletions, t, dels, g, i0, c0, c);
      if r.Err? {
        return;
      }
      ClearFlag(store, fiber, ChildDeletion, CutLoose(g, ds), c);
    } else {
      assert CutLoose(g, ds) == g;
    }
    r := Ok(());
  }

  lemma ClearedDeletion(flags: Flags)
    ensures (flags & !(Placement | Update)) & !ChildDeletion == flags & !(Placement | Update | ChildDeletion)
    ensures flags & ChildDeletion == NoFlags ==> flags & !(Placement | Update) == flags & !(Placement | Update | ChildDeletion)
  {
  }

  /** `if (deletions !== null) deletions.forEach(...)` for a fiber flagged `ChildDeletion`. */
  method DeleteAll(store: FiberStore, host: NoopHost, trace: Trace, root: FiberRootNode, fiber: FiberId, deletions: Option<seq<FiberId>>,
                   ghost t: Tree, ghost dels: map<FiberId, Deletion>, ghost g: map<FiberId, FiberNode>,
                   ghost i0: map<InstanceRef, HostInstance>, ghost c0: map<ContainerRef, Container>, ghost c: Flags)
    returns (r: Result<()>)
    requires fiber in g && HasFlag(g[fiber].flags, ChildDeletion) && deletions == g[fiber].deletions && Apart(dels)
    requires DeletionsReady(g, i0, c0, t, dels, fiber, Listed(g[fiber])) && fiber !in Listed(g[fiber])
    requires store.fibers == SetFlags(g, fiber, c)
    requires SameHostShape(i0, c0, host.instances, host.containers)
    modifies store`fibers, host`instances, host`containers, trace`events, root`pendingPassiveEffects
    ensures root.pendingPassiveEffects.update == old(root.pendingPassiveEffects.update)
    ensures r.Ok? ==> fiber in CutLoose(g, Listed(g[fiber])) && store.fibers == SetFlags(CutLoose(g, Listed(g[fiber])), fiber, c)
    ensures r.Ok? ==> trace.events == old(trace.events) + DetachesOf(g, dels, Listed(g[fiber]))
    ensures r.Ok? ==> root.pendingPassiveEffects.unmount == old(root.pendingPassiveEffects.unmount) + UnmountsOf(g, dels, Listed(g[fiber]))
    ensures r.Ok? ==> SameHostShape(i0, c0, host.instances, host.containers)
    ensures r.Ok? ==> HostAfterDeletions(g, dels, Listed(g[fiber]), old(host.instances), old(host.containers)) == Ok((host.instances, host.containers))
  {
    ghost var ds := Listed(g[fiber]);
    CutLooseAround(g, ds, fiber, c);
    if deletions.Some? {
      DeletionsReadyNow(store, host, g, i0, c0, t, dels, fiber, ds, c);
      ghost var i1, c1 := host.instances, host.containers;
      r := CommitDeletions(store, host, trace, root, deletions.value, dels);
      if r.Err? {
        return;
      }
      SameHostShapeTrans(i0, c0, i1, c1, host.instances, host.containers);
    } else {
      assert CutLoose(g, ds) == g;
    }
    r := Ok(());
  }

  /** The deletions are ready on fibers that changed flags only, and delete the same way there. */
  lemma DeletionsReadyNow(store: FiberStore, host: NoopHost, g: map<FiberId, FiberNode>,
                          i0: map<InstanceRef, HostInstance>, c0: map<ContainerRef, Container>, t: Tree,
                          dels: map<FiberId, Deletion>, fiber: FiberId, ds: seq<FiberId>, c: Flags)
    requires fiber in g && store.fibers == SetFlags(g, fiber, c) && SameHostShape(i0, c0, host.instances, host.containers)
    requires DeletionsReady(g, i0, c0, t, dels, fiber, ds)
    ensures forall j | 0 <= j < |ds| :: ds[j] in dels && DeletionReady(store.fibers, host.instances, host.containers, dels[ds[j]])
    ensures ChildFibers.Distinct(ds)
    ensures DetachesOf(store.fibers, dels, ds) == DetachesOf(g, dels, ds) && UnmountsOf(store.fibers, dels, ds) == UnmountsOf(g, dels, ds)
    ensures HostAfterDeletions(store.fibers, dels, ds, host.instances, host.containers) ==
            HostAfterDeletions(g, dels, ds, host.instances, host.containers)
  {
    var cur := store.fibers;
    assert FlagsOnly(g, cur);
    forall j | 0 <= j < |ds|
      ensures DeletionReady(cur, host.instances, host.containers, dels[ds[j]]) && KeptOn(g, cur, Visit(dels[ds[j]].tree) + dels[ds[j]].chain)
    {
      FlagsOnlyKeptOn(g, cur, Visit(dels[ds[j]].tree) + dels[ds[j]].chain);
      DeletionReadyKept(g, cur, i0, c0, host.instances, host.containers, dels[ds[j]]);
    }
    DetachesOfKept(g, cur, dels, ds);
    HostAfterDeletionsKept(g, cur, dels, ds, host.instances, host.containers);
  }

  /**
   * The passive, ref and visibility parts on `fiber`, whose flags and tag
   * were `flags` and `tag` on the fibers `g` at entry, on fibers that are
   * `h` but for `fiber`'s flags.
   */
  method PassiveRefVisibility(store: FiberStore, trace: Trace, root: FiberRootNode, fiber: FiberId, flags: Flags, tag: WorkTag,
                              ghost t: Tree, ghost p: seq<nat>, ghost g: map<FiberId, FiberNode>, ghost h: map<FiberId, FiberNode>)
    returns (r: Result<()>)
    requires WholeTree(g, t) && ValidPath(t, p) && Sub(t, p).id == fiber && fiber in g && fiber in h
    requires flags == g[fiber].flags && tag == g[fiber].tag && h[fiber] == g[fiber] && KeptOn(g, h, Visit(t))
    requires store.fibers == SetFlags(h, fiber, flags & !(Placement | Update | ChildDeletion))
    modifies store`fibers, trace`events, root`pendingPassiveEffects
    ensures r.Ok? ==> store.fibers == SetFlags(h, fiber, flags & !MutationHandled(tag))
    ensures r.Ok? ==> trace.events == old(trace.events) + (AttachCalls(g[fiber]) + VisibilityCalls(g, g[fiber], Sub(t, p)))
    ensures r.Ok? ==> root.pendingPassiveEffects == old(root.pendingPassiveEffects).(update := old(root.pendingPassiveEffects.update) + UpdateQueued(g[fiber]))
  {
    ghost var c := flags & !(Placement | Update | ChildDeletion);
    ClearedRest(flags, tag);
    QueuePassive(store, root, fiber, flags, h, c);
    c := c & !PassiveEffect;
    r := AttachRef(store, trace, fiber, flags, tag, h, c);
    if r.Err? {
      return;
    }
    c := c & !(if tag == HostComponent then FiberFlags.Ref else NoFlags);
    HideOffscreen(store, trace, fiber, flags, tag, t, p, g, h, c);
    Assoc(old(trace.events), AttachCalls(g[fiber]), VisibilityCalls(g, g[fiber], Sub(t, p)));
  }

  /** Clearing the passive, ref and visibility flags in turn leaves what the callback does not handle. */
  lemma ClearedRest(flags: Flags, tag: WorkTag)
    ensures var c0 := flags & !(Placement | Update | ChildDeletion);
            var c1 := c0 & !PassiveEffect;
            var c2 := c1 & !(if tag == HostComponent then FiberFlags.Ref else NoFlags);
            c0 & PassiveEffect == flags & PassiveEffect && c1 & FiberFlags.Ref == flags & FiberFlags.Ref &&
            c2 & Visibility == flags & Visibility &&
            c2 & !(if tag == OffscreenComponent then Visibility else NoFlags) == flags & !MutationHandled(tag)
  {
  }

  /** The passive part: a fiber flagged `PassiveEffect` queues its effects to run as 'update'. */
  method QueuePassive(store: FiberStore, root: FiberRootNode, fiber: FiberId, flags: Flags,
                      ghost h: map<FiberId, FiberNode>, ghost c: Flags)
    requires fiber in h && store.fibers == SetFlags(h, fiber, c) && h[fiber].flags == flags && c & PassiveEffect == flags & PassiveEffect
    modifies store`fibers, root`pendingPassiveEffects
    ensures store.fibers == SetFlags(h, fiber, c & !PassiveEffect)
    ensures root.pendingPassiveEffects == old(root.pendingPassiveEffects).(update := old(root.pendingPassiveEffects.update) + UpdateQueued(h[fiber]))
  {
    if flags & PassiveEffect != NoFlags {
      CommitPassiveEffect(root, store.fibers[fiber], UpdatePassive);
      ClearFlag(store, fiber, PassiveEffect, h, c);
    } else {
      assert c & !PassiveEffect == c;
    }
  }

  /** The ref part: a HostComponent flagged `Ref` has its ref attached. */
  method AttachRef(store: FiberStore, trace: Trace, fiber: FiberId, flags: Flags, tag: WorkTag,
                   ghost h: map<FiberId, FiberNode>, ghost c: Flags)
    returns (r: Result<()>)
    requires fiber in h && store.fibers == SetFlags(h, fiber, c) && h[fiber].flags == flags && h[fiber].tag == tag
    requires c & FiberFlags.Ref == flags & FiberFlags.Ref
    modifies store`fibers, trace`events
    ensures r.Ok? ==> store.fibers == SetFlags(h, fiber, c & !(if tag == HostComponent then FiberFlags.Ref else NoFlags))
    ensures r.Ok? ==> trace.events == old(trace.events) + AttachCalls(h[fiber])
  {
    if flags & FiberFlags.Ref != NoFlags && tag == HostComponent {
      r := SafelyAttachRef(trace, store.fibers[fiber]);
      if r.Err? {
        return;
      }
      ClearFlag(store, fiber, FiberFlags.Ref, h, c);
    } else {
      assert c & !(if tag == HostComponent then FiberFlags.Ref else NoFlags) == c;
    }
    r := Ok(());
  }

  /** The visibility part: an Offscreen fiber flagged `Visibility` hides or shows its content, as its `mode` says. */
  method HideOffscreen(store: FiberStore, trace: Trace, fiber: FiberId, flags: Flags, tag: WorkTag,
                       ghost t: Tree, ghost p: seq<nat>, ghost g: map<FiberId, FiberNode>, ghost h: map<FiberId, FiberNode>, ghost c: Flags)
    requires WholeTree(g, t) && ValidPath(t, p) && Sub(t, p).id == fiber && fiber in g && fiber in h
    requires flags == g[fiber].flags && tag == g[fiber].tag && h[fiber] == g[fiber] && KeptOn(g, h, Visit(t))
    requires store.fibers == SetFlags(h, fiber, c) && c & Visibility == flags & Visibility
    modifies store`fibers, trace`events
    ensures store.fibers == SetFlags(h, fiber, c & !(if tag == OffscreenComponent then Visibility else NoFlags))
    ensures trace.events == old(trace.events) + VisibilityCalls(g, g[fiber], Sub(t, p))
  {
    if flags & Visibility != NoFlags && tag == OffscreenComponent {
      var isHidden := IsHiddenMode(store.fibers[fiber].pendingProps);
      ghost var s := Sub(t, p);
      ghost var cur := store.fibers;
      HideShape(g, h, cur, t, p, c);
      HideOrUnhideAllChildren(store, trace, fiber, isHidden, Pruned(cur, s, AtHostsAndHidden));
      ClearFlag(store, fiber, Visibility, h, c);
    } else {
      assert c & !(if tag == OffscreenComponent then Visibility else NoFlags) == c;
    }
  }

  /** The subtree under an Offscreen fiber is walked as `hideOrUnhideAllChildren` needs, with the calls it had before. */
  lemma HideShape(g: map<FiberId, FiberNode>, h: map<FiberId, FiberNode>, cur: map<FiberId, FiberNode>, t: Tree, p: seq<nat>, c: Flags)
    requires WholeTree(g, t) && ValidPath(t, p) && Sub(t, p).id in h && KeptOn(g, h, Visit(t)) && cur == SetFlags(h, Sub(t, p).id, c)
    ensures var q := Pruned(cur, Sub(t, p), AtHostsAndHidden);
            q.id == Sub(t, p).id && Spans(cur, q, AtHostsAndHidden) && Parented(cur, q) && ChildFibers.Distinct(Visit(q))
    ensures forall isHidden :: HideEvents(cur, Sub(t, p), isHidden) == HideEvents(g, Sub(t, p), isHidden)
  {
    assert KeptOn(g, cur, Visit(t));
    WholeTreeKept(g, cur, t);
    PrunedShape(cur, t, p);
    HideEventsOfSub(g, cur, t, p);
  }

  /** The hide calls for the subtree at `p` are the same on an arena that keeps every fiber of the tree but its flags. */
  lemma HideEventsOfSub(g: map<FiberId, FiberNode>, cur: map<FiberId, FiberNode>, t: Tree, p: seq<nat>)
    requires WholeTree(g, t) && ValidPath(t, p) && KeptOn(g, cur, Visit(t))
    ensures forall isHidden :: HideEvents(cur, Sub(t, p), isHidden) == HideEvents(g, Sub(t, p), isHidden)
  {
    var s := Sub(t, p);
    SubInVisit(t, p);
    assert KeptOn(g, cur, Visit(s));
    SubSpans(g, t, p);
    SubShaped(g, t, p);
    forall isHidden ensures HideEvents(cur, s, isHidden) == HideEvents(g, s, isHidden) {
      HideEventsKept(g, cur, s, isHidden);
    }
  }

  lemma PrunedShape(fibers: map<FiberId, FiberNode>, t: Tree, p: seq<nat>)
    requires WholeTree(fibers, t) && ValidPath(t, p)
    ensures var q := Pruned(fibers, Sub(t, p), AtHostsAndHidden);
            q.id == Sub(t, p).id && Spans(fibers, q, AtHostsAndHidden) && Parented(fibers, q) && ChildFibers.Distinct(Visit(q))
  {
    var s := Sub(t, p);
    SubSpans(fibers, t, p);
    SubShaped(fibers, t, p);
    PrunedSpans(fibers, s, AtHostsAndHidden);
    PrunedDistinct(fibers, s, AtHostsAndHidden);
  }

  /** The hide calls read no `flags`. */
  lemma HideEventsKept(fibers: map<FiberId, FiberNode>, fibers': map<FiberId, FiberNode>, s: Tree, isHidden: bool)
    requires Spans(fibers, s, Nowhere) && ChildFibers.Distinct(Visit(s)) && KeptOn(fibers, fibers', Visit(s))
    ensures HideEvents(fibers', s, isHidden) == HideEvents(fibers, s, isHidden)
  {
    SpansIn(fibers, s);
    PrunedKept(fibers, fibers', s, AtHostsAndHidden);
    var q := Pruned(fibers, s, AtHostsAndHidden);
    PrunedDistinct(fibers, s, AtHostsAndHidden);
    assert VisitAll([q]) == Visit(q) + VisitAll([]);
    CompleteWork.TopHostsKept(fibers, fibers', [q]);
    CompleteWork.TopHostsIn(fibers, [q]);
    HideCallsKept(fibers, fibers', CompleteWork.TopHosts(fibers, [q]), isHidden);
  }
}
