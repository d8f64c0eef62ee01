/**
 * Deletion in the commit phase.  `commitNestedComponent` walks the whole
 * deleted subtree in pre-order and runs the unmount callback on every fiber
 * of it; `commitDeletion` then takes the subtree's top-level host nodes out
 * of their host parent and cuts the deleted fiber loose from the tree.
 */
module CommitDeletion {
  import opened Wrappers
  import opened Js
  import opened WorkTags
  import opened HostTypes
  import opened Fiber
  import opened FiberTree
  import opened HostConfig
  import opened ChildFibers
  import opened CommitWork
  import CompleteWork

  // ---------------------------------------------------------------------
  // Unmounting

  /** What unmounting has done outside the arena: the calls made on refs, and `root.pendingPassiveEffects.unmount`. */
  datatype Unmounted = Unmounted(events: seq<Event>, unmount: seq<Option<EffectId>>)

  /**
   * The unmount callback of `commitDeletion` on one fiber, apart from the
   * recording of host nodes: a HostComponent's ref gets `null`, a function
   * component's effect list is queued for unmounting, any other fiber is
   * passed over.
   */
  function UnmountStep(u: Unmounted, f: FiberNode): Result<Unmounted>
  {
    if f.tag == HostComponent then
      match RefWrite(f.ref, NoStateNode)
      case Err(m) => Err(m)
      case Ok(calls) => Ok(u.(events := u.events + calls))
    else if CollectsPassive(f, UnmountPassive) then Ok(u.(unmount := u.unmount + [LastEffectOf(f.updateQueue)]))
    else Ok(u)
  }

  /** The callback run on the fibers `ids` in order; the first error thrown stops it. */
  function UnmountPlan(fibers: map<FiberId, FiberNode>, u: Unmounted, ids: seq<FiberId>): Result<Unmounted>
    decreases |ids|
  {
    if ids == [] then Ok(u)
    else
      var n := |ids| - 1;
      match UnmountPlan(fibers, u, ids[..n])
      case Err(m) => Err(m)
      case Ok(v) => if ids[n] in fibers then UnmountStep(v, fibers[ids[n]]) else Ok(v)
  }

  /** Unmounting reads no fiber's `flags`. */
  lemma {:induction false} UnmountPlanKept(fibers: map<FiberId, FiberNode>, fibers': map<FiberId, FiberNode>, u: Unmounted, ids: seq<FiberId>)
    requires KeptOn(fibers, fibers', ids) && forall x | x in ids :: x in fibers
    ensures UnmountPlan(fibers', u, ids) == UnmountPlan(fibers, u, ids)
    decreases |ids|
  {
    if ids != [] {
      var n := |ids| - 1;
      assert forall i | 0 <= i < n :: ids[..n][i] == ids[i];
      assert forall x | x in ids[..n] :: x in ids;
      UnmountPlanKept(fibers, fibers', u, ids[..n]);
      assert ids[n] in ids;
    }
  }

  /** Detaching the ref of `id` does not throw: it is no HostComponent, or its ref is `null`, a function or an object. */
  ghost predicate Detachable(fibers: map<FiberId, FiberNode>, id: FiberId)
  {
    id in fibers && fibers[id].tag == HostComponent ==>
      fibers[id].ref.Null? || fibers[id].ref.Fn? || IsObject(fibers[id].ref)
  }

  ghost predicate RefsDetachable(fibers: map<FiberId, FiberNode>, ids: seq<FiberId>)
  {
    forall i | 0 <= i < |ids| :: Detachable(fibers, ids[i])
  }

  /** What detaching a ref does: call a function with `null`, or set an object's `current` to `null`. */
  function DetachCall(ref: JsValue): seq<Event>
  {
    if ref.Fn? then [RefCalled(ref, NoStateNode)] else if IsObject(ref) then [RefSet(ref, NoStateNode)] else []
  }

  /** The ref detaches for the HostComponents among `ids`, in order. */
  function DetachCalls(fibers: map<FiberId, FiberNode>, ids: seq<FiberId>): seq<Event>
    decreases |ids|
  {
    if ids == [] then []
    else
      var n := |ids| - 1;
      DetachCalls(fibers, ids[..n]) +
      (if ids[n] in fibers && fibers[ids[n]].tag == HostComponent then DetachCall(fibers[ids[n]].ref) else [])
  }

  /** The effect lists of the function components among `ids` that have an update queue, in order. */
  function PassiveUnmounts(fibers: map<FiberId, FiberNode>, ids: seq<FiberId>): seq<Option<EffectId>>
    decreases |ids|
  {
    if ids == [] then []
    else
      var n := |ids| - 1;
      PassiveUnmounts(fibers, ids[..n]) +
      (if ids[n] in fibers && CollectsPassive(fibers[ids[n]], UnmountPassive) then [LastEffectOf(fibers[ids[n]].updateQueue)] else [])
  }

  /**
   * Unmounting `ids` fails exactly when one of its HostComponents has a ref
   * that cannot be detached; otherwise it has detached every HostComponent's
   * ref and queued every function component's effects, in order.
   */
  lemma {:induction false} UnmountPlanMeaning(fibers: map<FiberId, FiberNode>, u: Unmounted, ids: seq<FiberId>)
    ensures UnmountPlan(fibers, u, ids).Ok? <==> RefsDetachable(fibers, ids)
    ensures UnmountPlan(fibers, u, ids).Ok? ==>
              UnmountPlan(fibers, u, ids).value == Unmounted(u.events + DetachCalls(fibers, ids), u.unmount + PassiveUnmounts(fibers, ids))
    decreases |ids|
  {
    if ids != [] {
      var n := |ids| - 1;
      UnmountPlanMeaning(fibers, u, ids[..n]);
      DetachableSnoc(fibers, ids);
    }
  }

  lemma DetachableSnoc(fibers: map<FiberId, FiberNode>, ids: seq<FiberId>)
    requires ids != []
    ensures var n := |ids| - 1;
            RefsDetachable(fibers, ids) <==> RefsDetachable(fibers, ids[..n]) && Detachable(fibers, ids[n])
  {
    var n := |ids| - 1;
    assert forall i | 0 <= i < n :: ids[..n][i] == ids[i];
  }

  lemma UnmountSnoc(fibers: map<FiberId, FiberNode>, u: Unmounted, ids: seq<FiberId>, id: FiberId)
    requires id in fibers
    ensures UnmountPlan(fibers, u, ids + [id]) ==
            match UnmountPlan(fibers, u, ids) case Err(m) => Err(m) case Ok(v) => UnmountStep(v, fibers[id])
  {
    assert (ids + [id])[..|ids|] == ids;
  }

  /** Once the callback threw, the walk has stopped with that error. */
  lemma {:induction false} UnmountErrSticks(fibers: map<FiberId, FiberNode>, u: Unmounted, ids: seq<FiberId>, more: seq<FiberId>)
    requires UnmountPlan(fibers, u, ids).Err?
    ensures UnmountPlan(fibers, u, ids + more) == UnmountPlan(fibers, u, ids)
    decreases |more|
  {
    if more == [] {
      assert ids + more == ids;
    } else {
      var n := |more| - 1;
      UnmountErrSticks(fibers, u, ids, more[..n]);
      var all := ids + more;
      assert all[..|all| - 1] == ids + more[..n];
    }
  }

  /** The unmount part of the callback `commitDeletion` hands to `commitNestedComponent`. */
  method UnmountFiber(trace: Trace, root: FiberRootNode, f: FiberNode) returns (r: Result<()>)
    modifies trace`events, root`pendingPassiveEffects
    ensures root.pendingPassiveEffects.update == old(root.pendingPassiveEffects.update)
    ensures var step := UnmountStep(Unmounted(old(trace.events), old(root.pendingPassiveEffects.unmount)), f);
            (r.Ok? <==> step.Ok?) && (r.Err? ==> r.message == step.message) &&
            (step.Ok? ==> trace.events == step.value.events &&
                          root.pendingPassiveEffects == old(root.pendingPassiveEffects).(unmount := step.value.unmount))
  {
    if f.tag == HostComponent {
      r := SafelyDetachRef(trace, f);
    } else {
      if f.tag == FunctionComponent {
        CommitPassiveEffect(root, f, UnmountPassive);
      }
      r := Ok(());
    }
  }

  /**
   * `commitNestedComponent(top, onCommitUnmount)` with the unmount callback:
   * the callback runs on every fiber of the subtree `s` under `top`, in
   * pre-order, until it throws.  Like the other walks it points each child
   * and sibling it moves to back at its parent, which they already are.
   */
  method CommitNestedComponent(store: FiberStore, trace: Trace, root: FiberRootNode, top: FiberId, ghost s: Tree) returns (r: Result<()>)
    requires s.id == top && Spans(store.fibers, s, Nowhere) && Parented(store.fibers, s) && Distinct(Visit(s))
    modifies store`fibers, trace`events, root`pendingPassiveEffects
    ensures store.fibers == old(store.fibers)
    ensures root.pendingPassiveEffects.update == old(root.pendingPassiveEffects.update)
    ensures var plan := UnmountPlan(old(store.fibers), Unmounted(old(trace.events), old(root.pendingPassiveEffects.unmount)), Visit(s));
            (r.Ok? <==> plan.Ok?) && (r.Err? ==> r.message == plan.message) &&
            (plan.Ok? ==> trace.events == plan.value.events && root.pendingPassiveEffects.unmount == plan.value.unmount)
  {
    ghost var u0 := Unmounted(trace.events, root.pendingPassiveEffects.unmount);
    var node := top;
    ghost var path: seq<nat> := [];
    NodeInVisit(s, path);
    while true
      invariant ValidPath(s, path) && node == Sub(s, path).id && |Before(s, path)| < |Visit(s)|
      invariant store.fibers == old(store.fibers) && root.pendingPassiveEffects.update == old(root.pendingPassiveEffects.update)
      invariant UnmountPlan(store.fibers, u0, Before(s, path)) == Ok(Unmounted(trace.events, root.pendingPassiveEffects.unmount))
      decreases |Visit(s)| - |Before(s, path)|
    {
      var more;
      more, r, node, path := UnmountAndMove(store, trace, root, top, s, node, path, u0);
      if !more {
        return;
      }
    }
  }

  /**
   * One round of `commitNestedComponent`: the callback on the node at `path`,
   * then down to its child, or up and across to the next sibling, or the end
   * of the walk.
   */
  method UnmountAndMove(store: FiberStore, trace: Trace, root: FiberRootNode, top: FiberId, ghost s: Tree,
                        node: FiberId, ghost path: seq<nat>, ghost u0: Unmounted)
    returns (more: bool, r: Result<()>, next: FiberId, ghost path': seq<nat>)
    requires s.id == top && Spans(store.fibers, s, Nowhere) && Parented(store.fibers, s) && Distinct(Visit(s))
    requires ValidPath(s, path) && node == Sub(s, path).id
    requires UnmountPlan(store.fibers, u0, Before(s, path)) == Ok(Unmounted(trace.events, root.pendingPassiveEffects.unmount))
    modifies store`fibers, trace`events, root`pendingPassiveEffects
    ensures store.fibers == old(store.fibers)
    ensures root.pendingPassiveEffects.update == old(root.pendingPassiveEffects.update)
    ensures more ==> ValidPath(s, path') && next == Sub(s, path').id && |Before(s, path)| < |Before(s, path')| < |Visit(s)| &&
                     UnmountPlan(store.fibers, u0, Before(s, path')) == Ok(Unmounted(trace.events, root.pendingPassiveEffects.unmount))
    ensures !more ==> var plan := UnmountPlan(store.fibers, u0, Visit(s));
                      (r.Ok? <==> plan.Ok?) && (r.Err? ==> r.message == plan.message) &&
                      (plan.Ok? ==> trace.events == plan.value.events && root.pendingPassiveEffects.unmount == plan.value.unmount)
  {
    ghost var f0 := store.fibers;
    ghost var before := Before(s, path);
    SubSpans(f0, s, path);
    UnmountSnoc(f0, u0, before, node);
    r := UnmountFiber(trace, root, store.fibers[node]);
    next, path' := node, path;
    if r.Err? {
        UnmountStopsAt(f0, u0, s, path);
      return false, r, next, path';
    }
    var child := store.fibers[node].child;
    if child.Some? {
      StepDown(f0, s, Nowhere, path);
      SetReturn(store, child.value, Some(node));
      next, path' := child.value, path + [0];
      NodeInVisit(s, path');
      return true, r, next, path';
    }
    more, next, path' := LeaveLeaf(store, top, s, node, path);
  }

  /** The walk stopped by an error at the node at `p` ends with that error. */
  lemma UnmountStopsAt(fibers: map<FiberId, FiberNode>, u0: Unmounted, s: Tree, p: seq<nat>)
    requires ValidPath(s, p)
    requires UnmountPlan(fibers, u0, Before(s, p) + [Sub(s, p).id]).Err?
    ensures UnmountPlan(fibers, u0, Visit(s)) == UnmountPlan(fibers, u0, Before(s, p) + [Sub(s, p).id])
  {
    var before := Before(s, p) + [Sub(s, p).id];
    VisitSplits(s, p);
    UnmountErrSticks(fibers, u0, before, VisitAll(Sub(s, p).kids) + After(s, p));
    assert Visit(s) == before + (VisitAll(Sub(s, p).kids) + After(s, p));
  }

  /**
   * After the callback on a node without children: the walk ends at the
   * top, or climbs to the next sibling, or ends on the way up.
   */
  method LeaveLeaf(store: FiberStore, top: FiberId, ghost s: Tree, node: FiberId, ghost path: seq<nat>)
    returns (more: bool, next: FiberId, ghost path': seq<nat>)
    requires s.id == top && Spans(store.fibers, s, Nowhere) && Parented(store.fibers, s) && Distinct(Visit(s))
    requires ValidPath(s, path) && node == Sub(s, path).id && node in store.fibers && store.fibers[node].child.None?
    modifies store`fibers
    ensures store.fibers == old(store.fibers)
    ensures more ==> ValidPath(s, path') && next == Sub(s, path').id && Before(s, path') == Before(s, path) + [node] &&
                     |Before(s, path')| < |Visit(s)|
    ensures !more ==> Before(s, path) + [node] == Visit(s)
  {
    StepDown(store.fibers, s, Nowhere, path);
    assert Visit(Sub(s, path)) == [node];
    next, path' := node, path;
    if node == top {
      if path != [] {
        TopOnlyAtEmptyPath(s, path);
      }
      return false, next, path';
    }
    var sibling;
    more, sibling, path' := CompleteWork.ClimbToSibling(store, top, s, Nowhere, Some(node), path);
    if more {
      next := sibling.value;
    }
  }

  // ---------------------------------------------------------------------
  // Recording the host nodes to remove, as written

  /** The fibers met from `first` along `sibling`, stopping at the end or at a fiber met already. */
  ghost function SiblingsFrom(fibers: map<FiberId, FiberNode>, first: Option<FiberId>, seen: set<FiberId>): seq<FiberId>
    decreases fibers.Keys - seen
  {
    if first.None? || first.value !in fibers || first.value in seen then []
    else [first.value] + SiblingsFrom(fibers, fibers[first.value].sibling, seen + {first.value})
  }

  /** Two sibling chains from the same fiber are the same chain. */
  lemma {:induction false} ChainUnique(fibers: map<FiberId, FiberNode>, first: Option<FiberId>, first': Option<FiberId>, a: seq<FiberId>, b: seq<FiberId>)
    requires IsChain(fibers, first, a) && IsChain(fibers, first', b)
    ensures first == first' ==> a == b
    decreases |a|
  {
    if a != [] && b != [] {
      ChainUnique(fibers, fibers[a[0]].sibling, fibers[b[0]].sibling, a[1..], b[1..]);
    }
  }

  /** A sibling chain that ends meets no fiber twice. */
  lemma ChainDistinct(fibers: map<FiberId, FiberNode>, first: Option<FiberId>, chain: seq<FiberId>)
    requires IsChain(fibers, first, chain)
    ensures Distinct(chain)
  {
    forall a, b | 0 <= a < b < |chain|
      ensures chain[a] != chain[b]
    {
      ChainFacts(fibers, first, chain, a);
      ChainFacts(fibers, first, chain, b);
      ChainUnique(fibers, Some(chain[a]), Some(chain[b]), chain[a..], chain[b..]);
      assert |chain[a..]| != |chain[b..]|;
    }
  }

  /** Along a sibling chain that ends, the walk of `SiblingsFrom` meets exactly the chain. */
  lemma {:induction false} SiblingsFromChain(fibers: map<FiberId, FiberNode>, first: Option<FiberId>, chain: seq<FiberId>, seen: set<FiberId>)
    requires IsChain(fibers, first, chain) && Distinct(chain) && forall i | 0 <= i < |chain| :: chain[i] !in seen
    ensures SiblingsFrom(fibers, first, seen) == chain
    decreases |chain|
  {
    if chain != [] {
      assert forall i | 0 <= i < |chain[1..]| :: chain[1..][i] == chain[i + 1];
      SiblingsFromChain(fibers, fibers[chain[0]].sibling, chain[1..], seen + {chain[0]});
    }
  }

  /**
   * `recordHostChildrenToDelete(records, x)`: with nothing recorded yet `x`
   * is recorded; otherwise `x` is recorded only if it is one of the later
   * siblings of the last fiber recorded.
   */
  ghost function RecordedAfter(fibers: map<FiberId, FiberNode>, records: seq<FiberId>, x: FiberId): seq<FiberId>
  {
    if records == [] then [x]
    else
      var last := records[|records| - 1];
      var later := if last in fibers then SiblingsFrom(fibers, fibers[last].sibling, {}) else [];
      if x in later then records + [x] else records
  }

  /**
   * `recordHostChildrenToDelete(rootChildrenToDelete, unmountFiber)`: walks
   * the sibling chain after the last recorded fiber, `chain`, and pushes `x`
   * once for every time it meets it there.
   */
  method RecordHostChildrenToDelete(store: FiberStore, records: seq<FiberId>, x: FiberId, ghost chain: seq<FiberId>)
    returns (records': seq<FiberId>)
    requires records != [] ==> records[|records| - 1] in store.fibers && IsChain(store.fibers, store.fibers[records[|records| - 1]].sibling, chain)
    ensures records' == RecordedAfter(store.fibers, records, x)
  {
    if records == [] {
      return [x];
    }
    var fibers := store.fibers;
    ChainDistinct(fibers, fibers[records[|records| - 1]].sibling, chain);
    SiblingsFromChain(fibers, fibers[records[|records| - 1]].sibling, chain, {});
    records' := records;
    var node := fibers[records[|records| - 1]].sibling;
    ghost var i := 0;
    while node.Some?
      invariant i <= |chain| && IsChain(fibers, node, chain[i..])
      invariant records' == records + (if x in chain[..i] then [x] else [])
      decreases |chain| - i
    {
      ChainFacts(fibers, node, chain[i..], 0);
      assert chain[..i + 1] == chain[..i] + [chain[i]] && chain[i..][1..] == chain[i + 1..];
      if node.value == x {
        assert x !in chain[..i];
        records' := records' + [x];
      }
      node := fibers[node.value].sibling;
      i := i + 1;
    }
    assert chain[..i] == chain;
  }

  /** What the unmount walk of `commitDeletion` records, as written, for the fibers `ids` in order: each host fiber goes through `RecordedAfter`. */
  ghost function RecordedAsWritten(fibers: map<FiberId, FiberNode>, ids: seq<FiberId>): seq<FiberId>
    decreases |ids|
  {
    if ids == [] then []
    else
      var n := |ids| - 1;
      var records := RecordedAsWritten(fibers, ids[..n]);
      if ids[n] in fibers && IsHost(fibers[ids[n]]) then RecordedAfter(fibers, records, ids[n]) else records
  }

  // A deleted function component with a `div` and, under another function component, a `p`.
  const DeletedFibers: map<FiberId, FiberNode> :=
    map[1 := InitialFiber(FunctionComponent, Null, Null).(child := Some(2)),
        2 := InitialFiber(HostComponent, Null, Null).(stateNode := HostNode(20), ret := Some(1), sibling := Some(3)),
        3 := InitialFiber(FunctionComponent, Null, Null).(ret := Some(1), child := Some(4)),
        4 := InitialFiber(HostComponent, Null, Null).(stateNode := HostNode(40), ret := Some(3))]
  const DeletedTree := Node(1, [Node(2, []), Node(3, [Node(4, [])])])

  lemma DeletedTreeVisit()
    ensures Visit(DeletedTree) == [1, 2, 3, 4]
  {
    var none: seq<Tree> := [];
    var t4 := Node(4, none);
    var t3 := Node(3, [t4]);
    var t2 := Node(2, none);
    assert VisitAll(none) == [];
    assert Visit(t4) == [4];
    assert [t4][1..] == none;
    assert VisitAll([t4]) == [4];
    assert Visit(t3) == [3, 4];
    assert [t3][1..] == none;
    assert VisitAll([t3]) == [3, 4];
    assert Visit(t2) == [2];
    assert [t2, t3][1..] == [t3];
    assert VisitAll([t2, t3]) == [2] + [3, 4];
  }

  lemma ExamplePrefixes()
    ensures [1, 2, 3, 4][..3] == [1, 2, 3] && [1, 2, 3][..2] == [1, 2] && [1, 2][..1] == [1]
  {
    var a: seq<FiberId> := [1, 2, 3, 4];
    assert a[..3] == [1, 2, 3];
    var b: seq<FiberId> := [1, 2, 3];
    assert b[..2] == [1, 2];
    var c: seq<FiberId> := [1, 2];
    assert c[..1] == [1];
  }

  /**
   * As written, deleting that subtree records only the `div`: the `p` is a
   * top-level host node of the subtree too, but it is no sibling of the `div`,
   * so its instance stays in the host parent.  The intended records are the
   * top-level host fibers, both of them.
   */
  lemma DeletionAsWrittenMissesNestedHost()
    ensures Visit(DeletedTree) == [1, 2, 3, 4]
    ensures RecordedAsWritten(DeletedFibers, Visit(DeletedTree)) == [2]
    ensures CompleteWork.TopHosts(DeletedFibers, [DeletedTree]) == [2, 4]
  {
    var fibers := DeletedFibers;
    DeletedTreeVisit();
    var ids := [1, 2, 3, 4];
    ExamplePrefixes();
    assert RecordedAsWritten(fibers, [1]) == [] by {
      assert [1][..0] == [];
    }
    assert SiblingsFrom(fibers, Some(3), {}) == [3] by {
      assert SiblingsFrom(fibers, None, {3}) == [];
    }
    assert RecordedAsWritten(fibers, [1, 2]) == [2];
    assert RecordedAsWritten(fibers, [1, 2, 3]) == [2];
    assert RecordedAsWritten(fibers, ids) == [2];
    var none: seq<Tree> := [];
    assert CompleteWork.TopHosts(fibers, [Node(3, [Node(4, [])])]) == [4] by {
      assert [Node(3, [Node(4, [])])][1..] == none && [Node(4, [])][1..] == none;
    }
    assert CompleteWork.TopHosts(fibers, [Node(2, []), Node(3, [Node(4, [])])]) == [2, 4] by {
      assert [Node(2, []), Node(3, [Node(4, [])])][1..] == [Node(3, [Node(4, [])])];
    }
  }

  // ---------------------------------------------------------------------
  // Recording the host nodes to remove, as intended

  lemma {:induction false} TopHostsSnoc(fibers: map<FiberId, FiberNode>, ts: seq<Tree>, k: nat)
    requires k < |ts|
    ensures CompleteWork.TopHosts(fibers, ts[..k + 1]) == CompleteWork.TopHosts(fibers, ts[..k]) + CompleteWork.TopHosts(fibers, [ts[k]])
    decreases k
  {
    if k == 0 {
      assert ts[..1] == [ts[0]];
    } else {
      assert ts[..k + 1][0] == ts[0] && ts[..k + 1][1..] == ts[1..][..k];
      assert ts[..k][0] == ts[0] && ts[..k][1..] == ts[1..][..k - 1];
      TopHostsSnoc(fibers, ts[1..], k - 1);
      var first := if ts[0].id in fibers && IsHost(fibers[ts[0].id]) then [ts[0].id] else CompleteWork.TopHosts(fibers, ts[0].kids);
      assert ts[1..][k - 1] == ts[k];
      Assoc(first, CompleteWork.TopHosts(fibers, ts[1..][..k - 1]), CompleteWork.TopHosts(fibers, [ts[k]]));
    }
  }

  /** The top host fibers of one tree of a forest are top host fibers of the forest. */
  lemma {:induction false} TopHostsOfKid(fibers: map<FiberId, FiberNode>, ts: seq<Tree>, i: nat, x: FiberId)
    requires i < |ts| && x in CompleteWork.TopHosts(fibers, [ts[i]])
    ensures x in CompleteWork.TopHosts(fibers, ts)
    decreases i
  {
    if i > 0 {
      assert ts[1..][i - 1] == ts[i];
      TopHostsOfKid(fibers, ts[1..], i - 1, x);
    }
  }

  /**
   * Every host fiber of `t` is one of its top host fibers or lies below one
   * of them: taking the top ones out of the host parent takes every host
   * node of the subtree off it.
   */
  lemma {:induction false} TopHostsCover(fibers: map<FiberId, FiberNode>, t: Tree, p: seq<nat>)
    requires ValidPath(t, p) && Sub(t, p).id in fibers && IsHost(fibers[Sub(t, p).id])
    ensures exists k | 0 <= k <= |p| :: ValidPath(t, p[..k]) && Sub(t, p[..k]).id in CompleteWork.TopHosts(fibers, [t])
    decreases p
  {
    if t.id in fibers && IsHost(fibers[t.id]) {
      assert p[..0] == [];
      assert CompleteWork.TopHosts(fibers, [t]) == [t.id] + CompleteWork.TopHosts(fibers, []);
    } else {
      var i := p[0];
      TopHostsCover(fibers, t.kids[i], p[1..]);
      var k :| 0 <= k <= |p[1..]| && ValidPath(t.kids[i], p[1..][..k]) && Sub(t.kids[i], p[1..][..k]).id in CompleteWork.TopHosts(fibers, [t.kids[i]]);
      assert p[..k + 1] == [i] + p[1..][..k];
      assert ValidPath(t, p[..k + 1]) && Sub(t, p[..k + 1]) == Sub(t.kids[i], p[1..][..k]);
      TopHostsOfKid(fibers, t.kids, i, Sub(t, p[..k + 1]).id);
      assert CompleteWork.TopHosts(fibers, [t]) == CompleteWork.TopHosts(fibers, t.kids) + CompleteWork.TopHosts(fibers, []);
    }
  }

  /**
   * The recording `commitDeletion` intends: the host fibers nearest to the
   * top of the deleted subtree, left to right, found by not going below a
   * host fiber.  Each of them holds its host node.
   */
  method CollectHostChildrenToDelete(store: FiberStore, fiber: FiberId, ghost s: Tree) returns (records: seq<FiberId>)
    requires Spans(store.fibers, s, Nowhere) && ShapedTree(store.fibers, s) && s.id == fiber
    ensures records == CompleteWork.TopHosts(store.fibers, [s])
    ensures forall i | 0 <= i < |records| :: records[i] in store.fibers && store.fibers[records[i]].stateNode.HostNode?
    decreases s, 1
  {
    var f := store.fibers[fiber];
    ghost var none: seq<Tree> := [];
    assert CompleteWork.TopHosts(store.fibers, [s]) == (if IsHost(f) then [fiber] else CompleteWork.TopHosts(store.fibers, s.kids)) by {
      assert [s][1..] == none;
    }
    if f.tag == HostComponent || f.tag == HostText {
      return [fiber];
    }
    ChildOf(store.fibers, s, Nowhere);
    if f.child.None? {
      return [];
    }
    records := CollectChildHosts(store, f.child.value, s);
  }

  /** The top host fibers under each child of a fiber that is not a host, first child to last. */
  method CollectChildHosts(store: FiberStore, first: FiberId, ghost s: Tree) returns (records: seq<FiberId>)
    requires Spans(store.fibers, s, Nowhere) && ShapedTree(store.fibers, s) && s.kids != [] && first == s.kids[0].id
    ensures records == CompleteWork.TopHosts(store.fibers, s.kids)
    ensures forall i | 0 <= i < |records| :: records[i] in store.fibers && store.fibers[records[i]].stateNode.HostNode?
    decreases s, 0
  {
    records := [];
    ghost var k := 0;
    var node := Some(first);
    while node.Some?
      invariant k <= |s.kids| && node == (if k < |s.kids| then Some(s.kids[k].id) else None)
      invariant records == CompleteWork.TopHosts(store.fibers, s.kids[..k])
      invariant forall i | 0 <= i < |records| :: records[i] in store.fibers && store.fibers[records[i]].stateNode.HostNode?
      decreases |s.kids| - k
    {
      assert Below(store.fibers, s.kids[k], Nowhere) && !Stops(Nowhere, store.fibers[s.kids[k].id]);
      TopHostsSnoc(store.fibers, s.kids, k);
      SiblingOf(store.fibers, s, Nowhere, k);
      var more := CollectHostChildrenToDelete(store, node.value, s.kids[k]);
      records := records + more;
      node := store.fibers[node.value].sibling;
      k := k + 1;
    }
    assert s.kids[..k] == s.kids;
  }

  /** The host nodes held by the fibers `ids`. */
  function InstancesOf(fibers: map<FiberId, FiberNode>, ids: seq<FiberId>): (r: seq<InstanceRef>)
    requires forall i | 0 <= i < |ids| :: ids[i] in fibers && fibers[ids[i]].stateNode.HostNode?
    ensures |r| == |ids| && forall i | 0 <= i < |ids| :: fibers[ids[i]].stateNode == HostNode(r[i])
    decreases |ids|
  {
    if ids == [] then [] else [fibers[ids[0]].stateNode.instance] + InstancesOf(fibers, ids[1..])
  }

  // ---------------------------------------------------------------------
  // Removing them from the host parent

  /** `xs.forEach(x => removeChild(x, parent))` on the children `children` of the parent; the first child missing throws. */
  function RemoveEach(children: seq<InstanceRef>, xs: seq<InstanceRef>): Result<seq<InstanceRef>>
    decreases |xs|
  {
    if xs == [] then Ok(children)
    else if xs[0] !in children then Err("removeChild: child doesn't exist")
    else RemoveEach(RemoveAt(children, IndexOf(children, xs[0])), xs[1..])
  }

  /**
   * The removals succeed exactly when the parent holds every node to remove,
   * as many times as it is listed; they then take out one copy per listing.
   */
  lemma {:induction false} RemoveEachMeaning(children: seq<InstanceRef>, xs: seq<InstanceRef>)
    ensures RemoveEach(children, xs).Ok? <==> multiset(xs) <= multiset(children)
    ensures RemoveEach(children, xs).Ok? ==> multiset(RemoveEach(children, xs).value) == multiset(children) - multiset(xs)
    decreases |xs|
  {
    if xs != [] {
      assert xs == [xs[0]] + xs[1..];
      assert multiset(xs) == multiset{xs[0]} + multiset(xs[1..]);
      if xs[0] in children {
        RemoveFirstOccurrence(children, xs[0]);
        RemoveEachMeaning(RemoveAt(children, IndexOf(children, xs[0])), xs[1..]);
      } else {
        assert multiset(xs)[xs[0]] > multiset(children)[xs[0]];
      }
    }
  }

  /** The `forEach` of `commitDeletion` that removes the recorded host nodes from `parent`, in order. */
  method RemoveHostChildren(host: NoopHost, parent: HostParent, xs: seq<InstanceRef>) returns (r: Result<()>)
    requires host.HasChildren(parent)
    modifies host`instances, host`containers
    ensures host.instanceCounter == old(host.instanceCounter) && (old(host.Valid()) ==> host.Valid())
    ensures var plan := RemoveEach(old(host.ChildrenOf(parent)), xs);
            (r.Ok? <==> plan.Ok?) && (r.Err? ==> r.message == plan.message) &&
            (plan.Ok? ==> host.HasChildren(parent) && host.ChildrenOf(parent) == plan.value &&
                          host.OnlyChildrenOf(parent, old(host.instances), old(host.containers)))
  {
    ghost var i0, c0 := host.instances, host.containers;
    ghost var plan := RemoveEach(host.ChildrenOf(parent), xs);
    assert host.OnlyChildrenOf(parent, i0, c0) by {
      match parent
      case ContainerParent(c) =>
        assert c0[c := c0[c].(children := c0[c].children)] == c0;
      case InstanceParent(i) =>
        assert i0[i := i0[i].(children := i0[i].children)] == i0;
    }
    for k := 0 to |xs|
      invariant host.HasChildren(parent) && host.OnlyChildrenOf(parent, i0, c0)
      invariant RemoveEach(host.ChildrenOf(parent), xs[k..]) == plan
      invariant host.instanceCounter == old(host.instanceCounter) && (old(host.Valid()) ==> host.Valid())
    {
      assert xs[k..] == [xs[k]] + xs[k + 1..];
      r := RemoveOne(host, parent, xs[k], xs[k + 1..], i0, c0, plan);
      if r.Err? {
        return;
      }
    }
    r := Ok(());
  }

  /** One round of that `forEach`: `xs[k]` removed, the rest of the removals still ahead. */
  method RemoveOne(host: NoopHost, parent: HostParent, x: InstanceRef, ghost rest: seq<InstanceRef>,
                   ghost i0: map<InstanceRef, HostInstance>, ghost c0: map<ContainerRef, Container>, ghost plan: Result<seq<InstanceRef>>)
    returns (r: Result<()>)
    requires host.HasChildren(parent) && host.OnlyChildrenOf(parent, i0, c0)
    requires RemoveEach(host.ChildrenOf(parent), [x] + rest) == plan
    modifies host`instances, host`containers
    ensures host.instanceCounter == old(host.instanceCounter) && (old(host.Valid()) ==> host.Valid())
    ensures r.Err? ==> plan.Err? && r.message == plan.message
    ensures r.Ok? ==> host.HasChildren(parent) && host.OnlyChildrenOf(parent, i0, c0) && RemoveEach(host.ChildrenOf(parent), rest) == plan
  {
    RemoveEachStep(host.ChildrenOf(parent), x, rest);
    ghost var i1, c1 := host.instances, host.containers;
    r := host.RemoveChild(x, parent);
    if r.Ok? {
      match parent
      case ContainerParent(c) =>
        ContainerChildrenTrans(c0, c1, host.containers, c);
      case InstanceParent(i) =>
        InstanceChildrenTrans(i0, i1, host.instances, i);
    }
  }

  lemma RemoveEachStep(children: seq<InstanceRef>, x: InstanceRef, rest: seq<InstanceRef>)
    ensures RemoveEach(children, [x] + rest) ==
            if x !in children then Err("removeChild: child doesn't exist") else RemoveEach(RemoveAt(children, IndexOf(children, x)), rest)
  {
    assert ([x] + rest)[0] == x && ([x] + rest)[1..] == rest;
  }

  /** Two rewrites of one container's children are one rewrite. */
  lemma ContainerChildrenTrans(c0: map<ContainerRef, Container>, c1: map<ContainerRef, Container>, c2: map<ContainerRef, Container>, c: ContainerRef)
    requires c in c0 && c in c1 && c in c2
    requires c1 == c0[c := c0[c].(children := c1[c].children)] && c2 == c1[c := c1[c].(children := c2[c].children)]
    ensures c2 == c0[c := c0[c].(children := c2[c].children)]
  {
  }

  /** Two rewrites of one instance's children are one rewrite. */
  lemma InstanceChildrenTrans(i0: map<InstanceRef, HostInstance>, i1: map<InstanceRef, HostInstance>, i2: map<InstanceRef, HostInstance>, i: InstanceRef)
    requires i in i0 && i in i1 && i in i2 && i0[i].Instance? && i1[i].Instance? && i2[i].Instance?
    requires i1 == i0[i := i0[i].(children := i1[i].children)] && i2 == i1[i := i1[i].(children := i2[i].children)]
    ensures i2 == i0[i := i0[i].(children := i2[i].children)]
  {
  }

  /** Every id of `ids` names a fiber holding a host node. */
  ghost predicate HoldHostNodes(fibers: map<FiberId, FiberNode>, ids: seq<FiberId>)
  {
    forall i | 0 <= i < |ids| :: ids[i] in fibers && fibers[ids[i]].stateNode.HostNode?
  }

  lemma {:induction false} TopHostsShaped(fibers: map<FiberId, FiberNode>, ts: seq<Tree>)
    requires forall i | 0 <= i < |ts| :: ShapedTree(fibers, ts[i])
    ensures HoldHostNodes(fibers, CompleteWork.TopHosts(fibers, ts))
    decreases ts
  {
    if ts != [] {
      var t := ts[0];
      assert ShapedTree(fibers, t);
      var a := if t.id in fibers && IsHost(fibers[t.id]) then [t.id] else CompleteWork.TopHosts(fibers, t.kids);
      if !(t.id in fibers && IsHost(fibers[t.id])) {
        TopHostsShaped(fibers, t.kids);
      } else {
        assert Shaped(fibers[t.id]);
      }
      assert HoldHostNodes(fibers, a);
      assert forall i | 0 <= i < |ts[1..]| :: ts[1..][i] == ts[i + 1];
      TopHostsShaped(fibers, ts[1..]);
      var b := CompleteWork.TopHosts(fibers, ts[1..]);
      assert CompleteWork.TopHosts(fibers, ts) == a + b;
      assert HoldHostNodes(fibers, b);
    }
  }

  /** The host nodes `commitDeletion` takes out of the host parent, as intended: those of the top host fibers of `s`. */
  ghost function TopHostInstances(fibers: map<FiberId, FiberNode>, s: Tree): seq<InstanceRef>
    requires ShapedTree(fibers, s)
  {
    assert [s][0] == s;
    TopHostsShaped(fibers, [s]);
    InstancesOf(fibers, CompleteWork.TopHosts(fibers, [s]))
  }

  /**
   * `commitDeletion(childToDelete, root)`, recording the top-level host
   * fibers as intended: the unmount callback runs over the deleted subtree
   * `s` in pre-order; then, if there are host nodes to remove and the
   * deleted fiber has a host parent (found along its return chain `chain`),
   * they are removed from it in order; last, the deleted fiber's `return`
   * and `child` are cleared.  A thrown error stops the deletion there.
   */
  method CommitDeletion(store: FiberStore, host: NoopHost, trace: Trace, root: FiberRootNode, fiber: FiberId,
                        ghost s: Tree, ghost chain: seq<FiberId>)
    returns (r: Result<()>)
    requires s.id == fiber && Spans(store.fibers, s, Nowhere) && Parented(store.fibers, s) && Distinct(Visit(s)) && ShapedTree(store.fibers, s)
    requires ReturnChain(store.fibers, store.fibers[fiber].ret, chain) && ShapedAll(store.fibers, chain)
    requires HostParentIn(store.fibers, chain).Some? ==> host.HasChildren(HostParentIn(store.fibers, chain).value)
    modifies store`fibers, host`instances, host`containers, trace`events, root`pendingPassiveEffects
    ensures root.pendingPassiveEffects.update == old(root.pendingPassiveEffects.update)
    ensures var plan := UnmountPlan(old(store.fibers), Unmounted(old(trace.events), old(root.pendingPassiveEffects.unmount)), Visit(s));
            (plan.Err? ==> r == Err(plan.message) && store.fibers == old(store.fibers) &&
                           host.instances == old(host.instances) && host.containers == old(host.containers)) &&
            (plan.Ok? ==> trace.events == plan.value.events && root.pendingPassiveEffects.unmount == plan.value.unmount)
    ensures var plan := UnmountPlan(old(store.fibers), Unmounted(old(trace.events), old(root.pendingPassiveEffects.unmount)), Visit(s));
            var xs, parent := TopHostInstances(old(store.fibers), s), HostParentIn(old(store.fibers), chain);
            plan.Ok? && (xs == [] || parent.None?) ==>
              r.Ok? && host.instances == old(host.instances) && host.containers == old(host.containers)
    ensures var plan := UnmountPlan(old(store.fibers), Unmounted(old(trace.events), old(root.pendingPassiveEffects.unmount)), Visit(s));
            var xs, parent := TopHostInstances(old(store.fibers), s), HostParentIn(old(store.fibers), chain);
            plan.Ok? && xs != [] && parent.Some? ==>
              var removal := RemoveEach(old(host.ChildrenOf(parent.value)), xs);
              (r.Ok? <==> removal.Ok?) && (r.Err? ==> r.message == removal.message) &&
              (removal.Ok? ==> host.HasChildren(parent.value) && host.ChildrenOf(parent.value) == removal.value &&
                               host.OnlyChildrenOf(parent.value, old(host.instances), old(host.containers)))
    ensures r.Ok? ==> store.fibers == old(store.fibers)[fiber := old(store.fibers[fiber]).(ret := None, child := None)]
    ensures r.Err? ==> store.fibers == old(store.fibers)
  {
    r := CommitNestedComponent(store, trace, root, fiber, s);
    if r.Err? {
      return;
    }
    var records := CollectHostChildrenToDelete(store, fiber, s);
    if |records| > 0 {
      var parent := GetHostParent(store, fiber, chain);
      if parent.Some? {
        r := RemoveHostChildren(host, parent.value, InstancesOf(store.fibers, records));
        if r.Err? {
          return;
        }
      }
    }
    store.fibers := store.fibers[fiber := store.fibers[fiber].(ret := None, child := None)];
  }
}
