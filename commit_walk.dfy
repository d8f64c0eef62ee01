/**
 * `commitEffects(phrase, mask, callback)`: the walk both commit passes
 * share.  From `finishedWork` it goes down through `child` while the
 * fiber's `subtreeFlags` meet the mask, and otherwise runs the callback on
 * the fiber and goes across to its `sibling` or, having none, up through
 * `return`, running the callback on each fiber it climbs to.  The fibers
 * the callback runs on are therefore a post-order walk of the finished tree
 * cut below every fiber whose subtree holds no flag of the mask.
 */
module CommitWalk {
  import opened Wrappers
  import opened WorkTags
  import opened FiberFlags
  import opened HostTypes
  import opened Fiber
  import opened FiberTree
  import opened HostConfig
  import opened ChildFibers
  import opened CommitWork
  import opened CommitEffects
  import CompleteWork

  // ---------------------------------------------------------------------
  // The phases

  /** The two passes: 'mutation', then 'layout'. */
  datatype Phase = Mutation | Layout

  /** The mask a pass goes down by: `MutationMask | PassiveMask` for mutation, `MutationMask | LayoutMask` for layout. */
  function MaskOf(phase: Phase): Flags
  {
    match phase
    case Mutation => MutationMask | PassiveMask
    case Layout => MutationMask | LayoutMask
  }

  /** The flags the layout callback clears: `Ref`, on a HostComponent only. */
  function LayoutHandled(tag: WorkTag): Flags
  {
    if tag == HostComponent then FiberFlags.Ref else NoFlags
  }

  /** The flags the pass's callback clears on a fiber of kind `tag`. */
  function Handled(phase: Phase, tag: WorkTag): Flags
  {
    match phase
    case Mutation => MutationHandled(tag)
    case Layout => LayoutHandled(tag)
  }

  /** The flags of `f` once the pass's callback has run on it. */
  function Cleared(phase: Phase, f: FiberNode): Flags
  {
    f.flags & !Handled(phase, f.tag)
  }

  // ---------------------------------------------------------------------
  // The layout callback

  /** Attaching the ref of `f` does not throw: `f` is no HostComponent flagged `Ref`, or its ref is null, a function or an object. */
  predicate AttachOk(f: FiberNode)
  {
    !(f.tag == HostComponent && HasFlag(f.flags, FiberFlags.Ref)) || RefWrite(f.ref, f.stateNode).Ok?
  }

  /**
   * `commitLayoutEffectsOnFiber(finishedWork, root)`: a HostComponent
   * flagged `Ref` attaches its ref and drops the flag; nothing else happens.
   */
  method CommitLayoutEffectsOnFiber(store: FiberStore, trace: Trace, fiber: FiberId) returns (r: Result<()>)
    requires fiber in store.fibers
    modifies store`fibers, trace`events
    ensures r.Ok? <==> AttachOk(old(store.fibers[fiber]))
    ensures r.Ok? ==> store.fibers == SetFlags(old(store.fibers), fiber, Cleared(Layout, old(store.fibers[fiber])))
    ensures r.Ok? ==> trace.events == old(trace.events) + AttachCalls(old(store.fibers[fiber]))
  {
    ghost var g := store.fibers;
    var flags := store.fibers[fiber].flags;
    var tag := store.fibers[fiber].tag;
    LayoutOutcome(g[fiber]);
    if tag == HostComponent && flags & FiberFlags.Ref != NoFlags {
      r := SafelyAttachRef(trace, store.fibers[fiber]);
      if r.Err? {
        return;
      }
      ClearFlag(store, fiber, FiberFlags.Ref, g, flags);
    } else {
      r := Ok(());
    }
  }

  /** What the layout callback does to `f`, by whether it attaches a ref. */
  lemma LayoutOutcome(f: FiberNode)
    ensures f.tag == HostComponent && f.flags & FiberFlags.Ref != NoFlags ==>
              Cleared(Layout, f) == f.flags & !FiberFlags.Ref && (AttachOk(f) <==> RefWrite(f.ref, f.stateNode).Ok?) &&
              (AttachOk(f) ==> AttachCalls(f) == RefWrite(f.ref, f.stateNode).value)
    ensures !(f.tag == HostComponent && f.flags & FiberFlags.Ref != NoFlags) ==>
              Cleared(Layout, f) == f.flags && AttachOk(f) && AttachCalls(f) == []
  {
    if !(f.tag == HostComponent && f.flags & FiberFlags.Ref != NoFlags) {
      KeepsUnset(f.flags, LayoutHandled(f.tag));
    }
  }

  /** Clearing flags that are not set changes nothing. */
  lemma KeepsUnset(flags: Flags, m: Flags)
    requires flags & m == NoFlags
    ensures flags & !m == flags
  {
  }

  // ---------------------------------------------------------------------
  // What a walk has done

  /** The tree a pass walks over `t`: cut below each fiber whose `subtreeFlags` miss the pass's mask. */
  ghost function WalkTree(phase: Phase, fibers: map<FiberId, FiberNode>, t: Tree): Tree
  {
    Cropped(fibers, t, Unflagged(MaskOf(phase)))
  }

  /** The fibers the pass runs its callback on, in order. */
  ghost function Walked(phase: Phase, fibers: map<FiberId, FiberNode>, t: Tree): seq<FiberId>
  {
    PostVisit(WalkTree(phase, fibers, t))
  }

  /** `y` is a deletion listed by one of the fibers `done`. */
  ghost predicate Deletes(fibers: map<FiberId, FiberNode>, done: seq<FiberId>, y: FiberId)
  {
    exists x | x in done && x in fibers :: y in Listed(fibers[x])
  }

  /**
   * The fibers once the pass ran its callback on `done`: those fibers have
   * their handled flags cleared and, in the mutation pass, the fibers they
   * delete are cut loose.
   */
  ghost function Committed(phase: Phase, fibers: map<FiberId, FiberNode>, done: seq<FiberId>): map<FiberId, FiberNode>
  {
    map y | y in fibers :: CommittedFiber(phase, fibers, done, y)
  }

  ghost function CommittedFiber(phase: Phase, fibers: map<FiberId, FiberNode>, done: seq<FiberId>, y: FiberId): FiberNode
    requires y in fibers
  {
    var f := if phase == Mutation && Deletes(fibers, done, y) then fibers[y].(ret := None, child := None) else fibers[y];
    if y in done then f.(flags := Cleared(phase, fibers[y])) else f
  }

  /** The calls the pass's callback makes outside the host on `x`. */
  ghost function StepEvents(phase: Phase, fibers: map<FiberId, FiberNode>, t: Tree, dels: map<FiberId, Deletion>, x: FiberId): seq<Event>
  {
    match phase
    case Mutation => MutationEvents(fibers, t, dels, x)
    case Layout => if x in fibers then AttachCalls(fibers[x]) else []
  }

  /** The calls of the callback on the fibers `done`, in order. */
  ghost function WalkEvents(phase: Phase, fibers: map<FiberId, FiberNode>, t: Tree, dels: map<FiberId, Deletion>, done: seq<FiberId>): seq<Event>
    decreases |done|
  {
    if done == [] then []
    else
      var n := |done| - 1;
      WalkEvents(phase, fibers, t, dels, done[..n]) + StepEvents(phase, fibers, t, dels, done[n])
  }

  /** The effect lists queued to run as 'unmount' by the callback on `done`. */
  ghost function WalkUnmounts(phase: Phase, fibers: map<FiberId, FiberNode>, dels: map<FiberId, Deletion>, done: seq<FiberId>): seq<Option<EffectId>>
    decreases |done|
  {
    if done == [] then []
    else
      var n := |done| - 1;
      WalkUnmounts(phase, fibers, dels, done[..n]) +
      (if phase == Mutation && done[n] in fibers then UnmountsOf(fibers, dels, Listed(fibers[done[n]])) else [])
  }

  /** The effect lists queued to run as 'update' by the callback on `done`. */
  ghost function WalkUpdates(phase: Phase, fibers: map<FiberId, FiberNode>, done: seq<FiberId>): seq<Option<EffectId>>
    decreases |done|
  {
    if done == [] then []
    else
      var n := |done| - 1;
      WalkUpdates(phase, fibers, done[..n]) + (if phase == Mutation && done[n] in fibers then UpdateQueued(fibers[done[n]]) else [])
  }

  /**
   * What a pass needs of the finished tree `t`: it is the whole tree and,
   * for the mutation pass, the host knows its instances, each fiber's
   * deletions are ready and each fiber to place has a host parent with
   * children.
   */
  ghost predicate WalkReady(phase: Phase, fibers: map<FiberId, FiberNode>, instances: map<InstanceRef, HostInstance>,
                            containers: map<ContainerRef, Container>, t: Tree, dels: map<FiberId, Deletion>)
  {
    WholeTree(fibers, t) &&
    (phase == Mutation ==>
       CompleteWork.HostNodesIn(fibers, instances) && Apart(dels) &&
       (forall x | x in Visit(t) :: x in fibers && DeletionsReady(fibers, instances, containers, t, dels, x, Listed(fibers[x]))) &&
       (forall p | ValidPath(t, p) :: PlacementReady(fibers, instances, containers, t, p)))
  }

  /** What the commit passes change: the fibers, the calls made, the queued passive effects and the host. */
  datatype CommitState = CommitState(fibers: map<FiberId, FiberNode>, events: seq<Event>, pending: PendingPassiveEffects,
                                     instances: map<InstanceRef, HostInstance>, containers: map<ContainerRef, Container>)

  ghost function StateOf(store: FiberStore, host: NoopHost, trace: Trace, root: FiberRootNode): CommitState
    reads store, host, trace, root
  {
    CommitState(store.fibers, trace.events, root.pendingPassiveEffects, host.instances, host.containers)
  }

  /** The state `now` once the pass, started from `s0`, ran its callback on `done`. */
  ghost predicate WalkedTo(phase: Phase, s0: CommitState, t: Tree, dels: map<FiberId, Deletion>, done: seq<FiberId>, now: CommitState)
  {
    now.fibers == Committed(phase, s0.fibers, done) &&
    now.events == s0.events + WalkEvents(phase, s0.fibers, t, dels, done) &&
    now.pending == PendingPassiveEffects(s0.pending.unmount + WalkUnmounts(phase, s0.fibers, dels, done),
                                         s0.pending.update + WalkUpdates(phase, s0.fibers, done)) &&
    SameHostShape(s0.instances, s0.containers, now.instances, now.containers)
  }

  ghost predicate WalkedThrough(phase: Phase, store: FiberStore, host: NoopHost, trace: Trace, root: FiberRootNode,
                                s0: CommitState, t: Tree, dels: map<FiberId, Deletion>, done: seq<FiberId>)
    reads store, host, trace, root
  {
    WalkedTo(phase, s0, t, dels, done, StateOf(store, host, trace, root))
  }

  // ---------------------------------------------------------------------
  // The committed fibers

  /** Committing changes no fiber's kind, instance, props or subtree flags, and drops none. */
  lemma CommittedShape(phase: Phase, fibers: map<FiberId, FiberNode>, done: seq<FiberId>)
    ensures Committed(phase, fibers, done).Keys == fibers.Keys
    ensures forall y | y in fibers :: Committed(phase, fibers, done)[y].stateNode == fibers[y].stateNode
  {
    forall y | y in fibers ensures Committed(phase, fibers, done)[y].stateNode == fibers[y].stateNode {
      var f := if phase == Mutation && Deletes(fibers, done, y) then fibers[y].(ret := None, child := None) else fibers[y];
      assert f.stateNode == fibers[y].stateNode;
      assert Committed(phase, fibers, done)[y] == if y in done then f.(flags := Cleared(phase, fibers[y])) else f;
    }
  }

  /** Away from the deleted fibers, committing changes flags only, and only on the fibers done. */
  lemma CommittedKept(phase: Phase, fibers: map<FiberId, FiberNode>, done: seq<FiberId>, ids: seq<FiberId>)
    requires forall y | y in ids :: !(phase == Mutation && Deletes(fibers, done, y))
    ensures KeptOn(fibers, Committed(phase, fibers, done), ids)
    ensures forall y | y in ids && y in fibers && y !in done :: Committed(phase, fibers, done)[y] == fibers[y]
  {
  }

  /** No fiber of the finished tree is one that a fiber of it deletes. */
  lemma TreeNotDeleted(fibers: map<FiberId, FiberNode>, instances: map<InstanceRef, HostInstance>,
                       containers: map<ContainerRef, Container>, t: Tree, dels: map<FiberId, Deletion>, done: seq<FiberId>)
    requires WalkReady(Mutation, fibers, instances, containers, t, dels) && forall x | x in done :: x in Visit(t)
    ensures forall y | y in Visit(t) :: !Deletes(fibers, done, y)
  {
    forall z | z in done && z in fibers ensures forall y | y in Visit(t) :: y !in Listed(fibers[z]) {
      assert DeletionsReady(fibers, instances, containers, t, dels, z, Listed(fibers[z]));
    }
  }

  /**
   * The subtrees and chains of the deletions of a fiber not yet done hold
   * no fiber already deleted: each deletion has one owner, and lies in no
   * other deleted subtree or chain.
   */
  lemma DeletionsNotDeleted(fibers: map<FiberId, FiberNode>, instances: map<InstanceRef, HostInstance>,
                            containers: map<ContainerRef, Container>, t: Tree, dels: map<FiberId, Deletion>,
                            done: seq<FiberId>, x: FiberId)
    requires WalkReady(Mutation, fibers, instances, containers, t, dels) && forall y | y in done :: y in Visit(t)
    requires x in Visit(t) && x !in done
    ensures x in fibers
    ensures forall j, y | 0 <= j < |Listed(fibers[x])| && y in Visit(dels[Listed(fibers[x])[j]].tree) + dels[Listed(fibers[x])[j]].chain ::
              !Deletes(fibers, done, y)
  {
    var ds := Listed(fibers[x]);
    assert DeletionsReady(fibers, instances, containers, t, dels, x, ds);
    forall j, z, k | 0 <= j < |ds| && z in done && z in fibers && 0 <= k < |Listed(fibers[z])|
      ensures Listed(fibers[z])[k] !in Visit(dels[ds[j]].tree) + dels[ds[j]].chain
    {
      var a, es := ds[j], Listed(fibers[z]);
      assert DeletionsReady(fibers, instances, containers, t, dels, z, es);
      assert dels[es[k]].owner == z != x == dels[a].owner;
    }
  }

  /** A host parent that had children still has them after commits that kept the host's shape. */
  lemma HasChildrenKept(i0: map<InstanceRef, HostInstance>, c0: map<ContainerRef, Container>,
                        i1: map<InstanceRef, HostInstance>, c1: map<ContainerRef, Container>, parent: HostParent)
    requires SameHostShape(i0, c0, i1, c1) && HasChildrenIn(i0, c0, parent)
    ensures HasChildrenIn(i1, c1, parent)
  {
  }

  /** The deletions `ds`: spanned, and kept on their subtrees and chains from `fibers` to `fibers'`. */
  ghost predicate DeletionsKept(fibers: map<FiberId, FiberNode>, fibers': map<FiberId, FiberNode>, dels: map<FiberId, Deletion>, ds: seq<FiberId>)
  {
    forall j | 0 <= j < |ds| ::
      ds[j] in dels && Spans(fibers, dels[ds[j]].tree, Nowhere) && KeptOn(fibers, fibers', Visit(dels[ds[j]].tree) + dels[ds[j]].chain)
  }

  /**
   * At a fiber `x` of the tree the walk has not reached yet, the fibers done
   * changed flags only, on the tree and on the deletions `x` lists: the
   * fibers they deleted lie outside the tree and outside the other deletions.
   */
  lemma AfterFacts(fibers: map<FiberId, FiberNode>, i0: map<InstanceRef, HostInstance>, c0: map<ContainerRef, Container>,
                   t: Tree, dels: map<FiberId, Deletion>, done: seq<FiberId>, x: FiberId)
    requires WalkReady(Mutation, fibers, i0, c0, t, dels) && forall y | y in done :: y in Visit(t)
    requires x in Visit(t) && x !in done
    ensures var g := Committed(Mutation, fibers, done);
            x in fibers && g.Keys == fibers.Keys && g[x] == fibers[x] && KeptOn(fibers, g, Visit(t)) &&
            (forall y | y in fibers :: g[y].stateNode == fibers[y].stateNode) &&
            DeletionsReady(fibers, i0, c0, t, dels, x, Listed(fibers[x])) && DeletionsKept(fibers, g, dels, Listed(fibers[x]))
  {
    var g := Committed(Mutation, fibers, done);
    CommittedShape(Mutation, fibers, done);
    TreeNotDeleted(fibers, i0, c0, t, dels, done);
    CommittedKept(Mutation, fibers, done, Visit(t));
    var ds := Listed(fibers[x]);
    DeletionsNotDeleted(fibers, i0, c0, t, dels, done, x);
    assert DeletionsReady(fibers, i0, c0, t, dels, x, ds);
    forall j | 0 <= j < |ds|
      ensures ds[j] in dels && Spans(fibers, dels[ds[j]].tree, Nowhere) && KeptOn(fibers, g, Visit(dels[ds[j]].tree) + dels[ds[j]].chain)
    {
      CommittedKept(Mutation, fibers, done, Visit(dels[ds[j]].tree) + dels[ds[j]].chain);
    }
  }

  /**
   * The mutation callback is ready at a fiber the walk has not reached:
   * the fibers changed flags only where it looks, and the host kept its
   * shape.
   */
  lemma ReadyAfter(fibers: map<FiberId, FiberNode>, g: map<FiberId, FiberNode>,
                   i0: map<InstanceRef, HostInstance>, c0: map<ContainerRef, Container>,
                   i1: map<InstanceRef, HostInstance>, c1: map<ContainerRef, Container>,
                   t: Tree, p: seq<nat>, dels: map<FiberId, Deletion>)
    requires WholeTree(fibers, t) && ValidPath(t, p) && CompleteWork.HostNodesIn(fibers, i0) && Apart(dels)
    requires SameHostShape(i0, c0, i1, c1) && PlacementReady(fibers, i0, c0, t, p)
    requires g.Keys == fibers.Keys && KeptOn(fibers, g, Visit(t)) && forall y | y in fibers :: g[y].stateNode == fibers[y].stateNode
    requires Sub(t, p).id in fibers && g[Sub(t, p).id] == fibers[Sub(t, p).id]
    requires DeletionsReady(fibers, i0, c0, t, dels, Sub(t, p).id, Listed(fibers[Sub(t, p).id]))
    requires DeletionsKept(fibers, g, dels, Listed(fibers[Sub(t, p).id]))
    ensures MutationReady(g, i1, c1, t, p, dels)
  {
    var x := Sub(t, p).id;
    HostParentAtKept(fibers, g, t, p);
    if HasFlag(g[x].flags, Placement) && HostParentAt(g, t, p).Some? {
      HasChildrenKept(i0, c0, i1, c1, HostParentAt(g, t, p).value);
    }
    assert PlacementReady(g, i1, c1, t, p);
    var ds := Listed(fibers[x]);
    forall j | 0 <= j < |ds| ensures DeletionReady(g, i1, c1, dels[ds[j]]) {
      DeletionReadyKept(fibers, g, i0, c0, i1, c1, dels[ds[j]]);
    }
  }

  /** The deleted fibers of `done` and then of `x`. */
  lemma DeletesSnoc(fibers: map<FiberId, FiberNode>, done: seq<FiberId>, x: FiberId, y: FiberId)
    ensures Deletes(fibers, done + [x], y) <==> Deletes(fibers, done, y) || (x in fibers && y in Listed(fibers[x]))
  {
    if Deletes(fibers, done + [x], y) {
      var z :| z in done + [x] && z in fibers && y in Listed(fibers[z]);
      if z != x {
        assert z in done;
      }
    }
    if Deletes(fibers, done, y) {
      var z :| z in done && z in fibers && y in Listed(fibers[z]);
      assert z in done + [x];
    }
    if x in fibers && y in Listed(fibers[x]) {
      assert x in done + [x];
    }
  }

  /** The mutation callback on `x` takes the fibers committed on `done` to those committed on `done + [x]`. */
  lemma MutatedSnoc(fibers: map<FiberId, FiberNode>, i0: map<InstanceRef, HostInstance>, c0: map<ContainerRef, Container>,
                    t: Tree, dels: map<FiberId, Deletion>, done: seq<FiberId>, x: FiberId)
    requires WalkReady(Mutation, fibers, i0, c0, t, dels) && forall y | y in done :: y in Visit(t)
    requires x in Visit(t) && x !in done
    ensures MutatedFibers(Committed(Mutation, fibers, done), x) == Committed(Mutation, fibers, done + [x])
  {
    SpansIn(fibers, t);
    TreeNotDeleted(fibers, i0, c0, t, dels, done + [x]);
    CommittedSnoc(fibers, done, x);
  }

  /** The same, for a fiber not yet done that neither it nor the fibers done delete. */
  lemma CommittedSnoc(fibers: map<FiberId, FiberNode>, done: seq<FiberId>, x: FiberId)
    requires x in fibers && x !in done && !Deletes(fibers, done + [x], x)
    ensures MutatedFibers(Committed(Mutation, fibers, done), x) == Committed(Mutation, fibers, done + [x])
  {
    var m := MutatedFibers(Committed(Mutation, fibers, done), x);
    var n := Committed(Mutation, fibers, done + [x]);
    SnocKeys(fibers, done, x);
    SnocSelf(fibers, done, x);
    forall y | y in fibers && y != x ensures m[y] == n[y] {
      SnocOther(fibers, done, x, y);
    }
  }

  lemma SnocKeys(fibers: map<FiberId, FiberNode>, done: seq<FiberId>, x: FiberId)
    requires x in fibers
    ensures MutatedFibers(Committed(Mutation, fibers, done), x).Keys == fibers.Keys
    ensures Committed(Mutation, fibers, done + [x]).Keys == fibers.Keys
  {
    CommittedShape(Mutation, fibers, done);
    CommittedShape(Mutation, fibers, done + [x]);
  }

  lemma SnocSelf(fibers: map<FiberId, FiberNode>, done: seq<FiberId>, x: FiberId)
    requires x in fibers && x !in done && !Deletes(fibers, done + [x], x)
    ensures x in MutatedFibers(Committed(Mutation, fibers, done), x)
    ensures MutatedFibers(Committed(Mutation, fibers, done), x)[x] == Committed(Mutation, fibers, done + [x])[x]
  {
    var g := Committed(Mutation, fibers, done);
    DeletesSnoc(fibers, done, x, x);
    assert g[x] == fibers[x];
    assert CutLoose(g, Listed(fibers[x]))[x] == fibers[x];
    assert x in done + [x];
  }

  lemma SnocOther(fibers: map<FiberId, FiberNode>, done: seq<FiberId>, x: FiberId, y: FiberId)
    requires x in fibers && x !in done && y in fibers && y != x
    ensures y in MutatedFibers(Committed(Mutation, fibers, done), x)
    ensures MutatedFibers(Committed(Mutation, fibers, done), x)[y] == Committed(Mutation, fibers, done + [x])[y]
  {
    var g := Committed(Mutation, fibers, done);
    var c := CommittedFiber(Mutation, fibers, done, y);
    assert MutatedFibers(g, x)[y] == CutLoose(g, Listed(g[x]))[y];
    assert Listed(g[x]) == Listed(fibers[x]);
    DeletesSnoc(fibers, done, x, y);
    assert (y in done + [x]) == (y in done);
  }

  /**
   * What the mutation callback does on `x` outside the fibers depends on
   * no flags but those of `x`: the calls and the unmounts are the same on
   * fibers that differ from `fibers` by flags only on the tree and on the
   * deletions, and not at all on `x`.
   */
  lemma MutationEventsKept(fibers: map<FiberId, FiberNode>, g: map<FiberId, FiberNode>, t: Tree, p: seq<nat>, dels: map<FiberId, Deletion>)
    requires WholeTree(fibers, t) && ValidPath(t, p) && KeptOn(fibers, g, Visit(t))
    requires Sub(t, p).id in fibers && Sub(t, p).id in g && g[Sub(t, p).id] == fibers[Sub(t, p).id]
    requires DeletionsKept(fibers, g, dels, Listed(fibers[Sub(t, p).id]))
    ensures MutationEvents(g, t, dels, Sub(t, p).id) == MutationEvents(fibers, t, dels, Sub(t, p).id)
    ensures UnmountsOf(g, dels, Listed(g[Sub(t, p).id])) == UnmountsOf(fibers, dels, Listed(fibers[Sub(t, p).id]))
  {
    var x := Sub(t, p).id;
    DetachesOfKept(fibers, g, dels, Listed(fibers[x]));
    SetFlagsSame(g, x);
    HideShape(fibers, g, g, t, p, g[x].flags);
    FindSub(t, p);
  }

  /** The folds over `done + [x]` are those over `done` followed by the step on `x`. */
  lemma WalkSnoc(phase: Phase, fibers: map<FiberId, FiberNode>, t: Tree, dels: map<FiberId, Deletion>, done: seq<FiberId>, x: FiberId)
    ensures WalkEvents(phase, fibers, t, dels, done + [x]) == WalkEvents(phase, fibers, t, dels, done) + StepEvents(phase, fibers, t, dels, x)
    ensures WalkUnmounts(phase, fibers, dels, done + [x]) ==
            WalkUnmounts(phase, fibers, dels, done) + (if phase == Mutation && x in fibers then UnmountsOf(fibers, dels, Listed(fibers[x])) else [])
    ensures WalkUpdates(phase, fibers, done + [x]) ==
            WalkUpdates(phase, fibers, done) + (if phase == Mutation && x in fibers then UpdateQueued(fibers[x]) else [])
  {
    assert (done + [x])[..|done|] == done;
  }

  // ---------------------------------------------------------------------
  // One callback

  /** The mutation callback on the fiber at `p`, one more step of the walk. */
  method MutationStep(store: FiberStore, host: NoopHost, trace: Trace, root: FiberRootNode, fiber: FiberId,
                      ghost t: Tree, ghost p: seq<nat>, ghost dels: map<FiberId, Deletion>, ghost s0: CommitState, ghost done: seq<FiberId>)
    returns (r: Result<()>)
    requires WalkReady(Mutation, s0.fibers, s0.instances, s0.containers, t, dels) && ValidPath(t, p) && Sub(t, p).id == fiber
    requires fiber !in done && forall x | x in done :: x in Visit(t)
    requires WalkedThrough(Mutation, store, host, trace, root, s0, t, dels, done)
    modifies store`fibers, host`instances, host`containers, trace`events, root`pendingPassiveEffects
    ensures r.Ok? ==> WalkedThrough(Mutation, store, host, trace, root, s0, t, dels, done + [fiber])
    ensures r.Ok? ==> MutationReady(old(store.fibers), old(host.instances), old(host.containers), t, p, dels) &&
                      MutatedHost(old(store.fibers), old(host.instances), old(host.containers), t, p, dels) == Ok((host.instances, host.containers))
  {
    ghost var f0, now := s0.fibers, StateOf(store, host, trace, root);
    NodeInVisit(t, p);
    AfterFacts(f0, s0.instances, s0.containers, t, dels, done, fiber);
    ReadyAfter(f0, now.fibers, s0.instances, s0.containers, now.instances, now.containers, t, p, dels);
    r := CommitMutationEffectsOnFiber(store, host, trace, root, fiber, t, p, dels);
    if r.Err? {
      return;
    }
    MutationAdvance(s0, t, p, dels, done, now, StateOf(store, host, trace, root));
  }

  /** The mutation callback on the fiber at `p` takes the walk from `done` to `done + [x]`. */
  lemma MutationAdvance(s0: CommitState, t: Tree, p: seq<nat>, dels: map<FiberId, Deletion>, done: seq<FiberId>,
                        now: CommitState, after: CommitState)
    requires WalkReady(Mutation, s0.fibers, s0.instances, s0.containers, t, dels) && ValidPath(t, p)
    requires Sub(t, p).id !in done && forall y | y in done :: y in Visit(t)
    requires WalkedTo(Mutation, s0, t, dels, done, now) && Sub(t, p).id in now.fibers
    requires after.fibers == MutatedFibers(now.fibers, Sub(t, p).id)
    requires after.events == now.events + MutationEvents(now.fibers, t, dels, Sub(t, p).id)
    requires after.pending == PendingPassiveEffects(now.pending.unmount + UnmountsOf(now.fibers, dels, Listed(now.fibers[Sub(t, p).id])),
                                                    now.pending.update + UpdateQueued(now.fibers[Sub(t, p).id]))
    requires SameHostShape(now.instances, now.containers, after.instances, after.containers)
    ensures WalkedTo(Mutation, s0, t, dels, done + [Sub(t, p).id], after)
  {
    var f0, x := s0.fibers, Sub(t, p).id;
    NodeInVisit(t, p);
    AfterFacts(f0, s0.instances, s0.containers, t, dels, done, x);
    MutationEventsKept(f0, now.fibers, t, p, dels);
    MutatedSnoc(f0, s0.instances, s0.containers, t, dels, done, x);
    WalkSnoc(Mutation, f0, t, dels, done, x);
    Assoc(s0.events, WalkEvents(Mutation, f0, t, dels, done), MutationEvents(f0, t, dels, x));
    Assoc(s0.pending.unmount, WalkUnmounts(Mutation, f0, dels, done), UnmountsOf(f0, dels, Listed(f0[x])));
    Assoc(s0.pending.update, WalkUpdates(Mutation, f0, done), UpdateQueued(f0[x]));
    SameHostShapeTrans(s0.instances, s0.containers, now.instances, now.containers, after.instances, after.containers);
  }

  /** The layout callback on `fiber`, one more step of the walk. */
  method LayoutStep(store: FiberStore, host: NoopHost, trace: Trace, root: FiberRootNode, fiber: FiberId,
                    ghost t: Tree, ghost dels: map<FiberId, Deletion>, ghost s0: CommitState, ghost done: seq<FiberId>)
    returns (r: Result<()>)
    requires WalkReady(Layout, s0.fibers, s0.instances, s0.containers, t, dels)
    requires fiber in Visit(t) && fiber !in done
    requires WalkedThrough(Layout, store, host, trace, root, s0, t, dels, done)
    modifies store`fibers, trace`events
    ensures r.Ok? ==> WalkedThrough(Layout, store, host, trace, root, s0, t, dels, done + [fiber])
  {
    ghost var now := StateOf(store, host, trace, root);
    LayoutAdvance(s0, t, dels, done, fiber, now);
    r := CommitLayoutEffectsOnFiber(store, trace, fiber);
    if r.Err? {
      return;
    }
    assert StateOf(store, host, trace, root) ==
           now.(fibers := SetFlags(now.fibers, fiber, Cleared(Layout, s0.fibers[fiber])), events := now.events + AttachCalls(s0.fibers[fiber]));
  }

  /** The layout callback on `x` takes the walk from `done` to `done + [x]`. */
  lemma LayoutAdvance(s0: CommitState, t: Tree, dels: map<FiberId, Deletion>, done: seq<FiberId>, x: FiberId, now: CommitState)
    requires WholeTree(s0.fibers, t) && x in Visit(t) && x !in done && WalkedTo(Layout, s0, t, dels, done, now)
    ensures x in now.fibers && now.fibers[x] == s0.fibers[x]
    ensures WalkedTo(Layout, s0, t, dels, done + [x],
                     now.(fibers := SetFlags(now.fibers, x, Cleared(Layout, s0.fibers[x])), events := now.events + AttachCalls(s0.fibers[x])))
  {
    var f0 := s0.fibers;
    SpansIn(f0, t);
    CommittedShape(Layout, f0, done);
    CommittedKept(Layout, f0, done, Visit(t));
    LayoutSnoc(f0, done, x);
    WalkSnoc(Layout, f0, t, dels, done, x);
    Assoc(s0.events, WalkEvents(Layout, f0, t, dels, done), AttachCalls(f0[x]));
    var n := now.(fibers := SetFlags(now.fibers, x, Cleared(Layout, f0[x])), events := now.events + AttachCalls(f0[x]));
    assert n.instances == now.instances && n.containers == now.containers && n.pending == now.pending;
    assert WalkUnmounts(Layout, f0, dels, done + [x]) == WalkUnmounts(Layout, f0, dels, done);
    assert WalkUpdates(Layout, f0, done + [x]) == WalkUpdates(Layout, f0, done);
  }

  /** The layout callback on `x` takes the fibers committed on `done` to those committed on `done + [x]`. */
  lemma LayoutSnoc(fibers: map<FiberId, FiberNode>, done: seq<FiberId>, x: FiberId)
    requires x in fibers && x !in done
    ensures x in Committed(Layout, fibers, done)
    ensures SetFlags(Committed(Layout, fibers, done), x, Cleared(Layout, fibers[x])) == Committed(Layout, fibers, done + [x])
  {
    var m := SetFlags(Committed(Layout, fibers, done), x, Cleared(Layout, fibers[x]));
    var n := Committed(Layout, fibers, done + [x]);
    assert m.Keys == n.Keys;
  }

  /**
   * `callback(nextEffect, root)` at the path `p` of the walked tree `w`,
   * once the subtrees of its children are done.
   */
  method CallBack(phase: Phase, store: FiberStore, host: NoopHost, trace: Trace, root: FiberRootNode, fiber: FiberId,
                  ghost t: Tree, ghost dels: map<FiberId, Deletion>, ghost s0: CommitState, ghost w: Tree, ghost p: seq<nat>)
    returns (r: Result<()>)
    requires WalkReady(phase, s0.fibers, s0.instances, s0.containers, t, dels) && w == WalkTree(phase, s0.fibers, t)
    requires ValidPath(w, p) && Sub(w, p).id == fiber
    requires WalkedThrough(phase, store, host, trace, root, s0, t, dels, PostBefore(w, p) + PostVisitAll(Sub(w, p).kids))
    modifies store`fibers, host`instances, host`containers, trace`events, root`pendingPassiveEffects
    ensures r.Ok? ==> WalkedThrough(phase, store, host, trace, root, s0, t, dels, PostBefore(w, p) + PostVisit(Sub(w, p)))
  {
    ghost var done := PostBefore(w, p) + PostVisitAll(Sub(w, p).kids);
    Assoc(PostBefore(w, p), PostVisitAll(Sub(w, p).kids), [fiber]);
    WalkDistinct(phase, s0.fibers, t, p);
    DistinctConcat(done, [fiber]);
    CroppedPath(s0.fibers, t, Unflagged(MaskOf(phase)), p);
    if phase == Mutation {
      r := MutationStep(store, host, trace, root, fiber, t, p, dels, s0, done);
    } else {
      r := LayoutStep(store, host, trace, root, fiber, t, dels, s0, done);
    }
  }

  /** What the walk has finished at `p`: distinct fibers of the finished tree. */
  lemma WalkDistinct(phase: Phase, fibers: map<FiberId, FiberNode>, t: Tree, p: seq<nat>)
    requires WholeTree(fibers, t) && ValidPath(WalkTree(phase, fibers, t), p)
    ensures var w := WalkTree(phase, fibers, t);
            Distinct(PostBefore(w, p) + PostVisit(Sub(w, p))) &&
            forall x | x in PostBefore(w, p) + PostVisit(Sub(w, p)) :: x in Visit(t)
  {
    var w := WalkTree(phase, fibers, t);
    CroppedDistinct(fibers, t, Unflagged(MaskOf(phase)));
    PostPrefix(w, p);
  }

  // ---------------------------------------------------------------------
  // Finding the way

  /** The fibers `fibers` describe the walked tree `w` the way the walk stopping at `cut` reads it. */
  ghost predicate Walks(fibers: map<FiberId, FiberNode>, w: Tree, cut: Cut)
  {
    Below(fibers, w, cut) && Parented(fibers, w) && Distinct(Visit(w))
  }

  /**
   * However far the walk has got, the committed fibers still describe the
   * walked tree: committing changes no link the walk follows on it, and the
   * top has no `return` and no `sibling`.
   */
  lemma WalkFrame(phase: Phase, fibers: map<FiberId, FiberNode>, i0: map<InstanceRef, HostInstance>, c0: map<ContainerRef, Container>,
                  t: Tree, dels: map<FiberId, Deletion>, done: seq<FiberId>)
    requires WalkReady(phase, fibers, i0, c0, t, dels) && forall y | y in done :: y in Visit(t)
    ensures var g, w := Committed(phase, fibers, done), WalkTree(phase, fibers, t);
            Walks(g, w, Unflagged(MaskOf(phase))) && w.id == t.id && (forall y | y in Visit(w) :: y in g) &&
            g[w.id].ret.None? && g[w.id].sibling.None?
  {
    var g, w, cut := Committed(phase, fibers, done), WalkTree(phase, fibers, t), Unflagged(MaskOf(phase));
    SpansIn(fibers, t);
    CommittedShape(phase, fibers, done);
    if phase == Mutation {
      TreeNotDeleted(fibers, i0, c0, t, dels, done);
    }
    CommittedKept(phase, fibers, done, Visit(t));
    CroppedBelow(fibers, t, cut);
    CroppedDistinct(fibers, t, cut);
    assert KeptOn(fibers, g, Visit(w));
    BelowKept(fibers, g, w, cut);
    ParentedKept(fibers, g, w);
    assert Visit(t)[0] == t.id;
  }

  /** A fiber below the top of the walked tree, or a top the walk goes into, spans its children. */
  lemma WalkSpans(fibers: map<FiberId, FiberNode>, w: Tree, cut: Cut, p: seq<nat>)
    requires Walks(fibers, w, cut) && ValidPath(w, p)
    requires p != [] || !Stops(cut, fibers[w.id])
    ensures Spans(fibers, w, cut)
  {
    if p != [] {
      assert w.kids != [];
    }
  }

  /** Down: the walk goes into the fiber at `p` and comes to its first child. */
  lemma GoDown(fibers: map<FiberId, FiberNode>, w: Tree, cut: Cut, p: seq<nat>)
    requires Walks(fibers, w, cut) && ValidPath(w, p) && Sub(w, p).id in fibers
    requires !Stops(cut, fibers[Sub(w, p).id]) && fibers[Sub(w, p).id].child.Some?
    ensures ValidPath(w, p + [0]) && fibers[Sub(w, p).id].child == Some(Sub(w, p + [0]).id)
    ensures PostBefore(w, p + [0]) == PostBefore(w, p) && |Before(w, p + [0])| == |Before(w, p)| + 1
  {
    WalkSpans(fibers, w, cut, p);
    StepDown(fibers, w, cut, p);
  }

  /** A fiber the walk does not go into, or one with no child, is a leaf of the walked tree. */
  lemma AtLeaf(fibers: map<FiberId, FiberNode>, w: Tree, cut: Cut, p: seq<nat>)
    requires Walks(fibers, w, cut) && ValidPath(w, p) && Sub(w, p).id in fibers
    requires Stops(cut, fibers[Sub(w, p).id]) || fibers[Sub(w, p).id].child.None?
    ensures Sub(w, p).kids == []
  {
    if p == [] {
      if !Stops(cut, fibers[w.id]) {
        ChildOf(fibers, w, cut);
      }
    } else {
      WalkSpans(fibers, w, cut, p);
      LeafVisit(fibers, w, cut, p);
    }
  }

  /** Across: from a finished fiber with a sibling to that sibling, which comes right after the finished subtree. */
  lemma GoAcross(fibers: map<FiberId, FiberNode>, w: Tree, cut: Cut, p: seq<nat>)
    requires Walks(fibers, w, cut) && ValidPath(w, p) && p != [] && Sub(w, p).id in fibers
    requires fibers[Sub(w, p).id].sibling.Some?
    ensures var p' := p[..|p| - 1] + [p[|p| - 1] + 1];
            ValidPath(w, p') && fibers[Sub(w, p).id].sibling == Some(Sub(w, p').id) &&
            PostBefore(w, p') == PostBefore(w, p) + PostVisit(Sub(w, p)) && |Before(w, p')| == End(w, p)
  {
    var q, i := p[..|p| - 1], p[|p| - 1];
    assert p == q + [i];
    WalkSpans(fibers, w, cut, p);
    StepOut(fibers, w, cut, q, i);
    StepAcross(fibers, w, q, i);
  }

  /** Up: from a finished fiber with no sibling to its parent, whose children are then all finished. */
  lemma GoUp(fibers: map<FiberId, FiberNode>, w: Tree, cut: Cut, p: seq<nat>)
    requires Walks(fibers, w, cut) && ValidPath(w, p) && p != [] && Sub(w, p).id in fibers
    requires fibers[Sub(w, p).id].sibling.None?
    ensures var q := p[..|p| - 1];
            ValidPath(w, q) && fibers[Sub(w, p).id].ret == Some(Sub(w, q).id) && End(w, q) == End(w, p) &&
            PostBefore(w, q) + PostVisitAll(Sub(w, q).kids) == PostBefore(w, p) + PostVisit(Sub(w, p))
  {
    var q, i := p[..|p| - 1], p[|p| - 1];
    assert p == q + [i];
    WalkSpans(fibers, w, cut, p);
    StepOut(fibers, w, cut, q, i);
    StepUp(w, q, i);
  }

  /** Before the first callback the fibers are those the pass started from. */
  lemma CommittedNone(phase: Phase, fibers: map<FiberId, FiberNode>)
    ensures Committed(phase, fibers, []) == fibers
  {
    forall y | y in fibers ensures CommittedFiber(phase, fibers, [], y) == fibers[y] {
      assert !Deletes(fibers, [], y);
    }
  }

  /**
   * The walk at the fiber at `p`, with the fibers before it done: the fiber
   * is in the arena and, by its `subtreeFlags` and `child`, the walk goes
   * down to its first child or it is a leaf of the walked tree.
   */
  lemma DescendStep(phase: Phase, fibers: map<FiberId, FiberNode>, i0: map<InstanceRef, HostInstance>, c0: map<ContainerRef, Container>,
                    t: Tree, dels: map<FiberId, Deletion>, w: Tree, p: seq<nat>, g: map<FiberId, FiberNode>)
    requires WalkReady(phase, fibers, i0, c0, t, dels) && w == WalkTree(phase, fibers, t) && ValidPath(w, p)
    requires g == Committed(phase, fibers, PostBefore(w, p))
    ensures Sub(w, p).id in g && |Before(w, p)| < |Visit(w)|
    ensures g[Sub(w, p).id].subtreeFlags & MaskOf(phase) != NoFlags && g[Sub(w, p).id].child.Some? ==>
              ValidPath(w, p + [0]) && g[Sub(w, p).id].child == Some(Sub(w, p + [0]).id) && PostBefore(w, p + [0]) == PostBefore(w, p) &&
              |Before(w, p)| < |Before(w, p + [0])| < |Visit(w)|
    ensures !(g[Sub(w, p).id].subtreeFlags & MaskOf(phase) != NoFlags && g[Sub(w, p).id].child.Some?) ==> Sub(w, p).kids == []
  {
    var cut := Unflagged(MaskOf(phase));
    WalkDistinct(phase, fibers, t, p);
    forall y | y in PostBefore(w, p) ensures y in Visit(t) {
      assert y in PostBefore(w, p) + PostVisit(Sub(w, p));
    }
    WalkFrame(phase, fibers, i0, c0, t, dels, PostBefore(w, p));
    NodeInVisit(w, p);
    if g[Sub(w, p).id].subtreeFlags & MaskOf(phase) != NoFlags && g[Sub(w, p).id].child.Some? {
      GoDown(g, w, cut, p);
      NodeInVisit(w, p + [0]);
    } else {
      AtLeaf(g, w, cut, p);
    }
  }

  /**
   * The walk once the callback ran on the fiber at `p`: it goes across to
   * the sibling, which comes next, or up to the parent, whose children are
   * then done, or, at the top, it is through.
   */
  lemma ClimbStep(phase: Phase, fibers: map<FiberId, FiberNode>, i0: map<InstanceRef, HostInstance>, c0: map<ContainerRef, Container>,
                  t: Tree, dels: map<FiberId, Deletion>, w: Tree, p: seq<nat>, g: map<FiberId, FiberNode>)
    requires WalkReady(phase, fibers, i0, c0, t, dels) && w == WalkTree(phase, fibers, t) && ValidPath(w, p)
    requires g == Committed(phase, fibers, PostBefore(w, p) + PostVisit(Sub(w, p)))
    ensures Sub(w, p).id in g
    ensures g[Sub(w, p).id].sibling.Some? ==>
              p != [] &&
              var p' := p[..|p| - 1] + [p[|p| - 1] + 1];
              ValidPath(w, p') && g[Sub(w, p).id].sibling == Some(Sub(w, p').id) &&
              PostBefore(w, p') == PostBefore(w, p) + PostVisit(Sub(w, p)) && |Before(w, p')| == End(w, p) && End(w, p) < |Visit(w)|
    ensures g[Sub(w, p).id].sibling.None? && p != [] ==>
              var q := p[..|p| - 1];
              ValidPath(w, q) && g[Sub(w, p).id].ret == Some(Sub(w, q).id) && End(w, q) == End(w, p) &&
              PostBefore(w, q) + PostVisitAll(Sub(w, q).kids) == PostBefore(w, p) + PostVisit(Sub(w, p))
    ensures p == [] ==> g[Sub(w, p).id].ret.None? && g[Sub(w, p).id].sibling.None? && PostBefore(w, p) + PostVisit(Sub(w, p)) == PostVisit(w)
  {
    var cut := Unflagged(MaskOf(phase));
    WalkDistinct(phase, fibers, t, p);
    WalkFrame(phase, fibers, i0, c0, t, dels, PostBefore(w, p) + PostVisit(Sub(w, p)));
    NodeInVisit(w, p);
    if g[Sub(w, p).id].sibling.Some? {
      assert p != [];
      GoAcross(g, w, cut, p);
      NodeInVisit(w, p[..|p| - 1] + [p[|p| - 1] + 1]);
    } else if p != [] {
      GoUp(g, w, cut, p);
    }
  }

  // ---------------------------------------------------------------------
  // The walk

  /**
   * The `up:` loop: from the leaf at `p0` of the walked tree, run the
   * callback and go across to the sibling or, having none, up to the
   * parent and run the callback there; stop at a sibling (returned in
   * `next`, at `p`) or above the top (`next` is none).
   */
  method ClimbUp(phase: Phase, store: FiberStore, host: NoopHost, trace: Trace, root: FiberRootNode, node: FiberId,
                 ghost t: Tree, ghost dels: map<FiberId, Deletion>, ghost s0: CommitState, ghost w: Tree, ghost p0: seq<nat>)
    returns (r: Result<()>, next: Option<FiberId>, ghost p: seq<nat>)
    requires WalkReady(phase, s0.fibers, s0.instances, s0.containers, t, dels) && w == WalkTree(phase, s0.fibers, t)
    requires ValidPath(w, p0) && Sub(w, p0).id == node && Sub(w, p0).kids == []
    requires WalkedThrough(phase, store, host, trace, root, s0, t, dels, PostBefore(w, p0))
    modifies store`fibers, host`instances, host`containers, trace`events, root`pendingPassiveEffects
    ensures r.Ok? && next.Some? ==>
              ValidPath(w, p) && next.value == Sub(w, p).id && |Before(w, p0)| < |Before(w, p)| < |Visit(w)| &&
              WalkedThrough(phase, store, host, trace, root, s0, t, dels, PostBefore(w, p))
    ensures r.Ok? && next.None? ==> WalkedThrough(phase, store, host, trace, root, s0, t, dels, PostVisit(w))
  {
    ghost var end := End(w, p0);
    assert PostBefore(w, p0) + PostVisitAll(Sub(w, p0).kids) == PostBefore(w, p0);
    var nextEffect: Option<FiberId> := Some(node);
    p := p0;
    r, next := Ok(()), None;
    while nextEffect.Some?
      invariant r.Ok?
      invariant nextEffect.Some? ==>
                  ValidPath(w, p) && nextEffect.value == Sub(w, p).id && End(w, p) == end &&
                  WalkedThrough(phase, store, host, trace, root, s0, t, dels, PostBefore(w, p) + PostVisitAll(Sub(w, p).kids))
      invariant nextEffect.None? ==> WalkedThrough(phase, store, host, trace, root, s0, t, dels, PostVisit(w))
      decreases if nextEffect.Some? then |p| + 1 else 0
    {
      var fiber := nextEffect.value;
      r := CallBack(phase, store, host, trace, root, fiber, t, dels, s0, w, p);
      if r.Err? {
        return;
      }
      ClimbStep(phase, s0.fibers, s0.instances, s0.containers, t, dels, w, p, store.fibers);
      var sibling := store.fibers[fiber].sibling;
      if sibling.Some? {
        next := sibling;
        p := p[..|p| - 1] + [p[|p| - 1] + 1];
        return;
      }
      nextEffect := store.fibers[fiber].ret;
      if p != [] {
        p := p[..|p| - 1];
      }
    }
  }

  /**
   * `commitEffects(phrase, mask, callback)(finishedWork, root)`: the walk
   * runs the pass's callback on each fiber of the walked tree in post-order;
   * once it is through, the fibers, the calls, the queued passive effects
   * and the host are those of the callback run on `Walked(phase, fibers, t)`
   * in turn.  A callback that throws ends the walk.
   */
  method CommitPass(phase: Phase, store: FiberStore, host: NoopHost, trace: Trace, root: FiberRootNode, finishedWork: FiberId,
                    ghost t: Tree, ghost dels: map<FiberId, Deletion>)
    returns (r: Result<()>)
    requires t.id == finishedWork && WalkReady(phase, store.fibers, host.instances, host.containers, t, dels)
    modifies store`fibers, host`instances, host`containers, trace`events, root`pendingPassiveEffects
    ensures r.Ok? ==> store.fibers == Committed(phase, old(store.fibers), Walked(phase, old(store.fibers), t))
    ensures r.Ok? ==> trace.events == old(trace.events) + WalkEvents(phase, old(store.fibers), t, dels, Walked(phase, old(store.fibers), t))
    ensures r.Ok? ==> root.pendingPassiveEffects ==
                      PendingPassiveEffects(old(root.pendingPassiveEffects.unmount) + WalkUnmounts(phase, old(store.fibers), dels, Walked(phase, old(store.fibers), t)),
                                            old(root.pendingPassiveEffects.update) + WalkUpdates(phase, old(store.fibers), Walked(phase, old(store.fibers), t)))
    ensures r.Ok? ==> SameHostShape(old(host.instances), old(host.containers), host.instances, host.containers)
  {
    ghost var s0 := StateOf(store, host, trace, root);
    ghost var w := WalkTree(phase, s0.fibers, t);
    WalkStart(phase, s0, t, dels);
    var nextEffect: Option<FiberId> := Some(finishedWork);
    ghost var path: seq<nat> := [];
    r := Ok(());
    while nextEffect.Some?
      invariant r.Ok?
      invariant nextEffect.Some? ==>
                  ValidPath(w, path) && nextEffect.value == Sub(w, path).id && |Before(w, path)| < |Visit(w)| &&
                  WalkedThrough(phase, store, host, trace, root, s0, t, dels, PostBefore(w, path))
      invariant nextEffect.None? ==> WalkedThrough(phase, store, host, trace, root, s0, t, dels, PostVisit(w))
      decreases if nextEffect.Some? then |Visit(w)| - |Before(w, path)| else 0
    {
      r, nextEffect, path := WalkStep(phase, store, host, trace, root, nextEffect.value, t, dels, s0, w, path);
      if r.Err? {
        return;
      }
    }
  }

  /** Before the first step the walk stands at the root with nothing done. */
  lemma WalkStart(phase: Phase, s0: CommitState, t: Tree, dels: map<FiberId, Deletion>)
    requires WalkReady(phase, s0.fibers, s0.instances, s0.containers, t, dels)
    ensures ValidPath(WalkTree(phase, s0.fibers, t), [])
    ensures Sub(WalkTree(phase, s0.fibers, t), []).id == t.id
    ensures |Before(WalkTree(phase, s0.fibers, t), [])| < |Visit(WalkTree(phase, s0.fibers, t))|
    ensures WalkedTo(phase, s0, t, dels, PostBefore(WalkTree(phase, s0.fibers, t), []), s0)
  {
    var w := WalkTree(phase, s0.fibers, t);
    CommittedNone(phase, s0.fibers);
    assert ValidPath(w, []) && Sub(w, []).id == w.id && Before(w, []) == [] && PostBefore(w, []) == [];
    assert w.id == t.id by {
      CroppedBelow(s0.fibers, t, Unflagged(MaskOf(phase)));
    }
    assert Visit(w) == [w.id] + VisitAll(w.kids);
  }

  /**
   * One turn of the outer loop at the fiber at `p`: down to the first child
   * when the fiber's `subtreeFlags` meet the mask and it has one, otherwise
   * the `up:` loop.
   */
  method WalkStep(phase: Phase, store: FiberStore, host: NoopHost, trace: Trace, root: FiberRootNode, node: FiberId,
                  ghost t: Tree, ghost dels: map<FiberId, Deletion>, ghost s0: CommitState, ghost w: Tree, ghost p: seq<nat>)
    returns (r: Result<()>, next: Option<FiberId>, ghost p': seq<nat>)
    requires WalkReady(phase, s0.fibers, s0.instances, s0.containers, t, dels) && w == WalkTree(phase, s0.fibers, t)
    requires ValidPath(w, p) && Sub(w, p).id == node
    requires WalkedThrough(phase, store, host, trace, root, s0, t, dels, PostBefore(w, p))
    modifies store`fibers, host`instances, host`containers, trace`events, root`pendingPassiveEffects
    ensures r.Ok? && next.Some? ==>
              ValidPath(w, p') && next.value == Sub(w, p').id && |Before(w, p)| < |Before(w, p')| < |Visit(w)| &&
              WalkedThrough(phase, store, host, trace, root, s0, t, dels, PostBefore(w, p'))
    ensures r.Ok? && next.None? ==> WalkedThrough(phase, store, host, trace, root, s0, t, dels, PostVisit(w))
  {
    DescendStep(phase, s0.fibers, s0.instances, s0.containers, t, dels, w, p, store.fibers);
    var child := store.fibers[node].child;
    if store.fibers[node].subtreeFlags & MaskOf(phase) != NoFlags && child.Some? {
      r, next, p' := Ok(()), child, p + [0];
    } else {
      r, next, p' := ClimbUp(phase, store, host, trace, root, node, t, dels, s0, w, p);
    }
  }

  // ---------------------------------------------------------------------
  // What the walk promises

  /**
   * `completeWork` bubbled every fiber's flags up: each parent's
   * `subtreeFlags` hold the `flags` and the `subtreeFlags` of each child.
   */
  ghost predicate FlagsBubbled(fibers: map<FiberId, FiberNode>, t: Tree)
    decreases t
  {
    t.id in fibers &&
    forall i | 0 <= i < |t.kids| ::
      t.kids[i].id in fibers &&
      fibers[t.id].subtreeFlags & (fibers[t.kids[i].id].flags | fibers[t.kids[i].id].subtreeFlags) ==
        fibers[t.kids[i].id].flags | fibers[t.kids[i].id].subtreeFlags &&
      FlagsBubbled(fibers, t.kids[i])
  }

  /** Flags held in subtree flags that miss `m` miss `m` too. */
  lemma Within(a: Flags, x: Flags, y: Flags, m: Flags)
    requires a & (x | y) == x | y && a & m == NoFlags
    ensures x & m == NoFlags && y & m == NoFlags
  {
  }

  /** A fiber met below the top of `ts` is met in the subtree of one of them. */
  lemma {:induction false} VisitAllOf(ts: seq<Tree>, y: FiberId) returns (i: nat)
    requires y in VisitAll(ts)
    ensures i < |ts| && y in Visit(ts[i])
    decreases ts
  {
    if y in Visit(ts[0]) {
      i := 0;
    } else {
      var j := VisitAllOf(ts[1..], y);
      i := j + 1;
    }
  }

  /** Below a fiber whose subtree flags miss `m`, no fiber carries a flag of `m`. */
  lemma {:induction false} Quiet(fibers: map<FiberId, FiberNode>, t: Tree, m: Flags)
    requires FlagsBubbled(fibers, t) && fibers[t.id].subtreeFlags & m == NoFlags
    ensures forall y | y in VisitAll(t.kids) :: y in fibers && fibers[y].flags & m == NoFlags
    decreases t
  {
    forall y | y in VisitAll(t.kids) ensures y in fibers && fibers[y].flags & m == NoFlags {
      var i := VisitAllOf(t.kids, y);
      var k := t.kids[i];
      Within(fibers[t.id].subtreeFlags, fibers[k.id].flags, fibers[k.id].subtreeFlags, m);
      if y != k.id {
        Quiet(fibers, k, m);
      }
    }
  }

  /** The top, and every fiber below it that carries a flag of `m`, is met by the walk cut where subtree flags miss `m`. */
  lemma {:induction false} CroppedFlagged(fibers: map<FiberId, FiberNode>, t: Tree, m: Flags)
    requires FlagsBubbled(fibers, t)
    ensures forall y | y in Visit(t) && (y == t.id || (y in fibers && fibers[y].flags & m != NoFlags)) ::
              y in Visit(Cropped(fibers, t, Unflagged(m)))
    decreases t
  {
    var cut := Unflagged(m);
    var c := Cropped(fibers, t, cut);
    if Stops(cut, fibers[t.id]) {
      assert c == Node(t.id, []);
      Quiet(fibers, t, m);
    } else {
      assert c == Pruned(fibers, t, cut);
      assert c == Node(t.id, PrunedKids(fibers, t.kids, cut));
      forall y | y in VisitAll(t.kids) && y in fibers && fibers[y].flags & m != NoFlags ensures y in Visit(c) {
        var i := VisitAllOf(t.kids, y);
        CroppedFlagged(fibers, t.kids[i], m);
        assert c.kids[i] == Cropped(fibers, t.kids[i], cut);
        VisitAllHas(c.kids, i);
      }
    }
    assert Visit(c)[0] == t.id;
  }

  /**
   * The walk runs the callback on `finishedWork` and on every fiber of the
   * finished tree that carries a flag of the pass's mask: going down only
   * where `subtreeFlags` meet the mask misses none of them.
   */
  lemma WalkedFlagged(phase: Phase, fibers: map<FiberId, FiberNode>, t: Tree)
    requires FlagsBubbled(fibers, t)
    ensures t.id in Walked(phase, fibers, t)
    ensures forall y | y in Visit(t) && y in fibers && fibers[y].flags & MaskOf(phase) != NoFlags :: y in Walked(phase, fibers, t)
  {
    CroppedFlagged(fibers, t, MaskOf(phase));
    PostVisitSame(WalkTree(phase, fibers, t));
  }

  /** The walk runs the callback on fibers of the finished tree only, each of them once. */
  lemma WalkedOnce(phase: Phase, fibers: map<FiberId, FiberNode>, t: Tree)
    requires WholeTree(fibers, t)
    ensures Distinct(Walked(phase, fibers, t)) && forall y | y in Walked(phase, fibers, t) :: y in Visit(t)
  {
    CroppedDistinct(fibers, t, Unflagged(MaskOf(phase)));
    PostVisitSame(WalkTree(phase, fibers, t));
  }

  /** Clearing the handled flags clears every flag of the mutation mask. */
  lemma ClearsMask(flags: Flags, handled: Flags)
    requires handled & (MutationMask | PassiveMask) == MutationMask | PassiveMask
    ensures (flags & !handled) & (MutationMask | PassiveMask) == NoFlags
  {
  }

  /**
   * Once through, the mutation pass leaves no fiber of the finished tree
   * with a `Placement`, `Update`, `ChildDeletion` or `PassiveEffect` flag:
   * the walked ones were cleared and the others never had one.
   */
  lemma MutationPassClears(fibers: map<FiberId, FiberNode>, t: Tree)
    requires WholeTree(fibers, t) && FlagsBubbled(fibers, t)
    ensures var g := Committed(Mutation, fibers, Walked(Mutation, fibers, t));
            forall y | y in Visit(t) :: y in g && g[y].flags & (MutationMask | PassiveMask) == NoFlags
  {
    var done := Walked(Mutation, fibers, t);
    var g := Committed(Mutation, fibers, done);
    SpansIn(fibers, t);
    WalkedFlagged(Mutation, fibers, t);
    forall y | y in Visit(t) ensures y in g && g[y].flags & (MutationMask | PassiveMask) == NoFlags {
      if y in done {
        assert g[y].flags == Cleared(Mutation, fibers[y]);
        ClearsMask(fibers[y].flags, MutationHandled(fibers[y].tag));
      } else {
        assert g[y].flags == fibers[y].flags;
      }
    }
  }

  /** The layout callback run twice on a fiber attaches its ref once: the second run finds no `Ref` left. */
  lemma LayoutOnce(f: FiberNode)
    ensures var g := f.(flags := Cleared(Layout, f)); AttachCalls(g) == [] && Cleared(Layout, g) == g.flags
  {
    var g := f.(flags := Cleared(Layout, f));
    if f.tag == HostComponent {
      assert g.flags & FiberFlags.Ref == NoFlags;
    }
    LayoutOutcome(g);
  }

  /**
   * A HostComponent whose ref the mutation pass attached has no `Ref` left,
   * so the layout pass that follows attaches nothing on it.
   */
  lemma MutationTakesRef(f: FiberNode)
    requires f.tag == HostComponent
    ensures var g := f.(flags := Cleared(Mutation, f)); g.flags & FiberFlags.Ref == NoFlags && AttachCalls(g) == []
  {
  }
}
