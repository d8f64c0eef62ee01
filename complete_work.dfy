/**
 * The complete phase of a fiber: `completeWork`, which creates the host
 * instance of a newly mounted host fiber (with its host children already
 * appended), raises the `Update`, `Ref` and `Visibility` flags, pops the
 * context and suspense stacks, and ORs the children's flags into the fiber's
 * `subtreeFlags` (`bubbleProperties`).
 */
module CompleteWork {
  import opened Wrappers
  import opened Js
  import opened FiberFlags
  import opened WorkTags
  import opened HostTypes
  import opened Fiber
  import opened ChildFibers
  import opened FiberTree
  import opened HostConfig
  import FiberContext
  import SuspenseContext
  import BeginWork

  // ---------------------------------------------------------------------------------------------
  // bubbleProperties

  /** The flags and subtree flags of the fibers of `chain`, ORed together. */
  function ChildrenFlags(fibers: map<FiberId, FiberNode>, chain: seq<FiberId>): Flags
    decreases |chain|
  {
    if chain == [] then NoFlags
    else
      var c := chain[|chain| - 1];
      ChildrenFlags(fibers, chain[..|chain| - 1]) | OwnFlags(fibers, c)
  }

  /** A fiber's flags together with its subtree flags. */
  function OwnFlags(fibers: map<FiberId, FiberNode>, c: FiberId): Flags
  {
    if c in fibers then fibers[c].subtreeFlags | fibers[c].flags else NoFlags
  }

  /** Every fiber of `chain` with its `return` pointed at `parent`. */
  function Reparented(fibers: map<FiberId, FiberNode>, chain: seq<FiberId>, parent: FiberId): map<FiberId, FiberNode>
  {
    map id | id in fibers :: if id in chain then fibers[id].(ret := Some(parent)) else fibers[id]
  }

  /** The arena after `bubbleProperties(wip)` over the children `chain`. */
  function Bubbled(fibers: map<FiberId, FiberNode>, wip: FiberId, chain: seq<FiberId>): map<FiberId, FiberNode>
    requires wip in fibers && InArena(fibers, chain)
  {
    Reparented(fibers, chain, wip)[wip := fibers[wip].(subtreeFlags := fibers[wip].subtreeFlags | ChildrenFlags(fibers, chain))]
  }

  /** `bubbleProperties(wip)`: collects the children's flags and subtree flags and points each child back at `wip`. */
  method BubbleProperties(store: FiberStore, wip: FiberId, ghost chain: seq<FiberId>)
    requires wip in store.fibers && IsChain(store.fibers, store.fibers[wip].child, chain) && wip !in chain
    modifies store`fibers
    ensures InArena(old(store.fibers), chain)
    ensures store.fibers == Bubbled(old(store.fibers), wip, chain)
  {
    ghost var f0 := store.fibers;
    ChainInArena(f0, f0[wip].child, chain);
    var subtreeFlags := NoFlags;
    var child := store.fibers[wip].child;
    ghost var k := 0;
    while child.Some?
      invariant 0 <= k <= |chain| && IsChain(f0, child, chain[k..])
      invariant store.fibers == Reparented(f0, chain[..k], wip)
      invariant subtreeFlags == ChildrenFlags(f0, chain[..k])
      decreases |chain| - k
    {
      var c := child.value;
      assert c == chain[k] && c in f0 && IsChain(f0, f0[c].sibling, chain[k + 1..]) by {
        assert chain[k..][1..] == chain[k + 1..];
      }
      var fc := store.fibers[c];
      BubbleStep(f0, chain, k, wip, store.fibers, subtreeFlags);
      subtreeFlags := subtreeFlags | fc.subtreeFlags;
      subtreeFlags := subtreeFlags | fc.flags;
      store.fibers := store.fibers[c := fc.(ret := Some(wip))];
      child := fc.sibling;
      k := k + 1;
    }
    assert chain[..k] == chain;
    BubbleLast(f0, wip, chain, store.fibers, subtreeFlags);
    store.fibers := store.fibers[wip := store.fibers[wip].(subtreeFlags := store.fibers[wip].subtreeFlags | subtreeFlags)];
  }

  /** One iteration of the loop of `bubbleProperties`: one more child reparented and its flags collected. */
  lemma BubbleStep(f0: map<FiberId, FiberNode>, chain: seq<FiberId>, k: nat, wip: FiberId, fibers: map<FiberId, FiberNode>, acc: Flags)
    requires k < |chain| && chain[k] in f0
    requires fibers == Reparented(f0, chain[..k], wip) && acc == ChildrenFlags(f0, chain[..k])
    ensures chain[k] in fibers && fibers[chain[k]].sibling == f0[chain[k]].sibling
    ensures fibers[chain[k] := fibers[chain[k]].(ret := Some(wip))] == Reparented(f0, chain[..k + 1], wip)
    ensures acc | fibers[chain[k]].subtreeFlags | fibers[chain[k]].flags == ChildrenFlags(f0, chain[..k + 1])
  {
    var c := chain[k];
    ReparentedSnoc(f0, chain, k, wip);
    assert fibers[c].(ret := Some(wip)) == f0[c].(ret := Some(wip));
    ChildrenFlagsStep(f0, chain, k, acc, f0[c].subtreeFlags, f0[c].flags);
  }

  /** The last step of `bubbleProperties`: the collected flags ORed into `wip`'s subtree flags. */
  lemma BubbleLast(f0: map<FiberId, FiberNode>, wip: FiberId, chain: seq<FiberId>, fibers: map<FiberId, FiberNode>, acc: Flags)
    requires wip in f0 && InArena(f0, chain) && wip !in chain
    requires fibers == Reparented(f0, chain, wip) && acc == ChildrenFlags(f0, chain)
    ensures wip in fibers
    ensures fibers[wip := fibers[wip].(subtreeFlags := fibers[wip].subtreeFlags | acc)] == Bubbled(f0, wip, chain)
  {
    assert fibers[wip] == f0[wip];
    var x := f0[wip].(subtreeFlags := f0[wip].subtreeFlags | ChildrenFlags(f0, chain));
    assert fibers[wip].(subtreeFlags := fibers[wip].subtreeFlags | acc) == x;
    assert Bubbled(f0, wip, chain) == Reparented(f0, chain, wip)[wip := x];
  }

  /** One more child ORed into the flags collected so far. */
  lemma ChildrenFlagsStep(fibers: map<FiberId, FiberNode>, chain: seq<FiberId>, k: nat, acc: Flags, sub: Flags, own: Flags)
    requires k < |chain| && chain[k] in fibers && acc == ChildrenFlags(fibers, chain[..k])
    requires sub == fibers[chain[k]].subtreeFlags && own == fibers[chain[k]].flags
    ensures acc | sub | own == ChildrenFlags(fibers, chain[..k + 1])
  {
    assert chain[..k + 1][..k] == chain[..k];
  }

  lemma ReparentedSnoc(fibers: map<FiberId, FiberNode>, chain: seq<FiberId>, k: nat, parent: FiberId)
    requires k < |chain| && chain[k] in fibers
    ensures Reparented(fibers, chain[..k + 1], parent) ==
            Reparented(fibers, chain[..k], parent)[chain[k] := fibers[chain[k]].(ret := Some(parent))]
  {
    var a, b := Reparented(fibers, chain[..k + 1], parent), Reparented(fibers, chain[..k], parent)[chain[k] := fibers[chain[k]].(ret := Some(parent))];
    assert chain[..k + 1] == chain[..k] + [chain[k]];
    assert a.Keys == b.Keys;
    forall id | id in a
      ensures a[id] == b[id]
    {
    }
  }

  /** Every flag of a child, of itself or of its subtree, reaches the collected flags. */
  lemma {:induction false} ChildFlagsCollected(fibers: map<FiberId, FiberNode>, chain: seq<FiberId>, k: nat)
    requires InArena(fibers, chain) && k < |chain|
    ensures (fibers[chain[k]].flags | fibers[chain[k]].subtreeFlags) & ChildrenFlags(fibers, chain) ==
            fibers[chain[k]].flags | fibers[chain[k]].subtreeFlags
    decreases |chain|
  {
    var n := |chain| - 1;
    if k < n {
      ChildFlagsCollected(fibers, chain[..n], k);
    }
  }

  /** The collected flags hold no flag that no child has, of itself or of its subtree. */
  lemma {:induction false} OnlyChildFlagsCollected(fibers: map<FiberId, FiberNode>, chain: seq<FiberId>, mask: Flags)
    requires InArena(fibers, chain)
    requires forall k | 0 <= k < |chain| :: (fibers[chain[k]].flags | fibers[chain[k]].subtreeFlags) & mask == NoFlags
    ensures ChildrenFlags(fibers, chain) & mask == NoFlags
    decreases |chain|
  {
    if chain != [] {
      var n := |chain| - 1;
      assert forall k | 0 <= k < n :: chain[..n][k] == chain[k];
      OnlyChildFlagsCollected(fibers, chain[..n], mask);
      assert (fibers[chain[n]].flags | fibers[chain[n]].subtreeFlags) & mask == NoFlags;
    }
  }

  /** Bubbling keeps the fibers and the flags `wip` had in its subtree, and points the children back at `wip`. */
  lemma BubbleKeeps(fibers: map<FiberId, FiberNode>, wip: FiberId, chain: seq<FiberId>)
    requires wip in fibers && InArena(fibers, chain) && wip !in chain
    ensures var b := Bubbled(fibers, wip, chain);
            b.Keys == fibers.Keys &&
            b[wip] == fibers[wip].(subtreeFlags := b[wip].subtreeFlags) &&
            b[wip].subtreeFlags & fibers[wip].subtreeFlags == fibers[wip].subtreeFlags &&
            (forall k | 0 <= k < |chain| :: b[chain[k]] == fibers[chain[k]].(ret := Some(wip))) &&
            (forall id | id in fibers && id != wip && id !in chain :: b[id] == fibers[id])
  {
  }

  /** After bubbling, every flag a child carries on itself or in its subtree is in `wip`'s subtree flags. */
  lemma BubbleCollects(fibers: map<FiberId, FiberNode>, wip: FiberId, chain: seq<FiberId>, k: nat)
    requires wip in fibers && InArena(fibers, chain) && k < |chain|
    ensures Bubbled(fibers, wip, chain)[wip].subtreeFlags & (fibers[chain[k]].flags | fibers[chain[k]].subtreeFlags) ==
            fibers[chain[k]].flags | fibers[chain[k]].subtreeFlags
  {
    ChildFlagsCollected(fibers, chain, k);
  }

  /** A flag no child carries, on itself or in its subtree, is in `wip`'s subtree flags after bubbling only if it was before. */
  lemma BubbleAddsOnlyChildFlags(fibers: map<FiberId, FiberNode>, wip: FiberId, chain: seq<FiberId>, mask: Flags)
    requires wip in fibers && InArena(fibers, chain)
    requires forall k | 0 <= k < |chain| :: (fibers[chain[k]].flags | fibers[chain[k]].subtreeFlags) & mask == NoFlags
    ensures Bubbled(fibers, wip, chain)[wip].subtreeFlags & mask == fibers[wip].subtreeFlags & mask
  {
    OnlyChildFlagsCollected(fibers, chain, mask);
  }

  /** The collected flags only depend on the children's flags. */
  lemma {:induction false} ChildrenFlagsFrame(fibers: map<FiberId, FiberNode>, fibers': map<FiberId, FiberNode>, chain: seq<FiberId>)
    requires InArena(fibers, chain) && InArena(fibers', chain)
    requires forall k | 0 <= k < |chain| ::
               fibers'[chain[k]].flags == fibers[chain[k]].flags && fibers'[chain[k]].subtreeFlags == fibers[chain[k]].subtreeFlags
    ensures ChildrenFlags(fibers', chain) == ChildrenFlags(fibers, chain)
    decreases |chain|
  {
    if chain != [] {
      var n := |chain| - 1;
      assert forall k | 0 <= k < n :: chain[..n][k] == chain[k];
      ChildrenFlagsFrame(fibers, fibers', chain[..n]);
    }
  }

  /** Bubbling twice is bubbling once. */
  lemma BubbleIdempotent(fibers: map<FiberId, FiberNode>, wip: FiberId, chain: seq<FiberId>)
    requires wip in fibers && InArena(fibers, chain) && wip !in chain
    ensures InArena(Bubbled(fibers, wip, chain), chain)
    ensures Bubbled(Bubbled(fibers, wip, chain), wip, chain) == Bubbled(fibers, wip, chain)
  {
    var b := Bubbled(fibers, wip, chain);
    assert forall k | 0 <= k < |chain| :: b[chain[k]] == fibers[chain[k]].(ret := Some(wip));
    ChildrenFlagsFrame(fibers, b, chain);
    var c := ChildrenFlags(fibers, chain);
    assert (fibers[wip].subtreeFlags | c) | c == fibers[wip].subtreeFlags | c;
    var bb := Bubbled(b, wip, chain);
    assert bb.Keys == b.Keys;
    forall id | id in b
      ensures bb[id] == b[id]
    {
    }
  }

  // ---------------------------------------------------------------------------------------------
  // appendAllChildren

  /** Every host instance a fiber holds is one the host knows. */
  ghost predicate HostNodesIn(fibers: map<FiberId, FiberNode>, instances: map<InstanceRef, HostInstance>)
  {
    forall id | id in fibers && fibers[id].stateNode.HostNode? :: fibers[id].stateNode.instance in instances
  }

  /** No fiber holds `inst` (true of an instance just created). */
  ghost predicate HeldByNone(fibers: map<FiberId, FiberNode>, inst: InstanceRef)
  {
    forall id | id in fibers :: fibers[id].stateNode != HostNode(inst)
  }

  /**
   * One step of `appendAllChildren` towards an instance whose id is `pid`:
   * a host fiber's instance is appended, unless some earlier instance failed
   * or the fiber holds none (`appendInitialChild` then reads a field of
   * `null`), or unless the instance has another parent already; an instance
   * `appended` before has `pid` as its parent by now.
   */
  function AppendStep(instances: map<InstanceRef, HostInstance>, pid: JsValue, appended: Result<seq<InstanceRef>>, f: FiberNode)
    : Result<seq<InstanceRef>>
  {
    if appended.Err? || !IsHost(f) then appended
    else if !f.stateNode.HostNode? || f.stateNode.instance !in instances then Err(ReadOfUndefined)
    else
      var x := f.stateNode.instance;
      if x !in appended.value && instances[x].parent != NoParent && instances[x].parent != pid then Err("duplicate child node insertion")
      else Ok(appended.value + [x])
  }

  /** The instances appended for the fibers `ids`, met in this order (ids outside the arena do not occur in the walk). */
  function AppendPlan(fibers: map<FiberId, FiberNode>, instances: map<InstanceRef, HostInstance>, pid: JsValue, ids: seq<FiberId>)
    : Result<seq<InstanceRef>>
    decreases |ids|
  {
    if ids == [] then Ok([])
    else
      var n := |ids| - 1;
      var appended := AppendPlan(fibers, instances, pid, ids[..n]);
      if ids[n] in fibers then AppendStep(instances, pid, appended, fibers[ids[n]]) else appended
  }

  /** The host instances after `done` were appended, in order, to the instance `parent`, whose id is `pid`. */
  function Adopted(instances: map<InstanceRef, HostInstance>, parent: InstanceRef, pid: JsValue, done: seq<InstanceRef>)
    : map<InstanceRef, HostInstance>
    requires parent in instances && instances[parent].Instance?
  {
    map x | x in instances ::
      if x == parent then instances[x].(children := instances[x].children + done)
      else if x in done then instances[x].(parent := pid)
      else instances[x]
  }

  lemma PlanSnoc(fibers: map<FiberId, FiberNode>, instances: map<InstanceRef, HostInstance>, pid: JsValue, ids: seq<FiberId>, id: FiberId)
    requires id in fibers
    ensures AppendPlan(fibers, instances, pid, ids + [id]) == AppendStep(instances, pid, AppendPlan(fibers, instances, pid, ids), fibers[id])
  {
    assert (ids + [id])[..|ids|] == ids;
  }

  /** Once an append failed, the walk has stopped with that error. */
  lemma {:induction false} PlanErrSticks(fibers: map<FiberId, FiberNode>, instances: map<InstanceRef, HostInstance>, pid: JsValue,
                                         ids: seq<FiberId>, more: seq<FiberId>)
    requires AppendPlan(fibers, instances, pid, ids).Err?
    ensures AppendPlan(fibers, instances, pid, ids + more) == AppendPlan(fibers, instances, pid, ids)
    decreases |more|
  {
    if more == [] {
      assert ids + more == ids;
    } else {
      var n := |more| - 1;
      PlanErrSticks(fibers, instances, pid, ids, more[..n]);
      var all := ids + more;
      assert all[..|all| - 1] == ids + more[..n];
      assert AppendPlan(fibers, instances, pid, all[..|all| - 1]).Err?;
    }
  }

  lemma AdoptedSnoc(instances: map<InstanceRef, HostInstance>, parent: InstanceRef, pid: JsValue, done: seq<InstanceRef>, x: InstanceRef)
    requires parent in instances && instances[parent].Instance? && x in instances && x != parent
    ensures var a := Adopted(instances, parent, pid, done);
            Adopted(instances, parent, pid, done + [x]) ==
            a[x := a[x].(parent := pid)][parent := a[parent].(children := a[parent].children + [x])]
  {
    var a := Adopted(instances, parent, pid, done);
    var b := a[x := a[x].(parent := pid)][parent := a[parent].(children := a[parent].children + [x])];
    var c := Adopted(instances, parent, pid, done + [x]);
    assert c.Keys == b.Keys;
    forall y | y in c
      ensures c[y] == b[y]
    {
    }
  }

  lemma AdoptedNone(instances: map<InstanceRef, HostInstance>, parent: InstanceRef, pid: JsValue)
    requires parent in instances && instances[parent].Instance?
    ensures Adopted(instances, parent, pid, []) == instances
  {
    var a := Adopted(instances, parent, pid, []);
    assert a.Keys == instances.Keys;
    forall y | y in a
      ensures a[y] == instances[y]
    {
    }
  }

  lemma DropFirst<T>(x: seq<T>, y: seq<T>)
    requires x != []
    ensures (x + y)[1..] == x[1..] + y
  {
  }

  /** `fiber.return = ret` on a fiber that points at `ret` already. */
  method RewriteReturn(store: FiberStore, id: FiberId, ret: Option<FiberId>)
    requires id in store.fibers && store.fibers[id].ret == ret
    modifies store`fibers
    ensures store.fibers == old(store.fibers)
  {
    ghost var f0 := store.fibers;
    store.fibers := store.fibers[id := store.fibers[id].(ret := ret)];
    assert store.fibers[id] == f0[id];
    assert store.fibers.Keys == f0.Keys;
  }

  /** A node where the walk turns back: after it, the plan has taken one more step, and the rest of the walk follows. */
  lemma PlanLeaf(fibers: map<FiberId, FiberNode>, instances: map<InstanceRef, HostInstance>, pid: JsValue, t: Tree, p: seq<nat>)
    requires Spans(fibers, t, AtHosts) && ValidPath(t, p) && p != [] && Sub(t, p).id in fibers
    requires IsHost(fibers[Sub(t, p).id]) || fibers[Sub(t, p).id].child.None?
    ensures AppendPlan(fibers, instances, pid, (Before(t, p) + Visit(Sub(t, p)))[1..]) ==
            AppendStep(instances, pid, AppendPlan(fibers, instances, pid, Before(t, p)[1..]), fibers[Sub(t, p).id])
    ensures VisitAll(t.kids) == (Before(t, p) + Visit(Sub(t, p)))[1..] + After(t, p)
    ensures |Before(t, p)| < |Before(t, p) + Visit(Sub(t, p))| <= |Visit(t)|
  {
    LeafVisit(fibers, t, AtHosts, p);
    VisitSplits(t, p);
    var b := Before(t, p);
    PlanSnoc(fibers, instances, pid, b[1..], Sub(t, p).id);
    DropFirst(b, [Sub(t, p).id]);
    DropFirst(b + [Sub(t, p).id], After(t, p));
  }

  /** Going down from a node that is not a host: the plan is where it was. */
  lemma PlanDown(fibers: map<FiberId, FiberNode>, instances: map<InstanceRef, HostInstance>, pid: JsValue, t: Tree, p: seq<nat>)
    requires Spans(fibers, t, AtHosts) && Parented(fibers, t) && ValidPath(t, p) && p != [] && Sub(t, p).id in fibers
    requires !IsHost(fibers[Sub(t, p).id]) && fibers[Sub(t, p).id].child.Some?
    ensures ValidPath(t, p + [0]) && fibers[Sub(t, p).id].child == Some(Sub(t, p + [0]).id)
    ensures Sub(t, p + [0]).id in fibers && fibers[Sub(t, p + [0]).id].ret == Some(Sub(t, p).id)
    ensures AppendPlan(fibers, instances, pid, Before(t, p + [0])[1..]) == AppendPlan(fibers, instances, pid, Before(t, p)[1..])
    ensures |Before(t, p)| < |Before(t, p + [0])| < |Visit(t)|
  {
    StepDown(fibers, t, AtHosts, p);
    VisitSplits(t, p + [0]);
    var b := Before(t, p);
    PlanSnoc(fibers, instances, pid, b[1..], Sub(t, p).id);
    DropFirst(b, [Sub(t, p).id]);
  }

  /** One visit of `appendAllChildren`: a host fiber's instance is appended to `parent`; any other fiber is passed over. */
  method AppendNode(host: NoopHost, parent: InstanceRef, f: FiberNode, ghost h0: map<InstanceRef, HostInstance>, ghost done: seq<InstanceRef>)
    returns (r: Result<()>, ghost done': seq<InstanceRef>)
    requires host.Valid() && parent in h0 && h0[parent].Instance? && host.instances == Adopted(h0, parent, Num(parent), done)
    requires f.stateNode.HostNode? ==> f.stateNode.instance in h0 && f.stateNode.instance != parent
    modifies host`instances, host`containers
    ensures host.Valid() && host.instanceCounter == old(host.instanceCounter) && host.containers == old(host.containers)
    ensures var step := AppendStep(h0, Num(parent), Ok(done), f);
            (r.Ok? <==> step.Ok?) && (r.Err? ==> r.message == step.message) &&
            (step.Ok? ==> done' == step.value && host.instances == Adopted(h0, parent, Num(parent), done'))
  {
    done' := done;
    if !IsHost(f) {
      return Ok(()), done';
    }
    if !f.stateNode.HostNode? {
      return Err(ReadOfUndefined), done';
    }
    var x := f.stateNode.instance;
    r := host.AppendInitialChild(InstanceParent(parent), x);
    if r.Ok? {
      AdoptedSnoc(h0, parent, Num(parent), done, x);
      done' := done + [x];
    }
  }

  /**
   * `appendAllChildren(parent, wip)`: walks the subtree under `wip` and
   * appends the instance of each host fiber it meets, without going into
   * host fibers, to the instance `parent`.  `t` is the subtree.  The walk
   * also points each child it goes down to, and each sibling it goes across
   * to, back at its parent; those links are already in place.
   */
  method AppendAllChildren(store: FiberStore, host: NoopHost, parent: InstanceRef, wip: FiberId, ghost t: Tree) returns (r: Result<()>)
    requires host.Valid() && parent in host.instances && host.instances[parent].Instance?
    requires t.id == wip && Spans(store.fibers, t, AtHosts) && Parented(store.fibers, t) && Distinct(Visit(t))
    requires HostNodesIn(store.fibers, host.instances) && HeldByNone(store.fibers, parent)
    modifies store`fibers, host`instances, host`containers
    ensures store.fibers == old(store.fibers)
    ensures host.Valid() && host.instanceCounter == old(host.instanceCounter) && host.containers == old(host.containers)
    ensures var plan := AppendPlan(old(store.fibers), old(host.instances), Num(parent), VisitAll(t.kids));
            (r.Ok? <==> plan.Ok?) && (r.Err? ==> r.message == plan.message) &&
            (plan.Ok? ==> host.instances == Adopted(old(host.instances), parent, Num(parent), plan.value))
  {
    ghost var f0, h0, pid := store.fibers, host.instances, Num(parent);
    StepDown(f0, t, AtHosts, []);
    var node := store.fibers[wip].child;
    AdoptedNone(h0, parent, pid);
    if node.None? {
      return Ok(());
    }
    ghost var path: seq<nat> := [0];
    ghost var done: seq<InstanceRef> := [];
    AppendStart(f0, h0, pid, t);
    while node.Some?
      invariant AppendingAt(f0, h0, pid, t, path, node, done)
      invariant store.fibers == f0 && host.Valid() && host.instanceCounter == old(host.instanceCounter) && host.containers == old(host.containers)
      invariant host.instances == Adopted(h0, parent, pid, done)
      decreases |Visit(t)| - |Before(t, path)|
    {
      SubBelow(f0, t, path, AtHosts);
      var fc := store.fibers[node.value];
      if fc.tag != HostComponent && fc.tag != HostText && fc.child.Some? {
        node, path := Descend(store, t, node, path, h0, pid);
        continue;
      }
      var more;
      more, r, node, path, done := AppendAndClimb(store, host, parent, wip, t, node, path, h0, done);
      if !more {
        return;
      }
    }
  }

  /** The walk of `appendAllChildren` is at the node `path`, having appended `done` for the nodes before it. */
  ghost predicate AppendingAt(f0: map<FiberId, FiberNode>, h0: map<InstanceRef, HostInstance>, pid: JsValue, t: Tree,
                              path: seq<nat>, node: Option<FiberId>, done: seq<InstanceRef>)
  {
    ValidPath(t, path) && path != [] && node == Some(Sub(t, path).id) && |Before(t, path)| < |Visit(t)| &&
    AppendPlan(f0, h0, pid, Before(t, path)[1..]) == Ok(done)
  }

  /** The walk of `appendAllChildren` starts at the first child, with nothing appended yet. */
  lemma AppendStart(f0: map<FiberId, FiberNode>, h0: map<InstanceRef, HostInstance>, pid: JsValue, t: Tree)
    requires Spans(f0, t, AtHosts) && Parented(f0, t) && t.kids != []
    ensures ValidPath(t, [0]) && t.id in f0 && f0[t.id].child == Some(Sub(t, [0]).id)
    ensures |Before(t, [0])| < |Visit(t)| && AppendPlan(f0, h0, pid, Before(t, [0])[1..]) == Ok([])
  {
    StepDown(f0, t, AtHosts, []);
    assert [] + [0] == [0];
    assert Before(t, [0]) == [t.id];
    VisitSplits(t, [0]);
  }

  /**
   * The step of `appendAllChildren` down to the first child of a fiber that
   * is not a host fiber; nothing is appended.
   */
  method Descend(store: FiberStore, ghost t: Tree, node: Option<FiberId>, ghost path: seq<nat>,
                 ghost h0: map<InstanceRef, HostInstance>, ghost pid: JsValue)
    returns (next: Option<FiberId>, ghost path': seq<nat>)
    requires Spans(store.fibers, t, AtHosts) && Parented(store.fibers, t) && Distinct(Visit(t))
    requires ValidPath(t, path) && path != [] && node == Some(Sub(t, path).id) && Sub(t, path).id in store.fibers
    requires !IsHost(store.fibers[node.value]) && store.fibers[node.value].child.Some?
    modifies store`fibers
    ensures store.fibers == old(store.fibers)
    ensures ValidPath(t, path') && path' != [] && next == Some(Sub(t, path').id)
    ensures |Before(t, path)| < |Before(t, path')| < |Visit(t)|
    ensures AppendPlan(store.fibers, h0, pid, Before(t, path')[1..]) == AppendPlan(store.fibers, h0, pid, Before(t, path)[1..])
  {
    PlanDown(store.fibers, h0, pid, t, path);
    next := store.fibers[node.value].child;
    RewriteReturn(store, next.value, node);
    path' := path + [0];
  }

  /**
   * The part of one round of `appendAllChildren` at a host fiber, or at a
   * fiber without children: the host fiber's instance is appended, then the
   * walk climbs to the next sibling, or ends.
   */
  method AppendAndClimb(store: FiberStore, host: NoopHost, parent: InstanceRef, wip: FiberId, ghost t: Tree, node: Option<FiberId>,
                        ghost path: seq<nat>, ghost h0: map<InstanceRef, HostInstance>, ghost done: seq<InstanceRef>)
    returns (more: bool, r: Result<()>, next: Option<FiberId>, ghost path': seq<nat>, ghost done': seq<InstanceRef>)
    requires t.id == wip && Spans(store.fibers, t, AtHosts) && Parented(store.fibers, t) && Distinct(Visit(t))
    requires HostNodesIn(store.fibers, h0) && HeldByNone(store.fibers, parent) && parent in h0 && h0[parent].Instance?
    requires ValidPath(t, path) && path != [] && node == Some(Sub(t, path).id) && Sub(t, path).id in store.fibers
    requires IsHost(store.fibers[node.value]) || store.fibers[node.value].child.None?
    requires host.Valid() && host.instances == Adopted(h0, parent, Num(parent), done)
    requires AppendPlan(store.fibers, h0, Num(parent), Before(t, path)[1..]) == Ok(done)
    modifies store`fibers, host`instances, host`containers
    ensures store.fibers == old(store.fibers)
    ensures host.Valid() && host.instanceCounter == old(host.instanceCounter) && host.containers == old(host.containers)
    ensures more ==> r.Ok? && ValidPath(t, path') && path' != [] && next == Some(Sub(t, path').id) &&
                     |Before(t, path)| < |Before(t, path')| < |Visit(t)| &&
                     AppendPlan(store.fibers, h0, Num(parent), Before(t, path')[1..]) == Ok(done') &&
                     host.instances == Adopted(h0, parent, Num(parent), done')
    ensures !more ==> var plan := AppendPlan(store.fibers, h0, Num(parent), VisitAll(t.kids));
                      (r.Ok? <==> plan.Ok?) && (r.Err? ==> r.message == plan.message) &&
                      (plan.Ok? ==> host.instances == Adopted(h0, parent, Num(parent), plan.value))
  {
    ghost var f0 := store.fibers;
    PlanLeaf(f0, h0, Num(parent), t, path);
    r, done' := AppendNode(host, parent, store.fibers[node.value], h0, done);
    if r.Err? {
      PlanErrSticks(f0, h0, Num(parent), (Before(t, path) + Visit(Sub(t, path)))[1..], After(t, path));
      return false, r, node, path, done';
    }
    // `node === wip` cannot hold here: `node` lies strictly below `wip`.
    more, next, path' := ClimbToSibling(store, wip, t, AtHosts, node, path);
  }

  /**
   * The climb of `appendAllChildren` (and of `commitNestedComponent`, which
   * walks with another cut) from the node at `path`, whose subtree is done:
   * up `return` while there is no sibling, stopping under `wip`; then across
   * to the sibling, which is pointed back at the parent.
   */
  method ClimbToSibling(store: FiberStore, wip: FiberId, ghost t: Tree, ghost cut: Cut, node: Option<FiberId>, ghost path: seq<nat>)
    returns (more: bool, next: Option<FiberId>, ghost path': seq<nat>)
    requires t.id == wip && Spans(store.fibers, t, cut) && Parented(store.fibers, t) && Distinct(Visit(t))
    requires ValidPath(t, path) && path != [] && node == Some(Sub(t, path).id)
    modifies store`fibers
    ensures store.fibers == old(store.fibers)
    ensures !more ==> Before(t, path) + Visit(Sub(t, path)) == Visit(t)
    ensures more ==> ValidPath(t, path') && path' != [] && next == Some(Sub(t, path').id) &&
                     Before(t, path') == Before(t, path) + Visit(Sub(t, path)) &&
                     |Before(t, path)| < |Before(t, path')| < |Visit(t)|
  {
    ghost var f0 := store.fibers;
    ghost var finished := Before(t, path) + Visit(Sub(t, path));
    SubBelow(f0, t, path, cut);
    next, path' := node, path;
    while store.fibers[next.value].sibling.None?
      invariant ValidPath(t, path') && path' != [] && next == Some(Sub(t, path').id) && Sub(t, path').id in f0
      invariant store.fibers == f0 && Before(t, path') + Visit(Sub(t, path')) == finished
      decreases |path'|
    {
      PreClimb(f0, t, cut, path');
      var ret := store.fibers[next.value].ret;
      if ret.None? || ret == Some(wip) {
        return false, next, path';
      }
      next := ret;
      path' := path'[..|path'| - 1];
    }
    PreSibling(f0, t, cut, path');
    var sibling := store.fibers[next.value].sibling.value;
    RewriteReturn(store, sibling, store.fibers[next.value].ret);
    next := Some(sibling);
    path' := path'[..|path'| - 1] + [path'[|path'| - 1] + 1];
    VisitSplits(t, path');
    more := true;
  }

  // What `appendAllChildren` appends: the host fibers nearest to the top, in order

  /** The host fibers among `ids`, in order. */
  function HostsOnly(fibers: map<FiberId, FiberNode>, ids: seq<FiberId>): (r: seq<FiberId>)
    ensures |r| <= |ids|
    ensures forall i | 0 <= i < |r| :: r[i] in fibers && IsHost(fibers[r[i]])
    decreases |ids|
  {
    if ids == [] then []
    else
      var n := |ids| - 1;
      HostsOnly(fibers, ids[..n]) + (if ids[n] in fibers && IsHost(fibers[ids[n]]) then [ids[n]] else [])
  }

  /**
   * The host fibers nearest to the top of the forest `ts`, left to right:
   * a host fiber stands for its whole subtree, any other fiber for the host
   * fibers under it.
   */
  function TopHosts(fibers: map<FiberId, FiberNode>, ts: seq<Tree>): (r: seq<FiberId>)
    ensures forall i | 0 <= i < |r| :: r[i] in fibers && IsHost(fibers[r[i]])
    decreases ts
  {
    if ts == [] then []
    else (if ts[0].id in fibers && IsHost(fibers[ts[0].id]) then [ts[0].id] else TopHosts(fibers, ts[0].kids)) + TopHosts(fibers, ts[1..])
  }

  /** A fiber `appendInitialChild` can take: not a host fiber, or one whose instance exists and has no other parent. */
  predicate Adoptable(fibers: map<FiberId, FiberNode>, instances: map<InstanceRef, HostInstance>, pid: JsValue, id: FiberId)
  {
    id in fibers && IsHost(fibers[id]) ==>
      fibers[id].stateNode.HostNode? && fibers[id].stateNode.instance in instances &&
      (instances[fibers[id].stateNode.instance].parent == NoParent || instances[fibers[id].stateNode.instance].parent == pid)
  }

  lemma {:induction false} HostsOnlyAppend(fibers: map<FiberId, FiberNode>, a: seq<FiberId>, b: seq<FiberId>)
    ensures HostsOnly(fibers, a + b) == HostsOnly(fibers, a) + HostsOnly(fibers, b)
    decreases |b|
  {
    if b == [] {
      assert a + b == a;
    } else {
      var n := |b| - 1;
      assert (a + b)[..|a + b| - 1] == a + b[..n];
      HostsOnlyAppend(fibers, a, b[..n]);
    }
  }

  /** A list of host fibers only is its own host list. */
  lemma {:induction false} HostsOnlyOfHosts(fibers: map<FiberId, FiberNode>, hs: seq<FiberId>)
    requires forall i | 0 <= i < |hs| :: hs[i] in fibers && IsHost(fibers[hs[i]])
    ensures HostsOnly(fibers, hs) == hs
    decreases |hs|
  {
    if hs != [] {
      var n := |hs| - 1;
      HostsOnlyOfHosts(fibers, hs[..n]);
      assert hs[..n] + [hs[n]] == hs;
    }
  }

  /** A walk that stops at host fibers and maybe at more. */
  predicate StopsAtHosts(cut: Cut)
  {
    cut == AtHosts || cut == AtHostsAndHidden
  }

  /** Under walks that stop at host fibers, the host fibers a pre-order walk meets are the top ones. */
  lemma {:induction false} HostsOnlyTop(fibers: map<FiberId, FiberNode>, ts: seq<Tree>, cut: Cut)
    requires StopsAtHosts(cut) && forall i | 0 <= i < |ts| :: Below(fibers, ts[i], cut)
    ensures HostsOnly(fibers, VisitAll(ts)) == TopHosts(fibers, ts)
    decreases ts
  {
    if ts != [] {
      var t := ts[0];
      assert Below(fibers, t, cut);
      assert forall i | 0 <= i < |ts[1..]| :: Below(fibers, ts[1..][i], cut) by {
        forall i | 0 <= i < |ts[1..]| ensures Below(fibers, ts[1..][i], cut) {
          assert ts[1..][i] == ts[i + 1];
        }
      }
      HostsOnlyTop(fibers, ts[1..], cut);
      HostsOnlyAppend(fibers, Visit(t), VisitAll(ts[1..]));
      HostsOnlyTree(fibers, t, cut);
    }
  }

  /** One tree of `HostsOnlyTop`. */
  lemma {:induction false} HostsOnlyTree(fibers: map<FiberId, FiberNode>, t: Tree, cut: Cut)
    requires StopsAtHosts(cut) && Below(fibers, t, cut)
    ensures HostsOnly(fibers, Visit(t)) == if IsHost(fibers[t.id]) then [t.id] else TopHosts(fibers, t.kids)
    decreases t
  {
    HostsOnlyAppend(fibers, [t.id], VisitAll(t.kids));
    assert HostsOnly(fibers, [t.id]) == HostsOnly(fibers, []) + (if IsHost(fibers[t.id]) then [t.id] else []) by {
      assert [t.id][..0] == [];
    }
    if Stops(cut, fibers[t.id]) {
      assert t.kids == [];
      assert Visit(t) == [t.id];
    } else {
      assert Spans(fibers, t, cut);
      HostsOnlyTop(fibers, t.kids, cut);
    }
  }

  /** Fibers that are not hosts change nothing in the plan. */
  lemma {:induction false} PlanHostsOnly(fibers: map<FiberId, FiberNode>, instances: map<InstanceRef, HostInstance>, pid: JsValue, ids: seq<FiberId>)
    ensures AppendPlan(fibers, instances, pid, ids) == AppendPlan(fibers, instances, pid, HostsOnly(fibers, ids))
    decreases |ids|
  {
    if ids != [] {
      var n := |ids| - 1;
      PlanHostsOnly(fibers, instances, pid, ids[..n]);
      if ids[n] in fibers && IsHost(fibers[ids[n]]) {
        PlanSnoc(fibers, instances, pid, HostsOnly(fibers, ids[..n]), ids[n]);
      } else {
        assert HostsOnly(fibers, ids) == HostsOnly(fibers, ids[..n]) + [] == HostsOnly(fibers, ids[..n]);
        assert AppendPlan(fibers, instances, pid, ids) == AppendPlan(fibers, instances, pid, ids[..n]);
      }
    }
  }

  /** `vals` are the instances held by the host fibers `hs`, one for one. */
  ghost predicate Holds(fibers: map<FiberId, FiberNode>, hs: seq<FiberId>, vals: seq<InstanceRef>)
  {
    |vals| == |hs| && forall i | 0 <= i < |hs| :: hs[i] in fibers && fibers[hs[i]].stateNode == HostNode(vals[i])
  }

  ghost predicate AllAdoptable(fibers: map<FiberId, FiberNode>, instances: map<InstanceRef, HostInstance>, pid: JsValue, ids: seq<FiberId>)
  {
    forall i | 0 <= i < |ids| :: Adoptable(fibers, instances, pid, ids[i])
  }

  /**
   * The plan succeeds exactly when every fiber of `ids` is adoptable, and
   * then it appends the instances of the host fibers, in their order.
   */
  lemma {:induction false} PlanAdoptable(fibers: map<FiberId, FiberNode>, instances: map<InstanceRef, HostInstance>, pid: JsValue, ids: seq<FiberId>)
    ensures var plan := AppendPlan(fibers, instances, pid, ids);
            (plan.Ok? <==> AllAdoptable(fibers, instances, pid, ids)) &&
            (plan.Ok? ==> Holds(fibers, HostsOnly(fibers, ids), plan.value))
    decreases |ids|
  {
    if ids != [] {
      var n := |ids| - 1;
      PlanAdoptable(fibers, instances, pid, ids[..n]);
      AllAdoptableSnoc(fibers, instances, pid, ids);
      var prev := AppendPlan(fibers, instances, pid, ids[..n]);
      if ids[n] in fibers && IsHost(fibers[ids[n]]) {
        if prev.Ok? {
          PlanStepAdoptable(fibers, instances, pid, ids[..n], ids[n], prev.value);
        }
        assert HostsOnly(fibers, ids) == HostsOnly(fibers, ids[..n]) + [ids[n]];
      } else {
        assert HostsOnly(fibers, ids) == HostsOnly(fibers, ids[..n]) + [] == HostsOnly(fibers, ids[..n]);
      }
    }
  }

  lemma AllAdoptableSnoc(fibers: map<FiberId, FiberNode>, instances: map<InstanceRef, HostInstance>, pid: JsValue, ids: seq<FiberId>)
    requires ids != []
    ensures AllAdoptable(fibers, instances, pid, ids) <==>
            AllAdoptable(fibers, instances, pid, ids[..|ids| - 1]) && Adoptable(fibers, instances, pid, ids[|ids| - 1])
  {
    var n := |ids| - 1;
    assert forall i | 0 <= i < n :: ids[..n][i] == ids[i];
  }

  /** The step of `PlanAdoptable` at a host fiber after a successful prefix. */
  lemma PlanStepAdoptable(fibers: map<FiberId, FiberNode>, instances: map<InstanceRef, HostInstance>, pid: JsValue,
                          ids: seq<FiberId>, id: FiberId, done: seq<InstanceRef>)
    requires id in fibers && IsHost(fibers[id])
    requires AppendPlan(fibers, instances, pid, ids) == Ok(done)
    requires AllAdoptable(fibers, instances, pid, ids) && Holds(fibers, HostsOnly(fibers, ids), done)
    ensures var step := AppendStep(instances, pid, Ok(done), fibers[id]);
            (step.Ok? <==> Adoptable(fibers, instances, pid, id)) &&
            (step.Ok? ==> Holds(fibers, HostsOnly(fibers, ids) + [id], step.value))
  {
    var f := fibers[id];
    if f.stateNode.HostNode? && f.stateNode.instance in done {
      var hs := HostsOnly(fibers, ids);
      var k :| 0 <= k < |done| && done[k] == f.stateNode.instance;
      HostsAreAmong(fibers, ids, k);
      var j :| 0 <= j < |ids| && ids[j] == hs[k];
      assert Adoptable(fibers, instances, pid, ids[j]);
    }
  }

  /** Each host fiber in the host list of `ids` is one of `ids`. */
  lemma {:induction false} HostsAreAmong(fibers: map<FiberId, FiberNode>, ids: seq<FiberId>, k: nat)
    requires k < |HostsOnly(fibers, ids)|
    ensures exists j | 0 <= j < |ids| :: ids[j] == HostsOnly(fibers, ids)[k]
    decreases |ids|
  {
    var n := |ids| - 1;
    var hs0 := HostsOnly(fibers, ids[..n]);
    if k < |hs0| {
      HostsAreAmong(fibers, ids[..n], k);
      var j :| 0 <= j < n && ids[..n][j] == hs0[k];
      assert ids[j] == HostsOnly(fibers, ids)[k];
    } else {
      assert ids[n] == HostsOnly(fibers, ids)[k];
    }
  }

  /**
   * What `appendAllChildren(parent, wip)` appends: the instances of the host
   * fibers nearest to `wip`, left to right; it fails exactly when one of
   * them holds no instance or its instance already has another parent.
   */
  lemma AppendsTopHosts(fibers: map<FiberId, FiberNode>, instances: map<InstanceRef, HostInstance>, pid: JsValue, t: Tree)
    requires Spans(fibers, t, AtHosts)
    ensures var plan := AppendPlan(fibers, instances, pid, VisitAll(t.kids)); var hs := TopHosts(fibers, t.kids);
            (plan.Ok? <==> forall i | 0 <= i < |hs| :: Adoptable(fibers, instances, pid, hs[i])) &&
            (plan.Ok? ==> |plan.value| == |hs| && forall i | 0 <= i < |hs| :: fibers[hs[i]].stateNode == HostNode(plan.value[i]))
  {
    var hs := TopHosts(fibers, t.kids);
    HostsOnlyTop(fibers, t.kids, AtHosts);
    PlanHostsOnly(fibers, instances, pid, VisitAll(t.kids));
    HostsOnlyOfHosts(fibers, hs);
    PlanAdoptable(fibers, instances, pid, hs);
  }

  // ---------------------------------------------------------------------------------------------
  // completeWork

  /** `current !== null && wip.stateNode`: the fiber was rendered before and holds its host node. */
  predicate Updating(current: Option<FiberNode>, w: FiberNode)
  {
    current.Some? && w.stateNode != NoStateNode
  }

  /** The flags `completeWork` gives a host component before it bubbles: `markUpdate` on update, `markRef` as the path says. */
  function HostComponentFlags(current: Option<FiberNode>, w: FiberNode): (flags: Flags)
    ensures HasFlag(flags, Update) <==> Updating(current, w) || HasFlag(w.flags, Update)
    ensures HasFlag(flags, FiberFlags.Ref) <==>
              (if Updating(current, w) then !ObjectIs(current.value.ref, w.ref) else w.ref != Null) || HasFlag(w.flags, FiberFlags.Ref)
    ensures flags & !(Update | FiberFlags.Ref) == w.flags & !(Update | FiberFlags.Ref)
  {
    if Updating(current, w) then (w.flags | Update) | (if !ObjectIs(current.value.ref, w.ref) then FiberFlags.Ref else NoFlags)
    else w.flags | (if w.ref != Null then FiberFlags.Ref else NoFlags)
  }

  /** The flags `completeWork` gives a host text fiber before it bubbles: `Update` when an update changes the text. */
  function HostTextFlags(current: Option<FiberNode>, w: FiberNode): (flags: Flags)
    ensures HasFlag(flags, Update) <==>
              (Updating(current, w) && !ObjectIs(Get(current.value.memoizedProps, "content"), Get(w.pendingProps, "content"))) ||
              HasFlag(w.flags, Update)
    ensures flags & !Update == w.flags & !Update
  {
    if Updating(current, w) && !ObjectIs(Get(current.value.memoizedProps, "content"), Get(w.pendingProps, "content")) then w.flags | Update
    else w.flags
  }

  /** The top of a tree with distinct nodes is none of its children. */
  lemma TopNotAKid(t: Tree)
    requires Distinct(Visit(t))
    ensures t.id !in Ids(t.kids)
  {
    forall i | 0 <= i < |t.kids| ensures t.kids[i].id != t.id {
      PathExtends(t, [], i);
      assert [] + [i] == [i];
      TopOnlyAtEmptyPath(t, [i]);
    }
  }

  /** Writing `wip`'s own record (its `child` kept) and bubbling: the chain of its children is still there to bubble. */
  method WriteAndBubble(store: FiberStore, wip: FiberId, w: FiberNode, ghost chain: seq<FiberId>)
    requires wip in store.fibers && IsChain(store.fibers, store.fibers[wip].child, chain) && wip !in chain
    requires w.child == store.fibers[wip].child
    modifies store`fibers
    ensures InArena(old(store.fibers), chain)
    ensures store.fibers == Bubbled(old(store.fibers)[wip := w], wip, chain)
  {
    ChainInArena(store.fibers, store.fibers[wip].child, chain);
    ChainAfterWrite(store.fibers, wip, w, w.child, chain);
    store.fibers := store.fibers[wip := w];
    BubbleProperties(store, wip, chain);
  }

  /**
   * The state `completeWork` leaves on a `HostComponent` `wip` whose subtree
   * is `t`, from the arena, the host instances and the instance counter
   * before (`fibers0`, `instances0`, `counter0`).  On update: the flags and
   * the bubbling.  On mount: a new instance numbered `counter0`, the plan of
   * `appendAllChildren` towards it (a failure stops there), then the new
   * `stateNode`, the flags and the bubbling.
   */
  ghost predicate HostComponentDone(fibers0: map<FiberId, FiberNode>, instances0: map<InstanceRef, HostInstance>, counter0: nat,
                                    fibers: map<FiberId, FiberNode>, instances: map<InstanceRef, HostInstance>, counter: nat,
                                    wip: FiberId, t: Tree, r: Result<()>)
    requires wip in fibers0
  {
    var w := fibers0[wip];
    var current := BeginWork.CurrentOf(fibers0, wip);
    InArena(fibers0, Ids(t.kids)) &&
    if Updating(current, w) then
      r.Ok? && counter == counter0 && instances == instances0 &&
      fibers == Bubbled(fibers0[wip := w.(flags := HostComponentFlags(current, w))], wip, Ids(t.kids))
    else
      var inst := counter0;
      var h1 := instances0[inst := Instance(inst, w.elementType, [], NoParent, w.pendingProps)];
      var plan := AppendPlan(fibers0, h1, Num(inst), VisitAll(t.kids));
      counter == inst + 1 && (r.Ok? <==> plan.Ok?) &&
      (r.Err? ==> r.message == plan.message && fibers == fibers0) &&
      (plan.Ok? ==>
         instances == Adopted(h1, inst, Num(inst), plan.value) &&
         fibers == Bubbled(fibers0[wip := w.(stateNode := HostNode(inst), flags := HostComponentFlags(current, w))], wip, Ids(t.kids)))
  }

  /** The state `completeWork` leaves on a `HostText` `wip`: on update the flags, on mount a new text instance in `stateNode`; then the bubbling. */
  ghost predicate HostTextDone(fibers0: map<FiberId, FiberNode>, instances0: map<InstanceRef, HostInstance>, counter0: nat,
                               fibers: map<FiberId, FiberNode>, instances: map<InstanceRef, HostInstance>, counter: nat,
                               wip: FiberId, t: Tree)
    requires wip in fibers0
  {
    var w := fibers0[wip];
    var current := BeginWork.CurrentOf(fibers0, wip);
    InArena(fibers0, Ids(t.kids)) &&
    if Updating(current, w) then
      counter == counter0 && instances == instances0 &&
      fibers == Bubbled(fibers0[wip := w.(flags := HostTextFlags(current, w))], wip, Ids(t.kids))
    else
      counter == counter0 + 1 &&
      instances == instances0[counter0 := TextInstance(Get(w.pendingProps, "content"), counter0, NoParent)] &&
      fibers == Bubbled(fibers0[wip := w.(stateNode := HostNode(counter0))], wip, Ids(t.kids))
  }

  /**
   * The arena `completeWork` leaves on a `SuspenseComponent` `wip`: without
   * a child it fails and changes nothing; otherwise the Offscreen child is
   * completed and `wip` bubbles.
   */
  ghost predicate SuspenseDone(fibers0: map<FiberId, FiberNode>, fibers: map<FiberId, FiberNode>, wip: FiberId, t: Tree, r: Result<()>)
  {
    if t.kids == [] then r == Err(ReadOfUndefined) && fibers == fibers0
    else
      var off := t.kids[0];
      off.id in fibers0 && InArena(fibers0, Ids(off.kids)) &&
      wip in OffscreenCompleted(fibers0, off.id, Ids(off.kids)) &&
      InArena(OffscreenCompleted(fibers0, off.id, Ids(off.kids)), Ids(t.kids)) &&
      r.Ok? && fibers == Bubbled(OffscreenCompleted(fibers0, off.id, Ids(off.kids)), wip, Ids(t.kids))
  }

  /**
   * `completeWork` on a `HostComponent`.  On update it only raises flags;
   * on mount it creates the instance, appends the host children to it and
   * stores it in `stateNode`.  Then it bubbles.
   */
  method CompleteHostComponent(store: FiberStore, host: NoopHost, contexts: FiberContext.ContextStack,
                                handlers: SuspenseContext.SuspenseHandlerStack, wip: FiberId, ghost t: Tree)
    returns (r: Result<()>)
    requires host.Valid() && HostNodesIn(store.fibers, host.instances)
    requires t.id == wip && Spans(store.fibers, t, AtHosts) && Parented(store.fibers, t) && Distinct(Visit(t))
    requires store.fibers[wip].tag == HostComponent
    modifies store`fibers, host`instanceCounter, host`instances, host`containers
    ensures host.Valid() && host.containers == old(host.containers)
    ensures HostComponentDone(old(store.fibers), old(host.instances), old(host.instanceCounter),
                              store.fibers, host.instances, host.instanceCounter, wip, t, r)
  {
    var w := store.fibers[wip];
    var current := BeginWork.CurrentOf(store.fibers, wip);
    ghost var chain := Ids(t.kids);
    TopNotAKid(t);
    if Updating(current, w) {
      WriteAndBubble(store, wip, w.(flags := HostComponentFlags(current, w)), chain);
      return Ok(());
    }
    r := MountHostComponent(store, host, wip, t);
  }

  /** The mount path of `CompleteHostComponent`. */
  method MountHostComponent(store: FiberStore, host: NoopHost, wip: FiberId, ghost t: Tree) returns (r: Result<()>)
    requires host.Valid() && HostNodesIn(store.fibers, host.instances)
    requires t.id == wip && Spans(store.fibers, t, AtHosts) && Parented(store.fibers, t) && Distinct(Visit(t))
    requires !Updating(BeginWork.CurrentOf(store.fibers, wip), store.fibers[wip])
    modifies store`fibers, host`instanceCounter, host`instances, host`containers
    ensures host.Valid() && host.containers == old(host.containers)
    ensures HostComponentDone(old(store.fibers), old(host.instances), old(host.instanceCounter),
                              store.fibers, host.instances, host.instanceCounter, wip, t, r)
  {
    var w := store.fibers[wip];
    var current := BeginWork.CurrentOf(store.fibers, wip);
    TopNotAKid(t);
    ChildOf(store.fibers, t, AtHosts);
    ChainInArena(store.fibers, w.child, Ids(t.kids));
    var inst := host.CreateInstance(w.elementType, w.pendingProps);
    assert HeldByNone(store.fibers, inst);
    r := AppendAllChildren(store, host, inst, wip, t);
    if r.Err? {
      return;
    }
    WriteAndBubble(store, wip, w.(stateNode := HostNode(inst), flags := HostComponentFlags(current, w)), Ids(t.kids));
  }

  /** `completeWork` on a `HostText`: on update it flags a changed text, on mount it creates the text instance; then it bubbles. */
  method CompleteHostText(store: FiberStore, host: NoopHost, contexts: FiberContext.ContextStack,
                           handlers: SuspenseContext.SuspenseHandlerStack, wip: FiberId, ghost t: Tree)
    returns (r: Result<()>)
    requires host.Valid()
    requires t.id == wip && Spans(store.fibers, t, AtHosts) && Distinct(Visit(t))
    requires store.fibers[wip].tag == HostText
    modifies store`fibers, host`instanceCounter, host`instances
    ensures host.Valid() && r.Ok?
    ensures HostTextDone(old(store.fibers), old(host.instances), old(host.instanceCounter),
                         store.fibers, host.instances, host.instanceCounter, wip, t)
  {
    var w := store.fibers[wip];
    var current := BeginWork.CurrentOf(store.fibers, wip);
    TopNotAKid(t);
    if Updating(current, w) {
      WriteAndBubble(store, wip, w.(flags := HostTextFlags(current, w)), Ids(t.kids));
    } else {
      var inst := host.CreateTextInstance(Get(w.pendingProps, "content"));
      WriteAndBubble(store, wip, w.(stateNode := HostNode(inst)), Ids(t.kids));
    }
    r := Ok(());
  }

  /**
   * Whether `completeWork` on a Suspense fiber raises `Visibility` on its
   * Offscreen child `off`: the mode changed since the current tree, or a
   * newly mounted Offscreen starts hidden.
   */
  predicate VisibilityChanges(fibers: map<FiberId, FiberNode>, off: FiberId)
    requires off in fibers
  {
    var isHidden := IsHiddenMode(fibers[off].pendingProps);
    match BeginWork.CurrentOf(fibers, off)
    case Some(c) => isHidden != IsHiddenMode(c.pendingProps)
    case None => isHidden
  }

  /** The first child of a tree with distinct nodes: its own nodes are distinct and do not hold the top. */
  lemma FirstKidDistinct(t: Tree)
    requires Distinct(Visit(t)) && t.kids != []
    ensures Distinct(Visit(t.kids[0])) && t.id !in Visit(t.kids[0])
  {
    var v := Visit(t.kids[0]);
    assert Visit(t) == [t.id] + v + VisitAll(t.kids[1..]);
    forall a, b | 0 <= a < b < |v| ensures v[a] != v[b] {
      assert v[a] == Visit(t)[a + 1] && v[b] == Visit(t)[b + 1];
    }
    forall a | 0 <= a < |v| ensures v[a] != t.id {
      assert v[a] == Visit(t)[a + 1] && t.id == Visit(t)[0];
    }
  }

  /** Bubbling changes no `sibling`, so any sibling chain is still there. */
  lemma BubbledChain(fibers: map<FiberId, FiberNode>, wip: FiberId, chain: seq<FiberId>, first: Option<FiberId>, other: seq<FiberId>)
    requires wip in fibers && InArena(fibers, chain) && IsChain(fibers, first, other)
    ensures IsChain(Bubbled(fibers, wip, chain), first, other)
  {
    ChainFrame(fibers, Bubbled(fibers, wip, chain), first, other);
  }

  /** `offscreenFiber.flags |= Visibility; bubbleProperties(offscreenFiber)` */
  method ShowOrHide(store: FiberStore, off: FiberId, ghost chain: seq<FiberId>)
    requires off in store.fibers && IsChain(store.fibers, store.fibers[off].child, chain) && off !in chain
    modifies store`fibers
    ensures InArena(old(store.fibers), chain)
    ensures store.fibers == Bubbled(old(store.fibers)[off := old(store.fibers[off]).(flags := old(store.fibers[off]).flags | Visibility)], off, chain)
  {
    var o := store.fibers[off];
    WriteAndBubble(store, off, o.(flags := o.flags | Visibility), chain);
  }

  /** The arena after the Offscreen part of `completeWork` on a Suspense fiber whose Offscreen child is `off` with children `chain`. */
  function OffscreenCompleted(fibers: map<FiberId, FiberNode>, off: FiberId, chain: seq<FiberId>): map<FiberId, FiberNode>
    requires off in fibers && InArena(fibers, chain)
  {
    if VisibilityChanges(fibers, off) then Bubbled(fibers[off := fibers[off].(flags := fibers[off].flags | Visibility)], off, chain)
    else fibers
  }

  /** The Offscreen part of `completeWork` on a Suspense fiber `wip`: it leaves `wip` and its children's chain as they are. */
  method CompleteOffscreen(store: FiberStore, wip: FiberId, off: FiberId, ghost o: Tree, ghost chain: seq<FiberId>)
    requires o.id == off && Spans(store.fibers, o, AtHosts) && Distinct(Visit(o)) && wip !in Visit(o)
    requires wip in store.fibers && IsChain(store.fibers, store.fibers[wip].child, chain)
    modifies store`fibers
    ensures InArena(old(store.fibers), Ids(o.kids))
    ensures store.fibers == OffscreenCompleted(old(store.fibers), off, Ids(o.kids))
    ensures wip in store.fibers && store.fibers[wip] == old(store.fibers[wip]) && IsChain(store.fibers, store.fibers[wip].child, chain)
  {
    OffscreenKeeps(store.fibers, wip, off, o, chain);
    if VisibilityChanges(store.fibers, off) {
      ShowOrHide(store, off, Ids(o.kids));
    }
  }

  /** What `CompleteOffscreen` keeps. */
  lemma OffscreenKeeps(f0: map<FiberId, FiberNode>, wip: FiberId, off: FiberId, o: Tree, chain: seq<FiberId>)
    requires o.id == off && Spans(f0, o, AtHosts) && Distinct(Visit(o)) && wip !in Visit(o)
    requires wip in f0 && IsChain(f0, f0[wip].child, chain)
    ensures off in f0 && IsChain(f0, f0[off].child, Ids(o.kids)) && off !in Ids(o.kids) && InArena(f0, Ids(o.kids))
    ensures var f := OffscreenCompleted(f0, off, Ids(o.kids)); wip in f && f[wip] == f0[wip] && IsChain(f, f[wip].child, chain)
  {
    TopNotAKid(o);
    ChainInArena(f0, f0[off].child, Ids(o.kids));
    if VisibilityChanges(f0, off) {
      var f1 := f0[off := f0[off].(flags := f0[off].flags | Visibility)];
      ChainFrame(f0, f1, f0[wip].child, chain);
      BubbledChain(f1, off, Ids(o.kids), f0[wip].child, chain);
      KidsInVisit(o, wip);
      BubbleKeeps(f1, off, Ids(o.kids));
    }
  }

  /** A node outside a tree is none of its children. */
  lemma KidsInVisit(o: Tree, x: FiberId)
    requires x !in Visit(o)
    ensures x !in Ids(o.kids)
  {
    forall i | 0 <= i < |o.kids| ensures o.kids[i].id != x {
      PathExtends(o, [], i);
      assert [] + [i] == [i];
      VisitSplits(o, [i]);
      assert Visit(o)[|Before(o, [i])|] == o.kids[i].id;
    }
  }

  /**
   * `completeWork` on a `SuspenseComponent`: pops the Suspense handler,
   * raises `Visibility` on the Offscreen child when it shows or hides (and
   * bubbles it again), and bubbles the Suspense fiber.  Without a child,
   * reading the Offscreen child's props fails.
   */
  method CompleteSuspense(store: FiberStore, host: NoopHost, contexts: FiberContext.ContextStack,
                           handlers: SuspenseContext.SuspenseHandlerStack, wip: FiberId, ghost t: Tree)
    returns (r: Result<()>)
    requires t.id == wip && Spans(store.fibers, t, AtHosts) && Distinct(Visit(t))
    requires store.fibers[wip].tag == SuspenseComponent
    requires t.kids != [] ==> store.fibers[t.kids[0].id].tag == OffscreenComponent
    modifies store`fibers, handlers
    ensures handlers.handlers == Popped(old(handlers.handlers))
    ensures SuspenseDone(old(store.fibers), store.fibers, wip, t, r)
  {
    handlers.PopSuspenseHandler();
    ChildOf(store.fibers, t, AtHosts);
    var child := store.fibers[wip].child;
    if child.None? {
      return Err(ReadOfUndefined);
    }
    ghost var o := t.kids[0];
    TopNotAKid(t);
    FirstKidDistinct(t);
    assert Below(store.fibers, o, AtHosts);
    CompleteOffscreen(store, wip, child.value, o, Ids(t.kids));
    BubbleProperties(store, wip, Ids(t.kids));
    r := Ok(());
  }

  /** What `popProvider(undefined)` throws: its first statement writes a field of `undefined`. */
  const WriteOfUndefined: string := "TypeError: cannot set properties of undefined"

  /** The state `completeWork` reads and writes, as a value: the arena, the noop host's instances and counter, the context and Suspense stacks. */
  datatype CompleteState = CompleteState(fibers: map<FiberId, FiberNode>, instances: map<InstanceRef, HostInstance>, counter: nat,
                                         contexts: FiberContext.ContextState, handlers: seq<FiberId>)

  function StateOf(store: FiberStore, host: NoopHost, contexts: FiberContext.ContextStack, handlers: SuspenseContext.SuspenseHandlerStack)
    : CompleteState
    reads store`fibers, host`instances, host`instanceCounter, contexts, handlers`handlers
  {
    CompleteState(store.fibers, host.instances, host.instanceCounter, contexts.State(), handlers.handlers)
  }

  /** `popSuspenseHandler()` on the stack `handlers`. */
  function Popped(handlers: seq<FiberId>): seq<FiberId>
  {
    if handlers == [] then [] else handlers[..|handlers| - 1]
  }

  /** What `completeWork(wip)` leaves, by the tag of `wip`, from the state `s0` before, with the subtree `t`. */
  ghost predicate Completed(s0: CompleteState, s: CompleteState, wip: FiberId, t: Tree, r: Result<()>)
    requires wip in s0.fibers
  {
    match s0.fibers[wip].tag
    case HostComponent =>
      HostComponentDone(s0.fibers, s0.instances, s0.counter, s.fibers, s.instances, s.counter, wip, t, r) &&
      s.contexts == s0.contexts && s.handlers == s0.handlers
    case HostText =>
      r.Ok? && HostTextDone(s0.fibers, s0.instances, s0.counter, s.fibers, s.instances, s.counter, wip, t) &&
      s.contexts == s0.contexts && s.handlers == s0.handlers
    case SuspenseComponent =>
      SuspenseDone(s0.fibers, s.fibers, wip, t, r) && s == s0.(fibers := s.fibers, handlers := Popped(s0.handlers))
    case ContextProvider =>
      var context := BeginWork.ContextOf(s0.fibers[wip]);
      if context.None? then r == Err(WriteOfUndefined) && s == s0
      else
        r.Ok? && InArena(s0.fibers, Ids(t.kids)) &&
        s == s0.(fibers := Bubbled(s0.fibers, wip, Ids(t.kids)), contexts := FiberContext.Pop(s0.contexts, context.value))
    case MemoComponent =>
      // no case of the switch names it: nothing happens
      r.Ok? && s == s0
    case _ =>
      r.Ok? && InArena(s0.fibers, Ids(t.kids)) && s == s0.(fibers := Bubbled(s0.fibers, wip, Ids(t.kids)))
  }

  /**
   * `completeWork(wip)`, by tag.  `t` is the subtree under `wip` as a walk
   * that stops at host fibers sees it; the fibers under `wip` point back at
   * their parents, as the completion of each child left them.
   */
  method CompleteWork(store: FiberStore, host: NoopHost, contexts: FiberContext.ContextStack,
                      handlers: SuspenseContext.SuspenseHandlerStack, wip: FiberId, ghost t: Tree)
    returns (r: Result<()>)
    requires host.Valid() && HostNodesIn(store.fibers, host.instances)
    requires t.id == wip && Spans(store.fibers, t, AtHosts) && Parented(store.fibers, t) && Distinct(Visit(t))
    requires store.fibers[wip].tag == SuspenseComponent && t.kids != [] ==> store.fibers[t.kids[0].id].tag == OffscreenComponent
    modifies store`fibers, host`instanceCounter, host`instances, host`containers, contexts, handlers
    ensures host.Valid() && host.containers == old(host.containers)
    ensures Completed(old(StateOf(store, host, contexts, handlers)), StateOf(store, host, contexts, handlers), wip, t, r)
  {
    var w := store.fibers[wip];
    TopNotAKid(t);
    match w.tag {
      case HostComponent =>
        r := CompleteHostComponent(store, host, contexts, handlers, wip, t);
      case HostText =>
        r := CompleteHostText(store, host, contexts, handlers, wip, t);
      case SuspenseComponent =>
        r := CompleteSuspense(store, host, contexts, handlers, wip, t);
      case _ =>
        r := CompleteOther(store, host, contexts, handlers, wip, t);
    }
  }

  /** `completeWork` on the tags that only bubble, on a context provider, and on a tag the switch does not name. */
  method CompleteOther(store: FiberStore, host: NoopHost, contexts: FiberContext.ContextStack,
                       handlers: SuspenseContext.SuspenseHandlerStack, wip: FiberId, ghost t: Tree)
    returns (r: Result<()>)
    requires t.id == wip && Spans(store.fibers, t, AtHosts) && wip !in Ids(t.kids)
    requires store.fibers[wip].tag !in {HostComponent, HostText, SuspenseComponent}
    modifies store`fibers, contexts
    ensures Completed(old(StateOf(store, host, contexts, handlers)), StateOf(store, host, contexts, handlers), wip, t, r)
  {
    var w := store.fibers[wip];
    if w.tag == MemoComponent {
      // no case of the switch names it: nothing happens
      return Ok(());
    }
    if w.tag == ContextProvider {
      var context := BeginWork.ContextOf(w);
      if context.None? {
        return Err(WriteOfUndefined);
      }
      contexts.PopProvider(context.value);
    }
    BubbleProperties(store, wip, Ids(t.kids));
    r := Ok(());
  }

  /**
   * Completing a Suspense fiber raises `Visibility` on its Offscreen child
   * exactly when the child shows or hides (or mounts hidden), and changes
   * no other flag of it.
   */
  lemma SuspenseRaisesVisibility(fibers: map<FiberId, FiberNode>, wip: FiberId, t: Tree, fibers': map<FiberId, FiberNode>, r: Result<()>)
    requires t.id == wip && Spans(fibers, t, AtHosts) && Distinct(Visit(t)) && t.kids != []
    requires SuspenseDone(fibers, fibers', wip, t, r)
    ensures var off := t.kids[0].id;
            off in fibers && off in fibers' &&
            (HasFlag(fibers'[off].flags, Visibility) <==> VisibilityChanges(fibers, off) || HasFlag(fibers[off].flags, Visibility)) &&
            fibers'[off].flags & !Visibility == fibers[off].flags & !Visibility
  {
    var o := t.kids[0];
    TopNotAKid(t);
    assert Ids(t.kids)[0] == o.id;
    OffscreenFlags(fibers, o.id, Ids(o.kids));
    BubbledFlags(OffscreenCompleted(fibers, o.id, Ids(o.kids)), wip, Ids(t.kids), o.id);
  }

  /** The Offscreen part of Suspense completion raises at most `Visibility` on the Offscreen fiber. */
  lemma OffscreenFlags(fibers: map<FiberId, FiberNode>, off: FiberId, chain: seq<FiberId>)
    requires off in fibers && InArena(fibers, chain)
    ensures off in OffscreenCompleted(fibers, off, chain)
    ensures OffscreenCompleted(fibers, off, chain)[off].flags ==
            if VisibilityChanges(fibers, off) then fibers[off].flags | Visibility else fibers[off].flags
  {
    if VisibilityChanges(fibers, off) {
      var f1 := fibers[off := fibers[off].(flags := fibers[off].flags | Visibility)];
      assert Bubbled(f1, off, chain)[off].flags == f1[off].flags;
    }
  }

  /** Bubbling changes no fiber's own flags. */
  lemma BubbledFlags(fibers: map<FiberId, FiberNode>, wip: FiberId, chain: seq<FiberId>, id: FiberId)
    requires wip in fibers && InArena(fibers, chain) && id in fibers
    ensures id in Bubbled(fibers, wip, chain) && Bubbled(fibers, wip, chain)[id].flags == fibers[id].flags
  {
  }

  /**
   * After `completeWork` on a host component, the fiber carries the flags of
   * its rule, and a mounted one holds the instance numbered by the counter
   * it found.
   */
  lemma HostComponentOutcome(fibers0: map<FiberId, FiberNode>, instances0: map<InstanceRef, HostInstance>, counter0: nat,
                             fibers: map<FiberId, FiberNode>, instances: map<InstanceRef, HostInstance>, counter: nat,
                             wip: FiberId, t: Tree, r: Result<()>)
    requires t.id == wip && wip in fibers0 && Distinct(Visit(t))
    requires HostComponentDone(fibers0, instances0, counter0, fibers, instances, counter, wip, t, r) && r.Ok?
    ensures wip in fibers
    ensures var w := fibers0[wip]; var current := BeginWork.CurrentOf(fibers0, wip);
            fibers[wip].flags == HostComponentFlags(current, w) &&
            fibers[wip].stateNode == (if Updating(current, w) then w.stateNode else HostNode(counter0))
  {
    var w := fibers0[wip];
    var current := BeginWork.CurrentOf(fibers0, wip);
    TopNotAKid(t);
    if Updating(current, w) {
      BubbleKeeps(fibers0[wip := w.(flags := HostComponentFlags(current, w))], wip, Ids(t.kids));
    } else {
      BubbleKeeps(fibers0[wip := w.(stateNode := HostNode(counter0), flags := HostComponentFlags(current, w))], wip, Ids(t.kids));
    }
  }

  /** After `completeWork` on a host text fiber, the fiber carries the flags of its rule, and a mounted one holds the new text instance. */
  lemma HostTextOutcome(fibers0: map<FiberId, FiberNode>, instances0: map<InstanceRef, HostInstance>, counter0: nat,
                        fibers: map<FiberId, FiberNode>, instances: map<InstanceRef, HostInstance>, counter: nat,
                        wip: FiberId, t: Tree)
    requires t.id == wip && wip in fibers0 && Distinct(Visit(t))
    requires HostTextDone(fibers0, instances0, counter0, fibers, instances, counter, wip, t)
    ensures wip in fibers
    ensures var w := fibers0[wip]; var current := BeginWork.CurrentOf(fibers0, wip);
            fibers[wip].flags == HostTextFlags(current, w) &&
            fibers[wip].stateNode == (if Updating(current, w) then w.stateNode else HostNode(counter0))
  {
    var w := fibers0[wip];
    var current := BeginWork.CurrentOf(fibers0, wip);
    TopNotAKid(t);
    if Updating(current, w) {
      BubbleKeeps(fibers0[wip := w.(flags := HostTextFlags(current, w))], wip, Ids(t.kids));
    } else {
      BubbleKeeps(fibers0[wip := w.(stateNode := HostNode(counter0))], wip, Ids(t.kids));
    }
  }

  /** The top host fibers are found from kinds alone. */
  lemma {:induction false} TopHostsKept(fibers: map<FiberId, FiberNode>, fibers': map<FiberId, FiberNode>, ts: seq<Tree>)
    requires KeptOn(fibers, fibers', VisitAll(ts)) && forall x | x in VisitAll(ts) :: x in fibers
    ensures TopHosts(fibers', ts) == TopHosts(fibers, ts)
    decreases ts
  {
    if ts != [] {
      var t := ts[0];
      assert Visit(t)[0] == t.id;
      TopHostsKept(fibers, fibers', t.kids);
      TopHostsKept(fibers, fibers', ts[1..]);
    }
  }

  /** The top host fibers are fibers of the walk. */
  lemma {:induction false} TopHostsIn(fibers: map<FiberId, FiberNode>, ts: seq<Tree>)
    ensures forall x | x in TopHosts(fibers, ts) :: x in VisitAll(ts)
    decreases ts
  {
    if ts != [] {
      TopHostsIn(fibers, ts[0].kids);
      TopHostsIn(fibers, ts[1..]);
      assert Visit(ts[0])[0] == ts[0].id;
    }
  }
}
