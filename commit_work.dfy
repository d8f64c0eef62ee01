/**
 * The commit phase: the walk over the finished tree that applies each
 * fiber's flags to the host, the host parent and host sibling searches,
 * placement and deletion, and the walks over a function component's
 * circular effect list.
 *
 * What the phase does outside the fiber arena is recorded, in order, in a
 * `Trace`: the host operations it performs (whose effect on the noop host's
 * state the host's own contracts state) and the user code it calls (refs,
 * effect callbacks), which is not part of this model.
 */
module CommitWork {
  import opened Wrappers
  import opened Js
  import opened FiberFlags
  import opened WorkTags
  import opened HostTypes
  import opened Fiber
  import opened FiberTree
  import opened HostConfig
  import HookEffectTags
  import Hooks
  import FiberHooks
  import CompleteWork

  /** A call the commit phase makes to user code, or to a host operation the noop host does not define. */
  datatype Event =
    | Hidden(instance: StateNode)
    | Unhidden(instance: StateNode)
    | TextHidden(instance: StateNode)
    | TextUnhidden(instance: StateNode, content: JsValue)
    /** `ref(value)` */
    | RefCalled(ref: JsValue, value: StateNode)
    /** `ref.current = value` */
    | RefSet(ref: JsValue, value: StateNode)
    | DestroyCalled(destroy: JsValue)
    | CreateCalled(create: JsValue)

  class Trace {
    var events: seq<Event>

    constructor ()
      ensures events == []
    {
      events := [];
    }
  }

  // ---------------------------------------------------------------------
  // Effect lists

  /** The callbacks `commitHookEffectList` runs: the Unmount, Destroy and Create variants. */
  datatype EffectListKind = UnmountEffects | DestroyEffects | CreateEffects

  /** `(effect.tag & flags) === flags` */
  predicate Selected(e: Hooks.Effect, flags: Flags)
  {
    e.tag & flags == flags
  }

  /** The user code the callback calls for a selected effect: its `destroy`, or its `create`, when that is a function. */
  function EffectCalls(kind: EffectListKind, e: Hooks.Effect): seq<Event>
  {
    match kind
    case CreateEffects => if e.create.Fn? then [CreateCalled(e.create)] else []
    case _ => if e.destroy.Fn? then [DestroyCalled(e.destroy)] else []
  }

  /**
   * A selected effect after its callback: Unmount clears `HookHasEffect`,
   * Create stores what `create()` returned (`created`, user code) as `destroy`.
   */
  function EffectAfterCallback(kind: EffectListKind, e: Hooks.Effect, created: JsValue -> JsValue): (r: Hooks.Effect)
    ensures r.next == e.next && r.create == e.create && r.deps == e.deps
  {
    match kind
    case UnmountEffects => e.(tag := e.tag & !HookEffectTags.HookHasEffect)
    case DestroyEffects => e
    case CreateEffects => if e.create.Fn? then e.(destroy := created(e.create)) else e
  }

  /** The calls made for the effects `ids`, in order. */
  ghost function ListCalls(effects: map<EffectId, Hooks.Effect>, ids: seq<EffectId>, kind: EffectListKind, flags: Flags): seq<Event>
    requires forall i | 0 <= i < |ids| :: ids[i] in effects
    decreases |ids|
  {
    if ids == [] then []
    else
      var n := |ids| - 1;
      ListCalls(effects, ids[..n], kind, flags) + (if Selected(effects[ids[n]], flags) then EffectCalls(kind, effects[ids[n]]) else [])
  }

  /** Every effect of `ring` that is selected has had its callback; the others are as they were. */
  ghost function EffectsAfterList(effects: map<EffectId, Hooks.Effect>, ring: seq<EffectId>, kind: EffectListKind, flags: Flags,
                                  created: JsValue -> JsValue): (r: map<EffectId, Hooks.Effect>)
    ensures r.Keys == effects.Keys
  {
    map x | x in effects :: if x in ring && Selected(effects[x], flags) then EffectAfterCallback(kind, effects[x], created) else effects[x]
  }

  /**
   * `commitHookEffectList(flags, lastEffect, callback)` with the callback of
   * `kind`: from `lastEffect.next` once round the ring.
   */
  method CommitHookEffectList(hooks: FiberHooks.HooksState, trace: Trace, kind: EffectListKind, flags: Flags, lastEffect: EffectId,
                              ghost ring: seq<EffectId>, created: JsValue -> JsValue)
    requires Hooks.EffectRing(hooks.effects, lastEffect, ring)
    modifies hooks`effects, trace`events
    ensures hooks.effects == EffectsAfterList(old(hooks.effects), ring, kind, flags, created)
    ensures trace.events == old(trace.events) + ListCalls(old(hooks.effects), ring, kind, flags)
    ensures Hooks.EffectRing(hooks.effects, lastEffect, ring)
  {
    ghost var effects0 := hooks.effects;
    ghost var events0 := trace.events;
    var effect := hooks.effects[lastEffect].next.value;
    ghost var i := 0;
    var finished := false;
    while !finished
      invariant 0 <= i <= |ring| && (i < |ring| <==> !finished)
      invariant !finished ==> effect == ring[i]
      invariant ListVisited(hooks.effects, trace.events, effects0, events0, lastEffect, ring, i, kind, flags, created)
      decreases |ring| - i
    {
      effect := VisitEffect(hooks, trace, kind, flags, lastEffect, effect, ring, i, effects0, events0, created);
      i := i + 1;
      finished := effect == hooks.effects[lastEffect].next.value;
    }
    assert ring[..i] == ring;
    ListKeepsRing(effects0, lastEffect, ring, kind, flags, created);
  }

  /** The first `i` effects of the ring have had their callbacks, in order. */
  ghost predicate ListVisited(effects: map<EffectId, Hooks.Effect>, events: seq<Event>,
                              effects0: map<EffectId, Hooks.Effect>, events0: seq<Event>, last: EffectId, ring: seq<EffectId>, i: nat,
                              kind: EffectListKind, flags: Flags, created: JsValue -> JsValue)
  {
    Hooks.EffectRing(effects0, last, ring) && i <= |ring| &&
    effects == EffectsAfterList(effects0, ring[..i], kind, flags, created) &&
    events == events0 + ListCalls(effects0, ring[..i], kind, flags)
  }

  /** One round of the loop of `commitHookEffectList`: the callback on the `i`-th effect, then on to the next one. */
  method VisitEffect(hooks: FiberHooks.HooksState, trace: Trace, kind: EffectListKind, flags: Flags, lastEffect: EffectId,
                     effect: EffectId, ghost ring: seq<EffectId>, ghost i: nat,
                     ghost effects0: map<EffectId, Hooks.Effect>, ghost events0: seq<Event>, created: JsValue -> JsValue)
    returns (next: EffectId)
    requires i < |ring| && effect == ring[i]
    requires ListVisited(hooks.effects, trace.events, effects0, events0, lastEffect, ring, i, kind, flags, created)
    modifies hooks`effects, trace`events
    ensures ListVisited(hooks.effects, trace.events, effects0, events0, lastEffect, ring, i + 1, kind, flags, created)
    ensures next == if i + 1 < |ring| then ring[i + 1] else ring[0]
    ensures i + 1 < |ring| ==> ring[i + 1] != ring[0]
    ensures lastEffect in hooks.effects && hooks.effects[lastEffect].next == Some(ring[0])
  {
    assert ring[i] !in ring[..i];
    ghost var calls := trace.events;
    assert hooks.effects[effect] == effects0[effect];
    RunEffectCallback(hooks, trace, kind, flags, effect, created);
    ListStep(effects0, hooks.effects, ring, i, kind, flags, created);
    CallsStep(effects0, ring, i, kind, flags, trace.events, calls, events0);
    RingNext(effects0, hooks.effects, lastEffect, ring, i);
    next := hooks.effects[effect].next.value;
  }

  /** Links kept, the ring goes on from its `i`-th effect to the next, and comes back to its first only after its last. */
  lemma RingNext(effects0: map<EffectId, Hooks.Effect>, effects: map<EffectId, Hooks.Effect>, last: EffectId, ring: seq<EffectId>, i: nat)
    requires Hooks.EffectRing(effects0, last, ring) && i < |ring|
    requires forall j | 0 <= j < |ring| :: ring[j] in effects && effects[ring[j]].next == effects0[ring[j]].next
    ensures ring[i] in effects && last in effects && effects[ring[i]].next.Some? && effects[last].next == Some(ring[0])
    ensures effects[ring[i]].next.value == if i + 1 < |ring| then ring[i + 1] else ring[0]
    ensures i + 1 < |ring| ==> ring[i + 1] != ring[0]
  {
    assert ring[|ring| - 1] == last;
    if i + 1 < |ring| {
      assert effects0[ring[i]].next == Some(ring[i + 1]);
    }
  }

  /** The callback of `kind` on one effect, when the effect is selected. */
  method RunEffectCallback(hooks: FiberHooks.HooksState, trace: Trace, kind: EffectListKind, flags: Flags, effect: EffectId,
                           created: JsValue -> JsValue)
    requires effect in hooks.effects
    modifies hooks`effects, trace`events
    ensures hooks.effects == if Selected(old(hooks.effects[effect]), flags)
                             then old(hooks.effects)[effect := EffectAfterCallback(kind, old(hooks.effects[effect]), created)]
                             else old(hooks.effects)
    ensures trace.events == old(trace.events) + if Selected(old(hooks.effects[effect]), flags) then EffectCalls(kind, old(hooks.effects[effect])) else []
  {
    var e := hooks.effects[effect];
    if Selected(e, flags) {
      var calls := EffectCalls(kind, e);
      var e' := EffectAfterCallback(kind, e, created);
      trace.events := trace.events + calls;
      hooks.effects := hooks.effects[effect := e'];
    }
  }

  /** One more effect of the ring visited. */
  lemma ListStep(effects0: map<EffectId, Hooks.Effect>, effects: map<EffectId, Hooks.Effect>, ring: seq<EffectId>, i: nat,
                 kind: EffectListKind, flags: Flags, created: JsValue -> JsValue)
    requires i < |ring| && (forall j | 0 <= j < |ring| :: ring[j] in effects0) && ring[i] !in ring[..i]
    requires var before := EffectsAfterList(effects0, ring[..i], kind, flags, created);
             effects == if Selected(effects0[ring[i]], flags) then before[ring[i] := EffectAfterCallback(kind, effects0[ring[i]], created)] else before
    ensures effects == EffectsAfterList(effects0, ring[..i + 1], kind, flags, created)
    ensures effects[ring[i]].next == effects0[ring[i]].next
    ensures forall j | 0 <= j < |ring| :: effects[ring[j]].next == effects0[ring[j]].next
  {
    var after := EffectsAfterList(effects0, ring[..i + 1], kind, flags, created);
    forall x | x in effects0
      ensures x in effects && effects[x] == after[x]
    {
      assert x in ring[..i + 1] <==> x in ring[..i] || x == ring[i];
    }
  }

  lemma CallsStep(effects0: map<EffectId, Hooks.Effect>, ring: seq<EffectId>, i: nat, kind: EffectListKind, flags: Flags,
                  events: seq<Event>, calls: seq<Event>, events0: seq<Event>)
    requires i < |ring| && (forall j | 0 <= j < |ring| :: ring[j] in effects0)
    requires calls == events0 + ListCalls(effects0, ring[..i], kind, flags)
    requires events == calls + if Selected(effects0[ring[i]], flags) then EffectCalls(kind, effects0[ring[i]]) else []
    ensures events == events0 + ListCalls(effects0, ring[..i + 1], kind, flags)
  {
    assert ring[..i + 1][..i] == ring[..i];
  }

  /** The callbacks leave the links of the ring alone. */
  lemma ListKeepsRing(effects: map<EffectId, Hooks.Effect>, last: EffectId, ring: seq<EffectId>, kind: EffectListKind, flags: Flags,
                      created: JsValue -> JsValue)
    requires Hooks.EffectRing(effects, last, ring)
    ensures Hooks.EffectRing(EffectsAfterList(effects, ring, kind, flags, created), last, ring)
  {
  }

  /** Effects none of which is selected make no calls. */
  lemma {:induction false} NoneSelectedNoCalls(effects: map<EffectId, Hooks.Effect>, ids: seq<EffectId>, kind: EffectListKind, flags: Flags)
    requires forall i | 0 <= i < |ids| :: ids[i] in effects && !Selected(effects[ids[i]], flags)
    ensures ListCalls(effects, ids, kind, flags) == []
    decreases |ids|
  {
    if ids != [] {
      NoneSelectedNoCalls(effects, ids[..|ids| - 1], kind, flags);
    }
  }

  /**
   * Unmounting with flags that include `HookHasEffect` disarms the effects
   * it ran: walking the ring again with the same flags, whatever the
   * callback, calls nothing.
   */
  lemma UnmountDisarms(effects: map<EffectId, Hooks.Effect>, last: EffectId, ring: seq<EffectId>, flags: Flags,
                       created: JsValue -> JsValue, kind: EffectListKind)
    requires Hooks.EffectRing(effects, last, ring) && HasFlag(flags, HookEffectTags.HookHasEffect)
    ensures ListCalls(EffectsAfterList(effects, ring, UnmountEffects, flags, created), ring, kind, flags) == []
  {
    var after := EffectsAfterList(effects, ring, UnmountEffects, flags, created);
    forall i | 0 <= i < |ring|
      ensures ring[i] in after && !Selected(after[ring[i]], flags)
    {
      var t := effects[ring[i]].tag;
      assert (t & !HookEffectTags.HookHasEffect) & flags != flags;
    }
    NoneSelectedNoCalls(after, ring, kind, flags);
  }

  /**
   * What a Create walk leaves behind is what the next Destroy walk calls:
   * each selected effect's `destroy` is now the value its `create` returned.
   */
  lemma CreateThenDestroy(effects: map<EffectId, Hooks.Effect>, last: EffectId, ring: seq<EffectId>, flags: Flags,
                          created: JsValue -> JsValue, i: nat)
    requires Hooks.EffectRing(effects, last, ring) && i < |ring|
    requires Selected(effects[ring[i]], flags) && effects[ring[i]].create.Fn?
    ensures var after := EffectsAfterList(effects, ring, CreateEffects, flags, created);
            Selected(after[ring[i]], flags) &&
            EffectCalls(DestroyEffects, after[ring[i]]) == if created(effects[ring[i]].create).Fn? then [DestroyCalled(created(effects[ring[i]].create))] else []
  {
  }

  // ---------------------------------------------------------------------
  // Passive effects

  /** The arrays of `root.pendingPassiveEffects`. */
  datatype PassiveKind = UnmountPassive | UpdatePassive

  /**
   * `commitPassiveEffect` collects the effect list of function components
   * only, and for 'update' only of those flagged `PassiveEffect`, and only
   * when they have an update queue.
   */
  predicate CollectsPassive(f: FiberNode, kind: PassiveKind)
  {
    f.tag == FunctionComponent && (kind == UnmountPassive || HasFlag(f.flags, PassiveEffect)) && f.updateQueue != NoQueue
  }

  /** `updateQueue.lastEffect`: an effect queue's newest effect, and nothing for any other queue. */
  function LastEffectOf(q: FiberQueue): Option<EffectId>
  {
    if q.EffectQueue? then q.lastEffect else None
  }

  /** `commitPassiveEffect(fiber, root, type)` */
  method CommitPassiveEffect(root: FiberRootNode, f: FiberNode, kind: PassiveKind)
    modifies root`pendingPassiveEffects
    ensures CollectsPassive(f, kind) && kind == UnmountPassive ==>
              root.pendingPassiveEffects == old(root.pendingPassiveEffects).(unmount := old(root.pendingPassiveEffects.unmount) + [LastEffectOf(f.updateQueue)])
    ensures CollectsPassive(f, kind) && kind == UpdatePassive ==>
              root.pendingPassiveEffects == old(root.pendingPassiveEffects).(update := old(root.pendingPassiveEffects.update) + [LastEffectOf(f.updateQueue)])
    ensures !CollectsPassive(f, kind) ==> root.pendingPassiveEffects == old(root.pendingPassiveEffects)
  {
    if f.tag != FunctionComponent || (kind == UpdatePassive && f.flags & PassiveEffect == NoFlags) {
      return;
    }
    if f.updateQueue != NoQueue {
      var last := LastEffectOf(f.updateQueue);
      var pending := root.pendingPassiveEffects;
      root.pendingPassiveEffects := match kind
        case UnmountPassive => pending.(unmount := pending.unmount + [last])
        case UpdatePassive => pending.(update := pending.update + [last]);
    }
  }

  // ---------------------------------------------------------------------
  // Refs

  const CannotSetCurrent: string := "TypeError: Cannot set property 'current' of a primitive value"

  /**
   * Handing `value` to a ref: nothing for `null`, a call for a function, an
   * assignment to `current` for an object; assigning a property of any other
   * value throws (the modules are strict).
   */
  function RefWrite(ref: JsValue, value: StateNode): (r: Result<seq<Event>>)
    ensures r.Err? <==> !(ref.Null? || ref.Fn? || IsObject(ref))
    ensures r.Ok? && ref.Null? ==> r.value == []
    ensures r.Ok? && !ref.Null? ==> r.value == [if ref.Fn? then RefCalled(ref, value) else RefSet(ref, value)]
  {
    if ref.Null? then Ok([])
    else if ref.Fn? then Ok([RefCalled(ref, value)])
    else if IsObject(ref) then Ok([RefSet(ref, value)])
    else Err(CannotSetCurrent)
  }

  /** `safelyAttachRef(fiber)`: the ref gets the fiber's `stateNode`. */
  method SafelyAttachRef(trace: Trace, f: FiberNode) returns (r: Result<()>)
    modifies trace`events
    ensures r.Ok? <==> RefWrite(f.ref, f.stateNode).Ok?
    ensures r.Ok? ==> trace.events == old(trace.events) + RefWrite(f.ref, f.stateNode).value
    ensures r.Err? ==> trace.events == old(trace.events) && r.message == CannotSetCurrent
  {
    r := WriteRef(trace, f.ref, f.stateNode);
  }

  /** `safelyDetachRef(current)`: the ref gets `null`. */
  method SafelyDetachRef(trace: Trace, f: FiberNode) returns (r: Result<()>)
    modifies trace`events
    ensures r.Ok? <==> RefWrite(f.ref, NoStateNode).Ok?
    ensures r.Ok? ==> trace.events == old(trace.events) + RefWrite(f.ref, NoStateNode).value
    ensures r.Err? ==> trace.events == old(trace.events) && r.message == CannotSetCurrent
  {
    r := WriteRef(trace, f.ref, NoStateNode);
  }

  method WriteRef(trace: Trace, ref: JsValue, value: StateNode) returns (r: Result<()>)
    modifies trace`events
    ensures r.Ok? <==> RefWrite(ref, value).Ok?
    ensures r.Ok? ==> trace.events == old(trace.events) + RefWrite(ref, value).value
    ensures r.Err? ==> trace.events == old(trace.events) && r.message == CannotSetCurrent
  {
    if ref.Null? {
      return Ok(());
    }
    if ref.Fn? {
      trace.events := trace.events + [RefCalled(ref, value)];
    } else if IsObject(ref) {
      trace.events := trace.events + [RefSet(ref, value)];
    } else {
      return Err(CannotSetCurrent);
    }
    r := Ok(());
  }

  // ---------------------------------------------------------------------
  // Host parent

  /** A fiber `getHostParent` stops at. */
  predicate HostParentTag(f: FiberNode)
  {
    f.tag == HostComponent || f.tag == HostRoot
  }

  /** Host fibers hold their instance and host root fibers their root, as completeWork and createContainer leave them. */
  predicate Shaped(f: FiberNode)
  {
    (IsHost(f) ==> f.stateNode.HostNode?) && (f.tag == HostRoot ==> f.stateNode.RootNode?)
  }

  /** Every fiber of `t` is `Shaped`. */
  ghost predicate ShapedTree(fibers: map<FiberId, FiberNode>, t: Tree)
    decreases t
  {
    t.id in fibers && Shaped(fibers[t.id]) && forall i | 0 <= i < |t.kids| :: ShapedTree(fibers, t.kids[i])
  }

  lemma {:induction false} ShapedAt(fibers: map<FiberId, FiberNode>, t: Tree, p: seq<nat>)
    requires ShapedTree(fibers, t) && ValidPath(t, p)
    ensures ShapedTree(fibers, Sub(t, p)) && Sub(t, p).id in fibers && Shaped(fibers[Sub(t, p).id])
    decreases p
  {
    if p != [] {
      ShapedAt(fibers, t.kids[p[0]], p[1..]);
    }
  }

  ghost predicate ShapedAll(fibers: map<FiberId, FiberNode>, ids: seq<FiberId>)
  {
    forall i | 0 <= i < |ids| :: ids[i] in fibers && Shaped(fibers[ids[i]])
  }

  /** The host node a HostComponent or HostRoot fiber stands for: its instance, or its root's container. */
  function HostParentNode(f: FiberNode): HostParent
    requires HostParentTag(f) && Shaped(f)
  {
    if f.tag == HostComponent then InstanceParent(f.stateNode.instance) else ContainerParent(f.stateNode.root.container)
  }

  /** `chain[k]` is the first HostComponent or HostRoot fiber of `chain`. */
  ghost predicate FirstHostParent(fibers: map<FiberId, FiberNode>, chain: seq<FiberId>, k: nat)
  {
    k < |chain| && (forall i | 0 <= i < |chain| :: chain[i] in fibers) &&
    HostParentTag(fibers[chain[k]]) && forall i | 0 <= i < k :: !HostParentTag(fibers[chain[i]])
  }

  /** The host node of the first HostComponent or HostRoot fiber of `chain`. */
  ghost function HostParentIn(fibers: map<FiberId, FiberNode>, chain: seq<FiberId>): Option<HostParent>
    requires ShapedAll(fibers, chain)
    decreases |chain|
  {
    if chain == [] then None
    else if HostParentTag(fibers[chain[0]]) then Some(HostParentNode(fibers[chain[0]]))
    else
      assert ShapedAll(fibers, chain[1..]) by {
        assert forall i | 0 <= i < |chain[1..]| :: chain[1..][i] == chain[i + 1];
      }
      HostParentIn(fibers, chain[1..])
  }

  /**
   * `getHostParent(fiber)`: the host node of the nearest HostComponent or
   * HostRoot ancestor, or `null` when no ancestor is one.
   */
  method GetHostParent(store: FiberStore, fiber: FiberId, ghost chain: seq<FiberId>) returns (parent: Option<HostParent>)
    requires fiber in store.fibers && ReturnChain(store.fibers, store.fibers[fiber].ret, chain) && ShapedAll(store.fibers, chain)
    ensures parent.None? <==> forall i | 0 <= i < |chain| :: !HostParentTag(store.fibers[chain[i]])
    ensures forall k: nat | FirstHostParent(store.fibers, chain, k) :: parent == Some(HostParentNode(store.fibers[chain[k]]))
    ensures parent == HostParentIn(store.fibers, chain)
  {
    var p := store.fibers[fiber].ret;
    ghost var i := 0;
    while p.Some?
      invariant 0 <= i <= |chain| && ReturnChain(store.fibers, p, chain[i..])
      invariant forall j | 0 <= j < i :: !HostParentTag(store.fibers[chain[j]])
      invariant ShapedAll(store.fibers, chain[i..]) && HostParentIn(store.fibers, chain[i..]) == HostParentIn(store.fibers, chain)
      decreases |chain| - i
    {
      ReturnChainFacts(store.fibers, p, chain[i..], 0);
      var f := store.fibers[p.value];
      assert f == store.fibers[chain[i]] && Shaped(f);
      if f.tag == HostComponent || f.tag == HostRoot {
        assert FirstHostParent(store.fibers, chain, i);
        forall k: nat | FirstHostParent(store.fibers, chain, k)
          ensures k == i
        {
        }
        parent := Some(HostParentNode(f));
        return;
      }
      assert chain[i..][1..] == chain[i + 1..];
      p := f.ret;
      i := i + 1;
    }
    parent := None;
  }

  // ---------------------------------------------------------------------
  // Host sibling

  /**
   * `x.return = parent`, which the walks below perform on fibers whose
   * `return` already is `parent`: in a tree whose nodes point back at their
   * parents the write changes nothing.
   */
  method SetReturn(store: FiberStore, x: FiberId, parent: Option<FiberId>)
    requires x in store.fibers && store.fibers[x].ret == parent
    modifies store`fibers
    ensures store.fibers == old(store.fibers)
  {
    store.fibers := store.fibers[x := store.fibers[x].(ret := parent)];
    assert store.fibers[x] == old(store.fibers[x]);
  }

  /** A fiber `getHostSibling` returns the instance of: a host fiber not being placed. */
  predicate HostToReturn(fibers: map<FiberId, FiberNode>, id: FiberId)
  {
    id in fibers && IsHost(fibers[id]) && !HasFlag(fibers[id].flags, Placement)
  }

  /** A fiber the descent of `getHostSibling` goes below: not a host, not being placed, with a child. */
  predicate GoesDown(fibers: map<FiberId, FiberNode>, id: FiberId)
  {
    id in fibers && !IsHost(fibers[id]) && !HasFlag(fibers[id].flags, Placement) && fibers[id].child.Some?
  }

  /** Where the search for a host sibling ends up going down from a node: at a host it returns, or at a node it goes on from. */
  datatype Probe = Found(at: seq<nat>) | Skip(at: seq<nat>)
  {
    /** The same outcome, its path read from `x` further up. */
    function Under(x: seq<nat>): (r: Probe)
      ensures r.Found? == Found? && r.at == x + at
    {
      if Found? then Found(x + at) else Skip(x + at)
    }
  }

  /**
   * The inner loop of `getHostSibling`, from the node at the top of `s`, as
   * a path relative to it: a host fiber is the answer unless it is being
   * placed; a non-host fiber being placed, or one without children, sends
   * the search on from there; any other goes down to its first child.
   */
  ghost function DescendFrom(fibers: map<FiberId, FiberNode>, s: Tree): (r: Probe)
    requires Spans(fibers, s, Nowhere)
    ensures ValidPath(s, r.at)
    ensures r.Found? ==> HostToReturn(fibers, Sub(s, r.at).id)
    decreases s
  {
    var f := fibers[s.id];
    if IsHost(f) then (if HasFlag(f.flags, Placement) then Skip([]) else Found([]))
    else if HasFlag(f.flags, Placement) || s.kids == [] then Skip([])
    else
      assert Below(fibers, s.kids[0], Nowhere);
      var d := DescendFrom(fibers, s.kids[0]);
      assert ([0] + d.at)[1..] == d.at;
      d.Under([0])
  }

  /** Going down from the node at `x`, with the path that ends it taken from the top. */
  ghost function DescendAt(fibers: map<FiberId, FiberNode>, t: Tree, x: seq<nat>): (r: Probe)
    requires Spans(fibers, t, Nowhere) && ValidPath(t, x)
    ensures ValidPath(t, r.at) && |Before(t, r.at)| >= |Before(t, x)|
    ensures r.Found? ==> HostToReturn(fibers, Sub(t, r.at).id)
  {
    SubSpans(fibers, t, x);
    var d := DescendFrom(fibers, Sub(t, x));
    PathConcat(t, x, d.at);
    d.Under(x)
  }

  /**
   * The climbing loop of `getHostSibling` from the node at `p`: up through
   * parents that are neither HostRoot nor HostComponent fibers until a node
   * has a next sibling, whose path it returns; nothing once it meets such a
   * parent, or the top.
   */
  ghost function Climb(fibers: map<FiberId, FiberNode>, t: Tree, p: seq<nat>): (r: Option<seq<nat>>)
    requires Spans(fibers, t, Nowhere) && ValidPath(t, p)
    ensures r.Some? ==> ValidPath(t, r.value) && |Before(t, r.value)| == End(t, p)
    decreases |p|
  {
    if p == [] then None
    else
      var q, i := p[..|p| - 1], p[|p| - 1];
      assert p == q + [i];
      PathParent(t, q, i);
      SubSpans(fibers, t, q);
      if i + 1 < |Sub(t, q).kids| then
        PreAcross(t, q, i);
        Some(q + [i + 1])
      else if HostParentTag(fibers[Sub(t, q).id]) then None
      else
        StepUp(t, q, i);
        Climb(fibers, t, q)
  }

  /**
   * The search of `getHostSibling` from the node at `p`: climb to the next
   * sibling, go down from it, and go on from where that stops unless a
   * host was found.  Each round starts after the subtree the previous one
   * started at, so the search ends.
   */
  ghost function Search(fibers: map<FiberId, FiberNode>, t: Tree, p: seq<nat>): (r: Option<seq<nat>>)
    requires Spans(fibers, t, Nowhere) && ValidPath(t, p)
    ensures r.Some? ==> ValidPath(t, r.value) && HostToReturn(fibers, Sub(t, r.value).id)
    ensures r.Some? ==> |Before(t, r.value)| >= End(t, p)
    decreases |Visit(t)| - End(t, p)
  {
    match Climb(fibers, t, p)
    case None => None
    case Some(x) =>
      var d := DescendAt(fibers, t, x);
      NodeInVisit(t, d.at);
      NodeInVisit(t, p);
      if d.Found? then Some(d.at)
      else Search(fibers, t, d.at)
  }

  /** `getHostSibling` returns the instance of the host fiber the search finds, or `null`. */
  ghost function HostSiblingOf(fibers: map<FiberId, FiberNode>, t: Tree, p: seq<nat>): Option<InstanceRef>
    requires Spans(fibers, t, Nowhere) && ValidPath(t, p) && ShapedTree(fibers, t)
  {
    match Search(fibers, t, p)
    case None => None
    case Some(y) =>
      ShapedAt(fibers, t, y);
      Some(fibers[Sub(t, y).id].stateNode.instance)
  }

  /** The whole finished tree, as the commit phase sees it: every fiber spanned, parented and met once, the top a root without siblings. */
  ghost predicate WholeTree(fibers: map<FiberId, FiberNode>, t: Tree)
  {
    Spans(fibers, t, Nowhere) && Parented(fibers, t) && ChildFibers.Distinct(Visit(t)) &&
    fibers[t.id].ret.None? && fibers[t.id].sibling.None? && ShapedTree(fibers, t)
  }

  /** Where the links of the node at `p` lead: its `sibling` is the next child of its parent and its `return` the parent. */
  lemma Neighbours(fibers: map<FiberId, FiberNode>, t: Tree, p: seq<nat>)
    requires WholeTree(fibers, t) && ValidPath(t, p)
    ensures Sub(t, p).id in fibers
    ensures p == [] ==> fibers[Sub(t, p).id].sibling.None? && fibers[Sub(t, p).id].ret.None?
    ensures p != [] ==>
              var q, i := p[..|p| - 1], p[|p| - 1];
              ValidPath(t, q) && i < |Sub(t, q).kids| && Sub(t, q).id in fibers &&
              fibers[Sub(t, p).id].ret == Some(Sub(t, q).id) &&
              fibers[Sub(t, p).id].sibling == (if i + 1 < |Sub(t, q).kids| then Some(Sub(t, q).kids[i + 1].id) else None) &&
              (i + 1 < |Sub(t, q).kids| ==>
                 (ValidPath(t, q + [i + 1]) && Sub(t, q + [i + 1]) == Sub(t, q).kids[i + 1] &&
                  Sub(t, q + [i + 1]).id in fibers && fibers[Sub(t, q + [i + 1]).id].ret == Some(Sub(t, q).id)))
  {
    SubSpans(fibers, t, p);
    if p != [] {
      var q, i := p[..|p| - 1], p[|p| - 1];
      assert p == q + [i];
      StepOut(fibers, t, Nowhere, q, i);
      SubSpans(fibers, t, q);
      if i + 1 < |Sub(t, q).kids| {
        StepAcross(fibers, t, q, i);
      }
    }
  }

  /** Going down one level keeps where the descent ends. */
  lemma DescendStep(fibers: map<FiberId, FiberNode>, t: Tree, at: seq<nat>)
    requires Spans(fibers, t, Nowhere) && Parented(fibers, t) && ValidPath(t, at)
    requires GoesDown(fibers, Sub(t, at).id)
    ensures ValidPath(t, at + [0]) && Sub(t, at).kids != [] && Sub(t, at + [0]) == Sub(t, at).kids[0]
    ensures fibers[Sub(t, at).id].child == Some(Sub(t, at + [0]).id)
    ensures Sub(t, at + [0]).id in fibers && fibers[Sub(t, at + [0]).id].ret == Some(Sub(t, at).id)
    ensures DescendAt(fibers, t, at) == DescendAt(fibers, t, at + [0])
  {
    SubSpans(fibers, t, at);
    StepDown(fibers, t, Nowhere, at);
    DescendThroughChild(fibers, t, at);
  }

  lemma DescendThroughChild(fibers: map<FiberId, FiberNode>, t: Tree, at: seq<nat>)
    requires Spans(fibers, t, Nowhere) && ValidPath(t, at) && GoesDown(fibers, Sub(t, at).id)
    requires Sub(t, at).kids != [] && ValidPath(t, at + [0]) && Sub(t, at + [0]) == Sub(t, at).kids[0]
    ensures DescendAt(fibers, t, at) == DescendAt(fibers, t, at + [0])
  {
    var s := Sub(t, at);
    SubSpans(fibers, t, at);
    var d := DescendFrom(fibers, s.kids[0]);
    DescendFromFirst(fibers, s);
    UnderUnder(d, at, [0]);
  }

  /** From a node that goes down, the descent is the one from its first child. */
  lemma DescendFromFirst(fibers: map<FiberId, FiberNode>, s: Tree)
    requires Spans(fibers, s, Nowhere) && GoesDown(fibers, s.id) && s.kids != []
    ensures Below(fibers, s.kids[0], Nowhere)
    ensures DescendFrom(fibers, s) == DescendFrom(fibers, s.kids[0]).Under([0])
  {
  }

  /** Reading a path from `y` and then from `x` reads it from `x + y`. */
  lemma UnderUnder(d: Probe, x: seq<nat>, y: seq<nat>)
    ensures d.Under(y).Under(x) == d.Under(x + y)
  {
    assert x + (y + d.at) == (x + y) + d.at;
  }

  /** A node that is being placed, or has no children, ends the descent where it is. */
  lemma DescendStops(fibers: map<FiberId, FiberNode>, t: Tree, at: seq<nat>)
    requires Spans(fibers, t, Nowhere) && ValidPath(t, at)
    requires Sub(t, at).id in fibers && !GoesDown(fibers, Sub(t, at).id)
    ensures DescendAt(fibers, t, at) == if HostToReturn(fibers, Sub(t, at).id) then Found(at) else Skip(at)
  {
    SubSpans(fibers, t, at);
    ChildOf(fibers, Sub(t, at), Nowhere);
    assert at + [] == at;
  }

  /**
   * `getHostSibling(fiber)`: the instance of the first host fiber after
   * `fiber`, not being placed itself, reached without leaving the
   * nearest HostRoot or HostComponent ancestor, as `Search` follows it.
   */
  method GetHostSibling(store: FiberStore, fiber: FiberId, ghost t: Tree, ghost p: seq<nat>) returns (sibling: Option<InstanceRef>)
    requires WholeTree(store.fibers, t) && ValidPath(t, p) && Sub(t, p).id == fiber
    modifies store`fibers
    ensures store.fibers == old(store.fibers)
    ensures sibling == HostSiblingOf(store.fibers, t, p)
  {
    var node := fiber;
    ghost var at := p;
    while true
      invariant ValidPath(t, at) && node == Sub(t, at).id
      invariant store.fibers == old(store.fibers)
      invariant Search(store.fibers, t, at) == Search(store.fibers, t, p)
      decreases |Visit(t)| - End(t, at)
    {
      var next, x := ClimbToSibling(store, node, t, at);
      if next.None? {
        return None;
      }
      var found, n, y := DescendToHost(store, next.value, t, x.value);
      NodeInVisit(t, y);
      NodeInVisit(t, at);
      if found {
        ShapedAt(store.fibers, t, y);
        sibling := Some(store.fibers[n].stateNode.instance);
        return;
      }
      node, at := n, y;
    }
  }

  /** The climbing loop of `getHostSibling`: the next sibling it reaches, at the path `Climb` gives. */
  method ClimbToSibling(store: FiberStore, fiber: FiberId, ghost t: Tree, ghost p: seq<nat>) returns (next: Option<FiberId>, ghost x: Option<seq<nat>>)
    requires WholeTree(store.fibers, t) && ValidPath(t, p) && Sub(t, p).id == fiber
    modifies store`fibers
    ensures store.fibers == old(store.fibers)
    ensures x == Climb(store.fibers, t, p)
    ensures next.Some? == x.Some? && (x.Some? ==> next.value == Sub(t, x.value).id)
  {
    var node := fiber;
    ghost var at := p;
    Neighbours(store.fibers, t, at);
    while store.fibers[node].sibling.None?
      invariant ValidPath(t, at) && node == Sub(t, at).id && node in store.fibers
      invariant store.fibers == old(store.fibers)
      invariant Climb(store.fibers, t, at) == Climb(store.fibers, t, p)
      decreases |at|
    {
      Neighbours(store.fibers, t, at);
      var parent := store.fibers[node].ret;
      if parent.None? || store.fibers[parent.value].tag == HostRoot || store.fibers[parent.value].tag == HostComponent {
        return None, None;
      }
      node := parent.value;
      at := at[..|at| - 1];
    }
    Neighbours(store.fibers, t, at);
    next := store.fibers[node].sibling;
    SetReturn(store, next.value, store.fibers[node].ret);
    x := Some(at[..|at| - 1] + [at[|at| - 1] + 1]);
  }

  /**
   * The descending loop of `getHostSibling` from `fiber`: down first
   * children to a host, stopping early at a fiber being placed or without
   * children; `found` when it ends at a host that is not being placed.
   */
  method DescendToHost(store: FiberStore, fiber: FiberId, ghost t: Tree, ghost p: seq<nat>) returns (found: bool, node: FiberId, ghost at: seq<nat>)
    requires WholeTree(store.fibers, t) && ValidPath(t, p) && Sub(t, p).id == fiber
    modifies store`fibers
    ensures store.fibers == old(store.fibers)
    ensures ValidPath(t, at) && node == Sub(t, at).id
    ensures DescendAt(store.fibers, t, p) == if found then Found(at) else Skip(at)
  {
    var fibers := store.fibers;
    node, at := fiber, p;
    Neighbours(fibers, t, at);
    while !(fibers[node].tag == HostText || fibers[node].tag == HostComponent)
      invariant ValidPath(t, at) && node == Sub(t, at).id && node in fibers
      invariant store.fibers == fibers
      invariant DescendAt(fibers, t, at) == DescendAt(fibers, t, p)
      decreases Sub(t, at)
    {
      if fibers[node].flags & Placement != NoFlags || fibers[node].child.None? {
        DescendStops(fibers, t, at);
        return false, node, at;
      }
      DescendStep(fibers, t, at);
      var c := fibers[node].child.value;
      SetReturn(store, c, Some(node));
      node := c;
      at := at + [0];
    }
    DescendStops(fibers, t, at);
    found := fibers[node].flags & Placement == NoFlags;
  }

  // ---------------------------------------------------------------------
  // Placement

  /** One host call of a placement: `child` inserted before `before`, or appended when there is none. */
  datatype Step = Step(child: InstanceRef, before: Option<InstanceRef>)

  /**
   * The host calls `insertOrAppendPlacementNodeIntoContainer` makes for
   * the subtree `s`, with `before` passed on into the subtrees of a fiber
   * that is not a host: one call per host fiber nearest the top, left to
   * right.
   */
  ghost function PlacementSteps(fibers: map<FiberId, FiberNode>, s: Tree, before: Option<InstanceRef>): seq<Step>
    requires Spans(fibers, s, Nowhere) && ShapedTree(fibers, s)
    decreases s, 1
  {
    if IsHost(fibers[s.id]) then [Step(fibers[s.id].stateNode.instance, before)]
    else PlacementStepsAll(fibers, s.kids, before)
  }

  ghost function PlacementStepsAll(fibers: map<FiberId, FiberNode>, ts: seq<Tree>, before: Option<InstanceRef>): seq<Step>
    requires forall i | 0 <= i < |ts| :: Below(fibers, ts[i], Nowhere) && ShapedTree(fibers, ts[i])
    decreases ts, 0
  {
    if ts == [] then []
    else
      assert Below(fibers, ts[0], Nowhere) && !Stops(Nowhere, fibers[ts[0].id]);
      PlacementSteps(fibers, ts[0], before) + PlacementStepsAll(fibers, ts[1..], before)
  }

  /** The same calls as written, where the subtrees of a fiber that is not a host are placed without `before`. */
  ghost function PlacementStepsAsWritten(fibers: map<FiberId, FiberNode>, s: Tree, before: Option<InstanceRef>): seq<Step>
    requires Spans(fibers, s, Nowhere) && ShapedTree(fibers, s)
  {
    if IsHost(fibers[s.id]) then [Step(fibers[s.id].stateNode.instance, before)]
    else PlacementStepsAll(fibers, s.kids, None)
  }

  /** The state of a placement under way: the parent's children and the instances adopted so far. */
  datatype Placed = Placed(children: seq<InstanceRef>, adopted: set<InstanceRef>)

  /** The `parent` field of `x` once the instances in `adopted` took `rootId`. */
  function ParentField(instances: map<InstanceRef, HostInstance>, rootId: JsValue, adopted: set<InstanceRef>, x: InstanceRef): JsValue
  {
    if x in adopted then rootId else if x in instances then instances[x].parent else NoParent
  }

  /**
   * One host call on the children of the parent: `appendChildToContainer`
   * refuses an instance another parent adopted, and `insertChildBefore`
   * one whose `before` is not a child.
   */
  function PlaceStep(instances: map<InstanceRef, HostInstance>, rootId: JsValue, at: Placed, step: Step): (r: Result<Placed>)
    ensures r.Ok? && step.before.None? ==> r.value == Placed(at.children + [step.child], at.adopted + {step.child})
    ensures r.Ok? && step.before.Some? ==> r.value.adopted == at.adopted
  {
    match step.before
    case None =>
      var p := ParentField(instances, rootId, at.adopted, step.child);
      if p != NoParent && p != rootId then Err("duplicate child node insertion")
      else Ok(Placed(at.children + [step.child], at.adopted + {step.child}))
    case Some(b) =>
      match InsertBefore(at.children, step.child, b)
      case Err(m) => Err(m)
      case Ok(cs) => Ok(Placed(cs, at.adopted))
  }

  /** The host calls one after another; the first refusal ends them. */
  function Place(instances: map<InstanceRef, HostInstance>, rootId: JsValue, at: Placed, steps: seq<Step>): Result<Placed>
    decreases |steps|
  {
    if steps == [] then Ok(at)
    else
      match PlaceStep(instances, rootId, at, steps[0])
      case Err(m) => Err(m)
      case Ok(next) => Place(instances, rootId, next, steps[1..])
  }

  lemma {:induction false} PlaceConcat(instances: map<InstanceRef, HostInstance>, rootId: JsValue, at: Placed, a: seq<Step>, b: seq<Step>)
    ensures Place(instances, rootId, at, a + b) ==
            match Place(instances, rootId, at, a)
            case Err(m) => Err(m)
            case Ok(mid) => Place(instances, rootId, mid, b)
    decreases |a|
  {
    if a == [] {
      assert a + b == b;
    } else {
      assert (a + b)[0] == a[0] && (a + b)[1..] == a[1..] + b;
      match PlaceStep(instances, rootId, at, a[0])
      case Err(m) =>
      case Ok(next) => PlaceConcat(instances, rootId, next, a[1..], b);
    }
  }

  /** `RootId` of the noop host, read from the containers `containers`. */
  function RootIdIn(containers: map<ContainerRef, Container>, parent: HostParent): JsValue
  {
    match parent
    case ContainerParent(c) => if c in containers then Num(containers[c].rootID) else Undefined
    case InstanceParent(_) => Undefined
  }

  /** `parent` has a children array in the maps `instances` and `containers`. */
  predicate HasChildrenIn(instances: map<InstanceRef, HostInstance>, containers: map<ContainerRef, Container>, parent: HostParent)
  {
    match parent
    case ContainerParent(c) => c in containers
    case InstanceParent(i) => i in instances && instances[i].Instance?
  }

  /** The children array of `parent` in the maps `instances` and `containers`. */
  function ChildrenIn(instances: map<InstanceRef, HostInstance>, containers: map<ContainerRef, Container>, parent: HostParent): seq<InstanceRef>
    requires HasChildrenIn(instances, containers, parent)
  {
    match parent
    case ContainerParent(c) => containers[c].children
    case InstanceParent(i) => instances[i].children
  }

  /** The instances after the placement reached `at`: the parent holds `at.children`, and the adopted instances point at `rootId`. */
  function InstancesAt(instances: map<InstanceRef, HostInstance>, parent: HostParent, rootId: JsValue, at: Placed): map<InstanceRef, HostInstance>
  {
    map x | x in instances ::
      if parent == InstanceParent(x) && instances[x].Instance?
      then instances[x].(children := at.children, parent := ParentField(instances, rootId, at.adopted, x))
      else instances[x].(parent := ParentField(instances, rootId, at.adopted, x))
  }

  function ContainersAt(containers: map<ContainerRef, Container>, parent: HostParent, at: Placed): map<ContainerRef, Container>
  {
    if parent.ContainerParent? && parent.container in containers
    then containers[parent.container := containers[parent.container].(children := at.children)]
    else containers
  }

  /** The host is where a placement that started from `instances0` and `containers0` stands once it reached `at`. */
  ghost predicate Tracks(host: NoopHost, instances0: map<InstanceRef, HostInstance>, containers0: map<ContainerRef, Container>,
                         parent: HostParent, at: Placed)
    reads host
  {
    HasChildrenIn(instances0, containers0, parent) &&
    host.instances == InstancesAt(instances0, parent, RootIdIn(containers0, parent), at) &&
    host.containers == ContainersAt(containers0, parent, at)
  }


  /** Reading the host while it `Tracks` a placement: the parent's children are `at.children`, its root id unchanged. */
  lemma TracksReads(host: NoopHost, instances0: map<InstanceRef, HostInstance>, containers0: map<ContainerRef, Container>,
                    parent: HostParent, at: Placed)
    requires Tracks(host, instances0, containers0, parent, at)
    ensures host.HasChildren(parent) && host.ChildrenOf(parent) == at.children
    ensures host.RootId(parent) == RootIdIn(containers0, parent)
    ensures host.instances.Keys == instances0.Keys
    ensures forall x | x in host.instances :: host.instances[x].parent == ParentField(instances0, RootIdIn(containers0, parent), at.adopted, x)
  {
  }

  /** `appendChildToContainer` moves a tracked placement on by one appended instance. */
  lemma AppendTracks(instances0: map<InstanceRef, HostInstance>, containers0: map<ContainerRef, Container>,
                     parent: HostParent, at: Placed, inst: InstanceRef,
                     instances1: map<InstanceRef, HostInstance>, containers1: map<ContainerRef, Container>)
    requires HasChildrenIn(instances0, containers0, parent) && inst in instances0
    requires var rid, hn, cn := RootIdIn(containers0, parent), InstancesAt(instances0, parent, RootIdIn(containers0, parent), at), ContainersAt(containers0, parent, at);
             match parent
             case InstanceParent(p) =>
               p in hn && hn[p].Instance? && inst in hn && containers1 == cn &&
               (if p == inst then instances1 == hn[inst := hn[inst].(parent := rid, children := hn[inst].children + [inst])]
                else instances1 == hn[inst := hn[inst].(parent := rid)][p := hn[p].(children := hn[p].children + [inst])])
             case ContainerParent(c) =>
               c in cn && inst in hn &&
               instances1 == hn[inst := hn[inst].(parent := rid)] && containers1 == cn[c := cn[c].(children := cn[c].children + [inst])]
    ensures var next := Placed(at.children + [inst], at.adopted + {inst});
            instances1 == InstancesAt(instances0, parent, RootIdIn(containers0, parent), next) &&
            containers1 == ContainersAt(containers0, parent, next)
  {
    var rid, next := RootIdIn(containers0, parent), Placed(at.children + [inst], at.adopted + {inst});
    var want := InstancesAt(instances0, parent, rid, next);
    assert instances1.Keys == want.Keys;
    forall x | x in want ensures instances1[x] == want[x] {
    }
  }

  /** `insertChildBefore` moves a tracked placement on to the children it leaves. */
  lemma InsertTracks(instances0: map<InstanceRef, HostInstance>, containers0: map<ContainerRef, Container>,
                     parent: HostParent, at: Placed, children: seq<InstanceRef>,
                     instances1: map<InstanceRef, HostInstance>, containers1: map<ContainerRef, Container>)
    requires HasChildrenIn(instances0, containers0, parent)
    requires var hn, cn := InstancesAt(instances0, parent, RootIdIn(containers0, parent), at), ContainersAt(containers0, parent, at);
             match parent
             case InstanceParent(p) =>
               p in hn && hn[p].Instance? && containers1 == cn && instances1 == hn[p := hn[p].(children := children)]
             case ContainerParent(c) =>
               c in cn && instances1 == hn && containers1 == cn[c := cn[c].(children := children)]
    ensures var next := Placed(children, at.adopted);
            instances1 == InstancesAt(instances0, parent, RootIdIn(containers0, parent), next) &&
            containers1 == ContainersAt(containers0, parent, next)
  {
    var rid, next := RootIdIn(containers0, parent), Placed(children, at.adopted);
    var want := InstancesAt(instances0, parent, rid, next);
    assert instances1.Keys == want.Keys;
    forall x | x in want ensures instances1[x] == want[x] {
    }
  }

  /**
   * One host call of `insertOrAppendPlacementNodeIntoContainer`:
   * `insertChildToContainer` when there is a `before`, corrected to
   * `InsertChildBefore`, and `appendChildToContainer` otherwise.
   */
  method PlaceHost(host: NoopHost, parent: HostParent, inst: InstanceRef, before: Option<InstanceRef>,
                   ghost instances0: map<InstanceRef, HostInstance>, ghost containers0: map<ContainerRef, Container>, ghost at: Placed)
    returns (r: Result<()>)
    requires Tracks(host, instances0, containers0, parent, at) && inst in instances0
    modifies host`instances, host`containers
    ensures var res := PlaceStep(instances0, RootIdIn(containers0, parent), at, Step(inst, before));
            (r.Ok? <==> res.Ok?) && (r.Err? ==> r.message == res.message) &&
            (res.Ok? ==> Tracks(host, instances0, containers0, parent, res.value))
  {
    TracksReads(host, instances0, containers0, parent, at);
    ghost var rid := RootIdIn(containers0, parent);
    if before.Some? {
      r := host.InsertChildBefore(parent, inst, before.value);
      if r.Ok? {
        InsertTracks(instances0, containers0, parent, at, host.ChildrenOf(parent), host.instances, host.containers);
      }
    } else {
      r := host.AppendChildToContainer(parent, inst);
      if r.Ok? {
        AppendTracks(instances0, containers0, parent, at, inst, host.instances, host.containers);
      }
    }
  }


  lemma {:induction false} PlacementStepsSnoc(fibers: map<FiberId, FiberNode>, ts: seq<Tree>, k: nat, before: Option<InstanceRef>)
    requires forall i | 0 <= i < |ts| :: Below(fibers, ts[i], Nowhere) && ShapedTree(fibers, ts[i])
    requires k < |ts|
    ensures Spans(fibers, ts[k], Nowhere)
    ensures PlacementStepsAll(fibers, ts[..k + 1], before) == PlacementStepsAll(fibers, ts[..k], before) + PlacementSteps(fibers, ts[k], before)
    decreases k
  {
    assert Below(fibers, ts[k], Nowhere) && !Stops(Nowhere, fibers[ts[k].id]);
    if k == 0 {
      assert ts[..1] == [ts[0]] && ts[..1][1..] == [];
    } else {
      assert ts[..k + 1][0] == ts[0] && ts[..k + 1][1..] == ts[1..][..k];
      assert ts[..k][0] == ts[0] && ts[..k][1..] == ts[1..][..k - 1];
      PlacementStepsSnoc(fibers, ts[1..], k - 1, before);
    }
  }

  lemma {:induction false} PlacementStepsSplit(fibers: map<FiberId, FiberNode>, ts: seq<Tree>, j: nat, before: Option<InstanceRef>)
    requires forall i | 0 <= i < |ts| :: Below(fibers, ts[i], Nowhere) && ShapedTree(fibers, ts[i])
    requires j <= |ts|
    ensures PlacementStepsAll(fibers, ts, before) == PlacementStepsAll(fibers, ts[..j], before) + PlacementStepsAll(fibers, ts[j..], before)
    decreases j
  {
    if j == 0 {
      assert ts[..0] == [] && ts[0..] == ts;
    } else {
      assert ts[..j][0] == ts[0] && ts[..j][1..] == ts[1..][..j - 1] && ts[j..] == ts[1..][j - 1..];
      PlacementStepsSplit(fibers, ts[1..], j - 1, before);
      assert Below(fibers, ts[0], Nowhere) && !Stops(Nowhere, fibers[ts[0].id]);
      Assoc(PlacementSteps(fibers, ts[0], before), PlacementStepsAll(fibers, ts[1..][..j - 1], before), PlacementStepsAll(fibers, ts[j..], before));
    }
  }

  /** A placement the host refused part of the way through the children is refused as a whole, with the same message. */
  lemma PlaceRest(instances: map<InstanceRef, HostInstance>, rid: JsValue, at: Placed,
                  fibers: map<FiberId, FiberNode>, ts: seq<Tree>, k: nat, before: Option<InstanceRef>)
    requires forall i | 0 <= i < |ts| :: Below(fibers, ts[i], Nowhere) && ShapedTree(fibers, ts[i])
    requires k < |ts| && Place(instances, rid, at, PlacementStepsAll(fibers, ts[..k + 1], before)).Err?
    ensures Place(instances, rid, at, PlacementStepsAll(fibers, ts, before)) == Place(instances, rid, at, PlacementStepsAll(fibers, ts[..k + 1], before))
  {
    PlacementStepsSplit(fibers, ts, k + 1, before);
    PlaceConcat(instances, rid, at, PlacementStepsAll(fibers, ts[..k + 1], before), PlacementStepsAll(fibers, ts[k + 1..], before));
  }

  /**
   * `insertOrAppendPlacementNodeIntoContainer(fiber, hostParent, before)`,
   * passing `before` on as intended: the host calls of `PlacementSteps`,
   * in order, stopping at the first the host refuses.
   */
  method InsertOrAppendPlacementNode(store: FiberStore, host: NoopHost, fiber: FiberId, parent: HostParent, before: Option<InstanceRef>,
                                     ghost s: Tree, ghost instances0: map<InstanceRef, HostInstance>,
                                     ghost containers0: map<ContainerRef, Container>, ghost at: Placed)
    returns (r: Result<()>)
    requires Spans(store.fibers, s, Nowhere) && ShapedTree(store.fibers, s) && s.id == fiber
    requires CompleteWork.HostNodesIn(store.fibers, instances0)
    requires Tracks(host, instances0, containers0, parent, at)
    modifies host`instances, host`containers
    ensures var res := Place(instances0, RootIdIn(containers0, parent), at, PlacementSteps(store.fibers, s, before));
            (r.Ok? <==> res.Ok?) && (r.Err? ==> r.message == res.message) &&
            (res.Ok? ==> Tracks(host, instances0, containers0, parent, res.value))
    decreases s, 2
  {
    ghost var rid := RootIdIn(containers0, parent);
    var fibers := store.fibers;
    var f := fibers[fiber];
    if f.tag == HostComponent || f.tag == HostText {
      r := PlaceHost(host, parent, f.stateNode.instance, before, instances0, containers0, at);
      ghost var step := Step(f.stateNode.instance, before);
      assert PlacementSteps(fibers, s, before) == [step];
      return;
    }
    ChildOf(fibers, s, Nowhere);
    var child := f.child;
    if child.None? {
      return Ok(());
    }
    r := PlaceChildren(store, host, child.value, parent, before, s, instances0, containers0, at);
  }

  /** Placing one more kid continues from where the kids before it left the host. */
  lemma PlaceSnoc(instances: map<InstanceRef, HostInstance>, rid: JsValue, at: Placed, cur: Placed,
                  fibers: map<FiberId, FiberNode>, ts: seq<Tree>, k: nat, before: Option<InstanceRef>)
    requires forall i | 0 <= i < |ts| :: Below(fibers, ts[i], Nowhere) && ShapedTree(fibers, ts[i])
    requires k < |ts| && Place(instances, rid, at, PlacementStepsAll(fibers, ts[..k], before)) == Ok(cur)
    ensures Spans(fibers, ts[k], Nowhere)
    ensures Place(instances, rid, at, PlacementStepsAll(fibers, ts[..k + 1], before)) == Place(instances, rid, cur, PlacementSteps(fibers, ts[k], before))
  {
    PlacementStepsSnoc(fibers, ts, k, before);
    PlaceConcat(instances, rid, at, PlacementStepsAll(fibers, ts[..k], before), PlacementSteps(fibers, ts[k], before));
  }

  /** The children of a non-host fiber, first to last, each placed with the same `before`. */
  method PlaceChildren(store: FiberStore, host: NoopHost, first: FiberId, parent: HostParent, before: Option<InstanceRef>,
                       ghost s: Tree, ghost instances0: map<InstanceRef, HostInstance>,
                       ghost containers0: map<ContainerRef, Container>, ghost at: Placed)
    returns (r: Result<()>)
    requires Spans(store.fibers, s, Nowhere) && ShapedTree(store.fibers, s) && s.kids != [] && first == s.kids[0].id
    requires CompleteWork.HostNodesIn(store.fibers, instances0)
    requires Tracks(host, instances0, containers0, parent, at)
    modifies host`instances, host`containers
    ensures PlaceOutcome(host, instances0, containers0, parent,
                         Place(instances0, RootIdIn(containers0, parent), at, PlacementStepsAll(store.fibers, s.kids, before)), r)
    decreases s, 1
  {
    var fibers := store.fibers;
    ghost var cur := at;
    ghost var k := 0;
    var node := Some(first);
    PlacedNone(host, fibers, s, before, instances0, containers0, parent, at);
    while node.Some?
      invariant k <= |s.kids| && node == (if k < |s.kids| then Some(s.kids[k].id) else None)
      invariant PlacedUpTo(host, fibers, s.kids, k, before, instances0, containers0, parent, at, cur)
      decreases |s.kids| - k
    {
      var next;
      ghost var cur';
      r, next, cur' := PlaceKid(store, host, node.value, parent, before, s, k, instances0, containers0, at, cur);
      if r.Err? {
        return;
      }
      cur := cur';
      node := next;
      k := k + 1;
    }
    PlacedAll(host, fibers, s.kids, before, instances0, containers0, parent, at, cur);
    r := Ok(());
  }

  /** Before the loop over the children no child is placed. */
  lemma PlacedNone(host: NoopHost, fibers: map<FiberId, FiberNode>, s: Tree, before: Option<InstanceRef>,
                   instances0: map<InstanceRef, HostInstance>, containers0: map<ContainerRef, Container>, parent: HostParent, at: Placed)
    requires Spans(fibers, s, Nowhere) && ShapedTree(fibers, s) && Tracks(host, instances0, containers0, parent, at)
    ensures PlacedUpTo(host, fibers, s.kids, 0, before, instances0, containers0, parent, at, at)
  {
    assert s.kids[..0] == [];
  }

  /** Once every child is placed, the placement of all the children is where the host stands. */
  lemma PlacedAll(host: NoopHost, fibers: map<FiberId, FiberNode>, kids: seq<Tree>, before: Option<InstanceRef>,
                  instances0: map<InstanceRef, HostInstance>, containers0: map<ContainerRef, Container>, parent: HostParent,
                  at: Placed, cur: Placed)
    requires PlacedUpTo(host, fibers, kids, |kids|, before, instances0, containers0, parent, at, cur)
    ensures PlaceOutcome(host, instances0, containers0, parent, Place(instances0, RootIdIn(containers0, parent), at, PlacementStepsAll(fibers, kids, before)), Ok(()))
  {
    assert kids[..|kids|] == kids;
  }

  /** One round of the loop over the children: the `k`-th child placed, and its next sibling read. */
  method PlaceKid(store: FiberStore, host: NoopHost, node: FiberId, parent: HostParent, before: Option<InstanceRef>,
                  ghost s: Tree, ghost k: nat, ghost instances0: map<InstanceRef, HostInstance>,
                  ghost containers0: map<ContainerRef, Container>, ghost at: Placed, ghost cur: Placed)
    returns (r: Result<()>, next: Option<FiberId>, ghost cur': Placed)
    requires Spans(store.fibers, s, Nowhere) && ShapedTree(store.fibers, s) && k < |s.kids| && node == s.kids[k].id
    requires CompleteWork.HostNodesIn(store.fibers, instances0)
    requires PlacedUpTo(host, store.fibers, s.kids, k, before, instances0, containers0, parent, at, cur)
    modifies host`instances, host`containers
    ensures next == if k + 1 < |s.kids| then Some(s.kids[k + 1].id) else None
    ensures r.Err? ==> PlaceOutcome(host, instances0, containers0, parent,
                                    Place(instances0, RootIdIn(containers0, parent), at, PlacementStepsAll(store.fibers, s.kids, before)), r)
    ensures r.Ok? ==> PlacedUpTo(host, store.fibers, s.kids, k + 1, before, instances0, containers0, parent, at, cur')
    decreases s, 0
  {
    ghost var rid := RootIdIn(containers0, parent);
    var fibers := store.fibers;
    PlaceSnoc(instances0, rid, at, cur, fibers, s.kids, k, before);
    SiblingOf(fibers, s, Nowhere, k);
    next := fibers[node].sibling;
    r := InsertOrAppendPlacementNode(store, host, node, parent, before, s.kids[k], instances0, containers0, cur);
    ghost var res := Place(instances0, rid, cur, PlacementSteps(fibers, s.kids[k], before));
    cur' := if res.Ok? then res.value else cur;
    if r.Err? {
      PlaceRest(instances0, rid, at, fibers, s.kids, k, before);
    }
  }
  /** The host after a placement that ends in `res`: refused with its message, or where the placement left it. */
  ghost predicate PlaceOutcome(host: NoopHost, instances0: map<InstanceRef, HostInstance>, containers0: map<ContainerRef, Container>,
                               parent: HostParent, res: Result<Placed>, r: Result<()>)
    reads host
  {
    (r.Ok? <==> res.Ok?) && (r.Err? ==> r.message == res.message) &&
    (res.Ok? ==> Tracks(host, instances0, containers0, parent, res.value))
  }

  /** The first `k` children are placed, and the host stands where that left it. */
  ghost predicate PlacedUpTo(host: NoopHost, fibers: map<FiberId, FiberNode>, kids: seq<Tree>, k: nat, before: Option<InstanceRef>,
                             instances0: map<InstanceRef, HostInstance>, containers0: map<ContainerRef, Container>,
                             parent: HostParent, at: Placed, cur: Placed)
    reads host
  {
    k <= |kids| && (forall i | 0 <= i < |kids| :: Below(fibers, kids[i], Nowhere) && ShapedTree(fibers, kids[i])) &&
    Place(instances0, RootIdIn(containers0, parent), at, PlacementStepsAll(fibers, kids[..k], before)) == Ok(cur) &&
    Tracks(host, instances0, containers0, parent, cur)
  }



  /** The instances the steps place, in order. */
  function StepChildren(steps: seq<Step>): (r: seq<InstanceRef>)
    ensures |r| == |steps| && forall i | 0 <= i < |steps| :: r[i] == steps[i].child
    decreases |steps|
  {
    if steps == [] then [] else [steps[0].child] + StepChildren(steps[1..])
  }

  /** `appendChildToContainer` takes `x`: no parent yet, or already this one. */
  predicate Adoptable(instances: map<InstanceRef, HostInstance>, rootId: JsValue, adopted: set<InstanceRef>, x: InstanceRef)
  {
    var p := ParentField(instances, rootId, adopted, x);
    p == NoParent || p == rootId
  }

  /** Appending only: the host takes every instance exactly when each of them is free or already the parent's. */
  lemma {:induction false} AppendsAccepted(instances: map<InstanceRef, HostInstance>, rootId: JsValue, at: Placed, steps: seq<Step>)
    requires forall i | 0 <= i < |steps| :: steps[i].before.None?
    ensures Place(instances, rootId, at, steps).Ok? <==>
            forall i | 0 <= i < |steps| :: Adoptable(instances, rootId, at.adopted, steps[i].child)
    decreases |steps|
  {
    if steps != [] {
      var c := steps[0].child;
      if Adoptable(instances, rootId, at.adopted, c) {
        var next := Placed(at.children + [c], at.adopted + {c});
        assert PlaceStep(instances, rootId, at, steps[0]) == Ok(next);
        assert forall x :: Adoptable(instances, rootId, next.adopted, x) == Adoptable(instances, rootId, at.adopted, x);
        AppendsAccepted(instances, rootId, next, steps[1..]);
        assert forall i | 1 <= i < |steps| :: steps[i] == steps[1..][i - 1];
      } else {
        assert PlaceStep(instances, rootId, at, steps[0]).Err?;
      }
    }
  }

  /** Appending only: what the host takes ends up after the old children, in step order. */
  /** An append that the parent takes moves the placement on by that one child. */
  lemma PlaceAppendsFirst(instances: map<InstanceRef, HostInstance>, rootId: JsValue, at: Placed, steps: seq<Step>)
    requires steps != [] && steps[0].before.None? && PlaceStep(instances, rootId, at, steps[0]).Ok?
    ensures Place(instances, rootId, at, steps) ==
            Place(instances, rootId, Placed(at.children + [steps[0].child], at.adopted + {steps[0].child}), steps[1..])
  {
  }

  lemma {:induction false} AppendsInOrder(instances: map<InstanceRef, HostInstance>, rootId: JsValue, at: Placed, steps: seq<Step>)
    requires forall i | 0 <= i < |steps| :: steps[i].before.None?
    ensures Place(instances, rootId, at, steps).Ok? ==>
            Place(instances, rootId, at, steps).value.children == at.children + StepChildren(steps)
    decreases |steps|
  {
    if steps != [] {
      var c, rest := steps[0].child, steps[1..];
      var next := Placed(at.children + [c], at.adopted + {c});
      if PlaceStep(instances, rootId, at, steps[0]).Ok? {
        PlaceAppendsFirst(instances, rootId, at, steps);
        assert forall i | 0 <= i < |rest| :: rest[i].before == steps[i + 1].before;
        AppendsInOrder(instances, rootId, next, rest);
        var later := StepChildren(rest);
        assert StepChildren(steps) == [c] + later;
        Assoc(at.children, [c], later);
      } else {
        assert Place(instances, rootId, at, steps).Err?;
      }
    }
  }

  /**
   * Inserting only, before a child `b` the parent holds: distinct new
   * instances, none of them a child already, end up in step order right
   * before `b`.
   */
  lemma {:induction false} InsertsInOrder(instances: map<InstanceRef, HostInstance>, rootId: JsValue, at: Placed, steps: seq<Step>, b: InstanceRef)
    requires b in at.children && InsertsBefore(steps, b, at.children)
    ensures var j := IndexOf(at.children, b);
            Place(instances, rootId, at, steps) == Ok(Placed(at.children[..j] + StepChildren(steps) + at.children[j..], at.adopted))
    decreases |steps|
  {
    var j, cs := IndexOf(at.children, b), at.children;
    if steps == [] {
      assert cs[..j] + StepChildren(steps) + cs[j..] == cs;
    } else {
      var c, rest := steps[0].child, steps[1..];
      var cs' := InsertAt(cs, j, c);
      var next := Placed(cs', at.adopted);
      InsertThenRest(instances, rootId, at, steps, b);
      RestOfInserts(steps, b, cs, j);
      InsertsInOrder(instances, rootId, next, rest, b);
      InsertsJoin(instances, rootId, at, steps, b);
    }
  }

  /** The insertion of the first instance joined with those of the rest, as `InsertsInOrder` puts them. */
  lemma InsertsJoin(instances: map<InstanceRef, HostInstance>, rootId: JsValue, at: Placed, steps: seq<Step>, b: InstanceRef)
    requires b in at.children && InsertsBefore(steps, b, at.children) && steps != []
    requires var j := IndexOf(at.children, b);
             var cs' := InsertAt(at.children, j, steps[0].child);
             Place(instances, rootId, at, steps) == Ok(Placed(cs'[..j + 1] + StepChildren(steps[1..]) + cs'[j + 1..], at.adopted))
    ensures var j := IndexOf(at.children, b);
            Place(instances, rootId, at, steps) == Ok(Placed(at.children[..j] + StepChildren(steps) + at.children[j..], at.adopted))
  {
    var j, cs, c := IndexOf(at.children, b), at.children, steps[0].child;
    assert StepChildren(steps) == [c] + StepChildren(steps[1..]);
    InsertShape(cs, j, c, StepChildren(steps[1..]));
  }

  /** The first of the insertions puts its instance right before `b`, and the rest continue from there. */
  lemma InsertThenRest(instances: map<InstanceRef, HostInstance>, rootId: JsValue, at: Placed, steps: seq<Step>, b: InstanceRef)
    requires b in at.children && InsertsBefore(steps, b, at.children) && steps != []
    ensures var j := IndexOf(at.children, b);
            var next := Placed(InsertAt(at.children, j, steps[0].child), at.adopted);
            j <= |at.children| && b in next.children && IndexOf(next.children, b) == j + 1 &&
            Place(instances, rootId, at, steps) == Place(instances, rootId, next, steps[1..])
  {
    assert StepChildren(steps)[0] == steps[0].child && steps[0].child !in at.children;
    FirstInsert(instances, rootId, at, steps[0], b);
  }

  /** The first step of `InsertsInOrder`: the first instance goes right before `b`. */
  lemma FirstInsert(instances: map<InstanceRef, HostInstance>, rootId: JsValue, at: Placed, step: Step, b: InstanceRef)
    requires step.before == Some(b) && b in at.children && step.child != b && step.child !in at.children
    ensures var j := IndexOf(at.children, b);
            var cs' := InsertAt(at.children, j, step.child);
            PlaceStep(instances, rootId, at, step) == Ok(Placed(cs', at.adopted)) && b in cs' && IndexOf(cs', b) == j + 1
  {
    NewChildBefore(at.children, step.child, b);
  }

  lemma InsertShape(cs: seq<InstanceRef>, j: nat, c: InstanceRef, x: seq<InstanceRef>)
    requires j <= |cs|
    ensures InsertAt(cs, j, c)[..j + 1] + x + InsertAt(cs, j, c)[j + 1..] == cs[..j] + ([c] + x) + cs[j..]
  {
    var cs' := InsertAt(cs, j, c);
    assert cs'[..j + 1] == cs[..j] + [c] && cs'[j + 1..] == cs[j..];
    Regroup(cs[..j], c, x, cs[j..]);
  }

  lemma Regroup<T>(a: seq<T>, c: T, x: seq<T>, d: seq<T>)
    ensures (a + [c]) + x + d == a + ([c] + x) + d
  {
  }

  /** Inserting an instance that is not a child yet before the child `b`. */
  lemma NewChildBefore(cs: seq<InstanceRef>, c: InstanceRef, b: InstanceRef)
    requires b in cs && c !in cs
    ensures var j := IndexOf(cs, b);
            InsertBefore(cs, c, b) == Ok(InsertAt(cs, j, c)) && IndexOf(InsertAt(cs, j, c), b) == j + 1
  {
    assert WithoutChild(cs, c) == cs;
    InsertKeepsNeighbour(cs, IndexOf(cs, b), c);
  }

  /** What `InsertsInOrder` demands of the steps still holds for the steps after the first, once it went in. */
  /** Steps that each insert, before `b`, a distinct instance that is neither `b` nor one of `cs`. */
  ghost predicate InsertsBefore(steps: seq<Step>, b: InstanceRef, cs: seq<InstanceRef>)
  {
    (forall i | 0 <= i < |steps| :: steps[i].before == Some(b)) &&
    b !in StepChildren(steps) && ChildFibers.Distinct(StepChildren(steps)) &&
    (forall i | 0 <= i < |steps| :: steps[i].child !in cs)
  }

  lemma RestOfInserts(steps: seq<Step>, b: InstanceRef, cs: seq<InstanceRef>, j: nat)
    requires steps != [] && InsertsBefore(steps, b, cs)
    requires j <= |cs|
    ensures InsertsBefore(steps[1..], b, InsertAt(cs, j, steps[0].child))
  {
    var rest, cs' := steps[1..], InsertAt(cs, j, steps[0].child);
    assert forall x | x in cs' :: x == steps[0].child || x in cs;
    assert forall i | 0 <= i < |rest| :: rest[i] == steps[i + 1];
    forall i | 0 <= i < |rest| ensures rest[i].child !in cs' {
      assert StepChildren(steps)[0] != StepChildren(steps)[i + 1];
    }
    forall x, y | 0 <= x < y < |rest| ensures StepChildren(rest)[x] != StepChildren(rest)[y] {
      assert StepChildren(steps)[x + 1] != StepChildren(steps)[y + 1];
    }
  }


  /** `steps` places the instances of the host fibers `ids`, in order, each with `before`. */
  ghost predicate PlacesHosts(fibers: map<FiberId, FiberNode>, steps: seq<Step>, ids: seq<FiberId>, before: Option<InstanceRef>)
  {
    |steps| == |ids| &&
    forall i | 0 <= i < |ids| :: ids[i] in fibers && fibers[ids[i]].stateNode.HostNode? &&
                                 steps[i] == Step(fibers[ids[i]].stateNode.instance, before)
  }

  lemma PlacesHostsConcat(fibers: map<FiberId, FiberNode>, a: seq<Step>, x: seq<FiberId>, b: seq<Step>, y: seq<FiberId>, before: Option<InstanceRef>)
    requires PlacesHosts(fibers, a, x, before) && PlacesHosts(fibers, b, y, before)
    ensures PlacesHosts(fibers, a + b, x + y, before)
  {
    assert forall i | |x| <= i < |x + y| :: (x + y)[i] == y[i - |x|] && (a + b)[i] == b[i - |x|];
  }

  /**
   * A placement makes one host call for each of the host fibers nearest
   * the top of the placed subtree, `TopHosts`, the same ones
   * `appendAllChildren` appends; all of them with the same `before`.
   */
  lemma {:induction false} PlacementPlacesTopHosts(fibers: map<FiberId, FiberNode>, s: Tree, before: Option<InstanceRef>)
    requires Spans(fibers, s, Nowhere) && ShapedTree(fibers, s)
    ensures PlacesHosts(fibers, PlacementSteps(fibers, s, before), CompleteWork.TopHosts(fibers, [s]), before)
    decreases s, 1
  {
    assert [s][0] == s && [s][1..] == [];
    if !IsHost(fibers[s.id]) {
      PlacementAllPlacesTopHosts(fibers, s.kids, before);
      assert CompleteWork.TopHosts(fibers, [s]) == CompleteWork.TopHosts(fibers, s.kids) + [];
    }
  }

  lemma {:induction false} PlacementAllPlacesTopHosts(fibers: map<FiberId, FiberNode>, ts: seq<Tree>, before: Option<InstanceRef>)
    requires forall i | 0 <= i < |ts| :: Below(fibers, ts[i], Nowhere) && ShapedTree(fibers, ts[i])
    ensures PlacesHosts(fibers, PlacementStepsAll(fibers, ts, before), CompleteWork.TopHosts(fibers, ts), before)
    decreases ts, 0
  {
    if ts != [] {
      assert Below(fibers, ts[0], Nowhere) && !Stops(Nowhere, fibers[ts[0].id]);
      PlacementPlacesTopHosts(fibers, ts[0], before);
      PlacementAllPlacesTopHosts(fibers, ts[1..], before);
      assert [ts[0]][0] == ts[0] && [ts[0]][1..] == [];
      assert CompleteWork.TopHosts(fibers, [ts[0]]) ==
             if IsHost(fibers[ts[0].id]) then [ts[0].id] else CompleteWork.TopHosts(fibers, ts[0].kids);
      PlacesHostsConcat(fibers, PlacementSteps(fibers, ts[0], before), CompleteWork.TopHosts(fibers, [ts[0]]),
                        PlacementStepsAll(fibers, ts[1..], before), CompleteWork.TopHosts(fibers, ts[1..]), before);
    }
  }


  /** A FunctionComponent fiber 1 whose only child is a HostComponent fiber 2 for the instance 7. */
  const ExampleFibers: map<FiberId, FiberNode> :=
    map[1 := InitialFiber(FunctionComponent, Null, Null).(child := Some(2)),
        2 := InitialFiber(HostComponent, Null, Null).(stateNode := HostNode(7), ret := Some(1))]
  const ExampleTree := Node(1, [Node(2, [])])
  const ExampleInstances: map<InstanceRef, HostInstance> := map[7 := Instance(7, Str("div"), [], NoParent, Null)]

  lemma ExampleShape()
    ensures Spans(ExampleFibers, ExampleTree, Nowhere) && ShapedTree(ExampleFibers, ExampleTree)
  {
    assert Ids(ExampleTree.kids) == [2];
    assert Below(ExampleFibers, ExampleTree.kids[0], Nowhere);
  }

  /**
   * As written, a placed function component in front of a host sibling
   * puts its host child after that sibling: placing the example subtree
   * before the instance 5, the only child of its parent, yields `[5, 7]`
   * as written and `[7, 5]` as intended.
   */
  lemma PlacementAsWrittenAppendsPastSibling()
    ensures Spans(ExampleFibers, ExampleTree, Nowhere) && ShapedTree(ExampleFibers, ExampleTree)
    ensures Place(ExampleInstances, Num(0), Placed([5], {}), PlacementStepsAsWritten(ExampleFibers, ExampleTree, Some(5))) == Ok(Placed([5, 7], {7}))
    ensures Place(ExampleInstances, Num(0), Placed([5], {}), PlacementSteps(ExampleFibers, ExampleTree, Some(5))) == Ok(Placed([7, 5], {}))
  {
    ExampleShape();
    ExampleKidSteps();
    ExampleAppend();
    ExampleInsert();
  }

  /** The steps for the children of the example's top fiber, with and without `before`. */
  lemma ExampleKidSteps()
    requires Spans(ExampleFibers, ExampleTree, Nowhere) && ShapedTree(ExampleFibers, ExampleTree)
    ensures PlacementStepsAll(ExampleFibers, ExampleTree.kids, None) == [Step(7, None)]
    ensures PlacementStepsAll(ExampleFibers, ExampleTree.kids, Some(5)) == [Step(7, Some(5))]
  {
    var fibers, s := ExampleFibers, ExampleTree;
    assert Below(fibers, s.kids[0], Nowhere) && ShapedTree(fibers, s.kids[0]);
    assert s.kids[1..] == [];
    assert PlacementSteps(fibers, s.kids[0], None) == [Step(7, None)];
    assert PlacementSteps(fibers, s.kids[0], Some(5)) == [Step(7, Some(5))];
  }

  lemma ExampleAppend()
    ensures PlaceStep(ExampleInstances, Num(0), Placed([5], {}), Step(7, None)) == Ok(Placed([5, 7], {7}))
  {
    assert 7 in ExampleInstances && ExampleInstances[7].parent == NoParent;
    assert ParentField(ExampleInstances, Num(0), {}, 7) == NoParent;
    assert [5] + [7] == [5, 7];
    var none: set<InstanceRef> := {};
    assert none + {7} == {7};
  }

  lemma ExampleInsert()
    ensures InsertBefore([5], 7, 5) == Ok([7, 5])
  {
    assert IndexOf([5], 5) == 0 && IndexOf([5], 7) == -1 && WithoutChild([5], 7) == [5];
    assert InsertAt([5], 0, 7) == [7, 5];
  }

  /** The ancestors of the node at `p`, parent first, as its `return` links lead up through the tree. */
  ghost function Ancestors(t: Tree, p: seq<nat>): seq<FiberId>
    requires ValidPath(t, p)
    decreases |p|
  {
    if p == [] then []
    else
      var q := p[..|p| - 1];
      assert p == q + [p[|p| - 1]];
      PathParent(t, q, p[|p| - 1]);
      [Sub(t, q).id] + Ancestors(t, q)
  }

  /** In the whole tree the `return` chain of any node is its ancestors, all of them shaped. */
  lemma {:induction false} AncestorsChain(fibers: map<FiberId, FiberNode>, t: Tree, p: seq<nat>)
    requires WholeTree(fibers, t) && ValidPath(t, p)
    ensures Sub(t, p).id in fibers && ReturnChain(fibers, fibers[Sub(t, p).id].ret, Ancestors(t, p))
    ensures ShapedAll(fibers, Ancestors(t, p))
    decreases |p|
  {
    Neighbours(fibers, t, p);
    if p != [] {
      var q := p[..|p| - 1];
      assert p == q + [p[|p| - 1]];
      PathParent(t, q, p[|p| - 1]);
      AncestorsChain(fibers, t, q);
      ShapedAt(fibers, t, q);
      var chain := Ancestors(t, p);
      assert chain == [Sub(t, q).id] + Ancestors(t, q);
      assert chain[1..] == Ancestors(t, q);
      assert forall i | 1 <= i < |chain| :: chain[i] == Ancestors(t, q)[i - 1];
    }
  }

  /** The host node a fiber at `p` is placed under. */
  ghost function HostParentAt(fibers: map<FiberId, FiberNode>, t: Tree, p: seq<nat>): Option<HostParent>
    requires WholeTree(fibers, t) && ValidPath(t, p)
  {
    AncestorsChain(fibers, t, p);
    HostParentIn(fibers, Ancestors(t, p))
  }

  /** The host calls placing the fiber at `p`: its `PlacementSteps` before its host sibling. */
  ghost function PlacementStepsAt(fibers: map<FiberId, FiberNode>, t: Tree, p: seq<nat>): seq<Step>
    requires WholeTree(fibers, t) && ValidPath(t, p)
  {
    SubSpans(fibers, t, p);
    ShapedAt(fibers, t, p);
    PlacementSteps(fibers, Sub(t, p), HostSiblingOf(fibers, t, p))
  }

  /**
   * `commitPlacement(finishedWork)`: the host calls of `PlacementSteps`
   * under the host parent, before the host sibling if there is one; no
   * call without a host parent.  The fibers are left as they were.
   */
  method CommitPlacement(store: FiberStore, host: NoopHost, fiber: FiberId, ghost t: Tree, ghost p: seq<nat>) returns (r: Result<()>)
    requires WholeTree(store.fibers, t) && ValidPath(t, p) && Sub(t, p).id == fiber
    requires CompleteWork.HostNodesIn(store.fibers, host.instances)
    requires var parent := HostParentAt(store.fibers, t, p); parent.Some? ==> host.HasChildren(parent.value)
    modifies store`fibers, host`instances, host`containers
    ensures store.fibers == old(store.fibers)
    ensures var parent := HostParentAt(store.fibers, t, p);
            parent.None? ==> r.Ok? && host.instances == old(host.instances) && host.containers == old(host.containers)
    ensures var parent := HostParentAt(store.fibers, t, p);
            parent.Some? ==>
              var res := Place(old(host.instances), RootIdIn(old(host.containers), parent.value),
                               Placed(old(host.ChildrenOf(parent.value)), {}), PlacementStepsAt(store.fibers, t, p));
              (r.Ok? <==> res.Ok?) && (r.Err? ==> r.message == res.message) &&
              (res.Ok? ==> Tracks(host, old(host.instances), old(host.containers), parent.value, res.value))
  {
    AncestorsChain(store.fibers, t, p);
    var parent := GetHostParent(store, fiber, Ancestors(t, p));
    var before := GetHostSibling(store, fiber, t, p);
    if parent.None? {
      return Ok(());
    }
    SubSpans(store.fibers, t, p);
    ShapedAt(store.fibers, t, p);
    ghost var at := Placed(host.ChildrenOf(parent.value), {});
    StartTracking(host, parent.value);
    r := InsertOrAppendPlacementNode(store, host, fiber, parent.value, before, Sub(t, p), host.instances, host.containers, at);
  }

  /** Before any host call the host `Tracks` a placement that has not moved on. */
  lemma StartTracking(host: NoopHost, parent: HostParent)
    requires host.HasChildren(parent)
    ensures Tracks(host, host.instances, host.containers, parent, Placed(host.ChildrenOf(parent), {}))
  {
    var at := Placed(host.ChildrenOf(parent), {});
    var want := InstancesAt(host.instances, parent, RootIdIn(host.containers, parent), at);
    assert want.Keys == host.instances.Keys;
    forall x | x in want ensures want[x] == host.instances[x] {
    }
    assert host.containers == ContainersAt(host.containers, parent, at);
  }


  // ---------------------------------------------------------------------
  // Writes to `flags` keep the shape the commit phase reads

  lemma {:induction false} ShapedTreeKept(fibers: map<FiberId, FiberNode>, fibers': map<FiberId, FiberNode>, t: Tree)
    requires ShapedTree(fibers, t) && KeptOn(fibers, fibers', Visit(t))
    ensures ShapedTree(fibers', t)
    decreases t
  {
    assert Visit(t)[0] == t.id;
    forall k | 0 <= k < |t.kids|
      ensures ShapedTree(fibers', t.kids[k])
    {
      KidInVisit(t, k);
      ShapedTreeKept(fibers, fibers', t.kids[k]);
    }
  }

  lemma ShapedAllKept(fibers: map<FiberId, FiberNode>, fibers': map<FiberId, FiberNode>, ids: seq<FiberId>)
    requires ShapedAll(fibers, ids) && KeptOn(fibers, fibers', ids)
    ensures ShapedAll(fibers', ids)
  {
    assert forall i | 0 <= i < |ids| :: ids[i] in ids;
  }

  /** The host parent found along a chain is read from kinds and host nodes only. */
  lemma {:induction false} HostParentInKept(fibers: map<FiberId, FiberNode>, fibers': map<FiberId, FiberNode>, chain: seq<FiberId>)
    requires ShapedAll(fibers, chain) && KeptOn(fibers, fibers', chain)
    ensures ShapedAll(fibers', chain) && HostParentIn(fibers', chain) == HostParentIn(fibers, chain)
    decreases |chain|
  {
    ShapedAllKept(fibers, fibers', chain);
    if chain != [] {
      assert chain[0] in chain;
      if !HostParentTag(fibers[chain[0]]) {
        assert forall i | 0 <= i < |chain[1..]| :: chain[1..][i] == chain[i + 1];
        HostParentInKept(fibers, fibers', chain[1..]);
      }
    }
  }

  lemma {:induction false} AncestorsInVisit(t: Tree, p: seq<nat>)
    requires ValidPath(t, p)
    ensures forall x | x in Ancestors(t, p) :: x in Visit(t)
    decreases |p|
  {
    if p != [] {
      var q := p[..|p| - 1];
      assert p == q + [p[|p| - 1]];
      PathParent(t, q, p[|p| - 1]);
      AncestorsInVisit(t, q);
      SubInVisit(t, q);
      assert Visit(Sub(t, q))[0] == Sub(t, q).id;
    }
  }

  lemma WholeTreeKept(fibers: map<FiberId, FiberNode>, fibers': map<FiberId, FiberNode>, t: Tree)
    requires WholeTree(fibers, t) && KeptOn(fibers, fibers', Visit(t))
    ensures WholeTree(fibers', t)
  {
    assert Visit(t)[0] == t.id;
    SpansKept(fibers, fibers', t, Nowhere);
    ParentedKept(fibers, fibers', t);
    ShapedTreeKept(fibers, fibers', t);
  }

  /** Where a fiber of the whole tree is placed does not depend on any fiber's `flags`. */
  lemma HostParentAtKept(fibers: map<FiberId, FiberNode>, fibers': map<FiberId, FiberNode>, t: Tree, p: seq<nat>)
    requires WholeTree(fibers, t) && ValidPath(t, p) && KeptOn(fibers, fibers', Visit(t))
    ensures WholeTree(fibers', t) && HostParentAt(fibers', t, p) == HostParentAt(fibers, t, p)
  {
    WholeTreeKept(fibers, fibers', t);
    AncestorsChain(fibers, t, p);
    AncestorsInVisit(t, p);
    HostParentInKept(fibers, fibers', Ancestors(t, p));
  }
}
