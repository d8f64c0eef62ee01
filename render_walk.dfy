/**
 * The order in which the render loop of `workLoop.ts` calls `beginWork`
 * and `completeWork` on a tree, the arena after those calls, and the part
 * of the tree the render has linked after each call.
 *
 * `beginWork` is a function from the arena and a fiber to the arena after
 * the call and the fiber it returns, or the error the call throws;
 * `completeWork` gives the arena after the call, or the error.  A ghost
 * `Tree` names the tree the loop walks: the children of a node are the
 * fiber `beginWork` returns for it and that fiber's siblings.  A fiber that
 * bails out (`beginWork` returns `null`) is a leaf of that tree whatever
 * its `child` holds, and a Suspense fiber showing its fallback has the
 * fallback fragment as its only child, the hidden primary child never
 * being begun.  `beginWork` on a node returns its first child in the tree
 * and leaves the children pointing back at it and at each other
 * (`BuildsAt`); `completeWork` moves no link (`LinksKept`).
 */
module RenderWalk {
  import opened Wrappers
  import opened Fiber
  import opened FiberTree
  import opened ChildFibers
  import WorkTags
  import Js

  /** A call of the loop that returned: `beginWork(fiber)` or `completeWork(fiber)`. */
  datatype Step = Begin(fiber: FiberId) | Complete(fiber: FiberId)

  /** `beginWork` on the arena: the arena after the call and the fiber it returns, or the error thrown. */
  type BeginFn = (map<FiberId, FiberNode>, FiberId) -> Result<(map<FiberId, FiberNode>, Option<FiberId>)>

  /** `completeWork` on the arena: the arena after the call, or the error thrown. */
  type CompleteFn = (map<FiberId, FiberNode>, FiberId) -> Result<map<FiberId, FiberNode>>

  // ---------------------------------------------------------------------
  // The order of the calls
  // ---------------------------------------------------------------------

  /** The calls a render of `t` makes: the top begun, its children's subtrees, the top completed. */
  function WorkOrder(t: Tree): seq<Step>
    decreases t, 1
  {
    Opened(t) + [Complete(t.id)]
  }

  /** The calls of a render of `t` up to, and without, completing its top. */
  function Opened(t: Tree): seq<Step>
    decreases t, 0
  {
    [Begin(t.id)] + WorkOrderAll(t.kids)
  }

  function WorkOrderAll(ts: seq<Tree>): seq<Step>
    decreases ts
  {
    if ts == [] then [] else WorkOrder(ts[0]) + WorkOrderAll(ts[1..])
  }

  /** The calls a render of `t` makes before it begins the node at `p`. */
  function WorkBefore(t: Tree, p: seq<nat>): seq<Step>
    requires ValidPath(t, p)
    decreases p
  {
    if p == [] then [] else [Begin(t.id)] + WorkOrderAll(t.kids[..p[0]]) + WorkBefore(t.kids[p[0]], p[1..])
  }

  /** The calls a render of `t` makes after it completes the node at `p`. */
  function WorkAfter(t: Tree, p: seq<nat>): seq<Step>
    requires ValidPath(t, p)
    decreases p
  {
    if p == [] then [] else WorkAfter(t.kids[p[0]], p[1..]) + WorkOrderAll(t.kids[p[0] + 1..]) + [Complete(t.id)]
  }

  /** The fibers begun, in order. */
  function Begun(s: seq<Step>): seq<FiberId>
  {
    if s == [] then [] else (if s[0].Begin? then [s[0].fiber] else []) + Begun(s[1..])
  }

  /** The fibers completed, in order. */
  function Completed(s: seq<Step>): seq<FiberId>
  {
    if s == [] then [] else (if s[0].Complete? then [s[0].fiber] else []) + Completed(s[1..])
  }

  lemma {:induction false} BegunAppend(a: seq<Step>, b: seq<Step>)
    ensures Begun(a + b) == Begun(a) + Begun(b) && Completed(a + b) == Completed(a) + Completed(b)
    decreases |a|
  {
    if a != [] {
      assert (a + b)[0] == a[0] && (a + b)[1..] == a[1..] + b;
      BegunAppend(a[1..], b);
    } else {
      assert a + b == b;
    }
  }

  lemma {:induction false} WorkOrderAllAppend(a: seq<Tree>, b: seq<Tree>)
    ensures WorkOrderAll(a + b) == WorkOrderAll(a) + WorkOrderAll(b)
    decreases |a|
  {
    if a != [] {
      assert (a + b)[0] == a[0] && (a + b)[1..] == a[1..] + b;
      WorkOrderAllAppend(a[1..], b);
      Assoc(WorkOrder(a[0]), WorkOrderAll(a[1..]), WorkOrderAll(b));
    } else {
      assert a + b == b;
    }
  }

  lemma {:induction false} WorkOrderAllSnoc(ts: seq<Tree>, i: nat)
    requires i < |ts|
    ensures WorkOrderAll(ts[..i + 1]) == WorkOrderAll(ts[..i]) + WorkOrder(ts[i])
    ensures WorkOrderAll(ts) == WorkOrderAll(ts[..i + 1]) + WorkOrderAll(ts[i + 1..])
  {
    assert ts[..i + 1] == ts[..i] + [ts[i]];
    WorkOrderAllAppend(ts[..i], [ts[i]]);
    assert WorkOrderAll([ts[i]]) == WorkOrder(ts[i]) + WorkOrderAll([]);
    assert ts == ts[..i + 1] + ts[i + 1..];
    WorkOrderAllAppend(ts[..i + 1], ts[i + 1..]);
  }

  /** Before the `i`-th child of a node come the calls before the node, its begin, and the earlier children's subtrees. */
  lemma {:induction false} WorkBeforeChild(t: Tree, p: seq<nat>, i: nat)
    requires ValidPath(t, p) && i < |Sub(t, p).kids|
    ensures ValidPath(t, p + [i]) && Sub(t, p + [i]) == Sub(t, p).kids[i]
    ensures WorkBefore(t, p + [i]) == WorkBefore(t, p) + [Begin(Sub(t, p).id)] + WorkOrderAll(Sub(t, p).kids[..i])
    decreases p
  {
    PathExtends(t, p, i);
    if p != [] {
      assert (p + [i])[1..] == p[1..] + [i];
      WorkBeforeChild(t.kids[p[0]], p[1..], i);
    }
  }

  /** A render of `t` makes the calls before `p`, those of the subtree at `p`, then the rest. */
  lemma {:induction false} WorkSplits(t: Tree, p: seq<nat>)
    requires ValidPath(t, p)
    ensures WorkOrder(t) == WorkBefore(t, p) + WorkOrder(Sub(t, p)) + WorkAfter(t, p)
    decreases p
  {
    if p != [] {
      var i, k := p[0], t.kids[p[0]];
      WorkSplits(k, p[1..]);
      WorkOrderAllSnoc(t.kids, i);
      var x, b, v, a, r := WorkOrderAll(t.kids[..i]), WorkBefore(k, p[1..]), WorkOrder(Sub(k, p[1..])), WorkAfter(k, p[1..]), WorkOrderAll(t.kids[i + 1..]);
      assert WorkOrder(t) == ([Begin(t.id)] + ((x + (b + v + a)) + r)) + [Complete(t.id)];
      Regroup7([Begin(t.id)], x, b, v, a, r, [Complete(t.id)]);
    }
  }

  lemma Regroup7<T>(o: seq<T>, x: seq<T>, b: seq<T>, v: seq<T>, a: seq<T>, r: seq<T>, c: seq<T>)
    ensures (o + ((x + (b + v + a)) + r)) + c == (o + x + b) + v + (a + r + c)
  {
  }

  /**
   * What a render has done by the time it completes the node at `p` is a
   * start of the whole render, and what it has done before it closes the
   * node is a proper start.
   */
  lemma WorkPrefix(t: Tree, p: seq<nat>)
    requires ValidPath(t, p)
    ensures WorkBefore(t, p) + Opened(Sub(t, p)) < WorkOrder(t)
    ensures WorkBefore(t, p) + WorkOrder(Sub(t, p)) <= WorkOrder(t)
  {
    WorkSplits(t, p);
    var b, o, z := WorkBefore(t, p), Opened(Sub(t, p)), [Complete(Sub(t, p).id)] + WorkAfter(t, p);
    assert WorkOrder(t) == (b + o) + z;
    assert WorkOrder(t)[..|b + o|] == b + o;
    assert WorkOrder(t) == (b + o + [Complete(Sub(t, p).id)]) + WorkAfter(t, p);
    assert WorkOrder(t)[..|b + o| + 1] == b + o + [Complete(Sub(t, p).id)];
  }

  /** Going down: the first child is begun right after its parent. */
  lemma WorkDown(t: Tree, p: seq<nat>)
    requires ValidPath(t, p) && Sub(t, p).kids != []
    ensures ValidPath(t, p + [0]) && Sub(t, p + [0]) == Sub(t, p).kids[0]
    ensures WorkBefore(t, p + [0]) == WorkBefore(t, p) + [Begin(Sub(t, p).id)]
    ensures Before(t, p + [0]) == Before(t, p) + [Sub(t, p).id]
  {
    WorkBeforeChild(t, p, 0);
    BeforeChild(t, p, 0);
    assert Sub(t, p).kids[..0] == [];
  }

  /** Going across: the next sibling is begun right after the subtree of the last one. */
  lemma WorkAcross(t: Tree, q: seq<nat>, i: nat)
    requires ValidPath(t, q) && i + 1 < |Sub(t, q).kids|
    ensures ValidPath(t, q + [i]) && ValidPath(t, q + [i + 1]) && Sub(t, q + [i + 1]) == Sub(t, q).kids[i + 1]
    ensures Sub(t, q + [i]) == Sub(t, q).kids[i]
    ensures WorkBefore(t, q + [i + 1]) == WorkBefore(t, q + [i]) + WorkOrder(Sub(t, q + [i]))
    ensures Before(t, q + [i + 1]) == Before(t, q + [i]) + Visit(Sub(t, q + [i]))
  {
    WorkAcrossOrder(t, q, i);
    PreAcross(t, q, i);
  }

  lemma WorkAcrossOrder(t: Tree, q: seq<nat>, i: nat)
    requires ValidPath(t, q) && i + 1 < |Sub(t, q).kids|
    ensures ValidPath(t, q + [i]) && ValidPath(t, q + [i + 1]) && Sub(t, q + [i + 1]) == Sub(t, q).kids[i + 1]
    ensures Sub(t, q + [i]) == Sub(t, q).kids[i]
    ensures WorkBefore(t, q + [i + 1]) == WorkBefore(t, q + [i]) + WorkOrder(Sub(t, q + [i]))
  {
    var n := Sub(t, q);
    WorkBeforeChild(t, q, i);
    WorkBeforeChild(t, q, i + 1);
    WorkOrderAllSnoc(n.kids, i);
    Assoc(WorkBefore(t, q) + [Begin(n.id)], WorkOrderAll(n.kids[..i]), WorkOrder(n.kids[i]));
  }

  /** Going up: the parent is completed right after the subtree of its last child. */
  lemma WorkUp(t: Tree, q: seq<nat>, i: nat)
    requires ValidPath(t, q) && i + 1 == |Sub(t, q).kids|
    ensures ValidPath(t, q + [i]) && Sub(t, q + [i]) == Sub(t, q).kids[i]
    ensures WorkBefore(t, q) + Opened(Sub(t, q)) == WorkBefore(t, q + [i]) + WorkOrder(Sub(t, q + [i]))
    ensures Before(t, q) + Visit(Sub(t, q)) == Before(t, q + [i]) + Visit(Sub(t, q + [i]))
  {
    WorkUpOrder(t, q, i);
    StepUp(t, q, i);
  }

  lemma WorkUpOrder(t: Tree, q: seq<nat>, i: nat)
    requires ValidPath(t, q) && i + 1 == |Sub(t, q).kids|
    ensures ValidPath(t, q + [i]) && Sub(t, q + [i]) == Sub(t, q).kids[i]
    ensures WorkBefore(t, q) + Opened(Sub(t, q)) == WorkBefore(t, q + [i]) + WorkOrder(Sub(t, q + [i]))
  {
    var n := Sub(t, q);
    WorkBeforeChild(t, q, i);
    WorkOrderAllSnoc(n.kids, i);
    assert n.kids[..i + 1] == n.kids;
    var b, x, w := WorkBefore(t, q), WorkOrderAll(n.kids[..i]), WorkOrder(n.kids[i]);
    Assoc([Begin(n.id)], x, w);
    Assoc(b, [Begin(n.id)] + x, w);
    Assoc(b, [Begin(n.id)], x);
  }

  /** A render begins the nodes in pre-order and completes them in post-order. */
  lemma {:induction false} WorkOrderVisits(t: Tree)
    ensures Begun(WorkOrder(t)) == Visit(t) && Completed(WorkOrder(t)) == PostVisit(t)
    decreases t, 1
  {
    WorkOrderAllVisits(t.kids);
    BegunAppend([Begin(t.id)], WorkOrderAll(t.kids));
    BegunAppend(Opened(t), [Complete(t.id)]);
  }

  lemma {:induction false} WorkOrderAllVisits(ts: seq<Tree>)
    ensures Begun(WorkOrderAll(ts)) == VisitAll(ts) && Completed(WorkOrderAll(ts)) == PostVisitAll(ts)
    decreases ts, 0
  {
    if ts != [] {
      WorkOrderVisits(ts[0]);
      WorkOrderAllVisits(ts[1..]);
      BegunAppend(WorkOrder(ts[0]), WorkOrderAll(ts[1..]));
    }
  }

  /**
   * Each fiber of a tree met once is begun once and completed once, and
   * everything below it is begun and completed between its own begin and
   * its own complete.
   */
  lemma RenderedOnce(t: Tree, p: seq<nat>)
    requires ValidPath(t, p) && Distinct(Visit(t))
    ensures Distinct(Begun(WorkOrder(t))) && Distinct(Completed(WorkOrder(t)))
    ensures exists inner: seq<Step> ::
              WorkOrder(t) == WorkBefore(t, p) + [Begin(Sub(t, p).id)] + inner + [Complete(Sub(t, p).id)] + WorkAfter(t, p) &&
              Begun(inner) == VisitAll(Sub(t, p).kids) && Completed(inner) == PostVisitAll(Sub(t, p).kids)
  {
    WorkOrderVisits(t);
    PostVisitSame(t);
    RenderedBetween(t, p);
  }

  lemma RenderedBetween(t: Tree, p: seq<nat>)
    requires ValidPath(t, p)
    ensures WorkOrder(t) == WorkBefore(t, p) + [Begin(Sub(t, p).id)] + WorkOrderAll(Sub(t, p).kids) + [Complete(Sub(t, p).id)] + WorkAfter(t, p)
    ensures Begun(WorkOrderAll(Sub(t, p).kids)) == VisitAll(Sub(t, p).kids)
    ensures Completed(WorkOrderAll(Sub(t, p).kids)) == PostVisitAll(Sub(t, p).kids)
  {
    var s := Sub(t, p);
    WorkSplits(t, p);
    WorkOrderAllVisits(s.kids);
    var b, o, inner, c := WorkBefore(t, p), [Begin(s.id)], WorkOrderAll(s.kids), [Complete(s.id)];
    Assoc(b, o + inner, c);
    Assoc(b, o, inner);
  }

  // ---------------------------------------------------------------------
  // What beginWork and completeWork may do to the links
  // ---------------------------------------------------------------------

  predicate SameNodeLinks(f: FiberNode, g: FiberNode)
  {
    f.ret == g.ret && f.child == g.child && f.sibling == g.sibling
  }

  function FirstKid(n: Tree): Option<FiberId>
  {
    if n.kids == [] then None else Some(n.kids[0].id)
  }

  function NextKid(n: Tree, i: nat): Option<FiberId>
  {
    if i + 1 < |n.kids| then Some(n.kids[i + 1].id) else None
  }

  /**
   * The children of `n` in the walk point back at it through `return` and
   * follow each other through `sibling`, the last one having none.
   */
  ghost predicate LinkedAt(fibers: map<FiberId, FiberNode>, n: Tree)
  {
    n.id in fibers &&
    forall i | 0 <= i < |n.kids| ::
      n.kids[i].id in fibers && fibers[n.kids[i].id].ret == Some(n.id) && fibers[n.kids[i].id].sibling == NextKid(n, i)
  }

  /**
   * `beginWork` on the fiber of `n`, a node of the walked tree `t`, returns
   * the first child of `n` in the walk, or `null` when the walk has none
   * below `n`; it links those children under `n`, moves the `return` and
   * `sibling` of no other fiber of the walk, and removes no fiber from the
   * arena.  Fibers outside the walk, such as a hidden primary child, are
   * left free.
   */
  ghost predicate BuildsAt(fibers: map<FiberId, FiberNode>, fibers': map<FiberId, FiberNode>, next: Option<FiberId>, t: Tree, n: Tree)
    requires n.id in fibers
  {
    next == FirstKid(n) && LinkedAt(fibers', n) &&
    fibers'[n.id].ret == fibers[n.id].ret && fibers'[n.id].sibling == fibers[n.id].sibling &&
    Grows(fibers, fibers') &&
    forall y | y in fibers && y in Visit(t) && y != n.id && y !in Ids(n.kids) ::
      fibers'[y].ret == fibers[y].ret && fibers'[y].sibling == fibers[y].sibling
  }

  ghost predicate LinksKept(fibers: map<FiberId, FiberNode>, fibers': map<FiberId, FiberNode>)
  {
    forall y | y in fibers :: y in fibers' && SameNodeLinks(fibers[y], fibers'[y])
  }

  ghost predicate Grows(fibers: map<FiberId, FiberNode>, fibers': map<FiberId, FiberNode>)
  {
    fibers.Keys <= fibers'.Keys
  }

  /**
   * The part of `t` the render has built once it has begun the fibers of
   * `begun`: the top has no parent and no sibling, and each fiber begun has
   * its children linked.
   */
  ghost predicate Ready(fibers: map<FiberId, FiberNode>, t: Tree, begun: seq<FiberId>)
  {
    t.id in fibers && fibers[t.id].ret.None? && fibers[t.id].sibling.None? &&
    forall q | ValidPath(t, q) && Sub(t, q).id in begun :: LinkedAt(fibers, Sub(t, q))
  }

  // ---------------------------------------------------------------------
  // The arena after the calls
  // ---------------------------------------------------------------------

  /** `fiber.memoizedProps = fiber.pendingProps`, after `beginWork`. */
  function Memoized(fibers: map<FiberId, FiberNode>, x: FiberId): (r: map<FiberId, FiberNode>)
    requires x in fibers
    ensures r.Keys == fibers.Keys && r[x].memoizedProps == fibers[x].pendingProps
    ensures r[x] == fibers[x].(memoizedProps := r[x].memoizedProps)
    ensures forall y | y in fibers && y != x :: r[y] == fibers[y]
  {
    fibers[x := fibers[x].(memoizedProps := fibers[x].pendingProps)]
  }

  function Apply(begin: BeginFn, complete: CompleteFn, fibers: map<FiberId, FiberNode>, s: Step): map<FiberId, FiberNode>
  {
    match s
    case Begin(x) =>
      var r := begin(fibers, x);
      if r.Ok? && x in r.value.0 then Memoized(r.value.0, x) else fibers
    case Complete(x) =>
      var r := complete(fibers, x);
      if r.Ok? then r.value else fibers
  }

  /** The arena after the calls `steps`, made in order on `fibers`. */
  function Replay(begin: BeginFn, complete: CompleteFn, fibers: map<FiberId, FiberNode>, steps: seq<Step>): map<FiberId, FiberNode>
    decreases |steps|
  {
    if steps == [] then fibers
    else Apply(begin, complete, Replay(begin, complete, fibers, steps[..|steps| - 1]), steps[|steps| - 1])
  }

  lemma ReplaySnoc(begin: BeginFn, complete: CompleteFn, fibers: map<FiberId, FiberNode>, steps: seq<Step>, s: Step)
    ensures Replay(begin, complete, fibers, steps + [s]) == Apply(begin, complete, Replay(begin, complete, fibers, steps), s)
  {
    assert (steps + [s])[..|steps|] == steps;
  }

  // ---------------------------------------------------------------------
  // The built part of the tree, step by step
  // ---------------------------------------------------------------------

  /** In a tree met once, a fiber sits at one path only. */
  lemma {:induction false} PathUnique(t: Tree, a: seq<nat>, b: seq<nat>)
    requires Distinct(Visit(t)) && ValidPath(t, a) && ValidPath(t, b) && Sub(t, a).id == Sub(t, b).id
    ensures a == b
    decreases a
  {
    if a == [] {
      if b != [] {
        TopOnlyAtEmptyPath(t, b);
        assert false;
      }
    } else if b == [] {
      TopOnlyAtEmptyPath(t, a);
      assert false;
    } else {
      var i, j := a[0], b[0];
      var x := Sub(t, a).id;
      DistinctConcat([t.id], VisitAll(t.kids));
      DistinctKids(t.kids, i);
      SubInVisit(t.kids[i], a[1..]);
      SubInVisit(t.kids[j], b[1..]);
      assert Visit(Sub(t.kids[i], a[1..]))[0] == x && x in Visit(Sub(t.kids[i], a[1..]));
      assert Visit(Sub(t.kids[j], b[1..]))[0] == x && x in Visit(Sub(t.kids[j], b[1..]));
      assert x in Visit(t.kids[i]) && x in Visit(t.kids[j]);
      if i == j {
        PathUnique(t.kids[i], a[1..], b[1..]);
        assert a == [i] + a[1..] && b == [j] + b[1..];
      } else {
        assert false;
      }
    }
  }

  /** Writes that move no link keep what is built. */
  lemma ReadyKept(fibers: map<FiberId, FiberNode>, fibers': map<FiberId, FiberNode>, t: Tree, begun: seq<FiberId>)
    requires Ready(fibers, t, begun) && LinksKept(fibers, fibers')
    ensures Ready(fibers', t, begun)
  {
    forall q | ValidPath(t, q) && Sub(t, q).id in begun
      ensures LinkedAt(fibers', Sub(t, q))
    {
      assert LinkedAt(fibers, Sub(t, q));
    }
  }

  /** In a tree met once, two children with the same fiber have the same parent. */
  lemma SameParent(t: Tree, p: seq<nat>, q: seq<nat>, i: nat, j: nat)
    requires Distinct(Visit(t)) && ValidPath(t, p) && ValidPath(t, q) && i < |Sub(t, p).kids| && j < |Sub(t, q).kids|
    requires Sub(t, p).kids[i].id == Sub(t, q).kids[j].id
    ensures q == p
  {
    PathExtends(t, q, j);
    PathExtends(t, p, i);
    PathUnique(t, q + [j], p + [i]);
    assert q == (q + [j])[..|q|] && p == (p + [i])[..|p|];
  }

  /** In a tree met once, no node is a child of two different nodes. */
  lemma NotKidOfBoth(t: Tree, p: seq<nat>, q: seq<nat>, j: nat)
    requires Distinct(Visit(t)) && ValidPath(t, p) && ValidPath(t, q) && j < |Sub(t, q).kids| && Sub(t, q).id != Sub(t, p).id
    ensures Sub(t, q).kids[j].id !in Ids(Sub(t, p).kids)
  {
    if Sub(t, q).kids[j].id in Ids(Sub(t, p).kids) {
      var i :| 0 <= i < |Sub(t, p).kids| && Sub(t, p).kids[i].id == Sub(t, q).kids[j].id;
      SameParent(t, p, q, i, j);
      assert false;
    }
  }

  /** A fiber built before the node at `p` is begun stays built when `beginWork` runs on that node. */
  lemma LinkedKept(fibers: map<FiberId, FiberNode>, fibers': map<FiberId, FiberNode>, next: Option<FiberId>, t: Tree, p: seq<nat>, q: seq<nat>)
    requires Distinct(Visit(t)) && ValidPath(t, p) && ValidPath(t, q)
    requires Ready(fibers, t, Before(t, p)) && Sub(t, p).id in fibers && BuildsAt(fibers, fibers', next, t, Sub(t, p))
    requires forall y | y in Before(t, p) :: y !in Visit(Sub(t, p))
    requires Sub(t, q).id in Before(t, p) + [Sub(t, p).id]
    ensures LinkedAt(fibers', Sub(t, q))
  {
    var x, n := Sub(t, p), Sub(t, q);
    if n.id == x.id {
      PathUnique(t, q, p);
    } else {
      assert n.id in Before(t, p) && LinkedAt(fibers, n);
      if n.id in Ids(x.kids) {
        var i :| 0 <= i < |x.kids| && x.kids[i].id == n.id;
        KidInVisit(x, i);
        assert false;
      }
      forall j | 0 <= j < |n.kids|
        ensures n.kids[j].id in fibers' && fibers'[n.kids[j].id].ret == Some(n.id) && fibers'[n.kids[j].id].sibling == NextKid(n, j)
      {
        NotKidOfBoth(t, p, q, j);
        KidInWalk(t, q, j);
      }
    }
  }

  /** A child of a node of `t` is a fiber of the walk of `t`. */
  lemma KidInWalk(t: Tree, q: seq<nat>, j: nat)
    requires ValidPath(t, q) && j < |Sub(t, q).kids|
    ensures Sub(t, q).kids[j].id in Visit(t)
  {
    PathExtends(t, q, j);
    SubInVisit(t, q + [j]);
    assert Visit(Sub(t, q + [j]))[0] == Sub(t, q).kids[j].id;
  }

  /** In a tree met once, nothing met before the node at `p` lies in the subtree at `p`. */
  lemma BeforeApart(t: Tree, p: seq<nat>)
    requires Distinct(Visit(t)) && ValidPath(t, p)
    ensures forall y | y in Before(t, p) :: y !in Visit(Sub(t, p))
  {
    VisitSplits(t, p);
    assert Visit(t) == Before(t, p) + (Visit(Sub(t, p)) + After(t, p));
    DistinctConcat(Before(t, p), Visit(Sub(t, p)) + After(t, p));
  }

  /** In a tree met once, the top is neither a node below it nor a child of one. */
  lemma TopNotKid(t: Tree, p: seq<nat>)
    requires Distinct(Visit(t)) && ValidPath(t, p) && p != []
    ensures Sub(t, p).id != t.id && t.id !in Ids(Sub(t, p).kids)
  {
    TopOnlyAtEmptyPath(t, p);
    forall i | 0 <= i < |Sub(t, p).kids|
      ensures Sub(t, p).kids[i].id != t.id
    {
      PathExtends(t, p, i);
      TopOnlyAtEmptyPath(t, p + [i]);
    }
  }

  /** `beginWork` on the node at `p` builds that node and keeps everything built before it. */
  lemma BeginKeepsReady(fibers: map<FiberId, FiberNode>, fibers': map<FiberId, FiberNode>, next: Option<FiberId>, t: Tree, p: seq<nat>)
    requires Distinct(Visit(t)) && ValidPath(t, p) && Ready(fibers, t, Before(t, p))
    requires Sub(t, p).id in fibers && BuildsAt(fibers, fibers', next, t, Sub(t, p))
    ensures Ready(fibers', t, Before(t, p) + [Sub(t, p).id])
  {
    var x := Sub(t, p);
    BeforeApart(t, p);
    if p != [] {
      TopNotKid(t, p);
      assert Visit(t)[0] == t.id;
    }
    forall q | ValidPath(t, q) && Sub(t, q).id in Before(t, p) + [x.id]
      ensures LinkedAt(fibers', Sub(t, q))
    {
      LinkedKept(fibers, fibers', next, t, p, q);
    }
  }

  /**
   * Once the subtree at `p` is built, its top is in the arena, and its
   * `return` and `sibling` are its parent and next sibling in the tree, or
   * none at the top.
   */
  lemma ClimbLinks(fibers: map<FiberId, FiberNode>, t: Tree, p: seq<nat>)
    requires ValidPath(t, p) && Ready(fibers, t, Before(t, p) + Visit(Sub(t, p)))
    ensures Sub(t, p).id in fibers
    ensures p == [] ==> fibers[t.id].ret.None? && fibers[t.id].sibling.None?
    ensures p != [] ==>
              var q, i := p[..|p| - 1], p[|p| - 1];
              ValidPath(t, q) && i < |Sub(t, q).kids| && Sub(t, p) == Sub(t, q).kids[i] && LinkedAt(fibers, Sub(t, q)) &&
              fibers[Sub(t, p).id].ret == Some(Sub(t, q).id) && fibers[Sub(t, p).id].sibling == NextKid(Sub(t, q), i)
  {
    if p != [] {
      var q, i := p[..|p| - 1], p[|p| - 1];
      assert p == q + [i];
      PathParent(t, q, i);
      BeforeChild(t, q, i);
      assert Sub(t, q).id in Before(t, p) + Visit(Sub(t, p));
    }
  }

  /** The children of a built node form its `child`/`sibling` chain. */
  lemma {:induction false} KidsChain(fibers: map<FiberId, FiberNode>, n: Tree, j: nat)
    requires LinkedAt(fibers, n) && j <= |n.kids|
    ensures IsChain(fibers, if j < |n.kids| then Some(n.kids[j].id) else None, Ids(n.kids)[j..])
    decreases |n.kids| - j
  {
    if j < |n.kids| {
      KidsChain(fibers, n, j + 1);
      assert Ids(n.kids)[j..][0] == n.kids[j].id && Ids(n.kids)[j..][1..] == Ids(n.kids)[j + 1..];
    } else {
      assert Ids(n.kids)[j..] == [];
    }
  }

  /** Once every fiber of `t` is begun, each node of the subtree at `p` points back at its parent. */
  lemma {:induction false} ReadyParented(fibers: map<FiberId, FiberNode>, t: Tree, p: seq<nat>)
    requires Ready(fibers, t, Visit(t)) && ValidPath(t, p)
    ensures Parented(fibers, Sub(t, p))
    decreases Sub(t, p)
  {
    var n := Sub(t, p);
    SubInVisit(t, p);
    assert Visit(n)[0] == n.id;
    assert LinkedAt(fibers, n);
    forall i | 0 <= i < |n.kids|
      ensures Parented(fibers, n.kids[i])
    {
      PathExtends(t, p, i);
      ReadyParented(fibers, t, p + [i]);
    }
  }

  /** Once every fiber of `t` is begun, the children of the node at `q` are the `sibling` chain from its first child. */
  lemma ReadyChained(fibers: map<FiberId, FiberNode>, t: Tree, q: seq<nat>)
    requires Ready(fibers, t, Visit(t)) && ValidPath(t, q)
    ensures IsChain(fibers, FirstKid(Sub(t, q)), Ids(Sub(t, q).kids))
  {
    var n := Sub(t, q);
    SubInVisit(t, q);
    assert Visit(n)[0] == n.id;
    KidsChain(fibers, n, 0);
    assert Ids(n.kids)[0..] == Ids(n.kids);
  }

  /**
   * The arena once the walk of `t` is over: the top has no parent and no
   * sibling, every node points back at its parent, and the children of
   * each node are the `sibling` chain from the fiber `beginWork` returned
   * for it.
   */
  ghost predicate RenderedLinks(fibers: map<FiberId, FiberNode>, t: Tree)
  {
    t.id in fibers && fibers[t.id].ret.None? && fibers[t.id].sibling.None? && Parented(fibers, t) &&
    forall q | ValidPath(t, q) :: IsChain(fibers, FirstKid(Sub(t, q)), Ids(Sub(t, q).kids))
  }

  /** Once every fiber of `t` is begun, the arena holds the links of the walk of `t`. */
  lemma ReadyBuilt(fibers: map<FiberId, FiberNode>, t: Tree)
    requires Ready(fibers, t, Visit(t))
    ensures RenderedLinks(fibers, t)
  {
    ReadyParented(fibers, t, []);
    forall q | ValidPath(t, q)
      ensures IsChain(fibers, FirstKid(Sub(t, q)), Ids(Sub(t, q).kids))
    {
      ReadyChained(fibers, t, q);
    }
  }

  // ---------------------------------------------------------------------
  // The loop
  // ---------------------------------------------------------------------

  /** The work in progress is the fiber at `p`, about to be begun, after the calls `done`. */
  ghost predicate InProgress(fibers: map<FiberId, FiberNode>, t: Tree, p: seq<nat>, done: seq<Step>)
  {
    ValidPath(t, p) && done == WorkBefore(t, p) && done < WorkOrder(t) && Sub(t, p).id in fibers && Ready(fibers, t, Before(t, p))
  }

  /** The fiber at `p` and its subtree have been begun, and the fiber is about to be completed. */
  ghost predicate Climbing(fibers: map<FiberId, FiberNode>, t: Tree, p: seq<nat>, done: seq<Step>)
  {
    ValidPath(t, p) && done == WorkBefore(t, p) + Opened(Sub(t, p)) && Ready(fibers, t, Before(t, p) + Visit(Sub(t, p)))
  }

  /** Every fiber of `t` has been begun and completed. */
  ghost predicate AllDone(fibers: map<FiberId, FiberNode>, t: Tree, done: seq<Step>)
  {
    done == WorkOrder(t) && Ready(fibers, t, Visit(t))
  }

  /** The path of the next sibling. */
  function Across(p: seq<nat>): seq<nat>
    requires p != []
  {
    p[..|p| - 1] + [p[|p| - 1] + 1]
  }

  /** A leaf, once begun, is completed next. */
  lemma LeafStep(fibers: map<FiberId, FiberNode>, t: Tree, p: seq<nat>, done: seq<Step>)
    requires ValidPath(t, p) && Sub(t, p).kids == [] && done == WorkBefore(t, p) + [Begin(Sub(t, p).id)]
    requires Ready(fibers, t, Before(t, p) + [Sub(t, p).id])
    ensures Climbing(fibers, t, p, done)
  {
    var x := Sub(t, p);
    assert VisitAll(x.kids) == [] && WorkOrderAll(x.kids) == [];
    assert Visit(x) == [x.id] && Opened(x) == [Begin(x.id)];
  }

  /** A fiber with children, once begun, hands the work to its first child. */
  lemma DownStep(fibers: map<FiberId, FiberNode>, t: Tree, p: seq<nat>, done: seq<Step>)
    requires ValidPath(t, p) && Sub(t, p).kids != [] && done == WorkBefore(t, p) + [Begin(Sub(t, p).id)]
    requires Ready(fibers, t, Before(t, p) + [Sub(t, p).id]) && Sub(t, p).kids[0].id in fibers
    ensures InProgress(fibers, t, p + [0], done) && Sub(t, p + [0]) == Sub(t, p).kids[0]
  {
    WorkDown(t, p);
    WorkPrefix(t, p + [0]);
  }

  /**
   * After `beginWork` at `p` returns `next` and the fiber's props are
   * memoized: a returned fiber is the first child of the walk below `p` and
   * the next work in progress; with `null` the fiber, a leaf of the walk, is
   * completed next.
   */
  lemma BeginStep(fibers: map<FiberId, FiberNode>, begun: map<FiberId, FiberNode>, next: Option<FiberId>, t: Tree, p: seq<nat>, done: seq<Step>)
    requires Distinct(Visit(t)) && InProgress(fibers, t, p, done) && BuildsAt(fibers, begun, next, t, Sub(t, p))
    ensures Sub(t, p).id in begun
    ensures var x := Sub(t, p).id; var after := Memoized(begun, x);
            (next.None? ==> Sub(t, p).kids == [] && Climbing(after, t, p, done + [Begin(x)])) &&
            (next.Some? ==> InProgress(after, t, p + [0], done + [Begin(x)]) && next == Some(Sub(t, p + [0]).id))
  {
    var x := Sub(t, p);
    BeginKeepsReady(fibers, begun, next, t, p);
    var after := Memoized(begun, x.id);
    assert LinksKept(begun, after);
    ReadyKept(begun, after, t, Before(t, p) + [x.id]);
    assert LinkedAt(after, x);
    if x.kids == [] {
      LeafStep(after, t, p, done + [Begin(x.id)]);
    } else {
      DownStep(after, t, p, done + [Begin(x.id)]);
    }
  }

  /** A completed fiber with a next sibling hands the work to it. */
  lemma SiblingStep(fibers: map<FiberId, FiberNode>, t: Tree, p: seq<nat>, done: seq<Step>)
    requires Climbing(fibers, t, p, done) && p != [] && ValidPath(t, p[..|p| - 1])
    requires p[|p| - 1] + 1 < |Sub(t, p[..|p| - 1]).kids| && Sub(t, p[..|p| - 1]).kids[p[|p| - 1] + 1].id in fibers
    ensures InProgress(fibers, t, Across(p), done + [Complete(Sub(t, p).id)])
    ensures Sub(t, Across(p)) == Sub(t, p[..|p| - 1]).kids[p[|p| - 1] + 1]
  {
    var q, i := p[..|p| - 1], p[|p| - 1];
    assert p == q + [i] && Across(p) == q + [i + 1];
    SiblingStepAt(fibers, t, q, i, done);
  }

  lemma SiblingStepAt(fibers: map<FiberId, FiberNode>, t: Tree, q: seq<nat>, i: nat, done: seq<Step>)
    requires ValidPath(t, q) && i + 1 < |Sub(t, q).kids| && Sub(t, q).kids[i + 1].id in fibers
    requires Climbing(fibers, t, q + [i], done)
    ensures InProgress(fibers, t, q + [i + 1], done + [Complete(Sub(t, q + [i]).id)])
    ensures Sub(t, q + [i + 1]) == Sub(t, q).kids[i + 1]
  {
    WorkAcross(t, q, i);
    WorkPrefix(t, q + [i + 1]);
    var s := Sub(t, q + [i]);
    Assoc(WorkBefore(t, q + [i]), Opened(s), [Complete(s.id)]);
  }

  /** A completed last child hands the completion to its parent. */
  lemma ParentStep(fibers: map<FiberId, FiberNode>, t: Tree, p: seq<nat>, done: seq<Step>)
    requires Climbing(fibers, t, p, done) && p != [] && ValidPath(t, p[..|p| - 1])
    requires p[|p| - 1] + 1 == |Sub(t, p[..|p| - 1]).kids|
    ensures Climbing(fibers, t, p[..|p| - 1], done + [Complete(Sub(t, p).id)])
  {
    var q, i := p[..|p| - 1], p[|p| - 1];
    assert p == q + [i];
    WorkUp(t, q, i);
    assert done + [Complete(Sub(t, p).id)] == WorkBefore(t, p) + WorkOrder(Sub(t, p));
  }

  /** Completing the top ends the render. */
  lemma TopStep(fibers: map<FiberId, FiberNode>, t: Tree, done: seq<Step>)
    requires Climbing(fibers, t, [], done)
    ensures AllDone(fibers, t, done + [Complete(t.id)])
  {
    assert Before(t, []) + Visit(Sub(t, [])) == Visit(t);
  }

  /**
   * After `completeWork` at `p`: a sibling is the next work in progress; else
   * the parent is completed next; with no parent the walk is over.
   */
  lemma CompleteStep(fibers: map<FiberId, FiberNode>, t: Tree, p: seq<nat>, done: seq<Step>)
    requires Climbing(fibers, t, p, done)
    ensures Sub(t, p).id in fibers
    ensures var x := Sub(t, p).id; var f := fibers[x];
            (f.sibling.Some? ==> p != [] && InProgress(fibers, t, Across(p), done + [Complete(x)]) && f.sibling == Some(Sub(t, Across(p)).id)) &&
            (f.sibling.None? && f.ret.Some? ==>
               p != [] && Climbing(fibers, t, p[..|p| - 1], done + [Complete(x)]) && f.ret == Some(Sub(t, p[..|p| - 1]).id)) &&
            (f.sibling.None? && f.ret.None? ==> AllDone(fibers, t, done + [Complete(x)]))
  {
    ClimbLinks(fibers, t, p);
    if p == [] {
      TopStep(fibers, t, done);
    } else {
      var q, i := p[..|p| - 1], p[|p| - 1];
      if i + 1 < |Sub(t, q).kids| {
        assert LinkedAt(fibers, Sub(t, q));
        SiblingStep(fibers, t, p, done);
      } else {
        ParentStep(fibers, t, p, done);
      }
    }
  }

  /** `completeWork`, on any arena the render reaches from `fibers0`, keeps every fiber and its links. */
  ghost predicate KeepsLinks(begin: BeginFn, complete: CompleteFn, fibers0: map<FiberId, FiberNode>)
  {
    forall done: seq<Step>, x: FiberId | complete(Replay(begin, complete, fibers0, done), x).Ok? ::
      LinksKept(Replay(begin, complete, fibers0, done), complete(Replay(begin, complete, fibers0, done), x).value)
  }

  /**
   * `beginWork` on a fiber of `t`, on any arena the render reaches from
   * `fibers0`, returns the fiber's first child in `t` and links its children
   * as `t` says.
   */
  ghost predicate BuildsChildren(begin: BeginFn, complete: CompleteFn, fibers0: map<FiberId, FiberNode>, t: Tree)
  {
    forall done: seq<Step>, p: seq<nat> |
      ValidPath(t, p) && Sub(t, p).id in Replay(begin, complete, fibers0, done) &&
      begin(Replay(begin, complete, fibers0, done), Sub(t, p).id).Ok? ::
      BuildsAt(Replay(begin, complete, fibers0, done), begin(Replay(begin, complete, fibers0, done), Sub(t, p).id).value.0,
               begin(Replay(begin, complete, fibers0, done), Sub(t, p).id).value.1, t, Sub(t, p))
  }

  /** Neither `beginWork` nor `completeWork` throws on an arena the render reaches from `fibers0`. */
  ghost predicate NeverThrows(begin: BeginFn, complete: CompleteFn, fibers0: map<FiberId, FiberNode>)
  {
    forall done: seq<Step>, x: FiberId ::
      begin(Replay(begin, complete, fibers0, done), x).Ok? && complete(Replay(begin, complete, fibers0, done), x).Ok?
  }

  lemma BuildsHere(begin: BeginFn, complete: CompleteFn, fibers0: map<FiberId, FiberNode>, t: Tree, done: seq<Step>, p: seq<nat>)
    requires BuildsChildren(begin, complete, fibers0, t) && ValidPath(t, p) && Sub(t, p).id in Replay(begin, complete, fibers0, done)
    ensures var fibers := Replay(begin, complete, fibers0, done);
            begin(fibers, Sub(t, p).id).Ok? ==>
              BuildsAt(fibers, begin(fibers, Sub(t, p).id).value.0, begin(fibers, Sub(t, p).id).value.1, t, Sub(t, p))
  {
  }

  lemma KeepsHere(begin: BeginFn, complete: CompleteFn, fibers0: map<FiberId, FiberNode>, done: seq<Step>, x: FiberId)
    requires KeepsLinks(begin, complete, fibers0)
    ensures var fibers := Replay(begin, complete, fibers0, done);
            complete(fibers, x).Ok? ==> LinksKept(fibers, complete(fibers, x).value)
  {
  }

  /** A call that throws at some point of the render is a witness that the render does not always succeed. */
  lemma ThrowsHere(begin: BeginFn, complete: CompleteFn, fibers0: map<FiberId, FiberNode>, done: seq<Step>, x: FiberId)
    requires begin(Replay(begin, complete, fibers0, done), x).Err? || complete(Replay(begin, complete, fibers0, done), x).Err?
    ensures !NeverThrows(begin, complete, fibers0)
  {
  }

  /**
   * A fiber that bails out is a leaf of the walk: `beginWork` returns
   * `null` although the fiber keeps its children from the last commit.
   */
  lemma BailoutIsLeaf()
    ensures var f := InitialFiber(WorkTags.FunctionComponent, Js.Null, Js.Null);
            var fibers := map[1 := f.(child := Some(2)), 2 := f.(ret := Some(1))];
            fibers[1].child.Some? && BuildsAt(fibers, fibers, None, Node(1, []), Node(1, []))
  {
    var f := InitialFiber(WorkTags.FunctionComponent, Js.Null, Js.Null);
    var fibers := map[1 := f.(child := Some(2)), 2 := f.(ret := Some(1))];
    assert Visit(Node(1, [])) == [1] by {
      assert VisitAll([]) == [];
    }
    assert Ids([]) == [];
  }

  /**
   * A Suspense fiber showing its fallback has the fallback as its only
   * child in the walk: `beginWork` returns the fallback, and the hidden
   * primary child, the fiber's `child`, is never begun.
   */
  lemma FallbackIsOnlyChild()
    ensures var f := InitialFiber(WorkTags.SuspenseComponent, Js.Null, Js.Null);
            var fibers := map[1 := f];
            var fibers' := map[1 := f.(child := Some(2)), 2 := f.(ret := Some(1), sibling := Some(3)), 3 := f.(ret := Some(1))];
            var t := Node(1, [Node(3, [])]);
            fibers'[1].child == Some(2) && BuildsAt(fibers, fibers', Some(3), t, t)
  {
    var f := InitialFiber(WorkTags.SuspenseComponent, Js.Null, Js.Null);
    var t := Node(1, [Node(3, [])]);
    assert Ids(t.kids) == [3] by {
      assert Ids([]) == [];
    }
  }

  lemma KeptGrows(fibers: map<FiberId, FiberNode>, fibers': map<FiberId, FiberNode>)
    requires LinksKept(fibers, fibers')
    ensures Grows(fibers, fibers')
  {
  }
}
