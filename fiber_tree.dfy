/**
 * The shape of a fiber subtree, for the walks that go down `child`, across
 * `sibling` and back up `return` (`appendAllChildren`, `findHostSubtreeRoot`,
 * `commitNestedComponent`, `commitEffects`).  The walks follow the links
 * of the arena; a ghost `Tree` describes where those links lead, and a
 * path (a sequence of child indices from the top) names a node of it.
 */
module FiberTree {
  import opened Wrappers
  import opened Js
  import opened WorkTags
  import opened Fiber
  import opened ChildFibers

  datatype Tree = Node(id: FiberId, kids: seq<Tree>)

  /**
   * Where a walk stops going down: nowhere, at host fibers, at host fibers
   * and hidden Offscreen fibers, or at fibers none of whose descendants
   * carries a flag of `mask`.
   */
  datatype Cut = Nowhere | AtHosts | AtHostsAndHidden | Unflagged(mask: FiberFlags.Flags)

  predicate IsHost(f: FiberNode)
  {
    f.tag == HostComponent || f.tag == HostText
  }

  /** `props.mode === 'hidden'` */
  predicate IsHiddenMode(props: JsValue)
  {
    Get(props, "mode") == Str("hidden")
  }

  predicate Stops(cut: Cut, f: FiberNode)
  {
    match cut
    case Nowhere => false
    case AtHosts => IsHost(f)
    case AtHostsAndHidden => IsHost(f) || (f.tag == OffscreenComponent && IsHiddenMode(f.pendingProps))
    case Unflagged(mask) => f.subtreeFlags & mask == FiberFlags.NoFlags
  }

  function Ids(ts: seq<Tree>): (r: seq<FiberId>)
    ensures |r| == |ts| && forall i | 0 <= i < |ts| :: r[i] == ts[i].id
  {
    if ts == [] then [] else [ts[0].id] + Ids(ts[1..])
  }

  /** The children of `t` are the sibling list under its fiber, and each of them is shaped below it. */
  ghost predicate Spans(fibers: map<FiberId, FiberNode>, t: Tree, cut: Cut)
    decreases t, 1
  {
    t.id in fibers && IsChain(fibers, fibers[t.id].child, Ids(t.kids)) &&
    forall i | 0 <= i < |t.kids| :: Below(fibers, t.kids[i], cut)
  }

  /** A node under the top: a walk that stops there sees no children, any other walk sees all of them. */
  ghost predicate Below(fibers: map<FiberId, FiberNode>, t: Tree, cut: Cut)
    decreases t, 2
  {
    t.id in fibers && if Stops(cut, fibers[t.id]) then t.kids == [] else Spans(fibers, t, cut)
  }

  /** Every node of `t` under the top points back at its parent. */
  ghost predicate Parented(fibers: map<FiberId, FiberNode>, t: Tree)
  {
    forall i | 0 <= i < |t.kids| :: t.kids[i].id in fibers && fibers[t.kids[i].id].ret == Some(t.id) && Parented(fibers, t.kids[i])
  }

  /** Depth-first pre-order: a node, then its children's subtrees left to right. */
  function Visit(t: Tree): seq<FiberId>
    decreases t, 1
  {
    [t.id] + VisitAll(t.kids)
  }

  function VisitAll(ts: seq<Tree>): seq<FiberId>
    decreases ts, 0
  {
    if ts == [] then [] else Visit(ts[0]) + VisitAll(ts[1..])
  }

  /** Depth-first post-order: the children's subtrees left to right, then the node. */
  function PostVisit(t: Tree): seq<FiberId>
    decreases t, 1
  {
    PostVisitAll(t.kids) + [t.id]
  }

  function PostVisitAll(ts: seq<Tree>): seq<FiberId>
    decreases ts, 0
  {
    if ts == [] then [] else PostVisit(ts[0]) + PostVisitAll(ts[1..])
  }

  ghost predicate ValidPath(t: Tree, p: seq<nat>)
    decreases p
  {
    p == [] || (p[0] < |t.kids| && ValidPath(t.kids[p[0]], p[1..]))
  }

  function Sub(t: Tree, p: seq<nat>): Tree
    requires ValidPath(t, p)
    decreases p
  {
    if p == [] then t else Sub(t.kids[p[0]], p[1..])
  }

  /** The nodes a pre-order walk of `t` meets before the node at `p`. */
  function Before(t: Tree, p: seq<nat>): seq<FiberId>
    requires ValidPath(t, p)
    decreases p
  {
    if p == [] then [] else [t.id] + VisitAll(t.kids[..p[0]]) + Before(t.kids[p[0]], p[1..])
  }

  /** The nodes a post-order walk of `t` finishes before it enters the node at `p`. */
  function PostBefore(t: Tree, p: seq<nat>): seq<FiberId>
    requires ValidPath(t, p)
    decreases p
  {
    if p == [] then [] else PostVisitAll(t.kids[..p[0]]) + PostBefore(t.kids[p[0]], p[1..])
  }

  lemma Assoc<T>(a: seq<T>, b: seq<T>, c: seq<T>)
    ensures (a + b) + c == a + (b + c)
  {
  }

  lemma {:induction false} VisitAllAppend(a: seq<Tree>, b: seq<Tree>)
    ensures VisitAll(a + b) == VisitAll(a) + VisitAll(b)
    decreases |a|
  {
    if a != [] {
      assert (a + b)[0] == a[0] && (a + b)[1..] == a[1..] + b;
      VisitAllAppend(a[1..], b);
      Assoc(Visit(a[0]), VisitAll(a[1..]), VisitAll(b));
    } else {
      assert a + b == b;
    }
  }

  lemma {:induction false} PostVisitAllAppend(a: seq<Tree>, b: seq<Tree>)
    ensures PostVisitAll(a + b) == PostVisitAll(a) + PostVisitAll(b)
    decreases |a|
  {
    if a != [] {
      assert (a + b)[0] == a[0] && (a + b)[1..] == a[1..] + b;
      PostVisitAllAppend(a[1..], b);
      Assoc(PostVisit(a[0]), PostVisitAll(a[1..]), PostVisitAll(b));
    } else {
      assert a + b == b;
    }
  }

  /** Taking one more child adds that child's subtree at the end, and the later children's subtrees follow. */
  lemma {:induction false} VisitAllSnoc(ts: seq<Tree>, i: nat)
    requires i < |ts|
    ensures VisitAll(ts[..i + 1]) == VisitAll(ts[..i]) + Visit(ts[i])
    ensures VisitAll(ts) == VisitAll(ts[..i + 1]) + VisitAll(ts[i + 1..])
  {
    assert ts[..i + 1] == ts[..i] + [ts[i]];
    VisitAllAppend(ts[..i], [ts[i]]);
    assert VisitAll([ts[i]]) == Visit(ts[i]) + VisitAll([]);
    assert ts == ts[..i + 1] + ts[i + 1..];
    VisitAllAppend(ts[..i + 1], ts[i + 1..]);
  }

  lemma {:induction false} PostVisitAllSnoc(ts: seq<Tree>, i: nat)
    requires i < |ts|
    ensures PostVisitAll(ts[..i + 1]) == PostVisitAll(ts[..i]) + PostVisit(ts[i])
    ensures PostVisitAll(ts) == PostVisitAll(ts[..i + 1]) + PostVisitAll(ts[i + 1..])
  {
    assert ts[..i + 1] == ts[..i] + [ts[i]];
    PostVisitAllAppend(ts[..i], [ts[i]]);
    assert PostVisitAll([ts[i]]) == PostVisit(ts[i]) + PostVisitAll([]);
    assert ts == ts[..i + 1] + ts[i + 1..];
    PostVisitAllAppend(ts[..i + 1], ts[i + 1..]);
  }

  /** A path can be extended by the index of any child of the node it names. */
  lemma {:induction false} PathExtends(t: Tree, p: seq<nat>, i: nat)
    requires ValidPath(t, p) && i < |Sub(t, p).kids|
    ensures ValidPath(t, p + [i]) && Sub(t, p + [i]) == Sub(t, p).kids[i]
    decreases p
  {
    if p != [] {
      assert (p + [i])[1..] == p[1..] + [i];
      PathExtends(t.kids[p[0]], p[1..], i);
    }
  }

  /** The prefix of a path is a path, to the parent. */
  lemma {:induction false} PathParent(t: Tree, q: seq<nat>, i: nat)
    requires ValidPath(t, q + [i])
    ensures ValidPath(t, q) && i < |Sub(t, q).kids| && Sub(t, q + [i]) == Sub(t, q).kids[i]
    decreases q
  {
    if q != [] {
      assert (q + [i])[1..] == q[1..] + [i];
      PathParent(t.kids[q[0]], q[1..], i);
    }
  }

  /** Before the `i`-th child of a node come the nodes before it, the node, and the subtrees of the earlier children. */
  lemma {:induction false} BeforeChild(t: Tree, p: seq<nat>, i: nat)
    requires ValidPath(t, p) && i < |Sub(t, p).kids|
    ensures ValidPath(t, p + [i])
    ensures Before(t, p + [i]) == Before(t, p) + [Sub(t, p).id] + VisitAll(Sub(t, p).kids[..i])
    ensures PostBefore(t, p + [i]) == PostBefore(t, p) + PostVisitAll(Sub(t, p).kids[..i])
    decreases p
  {
    PathExtends(t, p, i);
    if p != [] {
      assert (p + [i])[1..] == p[1..] + [i];
      BeforeChild(t.kids[p[0]], p[1..], i);
    }
  }

  /** The nodes a pre-order walk of `t` meets after the subtree at `p`. */
  function After(t: Tree, p: seq<nat>): seq<FiberId>
    requires ValidPath(t, p)
    decreases p
  {
    if p == [] then [] else After(t.kids[p[0]], p[1..]) + VisitAll(t.kids[p[0] + 1..])
  }

  /** A pre-order walk of `t` meets the nodes before `p`, then the subtree at `p`, then the rest. */
  lemma {:induction false} VisitSplits(t: Tree, p: seq<nat>)
    requires ValidPath(t, p)
    ensures Visit(t) == Before(t, p) + Visit(Sub(t, p)) + After(t, p)
    decreases p
  {
    if p != [] {
      var i, k := p[0], t.kids[p[0]];
      VisitSplits(k, p[1..]);
      VisitAllSnoc(t.kids, i);
      Regroup([t.id], VisitAll(t.kids[..i]), Before(k, p[1..]), Visit(Sub(k, p[1..])), After(k, p[1..]), VisitAll(t.kids[i + 1..]));
    }
  }

  lemma Regroup<T>(x: seq<T>, f: seq<T>, b: seq<T>, v: seq<T>, a: seq<T>, k: seq<T>)
    ensures x + (f + (b + v + a) + k) == (x + f + b) + v + (a + k)
  {
  }

  /** In a tree whose fibers are distinct, only the empty path names the top. */
  lemma {:induction false} TopOnlyAtEmptyPath(t: Tree, p: seq<nat>)
    requires ValidPath(t, p) && Distinct(Visit(t)) && p != []
    ensures Sub(t, p).id != t.id
  {
    VisitSplits(t, p);
    var k := |Before(t, p)|;
    assert Visit(t)[k] == Sub(t, p).id;
    assert Visit(t)[0] == t.id;
  }

  /** Every node of a spanned tree stands below the one above it. */
  lemma {:induction false} SubBelow(fibers: map<FiberId, FiberNode>, t: Tree, p: seq<nat>, cut: Cut)
    requires Spans(fibers, t, cut) && ValidPath(t, p) && p != []
    ensures Below(fibers, Sub(t, p), cut)
    decreases p
  {
    var k := t.kids[p[0]];
    assert Below(fibers, k, cut);
    if p[1..] != [] {
      assert !Stops(cut, fibers[k.id]);
      SubBelow(fibers, k, p[1..], cut);
    }
  }

  /** The node at a path points back at its parent. */
  lemma {:induction false} SubParented(fibers: map<FiberId, FiberNode>, t: Tree, q: seq<nat>, i: nat)
    requires Parented(fibers, t) && ValidPath(t, q + [i])
    ensures ValidPath(t, q) && i < |Sub(t, q).kids|
    ensures Sub(t, q + [i]).id in fibers && fibers[Sub(t, q + [i]).id].ret == Some(Sub(t, q).id)
    ensures Parented(fibers, Sub(t, q))
    decreases q
  {
    PathParent(t, q, i);
    if q != [] {
      assert (q + [i])[1..] == q[1..] + [i];
      SubParented(fibers, t.kids[q[0]], q[1..], i);
    }
  }

  /** Going down: a node that spans its children points at the first of them, or at none. */
  lemma {:induction false} ChildOf(fibers: map<FiberId, FiberNode>, t: Tree, cut: Cut)
    requires Spans(fibers, t, cut)
    ensures fibers[t.id].child == if t.kids == [] then None else Some(t.kids[0].id)
  {
  }

  /** Going across: the `i`-th child's sibling is the next child, or none after the last. */
  lemma {:induction false} SiblingOf(fibers: map<FiberId, FiberNode>, t: Tree, cut: Cut, i: nat)
    requires Spans(fibers, t, cut) && i < |t.kids|
    ensures t.kids[i].id in fibers
    ensures fibers[t.kids[i].id].sibling == if i + 1 < |t.kids| then Some(t.kids[i + 1].id) else None
  {
    ChainFacts(fibers, fibers[t.id].child, Ids(t.kids), i);
    if i + 1 < |t.kids| {
      assert Ids(t.kids)[i + 1..][0] == t.kids[i + 1].id;
    }
  }

  /**
   * A walk that finished the node at `p = q + [i]` leaves it through its
   * `sibling` (the next child of the parent, or none after the last child)
   * or its `return` (the parent, which is the top only when `q` is empty).
   */
  lemma {:induction false} StepOut(fibers: map<FiberId, FiberNode>, t: Tree, cut: Cut, q: seq<nat>, i: nat)
    requires Spans(fibers, t, cut) && Parented(fibers, t) && Distinct(Visit(t)) && ValidPath(t, q + [i])
    ensures ValidPath(t, q) && i < |Sub(t, q).kids| && Sub(t, q + [i]) == Sub(t, q).kids[i]
    ensures Sub(t, q + [i]).id in fibers && fibers[Sub(t, q + [i]).id].ret == Some(Sub(t, q).id)
    ensures (Sub(t, q).id == t.id) == (q == [])
    ensures fibers[Sub(t, q + [i]).id].sibling == if i + 1 < |Sub(t, q).kids| then Some(Sub(t, q).kids[i + 1].id) else None
  {
    SubParented(fibers, t, q, i);
    PathParent(t, q, i);
    var s := Sub(t, q);
    if q != [] {
      TopOnlyAtEmptyPath(t, q);
      SubBelow(fibers, t, q, cut);
    }
    SiblingOf(fibers, s, cut, i);
  }

  /** Across to the next sibling, which points at the same parent and comes right after the finished subtree. */
  lemma {:induction false} StepAcross(fibers: map<FiberId, FiberNode>, t: Tree, q: seq<nat>, i: nat)
    requires Parented(fibers, t) && ValidPath(t, q) && i + 1 < |Sub(t, q).kids|
    ensures ValidPath(t, q + [i]) && ValidPath(t, q + [i + 1]) && Sub(t, q + [i + 1]) == Sub(t, q).kids[i + 1]
    ensures Before(t, q + [i + 1]) == Before(t, q + [i]) + Visit(Sub(t, q + [i]))
    ensures PostBefore(t, q + [i + 1]) == PostBefore(t, q + [i]) + PostVisit(Sub(t, q + [i]))
    ensures Sub(t, q + [i + 1]).id in fibers && fibers[Sub(t, q + [i + 1]).id].ret == Some(Sub(t, q).id)
  {
    PreAcross(t, q, i);
    PostAcross(t, q, i);
    SubParented(fibers, t, q, i + 1);
  }

  lemma {:induction false} PreAcross(t: Tree, q: seq<nat>, i: nat)
    requires ValidPath(t, q) && i + 1 < |Sub(t, q).kids|
    ensures ValidPath(t, q + [i]) && ValidPath(t, q + [i + 1]) && Sub(t, q + [i + 1]) == Sub(t, q).kids[i + 1]
    ensures Before(t, q + [i + 1]) == Before(t, q + [i]) + Visit(Sub(t, q + [i]))
  {
    var s := Sub(t, q);
    BeforeChild(t, q, i);
    BeforeChild(t, q, i + 1);
    PathExtends(t, q, i);
    PathExtends(t, q, i + 1);
    VisitAllSnoc(s.kids, i);
    Assoc(Before(t, q) + [s.id], VisitAll(s.kids[..i]), Visit(s.kids[i]));
  }

  lemma {:induction false} PostAcross(t: Tree, q: seq<nat>, i: nat)
    requires ValidPath(t, q) && i + 1 < |Sub(t, q).kids|
    ensures ValidPath(t, q + [i]) && ValidPath(t, q + [i + 1])
    ensures PostBefore(t, q + [i + 1]) == PostBefore(t, q + [i]) + PostVisit(Sub(t, q + [i]))
  {
    var s := Sub(t, q);
    BeforeChild(t, q, i);
    BeforeChild(t, q, i + 1);
    PathExtends(t, q, i);
    PostVisitAllSnoc(s.kids, i);
    Assoc(PostBefore(t, q), PostVisitAll(s.kids[..i]), PostVisit(s.kids[i]));
  }

  /** Up from the last child: the parent is finished with it. */
  lemma {:induction false} StepUp(t: Tree, q: seq<nat>, i: nat)
    requires ValidPath(t, q) && i + 1 == |Sub(t, q).kids|
    ensures ValidPath(t, q + [i]) && Sub(t, q + [i]) == Sub(t, q).kids[i]
    ensures Before(t, q) + Visit(Sub(t, q)) == Before(t, q + [i]) + Visit(Sub(t, q + [i]))
    ensures PostBefore(t, q) + PostVisitAll(Sub(t, q).kids) == PostBefore(t, q + [i]) + PostVisit(Sub(t, q + [i]))
  {
    PathExtends(t, q, i);
    StepUpPre(t, q, i);
    StepUpPost(t, q, i);
  }

  lemma {:induction false} StepUpPre(t: Tree, q: seq<nat>, i: nat)
    requires ValidPath(t, q) && i + 1 == |Sub(t, q).kids|
    ensures ValidPath(t, q + [i]) && Sub(t, q + [i]) == Sub(t, q).kids[i]
    ensures Before(t, q) + Visit(Sub(t, q)) == Before(t, q + [i]) + Visit(Sub(t, q + [i]))
  {
    var s := Sub(t, q);
    BeforeChild(t, q, i);
    PathExtends(t, q, i);
    VisitAllSnoc(s.kids, i);
    assert s.kids[..i + 1] == s.kids;
    var b, top, v, k := Before(t, q), [s.id], VisitAll(s.kids[..i]), Visit(s.kids[i]);
    assert Visit(s) == top + (v + k);
    Assoc(b, top, v);
    Assoc(top, v, k);
    Assoc(b, top + v, k);
  }

  lemma {:induction false} StepUpPost(t: Tree, q: seq<nat>, i: nat)
    requires ValidPath(t, q) && i + 1 == |Sub(t, q).kids|
    ensures ValidPath(t, q + [i]) && Sub(t, q + [i]) == Sub(t, q).kids[i]
    ensures PostBefore(t, q) + PostVisitAll(Sub(t, q).kids) == PostBefore(t, q + [i]) + PostVisit(Sub(t, q + [i]))
  {
    var s := Sub(t, q);
    BeforeChild(t, q, i);
    PathExtends(t, q, i);
    PostVisitAllSnoc(s.kids, i);
    assert s.kids[..i + 1] == s.kids;
    Assoc(PostBefore(t, q), PostVisitAll(s.kids[..i]), PostVisit(s.kids[i]));
  }

  /**
   * Going down from the node at `p`, which is the top or does not stop the
   * walk: to its first child, which points back at it and comes next.
   */
  lemma {:induction false} StepDown(fibers: map<FiberId, FiberNode>, t: Tree, cut: Cut, p: seq<nat>)
    requires Spans(fibers, t, cut) && Parented(fibers, t) && ValidPath(t, p)
    requires p != [] ==> Sub(t, p).id in fibers && !Stops(cut, fibers[Sub(t, p).id])
    ensures Sub(t, p).id in fibers && Spans(fibers, Sub(t, p), cut)
    ensures fibers[Sub(t, p).id].child == if Sub(t, p).kids == [] then None else Some(Sub(t, p).kids[0].id)
    ensures Sub(t, p).kids != [] ==>
              ValidPath(t, p + [0]) && Sub(t, p + [0]) == Sub(t, p).kids[0] &&
              Before(t, p + [0]) == Before(t, p) + [Sub(t, p).id] && PostBefore(t, p + [0]) == PostBefore(t, p) &&
              Sub(t, p + [0]).id in fibers && fibers[Sub(t, p + [0]).id].ret == Some(Sub(t, p).id)
  {
    if p != [] {
      SubBelow(fibers, t, p, cut);
    }
    ChildOf(fibers, Sub(t, p), cut);
    if Sub(t, p).kids != [] {
      BeforeChild(t, p, 0);
      PathExtends(t, p, 0);
      assert Sub(t, p).kids[..0] == [];
      SubParented(fibers, t, p, 0);
    }
  }

  /** A node where the walk stops, or one without children, is met and finished in one step. */
  lemma {:induction false} LeafVisit(fibers: map<FiberId, FiberNode>, t: Tree, cut: Cut, p: seq<nat>)
    requires Spans(fibers, t, cut) && ValidPath(t, p) && p != [] && Sub(t, p).id in fibers
    requires Stops(cut, fibers[Sub(t, p).id]) || fibers[Sub(t, p).id].child.None?
    ensures Sub(t, p).kids == [] && Visit(Sub(t, p)) == [Sub(t, p).id] && PostVisit(Sub(t, p)) == [Sub(t, p).id]
  {
    SubBelow(fibers, t, p, cut);
    if !Stops(cut, fibers[Sub(t, p).id]) {
      ChildOf(fibers, Sub(t, p), cut);
    }
  }

  /**
   * A pre-order walk that finished the node at `p`, which has no sibling,
   * goes up to its parent, which it then has finished too; the parent is the
   * top exactly when `p` has length one.
   */
  lemma {:induction false} PreClimb(fibers: map<FiberId, FiberNode>, t: Tree, cut: Cut, p: seq<nat>)
    requires Spans(fibers, t, cut) && Parented(fibers, t) && Distinct(Visit(t)) && ValidPath(t, p) && p != []
    requires Sub(t, p).id in fibers && fibers[Sub(t, p).id].sibling.None?
    ensures ValidPath(t, p[..|p| - 1]) && fibers[Sub(t, p).id].ret == Some(Sub(t, p[..|p| - 1]).id)
    ensures (Sub(t, p[..|p| - 1]).id == t.id) == (|p| == 1)
    ensures |p| > 1 ==> Sub(t, p[..|p| - 1]).id in fibers
    ensures Before(t, p[..|p| - 1]) + Visit(Sub(t, p[..|p| - 1])) == Before(t, p) + Visit(Sub(t, p))
    ensures |p| == 1 ==> Before(t, p) + Visit(Sub(t, p)) == Visit(t)
  {
    var q, i := p[..|p| - 1], p[|p| - 1];
    assert p == q + [i];
    StepOut(fibers, t, cut, q, i);
    StepUp(t, q, i);
    if q != [] {
      SubBelow(fibers, t, q, cut);
    }
  }

  /**
   * A pre-order walk that finished the node at `p` goes across to its
   * sibling, which has the same parent and comes next.
   */
  lemma {:induction false} PreSibling(fibers: map<FiberId, FiberNode>, t: Tree, cut: Cut, p: seq<nat>)
    requires Spans(fibers, t, cut) && Parented(fibers, t) && Distinct(Visit(t)) && ValidPath(t, p) && p != []
    requires Sub(t, p).id in fibers && fibers[Sub(t, p).id].sibling.Some?
    ensures var p' := p[..|p| - 1] + [p[|p| - 1] + 1];
            ValidPath(t, p') && fibers[Sub(t, p).id].sibling == Some(Sub(t, p').id) && Sub(t, p').id in fibers &&
            fibers[Sub(t, p').id].ret == fibers[Sub(t, p).id].ret &&
            Before(t, p') == Before(t, p) + Visit(Sub(t, p))
  {
    var q, i := p[..|p| - 1], p[|p| - 1];
    assert p == q + [i];
    StepOut(fibers, t, cut, q, i);
    StepAcross(fibers, t, q, i);
  }

  /** The tree still describes the arena after writes that change no `child`, `sibling`, `tag`, props or flags. */
  ghost predicate SameLinks(fibers: map<FiberId, FiberNode>, fibers': map<FiberId, FiberNode>)
  {
    forall id | id in fibers :: id in fibers' &&
      fibers'[id].child == fibers[id].child && fibers'[id].sibling == fibers[id].sibling &&
      fibers'[id].tag == fibers[id].tag && fibers'[id].pendingProps == fibers[id].pendingProps &&
      fibers'[id].subtreeFlags == fibers[id].subtreeFlags
  }

  lemma {:induction false} SpansFrame(fibers: map<FiberId, FiberNode>, fibers': map<FiberId, FiberNode>, t: Tree, cut: Cut)
    requires Spans(fibers, t, cut) && SameLinks(fibers, fibers')
    ensures Spans(fibers', t, cut)
    decreases t, 1
  {
    ChainFrame(fibers, fibers', fibers[t.id].child, Ids(t.kids));
    forall i | 0 <= i < |t.kids|
      ensures Below(fibers', t.kids[i], cut)
    {
      BelowFrame(fibers, fibers', t.kids[i], cut);
    }
  }

  lemma {:induction false} BelowFrame(fibers: map<FiberId, FiberNode>, fibers': map<FiberId, FiberNode>, t: Tree, cut: Cut)
    requires Below(fibers, t, cut) && SameLinks(fibers, fibers')
    ensures Below(fibers', t, cut)
    decreases t, 2
  {
    if !Stops(cut, fibers[t.id]) {
      SpansFrame(fibers, fibers', t, cut);
    }
  }

  /** `chain` is where the `return` links lead from `first`, up to a fiber without a parent. */
  ghost predicate ReturnChain(fibers: map<FiberId, FiberNode>, first: Option<FiberId>, chain: seq<FiberId>)
    decreases |chain|
  {
    if chain == [] then first.None?
    else first == Some(chain[0]) && chain[0] in fibers && ReturnChain(fibers, fibers[chain[0]].ret, chain[1..])
  }

  /** Each fiber of a return chain is in the arena and points at the next one, the last at none. */
  lemma {:induction false} ReturnChainFacts(fibers: map<FiberId, FiberNode>, first: Option<FiberId>, chain: seq<FiberId>, i: nat)
    requires ReturnChain(fibers, first, chain) && i < |chain|
    ensures chain[i] in fibers && ReturnChain(fibers, Some(chain[i]), chain[i..])
    ensures fibers[chain[i]].ret == if i + 1 < |chain| then Some(chain[i + 1]) else None
    decreases i
  {
    if i > 0 {
      ReturnChainFacts(fibers, fibers[chain[0]].ret, chain[1..], i - 1);
      assert chain[1..][i - 1..] == chain[i..];
    }
    if i + 1 < |chain| {
      assert chain[i..][1..][0] == chain[i + 1];
    }
  }

  /** In a tree spanned without a cut, the subtree at any path is spanned too. */
  lemma SubSpans(fibers: map<FiberId, FiberNode>, t: Tree, p: seq<nat>)
    requires Spans(fibers, t, Nowhere) && ValidPath(t, p)
    ensures Spans(fibers, Sub(t, p), Nowhere)
  {
    if p != [] {
      SubBelow(fibers, t, p, Nowhere);
    }
  }

  /** A path inside the subtree at `x`, followed from the top. */
  lemma PathConcat(t: Tree, x: seq<nat>, rel: seq<nat>)
    requires ValidPath(t, x) && ValidPath(Sub(t, x), rel)
    ensures ValidPath(t, x + rel) && Sub(t, x + rel) == Sub(Sub(t, x), rel)
    ensures Before(t, x + rel) == Before(t, x) + Before(Sub(t, x), rel)
  {
    PathConcatSub(t, x, rel);
    PathConcatBefore(t, x, rel);
  }

  lemma {:induction false} PathConcatSub(t: Tree, x: seq<nat>, rel: seq<nat>)
    requires ValidPath(t, x) && ValidPath(Sub(t, x), rel)
    ensures ValidPath(t, x + rel) && Sub(t, x + rel) == Sub(Sub(t, x), rel)
    decreases x
  {
    if x == [] {
      assert x + rel == rel;
    } else {
      assert (x + rel)[0] == x[0] && (x + rel)[1..] == x[1..] + rel;
      PathConcatSub(t.kids[x[0]], x[1..], rel);
    }
  }

  lemma {:induction false} PathConcatBefore(t: Tree, x: seq<nat>, rel: seq<nat>)
    requires ValidPath(t, x) && ValidPath(Sub(t, x), rel)
    ensures ValidPath(t, x + rel)
    ensures Before(t, x + rel) == Before(t, x) + Before(Sub(t, x), rel)
    decreases x
  {
    PathConcatSub(t, x, rel);
    if x == [] {
      assert x + rel == rel;
    } else {
      var k, y := x[0], x[1..];
      var c := t.kids[k];
      assert (x + rel)[0] == k && (x + rel)[1..] == y + rel;
      PathConcatBefore(c, y, rel);
      var left := [t.id] + VisitAll(t.kids[..k]);
      assert Before(t, x + rel) == left + Before(c, y + rel);
      assert Before(t, x) == left + Before(c, y);
      Assoc(left, Before(c, y), Before(Sub(c, y), rel));
    }
  }

  /** Where the subtree at `p` ends in the pre-order of `t`. */
  function End(t: Tree, p: seq<nat>): nat
    requires ValidPath(t, p)
  {
    |Before(t, p)| + |Visit(Sub(t, p))|
  }

  /** The node at a path is met by the pre-order walk, at position `|Before(t, p)|`, and its subtree ends within the walk. */
  lemma NodeInVisit(t: Tree, p: seq<nat>)
    requires ValidPath(t, p)
    ensures |Before(t, p)| < |Visit(t)| && Visit(t)[|Before(t, p)|] == Sub(t, p).id
    ensures End(t, p) <= |Visit(t)|
  {
    VisitSplits(t, p);
  }

  /**
   * The part of a subtree a walk that stops at `cut` goes through: the top
   * keeps its children, and below it a node where the walk stops keeps none.
   */
  ghost function Pruned(fibers: map<FiberId, FiberNode>, t: Tree, cut: Cut): Tree
    decreases t, 2
  {
    Node(t.id, PrunedKids(fibers, t.kids, cut))
  }

  ghost function PrunedKid(fibers: map<FiberId, FiberNode>, t: Tree, cut: Cut): Tree
    decreases t, 3
  {
    if t.id in fibers && Stops(cut, fibers[t.id]) then Node(t.id, []) else Pruned(fibers, t, cut)
  }

  ghost function PrunedKids(fibers: map<FiberId, FiberNode>, ts: seq<Tree>, cut: Cut): (r: seq<Tree>)
    ensures |r| == |ts| && forall i | 0 <= i < |ts| :: r[i] == PrunedKid(fibers, ts[i], cut) && r[i].id == ts[i].id
    decreases ts, 1
  {
    if ts == [] then []
    else
      assert PrunedKid(fibers, ts[0], cut).id == ts[0].id by {
        assert Pruned(fibers, ts[0], cut).id == ts[0].id;
      }
      [PrunedKid(fibers, ts[0], cut)] + PrunedKids(fibers, ts[1..], cut)
  }

  /** The walk from the top of `t`: nothing below it when the top itself stops the walk. */
  ghost function Cropped(fibers: map<FiberId, FiberNode>, t: Tree, cut: Cut): Tree
  {
    PrunedKid(fibers, t, cut)
  }

  /** Pruning a fully spanned subtree gives one spanned under the cut, with the same links to parents. */
  lemma {:induction false} PrunedSpans(fibers: map<FiberId, FiberNode>, t: Tree, cut: Cut)
    requires Spans(fibers, t, Nowhere) && Parented(fibers, t)
    ensures Spans(fibers, Pruned(fibers, t, cut), cut) && Parented(fibers, Pruned(fibers, t, cut))
    decreases t
  {
    var r := Pruned(fibers, t, cut);
    assert Ids(r.kids) == Ids(t.kids);
    forall i | 0 <= i < |r.kids|
      ensures Below(fibers, r.kids[i], cut) && Parented(fibers, r.kids[i])
    {
      var k := t.kids[i];
      assert Below(fibers, k, Nowhere) && Parented(fibers, k);
      if !Stops(cut, fibers[k.id]) {
        PrunedSpans(fibers, k, cut);
      }
    }
  }

  lemma {:induction false} CroppedBelow(fibers: map<FiberId, FiberNode>, t: Tree, cut: Cut)
    requires Spans(fibers, t, Nowhere) && Parented(fibers, t)
    ensures Below(fibers, Cropped(fibers, t, cut), cut) && Parented(fibers, Cropped(fibers, t, cut))
    ensures Cropped(fibers, t, cut).id == t.id
  {
    if !Stops(cut, fibers[t.id]) {
      PrunedSpans(fibers, t, cut);
    }
  }

  lemma {:induction false} DistinctConcat(a: seq<FiberId>, b: seq<FiberId>)
    ensures Distinct(a + b) <==> Distinct(a) && Distinct(b) && forall x | x in a :: x !in b
  {
    if Distinct(a + b) {
      assert forall i | 0 <= i < |a| :: (a + b)[i] == a[i];
      assert forall j | 0 <= j < |b| :: (a + b)[|a| + j] == b[j];
    }
    if Distinct(a) && Distinct(b) && forall x | x in a :: x !in b {
      forall i, j | 0 <= i < j < |a + b| ensures (a + b)[i] != (a + b)[j] {
        if j < |a| {
        } else if i < |a| {
          assert (a + b)[i] in a && (a + b)[j] == b[j - |a|];
        } else {
          assert (a + b)[i] == b[i - |a|];
        }
      }
    }
  }

  /** Pruning keeps the pre-order free of repeats and meets no node the full walk does not. */
  lemma {:induction false} PrunedDistinct(fibers: map<FiberId, FiberNode>, t: Tree, cut: Cut)
    requires Distinct(Visit(t))
    ensures Distinct(Visit(Pruned(fibers, t, cut))) && forall x | x in Visit(Pruned(fibers, t, cut)) :: x in Visit(t)
    decreases t, 1
  {
    DistinctConcat([t.id], VisitAll(t.kids));
    PrunedKidsDistinct(fibers, t.kids, cut);
    DistinctConcat([t.id], VisitAll(PrunedKids(fibers, t.kids, cut)));
  }

  lemma {:induction false} PrunedKidsDistinct(fibers: map<FiberId, FiberNode>, ts: seq<Tree>, cut: Cut)
    requires Distinct(VisitAll(ts))
    ensures var v := VisitAll(PrunedKids(fibers, ts, cut)); Distinct(v) && forall x | x in v :: x in VisitAll(ts)
    decreases ts, 0
  {
    if ts != [] {
      var r := PrunedKids(fibers, ts, cut);
      assert r[0] == PrunedKid(fibers, ts[0], cut) && r[1..] == PrunedKids(fibers, ts[1..], cut);
      DistinctConcat(Visit(ts[0]), VisitAll(ts[1..]));
      PrunedKidsDistinct(fibers, ts[1..], cut);
      if ts[0].id in fibers && Stops(cut, fibers[ts[0].id]) {
        assert Visit(r[0]) == [ts[0].id];
        assert Visit(ts[0])[0] == ts[0].id;
      } else {
        PrunedDistinct(fibers, ts[0], cut);
      }
      DistinctConcat(Visit(r[0]), VisitAll(r[1..]));
    }
  }

  lemma CroppedDistinct(fibers: map<FiberId, FiberNode>, t: Tree, cut: Cut)
    requires Distinct(Visit(t))
    ensures Distinct(Visit(Cropped(fibers, t, cut))) && forall x | x in Visit(Cropped(fibers, t, cut)) :: x in Visit(t)
  {
    if t.id in fibers && Stops(cut, fibers[t.id]) {
      assert Visit(t)[0] == t.id;
    } else {
      PrunedDistinct(fibers, t, cut);
    }
  }

  /** The subtree at a path meets no node the whole walk does not. */
  lemma SubInVisit(t: Tree, p: seq<nat>)
    requires ValidPath(t, p)
    ensures forall x | x in Visit(Sub(t, p)) :: x in Visit(t)
  {
    VisitSplits(t, p);
  }

  lemma KidInVisit(t: Tree, i: nat)
    requires i < |t.kids|
    ensures t.kids[i].id in Visit(t) && forall x | x in Visit(t.kids[i]) :: x in Visit(t)
  {
    var p: seq<nat> := [i];
    assert p[0] == i && p[1..] == [];
    assert ValidPath(t.kids[i], p[1..]) && Sub(t.kids[i], p[1..]) == t.kids[i];
    assert ValidPath(t, p) && Sub(t, p) == t.kids[i];
    SubInVisit(t, p);
    assert Visit(t.kids[i]) == [t.kids[i].id] + VisitAll(t.kids[i].kids);
  }

  /**
   * On `ids`, `fibers'` holds the fibers of `fibers` with at most their
   * `flags` changed, as the commit phase leaves the fibers it has committed.
   */
  ghost predicate KeptOn(fibers: map<FiberId, FiberNode>, fibers': map<FiberId, FiberNode>, ids: seq<FiberId>)
  {
    forall x | x in ids && x in fibers :: x in fibers' && fibers'[x] == fibers[x].(flags := fibers'[x].flags)
  }

  /** No walk reads `flags`: the subtree is spanned the same way when only flags changed on it. */
  lemma {:induction false} SpansKept(fibers: map<FiberId, FiberNode>, fibers': map<FiberId, FiberNode>, t: Tree, cut: Cut)
    requires Spans(fibers, t, cut) && KeptOn(fibers, fibers', Visit(t))
    ensures Spans(fibers', t, cut)
    decreases t, 1
  {
    assert Visit(t)[0] == t.id;
    forall k | 0 <= k < |t.kids|
      ensures t.kids[k].id in fibers ==> t.kids[k].id in fibers' && fibers'[t.kids[k].id].sibling == fibers[t.kids[k].id].sibling
      ensures Below(fibers', t.kids[k], cut)
    {
      KidInVisit(t, k);
      BelowKept(fibers, fibers', t.kids[k], cut);
    }
    ChainFrame(fibers, fibers', fibers[t.id].child, Ids(t.kids));
  }

  lemma {:induction false} BelowKept(fibers: map<FiberId, FiberNode>, fibers': map<FiberId, FiberNode>, t: Tree, cut: Cut)
    requires Below(fibers, t, cut) && KeptOn(fibers, fibers', Visit(t))
    ensures Below(fibers', t, cut)
    decreases t, 2
  {
    assert Visit(t)[0] == t.id;
    if !Stops(cut, fibers[t.id]) {
      SpansKept(fibers, fibers', t, cut);
    }
  }

  lemma {:induction false} ParentedKept(fibers: map<FiberId, FiberNode>, fibers': map<FiberId, FiberNode>, t: Tree)
    requires Parented(fibers, t) && KeptOn(fibers, fibers', Visit(t))
    ensures Parented(fibers', t)
    decreases t
  {
    forall k | 0 <= k < |t.kids|
      ensures t.kids[k].id in fibers' && fibers'[t.kids[k].id].ret == Some(t.id) && Parented(fibers', t.kids[k])
    {
      KidInVisit(t, k);
      ParentedKept(fibers, fibers', t.kids[k]);
    }
  }

  lemma {:induction false} ReturnChainKept(fibers: map<FiberId, FiberNode>, fibers': map<FiberId, FiberNode>, first: Option<FiberId>, chain: seq<FiberId>)
    requires ReturnChain(fibers, first, chain) && KeptOn(fibers, fibers', chain)
    ensures ReturnChain(fibers', first, chain)
    decreases |chain|
  {
    if chain != [] {
      assert chain[0] in chain;
      ReturnChainKept(fibers, fibers', fibers[chain[0]].ret, chain[1..]);
    }
  }

  lemma {:induction false} VisitAllHas(ts: seq<Tree>, k: nat)
    requires k < |ts|
    ensures forall x | x in Visit(ts[k]) :: x in VisitAll(ts)
    decreases k
  {
    if k > 0 {
      VisitAllHas(ts[1..], k - 1);
      assert ts[1..][k - 1] == ts[k];
    }
  }

  /** In a walk met once, each child's subtree is met once and shares no node with another child's. */
  lemma {:induction false} DistinctKids(ts: seq<Tree>, i: nat)
    requires Distinct(VisitAll(ts)) && i < |ts|
    ensures Distinct(Visit(ts[i]))
    ensures forall j, x | 0 <= j < |ts| && j != i && x in Visit(ts[i]) :: x !in Visit(ts[j])
    decreases i
  {
    DistinctConcat(Visit(ts[0]), VisitAll(ts[1..]));
    forall j | 1 <= j < |ts| ensures forall x | x in Visit(ts[j]) :: x in VisitAll(ts[1..]) {
      VisitAllHas(ts[1..], j - 1);
      assert ts[1..][j - 1] == ts[j];
    }
    if i > 0 {
      DistinctKids(ts[1..], i - 1);
      assert ts[1..][i - 1] == ts[i];
      forall j | 1 <= j < |ts| && j != i ensures forall x | x in Visit(ts[i]) :: x !in Visit(ts[j]) {
        assert ts[1..][j - 1] == ts[j];
      }
    }
  }

  /** The subtree of `t` topped by `x`, the first in pre-order, if any. */
  ghost function Find(t: Tree, x: FiberId): Option<Tree>
    decreases t, 1
  {
    if t.id == x then Some(t) else FindAmong(t.kids, x)
  }

  ghost function FindAmong(ts: seq<Tree>, x: FiberId): Option<Tree>
    decreases ts, 0
  {
    if ts == [] then None
    else match Find(ts[0], x)
      case Some(s) => Some(s)
      case None => FindAmong(ts[1..], x)
  }

  /** The subtree of `t` under the fiber `x`; the fiber alone when `t` does not hold it. */
  ghost function SubtreeAt(t: Tree, x: FiberId): Tree
  {
    match Find(t, x)
    case Some(s) => s
    case None => Node(x, [])
  }

  lemma {:induction false} FindNone(t: Tree, x: FiberId)
    requires x !in Visit(t)
    ensures Find(t, x) == None
    decreases t, 1
  {
    assert Visit(t)[0] == t.id;
    FindAmongNone(t.kids, x);
  }

  lemma {:induction false} FindAmongNone(ts: seq<Tree>, x: FiberId)
    requires x !in VisitAll(ts)
    ensures FindAmong(ts, x) == None
    decreases ts, 0
  {
    if ts != [] {
      FindNone(ts[0], x);
      FindAmongNone(ts[1..], x);
    }
  }

  lemma {:induction false} FindAmongAt(ts: seq<Tree>, i: nat, x: FiberId, s: Tree)
    requires i < |ts| && (forall j | 0 <= j < i :: Find(ts[j], x) == None) && Find(ts[i], x) == Some(s)
    ensures FindAmong(ts, x) == Some(s)
    decreases i
  {
    if i > 0 {
      assert forall j | 0 <= j < i - 1 :: ts[1..][j] == ts[j + 1];
      FindAmongAt(ts[1..], i - 1, x, s);
    }
  }

  /** In a tree met once, the node at a path is the one its fiber names. */
  lemma {:induction false} FindSub(t: Tree, p: seq<nat>)
    requires Distinct(Visit(t)) && ValidPath(t, p)
    ensures Find(t, Sub(t, p).id) == Some(Sub(t, p)) && SubtreeAt(t, Sub(t, p).id) == Sub(t, p)
    decreases p
  {
    if p != [] {
      var i, k := p[0], t.kids[p[0]];
      var x := Sub(t, p).id;
      assert Sub(t, p) == Sub(k, p[1..]);
      DistinctConcat([t.id], VisitAll(t.kids));
      DistinctKids(t.kids, i);
      FindSub(k, p[1..]);
      SubInVisit(k, p[1..]);
      assert Visit(Sub(k, p[1..]))[0] == x;
      assert x in Visit(Sub(k, p[1..]));
      assert x in Visit(k);
      VisitAllHas(t.kids, i);
      assert x in VisitAll(t.kids) && t.id in [t.id];
      forall j | 0 <= j < i ensures Find(t.kids[j], x) == None {
        FindNone(t.kids[j], x);
      }
      FindAmongAt(t.kids, i, x, Sub(t, p));
    }
  }

  /** The subtree at a path is parented and met once when the whole tree is. */
  lemma {:induction false} SubShaped(fibers: map<FiberId, FiberNode>, t: Tree, p: seq<nat>)
    requires Parented(fibers, t) && Distinct(Visit(t)) && ValidPath(t, p)
    ensures Parented(fibers, Sub(t, p)) && Distinct(Visit(Sub(t, p)))
    decreases p
  {
    if p != [] {
      DistinctConcat([t.id], VisitAll(t.kids));
      DistinctKids(t.kids, p[0]);
      SubShaped(fibers, t.kids[p[0]], p[1..]);
    }
  }

  /** Pruning reads no `flags`. */
  lemma {:induction false} PrunedKept(fibers: map<FiberId, FiberNode>, fibers': map<FiberId, FiberNode>, t: Tree, cut: Cut)
    requires KeptOn(fibers, fibers', Visit(t)) && forall x | x in Visit(t) :: x in fibers
    ensures Pruned(fibers', t, cut) == Pruned(fibers, t, cut)
    decreases t, 2
  {
    PrunedKidsKept(fibers, fibers', t.kids, cut);
  }

  lemma {:induction false} PrunedKidsKept(fibers: map<FiberId, FiberNode>, fibers': map<FiberId, FiberNode>, ts: seq<Tree>, cut: Cut)
    requires KeptOn(fibers, fibers', VisitAll(ts)) && forall x | x in VisitAll(ts) :: x in fibers
    ensures PrunedKids(fibers', ts, cut) == PrunedKids(fibers, ts, cut)
    decreases ts, 1
  {
    if ts != [] {
      var t := ts[0];
      assert Visit(t)[0] == t.id;
      PrunedKidsKept(fibers, fibers', ts[1..], cut);
      if !Stops(cut, fibers[t.id]) {
        PrunedKept(fibers, fibers', t, cut);
      }
    }
  }

  /** The two arenas hold the same fibers, with at most their `flags` changed. */
  ghost predicate FlagsOnly(fibers: map<FiberId, FiberNode>, fibers': map<FiberId, FiberNode>)
  {
    fibers'.Keys == fibers.Keys && forall x | x in fibers :: fibers'[x] == fibers[x].(flags := fibers'[x].flags)
  }

  lemma FlagsOnlyKeptOn(fibers: map<FiberId, FiberNode>, fibers': map<FiberId, FiberNode>, ids: seq<FiberId>)
    requires FlagsOnly(fibers, fibers')
    ensures KeptOn(fibers, fibers', ids)
  {
  }

  /** The post-order walk meets the nodes the pre-order walk meets, each once when those are distinct. */
  lemma {:induction false} PostVisitSame(t: Tree)
    ensures forall x :: x in PostVisit(t) <==> x in Visit(t)
    ensures Distinct(Visit(t)) ==> Distinct(PostVisit(t))
    decreases t, 1
  {
    PostVisitAllSame(t.kids);
    DistinctConcat([t.id], VisitAll(t.kids));
    DistinctConcat(PostVisitAll(t.kids), [t.id]);
  }

  lemma {:induction false} PostVisitAllSame(ts: seq<Tree>)
    ensures forall x :: x in PostVisitAll(ts) <==> x in VisitAll(ts)
    ensures Distinct(VisitAll(ts)) ==> Distinct(PostVisitAll(ts))
    decreases ts, 0
  {
    if ts != [] {
      PostVisitSame(ts[0]);
      PostVisitAllSame(ts[1..]);
      DistinctConcat(Visit(ts[0]), VisitAll(ts[1..]));
      DistinctConcat(PostVisit(ts[0]), PostVisitAll(ts[1..]));
    }
  }

  /** The nodes a post-order walk of `t` finishes after the subtree at `p`. */
  function PostAfter(t: Tree, p: seq<nat>): seq<FiberId>
    requires ValidPath(t, p)
    decreases p
  {
    if p == [] then [] else PostAfter(t.kids[p[0]], p[1..]) + PostVisitAll(t.kids[p[0] + 1..]) + [t.id]
  }

  /** A post-order walk of `t` finishes the nodes before `p`, then the subtree at `p`, then the rest. */
  lemma {:induction false} PostSplits(t: Tree, p: seq<nat>)
    requires ValidPath(t, p)
    ensures PostVisit(t) == PostBefore(t, p) + PostVisit(Sub(t, p)) + PostAfter(t, p)
    decreases p
  {
    if p != [] {
      var i, k := p[0], t.kids[p[0]];
      PostSplits(k, p[1..]);
      PostVisitAllSnoc(t.kids, i);
      var x, b, v, a, r := PostVisitAll(t.kids[..i]), PostBefore(k, p[1..]), PostVisit(Sub(k, p[1..])), PostAfter(k, p[1..]), PostVisitAll(t.kids[i + 1..]);
      assert PostVisit(t) == x + (b + v + a) + r + [t.id];
      assert PostAfter(t, p) == a + r + [t.id];
      Regroup5(x, b, v, a, r, [t.id]);
    }
  }

  lemma Regroup5<T>(x: seq<T>, b: seq<T>, v: seq<T>, a: seq<T>, r: seq<T>, z: seq<T>)
    ensures x + (b + v + a) + r + z == (x + b) + v + (a + r + z)
  {
  }

  /**
   * What a post-order walk of a tree whose nodes are distinct has finished
   * once it finishes the node at `p`: distinct nodes of the tree.
   */
  lemma PostPrefix(t: Tree, p: seq<nat>)
    requires ValidPath(t, p) && Distinct(Visit(t))
    ensures Distinct(PostBefore(t, p) + PostVisit(Sub(t, p)))
    ensures forall x | x in PostBefore(t, p) + PostVisit(Sub(t, p)) :: x in Visit(t)
  {
    PostSplits(t, p);
    PostVisitSame(t);
    DistinctConcat(PostBefore(t, p) + PostVisit(Sub(t, p)), PostAfter(t, p));
  }

  /** A path of the pruned tree is a path of the whole one, to the same node. */
  lemma {:induction false} PrunedPath(fibers: map<FiberId, FiberNode>, t: Tree, cut: Cut, p: seq<nat>)
    requires ValidPath(Pruned(fibers, t, cut), p)
    ensures ValidPath(t, p) && Sub(t, p).id == Sub(Pruned(fibers, t, cut), p).id
    decreases p
  {
    if p != [] {
      var k := t.kids[p[0]];
      var r := Pruned(fibers, t, cut).kids[p[0]];
      if k.id in fibers && Stops(cut, fibers[k.id]) {
        assert r == Node(k.id, []);
      } else {
        PrunedPath(fibers, k, cut, p[1..]);
      }
    }
  }

  lemma CroppedPath(fibers: map<FiberId, FiberNode>, t: Tree, cut: Cut, p: seq<nat>)
    requires ValidPath(Cropped(fibers, t, cut), p)
    ensures ValidPath(t, p) && Sub(t, p).id == Sub(Cropped(fibers, t, cut), p).id
  {
    if !(t.id in fibers && Stops(cut, fibers[t.id])) {
      PrunedPath(fibers, t, cut, p);
    }
  }
}
