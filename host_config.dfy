/**
 * The noop renderer's host: instances and containers held in memory, each
 * with an array of children.  The `children` arrays hold host objects;
 * since every instance and text instance has a distinct `id`, the arrays
 * are sequences of ids here and `indexOf` compares ids.
 */
module HostConfig {
  import opened Wrappers
  import opened Js
  import opened HostTypes
  import opened WorkTags
  import opened Fiber

  /**
   * `parent` is the id of the parent that adopted the node, `-1` before
   * that, and `undefined` once `appendChildToContainer` adopted it into an
   * instance (an instance has no `rootID`).
   */
  datatype HostInstance =
    | Instance(id: nat, instanceType: JsValue, children: seq<InstanceRef>, parent: JsValue, props: JsValue)
    | TextInstance(text: JsValue, id: nat, parent: JsValue)

  datatype Container = Container(rootID: int, children: seq<InstanceRef>)

  const NoParent: JsValue := Num(-1)

  /** `Array.prototype.indexOf`: the first position of `x`, or -1. */
  function IndexOf(s: seq<InstanceRef>, x: InstanceRef): (i: int)
    ensures -1 <= i < |s|
    ensures i == -1 <==> x !in s
    ensures i >= 0 ==> s[i] == x && x !in s[..i]
    decreases |s|
  {
    if s == [] then -1
    else if s[0] == x then 0
    else
      var j := IndexOf(s[1..], x);
      assert j >= 0 ==> s[..j + 1] == [s[0]] + s[1..][..j];
      if j == -1 then -1 else j + 1
  }

  /** `splice(i, 1)` */
  function RemoveAt(s: seq<InstanceRef>, i: nat): seq<InstanceRef>
    requires i < |s|
  {
    s[..i] + s[i + 1..]
  }

  /** `splice(i, 0, x)` */
  function InsertAt(s: seq<InstanceRef>, i: nat, x: InstanceRef): seq<InstanceRef>
    requires i <= |s|
  {
    s[..i] + [x] + s[i..]
  }

  /** Removing the first occurrence takes out one copy of `x` and keeps the other children in order. */
  lemma RemoveFirstOccurrence(s: seq<InstanceRef>, x: InstanceRef)
    requires x in s
    ensures multiset(RemoveAt(s, IndexOf(s, x))) == multiset(s) - multiset{x}
    ensures |RemoveAt(s, IndexOf(s, x))| == |s| - 1
  {
    var i := IndexOf(s, x);
    var a, b := s[..i], s[i + 1..];
    assert s == a + [x] + b;
    assert RemoveAt(s, i) == a + b;
    assert multiset(s) == multiset(a) + multiset{x} + multiset(b);
  }

  /**
   * The children after `insertChildToContainer(_, child, before)` as the
   * source computes it: the index of `before` is taken before `child` is
   * removed from its old position.
   */
  function InsertBeforeAsWritten(s: seq<InstanceRef>, child: InstanceRef, before: InstanceRef): Result<seq<InstanceRef>>
  {
    var beforeIndex := IndexOf(s, before);
    if beforeIndex == -1 then Err("beforeIndex: before node doesn't exist")
    else
      var index := IndexOf(s, child);
      var t := if index != -1 then RemoveAt(s, index) else s;
      Ok(InsertAt(t, beforeIndex, child))
  }

  /** `children` with the first occurrence of `child`, if any, taken out. */
  function WithoutChild(s: seq<InstanceRef>, child: InstanceRef): seq<InstanceRef>
  {
    var index := IndexOf(s, child);
    if index != -1 then RemoveAt(s, index) else s
  }

  /** The children after inserting `child` right before `before`, moving it if it is already a child. */
  function InsertBefore(s: seq<InstanceRef>, child: InstanceRef, before: InstanceRef): (r: Result<seq<InstanceRef>>)
    ensures r.Err? <==> before !in s
    ensures r.Ok? && child != before ==>
              var i := IndexOf(r.value, before); i > 0 && r.value[i - 1] == child
    ensures r.Ok? && child !in s ==> multiset(r.value) == multiset(s) + multiset{child}
    ensures r.Ok? && child in s ==> multiset(r.value) == multiset(s)
  {
    if before !in s then Err("beforeIndex: before node doesn't exist")
    else if child == before then Ok(s)
    else
      var t := WithoutChild(s, child);
      InsertBeforeFacts(s, child, before);
      Ok(InsertAt(t, IndexOf(t, before), child))
  }

  lemma InsertBeforeFacts(s: seq<InstanceRef>, child: InstanceRef, before: InstanceRef)
    requires before in s && child != before
    ensures before in WithoutChild(s, child)
    ensures var t := WithoutChild(s, child); var r := InsertAt(t, IndexOf(t, before), child);
            IndexOf(r, before) == IndexOf(t, before) + 1 &&
            (child !in s ==> multiset(r) == multiset(s) + multiset{child}) &&
            (child in s ==> multiset(r) == multiset(s))
  {
    var index := IndexOf(s, child);
    var t := WithoutChild(s, child);
    if index != -1 {
      var b := IndexOf(s, before);
      assert b < index ==> t[b] == before;
      assert b > index ==> t[b - 1] == before;
      RemoveFirstOccurrence(s, child);
    }
    var b := IndexOf(t, before);
    InsertKeepsNeighbour(t, b, child);
  }

  lemma InsertKeepsNeighbour(t: seq<InstanceRef>, b: int, child: InstanceRef)
    requires 0 <= b < |t| && t[b] != child && t[b] !in t[..b]
    ensures IndexOf(InsertAt(t, b, child), t[b]) == b + 1
    ensures multiset(InsertAt(t, b, child)) == multiset(t) + multiset{child}
  {
    var r := InsertAt(t, b, child);
    assert r[..b + 1] == t[..b] + [child];
    assert r[b + 1] == t[b];
    assert t == t[..b] + t[b..];
  }

  /** For a child that is not in the list yet, the source's insertion is the intended one. */
  lemma InsertNewChildAsIntended(s: seq<InstanceRef>, child: InstanceRef, before: InstanceRef)
    requires child !in s
    ensures InsertBeforeAsWritten(s, child, before) == InsertBefore(s, child, before)
  {
  }

  /**
   * A child already placed ahead of `before` lands after it: moving `c`
   * before `b` in `[c, b]` gives `[b, c]`.
   */
  lemma InsertBeforeAsWrittenMisplaces()
    ensures InsertBeforeAsWritten([0, 1], 0, 1) == Ok([1, 0])
    ensures InsertBefore([0, 1], 0, 1) == Ok([0, 1])
  {
    assert IndexOf([0, 1], 1) == 1 && IndexOf([0, 1], 0) == 0 && IndexOf([1], 1) == 0;
    assert RemoveAt([0, 1], 0) == [1];
    assert InsertAt([1], 1, 0) == [1, 0];
    assert WithoutChild([0, 1], 0) == [1];
    assert InsertAt([1], 0, 0) == [0, 1];
  }

  class NoopHost {
    var instanceCounter: nat
    var instances: map<InstanceRef, HostInstance>
    var containers: map<ContainerRef, Container>

    /** Instances are filed under their own id, and every id was handed out by the counter. */
    ghost predicate Valid()
      reads this
    {
      forall r | r in instances :: r < instanceCounter && instances[r].id == r
    }

    constructor (containers: map<ContainerRef, Container>)
      ensures instanceCounter == 0 && instances == map[] && this.containers == containers && Valid()
    {
      instanceCounter := 0;
      instances := map[];
      this.containers := containers;
    }

    /** `parent` exists and has a `children` array. */
    predicate HasChildren(parent: HostParent)
      reads this
    {
      match parent
      case ContainerParent(c) => c in containers
      case InstanceParent(i) => i in instances && instances[i].Instance?
    }

    function ChildrenOf(parent: HostParent): seq<InstanceRef>
      reads this
      requires HasChildren(parent)
    {
      match parent
      case ContainerParent(c) => containers[c].children
      case InstanceParent(i) => instances[i].children
    }

    /**
     * Against the maps `instances0` and `containers0`, only the children
     * array of `parent` may differ.
     */
    ghost predicate OnlyChildrenOf(parent: HostParent, instances0: map<InstanceRef, HostInstance>, containers0: map<ContainerRef, Container>)
      reads this
    {
      match parent
      case ContainerParent(c) =>
        c in containers && c in containers0 && instances == instances0 &&
        containers == containers0[c := containers0[c].(children := containers[c].children)]
      case InstanceParent(i) =>
        i in instances && i in instances0 && instances[i].Instance? && instances0[i].Instance? && containers == containers0 &&
        instances == instances0[i := instances0[i].(children := instances[i].children)]
    }

    /** Replaces the children array of `parent` and nothing else. */
    method SetChildren(parent: HostParent, children: seq<InstanceRef>)
      requires HasChildren(parent)
      modifies this`instances, this`containers
      ensures HasChildren(parent) && ChildrenOf(parent) == children
      ensures OnlyChildrenOf(parent, old(instances), old(containers))
      ensures instanceCounter == old(instanceCounter)
      ensures parent.ContainerParent? ==>
                containers == old(containers)[parent.container := old(containers[parent.container]).(children := children)] &&
                instances == old(instances)
      ensures parent.InstanceParent? ==>
                instances == old(instances)[parent.instance := old(instances[parent.instance]).(children := children)] &&
                containers == old(containers)
      ensures old(Valid()) ==> Valid()
    {
      match parent
      case ContainerParent(c) =>
        containers := containers[c := containers[c].(children := children)];
      case InstanceParent(i) =>
        instances := instances[i := instances[i].(children := children)];
    }

    /** `createInstance(type, props)`: a fresh instance with the next id, no children and no parent. */
    method CreateInstance(instanceType: JsValue, props: JsValue) returns (inst: InstanceRef)
      requires Valid()
      modifies this`instanceCounter, this`instances
      ensures Valid()
      ensures inst == old(instanceCounter) && instanceCounter == old(instanceCounter) + 1
      ensures inst !in old(instances)
      ensures instances == old(instances)[inst := Instance(inst, instanceType, [], NoParent, props)]
    {
      inst := instanceCounter;
      instanceCounter := instanceCounter + 1;
      instances := instances[inst := Instance(inst, instanceType, [], NoParent, props)];
    }

    /** `createTextInstance(content)` */
    method CreateTextInstance(content: JsValue) returns (inst: InstanceRef)
      requires Valid()
      modifies this`instanceCounter, this`instances
      ensures Valid()
      ensures inst == old(instanceCounter) && instanceCounter == old(instanceCounter) + 1
      ensures inst !in old(instances)
      ensures instances == old(instances)[inst := TextInstance(content, inst, NoParent)]
    {
      inst := instanceCounter;
      instanceCounter := instanceCounter + 1;
      instances := instances[inst := TextInstance(content, inst, NoParent)];
    }

    /** The id `appendInitialChild` gives an adopted node: the container's `rootID` or the instance's `id`. */
    function ParentId(parent: HostParent): JsValue
      reads this
      requires HasChildren(parent)
    {
      match parent
      case ContainerParent(c) => Num(containers[c].rootID)
      case InstanceParent(i) => Num(instances[i].id)
    }

    /** The id `appendChildToContainer` reads: `rootID`, which an instance does not have. */
    function RootId(parent: HostParent): JsValue
      reads this
      requires HasChildren(parent)
    {
      match parent
      case ContainerParent(c) => Num(containers[c].rootID)
      case InstanceParent(_) => Undefined
    }

    /** Shared by both append operations: adopt `child` under `parentId` and push it at the end. */
    method Adopt(parent: HostParent, child: InstanceRef, parentId: JsValue) returns (r: Result<()>)
      requires HasChildren(parent) && child in instances
      modifies this`instances, this`containers
      ensures r.Err? <==> old(instances[child].parent) != NoParent && old(instances[child].parent) != parentId
      ensures r.Err? ==> r.message == "duplicate child node insertion"
      ensures r.Err? ==> instances == old(instances) && containers == old(containers)
      ensures r.Ok? && parent.InstanceParent? && parent.instance == child ==>
                instances == old(instances)[child := old(instances[child]).(parent := parentId, children := old(instances[child].children) + [child])] &&
                containers == old(containers)
      ensures r.Ok? && parent.InstanceParent? && parent.instance != child ==>
                instances == old(instances)[child := old(instances[child]).(parent := parentId)]
                                           [parent.instance := old(instances[parent.instance]).(children := old(instances[parent.instance].children) + [child])] &&
                containers == old(containers)
      ensures r.Ok? && parent.ContainerParent? ==>
                instances == old(instances)[child := old(instances[child]).(parent := parentId)] &&
                containers == old(containers)[parent.container := old(containers[parent.container]).(children := old(containers[parent.container].children) + [child])]
      ensures instanceCounter == old(instanceCounter)
      ensures old(Valid()) ==> Valid()
    {
      var prevParentId := instances[child].parent;
      if prevParentId != NoParent && prevParentId != parentId {
        return Err("duplicate child node insertion");
      }
      match parent {
        case ContainerParent(c) => PushToContainer(c, child, parentId);
        case InstanceParent(i) => PushToInstance(i, child, parentId);
      }
      r := Ok(());
    }

    /** `child.parent = parentID; parent.children.push(child)` for a container parent. */
    method PushToContainer(c: ContainerRef, child: InstanceRef, parentId: JsValue)
      requires c in containers && child in instances
      modifies this`instances, this`containers
      ensures instances == old(instances)[child := old(instances[child]).(parent := parentId)]
      ensures containers == old(containers)[c := old(containers[c]).(children := old(containers[c].children) + [child])]
      ensures instanceCounter == old(instanceCounter)
      ensures old(Valid()) ==> Valid()
    {
      instances := instances[child := instances[child].(parent := parentId)];
      containers := containers[c := containers[c].(children := containers[c].children + [child])];
    }

    /** `child.parent = parentID; parent.children.push(child)` for an instance parent, which may be `child` itself. */
    method PushToInstance(i: InstanceRef, child: InstanceRef, parentId: JsValue)
      requires i in instances && instances[i].Instance? && child in instances
      modifies this`instances
      ensures i != child ==>
                instances == old(instances)[child := old(instances[child]).(parent := parentId)]
                                           [i := old(instances[i]).(children := old(instances[i].children) + [child])]
      ensures i == child ==>
                instances == old(instances)[child := old(instances[child]).(parent := parentId, children := old(instances[child].children) + [child])]
      ensures instanceCounter == old(instanceCounter)
      ensures old(Valid()) ==> Valid()
    {
      var children := instances[i].children;
      instances := instances[child := instances[child].(parent := parentId)];
      instances := instances[i := instances[i].(children := children + [child])];
    }

    /** `appendInitialChild(parent, child)` */
    method AppendInitialChild(parent: HostParent, child: InstanceRef) returns (r: Result<()>)
      requires HasChildren(parent) && child in instances
      modifies this`instances, this`containers
      ensures r.Err? <==> old(instances[child].parent) != NoParent && old(instances[child].parent) != old(ParentId(parent))
      ensures r.Err? ==> r.message == "duplicate child node insertion" && instances == old(instances) && containers == old(containers)
      ensures r.Ok? ==> HasChildren(parent) && child in instances && instances[child].parent == old(ParentId(parent))
      ensures r.Ok? && (parent.ContainerParent? || parent.instance != child) ==>
                ChildrenOf(parent) == old(ChildrenOf(parent)) + [child]
      ensures r.Ok? ==> forall x | x in instances && x in old(instances) && x != child && (parent.ContainerParent? || x != parent.instance) ::
                          instances[x] == old(instances[x])
      ensures r.Ok? && parent.InstanceParent? && parent.instance != child ==>
                instances == old(instances)[child := old(instances[child]).(parent := old(ParentId(parent)))]
                                           [parent.instance := old(instances[parent.instance]).(children := old(instances[parent.instance].children) + [child])] &&
                containers == old(containers)
      ensures r.Ok? && parent.ContainerParent? ==>
                instances == old(instances)[child := old(instances[child]).(parent := old(ParentId(parent)))] &&
                containers == old(containers)[parent.container := old(containers[parent.container]).(children := old(containers[parent.container].children) + [child])]
      ensures instanceCounter == old(instanceCounter)
      ensures old(Valid()) ==> Valid()
    {
      r := Adopt(parent, child, ParentId(parent));
    }

    /**
     * `appendChildToContainer(parent, child)`: the same check against
     * `parent.rootID`; appending to a parent the child already has pushes a
     * second copy.
     */
    method AppendChildToContainer(parent: HostParent, child: InstanceRef) returns (r: Result<()>)
      requires HasChildren(parent) && child in instances
      modifies this`instances, this`containers
      ensures r.Err? <==> old(instances[child].parent) != NoParent && old(instances[child].parent) != old(RootId(parent))
      ensures r.Err? ==> r.message == "duplicate child node insertion" && instances == old(instances) && containers == old(containers)
      ensures r.Ok? ==> HasChildren(parent) && child in instances && instances[child].parent == old(RootId(parent))
      ensures r.Ok? && (parent.ContainerParent? || parent.instance != child) ==>
                ChildrenOf(parent) == old(ChildrenOf(parent)) + [child]
      ensures r.Ok? ==> forall x | x in instances && x in old(instances) && x != child && (parent.ContainerParent? || x != parent.instance) ::
                          instances[x] == old(instances[x])
      ensures r.Ok? && parent.InstanceParent? && parent.instance == child ==>
                instances == old(instances)[child := old(instances[child]).(parent := old(RootId(parent)), children := old(instances[child].children) + [child])] &&
                containers == old(containers)
      ensures r.Ok? && parent.InstanceParent? && parent.instance != child ==>
                instances == old(instances)[child := old(instances[child]).(parent := old(RootId(parent)))]
                                           [parent.instance := old(instances[parent.instance]).(children := old(instances[parent.instance].children) + [child])] &&
                containers == old(containers)
      ensures r.Ok? && parent.ContainerParent? ==>
                instances == old(instances)[child := old(instances[child]).(parent := old(RootId(parent)))] &&
                containers == old(containers)[parent.container := old(containers[parent.container]).(children := old(containers[parent.container].children) + [child])]
      ensures instanceCounter == old(instanceCounter)
      ensures old(Valid()) ==> Valid()
    {
      r := Adopt(parent, child, RootId(parent));
    }

    /** `insertChildToContainer(container, child, before)` as written; `child.parent` is left as it was. */
    method InsertChildToContainer(container: HostParent, child: InstanceRef, before: InstanceRef) returns (r: Result<()>)
      requires HasChildren(container)
      modifies this`instances, this`containers
      ensures InsertBeforeAsWritten(old(ChildrenOf(container)), child, before).Err? ==>
                r.Err? && r.message == "beforeIndex: before node doesn't exist" &&
                instances == old(instances) && containers == old(containers)
      ensures InsertBeforeAsWritten(old(ChildrenOf(container)), child, before).Ok? ==>
                r.Ok? && HasChildren(container) &&
                ChildrenOf(container) == InsertBeforeAsWritten(old(ChildrenOf(container)), child, before).value
      ensures r.Ok? ==> OnlyChildrenOf(container, old(instances), old(containers))
      ensures instanceCounter == old(instanceCounter)
      ensures old(Valid()) ==> Valid()
    {
      var children := ChildrenOf(container);
      var result := InsertBeforeAsWritten(children, child, before);
      if result.Err? {
        return Err(result.message);
      }
      SetChildren(container, result.value);
      r := Ok(());
    }

    /** The intended insertion: `child` ends up right before `before`, moved if it was already a child. */
    method InsertChildBefore(container: HostParent, child: InstanceRef, before: InstanceRef) returns (r: Result<()>)
      requires HasChildren(container)
      modifies this`instances, this`containers
      ensures r.Err? <==> before !in old(ChildrenOf(container))
      ensures r.Err? ==> r.message == "beforeIndex: before node doesn't exist" &&
                         instances == old(instances) && containers == old(containers)
      ensures r.Ok? ==> HasChildren(container) &&
                        ChildrenOf(container) == InsertBefore(old(ChildrenOf(container)), child, before).value
      ensures r.Ok? ==> OnlyChildrenOf(container, old(instances), old(containers))
      ensures instanceCounter == old(instanceCounter)
      ensures old(Valid()) ==> Valid()
    {
      var children := ChildrenOf(container);
      var result := InsertBefore(children, child, before);
      if result.Err? {
        return Err(result.message);
      }
      SetChildren(container, result.value);
      r := Ok(());
    }

    /** `removeChild(child, container)`: takes out the first occurrence of `child`. */
    method RemoveChild(child: InstanceRef, container: HostParent) returns (r: Result<()>)
      requires HasChildren(container)
      modifies this`instances, this`containers
      ensures r.Err? <==> child !in old(ChildrenOf(container))
      ensures r.Err? ==> r.message == "removeChild: child doesn't exist" &&
                         instances == old(instances) && containers == old(containers)
      ensures r.Ok? ==> HasChildren(container) &&
                        ChildrenOf(container) == RemoveAt(old(ChildrenOf(container)), IndexOf(old(ChildrenOf(container)), child))
      ensures r.Ok? ==> multiset(ChildrenOf(container)) == multiset(old(ChildrenOf(container))) - multiset{child}
      ensures r.Ok? ==> OnlyChildrenOf(container, old(instances), old(containers))
      ensures instanceCounter == old(instanceCounter)
      ensures old(Valid()) ==> Valid()
    {
      var children := ChildrenOf(container);
      var index := IndexOf(children, child);
      if index == -1 {
        return Err("removeChild: child doesn't exist");
      }
      RemoveFirstOccurrence(children, child);
      SetChildren(container, RemoveAt(children, index));
      r := Ok(());
    }

    /** `commitUpdate(fiber)`: a host text fiber's instance takes the text of its memoized props; nothing else is updated. */
    method CommitUpdate(fiber: FiberNode)
      modifies this`instances
      ensures fiber.tag == HostText && fiber.stateNode.HostNode? && fiber.stateNode.instance in old(instances) &&
              old(instances[fiber.stateNode.instance]).TextInstance? ==>
                instances == old(instances)[fiber.stateNode.instance :=
                               old(instances[fiber.stateNode.instance]).(text := Get(fiber.memoizedProps, "content"))]
      ensures (!(fiber.tag == HostText && fiber.stateNode.HostNode? && fiber.stateNode.instance in old(instances) &&
                 old(instances[fiber.stateNode.instance]).TextInstance?)) ==> instances == old(instances)
      ensures old(Valid()) ==> Valid()
    {
      if fiber.tag == HostText {
        var text := Get(fiber.memoizedProps, "content");
        if fiber.stateNode.HostNode? {
          CommitTextUpdate(fiber.stateNode.instance, text);
        }
      }
    }

    /** `commitTextUpdate(textInstance, content)` */
    method CommitTextUpdate(textInstance: InstanceRef, content: JsValue)
      modifies this`instances
      ensures textInstance in old(instances) && old(instances[textInstance]).TextInstance? ==>
                instances == old(instances)[textInstance := old(instances[textInstance]).(text := content)]
      ensures !(textInstance in old(instances) && old(instances[textInstance]).TextInstance?) ==> instances == old(instances)
      ensures old(Valid()) ==> Valid()
    {
      if textInstance in instances && instances[textInstance].TextInstance? {
        instances := instances[textInstance := instances[textInstance].(text := content)];
      }
    }
  }
}
