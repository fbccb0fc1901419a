/**
 * Finding controls under a UI screen's scene node: the recursive
 * depth-first name search `DFSFindObject`, its soft-failing callers
 * `FindGameObject` and `FindControl`, and the path lookup `GetControl`.
 *
 * Scene nodes are values: a name and the ordered list of children.
 * A search result is `None` where the engine returns null, and every
 * error the engine would log is returned as the logged message.
 */
module ControlResolver {
  import opened Wrappers

  datatype Node = Node(name: string, children: seq<Node>)

  /** What a soft-failing lookup gives back: the object found (or none)
      and the line it wrote to the error log, if any. */
  datatype Lookup<T> = Lookup(value: Option<T>, log: Option<string>)

  // ---------------------------------------------------------------
  // Reference definitions: pre-order descendants and the first match
  // ---------------------------------------------------------------

  /** The proper descendants of `p` reached through its children
      `i, i+1, ...`, in pre-order: each child, then its whole subtree,
      then the next sibling. */
  function DescendantsFrom(p: Node, i: nat): seq<Node>
    decreases p, |p.children| - i
  {
    if i >= |p.children| then []
    else [p.children[i]] + DescendantsFrom(p.children[i], 0) + DescendantsFrom(p, i + 1)
  }

  /** All proper descendants of `p` in pre-order; `p` itself is not among them. */
  function Descendants(p: Node): seq<Node>
  {
    DescendantsFrom(p, 0)
  }

  /** `d` lies strictly below `p` in the tree (order-free definition). */
  ghost predicate IsProperDescendant(d: Node, p: Node)
    decreases p
  {
    exists i :: 0 <= i < |p.children| &&
      (p.children[i] == d || IsProperDescendant(d, p.children[i]))
  }

  /** The first node of `s` named `name`, if there is one. */
  function FirstNamed(s: seq<Node>, name: string): (r: Option<Node>)
    ensures r.None? <==> forall j :: 0 <= j < |s| ==> s[j].name != name
    ensures r.Some? ==> exists k :: 0 <= k < |s| && s[k] == r.value && r.value.name == name &&
                          forall j :: 0 <= j < k ==> s[j].name != name
  {
    if s == [] then None
    else if s[0].name == name then Some(s[0])
    else
      var r := FirstNamed(s[1..], name);
      assert r.Some? ==> exists k :: 0 <= k < |s[1..]| && s[1..][k] == r.value && r.value.name == name &&
                          forall j :: 0 <= j < k ==> s[1..][j].name != name;
      r
  }

  lemma {:induction false} FirstNamedAppend(a: seq<Node>, b: seq<Node>, name: string)
    ensures FirstNamed(a + b, name) ==
            if FirstNamed(a, name).Some? then FirstNamed(a, name) else FirstNamed(b, name)
  {
    if a != [] {
      assert (a + b)[1..] == a[1..] + b;
      FirstNamedAppend(a[1..], b, name);
    } else {
      assert a + b == b;
    }
  }

  // ---------------------------------------------------------------
  // The search as the engine runs it
  // ---------------------------------------------------------------

  /** The loop of `DFSFindObject` from child `i` on: compare the child's
      name, then search the child's subtree, then go on to the next child. */
  function FindFrom(p: Node, i: nat, name: string): Option<Node>
    decreases p, |p.children| - i
  {
    if i >= |p.children| then None
    else if p.children[i].name == name then Some(p.children[i])
    else
      match FindFrom(p.children[i], 0, name)
      case Some(target) => Some(target)
      case None => FindFrom(p, i + 1, name)
  }

  /** The engine's loop finds exactly the pre-order-first match among the
      descendants reached from child `i` on. */
  lemma {:induction false} FindFromIsFirstNamed(p: Node, i: nat, name: string)
    ensures FindFrom(p, i, name) == FirstNamed(DescendantsFrom(p, i), name)
    decreases p, |p.children| - i
  {
    if i < |p.children| {
      var c := p.children[i];
      FindFromIsFirstNamed(c, 0, name);
      FindFromIsFirstNamed(p, i + 1, name);
      FirstNamedAppend([c] + DescendantsFrom(c, 0), DescendantsFrom(p, i + 1), name);
      FirstNamedAppend([c], DescendantsFrom(c, 0), name);
    }
  }

  /** Depth-first search below `parent` for a node named `name`. */
  function DFSFindObject(parent: Node, name: string): (r: Option<Node>)
    ensures r == FirstNamed(Descendants(parent), name)
    ensures r.Some? ==> r.value.name == name && r.value in Descendants(parent)
    ensures r.None? <==> forall d :: d in Descendants(parent) ==> d.name != name
  {
    FindFromIsFirstNamed(parent, 0, name);
    FindFrom(parent, 0, name)
  }

  /** The parent's own name is never compared: renaming the root does not
      change the outcome of the search. */
  lemma {:induction false} RootNameIgnored(a: string, b: string, children: seq<Node>, name: string)
    ensures DFSFindObject(Node(a, children), name) == DFSFindObject(Node(b, children), name)
  {
    RootNameIgnoredFrom(a, b, children, 0, name);
  }

  lemma {:induction false} RootNameIgnoredFrom(a: string, b: string, children: seq<Node>, i: nat, name: string)
    ensures FindFrom(Node(a, children), i, name) == FindFrom(Node(b, children), i, name)
    decreases |children| - i
  {
    if i < |children| {
      RootNameIgnoredFrom(a, b, children, i + 1, name);
    }
  }

  /** The pre-order list holds exactly the proper descendants. */
  lemma {:induction false} DescendantsFromMembers(p: Node, i: nat, d: Node)
    ensures d in DescendantsFrom(p, i) <==>
            exists j :: i <= j < |p.children| &&
              (p.children[j] == d || d in DescendantsFrom(p.children[j], 0))
    decreases p, |p.children| - i
  {
    if i < |p.children| {
      DescendantsFromMembers(p, i + 1, d);
    }
  }

  lemma {:induction false} DescendantsAreProperDescendants(p: Node, d: Node)
    ensures d in Descendants(p) <==> IsProperDescendant(d, p)
    decreases p
  {
    DescendantsFromMembers(p, 0, d);
    forall j | 0 <= j < |p.children|
      ensures d in DescendantsFrom(p.children[j], 0) <==> IsProperDescendant(d, p.children[j])
    {
      DescendantsAreProperDescendants(p.children[j], d);
    }
  }

  /** The search succeeds exactly when some proper descendant bears the
      name, and what it returns is such a descendant. */
  lemma DFSFindObjectFindsDescendant(parent: Node, name: string)
    ensures DFSFindObject(parent, name).Some? <==>
            exists d :: IsProperDescendant(d, parent) && d.name == name
    ensures DFSFindObject(parent, name).Some? ==>
            IsProperDescendant(DFSFindObject(parent, name).value, parent)
  {
    var r := DFSFindObject(parent, name);
    if r.Some? {
      DescendantsAreProperDescendants(parent, r.value);
    } else {
      forall d | IsProperDescendant(d, parent) ensures d.name != name {
        DescendantsAreProperDescendants(parent, d);
      }
    }
  }

  // ---------------------------------------------------------------
  // Soft-failing callers
  // ---------------------------------------------------------------

  /** Searches below the screen's own node `self`; on a miss it logs and
      gives back nothing instead of failing. */
  function FindGameObject(self: Node, name: string): (r: Lookup<Node>)
    ensures r.value.None? <==> forall d :: d in Descendants(self) ==> d.name != name
    ensures r.value.Some? ==> r.value.value.name == name && r.value.value in Descendants(self)
    ensures r.value == FirstNamed(Descendants(self), name)
    ensures r.log.Some? <==> r.value.None?
    ensures r.log.Some? ==> r.log.value == "Find GemeObject Error: " + name
  {
    match DFSFindObject(self, name)
    case None => Lookup(None, Some("Find GemeObject Error: " + name))
    case Some(obj) => Lookup(Some(obj), None)
  }

  /** Like `FindGameObject`, then fetches a component of the found node
      through `getComponent` (which may itself find none, without a log). */
  function FindControl<C>(self: Node, name: string, getComponent: Node -> Option<C>): (r: Lookup<C>)
    ensures r.log.Some? <==> forall d :: d in Descendants(self) ==> d.name != name
    ensures r.log.Some? ==> r.value.None? && r.log.value == "Find UI Control Error: " + name
    ensures r.log.None? ==> exists d :: d in Descendants(self) && d.name == name &&
                                        r.value == getComponent(d)
    ensures r.log.None? ==> r.value == getComponent(FirstNamed(Descendants(self), name).value)
  {
    match DFSFindObject(self, name)
    case None => Lookup(None, Some("Find UI Control Error: " + name))
    case Some(obj) => Lookup(getComponent(obj), None)
  }

  // ---------------------------------------------------------------
  // Lookup by path
  // ---------------------------------------------------------------

  /** The requested kind of control: the node itself or a component type. */
  datatype ControlType<K> = GameObjectType | ComponentType(kind: K)

  datatype Control<C> = GameObject(node: Node) | Component(component: C)

  /** Resolves `uri` with the engine's path lookup `find` from `findTrans`
      (the screen's own node `self` when absent, the default), then hands
      back the node itself or the requested component; a miss is logged
      unless `isLog` is turned off. */
  function GetControl<K, C>(self: Node,
                            find: (Node, string) -> Option<Node>,
                            getComponent: (Node, K) -> Option<C>,
                            controlType: ControlType<K>, uri: string,
                            findTrans: Option<Node> := None, isLog: bool := true): (r: Lookup<Control<C>>)
    ensures find(findTrans.GetOr(self), uri).None? ==>
              r.value.None? && (r.log.Some? <==> isLog) &&
              (isLog ==> r.log.value == "Get UI Control Error: " + uri)
    ensures find(findTrans.GetOr(self), uri).Some? ==> r.log.None?
    ensures r.value.Some? && r.value.value.GameObject? ==>
              controlType.GameObjectType? && find(findTrans.GetOr(self), uri) == Some(r.value.value.node)
    ensures controlType.GameObjectType? && find(findTrans.GetOr(self), uri).Some? ==>
              r.value == Some(GameObject(find(findTrans.GetOr(self), uri).value))
    ensures controlType.ComponentType? && find(findTrans.GetOr(self), uri).Some? ==>
              match getComponent(find(findTrans.GetOr(self), uri).value, controlType.kind)
              case None => r.value.None?
              case Some(c) => r.value == Some(Component(c))
  {
    var start := findTrans.GetOr(self);
    match find(start, uri)
    case None => Lookup(None, if isLog then Some("Get UI Control Error: " + uri) else None)
    case Some(trans) =>
      if controlType.GameObjectType? then Lookup(Some(GameObject(trans)), None)
      else
        match getComponent(trans, controlType.kind)
        case None => Lookup(None, None)
        case Some(c) => Lookup(Some(Component(c)), None)
  }

  /** `isLog` only decides whether a miss is logged, never what is found. */
  lemma GetControlLogFlagOnlyLogs<K, C>(self: Node, controlType: ControlType<K>, uri: string,
                                        findTrans: Option<Node>,
                                        find: (Node, string) -> Option<Node>,
                                        getComponent: (Node, K) -> Option<C>)
    ensures GetControl(self, find, getComponent, controlType, uri, findTrans, true).value ==
            GetControl(self, find, getComponent, controlType, uri, findTrans, false).value
    ensures GetControl(self, find, getComponent, controlType, uri, findTrans, false).log.None?
  {
  }
}
