/**
 * The widget-pool resize behind `ResizeUIGridGameObjects` and its
 * siblings: a container's ordered children are a pool of widgets; the
 * first `resizeCount` are switched on, clones of a template are appended
 * when the pool is too short, and the surplus is switched off, never
 * destroyed, so that a later grow reuses it.
 */
module WidgetPool {

  function Max(a: int, b: int): int { if a < b then b else a }

  /** A pooled widget: its own active flag, and whether its local
      transform is the identity (position zero, rotation identity,
      scale one). */
  class WidgetNode {
    var active: bool
    var transformIsIdentity: bool

    /** A clone of `template`, as the engine's `Instantiate` makes it:
        it copies the template's state, including its active flag. */
    constructor Instantiate(template: WidgetNode)
      ensures active == template.active
      ensures transformIsIdentity == template.transformIsIdentity
    {
      active := template.active;
      transformIsIdentity := template.transformIsIdentity;
    }

    method SetActive(value: bool)
      modifies this
      ensures active == value
      ensures transformIsIdentity == old(transformIsIdentity)
    {
      active := value;
    }
  }

  /** Puts a node's local position, rotation and scale back to the identity. */
  method ResetLocalTransform(t: WidgetNode)
    modifies t
    ensures t.transformIsIdentity
    ensures t.active == old(t.active)
  {
    t.transformIsIdentity := true;
  }

  /** A scene node seen as a widget container: its children in sibling order. */
  class Container {
    var children: seq<WidgetNode>

    /** A node has at most one parent, so no widget sits in two slots. */
    ghost predicate Valid()
      reads this
    {
      forall i, j :: 0 <= i < j < |children| ==> children[i] != children[j]
    }

    /** The active flag of every slot, in slot order. */
    ghost function Flags(): (f: seq<bool>)
      reads this, children
      ensures |f| == |children|
      ensures forall i :: 0 <= i < |f| ==> f[i] == children[i].active
    {
      seq(|children|, i reads this, children requires 0 <= i < |children| => children[i].active)
    }

    /** Re-parenting a node under this container makes it the last child. */
    method AppendChild(w: WidgetNode)
      requires Valid() && w !in children
      modifies this
      ensures Valid()
      ensures children == old(children) + [w]
    {
      children := children + [w];
    }
  }

  /** The active flags a resize to `k` leaves behind, given the flags before:
      the pool grows to `k` slots if shorter, and exactly the first `k`
      slots are active. */
  function ResizedFlags(flags: seq<bool>, k: nat): seq<bool>
  {
    seq(Max(|flags|, k), i => i < k)
  }

  /** Makes slots `0 .. resizeCount-1` of `transf` active, cloning
      `templateForNew` (with its transform reset) onto the end for every
      slot the container does not have yet, and makes every later slot
      inactive. No child is removed or moved. The template may be null
      when no clone is needed. */
  method ResizeUIWidgetContainerGameObjects(transf: Container, resizeCount: nat, templateForNew: WidgetNode?)
    requires transf.Valid()
    requires templateForNew != null || resizeCount <= |transf.children|
    modifies transf, transf.children
    ensures transf.Valid()
    ensures |transf.children| == Max(|old(transf.children)|, resizeCount)
    ensures transf.children[..|old(transf.children)|] == old(transf.children)
    ensures forall i :: |old(transf.children)| <= i < |transf.children| ==>
              fresh(transf.children[i]) && transf.children[i].transformIsIdentity
    ensures forall i :: 0 <= i < |old(transf.children)| ==>
              transf.children[i].transformIsIdentity == old(transf.children[i].transformIsIdentity)
    ensures forall i :: 0 <= i < |transf.children| ==> transf.children[i].active == (i < resizeCount)
    ensures transf.Flags() == ResizedFlags(old(transf.Flags()), resizeCount)
  {
    ghost var oldChildren := transf.children;
    ghost var n0 := |oldChildren|;

    for i := 0 to resizeCount
      invariant transf.Valid()
      invariant |transf.children| == Max(n0, i)
      invariant transf.children[..n0] == oldChildren
      invariant forall j :: n0 <= j < |transf.children| ==>
                  fresh(transf.children[j]) && transf.children[j].transformIsIdentity
      invariant forall j :: 0 <= j < n0 ==>
                  transf.children[j].transformIsIdentity == old(transf.children[j].transformIsIdentity)
      invariant forall j :: 0 <= j < i ==> transf.children[j].active
      invariant forall j :: i <= j < |transf.children| ==>
                  transf.children[j].active == old(transf.children[j].active)
    {
      if i >= |transf.children| {
        var newTemplate := new WidgetNode.Instantiate(templateForNew);
        transf.AppendChild(newTemplate);
        ResetLocalTransform(newTemplate);
      }
      var child := transf.children[i];
      if !child.active {
        child.SetActive(true);
      }
    }

    for i := resizeCount to |transf.children|
      invariant transf.Valid()
      invariant |transf.children| == Max(n0, resizeCount)
      invariant transf.children[..n0] == oldChildren
      invariant forall j :: n0 <= j < |transf.children| ==>
                  fresh(transf.children[j]) && transf.children[j].transformIsIdentity
      invariant forall j :: 0 <= j < n0 ==>
                  transf.children[j].transformIsIdentity == old(transf.children[j].transformIsIdentity)
      invariant forall j :: 0 <= j < resizeCount ==> transf.children[j].active
      invariant forall j :: resizeCount <= j < i ==> !transf.children[j].active
    {
      var child := transf.children[i];
      if child.active {
        child.SetActive(false);
      }
    }
  }

  // ---------------------------------------------------------------
  // What a resize, and a series of resizes, does to the pool
  // ---------------------------------------------------------------

  /** Resizing twice to the same count changes nothing the second time:
      the pool is already long enough, so no clone is made, and every
      flag stays as it is. */
  lemma ResizeIdempotent(flags: seq<bool>, k: nat)
    ensures |ResizedFlags(flags, k)| >= k
    ensures ResizedFlags(ResizedFlags(flags, k), k) == ResizedFlags(flags, k)
  {
  }

  /** A resize to zero switches every widget off and creates none. */
  lemma ResizeToZero(flags: seq<bool>)
    ensures |ResizedFlags(flags, 0)| == |flags|
    ensures forall i :: 0 <= i < |flags| ==> !ResizedFlags(flags, 0)[i]
  {
  }

  /** The flags after resizing by each count of `counts` in turn. */
  function ApplyResizes(flags: seq<bool>, counts: seq<nat>): seq<bool>
    decreases |counts|
  {
    if counts == [] then flags else ApplyResizes(ResizedFlags(flags, counts[0]), counts[1..])
  }

  /** The largest of `n` and every count in `counts`. */
  function HighWater(n: nat, counts: seq<nat>): (m: nat)
    ensures m >= n && forall i :: 0 <= i < |counts| ==> m >= counts[i]
    ensures m == n || exists i :: 0 <= i < |counts| && m == counts[i]
    decreases |counts|
  {
    if counts == [] then n
    else
      var m := HighWater(Max(n, counts[0]), counts[1..]);
      assert forall i :: 1 <= i < |counts| ==> counts[i] == counts[1..][i - 1];
      m
  }

  /** Over any series of resizes the pool only grows to the largest count
      ever asked for (shrinking deactivates, and a later grow reuses the
      deactivated widgets), and only the last count decides which slots
      are active. */
  lemma {:induction false} ResizeHistory(flags: seq<bool>, counts: seq<nat>)
    requires counts != []
    ensures |ApplyResizes(flags, counts)| == HighWater(|flags|, counts)
    ensures forall i :: 0 <= i < |ApplyResizes(flags, counts)| ==>
              ApplyResizes(flags, counts)[i] == (i < counts[|counts| - 1])
    decreases |counts|
  {
    var next := ResizedFlags(flags, counts[0]);
    if |counts| > 1 {
      ResizeHistory(next, counts[1..]);
    }
  }

  /** Resizing an empty pool to 5, then 2, then 4 leaves five widgets, so
      the third call clones nothing; the first four are active. */
  lemma ShrinkThenRegrowReuses()
    ensures ApplyResizes([], [5, 2, 4]) == [true, true, true, true, false]
  {
    ResizeHistory([], [5, 2, 4]);
  }
}
