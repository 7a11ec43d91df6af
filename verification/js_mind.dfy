/**
 * The tree-level part of the JsMind facade (src/jsMind.ts): the neighbour
 * scans findNodeBefore / findNodeAfter, and what selectNode, updateNode
 * and removeNode do to the mind. The view and layout refreshes those
 * mutators trigger, and their events, are not part of this model.
 */
module JsMindApi {
  import opened Wrappers
  import opened MindNodes
  import opened MindTree
  import opened Adding
  import opened Moving
  import opened Removing
  import opened MindStore
  import opened Layout
  import opened Config

  /** The side of each registered node, as its `direction` field holds it. */
  function Sides(nodes: Nodes): (m: map<Id, Direction>)
    ensures forall k | Live(nodes, k) :: k in m && m[k] == Get(nodes, k).direction
  {
    map k | k in nodes && nodes[k].Some? :: nodes[k].value.direction
  }

  /** The side of `k`; an id without one reads as Center. */
  function Side<T>(sides: map<T, Direction>, k: T): Direction {
    if k in sides then sides[k] else Center
  }

  /** The last element of `s` on side `d`, if any. */
  function LastOnSide<T>(sides: map<T, Direction>, s: seq<T>, d: Direction): (r: Option<T>)
    ensures r.Some? ==> r.value in s && Side(sides, r.value) == d
  {
    if s == [] then None
    else if Side(sides, s[|s| - 1]) == d then Some(s[|s| - 1])
    else LastOnSide(sides, s[..|s| - 1], d)
  }

  /** The first element of `s` on side `d`, if any. */
  function FirstOnSide<T>(sides: map<T, Direction>, s: seq<T>, d: Direction): (r: Option<T>)
    ensures r.Some? ==> r.value in s && Side(sides, r.value) == d
  {
    if s == [] then None
    else if Side(sides, s[0]) == d then Some(s[0])
    else FirstOnSide(sides, s[1..], d)
  }

  /** LastOnSide finds nothing exactly when no element of `s` is on side `d`. */
  lemma {:induction false} LastOnSideNone<T>(sides: map<T, Direction>, s: seq<T>, d: Direction)
    ensures LastOnSide(sides, s, d).None? <==> forall j | 0 <= j < |s| :: Side(sides, s[j]) != d
  {
    if s != [] && Side(sides, s[|s| - 1]) != d {
      LastOnSideNone(sides, s[..|s| - 1], d);
    }
  }

  /** The element at `j` is the last on side `d` when none after it is. */
  lemma {:induction false} LastOnSideAt<T>(sides: map<T, Direction>, s: seq<T>, j: nat, d: Direction)
    requires j < |s| && Side(sides, s[j]) == d
    requires forall t | j < t < |s| :: Side(sides, s[t]) != d
    ensures LastOnSide(sides, s, d) == Some(s[j])
  {
    if j < |s| - 1 {
      LastOnSideAt(sides, s[..|s| - 1], j, d);
    }
  }

  /** FirstOnSide finds nothing exactly when no element of `s` is on side `d`. */
  lemma {:induction false} FirstOnSideNone<T>(sides: map<T, Direction>, s: seq<T>, d: Direction)
    ensures FirstOnSide(sides, s, d).None? <==> forall j | 0 <= j < |s| :: Side(sides, s[j]) != d
  {
    if s != [] && Side(sides, s[0]) != d {
      FirstOnSideNone(sides, s[1..], d);
    }
  }

  /** The element at `j` is the first on side `d` when none before it is. */
  lemma {:induction false} FirstOnSideAt<T>(sides: map<T, Direction>, s: seq<T>, j: nat, d: Direction)
    requires j < |s| && Side(sides, s[j]) == d
    requires forall t | 0 <= t < j :: Side(sides, s[t]) != d
    ensures FirstOnSide(sides, s, d) == Some(s[j])
  {
    if j > 0 {
      assert Side(sides, s[0]) != d;
      FirstOnSideAt(sides, s[1..], j - 1, d);
    }
  }

  /** In a sequence without repeats, what holds at one position of `id` holds at every one. */
  lemma AtEveryPosition<T>(s: seq<T>, id: T, at: nat, r: Option<T>, d: Direction, sides: map<T, Direction>)
    requires forall i, j | 0 <= i < j < |s| :: s[i] != s[j]
    requires at < |s| && s[at] == id && r == FirstOnSide(sides, s[at + 1..], d)
    ensures forall k | 0 <= k < |s| && s[k] == id :: r == FirstOnSide(sides, s[k + 1..], d)
  {
  }

  /** A new topic changes no link and no direction. */
  lemma RetitledValid(nodes: Nodes, root: Id, rank: map<Id, nat>, bound: nat, id: Id, topic: string)
    requires Linked(nodes, root, rank, bound) && DirectionsFlow(nodes, root) && Live(nodes, id)
    ensures var m := nodes[id := Some(Get(nodes, id).(topic := topic))];
      Linked(m, root, rank, bound) && DirectionsFlow(m, root)
  {
    var m := nodes[id := Some(Get(nodes, id).(topic := topic))];
    assert SameShape(nodes, m);
    ShapeLinked(nodes, m, root, rank, bound);
    ShapeFlows(nodes, m, root);
  }

  /**
   * findNodeBefore's scan of the root's children: every same-side child
   * becomes `prev`, and reaching `id` takes the `prev` of that moment.
   */
  method ScanBefore<T(==)>(sides: map<T, Direction>, children: seq<T>, id: T, d: Direction) returns (r: Option<T>)
    requires (forall i, j | 0 <= i < j < |children| :: children[i] != children[j]) && Side(sides, id) == d
    ensures forall k | 0 <= k < |children| && children[k] == id :: r == LastOnSide(sides, children[..k], d)
    ensures id !in children ==> r.None?
  {
    var prev: Option<T> := None;
    r := None;
    for i := 0 to |children|
      invariant prev == LastOnSide(sides, children[..i], d)
      invariant forall k | 0 <= k < i && children[k] == id :: r == LastOnSide(sides, children[..k], d)
      invariant (forall k | 0 <= k < i :: children[k] != id) ==> r.None?
    {
      assert children[..i + 1][..i] == children[..i];
      if Side(sides, children[i]) == d {
        if children[i] == id {
          r := prev;
        }
        prev := Some(children[i]);
      }
    }
  }

  /**
   * findNodeAfter's scan of the root's children: after `id` has been seen,
   * the next same-side child is the answer and the loop breaks.
   */
  method ScanAfter<T(==)>(sides: map<T, Direction>, children: seq<T>, id: T, d: Direction) returns (r: Option<T>)
    requires (forall i, j | 0 <= i < j < |children| :: children[i] != children[j]) && Side(sides, id) == d
    ensures forall k | 0 <= k < |children| && children[k] == id :: r == FirstOnSide(sides, children[k + 1..], d)
    ensures id !in children ==> r.None?
  {
    var getThis := false;
    ghost var at := 0;
    r := None;
    var i := 0;
    while i < |children|
      invariant 0 <= i <= |children|
      invariant r.None?
      invariant !getThis ==> forall k | 0 <= k < i :: children[k] != id
      invariant getThis ==> at < i && children[at] == id && forall t | at < t < i :: Side(sides, children[t]) != d
    {
      if Side(sides, children[i]) == d {
        if getThis {
          r := Some(children[i]);
          FirstOnSideAt(sides, children[at + 1..], i - at - 1, d);
          AtEveryPosition(children, id, at, r, d, sides);
          return;
        }
        if children[i] == id {
          getThis := true;
          at := i;
        }
      }
      i := i + 1;
    }
    if getThis {
      FirstOnSideNone(sides, children[at + 1..], d);
      AtEveryPosition(children, id, at, r, d, sides);
    }
  }

  /** The facade over one mind and its layout; `editable` is the editable option. */
  class JsMind {
    const mind: Mind
    const layout: LayoutProvider
    const editable: bool

    constructor(mind: Mind, layout: LayoutProvider, editable: bool)
      requires layout.mind == mind
      ensures this.mind == mind && this.layout == layout && this.editable == editable
    {
      this.mind, this.layout, this.editable := mind, layout, editable;
    }

    /**
     * findNodeBefore: nothing for an unknown id or the root; for a root child
     * the nearest earlier sibling on the same side; deeper down the registry's
     * getNodeBefore.
     */
    method FindNodeBefore(id: Id) returns (r: Option<Id>)
      requires mind.Valid()
      ensures !Live(mind.nodes, id) || Get(mind.nodes, id).isRoot ==> r.None?
      ensures HasLiveParent(mind.nodes, id) && !Get(mind.nodes, id).isRoot ==>
        var n := Get(mind.nodes, id);
        var p := Get(mind.nodes, n.parent.value);
        if p.isRoot then
          forall k | 0 <= k < |p.children| && p.children[k] == id :: r == LastOnSide(Sides(mind.nodes), p.children[..k], n.direction)
        else r == (match mind.GetNodeBefore(id) case None => None case Some(b) => Some(b.id))
    {
      var node := mind.GetNode(id);
      if node.None? || node.value.isRoot {
        return None;
      }
      var nodes := mind.nodes;
      assert LinkedAt(nodes, mind.root.value, mind.rank, mind.bound, id);
      var pid := node.value.parent.value;
      var p := nodes[pid].value;
      if !p.isRoot {
        var b := mind.GetNodeBefore(id);
        return if b.Some? then Some(b.value.id) else None;
      }
      assert LinkedAt(nodes, mind.root.value, mind.rank, mind.bound, pid);
      r := ScanBefore(Sides(nodes), p.children, id, node.value.direction);
    }

    /**
     * findNodeAfter: nothing for an unknown id or the root; for a root child
     * the first later sibling on the same side; deeper down the registry's
     * getNodeAfter.
     */
    method FindNodeAfter(id: Id) returns (r: Option<Id>)
      requires mind.Valid()
      ensures !Live(mind.nodes, id) || Get(mind.nodes, id).isRoot ==> r.None?
      ensures HasLiveParent(mind.nodes, id) && !Get(mind.nodes, id).isRoot ==>
        var n := Get(mind.nodes, id);
        var p := Get(mind.nodes, n.parent.value);
        if p.isRoot then
          forall k | 0 <= k < |p.children| && p.children[k] == id :: r == FirstOnSide(Sides(mind.nodes), p.children[k + 1..], n.direction)
        else r == (match mind.GetNodeAfter(id) case None => None case Some(b) => Some(b.id))
    {
      var node := mind.GetNode(id);
      if node.None? || node.value.isRoot {
        return None;
      }
      var nodes := mind.nodes;
      assert LinkedAt(nodes, mind.root.value, mind.rank, mind.bound, id);
      var pid := node.value.parent.value;
      var p := nodes[pid].value;
      if !p.isRoot {
        var b := mind.GetNodeAfter(id);
        return if b.Some? then Some(b.value.id) else None;
      }
      assert LinkedAt(nodes, mind.root.value, mind.rank, mind.bound, pid);
      r := ScanAfter(Sides(nodes), p.children, id, node.value.direction);
    }

    /**
     * selectNode: an unknown id, or a node the layout does not show, leaves
     * the selection alone; otherwise the node becomes the selection.
     */
    method SelectNode(id: Id)
      requires mind.Valid()
      modifies mind`selected
      ensures mind.Valid()
      ensures Live(mind.nodes, id) && layout.IsVisible(id) ==> mind.selected == Some(id)
      ensures !Live(mind.nodes, id) || !layout.IsVisible(id) ==> mind.selected == old(mind.selected)
    {
      var node := mind.GetNode(id);
      if node.None? {
        return;
      }
      if !layout.IsVisible(id) {
        return;
      }
      mind.selected := Some(id);
    }

    /**
     * updateNode: when the mind is editable, the topic is not empty, the id
     * is known and the topic differs, the node takes the new topic; in every
     * other case nothing changes.
     */
    method UpdateNode(id: Id, topic: string)
      requires mind.Valid()
      modifies mind`nodes
      ensures mind.Valid()
      ensures !editable || IsEmpty(Some(topic)) || !Live(old(mind.nodes), id) || Get(old(mind.nodes), id).topic == topic
        ==> mind.nodes == old(mind.nodes)
      ensures editable && !IsEmpty(Some(topic)) && Live(old(mind.nodes), id) && Get(old(mind.nodes), id).topic != topic
        ==> mind.nodes == old(mind.nodes)[id := Some(Get(old(mind.nodes), id).(topic := topic))]
    {
      if !editable {
        return;
      }
      if IsEmpty(Some(topic)) {
        return;
      }
      var node := mind.GetNode(id);
      if node.None? {
        return;
      }
      if node.value.topic == topic {
        return;
      }
      var nodes := mind.nodes;
      RetitledValid(nodes, mind.root.value, mind.rank, mind.bound, id, topic);
      mind.nodes := nodes[id := Some(node.value.(topic := topic))];
    }

    /**
     * removeNode: false for an unknown id, a mind that is not editable, or
     * the root; otherwise the registry's removeNode prunes the subtree and
     * the answer is true.
     */
    method RemoveNode(id: Id) returns (ok: bool)
      requires mind.Valid()
      modifies mind`nodes, mind`selected
      ensures mind.Valid()
      ensures ok <==> editable && old(Live(mind.nodes, id)) && !old(Get(mind.nodes, id)).isRoot
      ensures !ok ==> mind.nodes == old(mind.nodes) && mind.selected == old(mind.selected)
      ensures ok ==>
        && HasLiveParent(old(mind.nodes), id)
        && mind.nodes == Pruned(old(mind.nodes), old(mind.rank), id)
        && mind.selected == (if old(mind.selected).Some? && old(mind.selected).value in Subtree(old(mind.nodes), old(mind.rank), id)
                             then None else old(mind.selected))
    {
      var node := mind.GetNode(id);
      if node.None? {
        return false;
      }
      if !editable {
        return false;
      }
      if node.value.isRoot {
        return false;
      }
      assert LinkedAt(mind.nodes, mind.root.value, mind.rank, mind.bound, id);
      ok := mind.RemoveNode(id);
      assert ok;
    }
  }
}
