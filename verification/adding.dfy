/**
 * What Mind.addNode does to the registry, as functions of the registry before
 * the call: the side chosen for the new node, the node it creates, and the
 * re-sorted children of its parent. The lemmas state what the method promises
 * about that effect.
 */
module Adding {
  import opened Wrappers
  import opened MindNodes
  import opened MindTree

  /** The direction the balance loop reads for a child id. */
  function DirectionIn(nodes: Nodes, k: Id): Direction {
    if Live(nodes, k) then Get(nodes, k).direction else Center
  }

  /** The counter of addNode's balance loop after `s`: -1 per left child, +1 per any other. */
  function SideBalance(nodes: Nodes, s: seq<Id>): int {
    if s == [] then 0
    else SideBalance(nodes, s[..|s| - 1]) + (if DirectionIn(nodes, s[|s| - 1]) == Left then -1 else 1)
  }

  /** How many ids of `s` have direction `d`. */
  function CountDir(nodes: Nodes, s: seq<Id>, d: Direction): nat {
    if s == [] then 0
    else CountDir(nodes, s[..|s| - 1], d) + (if DirectionIn(nodes, s[|s| - 1]) == d then 1 else 0)
  }

  /**
   * The side of a new child. Under the root, an `eDirection` that is undefined
   * (None) balances the sides; any other value takes the explicit branch,
   * which tests the local default and so always yields right. Under any other
   * parent the child inherits the parent's direction.
   */
  function NewDirection(nodes: Nodes, pid: Id, eDirection: Option<int>): Direction
    requires Live(nodes, pid)
  {
    var p := Get(nodes, pid);
    if p.isRoot then
      if eDirection.None? then
        if |p.children| > 1 && SideBalance(nodes, p.children) > 0 then Left else Right
      else Right
    else p.direction
  }

  /** putNode's write. */
  function Put(nodes: Nodes, n: Node): Nodes {
    nodes[n.id := Some(n)]
  }

  /** `parent.children.push(id)`. */
  function Pushed(nodes: Nodes, pid: Id, id: Id): Nodes
    requires Live(nodes, pid)
  {
    nodes[pid := Some(Get(nodes, pid).(children := Get(nodes, pid).children + [id]))]
  }

  /** resetIndex: the parent's children sorted with MindNode.compare. */
  function Resorted(nodes: Nodes, pid: Id): Nodes
    requires Live(nodes, pid)
  {
    nodes[pid := Some(Get(nodes, pid).(children := SortByCompare(nodes, Get(nodes, pid).children)))]
  }

  /** The node addNode creates. */
  function Fresh(nodes: Nodes, pid: Id, id: Id, index: Index, topic: string, data: Option<Value>,
                 eDirection: Option<int>, expanded: bool): Node
    requires Live(nodes, pid)
  {
    NewNode(id, index, topic, data, false, Some(pid), NewDirection(nodes, pid, eDirection), expanded)
  }

  /** The registry after a successful addNode. */
  function Added(nodes: Nodes, pid: Id, id: Id, index: Index, topic: string, data: Option<Value>,
                 eDirection: Option<int>, expanded: bool): Nodes
    requires Live(nodes, pid) && id !in nodes
  {
    var n := Fresh(nodes, pid, id, index, topic, data, eDirection, expanded);
    Resorted(Pushed(Put(nodes, n), pid, id), pid)
  }

  /** The loop counter is the number of right children minus the number of left ones. */
  lemma {:induction false} BalanceCounts(nodes: Nodes, s: seq<Id>)
    requires forall j | 0 <= j < |s| :: DirectionIn(nodes, s[j]) != Center
    ensures SideBalance(nodes, s) == CountDir(nodes, s, Right) - CountDir(nodes, s, Left)
  {
    if s != [] {
      BalanceCounts(nodes, s[..|s| - 1]);
    }
  }

  /**
   * Under the root with no explicit direction, the new child goes left exactly
   * when the root already has two or more children and right children
   * outnumber left ones; with an explicit direction it always goes right.
   */
  lemma RootChildDirection(nodes: Nodes, root: Id, rank: map<Id, nat>, bound: nat, eDirection: Option<int>)
    requires Linked(nodes, root, rank, bound) && DirectionsFlow(nodes, root)
    ensures var cs := Get(nodes, root).children;
      NewDirection(nodes, root, eDirection) == Left <==>
        eDirection.None? && |cs| > 1 && CountDir(nodes, cs, Right) > CountDir(nodes, cs, Left)
  {
    assert LinkedAt(nodes, root, rank, bound, root);
    var cs := Get(nodes, root).children;
    forall j | 0 <= j < |cs| ensures DirectionIn(nodes, cs[j]) != Center {
      assert LinkedAt(nodes, root, rank, bound, cs[j]);
      assert FlowsAt(nodes, root, cs[j]);
    }
    BalanceCounts(nodes, cs);
  }

  /** Grafting a fresh leaf under a live parent keeps the registry linked and directions flowing. */
  lemma GraftLinked(nodes: Nodes, root: Id, rank: map<Id, nat>, bound: nat, pid: Id, n: Node)
    requires Linked(nodes, root, rank, bound) && DirectionsFlow(nodes, root)
    requires Live(nodes, pid) && LinkedAt(nodes, root, rank, bound, pid) && n.id !in nodes
    requires n.parent == Some(pid) && !n.isRoot && n.children == [] && n.direction != Center
    requires pid != root ==> n.direction == Get(nodes, pid).direction
    ensures var g := Pushed(Put(nodes, n), pid, n.id);
      && Linked(g, root, rank[n.id := rank[pid] + 1], if bound < rank[pid] + 1 then rank[pid] + 1 else bound)
      && DirectionsFlow(g, root)
  {
    var id := n.id;
    var g := Pushed(Put(nodes, n), pid, id);
    var r := rank[id := rank[pid] + 1];
    var b := if bound < rank[pid] + 1 then rank[pid] + 1 else bound;
    assert LinkedAt(nodes, root, rank, bound, pid);
    forall k | Live(g, k) ensures LinkedAt(g, root, r, b, k) {
      if k == id {
        GraftAtLeaf(nodes, root, rank, bound, pid, n);
      } else if k == pid {
        GraftAtParent(nodes, root, rank, bound, pid, n);
      } else {
        assert LinkedAt(nodes, root, rank, bound, k);
        GraftAtOther(nodes, root, rank, bound, pid, n, k);
      }
    }
    forall k | Live(g, k) && k != root ensures FlowsAt(g, root, k) {
      if k != id {
        assert FlowsAt(nodes, root, k);
      }
    }
  }

  lemma GraftAtLeaf(nodes: Nodes, root: Id, rank: map<Id, nat>, bound: nat, pid: Id, n: Node)
    requires Live(nodes, root) && Live(nodes, pid) && n.id !in nodes && LinkedAt(nodes, root, rank, bound, pid)
    requires n.parent == Some(pid) && !n.isRoot && n.children == []
    ensures var g := Pushed(Put(nodes, n), pid, n.id);
      LinkedAt(g, root, rank[n.id := rank[pid] + 1], if bound < rank[pid] + 1 then rank[pid] + 1 else bound, n.id)
  {
  }

  lemma GraftAtParent(nodes: Nodes, root: Id, rank: map<Id, nat>, bound: nat, pid: Id, n: Node)
    requires Live(nodes, pid) && n.id !in nodes && n.parent == Some(pid)
    requires LinkedAt(nodes, root, rank, bound, pid)
    requires pid != root ==> LinkedAt(nodes, root, rank, bound, Get(nodes, pid).parent.value)
    ensures var g := Pushed(Put(nodes, n), pid, n.id);
      LinkedAt(g, root, rank[n.id := rank[pid] + 1], if bound < rank[pid] + 1 then rank[pid] + 1 else bound, pid)
  {
    var id := n.id;
    var cs := Get(nodes, pid).children;
    var t := cs + [id];
    forall i, j | 0 <= i < j < |t| ensures t[i] != t[j] {
      if j == |cs| {
        assert Live(nodes, cs[i]);
      } else {
        assert t[i] == cs[i] && t[j] == cs[j];
      }
    }
    forall i | 0 <= i < |t| ensures t[i] == id || (t[i] == cs[i] && Live(nodes, cs[i])) {
    }
  }

  lemma GraftAtOther(nodes: Nodes, root: Id, rank: map<Id, nat>, bound: nat, pid: Id, n: Node, k: Id)
    requires Live(nodes, pid) && pid in rank && n.id !in nodes && Live(nodes, k) && k != pid
    requires LinkedAt(nodes, root, rank, bound, k)
    ensures var g := Pushed(Put(nodes, n), pid, n.id);
      LinkedAt(g, root, rank[n.id := rank[pid] + 1], if bound < rank[pid] + 1 then rank[pid] + 1 else bound, k)
  {
    var g := Pushed(Put(nodes, n), pid, n.id);
    var cs := Get(nodes, k).children;
    forall i | 0 <= i < |cs| ensures Live(g, cs[i]) && Get(g, cs[i]).parent == Some(k) {
      assert Live(nodes, cs[i]);
    }
    if k != root {
      var q := Get(nodes, k).parent.value;
      assert k in Get(g, q).children;
    }
  }

  /** Sorting a parent's children keeps the shape of the registry and every direction. */
  lemma ResortedShape(nodes: Nodes, pid: Id)
    requires Live(nodes, pid)
    ensures SameShape(nodes, Resorted(nodes, pid))
    ensures forall k | Live(nodes, k) :: Get(Resorted(nodes, pid), k).direction == Get(nodes, k).direction
  {
  }

  /** Flow of directions only depends on the shape and the directions. */
  lemma ShapeFlows(n1: Nodes, n2: Nodes, root: Id)
    requires SameShape(n1, n2) && DirectionsFlow(n1, root)
    requires forall k | Live(n1, k) :: Get(n2, k).direction == Get(n1, k).direction
    ensures DirectionsFlow(n2, root)
  {
    forall k | Live(n2, k) && k != root ensures FlowsAt(n2, root, k) {
      assert FlowsAt(n1, root, k);
    }
  }

  /**
   * A successful addNode changes only the new id and its parent: the new node
   * carries the given fields and no children, and the parent keeps its other
   * fields while its children become the old ones plus the new id.
   */
  lemma AddedEffect(nodes: Nodes, pid: Id, id: Id, index: Index, topic: string, data: Option<Value>,
                    eDirection: Option<int>, expanded: bool)
    requires Live(nodes, pid) && id !in nodes
    ensures var a := Added(nodes, pid, id, index, topic, data, eDirection, expanded);
      && a.Keys == nodes.Keys + {id}
      && (forall k | k in nodes && k != pid :: a[k] == nodes[k])
      && Live(a, id) && Live(a, pid)
      && Get(a, id) == Fresh(nodes, pid, id, index, topic, data, eDirection, expanded)
      && Get(a, id).children == [] && Get(a, id).parent == Some(pid) && Get(a, id).index == index
      && Get(a, pid) == Get(nodes, pid).(children := Get(a, pid).children)
      && multiset(Get(a, pid).children) == multiset(Get(nodes, pid).children) + multiset{id}
  {
  }

  /** addNode registers the new node as built and keeps every live node live. */
  lemma AddedKeeps(nodes: Nodes, pid: Id, id: Id, index: Index, topic: string, data: Option<Value>,
                   eDirection: Option<int>, expanded: bool)
    requires Live(nodes, pid) && id !in nodes
    ensures var a := Added(nodes, pid, id, index, topic, data, eDirection, expanded);
      && Live(a, id) && Get(a, id) == Fresh(nodes, pid, id, index, topic, data, eDirection, expanded)
      && forall k | Live(nodes, k) :: Live(a, k)
  {
  }

  /** Re-sorting a parent leaves its children sorted whenever every index among them is regular. */
  lemma ResortedSorted(g: Nodes, pid: Id)
    requires Live(g, pid)
    ensures var a := Resorted(g, pid); var cs := Get(a, pid).children;
      (forall j | 0 <= j < |cs| :: Regular(IndexIn(a, cs[j]))) ==> Sorted(a, cs)
  {
    var a := Resorted(g, pid);
    var before := Get(g, pid).children;
    var cs := Get(a, pid).children;
    assert cs == SortByCompare(g, before);
    assert forall x :: IndexIn(a, x) == IndexIn(g, x);
    if forall j | 0 <= j < |cs| :: Regular(IndexIn(a, cs[j])) {
      forall j | 0 <= j < |before| ensures Regular(IndexIn(g, before[j])) {
        var i := PermutedAt(before, cs, j);
        assert Regular(IndexIn(a, cs[i]));
      }
      SortSorts(g, before);
    }
  }

  /** After addNode the parent's children are sorted by the comparator whenever every index among them is regular. */
  lemma AddedSorted(nodes: Nodes, pid: Id, id: Id, index: Index, topic: string, data: Option<Value>,
                    eDirection: Option<int>, expanded: bool)
    requires Live(nodes, pid) && id !in nodes
    ensures var a := Added(nodes, pid, id, index, topic, data, eDirection, expanded);
      var cs := Get(a, pid).children;
      (forall j | 0 <= j < |cs| :: Regular(IndexIn(a, cs[j]))) ==> Sorted(a, cs)
  {
    var n := Fresh(nodes, pid, id, index, topic, data, eDirection, expanded);
    ResortedSorted(Pushed(Put(nodes, n), pid, id), pid);
  }

  /** A child of a non-root parent has its parent's direction; an explicit direction under the root gives right. */
  lemma AddedDirection(nodes: Nodes, root: Id, rank: map<Id, nat>, bound: nat, pid: Id, id: Id, index: Index,
                       topic: string, data: Option<Value>, eDirection: Option<int>, expanded: bool)
    requires Linked(nodes, root, rank, bound) && DirectionsFlow(nodes, root)
    requires Live(nodes, pid) && id !in nodes
    ensures var d := Get(Added(nodes, pid, id, index, topic, data, eDirection, expanded), id).direction;
      && d != Center
      && (pid != root ==> d == Get(nodes, pid).direction)
      && (pid == root && eDirection.Some? ==> d == Right)
      && (pid == root ==> (d == Left <==>
            var cs := Get(nodes, root).children;
            eDirection.None? && |cs| > 1 && CountDir(nodes, cs, Right) > CountDir(nodes, cs, Left)))
  {
    assert LinkedAt(nodes, root, rank, bound, pid);
    if pid != root {
      assert FlowsAt(nodes, root, pid);
    } else {
      RootChildDirection(nodes, root, rank, bound, eDirection);
    }
  }

  /** addNode keeps the registry linked, with the new node ranked just below its parent. */
  lemma AddedLinked(nodes: Nodes, root: Id, rank: map<Id, nat>, bound: nat, pid: Id, id: Id, index: Index,
                    topic: string, data: Option<Value>, eDirection: Option<int>, expanded: bool,
                    k: nat, rank': map<Id, nat>, bound': nat)
    requires Linked(nodes, root, rank, bound) && DirectionsFlow(nodes, root)
    requires Live(nodes, pid) && LinkedAt(nodes, root, rank, bound, pid) && id !in nodes
    requires k == rank[pid] + 1 && rank' == rank[id := k] && bound' == (if bound < k then k else bound)
    ensures var a := Added(nodes, pid, id, index, topic, data, eDirection, expanded);
      Linked(a, root, rank', bound') && DirectionsFlow(a, root)
  {
    var n := Fresh(nodes, pid, id, index, topic, data, eDirection, expanded);
    AddedDirection(nodes, root, rank, bound, pid, id, index, topic, data, eDirection, expanded);
    GraftLinked(nodes, root, rank, bound, pid, n);
    var g := Pushed(Put(nodes, n), pid, id);
    ResortedShape(g, pid);
    ShapeLinked(g, Resorted(g, pid), root, rank', bound');
    ShapeFlows(g, Resorted(g, pid), root);
  }
}
