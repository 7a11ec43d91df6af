/**
 * What Mind.moveNode does to the registry, phase by phase as _moveNode runs
 * them: detach from the old parent and attach to the new one, point the node
 * to its new side, place it among its siblings (_moveNodeInternal), and flow
 * the direction through its subtree (_flowNodeDirection).
 */
module Moving {
  import opened Wrappers
  import opened MindNodes
  import opened MindTree
  import opened Adding

  /** A live node whose parent is live: the node moveNode can detach. */
  predicate HasLiveParent(nodes: Nodes, id: Id) {
    Live(nodes, id) && Get(nodes, id).parent.Some? && Live(nodes, Get(nodes, id).parent.value)
  }

  /** The parent's children with `id` spliced out. */
  function Unlinked(nodes: Nodes, pid: Id, id: Id): Nodes
    requires Live(nodes, pid)
  {
    nodes[pid := Some(Get(nodes, pid).(children := Without(Get(nodes, pid).children, id)))]
  }

  /** `b` has the ids of `a`, the same live ones, and the same direction, root flag and index on each. */
  ghost predicate Keeps(a: Nodes, b: Nodes) {
    && b.Keys == a.Keys
    && (forall k | k in a :: Live(b, k) <==> Live(a, k))
    && forall k | Live(a, k) ::
      && Get(b, k).direction == Get(a, k).direction
      && Get(b, k).isRoot == Get(a, k).isRoot && Get(b, k).index == Get(a, k).index
  }

  lemma KeepsPut(a: Nodes, k0: Id, n: Node)
    requires Live(a, k0)
    requires n.direction == Get(a, k0).direction && n.isRoot == Get(a, k0).isRoot && n.index == Get(a, k0).index
    ensures Keeps(a, a[k0 := Some(n)])
  {
  }

  lemma KeepsTrans(a: Nodes, b: Nodes, c: Nodes)
    requires Keeps(a, b) && Keeps(b, c)
    ensures Keeps(a, c)
  {
  }

  /**
   * _moveNode's first phase: when the target parent differs from the current
   * one, splice the node out of the old parent's children, point it at the new
   * parent and push it onto the new parent's children.
   */
  function Reparented(nodes: Nodes, id: Id, np: Id): (r: Nodes)
    requires HasLiveParent(nodes, id) && Live(nodes, np)
    ensures r.Keys == nodes.Keys
    ensures Live(r, id) && Get(r, id).parent == Some(np) && Live(r, np)
    ensures forall k | Live(nodes, k) ::
      && Live(r, k) && Get(r, k).direction == Get(nodes, k).direction
      && Get(r, k).isRoot == Get(nodes, k).isRoot && Get(r, k).index == Get(nodes, k).index
    ensures forall k | k in nodes :: Live(r, k) <==> Live(nodes, k)
  {
    var op := Get(nodes, id).parent.value;
    if op == np then nodes
    else
      var n1 := Unlinked(nodes, op, id);
      var n2 := n1[id := Some(Get(n1, id).(parent := Some(np)))];
      var r := Pushed(n2, np, id);
      KeepsPut(nodes, op, Get(n1, op));
      KeepsPut(n1, id, Get(n2, id));
      KeepsPut(n2, np, Get(r, np));
      KeepsTrans(nodes, n1, n2);
      KeepsTrans(nodes, n2, r);
      r
  }

  /** The direction _moveNode gives the node: left only under the root when -1 is asked for. */
  function MoveDirection(nodes: Nodes, np: Id, direction: Option<int>): Direction
    requires Live(nodes, np)
  {
    if Get(nodes, np).isRoot then (if direction == Some(-1) then Left else Right)
    else Get(nodes, np).direction
  }

  function Pointed(nodes: Nodes, id: Id, d: Direction): Nodes
    requires Live(nodes, id)
  {
    nodes[id := Some(Get(nodes, id).(direction := d))]
  }

  /**
   * The index _moveNodeInternal assigns, or None when it leaves index and
   * order alone: `_last_` gives -1, `_first_` gives 0, and a sibling under the
   * same parent gives that sibling's index - 0.5.
   */
  function PlaceIndex(nodes: Nodes, pid: Id, beforeId: Option<string>): Option<Index> {
    if beforeId == Some("_last_") then Some(Num(-1.0))
    else if beforeId == Some("_first_") then Some(Num(0.0))
    else if beforeId.Some? && beforeId.value != "" && Live(nodes, beforeId.value)
            && Get(nodes, beforeId.value).parent == Some(pid)
    then Some(Get(nodes, beforeId.value).index.Minus(0.5))
    else None
  }

  /** _moveNodeInternal: a new index re-sorts the parent's children; no new index changes nothing. */
  function Placed(nodes: Nodes, id: Id, beforeId: Option<string>): Nodes
    requires HasLiveParent(nodes, id)
  {
    var pid := Get(nodes, id).parent.value;
    match PlaceIndex(nodes, pid, beforeId)
    case None => nodes
    case Some(i) => Resorted(nodes[id := Some(Get(nodes, id).(index := i))], pid)
  }

  /** Every live node of `s` set to direction `d`. */
  ghost function Redirect(nodes: Nodes, s: set<Id>, d: Direction): Nodes {
    map k | k in nodes :: if k in s && nodes[k].Some? then Some(nodes[k].value.(direction := d)) else nodes[k]
  }

  /**
   * The nodes _flowNodeDirection has set once the walk over `k`'s children
   * (last to first) has finished `cs[i..]`: `k` itself and those subtrees.
   */
  ghost function Flowed(nodes: Nodes, rank: map<Id, nat>, k: Id, i: nat): set<Id>
    requires Live(nodes, k)
  {
    set x | x in nodes && (x == k || Below(nodes, rank, Get(nodes, k).children, i, x))
  }

  /** Redirect only looks at live nodes. */
  lemma RedirectSame(nodes: Nodes, a: set<Id>, b: set<Id>, d: Direction)
    requires forall x | Live(nodes, x) :: x in a <==> x in b
    ensures Redirect(nodes, a, d) == Redirect(nodes, b, d)
  {
  }

  lemma RedirectTwice(nodes: Nodes, a: set<Id>, b: set<Id>, d: Direction)
    ensures Redirect(Redirect(nodes, a, d), b, d) == Redirect(nodes, a + b, d)
  {
  }

  /** Before any child is walked only `k` itself carries `d`. */
  lemma FlowedStart(nodes: Nodes, rank: map<Id, nat>, k: Id, d: Direction)
    requires Live(nodes, k)
    ensures Redirect(nodes, Flowed(nodes, rank, k, |Get(nodes, k).children|), d) == Pointed(nodes, k, d)
  {
    var f := Flowed(nodes, rank, k, |Get(nodes, k).children|);
    assert forall x | x in nodes :: x in f <==> x == k;
  }

  /** The recursive call on `cs[i-1]` extends the walk by that child's subtree. */
  lemma FlowedStep(nodes: Nodes, root: Id, rank: map<Id, nat>, bound: nat, k: Id, i: nat, d: Direction)
    requires Linked(nodes, root, rank, bound) && Live(nodes, k) && 0 < i <= |Get(nodes, k).children|
    ensures var cs := Get(nodes, k).children; var x := Redirect(nodes, Flowed(nodes, rank, k, i), d);
      && Linked(x, root, rank, bound) && Live(x, cs[i - 1]) && Get(x, k).children == cs
      && cs[i - 1] in rank && k in rank && rank[k] < rank[cs[i - 1]] <= bound
      && Redirect(x, Subtree(x, rank, cs[i - 1]), d) == Redirect(nodes, Flowed(nodes, rank, k, i - 1), d)
  {
    var cs := Get(nodes, k).children;
    var f := Flowed(nodes, rank, k, i);
    var x := Redirect(nodes, f, d);
    assert LinkedAt(nodes, root, rank, bound, k);
    assert LinkedAt(nodes, root, rank, bound, cs[i - 1]);
    RedirectShape(nodes, f, d);
    ShapeLinked(nodes, x, root, rank, bound);
    ShapeSubtree(nodes, x, rank, cs[i - 1]);
    RedirectTwice(nodes, f, Subtree(nodes, rank, cs[i - 1]), d);
    forall y | Live(nodes, y)
      ensures y in f + Subtree(nodes, rank, cs[i - 1]) <==> y in Flowed(nodes, rank, k, i - 1)
    {
      BelowStep(nodes, rank, cs, i, y);
    }
    RedirectSame(nodes, f + Subtree(nodes, rank, cs[i - 1]), Flowed(nodes, rank, k, i - 1), d);
  }

  /** Before the recursive call on `cs[i-1]`: the registry so far is linked and the child is ranked below `k`. */
  lemma FlowedChild(nodes: Nodes, root: Id, rank: map<Id, nat>, bound: nat, k: Id, i: nat, d: Direction)
    requires Linked(nodes, root, rank, bound) && Live(nodes, k) && 0 < i <= |Get(nodes, k).children|
    ensures var cs := Get(nodes, k).children; var x := Redirect(nodes, Flowed(nodes, rank, k, i), d);
      && Linked(x, root, rank, bound) && Live(x, cs[i - 1])
      && cs[i - 1] in rank && k in rank && rank[k] < rank[cs[i - 1]] <= bound
  {
    FlowedStep(nodes, root, rank, bound, k, i, d);
  }

  /** After the recursive call on `cs[i-1]`: the walk has finished `cs[i-1..]`. */
  lemma FlowedJoin(nodes: Nodes, root: Id, rank: map<Id, nat>, bound: nat, k: Id, i: nat, d: Direction, x: Nodes, y: Nodes)
    requires Linked(nodes, root, rank, bound) && Live(nodes, k) && 0 < i <= |Get(nodes, k).children|
    requires x == Redirect(nodes, Flowed(nodes, rank, k, i), d)
    requires y == Redirect(x, Subtree(x, rank, Get(nodes, k).children[i - 1]), d)
    ensures y == Redirect(nodes, Flowed(nodes, rank, k, i - 1), d)
  {
    FlowedStep(nodes, root, rank, bound, k, i, d);
  }

  /** Once every child is walked, the whole subtree carries `d`. */
  lemma FlowedEnd(nodes: Nodes, root: Id, rank: map<Id, nat>, bound: nat, k: Id, d: Direction)
    requires Linked(nodes, root, rank, bound) && Live(nodes, k)
    ensures Redirect(nodes, Flowed(nodes, rank, k, 0), d) == Redirect(nodes, Subtree(nodes, rank, k), d)
  {
    forall y | Live(nodes, y)
      ensures y in Flowed(nodes, rank, k, 0) <==> y in Subtree(nodes, rank, k)
    {
      SubtreeSplit(nodes, root, rank, bound, k, y);
    }
    RedirectSame(nodes, Flowed(nodes, rank, k, 0), Subtree(nodes, rank, k), d);
  }

  /** The registry after moveNode, the phases composed. */
  ghost function Moved(nodes: Nodes, rank: map<Id, nat>, id: Id, np: Id, beforeId: Option<string>,
                       direction: Option<int>): Nodes
    requires HasLiveParent(nodes, id) && Live(nodes, np)
  {
    var d := MoveDirection(nodes, np, direction);
    var r := Reparented(nodes, id, np);
    Redirect(Placed(Pointed(r, id, d), id, beforeId), Subtree(nodes, rank, id), d)
  }

  /** The ranks after the move: the moved subtree sits just below its new parent. */
  ghost function Shifted(rank: map<Id, nat>, s: set<Id>, id: Id, np: Id): map<Id, nat>
    requires id in rank && np in rank
  {
    map x | x in rank :: if x in s && rank[id] <= rank[x] then rank[x] - rank[id] + rank[np] + 1 else rank[x]
  }

  ghost function MovedRank(nodes: Nodes, rank: map<Id, nat>, id: Id, np: Id): map<Id, nat>
    requires HasLiveParent(nodes, id) && id in rank && np in rank
  {
    if Get(nodes, id).parent.value == np then rank else Shifted(rank, Subtree(nodes, rank, id), id, np)
  }

  ghost function MovedBound(nodes: Nodes, rank: map<Id, nat>, bound: nat, id: Id, np: Id): nat
    requires HasLiveParent(nodes, id) && np in rank
  {
    if Get(nodes, id).parent.value == np then bound else bound + rank[np] + 1
  }

  /** What the source needs of a move: a non-root node and a live target outside its own subtree. */
  ghost predicate MoveSetting(nodes: Nodes, root: Id, rank: map<Id, nat>, bound: nat, id: Id, np: Id) {
    && Linked(nodes, root, rank, bound) && Live(nodes, id) && id != root
    && Live(nodes, np) && np !in Subtree(nodes, rank, id)
    && LinkedAt(nodes, root, rank, bound, id) && LinkedAt(nodes, root, rank, bound, np)
  }

  // ---------------------------------------------------------------------------
  // Facts about the moved subtree
  // ---------------------------------------------------------------------------

  lemma MovedNodeFacts(nodes: Nodes, root: Id, rank: map<Id, nat>, bound: nat, id: Id, np: Id)
    requires MoveSetting(nodes, root, rank, bound, id, np)
    ensures HasLiveParent(nodes, id)
    ensures var op := Get(nodes, id).parent.value;
      && op !in Subtree(nodes, rank, id) && op != id && np != id
      && id in Subtree(nodes, rank, id) && id in rank && np in rank && op in rank
  {
    assert LinkedAt(nodes, root, rank, bound, id);
    assert LinkedAt(nodes, root, rank, bound, np);
    var op := Get(nodes, id).parent.value;
    if Descends(nodes, rank, op, id) {
      DescendsRank(nodes, rank, op, id);
    }
  }

  /** Inside the subtree ranks do not fall below the subtree's top. */
  lemma InsideRank(nodes: Nodes, rank: map<Id, nat>, id: Id, x: Id)
    requires x in Subtree(nodes, rank, id) && id in rank
    ensures x in rank && rank[id] <= rank[x]
  {
    if x != id {
      DescendsRank(nodes, rank, x, id);
    } else {
      assert Live(nodes, x) && Descends(nodes, rank, x, id);
    }
  }

  /** The parent of a subtree node other than its top is in the subtree. */
  lemma InsideParent(nodes: Nodes, root: Id, rank: map<Id, nat>, bound: nat, id: Id, k: Id)
    requires Linked(nodes, root, rank, bound) && k in Subtree(nodes, rank, id) && k != id
    ensures k != root && Get(nodes, k).parent.value in Subtree(nodes, rank, id)
  {
    assert LinkedAt(nodes, root, rank, bound, k);
    if k == root {
      RootDescendsOnlyFromItself(nodes, root, rank, bound, id);
    }
  }

  /** The parent of a node outside the subtree is outside it. */
  lemma OutsideParent(nodes: Nodes, root: Id, rank: map<Id, nat>, bound: nat, id: Id, k: Id)
    requires Linked(nodes, root, rank, bound) && Live(nodes, k) && k != root && k !in Subtree(nodes, rank, id)
    requires LinkedAt(nodes, root, rank, bound, k)
    ensures Get(nodes, k).parent.value !in Subtree(nodes, rank, id)
  {
    assert LinkedAt(nodes, root, rank, bound, k);
    if Get(nodes, k).parent.value in Subtree(nodes, rank, id) {
      ChildDescends(nodes, root, rank, bound, k, id);
    }
  }

  /** The children of a subtree node are in the subtree. */
  lemma InsideChild(nodes: Nodes, root: Id, rank: map<Id, nat>, bound: nat, id: Id, k: Id, c: Id)
    requires Linked(nodes, root, rank, bound) && k in Subtree(nodes, rank, id)
    requires c in Get(nodes, k).children
    ensures c in Subtree(nodes, rank, id) && c != root
  {
    assert LinkedAt(nodes, root, rank, bound, k);
    var i :| 0 <= i < |Get(nodes, k).children| && Get(nodes, k).children[i] == c;
    assert Live(nodes, c) && Get(nodes, c).parent == Some(k);
    assert LinkedAt(nodes, root, rank, bound, c);
    ChildDescends(nodes, root, rank, bound, c, id);
  }

  // ---------------------------------------------------------------------------
  // Reparenting keeps the registry linked
  // ---------------------------------------------------------------------------

  lemma ReparentedEntries(nodes: Nodes, root: Id, rank: map<Id, nat>, bound: nat, id: Id, np: Id)
    requires MoveSetting(nodes, root, rank, bound, id, np)
    requires Get(nodes, id).parent.value != np
    ensures HasLiveParent(nodes, id)
    ensures var op := Get(nodes, id).parent.value; var r := Reparented(nodes, id, np);
      && (forall k | k in nodes && k != op && k != np && k != id :: r[k] == nodes[k])
      && Get(r, op) == Get(nodes, op).(children := Without(Get(nodes, op).children, id))
      && Get(r, np) == Get(nodes, np).(children := Get(nodes, np).children + [id])
      && Get(r, id) == Get(nodes, id).(parent := Some(np))
  {
    MovedNodeFacts(nodes, root, rank, bound, id, np);
  }

  lemma ReparentedAt(nodes: Nodes, root: Id, rank: map<Id, nat>, bound: nat, id: Id, np: Id, k: Id)
    requires MoveSetting(nodes, root, rank, bound, id, np)
    requires Get(nodes, id).parent.value != np
    requires Live(nodes, k)
    ensures HasLiveParent(nodes, id)
    ensures var s := Subtree(nodes, rank, id);
      LinkedAt(Reparented(nodes, id, np), root, Shifted(rank, s, id, np), bound + rank[np] + 1, k)
  {
    MovedNodeFacts(nodes, root, rank, bound, id, np);
    ReparentedEntries(nodes, root, rank, bound, id, np);
    var s := Subtree(nodes, rank, id);
    var op := Get(nodes, id).parent.value;
    var r := Reparented(nodes, id, np);
    if k in s {
      if k == id {
        ReparentedAtTop(nodes, root, rank, bound, id, np);
      } else {
        ReparentedInside(nodes, root, rank, bound, id, np, k);
      }
    } else if k == op {
      ReparentedAtOld(nodes, root, rank, bound, id, np);
    } else if k == np {
      ReparentedAtNew(nodes, root, rank, bound, id, np);
    } else {
      ReparentedOutside(nodes, root, rank, bound, id, np, k);
    }
  }

  lemma ReparentedAtTop(nodes: Nodes, root: Id, rank: map<Id, nat>, bound: nat, id: Id, np: Id)
    requires MoveSetting(nodes, root, rank, bound, id, np)
    requires Get(nodes, id).parent.value != np
    ensures HasLiveParent(nodes, id)
    ensures var s := Subtree(nodes, rank, id);
      LinkedAt(Reparented(nodes, id, np), root, Shifted(rank, s, id, np), bound + rank[np] + 1, id)
  {
    MovedNodeFacts(nodes, root, rank, bound, id, np);
    ReparentedEntries(nodes, root, rank, bound, id, np);
    var s := Subtree(nodes, rank, id);
    var r := Reparented(nodes, id, np);
    var r2 := Shifted(rank, s, id, np);
    assert LinkedAt(nodes, root, rank, bound, id);
    var cs := Get(nodes, id).children;
    forall i | 0 <= i < |cs| ensures Live(r, cs[i]) && Get(r, cs[i]).parent == Some(id) {
      InsideChild(nodes, root, rank, bound, id, id, cs[i]);
      assert cs[i] != np;
      assert LinkedAt(nodes, root, rank, bound, np);
      assert Get(nodes, cs[i]).parent == Some(id);
    }
    assert id in Get(r, np).children;
    assert r2[np] == rank[np] && r2[id] == rank[np] + 1;
  }

  lemma ReparentedInside(nodes: Nodes, root: Id, rank: map<Id, nat>, bound: nat, id: Id, np: Id, k: Id)
    requires MoveSetting(nodes, root, rank, bound, id, np)
    requires Get(nodes, id).parent.value != np
    requires k in Subtree(nodes, rank, id) && k != id
    ensures HasLiveParent(nodes, id)
    ensures var s := Subtree(nodes, rank, id);
      LinkedAt(Reparented(nodes, id, np), root, Shifted(rank, s, id, np), bound + rank[np] + 1, k)
  {
    MovedNodeFacts(nodes, root, rank, bound, id, np);
    ReparentedEntries(nodes, root, rank, bound, id, np);
    var s := Subtree(nodes, rank, id);
    var op := Get(nodes, id).parent.value;
    var r := Reparented(nodes, id, np);
    var r2 := Shifted(rank, s, id, np);
    assert LinkedAt(nodes, root, rank, bound, k);
    assert r[k] == nodes[k];
    var cs := Get(nodes, k).children;
    forall i | 0 <= i < |cs| ensures Live(r, cs[i]) && Get(r, cs[i]).parent == Some(k) {
      InsideChild(nodes, root, rank, bound, id, k, cs[i]);
      assert Live(nodes, cs[i]) && Get(nodes, cs[i]).parent == Some(k);
      assert r[cs[i]] == nodes[cs[i]];
    }
    InsideParent(nodes, root, rank, bound, id, k);
    var q := Get(nodes, k).parent.value;
    InsideRank(nodes, rank, id, k);
    InsideRank(nodes, rank, id, q);
    assert Get(r, q).children == Get(nodes, q).children;
    assert r2[q] < r2[k];
  }

  lemma ReparentedAtOld(nodes: Nodes, root: Id, rank: map<Id, nat>, bound: nat, id: Id, np: Id)
    requires MoveSetting(nodes, root, rank, bound, id, np)
    requires Get(nodes, id).parent.value != np
    ensures HasLiveParent(nodes, id)
    ensures var s := Subtree(nodes, rank, id);
      LinkedAt(Reparented(nodes, id, np), root, Shifted(rank, s, id, np), bound + rank[np] + 1,
               Get(nodes, id).parent.value)
  {
    MovedNodeFacts(nodes, root, rank, bound, id, np);
    ReparentedEntries(nodes, root, rank, bound, id, np);
    var s := Subtree(nodes, rank, id);
    var op := Get(nodes, id).parent.value;
    var r := Reparented(nodes, id, np);
    assert LinkedAt(nodes, root, rank, bound, op);
    var cs := Get(nodes, op).children;
    WithoutDistinct(cs, id);
    var t := Without(cs, id);
    forall i | 0 <= i < |t| ensures Live(r, t[i]) && Get(r, t[i]).parent == Some(op) {
      assert t[i] in cs;
      var j :| 0 <= j < |cs| && cs[j] == t[i];
      assert Live(nodes, t[i]) && Get(nodes, t[i]).parent == Some(op);
    }
    if op != root {
      var q := Get(nodes, op).parent.value;
      OutsideParent(nodes, root, rank, bound, id, op);
      assert op in Get(nodes, q).children;
      assert op in Get(r, q).children;
    }
  }

  lemma ReparentedAtNew(nodes: Nodes, root: Id, rank: map<Id, nat>, bound: nat, id: Id, np: Id)
    requires MoveSetting(nodes, root, rank, bound, id, np)
    requires Get(nodes, id).parent.value != np
    ensures HasLiveParent(nodes, id)
    ensures var s := Subtree(nodes, rank, id);
      LinkedAt(Reparented(nodes, id, np), root, Shifted(rank, s, id, np), bound + rank[np] + 1, np)
  {
    MovedNodeFacts(nodes, root, rank, bound, id, np);
    ReparentedEntries(nodes, root, rank, bound, id, np);
    var s := Subtree(nodes, rank, id);
    var op := Get(nodes, id).parent.value;
    var r := Reparented(nodes, id, np);
    assert LinkedAt(nodes, root, rank, bound, np);
    var cs := Get(nodes, np).children;
    var t := cs + [id];
    forall i, j | 0 <= i < j < |t| ensures t[i] != t[j] {
      if j == |cs| {
        assert Get(nodes, cs[i]).parent == Some(np);
      } else {
        assert t[i] == cs[i] && t[j] == cs[j];
      }
    }
    forall i | 0 <= i < |t| ensures Live(r, t[i]) && Get(r, t[i]).parent == Some(np) {
      if i < |cs| {
        assert t[i] == cs[i];
        assert Live(nodes, cs[i]) && Get(nodes, cs[i]).parent == Some(np);
        assert cs[i] != id;
      }
    }
    if np != root {
      var q := Get(nodes, np).parent.value;
      OutsideParent(nodes, root, rank, bound, id, np);
      assert np in Get(nodes, q).children;
      assert np in Get(r, q).children;
    }
  }

  lemma ReparentedOutside(nodes: Nodes, root: Id, rank: map<Id, nat>, bound: nat, id: Id, np: Id, k: Id)
    requires MoveSetting(nodes, root, rank, bound, id, np)
    requires Get(nodes, id).parent.value != np
    requires Live(nodes, k) && k !in Subtree(nodes, rank, id)
    requires k != Get(nodes, id).parent.value && k != np
    ensures HasLiveParent(nodes, id)
    ensures var s := Subtree(nodes, rank, id);
      LinkedAt(Reparented(nodes, id, np), root, Shifted(rank, s, id, np), bound + rank[np] + 1, k)
  {
    MovedNodeFacts(nodes, root, rank, bound, id, np);
    ReparentedEntries(nodes, root, rank, bound, id, np);
    var s := Subtree(nodes, rank, id);
    var op := Get(nodes, id).parent.value;
    var r := Reparented(nodes, id, np);
    assert LinkedAt(nodes, root, rank, bound, k);
    assert r[k] == nodes[k];
    var cs := Get(nodes, k).children;
    forall i | 0 <= i < |cs| ensures Live(r, cs[i]) && Get(r, cs[i]).parent == Some(k) {
      assert Live(nodes, cs[i]) && Get(nodes, cs[i]).parent == Some(k);
      assert cs[i] != id;
    }
    if k != root {
      var q := Get(nodes, k).parent.value;
      OutsideParent(nodes, root, rank, bound, id, k);
      assert k in Get(nodes, q).children;
      assert k in Get(r, q).children;
    }
  }

  /** Moving a node under a live parent outside its own subtree keeps the registry linked. */
  lemma ReparentedLinked(nodes: Nodes, root: Id, rank: map<Id, nat>, bound: nat, id: Id, np: Id)
    requires MoveSetting(nodes, root, rank, bound, id, np)
    ensures HasLiveParent(nodes, id) && id in rank && np in rank
    ensures Linked(Reparented(nodes, id, np), root, MovedRank(nodes, rank, id, np),
                   MovedBound(nodes, rank, bound, id, np))
  {
    MovedNodeFacts(nodes, root, rank, bound, id, np);
    if Get(nodes, id).parent.value != np {
      var r := Reparented(nodes, id, np);
      forall k | Live(r, k)
        ensures LinkedAt(r, root, MovedRank(nodes, rank, id, np), MovedBound(nodes, rank, bound, id, np), k)
      {
        ReparentedAt(nodes, root, rank, bound, id, np, k);
      }
    }
  }

  /** Reparenting keeps the set of nodes in the moved subtree. */
  lemma ReparentedSubtree(nodes: Nodes, root: Id, rank: map<Id, nat>, bound: nat, id: Id, np: Id)
    requires MoveSetting(nodes, root, rank, bound, id, np)
    ensures HasLiveParent(nodes, id) && id in rank && np in rank
    ensures Subtree(Reparented(nodes, id, np), MovedRank(nodes, rank, id, np), id) == Subtree(nodes, rank, id)
  {
    MovedNodeFacts(nodes, root, rank, bound, id, np);
    var op := Get(nodes, id).parent.value;
    if op != np {
      var s := Subtree(nodes, rank, id);
      var r := Reparented(nodes, id, np);
      var r2 := MovedRank(nodes, rank, id, np);
      ReparentedEntries(nodes, root, rank, bound, id, np);
      var t := set y | y in nodes && Live(nodes, y) && y !in s;
      forall y | y in t
        ensures && Live(r, y) && Live(nodes, y) && Get(r, y).parent == Get(nodes, y).parent
                && (y in r2 <==> y in rank) && (y in r2 ==> r2[y] == rank[y])
                && (Get(r, y).parent.Some? ==> Get(r, y).parent.value in t)
      {
        assert LinkedAt(nodes, root, rank, bound, y);
        if y != root {
          OutsideParent(nodes, root, rank, bound, id, y);
        }
      }
      forall x | x in nodes ensures Descends(r, r2, x, id) == Descends(nodes, rank, x, id) {
        if x in s {
          ShiftedDescends(nodes, root, rank, bound, id, np, x);
        } else if Live(nodes, x) {
          DescendsAgree(r, r2, nodes, rank, t, x, id);
        }
      }
    }
  }

  lemma {:induction false} ShiftedDescends(nodes: Nodes, root: Id, rank: map<Id, nat>, bound: nat, id: Id, np: Id, x: Id)
    requires MoveSetting(nodes, root, rank, bound, id, np)
    requires Get(nodes, id).parent.value != np
    requires x in Subtree(nodes, rank, id)
    ensures HasLiveParent(nodes, id)
    ensures Descends(Reparented(nodes, id, np), Shifted(rank, Subtree(nodes, rank, id), id, np), x, id)
    decreases if x in rank then rank[x] else 0
  {
    MovedNodeFacts(nodes, root, rank, bound, id, np);
    if x != id {
      ReparentedEntries(nodes, root, rank, bound, id, np);
      InsideParent(nodes, root, rank, bound, id, x);
      assert LinkedAt(nodes, root, rank, bound, x);
      var q := Get(nodes, x).parent.value;
      InsideRank(nodes, rank, id, x);
      InsideRank(nodes, rank, id, q);
      ShiftedDescends(nodes, root, rank, bound, id, np, q);
    }
  }

  // ---------------------------------------------------------------------------
  // Pointing, placing and flowing keep the shape
  // ---------------------------------------------------------------------------

  lemma PointedShape(nodes: Nodes, id: Id, d: Direction)
    requires Live(nodes, id)
    ensures SameShape(nodes, Pointed(nodes, id, d))
  {
  }

  /** The index the moved node ends with. */
  function PlacedIndex(nodes: Nodes, id: Id, beforeId: Option<string>): Index
    requires HasLiveParent(nodes, id)
  {
    match PlaceIndex(nodes, Get(nodes, id).parent.value, beforeId)
    case None => Get(nodes, id).index
    case Some(i) => i
  }

  /** _moveNodeInternal keeps the shape of the registry. */
  lemma PlacedShape(nodes: Nodes, id: Id, beforeId: Option<string>)
    requires HasLiveParent(nodes, id)
    ensures SameShape(nodes, Placed(nodes, id, beforeId))
  {
    var pid := Get(nodes, id).parent.value;
    match PlaceIndex(nodes, pid, beforeId)
    case None =>
    case Some(i) =>
      var x := nodes[id := Some(Get(nodes, id).(index := i))];
      ResortedShape(x, pid);
      ShapeTransitive(nodes, x, Resorted(x, pid));
  }

  /** _moveNodeInternal changes the node's index and the order of its siblings, nothing else. */
  lemma PlacedAt(nodes: Nodes, id: Id, beforeId: Option<string>, k: Id)
    requires HasLiveParent(nodes, id) && Get(nodes, id).parent.value != id && Live(nodes, k)
    ensures var pid := Get(nodes, id).parent.value; var p := Placed(nodes, id, beforeId);
      && Live(p, k)
      && (k != id && k != pid ==> p[k] == nodes[k])
      && (k == id ==> Get(p, id) == Get(nodes, id).(index := PlacedIndex(nodes, id, beforeId)))
      && (k == pid ==> (Get(p, pid) == Get(nodes, pid).(children := Get(p, pid).children)
                       && multiset(Get(p, pid).children) == multiset(Get(nodes, pid).children)))
  {
    var pid := Get(nodes, id).parent.value;
    match PlaceIndex(nodes, pid, beforeId)
    case None =>
    case Some(i) =>
      var x := nodes[id := Some(Get(nodes, id).(index := i))];
      ResortedShape(x, pid);
  }

  lemma RedirectShape(nodes: Nodes, s: set<Id>, d: Direction)
    ensures SameShape(nodes, Redirect(nodes, s, d))
  {
  }

  /** One entry of the reparented registry. */
  lemma ReparentedAtEntry(nodes: Nodes, root: Id, rank: map<Id, nat>, bound: nat, id: Id, np: Id, k: Id)
    requires MoveSetting(nodes, root, rank, bound, id, np) && Live(nodes, k)
    ensures HasLiveParent(nodes, id)
    ensures var r := Reparented(nodes, id, np); var op := Get(nodes, id).parent.value;
      && Live(r, k)
      && Get(r, k) == Get(nodes, k).(parent := if k == id then Some(np) else Get(nodes, k).parent,
                                     children := Get(r, k).children)
      && (k != op && k != np ==> Get(r, k).children == Get(nodes, k).children)
      && (op != np && k == op ==> Get(r, k).children == Without(Get(nodes, op).children, id))
      && (k == np ==> (multiset(Get(r, np).children)
            == multiset(Get(nodes, np).children) + (if op != np then multiset{id} else multiset{})))
  {
    MovedNodeFacts(nodes, root, rank, bound, id, np);
    if Get(nodes, id).parent.value != np {
      ReparentedEntries(nodes, root, rank, bound, id, np);
    }
  }

  /** One entry of the registry after moveNode. */
  lemma MovedAt(nodes: Nodes, root: Id, rank: map<Id, nat>, bound: nat, id: Id, np: Id,
                beforeId: Option<string>, direction: Option<int>, k: Id)
    requires MoveSetting(nodes, root, rank, bound, id, np) && Live(nodes, k)
    ensures HasLiveParent(nodes, id)
    ensures var m := Moved(nodes, rank, id, np, beforeId, direction);
      var s := Subtree(nodes, rank, id);
      var d := MoveDirection(nodes, np, direction);
      var op := Get(nodes, id).parent.value;
      && Live(m, k)
      && Get(m, k) == Get(nodes, k).(parent := if k == id then Some(np) else Get(nodes, k).parent,
                                     direction := if k in s then d else Get(nodes, k).direction,
                                     index := Get(m, k).index,
                                     children := Get(m, k).children)
      && (k != id ==> Get(m, k).index == Get(nodes, k).index)
      && (k != op && k != np ==> Get(m, k).children == Get(nodes, k).children)
      && (op != np && k == op ==> Get(m, k).children == Without(Get(nodes, op).children, id))
      && (k == np ==> (multiset(Get(m, np).children)
            == multiset(Get(nodes, np).children) + (if op != np then multiset{id} else multiset{})))
  {
    MovedNodeFacts(nodes, root, rank, bound, id, np);
    var s := Subtree(nodes, rank, id);
    var d := MoveDirection(nodes, np, direction);
    var r := Reparented(nodes, id, np);
    ReparentedAtEntry(nodes, root, rank, bound, id, np, k);
    var pt := Pointed(r, id, d);
    assert Get(pt, id).parent == Some(np);
    PlacedAt(pt, id, beforeId, k);
  }

  /**
   * Every entry after moveNode: liveness and the other fields are kept, only
   * the moved node changes parent, exactly the subtree takes the new
   * direction, only the moved node changes index, and only the old and new
   * parents change children.
   */
  lemma MovedEntries(nodes: Nodes, root: Id, rank: map<Id, nat>, bound: nat, id: Id, np: Id,
                     beforeId: Option<string>, direction: Option<int>)
    requires MoveSetting(nodes, root, rank, bound, id, np)
    ensures HasLiveParent(nodes, id)
    ensures var m := Moved(nodes, rank, id, np, beforeId, direction);
      var s := Subtree(nodes, rank, id);
      var d := MoveDirection(nodes, np, direction);
      var op := Get(nodes, id).parent.value;
      && m.Keys == nodes.Keys
      && (forall k | k in nodes :: Live(m, k) <==> Live(nodes, k))
      && (forall k | Live(nodes, k) ::
            Get(m, k) == Get(nodes, k).(parent := if k == id then Some(np) else Get(nodes, k).parent,
                                        direction := if k in s then d else Get(nodes, k).direction,
                                        index := Get(m, k).index,
                                        children := Get(m, k).children))
      && (forall k | Live(nodes, k) && k != id :: Get(m, k).index == Get(nodes, k).index)
      && (forall k | Live(nodes, k) && k != op && k != np :: Get(m, k).children == Get(nodes, k).children)
      && (op != np ==> Get(m, op).children == Without(Get(nodes, op).children, id))
      && multiset(Get(m, np).children)
           == multiset(Get(nodes, np).children) + (if op != np then multiset{id} else multiset{})
  {
    MovedNodeFacts(nodes, root, rank, bound, id, np);
    var m := Moved(nodes, rank, id, np, beforeId, direction);
    MovedLinked(nodes, root, rank, bound, id, np, beforeId, direction);
    forall k | Live(nodes, k) ensures
      var s := Subtree(nodes, rank, id);
      var d := MoveDirection(nodes, np, direction);
      var op := Get(nodes, id).parent.value;
      && Live(m, k)
      && Get(m, k) == Get(nodes, k).(parent := if k == id then Some(np) else Get(nodes, k).parent,
                                     direction := if k in s then d else Get(nodes, k).direction,
                                     index := Get(m, k).index,
                                     children := Get(m, k).children)
      && (k != id ==> Get(m, k).index == Get(nodes, k).index)
      && (k != op && k != np ==> Get(m, k).children == Get(nodes, k).children)
      && (op != np && k == op ==> Get(m, k).children == Without(Get(nodes, op).children, id))
      && (k == np ==> (multiset(Get(m, np).children)
            == multiset(Get(nodes, np).children) + (if op != np then multiset{id} else multiset{})))
    {
      MovedAt(nodes, root, rank, bound, id, np, beforeId, direction, k);
    }
    var d := MoveDirection(nodes, np, direction);
    var r := Reparented(nodes, id, np);
    var pt := Pointed(r, id, d);
    PointedShape(r, id, d);
    PlacedShape(pt, id, beforeId);
    RedirectShape(Placed(pt, id, beforeId), Subtree(nodes, rank, id), d);
    var op := Get(nodes, id).parent.value;
    assert Live(nodes, op) && Live(nodes, np);
  }

  /** After the move every node is linked again, ranked by the shifted ranks. */
  lemma MovedLinked(nodes: Nodes, root: Id, rank: map<Id, nat>, bound: nat, id: Id, np: Id,
                    beforeId: Option<string>, direction: Option<int>)
    requires MoveSetting(nodes, root, rank, bound, id, np)
    ensures HasLiveParent(nodes, id) && id in rank && np in rank
    ensures var m := Moved(nodes, rank, id, np, beforeId, direction);
      && Linked(m, root, MovedRank(nodes, rank, id, np), MovedBound(nodes, rank, bound, id, np))
      && Subtree(m, MovedRank(nodes, rank, id, np), id) == Subtree(nodes, rank, id)
  {
    MovedNodeFacts(nodes, root, rank, bound, id, np);
    var s := Subtree(nodes, rank, id);
    var d := MoveDirection(nodes, np, direction);
    var r2 := MovedRank(nodes, rank, id, np);
    var b2 := MovedBound(nodes, rank, bound, id, np);
    var r := Reparented(nodes, id, np);
    ReparentedLinked(nodes, root, rank, bound, id, np);
    ReparentedSubtree(nodes, root, rank, bound, id, np);
    var pt := Pointed(r, id, d);
    PointedShape(r, id, d);
    ShapeLinked(r, pt, root, r2, b2);
    ShapeSubtree(r, pt, r2, id);
    PlacedShape(pt, id, beforeId);
    var pl := Placed(pt, id, beforeId);
    ShapeLinked(pt, pl, root, r2, b2);
    ShapeSubtree(pt, pl, r2, id);
    RedirectShape(pl, s, d);
    ShapeLinked(pl, Redirect(pl, s, d), root, r2, b2);
    ShapeSubtree(pl, Redirect(pl, s, d), r2, id);
  }

  /** After the move directions flow again: the whole subtree carries the moved node's new side. */
  lemma MovedFlows(nodes: Nodes, root: Id, rank: map<Id, nat>, bound: nat, id: Id, np: Id,
                   beforeId: Option<string>, direction: Option<int>)
    requires MoveSetting(nodes, root, rank, bound, id, np) && DirectionsFlow(nodes, root)
    ensures HasLiveParent(nodes, id)
    ensures DirectionsFlow(Moved(nodes, rank, id, np, beforeId, direction), root)
  {
    MovedNodeFacts(nodes, root, rank, bound, id, np);
    MovedEntries(nodes, root, rank, bound, id, np, beforeId, direction);
    var m := Moved(nodes, rank, id, np, beforeId, direction);
    var s := Subtree(nodes, rank, id);
    var d := MoveDirection(nodes, np, direction);
    assert d != Center by {
      if np != root {
        assert LinkedAt(nodes, root, rank, bound, np);
        assert FlowsAt(nodes, root, np);
      }
    }
    forall k | Live(m, k) && k != root ensures FlowsAt(m, root, k) {
      assert FlowsAt(nodes, root, k);
      if k in s {
        if k != id {
          InsideParent(nodes, root, rank, bound, id, k);
        }
      } else {
        OutsideParent(nodes, root, rank, bound, id, k);
      }
    }
  }

  /** The moved node hangs under the new parent, and the old parent no longer lists it. */
  lemma MovedParent(nodes: Nodes, root: Id, rank: map<Id, nat>, bound: nat, id: Id, np: Id,
                    beforeId: Option<string>, direction: Option<int>)
    requires MoveSetting(nodes, root, rank, bound, id, np)
    ensures HasLiveParent(nodes, id)
    ensures var m := Moved(nodes, rank, id, np, beforeId, direction);
      var op := Get(nodes, id).parent.value;
      && Get(m, id).parent == Some(np) && id in Get(m, np).children
      && (op != np ==> id !in Get(m, op).children)
  {
    MovedNodeFacts(nodes, root, rank, bound, id, np);
    var m := Moved(nodes, rank, id, np, beforeId, direction);
    var op := Get(nodes, id).parent.value;
    MovedAt(nodes, root, rank, bound, id, np, beforeId, direction, id);
    MovedAt(nodes, root, rank, bound, id, np, beforeId, direction, np);
    MovedAt(nodes, root, rank, bound, id, np, beforeId, direction, op);
    assert id in multiset(Get(m, np).children) by {
      if op == np {
        assert LinkedAt(nodes, root, rank, bound, id);
        assert id in multiset(Get(nodes, np).children);
      }
    }
  }

  /**
   * The index moveNode promises: `_last_` and `_first_` give -1 and 0, a
   * sibling under the new parent (or the node itself) gives that node's index
   * - 0.5, and an absent, empty or unknown id keeps the index.
   */
  lemma MovedIndex(nodes: Nodes, root: Id, rank: map<Id, nat>, bound: nat, id: Id, np: Id,
                   beforeId: Option<string>, direction: Option<int>)
    requires MoveSetting(nodes, root, rank, bound, id, np)
    ensures HasLiveParent(nodes, id)
    ensures var m := Moved(nodes, rank, id, np, beforeId, direction);
      && (beforeId == Some("_last_") ==> Get(m, id).index == Num(-1.0))
      && (beforeId == Some("_first_") ==> Get(m, id).index == Num(0.0))
      && (forall b | beforeId == Some(b) && b != "_last_" && b != "_first_" && b != "" && Live(nodes, b)
                     && (b == id || Get(nodes, b).parent == Some(np)) ::
            Get(m, id).index == Get(nodes, b).index.Minus(0.5))
      && ((beforeId.None? || beforeId == Some("") ||
           (beforeId.Some? && beforeId.value !in nodes && beforeId.value != "_last_" && beforeId.value != "_first_"))
          ==> Get(m, id).index == Get(nodes, id).index)
  {
    MovedNodeFacts(nodes, root, rank, bound, id, np);
    var d := MoveDirection(nodes, np, direction);
    var pt := Pointed(Reparented(nodes, id, np), id, d);
    MovedIdIndex(nodes, root, rank, bound, id, np, beforeId, direction);
    PointedEntries(nodes, root, rank, bound, id, np, d);
    if beforeId.Some? && Live(nodes, beforeId.value) {
      PointedEntry(nodes, root, rank, bound, id, np, d, beforeId.value);
    }
  }

  /**
   * The cases where moveNode keeps the index: a removed `beforeId`, or a live
   * one other than the node itself whose parent is not the new parent.
   */
  lemma MovedIndexKept(nodes: Nodes, root: Id, rank: map<Id, nat>, bound: nat, id: Id, np: Id,
                       beforeId: Option<string>, direction: Option<int>)
    requires MoveSetting(nodes, root, rank, bound, id, np)
    ensures HasLiveParent(nodes, id)
    ensures var m := Moved(nodes, rank, id, np, beforeId, direction);
      forall b | beforeId == Some(b) && b != "_last_" && b != "_first_"
                 && (!Live(nodes, b) || (b != id && Get(nodes, b).parent != Some(np))) ::
        Get(m, id).index == Get(nodes, id).index
  {
    MovedNodeFacts(nodes, root, rank, bound, id, np);
    MovedIdIndex(nodes, root, rank, bound, id, np, beforeId, direction);
    var d := MoveDirection(nodes, np, direction);
    var pt := Pointed(Reparented(nodes, id, np), id, d);
    PointedEntries(nodes, root, rank, bound, id, np, d);
    if beforeId.Some? && Live(nodes, beforeId.value) {
      PointedEntry(nodes, root, rank, bound, id, np, d, beforeId.value);
    }
  }

  lemma MovedIdIndex(nodes: Nodes, root: Id, rank: map<Id, nat>, bound: nat, id: Id, np: Id,
                     beforeId: Option<string>, direction: Option<int>)
    requires MoveSetting(nodes, root, rank, bound, id, np)
    ensures HasLiveParent(nodes, id)
    ensures var d := MoveDirection(nodes, np, direction);
      var pt := Pointed(Reparented(nodes, id, np), id, d);
      && HasLiveParent(pt, id) && Get(pt, id).parent == Some(np)
      && Get(Moved(nodes, rank, id, np, beforeId, direction), id).index == PlacedIndex(pt, id, beforeId)
  {
    MovedNodeFacts(nodes, root, rank, bound, id, np);
    var d := MoveDirection(nodes, np, direction);
    var pt := Pointed(Reparented(nodes, id, np), id, d);
    PlacedAt(pt, id, beforeId, id);
  }

  lemma PointedEntries(nodes: Nodes, root: Id, rank: map<Id, nat>, bound: nat, id: Id, np: Id, d: Direction)
    requires MoveSetting(nodes, root, rank, bound, id, np)
    ensures HasLiveParent(nodes, id)
    ensures var pt := Pointed(Reparented(nodes, id, np), id, d);
      && pt.Keys == nodes.Keys && Get(pt, id).index == Get(nodes, id).index
  {
    MovedNodeFacts(nodes, root, rank, bound, id, np);
  }

  lemma PointedEntry(nodes: Nodes, root: Id, rank: map<Id, nat>, bound: nat, id: Id, np: Id, d: Direction, b: Id)
    requires MoveSetting(nodes, root, rank, bound, id, np) && Live(nodes, b)
    ensures HasLiveParent(nodes, id)
    ensures var pt := Pointed(Reparented(nodes, id, np), id, d);
      && Live(pt, b) && Get(pt, b).index == Get(nodes, b).index
      && Get(pt, b).parent == (if b == id then Some(np) else Get(nodes, b).parent)
  {
    MovedNodeFacts(nodes, root, rank, bound, id, np);
    ReparentedAtEntry(nodes, root, rank, bound, id, np, b);
  }

  /**
   * The direction moveNode promises: every node of the moved subtree ends
   * with the new direction, which is left exactly when the new parent is the
   * root and -1 was asked for, or the new parent is a left node.
   */
  lemma MovedDirection(nodes: Nodes, root: Id, rank: map<Id, nat>, bound: nat, id: Id, np: Id,
                       beforeId: Option<string>, direction: Option<int>)
    requires MoveSetting(nodes, root, rank, bound, id, np) && DirectionsFlow(nodes, root)
    ensures HasLiveParent(nodes, id)
    ensures var m := Moved(nodes, rank, id, np, beforeId, direction);
      var d := Get(m, id).direction;
      && d != Center
      && (forall x | x in Subtree(nodes, rank, id) :: Live(m, x) && Get(m, x).direction == d)
      && (d == Left <==> (np == root && direction == Some(-1)) || (np != root && Get(nodes, np).direction == Left))
  {
    MovedNodeFacts(nodes, root, rank, bound, id, np);
    MovedEntries(nodes, root, rank, bound, id, np, beforeId, direction);
    assert LinkedAt(nodes, root, rank, bound, np);
    if np != root {
      assert FlowsAt(nodes, root, np);
    }
  }

  /**
   * _moveNodeInternal dereferences a `beforeId` that names the root (whose
   * parent is undefined) or a removed node (whose entry is undefined).
   */
  predicate PlaceSafe(nodes: Nodes, beforeId: Option<string>) {
    || beforeId.None? || beforeId.value in {"_last_", "_first_", ""} || beforeId.value !in nodes
    || (Live(nodes, beforeId.value) && Get(nodes, beforeId.value).parent.Some?)
  }

  /**
   * The phases of _moveNode, one after the other: the state each phase hands
   * on satisfies what the next one needs, and flowing the side down the
   * subtree at the end gives the composed move.
   */
  lemma MoveChain(nodes: Nodes, root: Id, rank: map<Id, nat>, bound: nat, id: Id, np: Id,
                  beforeId: Option<string>, direction: Option<int>)
    requires MoveSetting(nodes, root, rank, bound, id, np) && PlaceSafe(nodes, beforeId)
    ensures HasLiveParent(nodes, id) && id in rank && np in rank
    ensures var r1 := Reparented(nodes, id, np); var d := MoveDirection(nodes, np, direction);
      var pt := Pointed(r1, id, d);
      var r2 := MovedRank(nodes, rank, id, np); var b2 := MovedBound(nodes, rank, bound, id, np);
      && MoveDirection(r1, np, direction) == d
      && Linked(r1, root, r2, b2) && Linked(pt, root, r2, b2)
      && HasLiveParent(pt, id) && Get(pt, id).parent.value != id && PlaceSafe(pt, beforeId)
      && var pl := Placed(pt, id, beforeId);
      && Linked(pl, root, r2, b2) && Live(pl, id) && Get(pl, id).direction == d
      && Redirect(pl, Subtree(pl, r2, id), d) == Moved(nodes, rank, id, np, beforeId, direction)
  {
    MovedNodeFacts(nodes, root, rank, bound, id, np);
    var d := MoveDirection(nodes, np, direction);
    PointedStage(nodes, root, rank, bound, id, np, beforeId, d);
    var pt := Pointed(Reparented(nodes, id, np), id, d);
    PlacedStage(pt, root, MovedRank(nodes, rank, id, np), MovedBound(nodes, rank, bound, id, np), id, beforeId, d);
  }

  /** Reparenting and then setting the node's side keep the tree linked and the subtree as it was. */
  lemma PointedStage(nodes: Nodes, root: Id, rank: map<Id, nat>, bound: nat, id: Id, np: Id,
                     beforeId: Option<string>, d: Direction)
    requires MoveSetting(nodes, root, rank, bound, id, np) && PlaceSafe(nodes, beforeId)
    ensures HasLiveParent(nodes, id) && id in rank && np in rank
    ensures var r1 := Reparented(nodes, id, np); var pt := Pointed(r1, id, d);
      var r2 := MovedRank(nodes, rank, id, np); var b2 := MovedBound(nodes, rank, bound, id, np);
      && (forall dir :: MoveDirection(r1, np, dir) == MoveDirection(nodes, np, dir))
      && Linked(r1, root, r2, b2) && Linked(pt, root, r2, b2)
      && HasLiveParent(pt, id) && Get(pt, id).parent.value != id && PlaceSafe(pt, beforeId)
      && Get(pt, id).direction == d
      && Subtree(pt, r2, id) == Subtree(nodes, rank, id)
  {
    MovedNodeFacts(nodes, root, rank, bound, id, np);
    var r1 := Reparented(nodes, id, np);
    var pt := Pointed(r1, id, d);
    var r2 := MovedRank(nodes, rank, id, np);
    var b2 := MovedBound(nodes, rank, bound, id, np);
    ReparentedLinked(nodes, root, rank, bound, id, np);
    ReparentedSubtree(nodes, root, rank, bound, id, np);
    PointedShape(r1, id, d);
    ShapeLinked(r1, pt, root, r2, b2);
    ShapeSubtree(r1, pt, r2, id);
    if beforeId.Some? && Live(nodes, beforeId.value) {
      ReparentedAtEntry(nodes, root, rank, bound, id, np, beforeId.value);
    }
  }

  /** Positioning keeps the tree linked, the node's side and its subtree. */
  lemma PlacedStage(pt: Nodes, root: Id, rank: map<Id, nat>, bound: nat, id: Id, beforeId: Option<string>, d: Direction)
    requires Linked(pt, root, rank, bound) && HasLiveParent(pt, id) && Get(pt, id).parent.value != id
    requires Get(pt, id).direction == d
    ensures var pl := Placed(pt, id, beforeId);
      && Linked(pl, root, rank, bound) && Live(pl, id) && Get(pl, id).direction == d
      && Subtree(pl, rank, id) == Subtree(pt, rank, id)
  {
    var pl := Placed(pt, id, beforeId);
    PlacedShape(pt, id, beforeId);
    ShapeLinked(pt, pl, root, rank, bound);
    ShapeSubtree(pt, pl, rank, id);
    PlacedAt(pt, id, beforeId, id);
  }

  /** The composed move leaves a valid tree with the same keys and live nodes. */
  lemma MovedValid(nodes: Nodes, root: Id, rank: map<Id, nat>, bound: nat, id: Id, np: Id,
                   beforeId: Option<string>, direction: Option<int>)
    requires MoveSetting(nodes, root, rank, bound, id, np) && DirectionsFlow(nodes, root)
    ensures HasLiveParent(nodes, id) && id in rank && np in rank
    ensures var m := Moved(nodes, rank, id, np, beforeId, direction);
      && Linked(m, root, MovedRank(nodes, rank, id, np), MovedBound(nodes, rank, bound, id, np))
      && DirectionsFlow(m, root)
      && forall k | k in nodes :: Live(m, k) <==> Live(nodes, k)
  {
    MovedNodeFacts(nodes, root, rank, bound, id, np);
    MovedLinked(nodes, root, rank, bound, id, np, beforeId, direction);
    MovedFlows(nodes, root, rank, bound, id, np, beforeId, direction);
    MovedEntries(nodes, root, rank, bound, id, np, beforeId, direction);
  }

  /** A root "r" with a child "a" that has a child "b". */
  function ChainMind(): Nodes {
    map["r" := Some(Node("r", Num(0.0), "R", JObj(map[]), true, None, Center, false, ["a"])),
        "a" := Some(Node("a", Null, "A", JObj(map[]), false, Some("r"), Right, false, ["b"])),
        "b" := Some(Node("b", Null, "B", JObj(map[]), false, Some("a"), Right, false, []))]
  }

  /**
   * The first phase of _moveNode as written, asked to move "a" under its own
   * child "b": "a" and "b" become each other's parent and child, cut off
   * from the root, and no ranking makes the registry linked again, so
   * _flowNodeDirection from "a" walks a, b, a, ... without end.
   */
  lemma MoveIntoOwnSubtree(rank: map<Id, nat>, bound: nat)
    ensures Linked(ChainMind(), "r", map["r" := 0, "a" := 1, "b" := 2], 2)
    ensures "b" in Subtree(ChainMind(), map["r" := 0, "a" := 1, "b" := 2], "a")
    ensures HasLiveParent(ChainMind(), "a") && Live(ChainMind(), "b")
    ensures var n := Reparented(ChainMind(), "a", "b");
      && Get(n, "a").parent == Some("b") && Get(n, "b").parent == Some("a")
      && "a" in Get(n, "b").children && "b" in Get(n, "a").children
      && !Linked(n, "r", rank, bound)
  {
    ChainLinked();
    var n := ChainMoved();
    if Linked(n, "r", rank, bound) {
      ParentsRankBelow(n, "r", rank, bound, "a", "b");
      assert false;
    }
  }

  /** The chain is a linked registry, with "b" below "a". */
  lemma ChainLinked()
    ensures Linked(ChainMind(), "r", map["r" := 0, "a" := 1, "b" := 2], 2)
    ensures "b" in Subtree(ChainMind(), map["r" := 0, "a" := 1, "b" := 2], "a")
    ensures HasLiveParent(ChainMind(), "a") && Live(ChainMind(), "b")
  {
    var m, r0 := ChainMind(), map["r" := 0, "a" := 1, "b" := 2];
    assert LinkedAt(m, "r", r0, 2, "r") && LinkedAt(m, "r", r0, 2, "a") && LinkedAt(m, "r", r0, 2, "b");
    assert Descends(m, r0, "a", "a");
    assert Descends(m, r0, "b", "a");
  }

  /** Moving "a" under "b" as the first phase of _moveNode does it. */
  lemma ChainMoved() returns (n: Nodes)
    requires HasLiveParent(ChainMind(), "a") && Live(ChainMind(), "b")
    ensures n == Reparented(ChainMind(), "a", "b")
    ensures Live(n, "a") && Live(n, "b") && Get(n, "a").parent == Some("b") && Get(n, "b").parent == Some("a")
    ensures Get(n, "b").children == ["a"] && Get(n, "a").children == ["b"]
  {
    n := Reparented(ChainMind(), "a", "b");
    assert Without(["a"], "a") == [];
  }

  /** In a linked registry two non-root nodes each rank above their parents. */
  lemma ParentsRankBelow(n: Nodes, root: Id, rank: map<Id, nat>, bound: nat, a: Id, b: Id)
    requires Linked(n, root, rank, bound) && Live(n, a) && Live(n, b) && a != root && b != root
    ensures Get(n, a).parent.Some? && Get(n, a).parent.value in rank && a in rank
    ensures Get(n, b).parent.Some? && Get(n, b).parent.value in rank && b in rank
    ensures rank[Get(n, a).parent.value] < rank[a] && rank[Get(n, b).parent.value] < rank[b]
  {
    assert LinkedAt(n, root, rank, bound, a) && LinkedAt(n, root, rank, bound, b);
  }
}
