/**
 * The tree store: class Mind of src/mind.ts. The registry, the root and the
 * selection are fields the methods update in place; nodes are referred to by
 * id and a node's parent and children are ids. The ghost ranks witness that
 * the parent links form a tree, so every recursive walk terminates.
 */
module MindStore {
  import opened Wrappers
  import opened MindNodes
  import opened MindTree
  import opened Adding
  import opened Moving
  import opened Removing

  /** Where a numeric index lands when used as an array position: an integral value in range. */
  function Position(x: real, n: nat): (r: Option<nat>)
    ensures r.Some? <==> 0.0 <= x < n as real && x.Floor as real == x
    ensures r.Some? ==> r.value < n && r.value as real == x
  {
    if 0.0 <= x && x < n as real && x.Floor as real == x then Some(x.Floor as nat) else None
  }

  /**
   * The backward search of _moveNode and removeNode: the last position of
   * `x` in `s`, or -1.
   */
  method LastIndexOf(s: seq<Id>, x: Id) returns (i: int)
    ensures -1 <= i < |s|
    ensures i >= 0 ==> s[i] == x && x !in s[i + 1..]
    ensures i < 0 ==> x !in s
  {
    var j := |s|;
    while j > 0
      invariant 0 <= j <= |s|
      invariant x !in s[j..]
    {
      j := j - 1;
      if s[j] == x {
        return j;
      }
    }
    return -1;
  }

  /** In a distinct list, splicing out the last occurrence found is removing the element. */
  lemma SpliceFound(s: seq<Id>, x: Id, i: int)
    requires Distinct(s) && x in s
    requires -1 <= i < |s| && (i >= 0 ==> s[i] == x) && (i < 0 ==> x !in s)
    ensures 0 <= i && s[..i] + s[i + 1..] == Without(s, x)
  {
    SpliceIsWithout(s, i);
  }

  /** What insertNodeAfter does for an id: nothing when it is unknown, and unbounded recursion otherwise. */
  datatype Outcome = Missing | Diverges

  /**
   * In a list sorted by the comparator, a node that compares strictly lower
   * than another stands before it.
   */
  lemma SortedPrecedes(nodes: Nodes, cs: seq<Id>, i: nat, j: nat)
    requires Sorted(nodes, cs) && i < |cs| && j < |cs|
    requires Compare(IndexIn(nodes, cs[i]), IndexIn(nodes, cs[j])) < 0.0
    ensures i < j
  {
    CompareAntisymmetric(IndexIn(nodes, cs[i]), IndexIn(nodes, cs[j]));
  }

  /**
   * insertNodeBefore's promise: when every sibling index is regular and the
   * reference index is at least 0.5, the new node is placed before the
   * reference node among the parent's sorted children.
   */
  lemma InsertedBefore(nodes: Nodes, pid: Id, b: Id, id: Id, topic: string, data: Option<Value>)
    requires Live(nodes, pid) && Live(nodes, b) && id !in nodes
    requires b in Get(nodes, pid).children && Get(nodes, b).index.Numeric() >= 0.5
    ensures var a := Added(nodes, pid, id, Get(nodes, b).index.Minus(0.5), topic, data, None, false);
      var cs := Get(a, pid).children;
      (forall j | 0 <= j < |cs| :: Regular(IndexIn(a, cs[j]))) ==>
        exists i, j | 0 <= i < j < |cs| :: cs[i] == id && cs[j] == b
  {
    var ix := Get(nodes, b).index.Minus(0.5);
    var a := Added(nodes, pid, id, ix, topic, data, None, false);
    var cs := Get(a, pid).children;
    AddedEffect(nodes, pid, id, ix, topic, data, None, false);
    AddedSorted(nodes, pid, id, ix, topic, data, None, false);
    if forall j | 0 <= j < |cs| :: Regular(IndexIn(a, cs[j])) {
      assert id in multiset(cs) && b in multiset(cs);
      var i :| 0 <= i < |cs| && cs[i] == id;
      var j :| 0 <= j < |cs| && cs[j] == b;
      assert b != id;
      assert IndexIn(a, b) == Get(nodes, b).index;
      SortedPrecedes(a, cs, i, j);
    }
  }

  class Mind {
    var name: Option<string>
    var author: Option<string>
    var version: Option<string>
    var root: Option<Id>
    var selected: Option<Id>
    var nodes: Nodes
    ghost var rank: map<Id, nat>
    ghost var bound: nat

    /**
     * An empty mind, or a linked tree under `root` whose directions flow down
     * from the root's children, with the selection on a live node.
     */
    ghost predicate Valid()
      reads this
    {
      if root.None? then nodes == map[] && selected.None?
      else
        && Linked(nodes, root.value, rank, bound)
        && DirectionsFlow(nodes, root.value)
        && (selected.Some? ==> Live(nodes, selected.value))
    }

    constructor()
      ensures Valid() && root.None? && selected.None? && nodes == map[]
      ensures name.None? && author.None? && version.None?
    {
      name, author, version := None, None, None;
      root, selected, nodes := None, None, map[];
      rank, bound := map[], 0;
    }

    /** getNode: the registered node, or nothing for an unknown or removed id. */
    function GetNode(id: Id): (r: Option<Node>)
      reads this
      ensures r.Some? <==> Live(nodes, id)
      ensures Valid() && r.Some? ==> r.value.id == id && (r.value.isRoot <==> root == Some(id))
    {
      if id in nodes && nodes[id].Some? then
        assert Valid() ==> LinkedAt(nodes, root.value, rank, bound, id);
        nodes[id]
      else None
    }

    /** putNode: refuses any id already a key (removed ones too); otherwise adds exactly that key. */
    method PutNode(n: Node) returns (ok: bool)
      modifies this`nodes
      ensures ok <==> n.id !in old(nodes)
      ensures nodes == if ok then old(nodes)[n.id := Some(n)] else old(nodes)
    {
      if n.id in nodes {
        return false;
      }
      nodes := nodes[n.id := Some(n)];
      return true;
    }

    /**
     * setRoot: whatever the state, `root` becomes the new node (the guard only
     * logs); the registry gains it unless the id is already a key.
     */
    method SetRoot(id: Id, topic: string, data: Option<Value>)
      requires Valid()
      modifies this`root, this`nodes, this`rank, this`bound
      ensures root == Some(id)
      ensures nodes == if id in old(nodes) then old(nodes)
                       else old(nodes)[id := Some(NewNode(id, Num(0.0), topic, data, true, None, Center, false))]
      ensures old(root).None? ==> Valid() && Live(nodes, id) && Get(nodes, id).children == []
    {
      var n := NewNode(id, Num(0.0), topic, data, true, None, Center, false);
      if root.None? {
        rank, bound := map[id := 0], 0;
      }
      root := Some(id);
      var _ := PutNode(n);
    }

    /** resetIndex: the parent's children re-sorted by the comparator. */
    method ResetIndex(pid: Id)
      requires Live(nodes, pid)
      modifies this`nodes
      ensures nodes == Resorted(old(nodes), pid)
    {
      var p := nodes[pid].value;
      nodes := nodes[pid := Some(p.(children := SortByCompare(nodes, p.children)))];
    }

    /**
     * addNode: under a live parent and with a fresh id, the new node is put,
     * pushed onto the parent's children and the children are re-sorted;
     * otherwise nothing changes and there is no result.
     */
    method AddNode(pid: Id, id: Id, index: Index, topic: string, data: Option<Value>,
                   eDirection: Option<int>, expanded: bool) returns (r: Option<Node>)
      requires Valid()
      modifies this`nodes, this`rank, this`bound
      ensures Valid()
      ensures r.Some? <==> old(Live(nodes, pid)) && id !in old(nodes)
      ensures r.None? ==> nodes == old(nodes)
      ensures r.Some? ==>
        && nodes == Added(old(nodes), pid, id, index, topic, data, eDirection, expanded)
        && r.value == Get(nodes, id)
    {
      var parent := GetNode(pid);
      if parent.None? {
        return None;
      }
      var direction := ChildDirection(parent.value, eDirection);
      var node := NewNode(id, index, topic, data, false, Some(pid), direction, expanded);
      ghost var n0, r0, b0, top := nodes, rank, bound, root.value;
      assert node == Fresh(n0, pid, id, index, topic, data, eDirection, expanded);
      var ok := PutNode(node);
      if !ok {
        return None;
      }
      Attach(pid, node, n0, data, eDirection);
      return Some(node);
    }

    /**
     * addNode once putNode has succeeded: the new node is pushed onto the
     * parent's children and they are re-sorted; the tree is valid again with
     * the new node ranked just below its parent.
     */
    method Attach(pid: Id, node: Node, ghost n0: Nodes, ghost data: Option<Value>, ghost eDirection: Option<int>)
      requires root.Some? && Linked(n0, root.value, rank, bound) && DirectionsFlow(n0, root.value)
      requires selected.Some? ==> Live(n0, selected.value)
      requires Live(n0, pid) && node.id !in n0 && nodes == Put(n0, node)
      requires node == Fresh(n0, pid, node.id, node.index, node.topic, data, eDirection, node.expanded)
      modifies this`nodes, this`rank, this`bound
      ensures Valid()
      ensures nodes == Added(n0, pid, node.id, node.index, node.topic, data, eDirection, node.expanded)
      ensures Live(nodes, node.id) && Get(nodes, node.id) == node
    {
      assert LinkedAt(n0, root.value, rank, bound, pid);
      ghost var r0, b0, top, sel := rank, bound, root.value, selected;
      ghost var k: nat := r0[pid] + 1;
      Graft(pid, node.id);
      rank, bound := r0[node.id := k], if b0 < k then k else b0;
      AttachedValid(n0, pid, node, data, eDirection, r0, b0, k, top, sel);
    }

    /** `parent.children.push(id)` followed by resetIndex on the parent. */
    method Graft(pid: Id, id: Id)
      requires Live(nodes, pid)
      modifies this`nodes
      ensures nodes == Resorted(Pushed(old(nodes), pid, id), pid)
    {
      var n := nodes;
      var q := n[pid].value;
      nodes := n[pid := Some(q.(children := q.children + [id]))];
      assert nodes == Pushed(n, pid, id);
      ResetIndex(pid);
    }

    /** The state Attach leaves is valid, with the new node in place. */
    lemma AttachedValid(n0: Nodes, pid: Id, node: Node, data: Option<Value>, eDirection: Option<int>,
                        r0: map<Id, nat>, b0: nat, k: nat, top: Id, sel: Option<Id>)
      requires root == Some(top) && selected == sel
      requires Linked(n0, top, r0, b0) && DirectionsFlow(n0, top) && (sel.Some? ==> Live(n0, sel.value))
      requires Live(n0, pid) && LinkedAt(n0, top, r0, b0, pid) && node.id !in n0
      requires node == Fresh(n0, pid, node.id, node.index, node.topic, data, eDirection, node.expanded)
      requires k == r0[pid] + 1 && rank == r0[node.id := k] && bound == (if b0 < k then k else b0)
      requires nodes == Added(n0, pid, node.id, node.index, node.topic, data, eDirection, node.expanded)
      ensures Valid() && Live(nodes, node.id) && Get(nodes, node.id) == node
    {
      AddedLinked(n0, root.value, r0, b0, pid, node.id, node.index, node.topic, data, eDirection, node.expanded,
        k, rank, bound);
      AddedKeeps(n0, pid, node.id, node.index, node.topic, data, eDirection, node.expanded);
    }

    /** addNode's side for a new child of `p`: the balance loop under the root, the parent's side elsewhere. */
    method ChildDirection(p: Node, eDirection: Option<int>) returns (direction: Direction)
      requires Valid() && Live(nodes, p.id) && nodes[p.id] == Some(p)
      ensures direction == NewDirection(nodes, p.id, eDirection)
      ensures direction != Center
    {
      assert LinkedAt(nodes, root.value, rank, bound, p.id);
      direction := Right;
      if p.isRoot {
        if eDirection.None? {
          var cs := p.children;
          var result := 0;
          for i := 0 to |cs|
            invariant result == SideBalance(nodes, cs[..i])
          {
            assert cs[..i + 1][..i] == cs[..i];
            if Get(nodes, cs[i]).direction == Left {
              result := result - 1;
            } else {
              result := result + 1;
            }
          }
          assert cs[..|cs|] == cs;
          direction := if |cs| > 1 && result > 0 then Left else Right;
        } else {
          direction := if direction != Left then Right else Left;
        }
      } else {
        assert FlowsAt(nodes, root.value, p.id);
        direction := p.direction;
      }
    }

    /**
     * insertNodeBefore: a new node under the reference node's parent with
     * index `ref.index - 0.5`. The root has no parent, which the source
     * passes on as `undefined` and so looks up under that key.
     */
    method InsertNodeBefore(beforeId: Id, id: Id, topic: string, data: Option<Value>) returns (r: Option<Node>)
      requires Valid()
      modifies this`nodes, this`rank, this`bound
      ensures Valid()
      ensures r.None? ==> nodes == old(nodes)
      ensures r.Some? ==> old(Live(nodes, beforeId))
      ensures !old(Live(nodes, beforeId)) ==> r.None?
      ensures old(Live(nodes, beforeId)) ==>
        var b := old(Get(nodes, beforeId));
        var pid := if b.parent.Some? then b.parent.value else "undefined";
        && (r.Some? <==> old(Live(nodes, pid)) && id !in old(nodes))
        && (r.Some? ==> nodes == Added(old(nodes), pid, id, b.index.Minus(0.5), topic, data, None, false))
    {
      var b := GetNode(beforeId);
      if b.None? {
        return None;
      }
      var pid := if b.value.parent.Some? then b.value.parent.value else "undefined";
      r := AddNode(pid, id, b.value.index.Minus(0.5), topic, data, None, false);
    }

    /**
     * insertNodeAfter: an unknown id gives nothing; a known one makes the
     * method call itself with the same arguments, without end.
     */
    function InsertNodeAfter(afterId: Id): (r: Outcome)
      reads this
      ensures r == Diverges <==> Live(nodes, afterId)
    {
      if GetNode(afterId).None? then Missing else Diverges
    }

    /**
     * getNodeAfter: the sibling at array position `node.index` (the node's
     * own index read as a position), or nothing.
     */
    function GetNodeAfter(id: Id): (r: Option<Node>)
      requires Valid()
      reads this
      ensures r.Some? ==> Live(nodes, id) && id != root.value
      ensures r.Some? ==> Get(nodes, id).parent.Some? && Live(nodes, Get(nodes, id).parent.value)
      ensures r.Some? ==> var p := Get(nodes, id).parent.value;
        r.value.id in Get(nodes, p).children && r.value.parent == Some(p)
    {
      match GetNode(id)
      case None => None
      case Some(n) =>
        if n.isRoot then None
        else
          assert LinkedAt(nodes, root.value, rank, bound, id);
          assert LinkedAt(nodes, root.value, rank, bound, n.parent.value);
          var brothers := Get(nodes, n.parent.value).children;
          match n.index
          case Null => None
          case Num(x) =>
            if (|brothers| as real) < x then None
            else match Position(x, |brothers|)
              case None => None
              case Some(k) =>
                assert LinkedAt(nodes, root.value, rank, bound, brothers[k]);
                Some(Get(nodes, brothers[k]))
    }

    /** getNodeBefore: the sibling at array position `node.index - 2`, or nothing. */
    function GetNodeBefore(id: Id): (r: Option<Node>)
      requires Valid()
      reads this
      ensures r.Some? ==> Live(nodes, id) && id != root.value
      ensures r.Some? ==> Get(nodes, id).parent.Some? && Live(nodes, Get(nodes, id).parent.value)
      ensures r.Some? ==> var p := Get(nodes, id).parent.value;
        r.value.id in Get(nodes, p).children && r.value.parent == Some(p)
    {
      match GetNode(id)
      case None => None
      case Some(n) =>
        if n.isRoot then None
        else
          assert LinkedAt(nodes, root.value, rank, bound, id);
          assert LinkedAt(nodes, root.value, rank, bound, n.parent.value);
          var brothers := Get(nodes, n.parent.value).children;
          var x := n.index.Numeric() - 2.0;
          if x >= 0.0 then
            match Position(x, |brothers|)
            case None => None
            case Some(k) =>
              assert LinkedAt(nodes, root.value, rank, bound, brothers[k]);
              Some(Get(nodes, brothers[k]))
          else None
    }

    /**
     * The neighbour queries give the true next and previous sibling exactly
     * when the siblings carry the 1-based indices 1, 2, ..., n in order.
     */
    lemma NeighboursWhenOneBased(pid: Id, j: nat)
      requires Valid() && Live(nodes, pid)
      requires var cs := Get(nodes, pid).children;
        && j < |cs|
        && forall t | 0 <= t < |cs| :: Live(nodes, cs[t]) && Get(nodes, cs[t]).index == Num((t + 1) as real)
      ensures var cs := Get(nodes, pid).children;
        && GetNodeAfter(cs[j]) == (if j + 1 < |cs| then Some(Get(nodes, cs[j + 1])) else None)
        && GetNodeBefore(cs[j]) == (if j >= 1 then Some(Get(nodes, cs[j - 1])) else None)
    {
      var cs := Get(nodes, pid).children;
      assert LinkedAt(nodes, root.value, rank, bound, pid);
      assert LinkedAt(nodes, root.value, rank, bound, cs[j]);
      assert ((j + 1) as real).Floor == j + 1;
      assert ((j - 1) as real).Floor == j - 1;
    }

    /** _moveNodeInternal: positions the node among its siblings by `beforeId`. */
    method MoveNodeInternal(id: Id, beforeId: Option<string>)
      requires HasLiveParent(nodes, id) && PlaceSafe(nodes, beforeId)
      modifies this`nodes
      ensures nodes == Placed(old(nodes), id, beforeId)
    {
      var pid := nodes[id].value.parent.value;
      if beforeId == Some("_last_") {
        nodes := nodes[id := Some(nodes[id].value.(index := Num(-1.0)))];
        ResetIndex(pid);
      } else if beforeId == Some("_first_") {
        nodes := nodes[id := Some(nodes[id].value.(index := Num(0.0)))];
        ResetIndex(pid);
      } else {
        var before := if beforeId.Some? && beforeId.value != "" then GetNode(beforeId.value) else None;
        if before.Some? && before.value.parent.Some? && before.value.parent.value == pid {
          nodes := nodes[id := Some(nodes[id].value.(index := before.value.index.Minus(0.5)))];
          ResetIndex(pid);
        }
      }
    }

    /**
     * _flowNodeDirection: the node takes the given direction (or keeps its
     * own when none is given), and so does its whole subtree, children
     * walked from last to first.
     */
    method FlowNodeDirection(k: Id, direction: Option<Direction>, ghost top: Id, ghost r: map<Id, nat>, ghost b: nat)
      requires Linked(nodes, top, r, b) && Live(nodes, k)
      modifies this`nodes
      ensures nodes == Redirect(old(nodes), Subtree(old(nodes), r, k),
                                if direction.Some? then direction.value else old(Get(nodes, k).direction))
      decreases if k in r && r[k] <= b then b - r[k] else 0
    {
      var n := nodes;
      ghost var n0 := n;
      assert LinkedAt(n0, top, r, b, k);
      var nk := n[k].value;
      var d := if direction.Some? then direction.value else nk.direction;
      var cs := nk.children;
      nodes := n[k := Some(nk.(direction := d))];
      FlowedStart(n0, r, k, d);
      var i := |cs|;
      while i > 0
        invariant 0 <= i <= |cs| && cs == Get(n0, k).children
        invariant nodes == Redirect(n0, Flowed(n0, r, k, i), d)
      {
        ghost var x := nodes;
        FlowedChild(n0, top, r, b, k, i, d);
        FlowNodeDirection(cs[i - 1], Some(d), top, r, b);
        FlowedJoin(n0, top, r, b, k, i, d, x, nodes);
        i := i - 1;
      }
      FlowedEnd(n0, top, r, b, k, d);
    }

    /**
     * _moveNode's crash conditions: a root node (no parent), a new parent that
     * is not live, one inside the moved subtree (the flow would not end), and
     * the positioning ones.
     */
    ghost predicate MoveSafe(id: Id, beforeId: Option<string>, parentId: Option<string>)
      requires Valid()
      reads this
    {
      Live(nodes, id) ==>
        && root != Some(id)
        && var np := MoveTarget(id, parentId);
        && Live(nodes, np) && np !in Subtree(nodes, rank, id)
        && PlaceSafe(nodes, beforeId)
    }

    /** moveNode's parent: the given id, or the current parent when none (or "") is given. */
    function MoveTarget(id: Id, parentId: Option<string>): Id
      requires Valid() && Live(nodes, id) && root != Some(id)
      reads this
    {
      assert LinkedAt(nodes, root.value, rank, bound, id);
      if parentId.None? || parentId.value == "" then Get(nodes, id).parent.value else parentId.value
    }

    /**
     * moveNode: an unknown id gives nothing and changes nothing; otherwise the
     * registry becomes the composed move and the tree stays valid.
     */
    method MoveNode(id: Id, beforeId: Option<string>, parentId: Option<string>, direction: Option<int>)
      returns (r: Option<Node>)
      requires Valid() && MoveSafe(id, beforeId, parentId)
      modifies this`nodes, this`rank, this`bound
      ensures Valid()
      ensures r.Some? <==> old(Live(nodes, id))
      ensures r.None? ==> nodes == old(nodes)
      ensures r.Some? ==>
        && old(HasLiveParent(nodes, id) && Live(nodes, MoveTarget(id, parentId)))
        && nodes == Moved(old(nodes), old(rank), id, old(MoveTarget(id, parentId)), beforeId, direction)
        && r.value == Get(nodes, id)
    {
      var node := GetNode(id);
      if node.None? {
        return None;
      }
      var np := MoveTarget(id, parentId);
      r := Relocate(id, beforeId, np, direction);
    }

    /** _moveNode: reparent, take the new side, position, and push the side down the subtree. */
    method Relocate(id: Id, beforeId: Option<string>, np: Id, direction: Option<int>) returns (r: Option<Node>)
      requires Valid() && root.Some? && MoveSetting(nodes, root.value, rank, bound, id, np)
      requires PlaceSafe(nodes, beforeId)
      modifies this`nodes, this`rank, this`bound
      ensures Valid()
      ensures HasLiveParent(old(nodes), id) && Live(old(nodes), np)
      ensures nodes == Moved(old(nodes), old(rank), id, np, beforeId, direction)
      ensures r == Some(Get(nodes, id))
    {
      MoveChain(nodes, root.value, rank, bound, id, np, beforeId, direction);
      MovedValid(nodes, root.value, rank, bound, id, np, beforeId, direction);
      Reparent(id, np);
      var p := nodes[np].value;
      var d := if p.isRoot then (if direction == Some(-1) then Left else Right) else p.direction;
      Settle(id, beforeId, d);
      ValidAt(Moved(old(nodes), old(rank), id, np, beforeId, direction), old(root.value),
        MovedRank(old(nodes), old(rank), id, np), MovedBound(old(nodes), old(rank), old(bound), id, np), old(selected));
      return Some(nodes[id].value);
    }

    /** Valid() from its parts, given as values. */
    lemma ValidAt(a: Nodes, top: Id, r: map<Id, nat>, b: nat, sel: Option<Id>)
      requires nodes == a && root == Some(top) && rank == r && bound == b && selected == sel
      requires Linked(a, top, r, b) && DirectionsFlow(a, top) && (sel.Some? ==> Live(a, sel.value))
      ensures Valid()
    {
    }

    /**
     * _moveNode's last phases: the node takes the side `d` its new parent
     * gives it, is positioned among its new siblings (_moveNodeInternal),
     * and its side is pushed down its subtree.
     */
    method Settle(id: Id, beforeId: Option<string>, d: Direction)
      requires root.Some? && Live(nodes, id)
      requires var pt := Pointed(nodes, id, d);
        && Linked(pt, root.value, rank, bound) && HasLiveParent(pt, id) && Get(pt, id).parent.value != id
        && PlaceSafe(pt, beforeId)
      modifies this`nodes
      ensures var pl := Placed(Pointed(old(nodes), id, d), id, beforeId);
        nodes == Redirect(pl, Subtree(pl, rank, id), d)
    {
      var n := nodes;
      var me := n[id].value;
      nodes := n[id := Some(me.(direction := d))];
      PlacedStage(nodes, root.value, rank, bound, id, beforeId, d);
      MoveNodeInternal(id, beforeId);
      FlowNodeDirection(id, None, root.value, rank, bound);
    }

    /**
     * _moveNode's first phase: when the new parent differs, the node is
     * spliced out of the old parent's children (found by a backward search),
     * pointed at the new parent and pushed onto its children.
     */
    method Reparent(id: Id, np: Id)
      requires root.Some? && MoveSetting(nodes, root.value, rank, bound, id, np)
      modifies this`nodes, this`rank, this`bound
      ensures HasLiveParent(old(nodes), id) && old(id in rank && np in rank) && Live(old(nodes), np)
      ensures nodes == Reparented(old(nodes), id, np)
      ensures rank == MovedRank(old(nodes), old(rank), id, np)
      ensures bound == MovedBound(old(nodes), old(rank), old(bound), id, np)
    {
      ghost var n0, r0, b0 := nodes, rank, bound;
      MovedNodeFacts(n0, root.value, r0, b0, id, np);
      var op := nodes[id].value.parent.value;
      if op != np {
        assert LinkedAt(nodes, root.value, rank, bound, op);
        assert LinkedAt(nodes, root.value, rank, bound, id);
        var sibling := nodes[op].value.children;
        var i := LastIndexOf(sibling, id);
        SpliceFound(sibling, id, i);
        nodes := nodes[op := Some(nodes[op].value.(children := sibling[..i] + sibling[i + 1..]))];
        nodes := nodes[id := Some(nodes[id].value.(parent := Some(np)))];
        nodes := nodes[np := Some(nodes[np].value.(children := nodes[np].value.children + [id]))];
        rank, bound := MovedRank(n0, r0, id, np), MovedBound(n0, r0, b0, id, np);
      }
    }

    /**
     * removeNode: the root and unknown or removed ids are refused; any other
     * node's subtree is removed (children first, last to first), the node is
     * spliced out of its parent, and the selection is cleared when it was in
     * the subtree.
     */
    method RemoveNode(id: Id) returns (ok: bool)
      requires Valid()
      modifies this`nodes, this`selected
      ensures Valid()
      ensures ok <==> old(Live(nodes, id)) && old(root) != Some(id)
      ensures !ok ==> nodes == old(nodes) && selected == old(selected)
      ensures ok ==>
        && HasLiveParent(old(nodes), id)
        && nodes == Pruned(old(nodes), old(rank), id)
        && selected == (if old(selected).Some? && old(selected).value in Subtree(old(nodes), old(rank), id)
                        then None else old(selected))
      decreases if id in rank && rank[id] <= bound then bound - rank[id] else 0
    {
      var node := GetNode(id);
      if node.None? {
        return false;
      }
      if node.value.isRoot {
        return false;
      }
      ghost var n0, s0, top := nodes, selected, root.value;
      assert LinkedAt(n0, top, rank, bound, id);
      if selected.Some? && selected.value == id {
        selected := None;
      }
      ghost var cs := Get(n0, id).children;
      ClearedStart(n0, rank, id);
      var i := |node.value.children|;
      while i > 0
        invariant 0 <= i <= |cs|
        invariant Valid()
        invariant nodes == Cleared(n0, rank, id, i)
        invariant selected == (if s0.Some? && (s0.value == id || Below(n0, rank, cs, i, s0.value)) then None else s0)
      {
        ghost var x, sel := nodes, selected;
        ClearedChild(n0, top, id, i);
        var removed := RemoveNode(nodes[id].value.children[i - 1]);
        assert removed;
        ClearedAfter(n0, top, s0, id, i, x, sel);
        i := i - 1;
      }
      Detach(id, n0);
      RemovedValid(n0, s0, id);
      return true;
    }

    /** Before removing child `i-1`: it is live, not the root, ranked below the node and last in the list. */
    lemma ClearedChild(n0: Nodes, top: Id, id: Id, i: nat)
      requires Linked(n0, top, rank, bound) && Live(n0, id) && 0 < i <= |Get(n0, id).children|
      requires nodes == Cleared(n0, rank, id, i)
      ensures var c := Get(n0, id).children[i - 1];
        && Live(nodes, id) && nodes[id].value.children == Get(n0, id).children[..i]
        && nodes[id].value.children[i - 1] == c
        && HasLiveParent(nodes, c) && c != top
        && id in rank && c in rank && rank[id] < rank[c] <= bound
    {
      ClearedStep(n0, top, rank, bound, id, i);
      assert LinkedAt(n0, top, rank, bound, id);
      assert LinkedAt(n0, top, rank, bound, Get(n0, id).children[i - 1]);
      assert !Below(n0, rank, Get(n0, id).children, i, id) by {
        ClearedDisjoint(n0, top, rank, bound, id, i, id);
      }
    }

    /** After removing child `i-1` the registry is cleared down to `i-1`, and so is the selection. */
    lemma ClearedAfter(n0: Nodes, top: Id, s0: Option<Id>, id: Id, i: nat, x: Nodes, sel: Option<Id>)
      requires Linked(n0, top, rank, bound) && Live(n0, id) && 0 < i <= |Get(n0, id).children|
      requires x == Cleared(n0, rank, id, i)
      requires var cs := Get(n0, id).children;
        sel == (if s0.Some? && (s0.value == id || Below(n0, rank, cs, i, s0.value)) then None else s0)
      requires HasLiveParent(x, Get(n0, id).children[i - 1]) && nodes == Pruned(x, rank, Get(n0, id).children[i - 1])
      requires selected == (if sel.Some? && sel.value in Subtree(x, rank, Get(n0, id).children[i - 1]) then None else sel)
      ensures nodes == Cleared(n0, rank, id, i - 1)
      ensures var cs := Get(n0, id).children;
        selected == (if s0.Some? && (s0.value == id || Below(n0, rank, cs, i - 1, s0.value)) then None else s0)
    {
      var cs := Get(n0, id).children;
      ClearedStep(n0, top, rank, bound, id, i);
      if s0.Some? {
        BelowStep(n0, rank, cs, i, s0.value);
      }
    }

    /** What removeNode leaves is valid, and the selection is cleared exactly when it was in the subtree. */
    lemma RemovedValid(n0: Nodes, s0: Option<Id>, id: Id)
      requires root.Some? && Linked(n0, root.value, rank, bound) && DirectionsFlow(n0, root.value)
      requires Live(n0, id) && id != root.value && (s0.Some? ==> Live(n0, s0.value))
      requires HasLiveParent(n0, id) && nodes == Pruned(n0, rank, id)
      requires selected == (if s0.Some? && (s0.value == id || Below(n0, rank, Get(n0, id).children, 0, s0.value))
                            then None else s0)
      ensures Valid()
      ensures selected == (if s0.Some? && s0.value in Subtree(n0, rank, id) then None else s0)
    {
      PrunedLinked(n0, root.value, rank, bound, id);
      if s0.Some? {
        SubtreeSplit(n0, root.value, rank, bound, id, s0.value);
      }
    }

    /**
     * removeNode's tail: the emptied children list is truncated, the node is
     * spliced out of its parent's children (backward search) and its entry
     * becomes undefined.
     */
    method Detach(id: Id, ghost n0: Nodes)
      requires root.Some? && Linked(n0, root.value, rank, bound) && Live(n0, id) && id != root.value
      requires nodes == Cleared(n0, rank, id, 0)
      modifies this`nodes
      ensures HasLiveParent(n0, id) && nodes == Pruned(n0, rank, id)
    {
      ClearedFinish(n0, root.value, rank, bound, id);
      assert LinkedAt(n0, root.value, rank, bound, id);
      assert LinkedAt(n0, root.value, rank, bound, Get(n0, id).parent.value);
      nodes := nodes[id := Some(nodes[id].value.(children := []))];
      var p := nodes[id].value.parent.value;
      var sibling := nodes[p].value.children;
      var j := LastIndexOf(sibling, id);
      SpliceFound(sibling, id, j);
      nodes := nodes[p := Some(nodes[p].value.(children := sibling[..j] + sibling[j + 1..]))];
      nodes := nodes[id := None];
    }
  }
}
