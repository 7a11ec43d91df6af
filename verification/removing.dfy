/**
 * What Mind.removeNode does to the registry: every node of the subtree maps
 * to undefined (the key stays), and the node is spliced out of its parent's
 * children. The intermediate registries of its post-order walk are stated
 * too, so the recursive method can be proved step by step.
 */
module Removing {
  import opened Wrappers
  import opened MindNodes
  import opened MindTree
  import opened Moving

  /** The registry after removeNode(id) on a non-root node. */
  ghost function Pruned(nodes: Nodes, rank: map<Id, nat>, id: Id): Nodes
    requires HasLiveParent(nodes, id)
  {
    var s := Subtree(nodes, rank, id);
    var p := Get(nodes, id).parent.value;
    map k | k in nodes ::
      if k in s then None
      else if k == p then Some(Get(nodes, p).(children := Without(Get(nodes, p).children, id)))
      else nodes[k]
  }

  /**
   * The registry once the walk over `id`'s children (last to first) has
   * removed the subtrees of `cs[i..]`: those entries are undefined and `id`
   * keeps only `cs[..i]`.
   */
  ghost function Cleared(nodes: Nodes, rank: map<Id, nat>, id: Id, i: nat): Nodes
    requires Live(nodes, id) && i <= |Get(nodes, id).children|
  {
    var cs := Get(nodes, id).children;
    map k | k in nodes ::
      if Live(nodes, k) && Below(nodes, rank, cs, i, k) then None
      else if k == id then Some(Get(nodes, id).(children := cs[..i]))
      else nodes[k]
  }

  lemma SameEntries(a: Nodes, b: Nodes)
    requires a.Keys == b.Keys
    requires forall y | y in a :: y in b && a[y] == b[y]
    ensures a == b
  {
  }

  /** Removing a non-root subtree keeps the registry linked and directions flowing. */
  lemma PrunedLinked(nodes: Nodes, root: Id, rank: map<Id, nat>, bound: nat, id: Id)
    requires Linked(nodes, root, rank, bound) && Live(nodes, id) && id != root
    ensures HasLiveParent(nodes, id)
    ensures Linked(Pruned(nodes, rank, id), root, rank, bound)
    ensures DirectionsFlow(nodes, root) ==> DirectionsFlow(Pruned(nodes, rank, id), root)
  {
    assert LinkedAt(nodes, root, rank, bound, root);
    MovedNodeFacts(nodes, root, rank, bound, id, root);
    var s := Subtree(nodes, rank, id);
    var p := Get(nodes, id).parent.value;
    var q := Pruned(nodes, rank, id);
    assert root !in s by {
      if root in s {
        InsideParent(nodes, root, rank, bound, id, root);
      }
    }
    forall k | Live(q, k) ensures LinkedAt(q, root, rank, bound, k) {
      PrunedAt(nodes, root, rank, bound, id, k);
    }
    if DirectionsFlow(nodes, root) {
      forall k | Live(q, k) && k != root ensures FlowsAt(q, root, k) {
        assert FlowsAt(nodes, root, k);
        OutsideParent(nodes, root, rank, bound, id, k);
      }
    }
  }

  lemma PrunedAt(nodes: Nodes, root: Id, rank: map<Id, nat>, bound: nat, id: Id, k: Id)
    requires Linked(nodes, root, rank, bound) && Live(nodes, id) && id != root
    requires Live(nodes, k) && k !in Subtree(nodes, rank, id)
    ensures HasLiveParent(nodes, id)
    ensures LinkedAt(Pruned(nodes, rank, id), root, rank, bound, k)
  {
    assert LinkedAt(nodes, root, rank, bound, root);
    MovedNodeFacts(nodes, root, rank, bound, id, root);
    var s := Subtree(nodes, rank, id);
    var p := Get(nodes, id).parent.value;
    var q := Pruned(nodes, rank, id);
    assert LinkedAt(nodes, root, rank, bound, k);
    var cs := Get(nodes, k).children;
    if k == p {
      WithoutDistinct(cs, id);
      var t := Without(cs, id);
      forall i | 0 <= i < |t| ensures Live(q, t[i]) && Get(q, t[i]).parent == Some(k) {
        assert t[i] in cs;
        var j :| 0 <= j < |cs| && cs[j] == t[i];
      }
    } else {
      assert forall i | 0 <= i < |cs| :: Live(q, cs[i]) && Get(q, cs[i]).parent == Some(k);
    }
    if k != root {
      var pk := Get(nodes, k).parent.value;
      OutsideParent(nodes, root, rank, bound, id, k);
      assert k in Get(nodes, pk).children;
      if pk == p {
        assert k != id;
      }
      assert k in Get(q, pk).children;
    }
  }

  lemma ClearedStart(nodes: Nodes, rank: map<Id, nat>, id: Id)
    requires Live(nodes, id)
    ensures Cleared(nodes, rank, id, |Get(nodes, id).children|) == nodes
  {
    var cs := Get(nodes, id).children;
    assert cs[..|cs|] == cs;
  }

  /** In the cleared registry a node's live status and links are as before, unless it was removed. */
  lemma ClearedRegion(nodes: Nodes, root: Id, rank: map<Id, nat>, bound: nat, id: Id, i: nat, x: Id, a: Id)
    requires Linked(nodes, root, rank, bound) && Live(nodes, id) && i <= |Get(nodes, id).children|
    requires Live(nodes, x) && !Below(nodes, rank, Get(nodes, id).children, i, x)
    ensures Descends(Cleared(nodes, rank, id, i), rank, x, a) == Descends(nodes, rank, x, a)
  {
    var cs := Get(nodes, id).children;
    var c := Cleared(nodes, rank, id, i);
    var t := set y | y in nodes && Live(nodes, y) && !Below(nodes, rank, cs, i, y);
    forall y | y in t
      ensures && Live(c, y) && Live(nodes, y) && Get(c, y).parent == Get(nodes, y).parent
              && (y in rank <==> y in rank) && (y in rank ==> rank[y] == rank[y])
              && (Get(c, y).parent.Some? ==> Get(c, y).parent.value in t)
    {
      assert LinkedAt(nodes, root, rank, bound, y);
    }
    DescendsAgree(c, rank, nodes, rank, t, x, a);
  }

  /** The subtree of `cs[i-1]` is disjoint from those already removed, and none holds `id`. */
  lemma ClearedDisjoint(nodes: Nodes, root: Id, rank: map<Id, nat>, bound: nat, id: Id, i: nat, y: Id)
    requires Linked(nodes, root, rank, bound) && Live(nodes, id)
    requires 0 < i <= |Get(nodes, id).children|
    requires Live(nodes, y) && (y == id || Descends(nodes, rank, y, Get(nodes, id).children[i - 1]))
    ensures !Below(nodes, rank, Get(nodes, id).children, i, y)
  {
    var cs := Get(nodes, id).children;
    assert LinkedAt(nodes, root, rank, bound, id);
    if Below(nodes, rank, cs, i, y) {
      var j :| i <= j < |cs| && Descends(nodes, rank, y, cs[j]);
      assert LinkedAt(nodes, root, rank, bound, cs[j]);
      if y == id {
        DescendsRank(nodes, rank, id, cs[j]);
      } else {
        assert LinkedAt(nodes, root, rank, bound, cs[i - 1]);
        SiblingSubtreesDisjoint(nodes, root, rank, bound, cs[i - 1], cs[j], y);
      }
    }
  }

  /** Clearing `cs[i..]` leaves the subtree of `cs[i-1]` as it was. */
  lemma ClearedSubtree(nodes: Nodes, root: Id, rank: map<Id, nat>, bound: nat, id: Id, i: nat)
    requires Linked(nodes, root, rank, bound) && Live(nodes, id)
    requires 0 < i <= |Get(nodes, id).children|
    ensures var cs := Get(nodes, id).children; var x := Cleared(nodes, rank, id, i);
      && HasLiveParent(x, cs[i - 1]) && Get(x, cs[i - 1]).parent == Some(id) && cs[i - 1] != root
      && Subtree(x, rank, cs[i - 1]) == Subtree(nodes, rank, cs[i - 1])
  {
    var cs := Get(nodes, id).children;
    var x := Cleared(nodes, rank, id, i);
    var c := cs[i - 1];
    assert LinkedAt(nodes, root, rank, bound, id);
    assert LinkedAt(nodes, root, rank, bound, c);
    ClearedDisjoint(nodes, root, rank, bound, id, i, c);
    ClearedDisjoint(nodes, root, rank, bound, id, i, id);
    forall y | y in x ensures (y in Subtree(x, rank, c)) == (y in Subtree(nodes, rank, c)) {
      if Live(nodes, y) && Descends(nodes, rank, y, c) {
        ClearedDisjoint(nodes, root, rank, bound, id, i, y);
      }
      if Live(nodes, y) && !Below(nodes, rank, cs, i, y) {
        ClearedRegion(nodes, root, rank, bound, id, i, y, c);
      }
    }
  }

  /**
   * The recursive call on child `cs[i-1]` turns the registry cleared down to
   * `i` into the one cleared down to `i - 1`.
   */
  lemma ClearedStep(nodes: Nodes, root: Id, rank: map<Id, nat>, bound: nat, id: Id, i: nat)
    requires Linked(nodes, root, rank, bound) && Live(nodes, id)
    requires 0 < i <= |Get(nodes, id).children|
    ensures var cs := Get(nodes, id).children; var x := Cleared(nodes, rank, id, i);
      && HasLiveParent(x, cs[i - 1]) && Get(x, cs[i - 1]).parent == Some(id) && cs[i - 1] != root
      && Subtree(x, rank, cs[i - 1]) == Subtree(nodes, rank, cs[i - 1])
      && Pruned(x, rank, cs[i - 1]) == Cleared(nodes, rank, id, i - 1)
  {
    ClearedSubtree(nodes, root, rank, bound, id, i);
    ClearedPruned(nodes, root, rank, bound, id, i);
  }

  lemma ClearedPruned(nodes: Nodes, root: Id, rank: map<Id, nat>, bound: nat, id: Id, i: nat)
    requires Linked(nodes, root, rank, bound) && Live(nodes, id)
    requires 0 < i <= |Get(nodes, id).children|
    requires var x := Cleared(nodes, rank, id, i); var cs := Get(nodes, id).children;
      && HasLiveParent(x, cs[i - 1]) && Get(x, cs[i - 1]).parent == Some(id)
      && Subtree(x, rank, cs[i - 1]) == Subtree(nodes, rank, cs[i - 1])
    ensures var cs := Get(nodes, id).children; var x := Cleared(nodes, rank, id, i);
      Pruned(x, rank, cs[i - 1]) == Cleared(nodes, rank, id, i - 1)
  {
    var cs := Get(nodes, id).children;
    var x := Cleared(nodes, rank, id, i);
    var a := Pruned(x, rank, cs[i - 1]);
    var b := Cleared(nodes, rank, id, i - 1);
    forall y | y in a ensures y in b && a[y] == b[y] {
      ClearedStepAt(nodes, root, rank, bound, id, i, y);
    }
    SameEntries(a, b);
  }

  lemma ClearedStepAt(nodes: Nodes, root: Id, rank: map<Id, nat>, bound: nat, id: Id, i: nat, y: Id)
    requires Linked(nodes, root, rank, bound) && Live(nodes, id)
    requires 0 < i <= |Get(nodes, id).children|
    requires y in nodes
    requires var x := Cleared(nodes, rank, id, i); var cs := Get(nodes, id).children;
      && HasLiveParent(x, cs[i - 1]) && Get(x, cs[i - 1]).parent == Some(id)
      && Subtree(x, rank, cs[i - 1]) == Subtree(nodes, rank, cs[i - 1])
    ensures var x := Cleared(nodes, rank, id, i); var cs := Get(nodes, id).children;
      Pruned(x, rank, cs[i - 1])[y] == Cleared(nodes, rank, id, i - 1)[y]
  {
    var cs := Get(nodes, id).children;
    var c := cs[i - 1];
    var x := Cleared(nodes, rank, id, i);
    BelowStep(nodes, rank, cs, i, y);
    if y == id {
      ClearedIdStep(nodes, root, rank, bound, id, i);
    } else if y in Subtree(nodes, rank, c) {
      assert Pruned(x, rank, c)[y] == None;
    } else {
      assert Pruned(x, rank, c)[y] == x[y];
    }
  }

  /** The node being removed loses one child from its children per step. */
  lemma ClearedIdStep(nodes: Nodes, root: Id, rank: map<Id, nat>, bound: nat, id: Id, i: nat)
    requires Linked(nodes, root, rank, bound) && Live(nodes, id)
    requires 0 < i <= |Get(nodes, id).children|
    requires var x := Cleared(nodes, rank, id, i); var cs := Get(nodes, id).children;
      && HasLiveParent(x, cs[i - 1]) && Get(x, cs[i - 1]).parent == Some(id)
      && Subtree(x, rank, cs[i - 1]) == Subtree(nodes, rank, cs[i - 1])
    ensures var x := Cleared(nodes, rank, id, i); var cs := Get(nodes, id).children;
      Pruned(x, rank, cs[i - 1])[id] == Cleared(nodes, rank, id, i - 1)[id]
  {
    var cs := Get(nodes, id).children;
    var c := cs[i - 1];
    var x := Cleared(nodes, rank, id, i);
    assert LinkedAt(nodes, root, rank, bound, id);
    WithoutPrefixLast(cs, i);
    ClearedDisjoint(nodes, root, rank, bound, id, i, id);
    BelowStep(nodes, rank, cs, i, id);
    assert LinkedAt(nodes, root, rank, bound, c);
    assert !Descends(nodes, rank, id, c) by {
      if Descends(nodes, rank, id, c) {
        DescendsRank(nodes, rank, id, c);
      }
    }
    assert x[id] == Some(Get(nodes, id).(children := cs[..i]));
  }

  /**
   * After all children are done, splicing the node out of its parent and
   * setting its entry to undefined gives the pruned registry.
   */
  lemma ClearedFinish(nodes: Nodes, root: Id, rank: map<Id, nat>, bound: nat, id: Id)
    requires Linked(nodes, root, rank, bound) && Live(nodes, id) && id != root
    ensures HasLiveParent(nodes, id)
    ensures var x := Cleared(nodes, rank, id, 0); var p := Get(nodes, id).parent.value;
      && Live(x, p) && x[p] == nodes[p] && Live(x, id) && Get(x, id).children == []
      && Moving.Unlinked(x, p, id)[id := None] == Pruned(nodes, rank, id)
  {
    assert LinkedAt(nodes, root, rank, bound, root);
    MovedNodeFacts(nodes, root, rank, bound, id, root);
    var cs := Get(nodes, id).children;
    var x := Cleared(nodes, rank, id, 0);
    var p := Get(nodes, id).parent.value;
    var s := Subtree(nodes, rank, id);
    assert !Below(nodes, rank, cs, 0, id) by {
      if Below(nodes, rank, cs, 0, id) {
        SubtreeSplit(nodes, root, rank, bound, id, id);
        var j :| 0 <= j < |cs| && Descends(nodes, rank, id, cs[j]);
        assert LinkedAt(nodes, root, rank, bound, id);
        assert LinkedAt(nodes, root, rank, bound, cs[j]);
        DescendsRank(nodes, rank, id, cs[j]);
      }
    }
    assert !Below(nodes, rank, cs, 0, p) by {
      SubtreeSplit(nodes, root, rank, bound, id, p);
    }
    var z := Moving.Unlinked(x, p, id)[id := None];
    var b := Pruned(nodes, rank, id);
    forall y | y in z ensures y in b && z[y] == b[y] {
      ClearedFinishAt(nodes, root, rank, bound, id, y);
    }
    SameEntries(z, b);
  }

  lemma ClearedFinishAt(nodes: Nodes, root: Id, rank: map<Id, nat>, bound: nat, id: Id, y: Id)
    requires Linked(nodes, root, rank, bound) && Live(nodes, id) && id != root && y in nodes
    requires HasLiveParent(nodes, id)
    requires var p := Get(nodes, id).parent.value;
      p != id && !Below(nodes, rank, Get(nodes, id).children, 0, p) && p !in Subtree(nodes, rank, id)
    ensures var x := Cleared(nodes, rank, id, 0); var p := Get(nodes, id).parent.value;
      Moving.Unlinked(x, p, id)[id := None][y] == Pruned(nodes, rank, id)[y]
  {
    if Live(nodes, y) {
      SubtreeSplit(nodes, root, rank, bound, id, y);
    }
  }
}
