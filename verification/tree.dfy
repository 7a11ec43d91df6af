/**
 * The shape of the node registry (`Mind.nodes`): the id -> node map, the parent
 * and child links between its live entries, the sibling sort the tree store
 * applies (Array.prototype.sort with MindNode.compare), and ancestry
 * (MindNode.inherited).
 *
 * Termination of every walk over the tree rests on a ghost `rank`: each node
 * ranks strictly above its parent, and no rank exceeds `bound`.
 */
module MindTree {
  import opened Wrappers
  import opened MindNodes

  /** Mind.nodes: an id maps to its node, or to None once removeNode has set it to undefined. */
  type Nodes = map<Id, Option<Node>>

  predicate Live(nodes: Nodes, k: Id) {
    k in nodes && nodes[k].Some?
  }

  function Get(nodes: Nodes, k: Id): Node
    requires Live(nodes, k)
  {
    nodes[k].value
  }

  predicate Distinct(s: seq<Id>) {
    forall i, j | 0 <= i < j < |s| :: s[i] != s[j]
  }

  /** The links of one live node: its children point back to it, and it sits once in its parent's list. */
  ghost predicate LinkedAt(nodes: Nodes, root: Id, rank: map<Id, nat>, bound: nat, k: Id)
    requires Live(nodes, k)
  {
    var n := Get(nodes, k);
    && n.id == k && k in rank && rank[k] <= bound
    && Distinct(n.children)
    && (forall i | 0 <= i < |n.children| ::
          Live(nodes, n.children[i]) && Get(nodes, n.children[i]).parent == Some(k))
    && (k == root <==> n.isRoot)
    && (k == root ==> n.parent.None?)
    && (k != root ==>
          && n.parent.Some? && Live(nodes, n.parent.value) && n.parent.value in rank
          && rank[n.parent.value] < rank[k] && k in Get(nodes, n.parent.value).children)
  }

  /** A populated registry: one root, and every live entry correctly linked. */
  ghost predicate Linked(nodes: Nodes, root: Id, rank: map<Id, nat>, bound: nat) {
    Live(nodes, root) && forall k {:trigger LinkedAt(nodes, root, rank, bound, k)} | Live(nodes, k) :: LinkedAt(nodes, root, rank, bound, k)
  }

  /** A non-root node is left or right, and below a root child it has its parent's direction. */
  ghost predicate FlowsAt(nodes: Nodes, root: Id, k: Id)
    requires Live(nodes, k)
  {
    var n := Get(nodes, k);
    && n.direction != Center
    && (n.parent.Some? && n.parent.value != root && Live(nodes, n.parent.value) ==>
          n.direction == Get(nodes, n.parent.value).direction)
  }

  /** Direction flows downward from each root child. */
  ghost predicate DirectionsFlow(nodes: Nodes, root: Id) {
    forall k {:trigger FlowsAt(nodes, root, k)} | Live(nodes, k) && k != root :: FlowsAt(nodes, root, k)
  }

  /** `a` is `k` or one of its ancestors: the parent chain from `k` reaches `a`. */
  ghost function Descends(nodes: Nodes, rank: map<Id, nat>, k: Id, a: Id): bool
    decreases if k in rank then rank[k] else 0
  {
    if k == a then true
    else if Live(nodes, k) && Get(nodes, k).parent.Some? && k in rank
            && Get(nodes, k).parent.value in rank && rank[Get(nodes, k).parent.value] < rank[k]
    then Descends(nodes, rank, Get(nodes, k).parent.value, a)
    else false
  }

  /** The live nodes of the subtree rooted at `a`, `a` included. */
  ghost function Subtree(nodes: Nodes, rank: map<Id, nat>, a: Id): set<Id> {
    set k | k in nodes && Live(nodes, k) && Descends(nodes, rank, k, a)
  }

  /** The registry is the tree: every live node descends from the root. */
  lemma {:induction false} DescendsFromRoot(nodes: Nodes, root: Id, rank: map<Id, nat>, bound: nat, k: Id)
    requires Linked(nodes, root, rank, bound) && Live(nodes, k)
    ensures Descends(nodes, rank, k, root)
    decreases if k in rank then rank[k] else 0
  {
    assert LinkedAt(nodes, root, rank, bound, k);
    if k != root {
      DescendsFromRoot(nodes, root, rank, bound, Get(nodes, k).parent.value);
    }
  }

  /** Ancestors rank strictly lower than their descendants. */
  lemma {:induction false} DescendsRank(nodes: Nodes, rank: map<Id, nat>, k: Id, a: Id)
    requires Descends(nodes, rank, k, a) && k != a
    ensures k in rank && a in rank && rank[a] < rank[k]
    decreases if k in rank then rank[k] else 0
  {
    var p := Get(nodes, k).parent.value;
    if p != a {
      DescendsRank(nodes, rank, p, a);
    }
  }

  /** An ancestor of an ancestor is an ancestor. */
  lemma {:induction false} DescendsTransitive(nodes: Nodes, rank: map<Id, nat>, k: Id, a: Id, b: Id)
    requires Descends(nodes, rank, k, a) && Descends(nodes, rank, a, b)
    ensures Descends(nodes, rank, k, b)
    decreases if k in rank then rank[k] else 0
  {
    if k != a && k != b {
      DescendsTransitive(nodes, rank, Get(nodes, k).parent.value, a, b);
    }
  }

  /** Nothing but the root itself lies above the root. */
  lemma RootDescendsOnlyFromItself(nodes: Nodes, root: Id, rank: map<Id, nat>, bound: nat, a: Id)
    requires Linked(nodes, root, rank, bound)
    ensures Descends(nodes, rank, root, a) <==> a == root
  {
    assert LinkedAt(nodes, root, rank, bound, root);
  }

  /** A child of a node in the subtree of `a` is in it too. */
  lemma ChildDescends(nodes: Nodes, root: Id, rank: map<Id, nat>, bound: nat, c: Id, a: Id)
    requires Linked(nodes, root, rank, bound) && Live(nodes, c) && c != root && LinkedAt(nodes, root, rank, bound, c)
    requires Descends(nodes, rank, Get(nodes, c).parent.value, a)
    ensures Descends(nodes, rank, c, a)
  {
    assert LinkedAt(nodes, root, rank, bound, c);
  }

  /** The ancestors of a node form a chain: any two of them are ordered. */
  lemma {:induction false} AncestorsOrdered(nodes: Nodes, root: Id, rank: map<Id, nat>, bound: nat, k: Id, a: Id, b: Id)
    requires Linked(nodes, root, rank, bound) && Live(nodes, k)
    requires Descends(nodes, rank, k, a) && Descends(nodes, rank, k, b)
    ensures Descends(nodes, rank, a, b) || Descends(nodes, rank, b, a)
    decreases if k in rank then rank[k] else 0
  {
    assert LinkedAt(nodes, root, rank, bound, k);
    if k != a && k != b {
      var p := Get(nodes, k).parent.value;
      AncestorsOrdered(nodes, root, rank, bound, p, a, b);
    }
  }

  /** Two distinct children of one node have disjoint subtrees. */
  lemma SiblingSubtreesDisjoint(nodes: Nodes, root: Id, rank: map<Id, nat>, bound: nat, a: Id, b: Id, k: Id)
    requires Linked(nodes, root, rank, bound) && Live(nodes, a) && Live(nodes, b) && a != b
    requires a != root && b != root && Get(nodes, a).parent == Get(nodes, b).parent
    requires Live(nodes, k) && Descends(nodes, rank, k, a)
    ensures !Descends(nodes, rank, k, b)
  {
    assert LinkedAt(nodes, root, rank, bound, a);
    assert LinkedAt(nodes, root, rank, bound, b);
    if Descends(nodes, rank, k, b) {
      AncestorsOrdered(nodes, root, rank, bound, k, a, b);
      if Descends(nodes, rank, a, b) {
        DescendsRank(nodes, rank, a, b);
        var p := Get(nodes, a).parent.value;
        if p != b {
          DescendsRank(nodes, rank, p, b);
        }
      } else {
        DescendsRank(nodes, rank, b, a);
        var p := Get(nodes, b).parent.value;
        if p != a {
          DescendsRank(nodes, rank, p, a);
        }
      }
    }
  }

  /** A proper descendant of `a` lies in the subtree of one of `a`'s children. */
  lemma {:induction false} BelowSomeChild(nodes: Nodes, root: Id, rank: map<Id, nat>, bound: nat, k: Id, a: Id)
    returns (i: nat)
    requires Linked(nodes, root, rank, bound) && Live(nodes, k) && Live(nodes, a)
    requires Descends(nodes, rank, k, a) && k != a
    ensures i < |Get(nodes, a).children| && Descends(nodes, rank, k, Get(nodes, a).children[i])
    decreases rank[k]
  {
    assert LinkedAt(nodes, root, rank, bound, k);
    var p := Get(nodes, k).parent.value;
    if p == a {
      var cs := Get(nodes, a).children;
      i :| 0 <= i < |cs| && cs[i] == k;
    } else {
      i := BelowSomeChild(nodes, root, rank, bound, p, a);
      assert LinkedAt(nodes, root, rank, bound, a);
      ChildDescends(nodes, root, rank, bound, k, Get(nodes, a).children[i]);
    }
  }

  /**
   * Two registries agree on ancestry for nodes of an upward-closed region `s`
   * whose entries, parents and ranks are the same in both.
   */
  lemma {:induction false} DescendsAgree(n1: Nodes, r1: map<Id, nat>, n2: Nodes, r2: map<Id, nat>, s: set<Id>, k: Id, a: Id)
    requires k in s
    requires forall x | x in s ::
      && Live(n1, x) && Live(n2, x) && Get(n1, x).parent == Get(n2, x).parent
      && (x in r1 <==> x in r2) && (x in r1 ==> r1[x] == r2[x])
      && (Get(n1, x).parent.Some? ==> Get(n1, x).parent.value in s)
    ensures Descends(n1, r1, k, a) == Descends(n2, r2, k, a)
    decreases if k in r1 then r1[k] else 0
  {
    if k != a && Get(n1, k).parent.Some? {
      var p := Get(n1, k).parent.value;
      if k in r1 && p in r1 && r1[p] < r1[k] {
        DescendsAgree(n1, r1, n2, r2, s, p, a);
      }
    }
  }

  /** `k` lies in the subtree of one of `cs[i..]`. */
  ghost predicate Below(nodes: Nodes, rank: map<Id, nat>, cs: seq<Id>, i: nat, k: Id) {
    exists j | i <= j < |cs| :: Descends(nodes, rank, k, cs[j])
  }

  /** One more child done: the walk has also removed the subtree of `cs[i-1]`. */
  lemma BelowStep(nodes: Nodes, rank: map<Id, nat>, cs: seq<Id>, i: nat, x: Id)
    requires 0 < i <= |cs|
    ensures Below(nodes, rank, cs, i - 1, x) == (Below(nodes, rank, cs, i, x) || Descends(nodes, rank, x, cs[i - 1]))
  {
    if Below(nodes, rank, cs, i - 1, x) {
      var j :| i - 1 <= j < |cs| && Descends(nodes, rank, x, cs[j]);
      if j >= i {
        assert Below(nodes, rank, cs, i, x);
      }
    }
  }

  /** The subtree of a node is the node and the subtrees of its children. */
  lemma SubtreeSplit(nodes: Nodes, root: Id, rank: map<Id, nat>, bound: nat, id: Id, x: Id)
    requires Linked(nodes, root, rank, bound) && Live(nodes, id) && Live(nodes, x)
    ensures x in Subtree(nodes, rank, id) <==> x == id || Below(nodes, rank, Get(nodes, id).children, 0, x)
  {
    var cs := Get(nodes, id).children;
    if x in Subtree(nodes, rank, id) && x != id {
      var i := BelowSomeChild(nodes, root, rank, bound, x, id);
    }
    if Below(nodes, rank, cs, 0, x) {
      var j :| 0 <= j < |cs| && Descends(nodes, rank, x, cs[j]);
      assert LinkedAt(nodes, root, rank, bound, id);
      assert LinkedAt(nodes, root, rank, bound, cs[j]);
      ChildDescends(nodes, root, rank, bound, cs[j], id);
      DescendsTransitive(nodes, rank, x, cs[j], id);
    }
  }

  /**
   * Two linked registries under one root with the same live nodes, each
   * under the same parent, give every node the same children (up to order).
   */
  lemma ParentsDetermineChildren(n1: Nodes, n2: Nodes, root: Id, r1: map<Id, nat>, b1: nat,
                                 r2: map<Id, nat>, b2: nat, k: Id)
    requires Linked(n1, root, r1, b1) && Linked(n2, root, r2, b2)
    requires forall x :: Live(n1, x) <==> Live(n2, x)
    requires forall x | Live(n1, x) && Live(n2, x) :: Get(n1, x).parent == Get(n2, x).parent
    requires Live(n1, k)
    ensures forall c :: c in Get(n2, k).children <==> c in Get(n1, k).children
  {
    assert LinkedAt(n1, root, r1, b1, k) && LinkedAt(n2, root, r2, b2, k);
    forall c ensures c in Get(n2, k).children <==> c in Get(n1, k).children {
      if c in Get(n2, k).children {
        assert LinkedAt(n1, root, r1, b1, c);
      }
      if c in Get(n1, k).children {
        assert LinkedAt(n2, root, r2, b2, c);
      }
    }
  }

  /** Two nodes with the same identity, parent, root flag and children (in any order). */
  predicate SameLinks(x: Node, y: Node) {
    x.id == y.id && x.parent == y.parent && x.isRoot == y.isRoot
    && multiset(x.children) == multiset(y.children)
  }

  /**
   * Two registries of the same shape: the same keys, the same live entries,
   * and the same links; they may differ in index, topic, payload, direction,
   * expansion and the order of children.
   */
  ghost predicate SameShape(n1: Nodes, n2: Nodes) {
    && n1.Keys == n2.Keys
    && (forall k | k in n1 :: n1[k].Some? <==> n2[k].Some?)
    && (forall k | Live(n1, k) :: SameLinks(Get(n1, k), Get(n2, k)))
  }

  /** Reordering children or editing non-link fields keeps the registry linked. */
  lemma ShapeLinked(n1: Nodes, n2: Nodes, root: Id, rank: map<Id, nat>, bound: nat)
    requires Linked(n1, root, rank, bound) && SameShape(n1, n2)
    ensures Linked(n2, root, rank, bound)
  {
    forall k | Live(n2, k) ensures LinkedAt(n2, root, rank, bound, k) {
      assert LinkedAt(n1, root, rank, bound, k);
      var c1, c2 := Get(n1, k).children, Get(n2, k).children;
      DistinctPermutation(c1, c2);
      forall i | 0 <= i < |c2|
        ensures Live(n2, c2[i]) && Get(n2, c2[i]).parent == Some(k)
      {
        assert c2[i] in multiset(c1);
        var j :| 0 <= j < |c1| && c1[j] == c2[i];
      }
      if k != root {
        var q := Get(n1, k).parent.value;
        assert k in multiset(Get(n1, q).children);
        assert k in multiset(Get(n2, q).children);
      }
    }
  }

  lemma ShapeTransitive(n1: Nodes, n2: Nodes, n3: Nodes)
    requires SameShape(n1, n2) && SameShape(n2, n3)
    ensures SameShape(n1, n3)
  {
  }

  /** Registries of the same shape agree on ancestry. */
  lemma {:induction false} ShapeDescends(n1: Nodes, n2: Nodes, rank: map<Id, nat>, k: Id, a: Id)
    requires SameShape(n1, n2)
    ensures Descends(n1, rank, k, a) == Descends(n2, rank, k, a)
    decreases if k in rank then rank[k] else 0
  {
    if k != a && Live(n1, k) && Get(n1, k).parent.Some? && k in rank {
      var p := Get(n1, k).parent.value;
      if p in rank && rank[p] < rank[k] {
        ShapeDescends(n1, n2, rank, p, a);
      }
    }
  }

  /** Registries of the same shape have the same subtrees. */
  lemma ShapeSubtree(n1: Nodes, n2: Nodes, rank: map<Id, nat>, a: Id)
    requires SameShape(n1, n2)
    ensures Subtree(n1, rank, a) == Subtree(n2, rank, a)
  {
    forall k | k in n1 ensures Descends(n1, rank, k, a) == Descends(n2, rank, k, a) {
      ShapeDescends(n1, n2, rank, k, a);
    }
  }

  // ---------------------------------------------------------------------------
  // Sibling order: resetIndex sorts a children list with MindNode.compare.
  // ---------------------------------------------------------------------------

  /** The index the comparator reads for an id. */
  function IndexIn(nodes: Nodes, k: Id): Index {
    if Live(nodes, k) then Get(nodes, k).index else Null
  }

  /** Every pair in order compares <= 0. */
  ghost predicate Sorted(nodes: Nodes, s: seq<Id>) {
    forall i, j | 0 <= i < j < |s| :: Compare(IndexIn(nodes, s[i]), IndexIn(nodes, s[j])) <= 0.0
  }

  /**
   * Where a stable insertion places `x` in `s`: after the last element that
   * does not compare greater than `x`, scanning from the end.
   */
  function InsertPos(nodes: Nodes, s: seq<Id>, x: Id): (k: nat)
    ensures k <= |s|
    ensures forall j | k <= j < |s| :: Compare(IndexIn(nodes, s[j]), IndexIn(nodes, x)) > 0.0
    ensures k > 0 ==> Compare(IndexIn(nodes, s[k - 1]), IndexIn(nodes, x)) <= 0.0
  {
    if s == [] then 0
    else if Compare(IndexIn(nodes, s[|s| - 1]), IndexIn(nodes, x)) > 0.0 then InsertPos(nodes, s[..|s| - 1], x)
    else |s|
  }

  function InsertByCompare(nodes: Nodes, s: seq<Id>, x: Id): (t: seq<Id>)
    ensures multiset(t) == multiset(s) + multiset{x}
  {
    var k := InsertPos(nodes, s, x);
    assert s == s[..k] + s[k..];
    s[..k] + [x] + s[k..]
  }

  /**
   * `children.sort(MindNode.compare)`, as a stable insertion sort. With a
   * comparator that is not a preorder (an index such as -0.5 among others) a
   * JS engine may order differently; on regular indices every stable sort agrees.
   */
  function SortByCompare(nodes: Nodes, s: seq<Id>): (t: seq<Id>)
    ensures multiset(t) == multiset(s)
    ensures |t| == |s|
  {
    if s == [] then []
    else
      assert s == s[..|s| - 1] + [s[|s| - 1]];
      InsertByCompare(nodes, SortByCompare(nodes, s[..|s| - 1]), s[|s| - 1])
  }

  /** Inserting into a sorted list of regular indices keeps it sorted. */
  lemma InsertKeepsSorted(nodes: Nodes, s: seq<Id>, x: Id)
    requires Sorted(nodes, s)
    requires forall j | 0 <= j < |s| :: Regular(IndexIn(nodes, s[j]))
    requires Regular(IndexIn(nodes, x))
    ensures Sorted(nodes, InsertByCompare(nodes, s, x))
  {
    var k := InsertPos(nodes, s, x);
    var t := s[..k] + [x] + s[k..];
    assert t == InsertByCompare(nodes, s, x);
    InsertedAt(s, k, x);
    forall i, j | 0 <= i < j < |t|
      ensures Compare(IndexIn(nodes, t[i]), IndexIn(nodes, t[j])) <= 0.0
    {
      InsertedPair(nodes, s, x, k, t[i], t[j], i, j);
    }
  }

  /** One pair `i < j` of the list with `x` inserted at `k`, element `a` then element `b`. */
  lemma InsertedPair(nodes: Nodes, s: seq<Id>, x: Id, k: nat, a: Id, b: Id, i: nat, j: nat)
    requires Sorted(nodes, s) && k <= |s| && i < j <= |s|
    requires forall j | 0 <= j < |s| :: Regular(IndexIn(nodes, s[j]))
    requires Regular(IndexIn(nodes, x))
    requires forall j | k <= j < |s| :: Compare(IndexIn(nodes, s[j]), IndexIn(nodes, x)) > 0.0
    requires k > 0 ==> Compare(IndexIn(nodes, s[k - 1]), IndexIn(nodes, x)) <= 0.0
    requires a == (if i < k then s[i] else if i == k then x else s[i - 1])
    requires b == (if j < k then s[j] else if j == k then x else s[j - 1])
    ensures Compare(IndexIn(nodes, a), IndexIn(nodes, b)) <= 0.0
  {
    if i == k {
      CompareAntisymmetric(IndexIn(nodes, s[j - 1]), IndexIn(nodes, x));
    } else if j == k && i < k - 1 {
      RegularPreorder(IndexIn(nodes, s[i]), IndexIn(nodes, s[k - 1]), IndexIn(nodes, x));
    }
  }

  /** The elements of `s` with `x` inserted at position `k`. */
  lemma InsertedAt<T>(s: seq<T>, k: nat, x: T)
    requires k <= |s|
    ensures |s[..k] + [x] + s[k..]| == |s| + 1
    ensures forall i | 0 <= i < k :: (s[..k] + [x] + s[k..])[i] == s[i]
    ensures (s[..k] + [x] + s[k..])[k] == x
    ensures forall i | k < i <= |s| :: (s[..k] + [x] + s[k..])[i] == s[i - 1]
  {
  }

  /** Sorting a list whose indices are all regular yields a sorted list. */
  lemma {:induction false} SortSorts(nodes: Nodes, s: seq<Id>)
    requires forall j | 0 <= j < |s| :: Regular(IndexIn(nodes, s[j]))
    ensures Sorted(nodes, SortByCompare(nodes, s))
  {
    if s != [] {
      var init := s[..|s| - 1];
      SortSorts(nodes, init);
      var t := SortByCompare(nodes, init);
      forall j | 0 <= j < |t| ensures Regular(IndexIn(nodes, t[j])) {
        assert t[j] in multiset(init);
      }
      InsertKeepsSorted(nodes, t, s[|s| - 1]);
    }
  }

  /** Sorting an already sorted list changes nothing: the sort is stable. */
  lemma {:induction false} SortKeepsSorted(nodes: Nodes, s: seq<Id>)
    requires Sorted(nodes, s)
    ensures SortByCompare(nodes, s) == s
  {
    if s != [] {
      var init, x := s[..|s| - 1], s[|s| - 1];
      SortedPrefix(nodes, s);
      SortKeepsSorted(nodes, init);
      SortedLastPair(nodes, s);
      InsertAtEnd(nodes, init, x);
      SortStep(nodes, s);
    }
  }

  lemma SortStep(nodes: Nodes, s: seq<Id>)
    requires s != []
    ensures SortByCompare(nodes, s) == InsertByCompare(nodes, SortByCompare(nodes, s[..|s| - 1]), s[|s| - 1])
    ensures s[..|s| - 1] + [s[|s| - 1]] == s
  {
    LastSplit(s);
  }

  /** A non-empty sequence is its prefix followed by its last element. */
  lemma LastSplit<T>(s: seq<T>)
    requires s != []
    ensures s[..|s| - 1] + [s[|s| - 1]] == s
  {
  }

  /** A permutation of `s` holds each element of `s` at some index. */
  lemma PermutedAt<T>(s: seq<T>, t: seq<T>, j: nat) returns (i: nat)
    requires multiset(t) == multiset(s) && j < |s|
    ensures i < |t| && t[i] == s[j]
  {
    assert s[j] in multiset(t);
    assert s[j] in t;
    i :| i < |t| && t[i] == s[j];
  }

  lemma SortedLastPair(nodes: Nodes, s: seq<Id>)
    requires Sorted(nodes, s)
    ensures |s| >= 2 ==> Compare(IndexIn(nodes, s[|s| - 2]), IndexIn(nodes, s[|s| - 1])) <= 0.0
  {
  }

  lemma InsertAtEnd(nodes: Nodes, s: seq<Id>, x: Id)
    requires |s| > 0 ==> Compare(IndexIn(nodes, s[|s| - 1]), IndexIn(nodes, x)) <= 0.0
    ensures InsertByCompare(nodes, s, x) == s + [x]
  {
    assert InsertPos(nodes, s, x) == |s|;
    assert s[..|s|] == s;
  }

  lemma SortedPrefix(nodes: Nodes, s: seq<Id>)
    requires Sorted(nodes, s) && s != []
    ensures Sorted(nodes, s[..|s| - 1])
  {
    var init := s[..|s| - 1];
    forall i, j | 0 <= i < j < |init|
      ensures Compare(IndexIn(nodes, init[i]), IndexIn(nodes, init[j])) <= 0.0
    {
      assert init[i] == s[i] && init[j] == s[j];
    }
  }

  /** A permutation of a list without repeats has no repeats. */
  lemma DistinctPermutation(s: seq<Id>, t: seq<Id>)
    requires Distinct(s) && multiset(s) == multiset(t)
    ensures Distinct(t)
  {
    forall i, j | 0 <= i < j < |t| ensures t[i] != t[j] {
      if t[i] == t[j] {
        var x := t[i];
        assert t == t[..j] + t[j..];
        assert x in multiset(t[..j]) && x in multiset(t[j..]);
        assert multiset(s)[x] >= 2;
        DistinctCount(s, x);
      }
    }
  }

  lemma {:induction false} DistinctCount(s: seq<Id>, x: Id)
    requires Distinct(s)
    ensures multiset(s)[x] <= 1
  {
    if s != [] {
      assert s == [s[0]] + s[1..];
      DistinctCount(s[1..], x);
      if s[0] == x {
        assert x !in s[1..];
      }
    }
  }

  // ---------------------------------------------------------------------------
  // Taking an id out of a children list
  // ---------------------------------------------------------------------------

  /** The list with every occurrence of `x` taken out, the others kept in order. */
  function Without(s: seq<Id>, x: Id): (t: seq<Id>)
    ensures multiset(t) == multiset(s)[x := 0]
    ensures forall y | y != x :: y in t <==> y in s
    ensures x !in t
  {
    if s == [] then []
    else
      assert s == [s[0]] + s[1..];
      if s[0] == x then Without(s[1..], x) else [s[0]] + Without(s[1..], x)
  }

  lemma {:induction false} WithoutAbsent(s: seq<Id>, x: Id)
    requires x !in s
    ensures Without(s, x) == s
  {
    if s != [] {
      WithoutAbsent(s[1..], x);
    }
  }

  /** In a list without repeats, splicing out the one occurrence of `x` is taking `x` out. */
  lemma {:induction false} SpliceIsWithout(s: seq<Id>, i: nat)
    requires Distinct(s) && i < |s|
    ensures s[..i] + s[i + 1..] == Without(s, s[i])
  {
    if i == 0 {
      assert s[0] !in s[1..];
      WithoutAbsent(s[1..], s[0]);
    } else {
      assert Distinct(s[1..]);
      SpliceIsWithout(s[1..], i - 1);
      assert s[1..][i - 1] == s[i];
      assert s[1..][..i - 1] + s[1..][i..] == s[1..i] + s[i + 1..];
      assert s[..i] + s[i + 1..] == [s[0]] + (s[1..i] + s[i + 1..]);
    }
  }

  lemma PrefixLast<T>(s: seq<T>, i: nat)
    requires 0 < i <= |s|
    ensures s[..i][..i - 1] + s[..i][i..] == s[..i - 1] && s[..i][i - 1] == s[i - 1]
  {
  }

  /** Taking the last element out of a prefix without repeats leaves the shorter prefix. */
  lemma WithoutPrefixLast(s: seq<Id>, i: nat)
    requires 0 < i <= |s| && Distinct(s)
    ensures Without(s[..i], s[i - 1]) == s[..i - 1]
  {
    assert Distinct(s[..i]);
    SpliceIsWithout(s[..i], i - 1);
    PrefixLast(s, i);
  }

  lemma WithoutDistinct(s: seq<Id>, x: Id)
    requires Distinct(s)
    ensures Distinct(Without(s, x))
  {
    var t := Without(s, x);
    forall i, j | 0 <= i < j < |t| ensures t[i] != t[j] {
      if t[i] == t[j] {
        var y := t[i];
        assert t == t[..j] + t[j..];
        assert y in multiset(t[..j]) && y in multiset(t[j..]);
        assert multiset(t)[y] >= 2;
        DistinctCount(s, y);
      }
    }
  }

  // ---------------------------------------------------------------------------
  // MindNode.inherited
  // ---------------------------------------------------------------------------

  /**
   * MindNode.inherited(parentNode, node): true when they are the same node, when
   * `parentNode` is the root, or when walking `node`'s parent chain meets it —
   * that is, exactly when `node` lies in the subtree of `parentNode`.
   */
  method Inherited(nodes: Nodes, root: Id, ghost rank: map<Id, nat>, ghost bound: nat, a: Id, k: Id)
    returns (b: bool)
    requires Linked(nodes, root, rank, bound) && Live(nodes, a) && Live(nodes, k)
    ensures b <==> Descends(nodes, rank, k, a)
  {
    if a == k {
      return true;
    }
    assert LinkedAt(nodes, root, rank, bound, a);
    if Get(nodes, a).isRoot {
      DescendsFromRoot(nodes, root, rank, bound, k);
      return true;
    }
    var p := k;
    while !Get(nodes, p).isRoot
      invariant Live(nodes, p) && p != a && LinkedAt(nodes, root, rank, bound, p)
      invariant Descends(nodes, rank, k, a) == Descends(nodes, rank, p, a)
      decreases rank[p]
    {
      p := Get(nodes, p).parent.value;
      if p == a {
        return true;
      }
    }
    RootDescendsOnlyFromItself(nodes, root, rank, bound, a);
    assert LinkedAt(nodes, root, rank, bound, p);
    return false;
  }
}
