/**
 * arrayNode, which src/format/nodeTree.ts and src/format/nodeArray.ts share
 * line for line: the pre-order walk from a node that pushes one flat record
 * per node, and the record it writes for each.
 */
module Flattening {
  import opened Wrappers
  import opened MindNodes
  import opened MindTree
  import opened MindStore
  import opened Records

  /** The `direction` string written for a child of the root: anything but left is right. */
  function SideName(d: Direction): string {
    if d == Left then "left" else "right"
  }

  /** `node?.parent?.isroot`: the node hangs directly under the root. */
  predicate ParentIsRoot(nodes: Nodes, k: Id)
    requires Live(nodes, k)
  {
    var p := Get(nodes, k).parent;
    p.Some? && Live(nodes, p.value) && Get(nodes, p.value).isRoot
  }

  /** The fields arrayNode sets before it copies the payload. */
  function Header(nodes: Nodes, k: Id): map<string, Value>
    requires Live(nodes, k)
  {
    var n := Get(nodes, k);
    var m0 := map["id" := JStr(n.id), "topic" := JStr(n.topic), "expanded" := JBool(n.expanded)];
    var m1 := if n.parent.Some? then m0["parentId" := JStr(n.parent.value)] else m0;
    var m2 := if n.isRoot then m1["isroot" := JBool(true)] else m1;
    if ParentIsRoot(nodes, k) then m2["direction" := JStr(SideName(n.direction))] else m2
  }

  /** The record arrayNode pushes for a node: its header with the payload's own keys written over it. */
  function Record(nodes: Nodes, k: Id): Value
    requires Live(nodes, k)
  {
    JObj(Header(nodes, k) + OwnKeys(Get(nodes, k).data))
  }

  /** No payload of the registry uses a key the parsers read for themselves. */
  ghost predicate Clean(nodes: Nodes) {
    forall k | Live(nodes, k) :: OwnKeys(Get(nodes, k).data).Keys !! Reserved
  }

  /** `rec.parentId`, when it is a string. */
  function ParentName(rec: Value): Option<Id> {
    var f := Field(rec, "parentId");
    if f.Some? && f.value.JStr? then Some(f.value.s) else None
  }

  /** `rec.parentId === p`. */
  predicate ChildOf(rec: Value, p: Id) {
    Field(rec, "parentId") == Some(JStr(p))
  }

  /**
   * What the record says, key by key: a payload key wins; otherwise the
   * header gives the id, topic and expanded flag, the parent's id for a
   * non-root node, `isroot` for the root only, and a `direction` only for a
   * child of the root.
   */
  lemma RecordFields(nodes: Nodes, k: Id)
    requires Live(nodes, k)
    ensures var n := Get(nodes, k); var d := OwnKeys(n.data); var rec := Record(nodes, k);
      && rec.JObj?
      && (forall key | key in d :: Field(rec, key) == Some(d[key]))
      && ("id" !in d ==> Field(rec, "id") == Some(JStr(n.id)))
      && ("topic" !in d ==> Field(rec, "topic") == Some(JStr(n.topic)))
      && ("expanded" !in d ==> Field(rec, "expanded") == Some(JBool(n.expanded)))
      && ("parentId" !in d ==>
            Field(rec, "parentId") == if n.parent.Some? then Some(JStr(n.parent.value)) else None)
      && ("isroot" !in d ==> Field(rec, "isroot") == if n.isRoot then Some(JBool(true)) else None)
      && ("direction" !in d ==>
            Field(rec, "direction") == if ParentIsRoot(nodes, k) then Some(JStr(SideName(n.direction))) else None)
      && (forall key | key !in d && key !in Reserved :: Field(rec, key).None?)
  {
    var n := Get(nodes, k);
    var h := Header(nodes, k);
    assert h.Keys <= Reserved;
    assert "id" in h && h["id"] == JStr(n.id);
    assert "topic" in h && h["topic"] == JStr(n.topic);
    assert "expanded" in h && h["expanded"] == JBool(n.expanded);
    assert ("parentId" in h <==> n.parent.Some?) && (n.parent.Some? ==> h["parentId"] == JStr(n.parent.value));
    assert ("isroot" in h <==> n.isRoot) && (n.isRoot ==> h["isroot"] == JBool(true));
    assert ("direction" in h <==> ParentIsRoot(nodes, k))
        && (ParentIsRoot(nodes, k) ==> h["direction"] == JStr(SideName(n.direction)));
  }

  /**
   * With a clean payload the record reads back as the node: a well-formed
   * record with the node's id and topic, the parent's id, `isroot` exactly
   * for the root, and the payload as what extractData keeps.
   */
  lemma CleanRecord(nodes: Nodes, root: Id, rank: map<Id, nat>, bound: nat, k: Id)
    requires Linked(nodes, root, rank, bound) && Clean(nodes) && Live(nodes, k)
    ensures var n := Get(nodes, k); var rec := Record(nodes, k);
      && WellFormed(rec) && IdOf(rec) == k && TopicOf(rec) == n.topic
      && Field(rec, "expanded") == Some(JBool(n.expanded))
      && ParentName(rec) == n.parent
      && (forall p :: ChildOf(rec, p) <==> n.parent == Some(p))
      && (IsRootRecord(rec) <==> k == root)
      && Payload(rec) == OwnKeys(n.data)
      && Field(rec, "data") == Field(n.data, "data")
  {
    assert LinkedAt(nodes, root, rank, bound, k);
    RecordFields(nodes, k);
    var d := OwnKeys(Get(nodes, k).data);
    assert d.Keys !! Reserved;
    assert "id" !in d && "topic" !in d && "expanded" !in d && "parentId" !in d && "isroot" !in d;
    var rec := Record(nodes, k);
    assert Payload(rec) == d by {
      forall key | key in d ensures key in Payload(rec) && Payload(rec)[key] == d[key] {
        assert Field(rec, key) == Some(d[key]);
      }
    }
    if "data" !in d {
      assert Field(rec, "data").None?;
    }
  }

  /** The measure of a walk down the tree: the distance from a node's rank to the bound. */
  function Height(rank: map<Id, nat>, bound: nat, k: Id): nat {
    if k in rank && rank[k] <= bound then bound - rank[k] + 1 else 0
  }

  /** `c` ranks strictly below `k` within the bound, as every child does in a linked registry. */
  predicate Deeper(rank: map<Id, nat>, bound: nat, k: Id, c: Id) {
    k in rank && c in rank && rank[k] < rank[c] <= bound
  }

  /** The ids arrayNode visits from `k`: `k`, then the walk from each child in turn. */
  ghost function Preorder(nodes: Nodes, rank: map<Id, nat>, bound: nat, k: Id): (r: seq<Id>)
    ensures Live(nodes, k) ==> |r| > 0 && r[0] == k
    decreases Height(rank, bound, k), 1
  {
    if Live(nodes, k) then [k] + PreorderKids(nodes, rank, bound, k, |Get(nodes, k).children|) else []
  }

  /** The walks from the first `i` children of `k`, one after the other. */
  ghost function PreorderKids(nodes: Nodes, rank: map<Id, nat>, bound: nat, k: Id, i: nat): (r: seq<Id>)
    requires Live(nodes, k) && i <= |Get(nodes, k).children|
    decreases Height(rank, bound, k), 0, i
  {
    if i == 0 then []
    else
      var c := Get(nodes, k).children[i - 1];
      PreorderKids(nodes, rank, bound, k, i - 1)
        + (if Deeper(rank, bound, k, c) then Preorder(nodes, rank, bound, c) else [])
  }

  /** The record of a live id; the walk visits no other. */
  function RecordAt(nodes: Nodes, k: Id): Value {
    if Live(nodes, k) then Record(nodes, k) else JNull
  }

  /** The records of a run of ids. */
  function Entries(nodes: Nodes, ks: seq<Id>): (r: seq<Value>)
    ensures |r| == |ks| && forall i | 0 <= i < |ks| :: r[i] == RecordAt(nodes, ks[i])
  {
    seq(|ks|, i requires 0 <= i < |ks| => RecordAt(nodes, ks[i]))
  }

  lemma EntriesAppend(nodes: Nodes, pre: seq<Value>, a: seq<Id>, b: seq<Id>)
    ensures pre + Entries(nodes, a) + Entries(nodes, b) == pre + Entries(nodes, a + b)
  {
    assert Entries(nodes, a + b) == Entries(nodes, a) + Entries(nodes, b);
  }

  /** The first half of arrayNode: the record it builds for one node. */
  method NodeRecord(mind: Mind, k: Id) returns (r: Value)
    requires mind.Valid() && Live(mind.nodes, k)
    ensures r == Record(mind.nodes, k)
  {
    var node := mind.nodes[k].value;
    var rec := map["id" := JStr(node.id), "topic" := JStr(node.topic), "expanded" := JBool(node.expanded)];
    var parentIsRoot := false;
    if node.parent.Some? {
      rec := rec["parentId" := JStr(node.parent.value)];
      var parent := mind.GetNode(node.parent.value);
      parentIsRoot := parent.Some? && parent.value.isRoot;
    }
    if node.isRoot {
      rec := rec["isroot" := JBool(true)];
    }
    if parentIsRoot {
      rec := rec["direction" := JStr(SideName(node.direction))];
    }
    assert rec == Header(mind.nodes, k);
    if node.data != JNull {
      rec := Overlay(rec, node.data);
    }
    return JObj(rec);
  }

  /**
   * arrayNode: push the node's record, then flatten each child in order.
   * The result is the input followed by the records of the pre-order walk.
   */
  method ArrayNode(mind: Mind, k: Id, nodeArray: seq<Value>) returns (out: seq<Value>)
    requires mind.Valid() && Live(mind.nodes, k)
    ensures out == nodeArray + Entries(mind.nodes, Preorder(mind.nodes, mind.rank, mind.bound, k))
    decreases Height(mind.rank, mind.bound, k)
  {
    var r := NodeRecord(mind, k);
    out := nodeArray + [r];
    var children := mind.nodes[k].value.children;
    ghost var nodes, rank, bound := mind.nodes, mind.rank, mind.bound;
    for i := 0 to |children|
      invariant out == nodeArray + Entries(nodes, [k] + PreorderKids(nodes, rank, bound, k, i))
    {
      KidsStep(nodes, mind.root.value, rank, bound, k, i);
      ghost var before := [k] + PreorderKids(nodes, rank, bound, k, i);
      ghost var walk := Preorder(nodes, rank, bound, children[i]);
      EntriesAppend(nodes, nodeArray, before, walk);
      out := ArrayNode(mind, children[i], out);
    }
  }

  /** One more child walked: the walk of child `i` follows those of the first `i`, and the child is deeper. */
  lemma KidsStep(nodes: Nodes, root: Id, rank: map<Id, nat>, bound: nat, k: Id, i: nat)
    requires Linked(nodes, root, rank, bound) && Live(nodes, k) && i < |Get(nodes, k).children|
    ensures var c := Get(nodes, k).children[i];
      && Live(nodes, c) && Height(rank, bound, c) < Height(rank, bound, k)
      && [k] + PreorderKids(nodes, rank, bound, k, i + 1)
         == [k] + PreorderKids(nodes, rank, bound, k, i) + Preorder(nodes, rank, bound, c)
  {
    var c := Get(nodes, k).children[i];
    assert LinkedAt(nodes, root, rank, bound, k);
    assert LinkedAt(nodes, root, rank, bound, c);
    assert Deeper(rank, bound, k, c);
  }

  /** `x` lies in the subtree of one of the first `i` ids of `cs`. */
  ghost predicate Under(nodes: Nodes, rank: map<Id, nat>, cs: seq<Id>, i: nat, x: Id) {
    exists j | 0 <= j < i && j < |cs| :: Descends(nodes, rank, x, cs[j])
  }

  /** The walk from `k` visits exactly the live nodes of the subtree of `k`. */
  lemma {:induction false} PreorderMember(nodes: Nodes, root: Id, rank: map<Id, nat>, bound: nat, k: Id, x: Id)
    requires Linked(nodes, root, rank, bound) && Live(nodes, k)
    ensures x in Preorder(nodes, rank, bound, k) <==> Live(nodes, x) && Descends(nodes, rank, x, k)
    decreases Height(rank, bound, k), 1
  {
    var cs := Get(nodes, k).children;
    KidsMember(nodes, root, rank, bound, k, |cs|, x);
    if Live(nodes, x) {
      SubtreeSplit(nodes, root, rank, bound, k, x);
      assert x in Subtree(nodes, rank, k) <==> Descends(nodes, rank, x, k);
      if Below(nodes, rank, cs, 0, x) {
        var j :| 0 <= j < |cs| && Descends(nodes, rank, x, cs[j]);
        assert Under(nodes, rank, cs, |cs|, x);
      }
    }
  }

  /** The walks from the first `i` children visit exactly the live nodes below those children. */
  lemma {:induction false} KidsMember(nodes: Nodes, root: Id, rank: map<Id, nat>, bound: nat, k: Id, i: nat, x: Id)
    requires Linked(nodes, root, rank, bound) && Live(nodes, k) && i <= |Get(nodes, k).children|
    ensures x in PreorderKids(nodes, rank, bound, k, i) <==>
      Live(nodes, x) && Under(nodes, rank, Get(nodes, k).children, i, x)
    decreases Height(rank, bound, k), 0, i
  {
    var cs := Get(nodes, k).children;
    if i > 0 {
      var c := cs[i - 1];
      assert LinkedAt(nodes, root, rank, bound, k);
      assert LinkedAt(nodes, root, rank, bound, c);
      assert Deeper(rank, bound, k, c);
      KidsMember(nodes, root, rank, bound, k, i - 1, x);
      PreorderMember(nodes, root, rank, bound, c, x);
      if Under(nodes, rank, cs, i, x) && !Descends(nodes, rank, x, c) {
        var j :| 0 <= j < i && j < |cs| && Descends(nodes, rank, x, cs[j]);
        assert Under(nodes, rank, cs, i - 1, x);
      }
    }
  }

  lemma DistinctAppend(a: seq<Id>, b: seq<Id>)
    requires Distinct(a) && Distinct(b)
    requires forall i | 0 <= i < |a| :: a[i] !in b
    ensures Distinct(a + b)
  {
    forall i, j | 0 <= i < j < |a + b| ensures (a + b)[i] != (a + b)[j] {
      if i < |a| && j >= |a| {
        assert (a + b)[j] == b[j - |a|];
      }
    }
  }

  /** The walk from `k` visits no node twice. */
  lemma {:induction false} PreorderDistinct(nodes: Nodes, root: Id, rank: map<Id, nat>, bound: nat, k: Id)
    requires Linked(nodes, root, rank, bound) && Live(nodes, k)
    ensures Distinct(Preorder(nodes, rank, bound, k))
    decreases Height(rank, bound, k), 1
  {
    var cs := Get(nodes, k).children;
    var kids := PreorderKids(nodes, rank, bound, k, |cs|);
    KidsDistinct(nodes, root, rank, bound, k, |cs|);
    forall j | 0 <= j < |kids| ensures kids[j] != k {
      KidsMember(nodes, root, rank, bound, k, |cs|, kids[j]);
      var t :| 0 <= t < |cs| && Descends(nodes, rank, kids[j], cs[t]);
      assert LinkedAt(nodes, root, rank, bound, k);
      assert LinkedAt(nodes, root, rank, bound, cs[t]);
      if kids[j] != cs[t] {
        DescendsRank(nodes, rank, kids[j], cs[t]);
      }
    }
    DistinctAppend([k], kids);
  }

  /** The walks from the first `i` children visit no node twice. */
  lemma {:induction false} KidsDistinct(nodes: Nodes, root: Id, rank: map<Id, nat>, bound: nat, k: Id, i: nat)
    requires Linked(nodes, root, rank, bound) && Live(nodes, k) && i <= |Get(nodes, k).children|
    ensures Distinct(PreorderKids(nodes, rank, bound, k, i))
    decreases Height(rank, bound, k), 0, i
  {
    var cs := Get(nodes, k).children;
    if i > 0 {
      var c := cs[i - 1];
      assert LinkedAt(nodes, root, rank, bound, k);
      assert LinkedAt(nodes, root, rank, bound, c);
      assert Deeper(rank, bound, k, c);
      var a := PreorderKids(nodes, rank, bound, k, i - 1);
      var b := Preorder(nodes, rank, bound, c);
      KidsDistinct(nodes, root, rank, bound, k, i - 1);
      PreorderDistinct(nodes, root, rank, bound, c);
      forall t | 0 <= t < |a| ensures a[t] !in b {
        KidsMember(nodes, root, rank, bound, k, i - 1, a[t]);
        PreorderMember(nodes, root, rank, bound, c, a[t]);
        var j :| 0 <= j < i - 1 && j < |cs| && Descends(nodes, rank, a[t], cs[j]);
        assert LinkedAt(nodes, root, rank, bound, cs[j]);
        SiblingSubtreesDisjoint(nodes, root, rank, bound, cs[j], c, a[t]);
      }
      DistinctAppend(a, b);
    }
  }

  /**
   * Flattened from the root, a linked registry gives one record per live
   * node: the walk starts at the root, visits every live node and none twice.
   */
  lemma PreorderOnce(nodes: Nodes, root: Id, rank: map<Id, nat>, bound: nat)
    requires Linked(nodes, root, rank, bound)
    ensures var ks := Preorder(nodes, rank, bound, root);
      && Distinct(ks) && ks[0] == root
      && forall x :: x in ks <==> Live(nodes, x)
  {
    PreorderDistinct(nodes, root, rank, bound, root);
    forall x ensures x in Preorder(nodes, rank, bound, root) <==> Live(nodes, x) {
      PreorderMember(nodes, root, rank, bound, root, x);
      if Live(nodes, x) {
        DescendsFromRoot(nodes, root, rank, bound, x);
      }
    }
  }
}
