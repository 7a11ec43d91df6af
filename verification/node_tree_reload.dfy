/**
 * The nested format read back: parsing the record buildNode writes for the
 * root rebuilds the same tree, every node under the same parent with the
 * same id and topic. What the records do not carry is stated per node by
 * `Copied`: a parsed node's payload is what extractData keeps of its
 * record, which still holds the child records under `children`; a non-root
 * node gets a null index and the right side; the root loses its expanded
 * flag.
 */
module NodeTreeReload {
  import opened Wrappers
  import opened MindNodes
  import opened MindTree
  import opened Adding
  import opened MindStore
  import opened Records
  import opened Flattening
  import opened NodeTreeFormat

  /**
   * Payloads the nested format reads back: no key the parsers read for
   * themselves, and a `children` key only on a node that has children (so
   * that buildNode writes the real child records over it).
   */
  ghost predicate TreeClean(nodes: Nodes) {
    forall k | Live(nodes, k) ::
      && OwnKeys(Get(nodes, k).data).Keys !! Reserved
      && ("children" in OwnKeys(Get(nodes, k).data) ==> |Get(nodes, k).children| > 0)
  }

  /**
   * What parse reads of the record of each node `k`: its id, topic and
   * expanded flag, and as its child records the records of its children.
   */
  ghost predicate RecordFits(src: Nodes, recs: map<Id, Value>, k: Id)
    requires Live(src, k)
  {
    var n := Get(src, k);
    && k in recs
    && WellFormed(recs[k]) && IdOf(recs[k]) == k && TopicOf(recs[k]) == n.topic
    && Field(recs[k], "expanded") == Some(JBool(n.expanded))
    && |Kids(recs[k])| == |n.children|
    && forall i | 0 <= i < |n.children| :: n.children[i] in recs && Kids(recs[k])[i] == recs[n.children[i]]
  }

  /** A record for every live node, each fitting its node. */
  ghost predicate RecordsFit(src: Nodes, recs: map<Id, Value>) {
    forall k {:trigger RecordFits(src, recs, k)} | Live(src, k) :: RecordFits(src, recs, k)
  }

  /** The records buildNode writes, node by node. */
  ghost function BuiltRecords(src: Nodes, rank: map<Id, nat>, bound: nat): map<Id, Value> {
    map k | k in src && Live(src, k) :: Built(src, rank, bound, k)
  }

  /**
   * What the parsed node `k` keeps of the original one, `recs` giving the
   * record each was read from.
   */
  ghost predicate Copied(src: Nodes, recs: map<Id, Value>, root: Id, dst: Nodes, k: Id)
    requires Live(src, k) && Live(dst, k)
  {
    var a, b := Get(src, k), Get(dst, k);
    && b.id == k && b.topic == a.topic && b.parent == a.parent && b.isRoot == a.isRoot
    && k in recs && b.data == JObj(Payload(recs[k]))
    && (k == root ==> !b.expanded)
    && (k != root ==> b.expanded == a.expanded && b.index == Null && b.direction == Right)
  }

  /** Every node parsed so far is a copy of a node of `src`, and the root is there. */
  ghost predicate Rebuilt(src: Nodes, recs: map<Id, Value>, root: Id, dst: Nodes) {
    && Live(dst, root)
    && forall k | k in dst :: Live(dst, k) && Live(src, k) && Copied(src, recs, root, dst, k)
  }

  /** The ids of the subtrees of `cs[i..]`. */
  ghost function BelowSet(nodes: Nodes, rank: map<Id, nat>, cs: seq<Id>, i: nat): set<Id> {
    set x | x in nodes && Live(nodes, x) && Below(nodes, rank, cs, i, x)
  }

  /**
   * The payload a parsed node gets: its own payload, with the built child
   * records under `children` when it has children.
   */
  lemma BuiltPayload(src: Nodes, root: Id, rank: map<Id, nat>, bound: nat, k: Id)
    requires Linked(src, root, rank, bound) && TreeClean(src) && Live(src, k)
    ensures var n := Get(src, k);
      Payload(Built(src, rank, bound, k))
      == OwnKeys(n.data) + (if |n.children| > 0 then map["children" := JArr(BuiltKids(src, rank, bound, k, |n.children|))] else map[])
  {
    var n := Get(src, k);
    var h := TreeHeader(src, k);
    assert h.Keys <= Reserved;
    assert OwnKeys(n.data).Keys !! Reserved;
  }

  /** How parse reads a built record: its id, topic and expanded flag, and the built records of the children. */
  lemma BuiltReads(src: Nodes, root: Id, rank: map<Id, nat>, bound: nat, k: Id)
    requires Linked(src, root, rank, bound) && TreeClean(src) && Live(src, k)
    ensures var n := Get(src, k); var rec := Built(src, rank, bound, k);
      && WellFormed(rec) && IdOf(rec) == k && TopicOf(rec) == n.topic
      && Field(rec, "expanded") == Some(JBool(n.expanded))
      && Kids(rec) == BuiltKids(src, rank, bound, k, |n.children|)
      && (forall i | 0 <= i < |n.children| :: Kids(rec)[i] == Built(src, rank, bound, n.children[i]))
  {
    assert LinkedAt(src, root, rank, bound, k);
    BuiltFields(src, root, rank, bound, k);
    var d := OwnKeys(Get(src, k).data);
    assert "id" !in d && "topic" !in d && "expanded" !in d;
  }

  /** The record buildNode writes for the root, and every record below it, can be parsed. */
  lemma {:induction false} BuiltWellFormed(src: Nodes, root: Id, rank: map<Id, nat>, bound: nat, k: Id)
    requires Linked(src, root, rank, bound) && TreeClean(src) && Live(src, k)
    ensures TreeWellFormed(Built(src, rank, bound, k))
    decreases Height(rank, bound, k)
  {
    BuiltReads(src, root, rank, bound, k);
    var rec := Built(src, rank, bound, k);
    var cs := Get(src, k).children;
    forall i | 0 <= i < |Kids(rec)| ensures TreeWellFormed(Kids(rec)[i]) {
      BuiltStep(src, root, rank, bound, k, i);
      BuiltWellFormed(src, root, rank, bound, cs[i]);
    }
  }

  /** The records buildNode writes fit their nodes. */
  lemma BuiltFit(src: Nodes, root: Id, rank: map<Id, nat>, bound: nat)
    requires Linked(src, root, rank, bound) && TreeClean(src)
    ensures RecordsFit(src, BuiltRecords(src, rank, bound))
  {
    var recs := BuiltRecords(src, rank, bound);
    forall k | Live(src, k) ensures RecordFits(src, recs, k) {
      BuiltReads(src, root, rank, bound, k);
      assert LinkedAt(src, root, rank, bound, k);
    }
  }

  /** The root record, set as root, is a copy of the root. */
  lemma RootOnlyRebuilt(src: Nodes, root: Id, rank: map<Id, nat>, bound: nat, recs: map<Id, Value>)
    requires Linked(src, root, rank, bound) && RecordsFit(src, recs)
    ensures root in recs && Rebuilt(src, recs, root, RootOnly(recs[root]))
    ensures RootOnly(recs[root]).Keys == {root}
  {
    assert RecordFits(src, recs, root);
    assert LinkedAt(src, root, rank, bound, root);
  }

  /** The node addNode creates for the record of `k` is a copy of the original. */
  lemma FreshCopied(src: Nodes, recs: map<Id, Value>, root: Id, dst: Nodes, k: Id, p: Id,
                    data: Option<Value>, eDirection: Option<int>, expanded: bool)
    requires Rebuilt(src, recs, root, dst) && Live(src, k) && k != root && Live(dst, p) && k !in dst
    requires Get(dst, p).isRoot <==> p == root
    requires eDirection.Some? && Get(src, k).parent == Some(p) && !Get(src, k).isRoot
    requires expanded == Get(src, k).expanded
    requires k in recs && data == Some(JObj(Payload(recs[k])))
    ensures var d2 := Added(dst, p, k, Null, Get(src, k).topic, data, eDirection, expanded);
      && d2.Keys == dst.Keys + {k} && (forall x | x in dst && x != p :: d2[x] == dst[x])
      && Live(d2, p) && Get(d2, p) == Get(dst, p).(children := Get(d2, p).children)
      && Live(d2, k) && Copied(src, recs, root, d2, k)
  {
    AddedEffect(dst, p, k, Null, Get(src, k).topic, data, eDirection, expanded);
    assert NewDirection(dst, p, eDirection) == Right;
  }

  /** Adding a copy of `k` and changing only the children of `p` keeps every other node a copy. */
  lemma RebuiltAfter(src: Nodes, recs: map<Id, Value>, root: Id, dst: Nodes, d2: Nodes, p: Id, k: Id)
    requires Rebuilt(src, recs, root, dst) && Live(dst, p)
    requires d2.Keys == dst.Keys + {k} && forall x | x in dst && x != p :: d2[x] == dst[x]
    requires Live(d2, p) && Get(d2, p) == Get(dst, p).(children := Get(d2, p).children)
    requires Live(src, k) && Live(d2, k) && Copied(src, recs, root, d2, k)
    ensures Rebuilt(src, recs, root, d2)
  {
    forall x | x in d2 ensures Live(d2, x) && Live(src, x) && Copied(src, recs, root, d2, x) {
      if x != k && x != p {
        assert d2[x] == dst[x];
      }
    }
  }

  /** addNode of the record of `k` under its parsed parent `p`: the registry it leaves is what the rest of the run starts from. */
  lemma AddRecord(src: Nodes, root: Id, rank: map<Id, nat>, bound: nat, recs: map<Id, Value>, dst: Nodes, k: Id, p: Id)
    returns (added: Nodes)
    requires Linked(src, root, rank, bound) && RecordsFit(src, recs) && Rebuilt(src, recs, root, dst)
    requires Live(src, k) && k != root && Get(src, k).parent == Some(p) && Live(dst, p) && k !in dst
    ensures k in recs && LoadSub(dst, p, recs[k]) == LoadKids(added, k, recs[k], 0)
    ensures Rebuilt(src, recs, root, added) && added.Keys == dst.Keys + {k} && Live(added, k)
  {
    assert RecordFits(src, recs, k);
    var rec := recs[k];
    assert LinkedAt(src, root, rank, bound, k);
    assert Get(dst, p).isRoot <==> p == root by {
      assert LinkedAt(src, root, rank, bound, p);
    }
    var dir := TreeDirection(Get(dst, p).isRoot, rec);
    var expanded := Truthy(Field(rec, "expanded"));
    var data := Some(JObj(Payload(rec)));
    FreshCopied(src, recs, root, dst, k, p, data, dir, expanded);
    added := Added(dst, p, k, Null, TopicOf(rec), data, dir, expanded);
    RebuiltAfter(src, recs, root, dst, added, p, k);
  }

  /** The subtree of `k` is `k` and the subtrees of its children. */
  lemma SubtreeBelow(src: Nodes, root: Id, rank: map<Id, nat>, bound: nat, k: Id)
    requires Linked(src, root, rank, bound) && Live(src, k)
    ensures Subtree(src, rank, k) == {k} + BelowSet(src, rank, Get(src, k).children, 0)
    ensures k !in BelowSet(src, rank, Get(src, k).children, 0)
  {
    var cs := Get(src, k).children;
    forall x ensures x in Subtree(src, rank, k) <==> x == k || x in BelowSet(src, rank, cs, 0) {
      if x in src && Live(src, x) {
        SubtreeSplit(src, root, rank, bound, k, x);
      }
    }
    if Below(src, rank, cs, 0, k) {
      var j :| 0 <= j < |cs| && Descends(src, rank, k, cs[j]);
      assert LinkedAt(src, root, rank, bound, k) && LinkedAt(src, root, rank, bound, cs[j]);
      DescendsRank(src, rank, k, cs[j]);
    }
  }

  /** The subtrees of `cs[i..]` are that of `cs[i]` and those of `cs[i+1..]`, and the first is apart from the rest. */
  lemma BelowSetSplit(src: Nodes, root: Id, rank: map<Id, nat>, bound: nat, k: Id, i: nat)
    requires Linked(src, root, rank, bound) && Live(src, k) && i < |Get(src, k).children|
    ensures var cs := Get(src, k).children;
      && BelowSet(src, rank, cs, i) == Subtree(src, rank, cs[i]) + BelowSet(src, rank, cs, i + 1)
      && Subtree(src, rank, cs[i]) !! BelowSet(src, rank, cs, i + 1)
  {
    var cs := Get(src, k).children;
    assert LinkedAt(src, root, rank, bound, k);
    forall x ensures x in BelowSet(src, rank, cs, i) <==> x in Subtree(src, rank, cs[i]) || x in BelowSet(src, rank, cs, i + 1) {
      BelowStep(src, rank, cs, i + 1, x);
    }
    forall x | x in Subtree(src, rank, cs[i]) ensures x !in BelowSet(src, rank, cs, i + 1) {
      if Below(src, rank, cs, i + 1, x) {
        var j :| i + 1 <= j < |cs| && Descends(src, rank, x, cs[j]);
        assert LinkedAt(src, root, rank, bound, cs[j]) && LinkedAt(src, root, rank, bound, cs[i]);
        SiblingSubtreesDisjoint(src, root, rank, bound, cs[j], cs[i], x);
      }
    }
  }

  /**
   * extractSubNode of the record of a non-root node `k`, under its parsed
   * parent, into a registry holding none of its subtree: it succeeds and
   * adds copies of exactly the subtree.
   */
  lemma {:induction false} LoadSubtree(src: Nodes, root: Id, rank: map<Id, nat>, bound: nat, recs: map<Id, Value>, dst: Nodes, k: Id)
    returns (r: Nodes)
    requires Linked(src, root, rank, bound) && RecordsFit(src, recs) && Rebuilt(src, recs, root, dst)
    requires Live(src, k) && k != root && Get(src, k).parent.Some? && Live(dst, Get(src, k).parent.value)
    requires Subtree(src, rank, k) !! dst.Keys
    ensures k in recs && LoadSub(dst, Get(src, k).parent.value, recs[k]) == Some(r)
    ensures Rebuilt(src, recs, root, r) && r.Keys == dst.Keys + Subtree(src, rank, k)
    decreases Height(rank, bound, k), 1
  {
    var below := BelowSet(src, rank, Get(src, k).children, 0);
    SubtreeBelow(src, root, rank, bound, k);
    var added := AddRecord(src, root, rank, bound, recs, dst, k, Get(src, k).parent.value);
    AddedApart(dst.Keys, added.Keys, k, below, Subtree(src, rank, k));
    r := LoadChildren(src, root, rank, bound, recs, added, k, 0);
    AddedUnion(dst.Keys, added.Keys, r.Keys, k, below, Subtree(src, rank, k));
  }

  /**
   * The child records of `k` from position `i` on, into a registry holding
   * none of their subtrees: they all load, adding copies of exactly those
   * subtrees.
   */
  lemma {:induction false} LoadChildren(src: Nodes, root: Id, rank: map<Id, nat>, bound: nat, recs: map<Id, Value>,
                                        dst: Nodes, k: Id, i: nat)
    returns (r: Nodes)
    requires Linked(src, root, rank, bound) && RecordsFit(src, recs) && Rebuilt(src, recs, root, dst)
    requires Live(src, k) && Live(dst, k) && i <= |Get(src, k).children|
    requires BelowSet(src, rank, Get(src, k).children, i) !! dst.Keys
    ensures k in recs && |Kids(recs[k])| == |Get(src, k).children| && LoadKids(dst, k, recs[k], i) == Some(r)
    ensures Rebuilt(src, recs, root, r) && r.Keys == dst.Keys + BelowSet(src, rank, Get(src, k).children, i)
    decreases Height(rank, bound, k), 0, |Get(src, k).children| - i, 1
  {
    var cs := Get(src, k).children;
    if i == |cs| {
      LoadedAll(src, rank, recs, dst, k);
      r := dst;
    } else {
      var d1 := LoadChild(src, root, rank, bound, recs, dst, k, i);
      r := LoadChildren(src, root, rank, bound, recs, d1, k, i + 1);
      assert LoadKids(d1, k, recs[k], i + 1) == Some(r);
      UnionsChain(dst.Keys, d1.Keys, r.Keys, BelowSet(src, rank, cs, i), BelowSet(src, rank, cs, i + 1));
    }
  }

  /** The keys after two steps of a run, from the keys after each. */
  lemma UnionsChain(a: set<Id>, b: set<Id>, c: set<Id>, s: set<Id>, t: set<Id>)
    requires a + s == b + t && c == b + t
    ensures c == a + s
  {
  }

  /** The subtree of a node just added, apart from the node, is apart from the registry it was added to. */
  lemma AddedApart(before: set<Id>, after: set<Id>, k: Id, below: set<Id>, subtree: set<Id>)
    requires after == before + {k} && subtree == {k} + below && k !in below && subtree !! before
    ensures below !! after
  {
  }

  /** A node added, then the subtrees below it: its whole subtree added. */
  lemma AddedUnion(before: set<Id>, after: set<Id>, last: set<Id>, k: Id, below: set<Id>, subtree: set<Id>)
    requires after == before + {k} && subtree == {k} + below && last == after + below
    ensures last == before + subtree
  {
  }

  /** Past the last child record nothing is left to load. */
  lemma LoadedAll(src: Nodes, rank: map<Id, nat>, recs: map<Id, Value>, dst: Nodes, k: Id)
    requires RecordsFit(src, recs) && Live(src, k)
    ensures k in recs && |Kids(recs[k])| == |Get(src, k).children|
    ensures LoadKids(dst, k, recs[k], |Get(src, k).children|) == Some(dst)
    ensures dst.Keys == dst.Keys + BelowSet(src, rank, Get(src, k).children, |Get(src, k).children|)
  {
    assert RecordFits(src, recs, k);
    LoadKidsDone(dst, k, recs[k]);
  }

  /** Child record `i` loads, leaving the registry the rest of the run starts from. */
  lemma {:induction false} LoadChild(src: Nodes, root: Id, rank: map<Id, nat>, bound: nat, recs: map<Id, Value>,
                                     dst: Nodes, k: Id, i: nat)
    returns (d1: Nodes)
    requires Linked(src, root, rank, bound) && RecordsFit(src, recs) && Rebuilt(src, recs, root, dst)
    requires Live(src, k) && Live(dst, k) && i < |Get(src, k).children|
    requires BelowSet(src, rank, Get(src, k).children, i) !! dst.Keys
    ensures k in recs && |Kids(recs[k])| == |Get(src, k).children|
    ensures LoadKids(dst, k, recs[k], i) == LoadKids(d1, k, recs[k], i + 1)
    ensures Rebuilt(src, recs, root, d1) && Live(d1, k)
    ensures BelowSet(src, rank, Get(src, k).children, i + 1) !! d1.Keys
    ensures dst.Keys + BelowSet(src, rank, Get(src, k).children, i) == d1.Keys + BelowSet(src, rank, Get(src, k).children, i + 1)
    decreases Height(rank, bound, k), 0, |Get(src, k).children| - i, 0
  {
    var c := Get(src, k).children[i];
    ChildStep(src, root, rank, bound, recs, k, i);
    d1 := LoadSubtree(src, root, rank, bound, recs, dst, c);
    LoadKidsStep(dst, k, recs[k], i, d1);
  }

  /** What the load of child record `i` of `k` rests on. */
  lemma ChildStep(src: Nodes, root: Id, rank: map<Id, nat>, bound: nat, recs: map<Id, Value>, k: Id, i: nat)
    requires Linked(src, root, rank, bound) && RecordsFit(src, recs) && Live(src, k) && i < |Get(src, k).children|
    ensures var cs := Get(src, k).children; var c := cs[i];
      && Live(src, c) && c != root && Get(src, c).parent == Some(k)
      && Height(rank, bound, c) < Height(rank, bound, k)
      && k in recs && |Kids(recs[k])| == |cs| && c in recs && Kids(recs[k])[i] == recs[c]
      && BelowSet(src, rank, cs, i) == Subtree(src, rank, c) + BelowSet(src, rank, cs, i + 1)
      && Subtree(src, rank, c) !! BelowSet(src, rank, cs, i + 1)
  {
    var c := Get(src, k).children[i];
    assert RecordFits(src, recs, k);
    assert LinkedAt(src, root, rank, bound, k) && LinkedAt(src, root, rank, bound, c);
    BelowSetSplit(src, root, rank, bound, k, i);
  }

  /**
   * Round trip of the nested format: parsing the record buildNode writes
   * for the root of a linked tree whose payloads the format can carry
   * succeeds and rebuilds a copy of every node and nothing else, each
   * holding what extractData keeps of its built record.
   */
  lemma TreeRoundTrip(src: Nodes, root: Id, rank: map<Id, nat>, bound: nat)
    requires Linked(src, root, rank, bound) && TreeClean(src)
    ensures var r := LoadRoot(Built(src, rank, bound, root));
      && r.Some? && Rebuilt(src, BuiltRecords(src, rank, bound), root, r.value)
      && forall x :: x in r.value <==> Live(src, x)
  {
    var recs := BuiltRecords(src, rank, bound);
    BuiltFit(src, root, rank, bound);
    assert recs[root] == Built(src, rank, bound, root);
    RootOnlyRebuilt(src, root, rank, bound, recs);
    SubtreeBelow(src, root, rank, bound, root);
    var r := LoadChildren(src, root, rank, bound, recs, RootOnly(recs[root]), root, 0);
    forall x | Live(src, x) ensures x in Subtree(src, rank, root) {
      DescendsFromRoot(src, root, rank, bound, x);
    }
  }

  /**
   * getData followed by getMind on a tree whose payloads the nested format
   * can carry: the parse succeeds, and the new mind holds the same nodes
   * under the same root, each a copy of the original with the same children.
   */
  method ReloadTree(src: Mind) returns (dst: Mind, ok: bool)
    requires src.Valid() && src.root.Some? && TreeClean(src.nodes)
    ensures ok && fresh(dst) && dst.Valid() && dst.root == src.root
    ensures dst.name == src.name && dst.author == src.author && dst.version == src.version
    ensures forall k :: Live(dst.nodes, k) <==> Live(src.nodes, k)
    ensures forall k | Live(src.nodes, k) ::
      && Copied(src.nodes, BuiltRecords(src.nodes, src.rank, src.bound), src.root.value, dst.nodes, k)
      && Get(dst.nodes, k).data == JObj(Payload(Built(src.nodes, src.rank, src.bound, k)))
      && forall c :: c in Get(dst.nodes, k).children <==> c in Get(src.nodes, k).children
  {
    var json := GetData(src);
    BuiltWellFormed(src.nodes, src.root.value, src.rank, src.bound, src.root.value);
    BuiltReads(src.nodes, src.root.value, src.rank, src.bound, src.root.value);
    dst, ok := GetMind(json);
    TreeRoundTrip(src.nodes, src.root.value, src.rank, src.bound);
    forall k | Live(src.nodes, k)
      ensures forall c :: c in Get(dst.nodes, k).children <==> c in Get(src.nodes, k).children
    {
      ParentsDetermineChildren(src.nodes, dst.nodes, src.root.value, src.rank, src.bound, dst.rank, dst.bound, k);
    }
  }

  /** A record for a child "a" with no payload. */
  function StaleChild(): Value {
    JObj(map["id" := JStr("a"), "topic" := JStr("A")])
  }

  /**
   * A mind as parse of a root record with one child "a", then removeNode of
   * "a", leave it: the root's payload still holds the child record under
   * `children`, and the root has no children.
   */
  function StaleMind(): Nodes {
    map["r" := Some(Node("r", Num(0.0), "R", JObj(map["children" := JArr([StaleChild()])]), true, None, Center, false, []))]
  }

  /** The root record of that mind, as buildNode writes it. */
  function StaleRecord(): Value {
    JObj(map["id" := JStr("r"), "topic" := JStr("R"), "expanded" := JBool(false), "children" := JArr([StaleChild()])])
  }

  /** buildNode writes the stale child record as the root's children. */
  lemma StaleBuilt()
    ensures Linked(StaleMind(), "r", map["r" := 0], 0) && !Live(StaleMind(), "a")
    ensures Built(StaleMind(), map["r" := 0], 0, "r") == StaleRecord()
  {
    var src, rank := StaleMind(), map["r" := 0];
    assert LinkedAt(src, "r", rank, 0, "r");
    assert BuiltKids(src, rank, 0, "r", 0) == [];
    assert TreeHeader(src, "r") == map["id" := JStr("r"), "topic" := JStr("R"), "expanded" := JBool(false)];
  }

  /** parse of that record adds "a" under the root. */
  lemma StaleParsed()
    ensures LoadRoot(StaleRecord()).Some? && Live(LoadRoot(StaleRecord()).value, "a")
  {
    var rec, child := StaleRecord(), StaleChild();
    assert Kids(rec) == [child];
    var start := RootOnly(rec);
    assert IdOf(rec) == "r" && start.Keys == {"r"} && Live(start, "r");
    assert Kids(child) == [] && IdOf(child) == "a";
    var data, dir, expanded := Some(JObj(Payload(child))), TreeDirection(true, child), Truthy(Field(child, "expanded"));
    var added := Added(start, "r", "a", Null, TopicOf(child), data, dir, expanded);
    AddedEffect(start, "r", "a", Null, TopicOf(child), data, dir, expanded);
    LoadKidsDone(added, "a", child);
    assert LoadSub(start, "r", child) == Some(added);
    LoadKidsStep(start, "r", rec, 0, added);
    LoadKidsDone(added, "r", rec);
  }

  /**
   * Why the round trip asks that a `children` payload key sit only on a node
   * with children: a root whose payload keeps a removed child's record
   * under `children` is saved with that record as its child, and parsing
   * the saved record brings the removed child back.
   */
  lemma StaleChildrenRevive()
    ensures var src, rank := StaleMind(), map["r" := 0];
      && Linked(src, "r", rank, 0) && !Live(src, "a")
      && var r := LoadRoot(Built(src, rank, 0, "r")); r.Some? && Live(r.value, "a")
  {
    StaleBuilt();
    StaleParsed();
  }
}
