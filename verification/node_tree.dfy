/**
 * The nested format of src/format/nodeTree.ts: getData writes the root's
 * record with buildNode, each record holding the records of its children
 * under `children`; parse sets the root from the top record and adds the
 * nested records depth first with extractSubNode.
 */
module NodeTreeFormat {
  import opened Wrappers
  import opened MindNodes
  import opened MindTree
  import opened Adding
  import opened MindStore
  import opened Records
  import opened Flattening

  /**
   * The child records parse and extractSubNode loop over: the `children` own
   * key when it holds an array, and none otherwise.
   */
  function Kids(rec: Value): (r: seq<Value>)
    ensures forall i | 0 <= i < |r| :: r[i] < rec
    ensures Field(rec, "children").Some? && Field(rec, "children").value.JArr? ==> r == Field(rec, "children").value.items
    ensures !(Field(rec, "children").Some? && Field(rec, "children").value.JArr?) ==> r == []
  {
    if rec.JObj? && "children" in rec.fields && rec.fields["children"].JArr? then
      assert rec.fields["children"] < rec;
      rec.fields["children"].items
    else []
  }

  /** A nested record the parsers can read: it and every record below it are well formed. */
  predicate TreeWellFormed(rec: Value)
    decreases rec
  {
    WellFormed(rec) && forall i | 0 <= i < |Kids(rec)| :: TreeWellFormed(Kids(rec)[i])
  }

  /** _array: the flat records of the walk from the root, as in the flat format. */
  method Array(mind: Mind, nodeArray: seq<Value>) returns (out: seq<Value>)
    requires mind.Valid() && mind.root.Some?
    ensures out == nodeArray + Entries(mind.nodes, Preorder(mind.nodes, mind.rank, mind.bound, mind.root.value))
  {
    assert LinkedAt(mind.nodes, mind.root.value, mind.rank, mind.bound, mind.root.value);
    out := ArrayNode(mind, mind.root.value, nodeArray);
  }

  /** The fields buildNode sets before it copies the payload: no parent id and no root flag. */
  function TreeHeader(nodes: Nodes, k: Id): map<string, Value>
    requires Live(nodes, k)
  {
    var n := Get(nodes, k);
    var m := map["id" := JStr(n.id), "topic" := JStr(n.topic), "expanded" := JBool(n.expanded)];
    if ParentIsRoot(nodes, k) then m["direction" := JStr(SideName(n.direction))] else m
  }

  /**
   * The record buildNode returns for a node whose children were built into
   * `kids`: the header, the payload over it, and the child records over both
   * when there are any.
   */
  function TreeRecord(nodes: Nodes, k: Id, kids: seq<Value>): Value
    requires Live(nodes, k)
  {
    var m := TreeHeader(nodes, k) + OwnKeys(Get(nodes, k).data);
    JObj(if |kids| > 0 then m["children" := JArr(kids)] else m)
  }

  /** buildNode(k): the nested record of the subtree under `k`. */
  ghost function Built(nodes: Nodes, rank: map<Id, nat>, bound: nat, k: Id): Value
    decreases Height(rank, bound, k), 1
  {
    if Live(nodes, k) then TreeRecord(nodes, k, BuiltKids(nodes, rank, bound, k, |Get(nodes, k).children|))
    else JNull
  }

  /** The records built for the first `i` children of `k`, in order. */
  ghost function BuiltKids(nodes: Nodes, rank: map<Id, nat>, bound: nat, k: Id, i: nat): (r: seq<Value>)
    requires Live(nodes, k) && i <= |Get(nodes, k).children|
    ensures |r| == i
    decreases Height(rank, bound, k), 0, i
  {
    if i == 0 then []
    else
      var c := Get(nodes, k).children[i - 1];
      BuiltKids(nodes, rank, bound, k, i - 1) + [if Deeper(rank, bound, k, c) then Built(nodes, rank, bound, c) else JNull]
  }

  /** The first half of buildNode: header and payload. */
  method NodeHead(mind: Mind, k: Id) returns (m: map<string, Value>)
    requires mind.Valid() && Live(mind.nodes, k)
    ensures m == TreeHeader(mind.nodes, k) + OwnKeys(Get(mind.nodes, k).data)
  {
    var node := mind.nodes[k].value;
    m := map["id" := JStr(node.id), "topic" := JStr(node.topic), "expanded" := JBool(node.expanded)];
    if node.parent.Some? {
      var parent := mind.GetNode(node.parent.value);
      if parent.Some? && parent.value.isRoot {
        m := m["direction" := JStr(SideName(node.direction))];
      }
    }
    assert m == TreeHeader(mind.nodes, k);
    if node.data != JNull {
      m := Overlay(m, node.data);
    }
  }

  /** buildNode: the node's record, with its children built in order when it has any. */
  method BuildNode(mind: Mind, k: Id) returns (rec: Value)
    requires mind.Valid() && Live(mind.nodes, k)
    ensures rec == Built(mind.nodes, mind.rank, mind.bound, k)
    decreases Height(mind.rank, mind.bound, k)
  {
    var m := NodeHead(mind, k);
    var children := mind.nodes[k].value.children;
    ghost var nodes, rank, bound := mind.nodes, mind.rank, mind.bound;
    if |children| > 0 {
      var kids: seq<Value> := [];
      for i := 0 to |children|
        invariant kids == BuiltKids(nodes, rank, bound, k, i)
      {
        BuiltStep(nodes, mind.root.value, rank, bound, k, i);
        var c := BuildNode(mind, children[i]);
        kids := kids + [c];
      }
      m := m["children" := JArr(kids)];
    }
    return JObj(m);
  }

  /** One more child built: its record follows those of the first `i`, and it is deeper. */
  lemma BuiltStep(nodes: Nodes, root: Id, rank: map<Id, nat>, bound: nat, k: Id, i: nat)
    requires Linked(nodes, root, rank, bound) && Live(nodes, k) && i < |Get(nodes, k).children|
    ensures var c := Get(nodes, k).children[i];
      && Live(nodes, c) && Height(rank, bound, c) < Height(rank, bound, k)
      && BuiltKids(nodes, rank, bound, k, i + 1) == BuiltKids(nodes, rank, bound, k, i) + [Built(nodes, rank, bound, c)]
  {
    var c := Get(nodes, k).children[i];
    assert LinkedAt(nodes, root, rank, bound, k);
    assert LinkedAt(nodes, root, rank, bound, c);
    assert Deeper(rank, bound, k, c);
  }

  /** getData: the meta block, the format name and the root's nested record. */
  method GetData(mind: Mind) returns (json: MindData)
    requires mind.Valid() && mind.root.Some?
    ensures json.name == mind.name && json.author == mind.author && json.version == mind.version
    ensures json.format == "node_tree"
    ensures json.data == Built(mind.nodes, mind.rank, mind.bound, mind.root.value)
  {
    assert LinkedAt(mind.nodes, mind.root.value, mind.rank, mind.bound, mind.root.value);
    var data := BuildNode(mind, mind.root.value);
    return MindData(mind.name, mind.author, mind.version, "node_tree", data);
  }

  /**
   * What the built record says, key by key: the child records under
   * `children` exactly when the node has children; otherwise a payload key
   * wins; the header gives the id, topic and expanded flag, and a
   * `direction` only for a child of the root; no parent id and no root flag.
   */
  lemma BuiltFields(nodes: Nodes, root: Id, rank: map<Id, nat>, bound: nat, k: Id)
    requires Linked(nodes, root, rank, bound) && Live(nodes, k)
    ensures var n := Get(nodes, k); var d := OwnKeys(n.data); var rec := Built(nodes, rank, bound, k);
      var kids := BuiltKids(nodes, rank, bound, k, |n.children|);
      && rec.JObj?
      && (|n.children| > 0 ==> Field(rec, "children") == Some(JArr(kids)))
      && (|n.children| == 0 ==> Field(rec, "children") == Field(n.data, "children"))
      && (forall i | 0 <= i < |n.children| :: kids[i] == Built(nodes, rank, bound, n.children[i]))
      && (forall key | key in d && key != "children" :: Field(rec, key) == Some(d[key]))
      && ("id" !in d ==> Field(rec, "id") == Some(JStr(n.id)))
      && ("topic" !in d ==> Field(rec, "topic") == Some(JStr(n.topic)))
      && ("expanded" !in d ==> Field(rec, "expanded") == Some(JBool(n.expanded)))
      && ("direction" !in d ==>
            Field(rec, "direction") == if ParentIsRoot(nodes, k) then Some(JStr(SideName(n.direction))) else None)
      && ("parentId" !in d ==> Field(rec, "parentId").None?)
      && ("isroot" !in d ==> Field(rec, "isroot").None?)
  {
    var n := Get(nodes, k);
    var h := TreeHeader(nodes, k);
    assert "id" in h && h["id"] == JStr(n.id);
    assert "topic" in h && h["topic"] == JStr(n.topic);
    assert "expanded" in h && h["expanded"] == JBool(n.expanded);
    assert "parentId" !in h && "isroot" !in h && "children" !in h;
    assert ("direction" in h <==> ParentIsRoot(nodes, k))
        && (ParentIsRoot(nodes, k) ==> h["direction"] == JStr(SideName(n.direction)));
    forall i | 0 <= i < |n.children| ensures BuiltKids(nodes, rank, bound, k, |n.children|)[i] == Built(nodes, rank, bound, n.children[i]) {
      KidAt(nodes, root, rank, bound, k, |n.children|, i);
    }
  }

  /** Record `i` of the first `j` built children is the record of child `i`. */
  lemma {:induction false} KidAt(nodes: Nodes, root: Id, rank: map<Id, nat>, bound: nat, k: Id, j: nat, i: nat)
    requires Linked(nodes, root, rank, bound) && Live(nodes, k) && i < j <= |Get(nodes, k).children|
    ensures BuiltKids(nodes, rank, bound, k, j)[i] == Built(nodes, rank, bound, Get(nodes, k).children[i])
    decreases j
  {
    BuiltStep(nodes, root, rank, bound, k, j - 1);
    if i < j - 1 {
      KidAt(nodes, root, rank, bound, k, j - 1, i);
    }
  }

  /**
   * The `eDirection` extractSubNode passes: under the root -1 for "left" and
   * 1 otherwise; under any other parent null, which isNaN reads as 0.
   */
  function TreeDirection(parentIsRoot: bool, rec: Value): (r: Option<int>)
    ensures parentIsRoot ==> (r == Some(-1) <==> Field(rec, "direction") == Some(JStr("left")))
    ensures parentIsRoot ==> (r == Some(1) <==> Field(rec, "direction") != Some(JStr("left")))
    ensures !parentIsRoot ==> r == Some(0)
  {
    if parentIsRoot then Some(if Field(rec, "direction") == Some(JStr("left")) then -1 else 1) else Some(0)
  }

  /**
   * extractSubNode(pid, rec) on the registry `nodes`: addNode with the
   * record's payload (extractData keeps `children`), then the child records
   * in order under the new node. When addNode fails (an id already taken),
   * the recursion into a child reads `isroot` of null and throws: None.
   */
  function LoadSub(nodes: Nodes, pid: Id, rec: Value): (r: Option<Nodes>)
    decreases rec, 1
  {
    if Live(nodes, pid) && IdOf(rec) !in nodes then
      var isRoot := Get(nodes, pid).isRoot;
      var added := Added(nodes, pid, IdOf(rec), Null, TopicOf(rec), Some(JObj(Payload(rec))),
                         TreeDirection(isRoot, rec), Truthy(Field(rec, "expanded")));
      LoadKids(added, IdOf(rec), rec, 0)
    else if Kids(rec) == [] then Some(nodes)
    else None
  }

  /** The child records of `rec` from position `i` on, each extracted under `pid`. */
  function LoadKids(nodes: Nodes, pid: Id, rec: Value, i: nat): (r: Option<Nodes>)
    requires i <= |Kids(rec)|
    decreases rec, 0, |Kids(rec)| - i
  {
    if i == |Kids(rec)| then Some(nodes)
    else
      match LoadSub(nodes, pid, Kids(rec)[i])
      case None => None
      case Some(n) => LoadKids(n, pid, rec, i + 1)
  }

  /** The registry setRoot leaves in a fresh mind for the top record. */
  function RootOnly(rec: Value): Nodes {
    map[IdOf(rec) := Some(NewNode(IdOf(rec), Num(0.0), TopicOf(rec), Some(JObj(Payload(rec))), true, None, Center, false))]
  }

  /** parse of a top record into a fresh mind: the root, then each child record under it. */
  function LoadRoot(rec: Value): Option<Nodes> {
    LoadKids(RootOnly(rec), IdOf(rec), rec, 0)
  }

  /**
   * extractSubNode: add the record under `parentId`, then its children under
   * the new node. `ok` is false where the source throws.
   */
  method ExtractSubNode(mind: Mind, parentId: Id, nodeJson: Value) returns (ok: bool)
    requires mind.Valid() && Live(mind.nodes, parentId) && TreeWellFormed(nodeJson)
    modifies mind`nodes, mind`rank, mind`bound
    ensures mind.Valid()
    ensures ok <==> LoadSub(old(mind.nodes), parentId, nodeJson).Some?
    ensures ok ==> mind.nodes == LoadSub(old(mind.nodes), parentId, nodeJson).value
    ensures ok ==> forall k | Live(old(mind.nodes), k) :: Live(mind.nodes, k)
    decreases nodeJson, 1
  {
    var data := ExtractData(nodeJson);
    var parent := mind.GetNode(parentId);
    var direction := TreeDirection(parent.value.isRoot, nodeJson);
    ghost var before := mind.nodes;
    var node := mind.AddNode(parentId, IdOf(nodeJson), Null, TopicOf(nodeJson), Some(data), direction,
                             Truthy(Field(nodeJson, "expanded")));
    if node.None? {
      return Kids(nodeJson) == [];
    }
    AddedKeeps(before, parentId, IdOf(nodeJson), Null, TopicOf(nodeJson), Some(data), direction, Truthy(Field(nodeJson, "expanded")));
    ok := ExtractChildren(mind, IdOf(nodeJson), nodeJson);
  }

  /**
   * The loop of parse and extractSubNode: each child record of `rec` in
   * order, extracted under `pid`. `ok` is false where the source throws.
   */
  method ExtractChildren(mind: Mind, pid: Id, rec: Value) returns (ok: bool)
    requires mind.Valid() && Live(mind.nodes, pid) && TreeWellFormed(rec)
    modifies mind`nodes, mind`rank, mind`bound
    ensures mind.Valid()
    ensures ok <==> LoadKids(old(mind.nodes), pid, rec, 0).Some?
    ensures ok ==> mind.nodes == LoadKids(old(mind.nodes), pid, rec, 0).value
    ensures ok ==> forall k | Live(old(mind.nodes), k) :: Live(mind.nodes, k)
    decreases rec, 0
  {
    var children := Kids(rec);
    ghost var start := mind.nodes;
    for i := 0 to |children|
      invariant mind.Valid() && Live(mind.nodes, pid)
      invariant forall k | Live(start, k) :: Live(mind.nodes, k)
      invariant LoadKids(start, pid, rec, 0) == LoadKids(mind.nodes, pid, rec, i)
    {
      ghost var pre := mind.nodes;
      var r := ExtractSubNode(mind, pid, children[i]);
      LoadKidsStep(pre, pid, rec, i, mind.nodes);
      if !r {
        return false;
      }
    }
    LoadKidsDone(mind.nodes, pid, rec);
    return true;
  }

  /** One child record extracted: the rest of the run goes on from what it left, or the run throws with it. */
  lemma LoadKidsStep(nodes: Nodes, pid: Id, rec: Value, i: nat, after: Nodes)
    requires i < |Kids(rec)|
    ensures LoadSub(nodes, pid, Kids(rec)[i]).None? ==> LoadKids(nodes, pid, rec, i).None?
    ensures LoadSub(nodes, pid, Kids(rec)[i]) == Some(after) ==>
      LoadKids(nodes, pid, rec, i) == LoadKids(after, pid, rec, i + 1)
  {
  }

  /** Past the last child record, the run leaves the registry as it is. */
  lemma LoadKidsDone(nodes: Nodes, pid: Id, rec: Value)
    ensures LoadKids(nodes, pid, rec, |Kids(rec)|) == Some(nodes)
  {
  }

  /** parse, into a mind with no root yet. `ok` is false where the source throws. */
  method Parse(mind: Mind, nodeRoot: Value) returns (ok: bool)
    requires mind.Valid() && mind.root.None? && TreeWellFormed(nodeRoot)
    modifies mind`root, mind`nodes, mind`rank, mind`bound
    ensures mind.Valid() && mind.root == Some(IdOf(nodeRoot))
    ensures ok <==> LoadRoot(nodeRoot).Some?
    ensures ok ==> mind.nodes == LoadRoot(nodeRoot).value
  {
    var data := ExtractData(nodeRoot);
    mind.SetRoot(IdOf(nodeRoot), TopicOf(nodeRoot), Some(data));
    assert mind.nodes == RootOnly(nodeRoot);
    ok := ExtractChildren(mind, IdOf(nodeRoot), nodeRoot);
  }

  /** getMind: a new mind with the meta fields copied, parsed from the top record. */
  method GetMind(source: MindData) returns (mind: Mind, ok: bool)
    requires TreeWellFormed(source.data)
    ensures fresh(mind) && mind.Valid() && mind.root == Some(IdOf(source.data))
    ensures mind.name == source.name && mind.author == source.author && mind.version == source.version
    ensures ok <==> LoadRoot(source.data).Some?
    ensures ok ==> mind.nodes == LoadRoot(source.data).value
  {
    mind := new Mind();
    mind.name := source.name;
    mind.author := source.author;
    mind.version := source.version;
    ok := Parse(mind, source.data);
  }
}
