/**
 * The flat format of src/format/nodeArray.ts: getData writes the pre-order
 * list of records arrayNode builds; parse reverses a copy of the list, takes
 * the root out with extractRoot and then rebuilds the tree with the
 * recursive scan of extractSubNode.
 */
module NodeArrayFormat {
  import opened Wrappers
  import opened MindNodes
  import opened MindTree
  import opened Adding
  import opened MindStore
  import opened Records
  import opened Flattening

  /** _array: the records of the walk from the root, pushed onto `nodeArray`. */
  method Array(mind: Mind, nodeArray: seq<Value>) returns (out: seq<Value>)
    requires mind.Valid() && mind.root.Some?
    ensures out == nodeArray + Entries(mind.nodes, Preorder(mind.nodes, mind.rank, mind.bound, mind.root.value))
  {
    assert LinkedAt(mind.nodes, mind.root.value, mind.rank, mind.bound, mind.root.value);
    out := ArrayNode(mind, mind.root.value, nodeArray);
  }

  /** getData: the meta block, the format name and the flattened tree. */
  method GetData(mind: Mind) returns (json: MindData)
    requires mind.Valid() && mind.root.Some?
    ensures json.name == mind.name && json.author == mind.author && json.version == mind.version
    ensures json.format == "node_array"
    ensures json.data == JArr(Entries(mind.nodes, Preorder(mind.nodes, mind.rank, mind.bound, mind.root.value)))
  {
    var data := Array(mind, []);
    return MindData(mind.name, mind.author, mind.version, "node_array", JArr(data));
  }

  /**
   * The `eDirection` extractSubNode passes: -1 for a truthy "left", 1 for any
   * other truthy value, and null otherwise, which isNaN reads as 0 (Some(0)).
   */
  function EDirection(rec: Value): (r: Option<int>)
    ensures r.Some?
    ensures r == Some(-1) <==> Field(rec, "direction") == Some(JStr("left"))
    ensures r == Some(0) <==> !Truthy(Field(rec, "direction"))
  {
    var d := Field(rec, "direction");
    if Truthy(d) then Some(if d == Some(JStr("left")) then -1 else 1) else Some(0)
  }

  /**
   * One addNode of extractSubNode, under the record's parent: it takes
   * effect when the parent is live and the id is new, and changes nothing
   * otherwise. The payload passed is the record's `data` field.
   */
  function AddStep(nodes: Nodes, rec: Value): Nodes {
    var p := ParentName(rec);
    if p.Some? && Live(nodes, p.value) && IdOf(rec) !in nodes then
      Added(nodes, p.value, IdOf(rec), Null, TopicOf(rec), Field(rec, "data"), EDirection(rec),
            Truthy(Field(rec, "expanded")))
    else nodes
  }

  /** The registry after the addNode calls of `s`, in order. */
  function Replay(nodes: Nodes, s: seq<Value>): Nodes
    decreases |s|
  {
    if s == [] then nodes else AddStep(Replay(nodes, s[..|s| - 1]), s[|s| - 1])
  }

  /** Replaying two runs one after the other is replaying the joined run. */
  lemma {:induction false} ReplayAppend(nodes: Nodes, a: seq<Value>, b: seq<Value>)
    ensures Replay(nodes, a + b) == Replay(Replay(nodes, a), b)
    decreases |b|
  {
    if b == [] {
      assert a + b == a;
    } else {
      var c, b' := a + b, b[..|b| - 1];
      assert c[..|c| - 1] == a + b' && c[|c| - 1] == b[|b| - 1];
      calc {
        Replay(nodes, c);
        AddStep(Replay(nodes, a + b'), b[|b| - 1]);
        { ReplayAppend(nodes, a, b'); }
        AddStep(Replay(Replay(nodes, a), b'), b[|b| - 1]);
        Replay(Replay(nodes, a), b);
      }
    }
  }

  /** Each record taken lies under `pid` or under a record taken before it. */
  ghost predicate ParentsFirst(pid: Id, taken: seq<Value>) {
    forall i | 0 <= i < |taken| ::
      ChildOf(taken[i], pid) || exists j | 0 <= j < i :: ChildOf(taken[i], IdOf(taken[j]))
  }

  /** No record of `ts` is the parent of `x`. */
  ghost predicate Orphan(x: Value, ts: seq<Value>) {
    forall t | t in ts :: !ChildOf(x, IdOf(t))
  }

  /** Nothing left in `rest` lies under `pid` or under a record taken. */
  ghost predicate Closed(pid: Id, taken: seq<Value>, rest: seq<Value>) {
    forall x | x in rest :: !ChildOf(x, pid) && Orphan(x, taken)
  }

  /**
   * What extractSubNode(pid) did to `arr`: it split it into the records it
   * took and those it left, took parents before children, and left nothing
   * that belongs under `pid` or under a record it took.
   */
  ghost predicate Extracted(pid: Id, arr: seq<Value>, taken: seq<Value>, rest: seq<Value>) {
    && multiset(arr) == multiset(rest) + multiset(taken)
    && (forall x | x in rest :: x in arr)
    && (forall t | t in taken :: t in arr)
    && ParentsFirst(pid, taken)
    && Closed(pid, taken, rest)
  }

  /**
   * The state of extractSubNode's scan at position `len`: `arr` is split into
   * what is left and what was taken, parents first, nothing left belongs
   * under a record taken, and nothing left from `len` on belongs under `pid`.
   */
  ghost predicate Scanning(pid: Id, arr: seq<Value>, rest: seq<Value>, taken: seq<Value>, len: nat) {
    && len <= |rest| && |rest| + |taken| == |arr|
    && multiset(arr) == multiset(rest) + multiset(taken)
    && (forall x | x in rest :: x in arr) && (forall t | t in taken :: t in arr)
    && ParentsFirst(pid, taken) && (forall x | x in rest :: Orphan(x, taken))
    && (forall j | len <= j < |rest| :: !ChildOf(rest[j], pid))
    && (taken == [] ==> rest == arr)
  }

  lemma ScanStart(pid: Id, arr: seq<Value>)
    ensures Scanning(pid, arr, arr, [], |arr|)
  {
  }

  /** A record that does not belong under `pid` is passed over. */
  lemma ScanSkip(pid: Id, arr: seq<Value>, rest: seq<Value>, taken: seq<Value>, len: nat)
    requires Scanning(pid, arr, rest, taken, len) && 0 < len && !ChildOf(rest[len - 1], pid)
    ensures Scanning(pid, arr, rest, taken, len - 1)
  {
  }

  /** At the start of the list the scan has left nothing under `pid`. */
  lemma ScanDone(pid: Id, arr: seq<Value>, rest: seq<Value>, taken: seq<Value>)
    requires Scanning(pid, arr, rest, taken, 0)
    ensures Extracted(pid, arr, taken, rest)
  {
  }

  /** Splicing out position `i` leaves only elements that were there. */
  lemma SplicedFrom(s: seq<Value>, i: nat)
    requires i < |s|
    ensures forall x | x in s[..i] + s[i + 1..] :: x in s
  {
    var t := s[..i] + s[i + 1..];
    forall x | x in t ensures x in s {
      var j :| 0 <= j < |t| && t[j] == x;
      if j < i {
        assert s[j] == x;
      } else {
        assert s[j + 1] == x;
      }
    }
  }

  /** A record and the records taken below it come after the records taken before it. */
  lemma ParentsFirstJoin(pid: Id, taken: seq<Value>, nj: Value, taken2: seq<Value>)
    requires ParentsFirst(pid, taken) && ChildOf(nj, pid) && ParentsFirst(IdOf(nj), taken2)
    ensures ParentsFirst(pid, taken + [nj] + taken2)
  {
    var t := taken + [nj] + taken2;
    forall i | 0 <= i < |t|
      ensures ChildOf(t[i], pid) || exists j | 0 <= j < i :: ChildOf(t[i], IdOf(t[j]))
    {
      if i < |taken| {
        assert t[i] == taken[i];
        if !ChildOf(t[i], pid) {
          var j :| 0 <= j < i && ChildOf(taken[i], IdOf(taken[j]));
          assert t[j] == taken[j];
        }
      } else if i > |taken| {
        var i2 := i - |taken| - 1;
        assert t[i] == taken2[i2];
        if ChildOf(taken2[i2], IdOf(nj)) {
          assert t[|taken|] == nj;
        } else {
          var j :| 0 <= j < i2 && ChildOf(taken2[i2], IdOf(taken2[j]));
          assert t[|taken| + 1 + j] == taken2[j];
        }
      }
    }
  }

  /** A record under none of three runs is under none of their join. */
  lemma OrphanJoin(x: Value, taken: seq<Value>, nj: Value, taken2: seq<Value>)
    requires Orphan(x, taken) && !ChildOf(x, IdOf(nj)) && Orphan(x, taken2)
    ensures Orphan(x, taken + [nj] + taken2)
  {
    forall t | t in taken + [nj] + taken2 ensures !ChildOf(x, IdOf(t)) {
      assert t in taken || t == nj || t in taken2;
    }
  }

  /** The counts of one match: the spliced record and the recursive take add up. */
  lemma TakeCounts(arr: seq<Value>, rest: seq<Value>, taken: seq<Value>, i: nat,
                   rest2: seq<Value>, taken2: seq<Value>)
    requires i < |rest| && |rest| + |taken| == |arr|
    requires multiset(arr) == multiset(rest) + multiset(taken)
    requires multiset(rest[..i] + rest[i + 1..]) == multiset(rest2) + multiset(taken2)
    requires |rest2| + |taken2| == |rest| - 1
    ensures multiset(arr) == multiset(rest2) + multiset(taken + [rest[i]] + taken2)
    ensures |rest2| + |taken + [rest[i]] + taken2| == |arr| && |rest2| < |rest|
  {
    SpliceMultiset(rest, i);
  }

  /**
   * One match at position `len - 1`: the record is taken, then everything the
   * recursive call took below it; the scan goes on from `len - 1`, or from
   * the end when the call took anything.
   */
  lemma ScanTake(pid: Id, arr: seq<Value>, rest: seq<Value>, taken: seq<Value>, len: nat,
                 rest2: seq<Value>, taken2: seq<Value>)
    requires Scanning(pid, arr, rest, taken, len) && 0 < len && ChildOf(rest[len - 1], pid)
    requires var spliced := rest[..len - 1] + rest[len..];
      && Extracted(IdOf(rest[len - 1]), spliced, taken2, rest2)
      && |rest2| + |taken2| == |spliced|
      && (taken2 == [] ==> rest2 == spliced)
    ensures |rest2| < |rest|
    ensures Scanning(pid, arr, rest2, taken + [rest[len - 1]] + taken2, if taken2 == [] then len - 1 else |rest2|)
  {
    var i := len - 1;
    var nj := rest[i];
    var spliced := rest[..i] + rest[i + 1..];
    assert rest[..len - 1] + rest[len..] == spliced;
    var t := taken + [nj] + taken2;
    TakeCounts(arr, rest, taken, i, rest2, taken2);
    SplicedFrom(rest, i);
    ParentsFirstJoin(pid, taken, nj, taken2);
    forall x | x in rest2 ensures x in arr && Orphan(x, t) {
      assert x in spliced && x in rest;
      OrphanJoin(x, taken, nj, taken2);
    }
    if taken2 == [] {
      forall j | i <= j < |rest2| ensures !ChildOf(rest2[j], pid) {
        assert rest2[j] == rest[j + 1];
      }
    }
  }

  /**
   * extractSubNode: scan the list from its end; each record whose `parentId`
   * is `parentId` is added with addNode (index null, its `data` field as
   * payload), spliced out and counted, and its own children are extracted
   * from what is left; after a call that took any, the scan restarts from
   * the new end. The count is the number of records taken.
   */
  method ExtractSubNode(mind: Mind, parentId: Id, nodeArray: seq<Value>)
    returns (extractCount: nat, rest: seq<Value>, ghost taken: seq<Value>)
    requires mind.Valid()
    requires forall j | 0 <= j < |nodeArray| :: WellFormed(nodeArray[j])
    modifies mind`nodes, mind`rank, mind`bound
    ensures mind.Valid()
    ensures extractCount == |taken| && |rest| + |taken| == |nodeArray|
    ensures mind.nodes == Replay(old(mind.nodes), taken)
    ensures Extracted(parentId, nodeArray, taken, rest)
    ensures taken == [] ==> rest == nodeArray
    decreases |nodeArray|, 1
  {
    rest, taken, extractCount := nodeArray, [], 0;
    var len: nat := |rest|;
    ScanStart(parentId, nodeArray);
    while len > 0
      invariant mind.Valid() && extractCount == |taken|
      invariant mind.nodes == Replay(old(mind.nodes), taken)
      invariant Scanning(parentId, nodeArray, rest, taken, len)
      decreases |rest|, len
    {
      if ChildOf(rest[len - 1], parentId) {
        var sub: nat;
        sub, rest, taken := TakeChild(mind, parentId, nodeArray, rest, taken, len, old(mind.nodes));
        extractCount := extractCount + 1;
        if sub > 0 {
          len := |rest|;
          extractCount := extractCount + sub;
        } else {
          len := len - 1;
        }
      } else {
        ScanSkip(parentId, nodeArray, rest, taken, len);
        len := len - 1;
      }
    }
    ScanDone(parentId, nodeArray, rest, taken);
  }

  /** The addNode call of one match, as one more step of the replay. */
  method AddRecord(mind: Mind, parentId: Id, nodeJson: Value, ghost start: Nodes, ghost taken: seq<Value>)
    requires mind.Valid() && mind.nodes == Replay(start, taken)
    requires WellFormed(nodeJson) && ChildOf(nodeJson, parentId)
    modifies mind`nodes, mind`rank, mind`bound
    ensures mind.Valid() && mind.nodes == Replay(start, taken + [nodeJson])
  {
    ghost var before := mind.nodes;
    var _ := mind.AddNode(parentId, IdOf(nodeJson), Null, TopicOf(nodeJson), Field(nodeJson, "data"),
                          EDirection(nodeJson), Truthy(Field(nodeJson, "expanded")));
    assert mind.nodes == AddStep(before, nodeJson);
    assert (taken + [nodeJson])[..|taken|] == taken;
  }

  /** Splicing out one record of a list of well-formed records leaves well-formed records. */
  lemma SplicedWellFormed(arr: seq<Value>, rest: seq<Value>, i: nat)
    requires forall j | 0 <= j < |arr| :: WellFormed(arr[j])
    requires (forall x | x in rest :: x in arr) && i < |rest|
    ensures WellFormed(rest[i])
    ensures var t := rest[..i] + rest[i + 1..]; forall j | 0 <= j < |t| :: WellFormed(t[j])
  {
    var t := rest[..i] + rest[i + 1..];
    SplicedFrom(rest, i);
    assert rest[i] in rest;
    forall j | 0 <= j < |t| ensures WellFormed(t[j]) {
      assert t[j] in rest;
    }
  }

  /**
   * One match of extractSubNode's scan, at position `len - 1`: the record is
   * added under `parentId`, spliced out, and the records under it are
   * extracted from what is left; `sub` is how many of those there were.
   */
  method TakeChild(mind: Mind, parentId: Id, nodeArray: seq<Value>, rest: seq<Value>, ghost taken: seq<Value>,
                   len: nat, ghost start: Nodes)
    returns (sub: nat, rest2: seq<Value>, ghost taken2: seq<Value>)
    requires mind.Valid() && mind.nodes == Replay(start, taken)
    requires forall j | 0 <= j < |nodeArray| :: WellFormed(nodeArray[j])
    requires Scanning(parentId, nodeArray, rest, taken, len) && 0 < len && ChildOf(rest[len - 1], parentId)
    modifies mind`nodes, mind`rank, mind`bound
    ensures mind.Valid() && mind.nodes == Replay(start, taken2)
    ensures |taken2| == |taken| + 1 + sub && |rest2| < |rest|
    ensures Scanning(parentId, nodeArray, rest2, taken2, if sub > 0 then |rest2| else len - 1)
    decreases |nodeArray|, 0
  {
    var nodeJson := rest[len - 1];
    SplicedWellFormed(nodeArray, rest, len - 1);
    var data := ExtractData(nodeJson);
    AddRecord(mind, parentId, nodeJson, start, taken);
    var spliced := rest[..len - 1] + rest[len..];
    assert spliced == rest[..len - 1] + rest[len - 1 + 1..];
    ghost var more: seq<Value>;
    sub, rest2, more := ExtractSubNode(mind, IdOf(nodeJson), spliced);
    ScanTake(parentId, nodeArray, rest, taken, len, rest2, more);
    ReplayAppend(start, taken + [nodeJson], more);
    taken2 := taken + [nodeJson] + more;
  }

  /**
   * What parse leaves in a fresh mind: with no root record, nothing; else
   * the root is the first root record of the list in its original order
   * (the last one of the reversed copy), the registry is the root followed
   * by the addNode calls of the records extractSubNode took from the rest,
   * and a root id that is the empty string, being falsy, takes none.
   */
  ghost predicate Loaded(arr: seq<Value>, root: Option<Id>, nodes: Nodes,
                         rest0: seq<Value>, taken: seq<Value>, rest: seq<Value>) {
    var f := FirstRootAt(arr);
    if f.None? then root.None? && nodes == map[]
    else
      var rec := arr[f.value];
      var rev := Reverse(arr);
      var j := |arr| - 1 - f.value;
      && root == Some(IdOf(rec))
      && rest0 == rev[..j] + rev[j + 1..]
      && nodes == Replay(Rooted(map[], rec), taken)
      && (IdOf(rec) == "" ==> taken == [])
      && (IdOf(rec) != "" ==> Extracted(IdOf(rec), rest0, taken, rest))
  }

  /** parse, into a mind with no root yet. */
  method Parse(mind: Mind, nodeArray: seq<Value>) returns (ghost rest0: seq<Value>, ghost taken: seq<Value>, ghost rest: seq<Value>)
    requires mind.Valid() && mind.root.None?
    requires forall j | 0 <= j < |nodeArray| :: WellFormed(nodeArray[j])
    modifies mind`root, mind`nodes, mind`rank, mind`bound
    ensures mind.Valid()
    ensures Loaded(nodeArray, mind.root, mind.nodes, rest0, taken, rest)
  {
    var nArray := Reverse(nodeArray);
    var f := FirstRootAt(nodeArray);
    LastRootOfReverseNone(nodeArray);
    if f.Some? {
      LastRootOfReverse(nodeArray, f.value);
    }
    var rootId, spliced := ExtractRoot(mind, nArray);
    rest0, taken, rest := spliced, [], spliced;
    if rootId.Some? && rootId.value != "" {
      assert forall j | 0 <= j < |spliced| :: spliced[j] in nArray;
      var _, r, t := ExtractSubNode(mind, rootId.value, spliced);
      taken, rest := t, r;
    }
  }

  /** getMind: a new mind with the meta fields copied, parsed from the record list. */
  method GetMind(source: MindData) returns (mind: Mind, ghost rest0: seq<Value>, ghost taken: seq<Value>, ghost rest: seq<Value>)
    requires source.data.JArr? && forall j | 0 <= j < |source.data.items| :: WellFormed(source.data.items[j])
    ensures fresh(mind) && mind.Valid()
    ensures mind.name == source.name && mind.author == source.author && mind.version == source.version
    ensures Loaded(source.data.items, mind.root, mind.nodes, rest0, taken, rest)
  {
    mind := new Mind();
    mind.name := source.name;
    mind.author := source.author;
    mind.version := source.version;
    rest0, taken, rest := Parse(mind, source.data.items);
  }
}
