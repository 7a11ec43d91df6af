/**
 * The JSON records both serialisers of src/format read and write: field
 * access, JavaScript truthiness, the payload extractData keeps, the payload
 * copy buildNode and arrayNode perform, and extractRoot, which the two
 * formats share line for line.
 */
module Records {
  import opened Wrappers
  import opened MindNodes
  import opened MindTree
  import opened MindStore

  /** MindData: the meta block (name, author, version), the format name and the serialised tree. */
  datatype MindData = MindData(name: Option<string>, author: Option<string>, version: Option<string>,
                               format: string, data: Value)

  /** The keys extractData skips: the fields the parsers read themselves. */
  const Reserved: set<string> := {"id", "topic", "parentId", "isroot", "direction", "expanded"}

  /** `rec[key]` for an own key; None is `undefined`. */
  function Field(rec: Value, key: string): (r: Option<Value>)
    ensures r.Some? <==> key in OwnKeys(rec)
    ensures r.Some? ==> r.value == OwnKeys(rec)[key]
  {
    if key in OwnKeys(rec) then Some(OwnKeys(rec)[key]) else None
  }

  /** JavaScript truthiness; `undefined` is falsy. */
  predicate Truthy(v: Option<Value>) {
    match v
    case None => false
    case Some(JNull) => false
    case Some(JBool(b)) => b
    case Some(JNum(n)) => n != 0.0
    case Some(JStr(s)) => s != ""
    case Some(_) => true
  }

  /** A record the parsers can read: an object whose `id` and `topic` are strings. */
  predicate WellFormed(rec: Value) {
    && rec.JObj?
    && "id" in rec.fields && rec.fields["id"].JStr?
    && "topic" in rec.fields && rec.fields["topic"].JStr?
  }

  /** `rec.id` of a well-formed record. */
  function IdOf(rec: Value): Id {
    if WellFormed(rec) then rec.fields["id"].s else ""
  }

  /** `rec.topic` of a well-formed record. */
  function TopicOf(rec: Value): string {
    if WellFormed(rec) then rec.fields["topic"].s else ""
  }

  /** `rec.isroot === true`. */
  predicate IsRootRecord(rec: Value) {
    Field(rec, "isroot") == Some(JBool(true))
  }

  /** What extractData keeps of a record: every own key but the reserved ones. */
  function Payload(rec: Value): map<string, Value> {
    map k | k in OwnKeys(rec) && k !in Reserved :: OwnKeys(rec)[k]
  }

  /** extractData: the loop over the record's own keys, skipping the reserved ones. */
  method ExtractData(rec: Value) returns (data: Value)
    ensures data == JObj(Payload(rec))
  {
    var fields := OwnKeys(rec);
    var todo := fields.Keys;
    var m: map<string, Value> := map[];
    while todo != {}
      invariant todo <= fields.Keys
      invariant m == map k | k in fields && k !in todo && k !in Reserved :: fields[k]
      decreases todo
    {
      var k :| k in todo;
      if k !in Reserved {
        m := m[k := fields[k]];
      }
      todo := todo - {k};
    }
    return JObj(m);
  }

  /** The payload keeps the `children` key, so the tree format's payload holds the child records. */
  lemma PayloadKeepsChildren(rec: Value)
    requires "children" in OwnKeys(rec)
    ensures "children" in Payload(rec) && Payload(rec)["children"] == OwnKeys(rec)["children"]
  {
  }

  /** The payload holds no reserved key, and every key it holds has the record's value. */
  lemma PayloadDropsReserved(rec: Value, k: string)
    ensures k in Payload(rec) <==> k in OwnKeys(rec) && k !in Reserved
    ensures k in Payload(rec) ==> Payload(rec)[k] == OwnKeys(rec)[k]
  {
  }

  /** Extracting twice keeps what extracting once kept. */
  lemma PayloadIdempotent(rec: Value)
    ensures Payload(JObj(Payload(rec))) == Payload(rec)
  {
  }

  /**
   * The copy loop of buildNode and arrayNode: every own key of the payload
   * is written over the record built so far.
   */
  method Overlay(base: map<string, Value>, data: Value) returns (m: map<string, Value>)
    ensures m == base + OwnKeys(data)
  {
    var fields := OwnKeys(data);
    var todo := fields.Keys;
    m := base;
    while todo != {}
      invariant todo <= fields.Keys
      invariant m == base + map k | k in fields && k !in todo :: fields[k]
      decreases todo
    {
      var k :| k in todo;
      m := m[k := fields[k]];
      todo := todo - {k};
    }
  }

  /**
   * extractData undoes the copy loop: written over fields that are all
   * reserved, a payload without reserved keys comes back unchanged.
   */
  lemma PayloadOfOverlay(base: map<string, Value>, data: Value)
    requires base.Keys <= Reserved && OwnKeys(data).Keys !! Reserved
    ensures Payload(JObj(base + OwnKeys(data))) == OwnKeys(data)
  {
  }

  /** The greatest position below n holding a root record, if any: the backward scan of extractRoot. */
  function LastRootBelow(arr: seq<Value>, n: nat): (r: Option<nat>)
    requires n <= |arr|
    ensures r.Some? ==> r.value < n && IsRootRecord(arr[r.value])
    ensures r.Some? ==> forall j | r.value < j < n :: !IsRootRecord(arr[j])
    ensures r.None? ==> forall j | 0 <= j < n :: !IsRootRecord(arr[j])
  {
    if n == 0 then None
    else if IsRootRecord(arr[n - 1]) then Some(n - 1)
    else LastRootBelow(arr, n - 1)
  }

  /** The greatest position holding a root record, if any. */
  function LastRootAt(arr: seq<Value>): (r: Option<nat>)
    ensures r.Some? ==> r.value < |arr| && IsRootRecord(arr[r.value])
    ensures r.Some? ==> forall j | r.value < j < |arr| :: !IsRootRecord(arr[j])
    ensures r.None? ==> forall j | 0 <= j < |arr| :: !IsRootRecord(arr[j])
  {
    LastRootBelow(arr, |arr|)
  }

  /** The smallest position from i on holding a root record, if any. */
  function FirstRootFrom(arr: seq<Value>, i: nat): (r: Option<nat>)
    requires i <= |arr|
    ensures r.Some? ==> i <= r.value < |arr| && IsRootRecord(arr[r.value])
    ensures r.Some? ==> forall j | i <= j < r.value :: !IsRootRecord(arr[j])
    ensures r.None? ==> forall j | i <= j < |arr| :: !IsRootRecord(arr[j])
    decreases |arr| - i
  {
    if i == |arr| then None
    else if IsRootRecord(arr[i]) then Some(i)
    else FirstRootFrom(arr, i + 1)
  }

  /** The smallest position holding a root record, if any. */
  function FirstRootAt(arr: seq<Value>): (r: Option<nat>)
    ensures r.Some? ==> r.value < |arr| && IsRootRecord(arr[r.value])
    ensures r.Some? ==> forall j | 0 <= j < r.value :: !IsRootRecord(arr[j])
    ensures r.None? ==> forall j | 0 <= j < |arr| :: !IsRootRecord(arr[j])
  {
    FirstRootFrom(arr, 0)
  }

  /** `s` back to front. */
  function Reverse<T>(s: seq<T>): (r: seq<T>)
    ensures |r| == |s| && forall i | 0 <= i < |s| :: r[i] == s[|s| - 1 - i]
  {
    seq(|s|, i requires 0 <= i < |s| => s[|s| - 1 - i])
  }

  /** Reversed, the last root record is the first one of the original order. */
  lemma LastRootOfReverse(arr: seq<Value>, j: nat)
    requires FirstRootAt(arr) == Some(j)
    ensures LastRootAt(Reverse(arr)) == Some(|arr| - 1 - j)
  {
    ReversedRoots(arr, j);
    LastRootUnique(Reverse(arr), |arr| - 1 - j);
  }

  /** Position j of a sequence is position |s| - 1 - j of its reverse, so roots before j are roots after it there. */
  lemma ReversedRoots(arr: seq<Value>, j: nat)
    requires j < |arr| && IsRootRecord(arr[j])
    requires forall k | 0 <= k < j :: !IsRootRecord(arr[k])
    ensures IsRootRecord(Reverse(arr)[|arr| - 1 - j])
    ensures forall k | |arr| - 1 - j < k < |arr| :: !IsRootRecord(Reverse(arr)[k])
  {
    var r := Reverse(arr);
    assert r[|arr| - 1 - j] == arr[j];
    forall k | |arr| - 1 - j < k < |arr|
      ensures !IsRootRecord(r[k])
    {
      assert r[k] == arr[|arr| - 1 - k];
    }
  }

  /** A root record with none after it below n is the last one below n. */
  lemma {:induction false} LastRootBelowUnique(arr: seq<Value>, n: nat, i: nat)
    requires i < n <= |arr| && IsRootRecord(arr[i])
    requires forall j | i < j < n :: !IsRootRecord(arr[j])
    ensures LastRootBelow(arr, n) == Some(i)
    decreases n
  {
    if n - 1 != i {
      LastRootBelowUnique(arr, n - 1, i);
    }
  }

  /** A root record with none after it is the last one. */
  lemma LastRootUnique(arr: seq<Value>, i: nat)
    requires i < |arr| && IsRootRecord(arr[i])
    requires forall j | i < j < |arr| :: !IsRootRecord(arr[j])
    ensures LastRootAt(arr) == Some(i)
  {
    LastRootBelowUnique(arr, |arr|, i);
  }

  /** Reversed, a sequence holds a root record exactly when the original does. */
  lemma LastRootOfReverseNone(arr: seq<Value>)
    ensures LastRootAt(Reverse(arr)).None? <==> FirstRootAt(arr).None?
  {
    var r := Reverse(arr);
    var n := |arr|;
    if LastRootAt(r).Some? {
      var i := LastRootAt(r).value;
      assert r[i] == arr[n - 1 - i];
    }
    if FirstRootAt(arr).Some? {
      var j := FirstRootAt(arr).value;
      assert r[n - 1 - j] == arr[j];
    }
  }

  /** The registry after setRoot(id, topic, extractData(rec)): the root node is added unless its id is a key. */
  function Rooted(nodes: Nodes, rec: Value): Nodes {
    var id := IdOf(rec);
    if id in nodes then nodes
    else nodes[id := Some(NewNode(id, Num(0.0), TopicOf(rec), Some(JObj(Payload(rec))), true, None, Center, false))]
  }

  /** Splicing one element out of a sequence takes it out of the multiset. */
  lemma SpliceMultiset<T>(s: seq<T>, i: nat)
    requires i < |s|
    ensures multiset(s[..i] + s[i + 1..]) + multiset{s[i]} == multiset(s)
    ensures |s[..i] + s[i + 1..]| == |s| - 1
  {
    assert s == s[..i] + [s[i]] + s[i + 1..];
  }

  /**
   * extractRoot: the backward scan for the last record with `isroot === true`;
   * that record becomes the root through setRoot and is spliced out, and its
   * id is returned. Without one, nothing changes and the answer is null.
   */
  method ExtractRoot(mind: Mind, arr: seq<Value>) returns (rootId: Option<Id>, rest: seq<Value>)
    requires mind.Valid()
    requires forall j | 0 <= j < |arr| :: WellFormed(arr[j])
    modifies mind`root, mind`nodes, mind`rank, mind`bound
    ensures LastRootAt(arr).None? ==>
      rootId.None? && rest == arr && mind.root == old(mind.root) && mind.nodes == old(mind.nodes)
    ensures LastRootAt(arr).Some? ==>
      var j := LastRootAt(arr).value;
      && rootId == Some(IdOf(arr[j])) && rest == arr[..j] + arr[j + 1..]
      && mind.root == rootId && mind.nodes == Rooted(old(mind.nodes), arr[j])
    ensures old(mind.root).None? ==> mind.Valid()
  {
    var len := |arr|;
    while len > 0
      invariant 0 <= len <= |arr|
      invariant forall j | len <= j < |arr| :: !IsRootRecord(arr[j])
    {
      len := len - 1;
      if IsRootRecord(arr[len]) {
        var rootJson := arr[len];
        var data := ExtractData(rootJson);
        mind.SetRoot(IdOf(rootJson), TopicOf(rootJson), Some(data));
        rest := arr[..len] + arr[len + 1..];
        return Some(IdOf(rootJson)), rest;
      }
    }
    return None, arr;
  }
}
