/**
 * The flat format read back: parsing the list getData writes rebuilds the
 * same tree. Every node comes back under the same parent with the same id
 * and topic; what the flat records cannot carry is stated per node by
 * `Copied`: a parsed non-root node gets a null index, the right side and
 * the record's `data` field as payload, and the root loses its expanded
 * flag.
 */
module NodeArrayReload {
  import opened Wrappers
  import opened MindNodes
  import opened MindTree
  import opened Adding
  import opened MindStore
  import opened Records
  import opened Flattening
  import opened NodeArrayFormat

  /** The payload addNode gives a parsed node: the `data` field of the original payload, or `{}`. */
  function Carried(d: Value): (r: Value)
    ensures "data" in OwnKeys(d) ==> r == OwnKeys(d)["data"]
    ensures "data" !in OwnKeys(d) ==> r == JObj(map[])
  {
    var f := Field(d, "data");
    if f.Some? then f.value else JObj(map[])
  }

  /** What the parsed node `k` keeps of the original one. */
  ghost predicate Copied(src: Nodes, root: Id, dst: Nodes, k: Id)
    requires Live(src, k) && Live(dst, k)
  {
    var a, b := Get(src, k), Get(dst, k);
    && b.id == k && b.topic == a.topic && b.parent == a.parent && b.isRoot == a.isRoot
    && (k == root ==> b.data == JObj(OwnKeys(a.data)) && !b.expanded)
    && (k != root ==> b.data == Carried(a.data) && b.expanded == a.expanded
                      && b.index == Null && b.direction == Right)
  }

  /** Every node parsed so far is a copy of a node of `src`, and the root is there. */
  ghost predicate Rebuilt(src: Nodes, root: Id, dst: Nodes) {
    && Live(dst, root)
    && forall k | k in dst :: Live(dst, k) && Live(src, k) && Copied(src, root, dst, k)
  }

  /** The root record, set as root, is a copy of the root. */
  lemma RootedRebuilds(src: Nodes, root: Id, rank: map<Id, nat>, bound: nat)
    requires Linked(src, root, rank, bound) && Clean(src)
    ensures Rebuilt(src, root, Rooted(map[], Record(src, root)))
  {
    CleanRecord(src, root, rank, bound, root);
    assert LinkedAt(src, root, rank, bound, root);
  }

  /**
   * The addNode of a record of `src` whose parent is already parsed adds a
   * copy of its node, and keeps every node parsed before.
   */
  lemma AddStepRebuilds(src: Nodes, root: Id, rank: map<Id, nat>, bound: nat, dst: Nodes, k: Id)
    requires Linked(src, root, rank, bound) && Clean(src) && Rebuilt(src, root, dst)
    requires Live(src, k) && k != root && Get(src, k).parent.Some? && Live(dst, Get(src, k).parent.value)
    ensures var d2 := AddStep(dst, Record(src, k));
      && Rebuilt(src, root, d2) && Live(d2, k)
      && forall x | Live(dst, x) :: Live(d2, x)
  {
    var rec := Record(src, k);
    CleanRecord(src, root, rank, bound, k);
    assert LinkedAt(src, root, rank, bound, k);
    var p := Get(src, k).parent.value;
    assert ParentName(rec) == Some(p);
    if k !in dst {
      AddFresh(src, root, rank, bound, dst, k, p);
    }
  }

  /** addNode of the record of a node not parsed yet, under its parsed parent `p`. */
  lemma AddFresh(src: Nodes, root: Id, rank: map<Id, nat>, bound: nat, dst: Nodes, k: Id, p: Id)
    requires Linked(src, root, rank, bound) && Clean(src) && Rebuilt(src, root, dst)
    requires Live(src, k) && k != root && Get(src, k).parent == Some(p) && Live(dst, p) && k !in dst
    ensures var d2 := AddStep(dst, Record(src, k));
      && Rebuilt(src, root, d2) && Live(d2, k)
      && forall x | Live(dst, x) :: Live(d2, x)
  {
    var rec := Record(src, k);
    CleanRecord(src, root, rank, bound, k);
    var expanded := Truthy(Field(rec, "expanded"));
    var d2 := Added(dst, p, k, Null, TopicOf(rec), Field(rec, "data"), EDirection(rec), expanded);
    assert AddStep(dst, rec) == d2;
    assert Get(dst, p).isRoot <==> p == root by {
      assert LinkedAt(src, root, rank, bound, p);
    }
    FreshCopied(src, root, dst, k, p, Null, TopicOf(rec), Field(rec, "data"), EDirection(rec), expanded);
    RebuiltAfter(src, root, dst, d2, p, k);
  }

  /** The node addNode creates for a parsed record is a copy of the original. */
  lemma FreshCopied(src: Nodes, root: Id, dst: Nodes, k: Id, p: Id, index: Index, topic: string,
                    data: Option<Value>, eDirection: Option<int>, expanded: bool)
    requires Rebuilt(src, root, dst) && Live(src, k) && k != root && Live(dst, p) && k !in dst
    requires Get(dst, p).isRoot <==> p == root
    requires eDirection.Some? && Get(src, k).parent == Some(p) && !Get(src, k).isRoot
    requires index == Null && topic == Get(src, k).topic && expanded == Get(src, k).expanded
    requires data == Field(Get(src, k).data, "data")
    ensures var d2 := Added(dst, p, k, index, topic, data, eDirection, expanded);
      && d2.Keys == dst.Keys + {k} && (forall x | x in dst && x != p :: d2[x] == dst[x])
      && Live(d2, p) && Get(d2, p) == Get(dst, p).(children := Get(d2, p).children)
      && Live(d2, k) && Copied(src, root, d2, k)
  {
    AddedEffect(dst, p, k, index, topic, data, eDirection, expanded);
    assert NewDirection(dst, p, eDirection) == Right;
  }

  /** Adding a copy of `k` and changing only the children of `p` keeps every other node a copy. */
  lemma RebuiltAfter(src: Nodes, root: Id, dst: Nodes, d2: Nodes, p: Id, k: Id)
    requires Rebuilt(src, root, dst) && Live(dst, p)
    requires d2.Keys == dst.Keys + {k} && forall x | x in dst && x != p :: d2[x] == dst[x]
    requires Live(d2, p) && Get(d2, p) == Get(dst, p).(children := Get(d2, p).children)
    requires Live(src, k) && Live(d2, k) && Copied(src, root, d2, k)
    ensures Rebuilt(src, root, d2) && forall x | Live(dst, x) :: Live(d2, x)
  {
    forall x | x in d2 ensures Live(d2, x) && Live(src, x) && Copied(src, root, d2, x) {
      if x != k && x != p {
        assert d2[x] == dst[x];
      }
    }
  }

  /**
   * Replaying records of non-root nodes of `src`, each under the root or
   * under a record replayed before it, rebuilds copies of their nodes.
   */
  lemma {:induction false} ReplayRebuilds(src: Nodes, root: Id, rank: map<Id, nat>, bound: nat, taken: seq<Value>)
    requires Linked(src, root, rank, bound) && Clean(src)
    requires forall t | t in taken :: Live(src, IdOf(t)) && IdOf(t) != root && t == Record(src, IdOf(t))
    requires ParentsFirst(root, taken)
    ensures var dst := Replay(Rooted(map[], Record(src, root)), taken);
      && Rebuilt(src, root, dst) && forall t | t in taken :: Live(dst, IdOf(t))
    decreases |taken|
  {
    var start := Rooted(map[], Record(src, root));
    if taken == [] {
      RootedRebuilds(src, root, rank, bound);
    } else {
      var n := |taken|;
      var pre, last := taken[..n - 1], taken[n - 1];
      assert taken == pre + [last];
      ParentsFirstLast(root, taken);
      ReplayRebuilds(src, root, rank, bound, pre);
      assert Replay(start, taken) == AddStep(Replay(start, pre), last);
      ReplayStep(src, root, rank, bound, Replay(start, pre), pre, last);
    }
  }

  /** One step of the replay: the next record's parent is the root or was replayed before it. */
  lemma ReplayStep(src: Nodes, root: Id, rank: map<Id, nat>, bound: nat, dst: Nodes, pre: seq<Value>, last: Value)
    requires Linked(src, root, rank, bound) && Clean(src)
    requires Rebuilt(src, root, dst) && forall t | t in pre :: Live(dst, IdOf(t))
    requires Live(src, IdOf(last)) && IdOf(last) != root && last == Record(src, IdOf(last))
    requires ChildOf(last, root) || exists t | t in pre :: ChildOf(last, IdOf(t))
    ensures Rebuilt(src, root, AddStep(dst, last))
    ensures forall t | t in pre + [last] :: Live(AddStep(dst, last), IdOf(t))
  {
    var k := IdOf(last);
    CleanRecord(src, root, rank, bound, k);
    assert Live(dst, Get(src, k).parent.value) by {
      if !ChildOf(last, root) {
        var t :| t in pre && ChildOf(last, IdOf(t));
        assert Get(src, k).parent == Some(IdOf(t));
      }
    }
    AddStepRebuilds(src, root, rank, bound, dst, k);
  }

  /** A run taken parents first: so is its prefix, and its last record lies under `pid` or under a record before it. */
  lemma ParentsFirstLast(pid: Id, taken: seq<Value>)
    requires ParentsFirst(pid, taken) && |taken| > 0
    ensures var pre := taken[..|taken| - 1];
      && ParentsFirst(pid, pre)
      && (ChildOf(taken[|taken| - 1], pid) || exists t | t in pre :: ChildOf(taken[|taken| - 1], IdOf(t)))
  {
    var n := |taken|;
    var pre := taken[..n - 1];
    forall i | 0 <= i < |pre|
      ensures ChildOf(pre[i], pid) || exists j | 0 <= j < i :: ChildOf(pre[i], IdOf(pre[j]))
    {
      if !ChildOf(taken[i], pid) {
        var j :| 0 <= j < i && ChildOf(taken[i], IdOf(taken[j]));
        assert pre[j] == taken[j];
      }
    }
    if !ChildOf(taken[n - 1], pid) {
      var j :| 0 <= j < n - 1 && ChildOf(taken[n - 1], IdOf(taken[j]));
      assert pre[j] in pre;
    }
  }

  /**
   * The list getData writes for `src`: the root's record first, then one
   * record for each other node; after parse's reversal and the root's
   * removal, exactly the records of the non-root nodes are left.
   */
  lemma RestRecords(src: Nodes, root: Id, rank: map<Id, nat>, bound: nat)
    requires Linked(src, root, rank, bound) && Clean(src)
    ensures var arr := Entries(src, Preorder(src, rank, bound, root));
      var rev := Reverse(arr); var j := |arr| - 1;
      && |arr| > 0 && arr[0] == Record(src, root) && FirstRootAt(arr) == Some(0)
      && (forall i | 0 <= i < |arr| :: WellFormed(arr[i]))
      && (forall x | x in rev[..j] + rev[j + 1..] :: Live(src, IdOf(x)) && IdOf(x) != root && x == Record(src, IdOf(x)))
      && (forall k | Live(src, k) && k != root :: Record(src, k) in rev[..j] + rev[j + 1..])
  {
    var ks := Preorder(src, rank, bound, root);
    PreorderOnce(src, root, rank, bound);
    var arr := Entries(src, ks);
    CleanRecord(src, root, rank, bound, root);
    assert arr[0] == Record(src, root);
    EntriesWellFormed(src, root, rank, bound, ks);
    TailRecords(src, root, rank, bound, ks);
    ReversedTail(arr);
  }

  /** Records of live nodes with clean payloads are well formed. */
  lemma EntriesWellFormed(src: Nodes, root: Id, rank: map<Id, nat>, bound: nat, ks: seq<Id>)
    requires Linked(src, root, rank, bound) && Clean(src) && forall x | x in ks :: Live(src, x)
    ensures forall i | 0 <= i < |ks| :: WellFormed(Entries(src, ks)[i])
  {
    forall i | 0 <= i < |ks| ensures WellFormed(Entries(src, ks)[i]) {
      assert ks[i] in ks;
      CleanRecord(src, root, rank, bound, ks[i]);
    }
  }

  /** After the root's record come exactly the records of the other nodes. */
  lemma TailRecords(src: Nodes, root: Id, rank: map<Id, nat>, bound: nat, ks: seq<Id>)
    requires Linked(src, root, rank, bound) && Clean(src)
    requires Distinct(ks) && |ks| > 0 && ks[0] == root && forall x :: x in ks <==> Live(src, x)
    ensures var tail := Entries(src, ks)[1..];
      && (forall x | x in tail :: Live(src, IdOf(x)) && IdOf(x) != root && x == Record(src, IdOf(x)))
      && (forall k | Live(src, k) && k != root :: Record(src, k) in tail)
  {
    var arr := Entries(src, ks);
    var tail := arr[1..];
    forall x | x in tail ensures Live(src, IdOf(x)) && IdOf(x) != root && x == Record(src, IdOf(x)) {
      var i :| 0 <= i < |tail| && tail[i] == x;
      assert x == arr[i + 1];
      assert ks[i + 1] in ks && ks[i + 1] != ks[0];
      CleanRecord(src, root, rank, bound, ks[i + 1]);
    }
    forall k | Live(src, k) && k != root ensures Record(src, k) in tail {
      var m :| 0 <= m < |ks| && ks[m] == k;
      assert m != 0 && tail[m - 1] == arr[m];
    }
  }

  /** Reversed, with its last element (the original first) spliced out, a sequence holds what its tail holds. */
  lemma ReversedTail<T>(s: seq<T>)
    requires |s| > 0
    ensures var rev := Reverse(s); var j := |s| - 1;
      forall x :: x in rev[..j] + rev[j + 1..] <==> x in s[1..]
  {
    var rev := Reverse(s);
    var j := |s| - 1;
    var r := rev[..j] + rev[j + 1..];
    assert r == rev[..j];
    forall x ensures x in r <==> x in s[1..] {
      if x in r {
        var i :| 0 <= i < j && r[i] == x;
        assert s[1..][j - 1 - i] == s[|s| - 1 - i];
      }
      if x in s[1..] {
        var m :| 0 <= m < |s| - 1 && s[1..][m] == x;
        assert r[j - 1 - m] == rev[j - 1 - m];
      }
    }
  }

  /**
   * After extractSubNode from the root, no record of a non-root node is
   * left: its parent's record was left too (by induction up the tree), or
   * it was taken and the scan found the record under it.
   */
  lemma {:induction false} NotLeft(src: Nodes, root: Id, rank: map<Id, nat>, bound: nat,
                                   rest0: seq<Value>, taken: seq<Value>, rest: seq<Value>, k: Id)
    requires Linked(src, root, rank, bound) && Clean(src)
    requires Extracted(root, rest0, taken, rest)
    requires forall x | Live(src, x) && x != root :: Record(src, x) in rest0
    requires Live(src, k) && k != root
    ensures Record(src, k) !in rest
    decreases if k in rank then rank[k] else 0
  {
    var rec := Record(src, k);
    assert LinkedAt(src, root, rank, bound, k);
    CleanRecord(src, root, rank, bound, k);
    if rec in rest {
      var p := Get(src, k).parent.value;
      assert ChildOf(rec, p) && p != root;
      NotLeft(src, root, rank, bound, rest0, taken, rest, p);
      var pr := Record(src, p);
      assert pr in rest0;
      assert multiset(rest0)[pr] > 0;
      assert pr in taken;
      CleanRecord(src, root, rank, bound, p);
      assert false;
    }
  }

  /**
   * Round trip of the flat format: parsing what getData writes for a
   * linked tree with clean payloads and a non-empty root id finds that root,
   * takes every record, and rebuilds a copy of every node and nothing else.
   */
  lemma ArrayRoundTrip(src: Nodes, root: Id, rank: map<Id, nat>, bound: nat, droot: Option<Id>, dst: Nodes,
                       rest0: seq<Value>, taken: seq<Value>, rest: seq<Value>)
    requires Linked(src, root, rank, bound) && Clean(src) && root != ""
    requires Loaded(Entries(src, Preorder(src, rank, bound, root)), droot, dst, rest0, taken, rest)
    ensures droot == Some(root) && rest == []
    ensures Rebuilt(src, root, dst)
    ensures forall k | Live(src, k) :: Live(dst, k)
  {
    var arr := Entries(src, Preorder(src, rank, bound, root));
    RestRecords(src, root, rank, bound);
    CleanRecord(src, root, rank, bound, root);
    assert IdOf(arr[0]) == root;
    assert Extracted(root, rest0, taken, rest);
    forall t | t in taken ensures Live(src, IdOf(t)) && IdOf(t) != root && t == Record(src, IdOf(t)) {
      assert t in rest0;
    }
    ReplayRebuilds(src, root, rank, bound, taken);
    forall k | Live(src, k) ensures Live(dst, k) {
      if k != root {
        NotLeft(src, root, rank, bound, rest0, taken, rest, k);
        var rec := Record(src, k);
        assert multiset(rest0)[rec] > 0;
        assert rec in taken;
        CleanRecord(src, root, rank, bound, k);
      }
    }
    if rest != [] {
      var x := rest[0];
      assert x in rest0;
      NotLeft(src, root, rank, bound, rest0, taken, rest, IdOf(x));
      assert false;
    }
  }

  /**
   * getData followed by getMind on a tree with clean payloads and a
   * non-empty root id: the new mind holds the same nodes under the same
   * root, each a copy of the original with the same children.
   */
  method ReloadArray(src: Mind) returns (dst: Mind)
    requires src.Valid() && src.root.Some? && src.root.value != "" && Clean(src.nodes)
    ensures fresh(dst) && dst.Valid() && dst.root == src.root
    ensures dst.name == src.name && dst.author == src.author && dst.version == src.version
    ensures forall k :: Live(dst.nodes, k) <==> Live(src.nodes, k)
    ensures forall k | Live(src.nodes, k) ::
      && Copied(src.nodes, src.root.value, dst.nodes, k)
      && forall c :: c in Get(dst.nodes, k).children <==> c in Get(src.nodes, k).children
  {
    var json := GetData(src);
    RestRecords(src.nodes, src.root.value, src.rank, src.bound);
    ghost var rest0, taken, rest;
    dst, rest0, taken, rest := GetMind(json);
    ArrayRoundTrip(src.nodes, src.root.value, src.rank, src.bound, dst.root, dst.nodes, rest0, taken, rest);
    forall k | Live(src.nodes, k)
      ensures forall c :: c in Get(dst.nodes, k).children <==> c in Get(src.nodes, k).children
    {
      ParentsDetermineChildren(src.nodes, dst.nodes, src.root.value, src.rank, src.bound, dst.rank, dst.bound, k);
    }
  }
}
