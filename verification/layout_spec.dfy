/**
 * What the automatic layout (LayoutProvider of src/layoutProvider.ts) computes,
 * stated over values: side assignment, outer heights, vertical stacking,
 * horizontal offsets, absolute offsets, connector points and visibility.
 *
 * A node's `_data.layout` record is split into one map per field, keyed by
 * node id; a field the code has not written yet is a missing key. Element
 * widths and heights are measured by the view layer and enter as inputs.
 */
module LayoutSpec {
  import opened Wrappers
  import opened MindNodes
  import opened MindTree
  import opened Moving
  import opened Adding

  /** A node element's measured width and height. */
  datatype Size = Size(width: real, height: real)

  /** A point of the canvas, relative to the root's centre. */
  datatype Point = Point(x: real, y: real)

  /** A query that writes into a `null` result object and so throws a TypeError, or its point. */
  datatype PointResult = TypeError | Done(point: Point)

  /** LayoutProvider.bounds: north, south, west and east extent. */
  datatype Bounds = Bounds(n: real, s: real, w: real, e: real)

  /** The root's layout fields leftNodes, rightNodes, outerHeightLeft and outerHeightRight. */
  datatype Sides = Sides(left: seq<Id>, right: seq<Id>, heightLeft: real, heightRight: real)

  /**
   * Everything a layout phase reads: the registry with its root and ranks,
   * the measured sizes, and the spacing options hSpace, vSpace and pSpace.
   */
  datatype Scene = Scene(nodes: Nodes, root: Id, rank: map<Id, nat>, bound: nat,
                         sizes: map<Id, Size>, hSpace: real, vSpace: real, pSpace: real)

  /** Math.max on two numbers. */
  function Max(a: real, b: real): (r: real)
    ensures r >= a && r >= b && (r == a || r == b)
  {
    if a >= b then a else b
  }

  /** Math.ceil. */
  function Ceil(r: real): (c: int)
    ensures r <= c as real < r + 1.0
  {
    -((-r).Floor)
  }

  function Width(t: Scene, k: Id): real {
    if k in t.sizes then t.sizes[k].width else 0.0
  }

  function Height(t: Scene, k: Id): real {
    if k in t.sizes then t.sizes[k].height else 0.0
  }

  ghost predicate Tree(t: Scene) {
    Linked(t.nodes, t.root, t.rank, t.bound) && LinkedAt(t.nodes, t.root, t.rank, t.bound, t.root)
  }

  /** How far a node ranks below the bound; every walk down the tree decreases it. */
  function Slack(t: Scene, k: Id): nat {
    if k in t.rank && t.rank[k] <= t.bound then t.bound - t.rank[k] else 0
  }

  /** A list of distinct live children of `p`: a children list, or a side of the root's. */
  ghost predicate Family(t: Scene, cs: seq<Id>, p: Id) {
    && Live(t.nodes, p)
    && Distinct(cs)
    && forall j | 0 <= j < |cs| :: Live(t.nodes, cs[j]) && Get(t.nodes, cs[j]).parent == Some(p)
  }

  /** The first position of `x` in `s`, or |s| when absent. */
  function IndexOf(s: seq<Id>, x: Id): (i: nat)
    ensures i <= |s| && (i < |s| ==> s[i] == x) && (x in s <==> i < |s|)
    ensures forall j | 0 <= j < i :: s[j] != x
  {
    if |s| == 0 then 0 else if s[0] == x then 0 else 1 + IndexOf(s[1..], x)
  }

  /** In a list without repeats a member's position is where it stands. */
  lemma IndexOfDistinct(s: seq<Id>, j: nat)
    requires Distinct(s) && j < |s|
    ensures IndexOf(s, s[j]) == j
  {
  }

  /** A node's sideIndex: its position among its parent's children (0 for the root). */
  function SideIndex(nodes: Nodes, x: Id): nat {
    if Live(nodes, x) && Get(nodes, x).parent.Some? && Live(nodes, Get(nodes, x).parent.value)
    then IndexOf(Get(nodes, Get(nodes, x).parent.value).children, x)
    else 0
  }

  // ---------------------------------------------------------------------------
  // Side assignment (layoutDirectionRoot / layoutDirectionSide).
  // ---------------------------------------------------------------------------

  /** The layout direction of a root child: right in side mode, else left exactly for a left node. */
  function SideOf(isSide: bool, d: Direction): (r: int)
    ensures r == -1 || r == 1
    ensures r == -1 <==> !isSide && d == Left
  {
    if isSide then 1 else if d == Left then -1 else 1
  }

  /** `d` written for every id of `s`. */
  ghost function Paint(s: set<Id>, d: int): map<Id, int> {
    map x | x in s :: d
  }

  /** Each id of `s` mapped to its sideIndex. */
  ghost function Indices(nodes: Nodes, s: set<Id>): map<Id, int> {
    map x | x in s :: SideIndex(nodes, x) as int
  }

  /** The root at 0, every other id of `s` on its root child's side. */
  ghost function Sided(t: Scene, isSide: bool, s: set<Id>): map<Id, int> {
    map x | x in s && Live(t.nodes, x) :: if x == t.root then 0 else SideOf(isSide, Get(t.nodes, x).direction)
  }

  /** The direction map after layoutDirectionRoot. */
  ghost function Directions(t: Scene, isSide: bool): map<Id, int> {
    Sided(t, isSide, Subtree(t.nodes, t.rank, t.root))
  }

  /** The walk over `k`'s children, from the last, has reached `cs[j-1]`: its subtree joins. */
  lemma FlowedSplit(nodes: Nodes, rank: map<Id, nat>, k: Id, j: nat)
    requires Live(nodes, k) && 0 < j <= |Get(nodes, k).children| && Live(nodes, Get(nodes, k).children[j - 1])
    ensures Flowed(nodes, rank, k, j - 1) == Flowed(nodes, rank, k, j) + Subtree(nodes, rank, Get(nodes, k).children[j - 1])
  {
    var cs := Get(nodes, k).children;
    forall x ensures x in Flowed(nodes, rank, k, j - 1) <==>
                     x in Flowed(nodes, rank, k, j) || x in Subtree(nodes, rank, cs[j - 1])
    {
      BelowStep(nodes, rank, cs, j, x);
    }
  }

  /** Before any child is walked only `k` itself is done. */
  lemma FlowedFirst(nodes: Nodes, rank: map<Id, nat>, k: Id)
    requires Live(nodes, k)
    ensures Flowed(nodes, rank, k, |Get(nodes, k).children|) == {k}
  {
  }

  /** After the last child the whole subtree is done. */
  lemma FlowedAll(nodes: Nodes, root: Id, rank: map<Id, nat>, bound: nat, k: Id)
    requires Linked(nodes, root, rank, bound) && Live(nodes, k)
    ensures Flowed(nodes, rank, k, 0) == Subtree(nodes, rank, k)
  {
    var cs := Get(nodes, k).children;
    forall x ensures x in Flowed(nodes, rank, k, 0) <==> x in Subtree(nodes, rank, k) {
      if x in Flowed(nodes, rank, k, 0) && x != k {
        var m :| 0 <= m < |cs| && Descends(nodes, rank, x, cs[m]);
        assert LinkedAt(nodes, root, rank, bound, k);
      }
      if Live(nodes, x) {
        SubtreeSplit(nodes, root, rank, bound, k, x);
      }
    }
  }

  /** Below a root child every node has that child's direction. */
  lemma {:induction false} FlowDown(t: Scene, c: Id, x: Id)
    requires Tree(t) && DirectionsFlow(t.nodes, t.root)
    requires Live(t.nodes, c) && c != t.root && Live(t.nodes, x) && Descends(t.nodes, t.rank, x, c)
    ensures x != t.root && Get(t.nodes, x).direction == Get(t.nodes, c).direction
    decreases if x in t.rank then t.rank[x] else 0
  {
    assert LinkedAt(t.nodes, t.root, t.rank, t.bound, x);
    if x != c {
      var p := Get(t.nodes, x).parent.value;
      FlowDown(t, c, p);
      assert FlowsAt(t.nodes, t.root, x);
    }
  }

  /** The direction map restricted to the walk so far, written for `k` alone: the walk's start. */
  lemma PaintStart(m0: map<Id, int>, s0: map<Id, int>, nodes: Nodes, rank: map<Id, nat>, k: Id, d: int, i: int)
    requires Live(nodes, k) && i == SideIndex(nodes, k) as int
    ensures m0[k := d] == m0 + Paint(Flowed(nodes, rank, k, |Get(nodes, k).children|), d)
    ensures s0[k := i] == s0 + Indices(nodes, Flowed(nodes, rank, k, |Get(nodes, k).children|))
  {
    FlowedFirst(nodes, rank, k);
  }

  /** One more child subtree painted extends the walk. */
  lemma PaintStep(m0: map<Id, int>, s0: map<Id, int>, nodes: Nodes, rank: map<Id, nat>, k: Id, j: nat, d: int)
    requires Live(nodes, k) && 0 < j <= |Get(nodes, k).children| && Live(nodes, Get(nodes, k).children[j - 1])
    ensures var c := Get(nodes, k).children[j - 1];
      && m0 + Paint(Flowed(nodes, rank, k, j), d) + Paint(Subtree(nodes, rank, c), d)
         == m0 + Paint(Flowed(nodes, rank, k, j - 1), d)
      && s0 + Indices(nodes, Flowed(nodes, rank, k, j)) + Indices(nodes, Subtree(nodes, rank, c))
         == s0 + Indices(nodes, Flowed(nodes, rank, k, j - 1))
  {
    FlowedSplit(nodes, rank, k, j);
    var c := Get(nodes, k).children[j - 1];
    PaintUnion(m0, s0, nodes, Flowed(nodes, rank, k, j), Subtree(nodes, rank, c), d);
  }

  /** Painting and indexing two sets in turn is painting and indexing their union. */
  lemma PaintUnion(m0: map<Id, int>, s0: map<Id, int>, nodes: Nodes, a: set<Id>, b: set<Id>, d: int)
    ensures m0 + Paint(a, d) + Paint(b, d) == m0 + Paint(a + b, d)
    ensures s0 + Indices(nodes, a) + Indices(nodes, b) == s0 + Indices(nodes, a + b)
  {
    Merge(m0, Paint(a, d), Paint(b, d), Paint(a + b, d));
    Merge(s0, Indices(nodes, a), Indices(nodes, b), Indices(nodes, a + b));
  }

  /** A map update commutes with merging a map that lacks the key. */
  lemma UpdateMerge<V>(m: map<Id, V>, a: map<Id, V>, k: Id, v: V)
    requires k !in a
    ensures m[k := v] + a == (m + a)[k := v]
  {
  }

  /** layoutDirectionSide writes its own sideIndex first; the walk over the children leaves it. */
  lemma PinStart(s0: map<Id, int>, nodes: Nodes, rank: map<Id, nat>, k: Id, idx: int)
    requires Live(nodes, k)
    ensures s0[k := idx] == (s0 + Indices(nodes, Flowed(nodes, rank, k, |Get(nodes, k).children|)))[k := idx]
  {
    FlowedFirst(nodes, rank, k);
  }

  /** A child's subtree, indexed, extends the walk without touching `k`'s own sideIndex. */
  lemma PinStep(s0: map<Id, int>, t: Scene, k: Id, j: nat, idx: int)
    requires Tree(t) && Live(t.nodes, k) && 0 < j <= |Get(t.nodes, k).children|
    ensures var c := Get(t.nodes, k).children[j - 1];
      (s0 + Indices(t.nodes, Flowed(t.nodes, t.rank, k, j)))[k := idx] + Indices(t.nodes, Subtree(t.nodes, t.rank, c))
      == (s0 + Indices(t.nodes, Flowed(t.nodes, t.rank, k, j - 1)))[k := idx]
  {
    var c := Get(t.nodes, k).children[j - 1];
    assert LinkedAt(t.nodes, t.root, t.rank, t.bound, k);
    assert LinkedAt(t.nodes, t.root, t.rank, t.bound, c);
    PaintStep(map[], s0, t.nodes, t.rank, k, j, 0);
    if Descends(t.nodes, t.rank, k, c) {
      DescendsRank(t.nodes, t.rank, k, c);
    }
    UpdateMerge(s0 + Indices(t.nodes, Flowed(t.nodes, t.rank, k, j)), Indices(t.nodes, Subtree(t.nodes, t.rank, c)), k, idx);
  }

  /** Writing a node's own sideIndex over its subtree's indices changes nothing. */
  lemma PinSelf(s0: map<Id, int>, t: Scene, c: Id)
    requires Live(t.nodes, c)
    ensures (s0 + Indices(t.nodes, Subtree(t.nodes, t.rank, c)))[c := SideIndex(t.nodes, c) as int]
            == s0 + Indices(t.nodes, Subtree(t.nodes, t.rank, c))
  {
    assert c in Subtree(t.nodes, t.rank, c);
  }

  /**
   * One step of layoutDirectionSide's walk over `k`'s children: the call on
   * `cs[i]` paints and indexes that child's subtree.
   */
  lemma SideWalkStep(t: Scene, k: Id, i: nat, d: int, idx: int, d0: map<Id, int>, s0: map<Id, int>)
    requires Tree(t) && Live(t.nodes, k) && i < |Get(t.nodes, k).children|
    ensures var c := Get(t.nodes, k).children[i];
      && d0 + Paint(Flowed(t.nodes, t.rank, k, i + 1), d) + Paint(Subtree(t.nodes, t.rank, c), d)
         == d0 + Paint(Flowed(t.nodes, t.rank, k, i), d)
      && ((s0 + Indices(t.nodes, Flowed(t.nodes, t.rank, k, i + 1)))[k := idx] + Indices(t.nodes, Subtree(t.nodes, t.rank, c)))[c := i]
         == (s0 + Indices(t.nodes, Flowed(t.nodes, t.rank, k, i)))[k := idx]
  {
    var cs := Get(t.nodes, k).children;
    ChildrenFamily(t, k);
    PaintStep(d0, s0, t.nodes, t.rank, k, i + 1, d);
    PinStep(s0, t, k, i + 1, idx);
    IndexOfDistinct(cs, i);
    assert SideIndex(t.nodes, cs[i]) == i;
    PinSelf((s0 + Indices(t.nodes, Flowed(t.nodes, t.rank, k, i + 1)))[k := idx], t, cs[i]);
  }

  /**
   * One pass of layoutDirectionRoot's loop: if the maps held the walk over
   * the children from `j = i + 1` on and child `i`'s subtree was then painted
   * on its side and indexed, they hold the walk from `i`.
   */
  /** The walk over the children of `k` in layoutDirectionSide, one child `cs[i]` further, given the state in hand. */
  lemma SideWalkRound(t: Scene, k: Id, i: nat, j: nat, d: int, idx: int,
                      d0: map<Id, int>, d1: map<Id, int>, d2: map<Id, int>,
                      s0: map<Id, int>, s1: map<Id, int>, s2: map<Id, int>)
    requires Tree(t) && Live(t.nodes, k) && j == i + 1 && i < |Get(t.nodes, k).children|
    requires var c := Get(t.nodes, k).children[i];
      && d1 == d0 + Paint(Flowed(t.nodes, t.rank, k, j), d)
      && d2 == d1 + Paint(Subtree(t.nodes, t.rank, c), d)
      && s1 == (s0 + Indices(t.nodes, Flowed(t.nodes, t.rank, k, j)))[k := idx]
      && s2 == (s1 + Indices(t.nodes, Subtree(t.nodes, t.rank, c)))[c := i]
    ensures d2 == d0 + Paint(Flowed(t.nodes, t.rank, k, i), d)
    ensures s2 == (s0 + Indices(t.nodes, Flowed(t.nodes, t.rank, k, i)))[k := idx]
  {
    SideWalkStep(t, k, i, d, idx, d0, s0);
  }

  lemma RootWalkStep(t: Scene, isSide: bool, i: nat, j: nat, d: int,
                     d0: map<Id, int>, d1: map<Id, int>, d2: map<Id, int>,
                     s0: map<Id, int>, s1: map<Id, int>, s2: map<Id, int>)
    requires Tree(t) && DirectionsFlow(t.nodes, t.root) && j == i + 1 && i < |Get(t.nodes, t.root).children|
    requires var c := Get(t.nodes, t.root).children[i];
      && d == SideOf(isSide, Get(t.nodes, c).direction)
      && d1 == d0 + Sided(t, isSide, Flowed(t.nodes, t.rank, t.root, j))
      && d2 == d1 + Paint(Subtree(t.nodes, t.rank, c), d)
      && s1 == s0 + Indices(t.nodes, Flowed(t.nodes, t.rank, t.root, j))
      && s2 == (s1 + Indices(t.nodes, Subtree(t.nodes, t.rank, c)))[c := i]
    ensures d2 == d0 + Sided(t, isSide, Flowed(t.nodes, t.rank, t.root, i))
    ensures s2 == s0 + Indices(t.nodes, Flowed(t.nodes, t.rank, t.root, i))
  {
    var cs := Get(t.nodes, t.root).children;
    ChildrenFamily(t, t.root);
    SidedStep(d0, t, isSide, j);
    PaintStep(map[], s0, t.nodes, t.rank, t.root, j, 0);
    IndexOfDistinct(cs, i);
    assert SideIndex(t.nodes, cs[i]) == i;
    PinSelf(s1, t, cs[i]);
  }

  /** The root's own entry starts layoutDirectionRoot's walk. */
  lemma SidedStart(m0: map<Id, int>, s0: map<Id, int>, t: Scene, isSide: bool)
    requires Tree(t)
    ensures var r := t.root;
      && m0[r := 0] == m0 + Sided(t, isSide, Flowed(t.nodes, t.rank, r, |Get(t.nodes, r).children|))
      && s0[r := 0] == s0 + Indices(t.nodes, Flowed(t.nodes, t.rank, r, |Get(t.nodes, r).children|))
  {
    FlowedFirst(t.nodes, t.rank, t.root);
    assert LinkedAt(t.nodes, t.root, t.rank, t.bound, t.root);
  }

  /** A root child's subtree, painted with that child's side, extends layoutDirectionRoot's walk. */
  lemma SidedStep(m0: map<Id, int>, t: Scene, isSide: bool, j: nat)
    requires Tree(t) && DirectionsFlow(t.nodes, t.root) && 0 < j <= |Get(t.nodes, t.root).children|
    ensures var c := Get(t.nodes, t.root).children[j - 1];
      && Live(t.nodes, c) && c != t.root
      && m0 + Sided(t, isSide, Flowed(t.nodes, t.rank, t.root, j))
            + Paint(Subtree(t.nodes, t.rank, c), SideOf(isSide, Get(t.nodes, c).direction))
         == m0 + Sided(t, isSide, Flowed(t.nodes, t.rank, t.root, j - 1))
  {
    var r := t.root;
    var c := Get(t.nodes, r).children[j - 1];
    assert LinkedAt(t.nodes, r, t.rank, t.bound, r);
    assert LinkedAt(t.nodes, r, t.rank, t.bound, c);
    var sub := Subtree(t.nodes, t.rank, c);
    FlowedSplit(t.nodes, t.rank, r, j);
    forall x | x in sub
      ensures Live(t.nodes, x) && x != r && Get(t.nodes, x).direction == Get(t.nodes, c).direction
    {
      FlowDown(t, c, x);
    }
    SidedMerge(m0, t, isSide, Flowed(t.nodes, t.rank, r, j), sub, SideOf(isSide, Get(t.nodes, c).direction));
  }

  /** Painting live non-root ids that all lie on side `d` extends a sided map. */
  lemma SidedMerge(m0: map<Id, int>, t: Scene, isSide: bool, a: set<Id>, b: set<Id>, d: int)
    requires forall x | x in b :: Live(t.nodes, x) && x != t.root && SideOf(isSide, Get(t.nodes, x).direction) == d
    ensures m0 + Sided(t, isSide, a) + Paint(b, d) == m0 + Sided(t, isSide, a + b)
  {
    Merge(m0, Sided(t, isSide, a), Paint(b, d), Sided(t, isSide, a + b));
  }

  /** After the last root child the direction map covers the whole tree. */
  lemma SidedEnd(t: Scene, isSide: bool)
    requires Tree(t)
    ensures Sided(t, isSide, Flowed(t.nodes, t.rank, t.root, 0)) == Directions(t, isSide)
    ensures Indices(t.nodes, Flowed(t.nodes, t.rank, t.root, 0)) == Indices(t.nodes, Subtree(t.nodes, t.rank, t.root))
  {
    FlowedAll(t.nodes, t.root, t.rank, t.bound, t.root);
  }

  /** After the last child `k`'s subtree is indexed, `k` itself pinned. */
  lemma PinEnd(s0: map<Id, int>, t: Scene, k: Id, idx: int)
    requires Tree(t) && Live(t.nodes, k)
    ensures (s0 + Indices(t.nodes, Flowed(t.nodes, t.rank, k, 0)))[k := idx]
            == (s0 + Indices(t.nodes, Subtree(t.nodes, t.rank, k)))[k := idx]
  {
    PaintEnd(t, k, 0);
  }

  /** After the last child the whole subtree carries the side and the indices. */
  lemma PaintEnd(t: Scene, k: Id, d: int)
    requires Tree(t) && Live(t.nodes, k)
    ensures Paint(Flowed(t.nodes, t.rank, k, 0), d) == Paint(Subtree(t.nodes, t.rank, k), d)
    ensures Indices(t.nodes, Flowed(t.nodes, t.rank, k, 0)) == Indices(t.nodes, Subtree(t.nodes, t.rank, k))
  {
    FlowedAll(t.nodes, t.root, t.rank, t.bound, k);
  }

  /**
   * layoutDirectionRoot's promise: the root is centred at sideIndex 0; every
   * other node is on a side, left only when not in side mode and its root
   * child is left, and shares that side with its root child; its sideIndex
   * is where it stands among its parent's children.
   */
  lemma DirectionsPlace(t: Scene, isSide: bool, c: Id, x: Id)
    requires Tree(t) && DirectionsFlow(t.nodes, t.root)
    requires Live(t.nodes, c) && Get(t.nodes, c).parent == Some(t.root) && LinkedAt(t.nodes, t.root, t.rank, t.bound, c)
    requires Live(t.nodes, x) && Descends(t.nodes, t.rank, x, c) && LinkedAt(t.nodes, t.root, t.rank, t.bound, x)
    ensures var dm := Directions(t, isSide);
      && t.root in dm && dm[t.root] == 0
      && x in dm && dm[x] == dm[c]
      && (dm[x] == -1 || dm[x] == 1)
      && (dm[x] == -1 <==> !isSide && Get(t.nodes, c).direction == Left)
    ensures var im := Indices(t.nodes, Subtree(t.nodes, t.rank, t.root));
      && t.root in im && im[t.root] == 0 && x in im
      && var cs := Get(t.nodes, Get(t.nodes, x).parent.value).children;
         0 <= im[x] < |cs| && cs[im[x]] == x
  {
    var r := t.root;
    assert LinkedAt(t.nodes, r, t.rank, t.bound, r);
    assert LinkedAt(t.nodes, r, t.rank, t.bound, c);
    assert LinkedAt(t.nodes, r, t.rank, t.bound, x);
    DescendsFromRoot(t.nodes, r, t.rank, t.bound, x);
    DescendsFromRoot(t.nodes, r, t.rank, t.bound, c);
    FlowDown(t, c, x);
    FlowDown(t, c, c);
  }

  // ---------------------------------------------------------------------------
  // Outer heights and vertical stacking (layoutOffsetSubNodes).
  // ---------------------------------------------------------------------------

  /** A node's outer height: its own height, or its children's stack when expanded and taller. */
  ghost function Outer(t: Scene, k: Id): real
    decreases Slack(t, k), 3, 0
  {
    var stack := if Live(t.nodes, k) && Get(t.nodes, k).expanded
                 then Span(t, Get(t.nodes, k).children, Slack(t, k)) else 0.0;
    Max(Height(t, k), stack)
  }

  /** The height a list stacks to: the outer heights plus vSpace between neighbours. */
  ghost function Span(t: Scene, cs: seq<Id>, s: nat): real
    decreases s, 2, 0
  {
    Tail(t, cs, 0, s) + Gaps(t.vSpace, |cs|)
  }

  /** vSpace once between each two neighbours of an n-long list. */
  function Gaps(v: real, n: nat): real {
    if n > 1 then Scale(v, n - 1) else 0.0
  }

  /** The gaps of an n-long stack as layoutOffsetSubNodes multiplies them out. */
  function StackGaps(v: real, n: nat): (r: real)
    ensures r == Gaps(v, n)
  {
    if n > 1 then (ScaleIs(v, n - 1); v * (n - 1) as real) else 0.0
  }

  /**
   * `k` copies of `v` added up, negated for a negative `k`: the products of
   * a spacing or a width with a small whole number that the layout forms.
   */
  function Scale(v: real, k: int): real
    decreases if k < 0 then -k else k
  {
    if k == 0 then 0.0 else if k > 0 then Scale(v, k - 1) + v else Scale(v, k + 1) - v
  }

  /** A product the layout computes is the matching Scale. */
  lemma ScaleOf(v: real, k: int, x: real)
    requires x == v * k as real
    ensures x == Scale(v, k)
  {
    ScaleIs(v, k);
  }

  /** Scale is multiplication. */
  lemma {:induction false} ScaleIs(v: real, k: int)
    ensures Scale(v, k) == v * k as real
    decreases if k < 0 then -k else k
  {
    if k > 0 {
      ScaleIs(v, k - 1);
      assert v * k as real == v * (k - 1) as real + v;
    } else if k < 0 {
      ScaleIs(v, k + 1);
      assert v * k as real == v * (k + 1) as real - v;
    }
  }

  /** The outer heights of `cs[i..]`, summed. */
  ghost function Tail(t: Scene, cs: seq<Id>, i: nat, s: nat): real
    decreases s, 1, |cs| - i
  {
    if i >= |cs| then 0.0 else Part(t, cs[i], s) + Tail(t, cs, i + 1, s)
  }

  /**
   * The outer height of a member of a list whose parent has slack `s`; an id
   * not ranked below that parent (there is none in a linked registry) counts 0.
   */
  ghost function Part(t: Scene, c: Id, s: nat): real
    decreases s, 0, 0
  {
    if Slack(t, c) < s then Outer(t, c) else 0.0
  }

  /** Where the first pass puts `cs[i]`: below every later member, not yet centred. */
  ghost function Raw(t: Scene, cs: seq<Id>, i: nat, s: nat): real
    requires i < |cs|
  {
    -(Tail(t, cs, i + 1, s) + Scale(t.vSpace, |cs| - 1 - i)) - Part(t, cs[i], s) / 2.0
  }

  /** offsetY of `cs[i]` once the stack is centred on its parent. */
  ghost function StackY(t: Scene, cs: seq<Id>, i: nat, s: nat): real
    requires i < |cs|
  {
    Raw(t, cs, i, s) + Span(t, cs, s) / 2.0
  }

  /** Outer in the form layoutOffsetSubNodes computes it: the stack only when expanded. */
  lemma OuterOf(t: Scene, k: Id, stack: real)
    requires Live(t.nodes, k)
    requires stack == if Get(t.nodes, k).expanded then Span(t, Get(t.nodes, k).children, Slack(t, k)) else 0.0
    ensures Max(Height(t, k), stack) == Outer(t, k)
  {
  }

  /** An expanded node is as tall as its own element or its children's stack, whichever is more. */
  lemma OuterExpanded(t: Scene, k: Id)
    requires Live(t.nodes, k) && Get(t.nodes, k).expanded
    ensures Outer(t, k) >= Height(t, k)
    ensures Outer(t, k) >= Span(t, Get(t.nodes, k).children, Slack(t, k))
    ensures Outer(t, k) == Height(t, k) || Outer(t, k) == Span(t, Get(t.nodes, k).children, Slack(t, k))
  {
  }

  /** A collapsed node is exactly as tall as its own element. */
  lemma OuterCollapsed(t: Scene, k: Id)
    requires Live(t.nodes, k) && !Get(t.nodes, k).expanded && Height(t, k) >= 0.0
    ensures Outer(t, k) == Height(t, k)
  {
  }

  /** Neighbours stand half their heights plus vSpace apart. */
  lemma StackGap(t: Scene, cs: seq<Id>, i: nat, s: nat)
    requires i + 1 < |cs|
    ensures StackY(t, cs, i + 1, s) - StackY(t, cs, i, s)
            == Part(t, cs[i], s) / 2.0 + t.vSpace + Part(t, cs[i + 1], s) / 2.0
  {
    assert Tail(t, cs, i + 1, s) == Part(t, cs[i + 1], s) + Tail(t, cs, i + 2, s);
  }

  /** The first member's top edge is the top of the stack. */
  lemma StackFirst(t: Scene, cs: seq<Id>, s: nat)
    requires 0 < |cs|
    ensures StackY(t, cs, 0, s) == Part(t, cs[0], s) / 2.0 - Span(t, cs, s) / 2.0
  {
    assert Tail(t, cs, 0, s) == Part(t, cs[0], s) + Tail(t, cs, 1, s);
  }

  /** The last member's bottom edge is the bottom of the stack. */
  lemma StackLast(t: Scene, cs: seq<Id>, s: nat)
    requires 0 < |cs|
    ensures StackY(t, cs, |cs| - 1, s) == Span(t, cs, s) / 2.0 - Part(t, cs[|cs| - 1], s) / 2.0
  {
  }

  /** Two members of height 20 with vSpace 10 sit at -15 and +15. */
  lemma StackTwo(t: Scene, cs: seq<Id>, s: nat)
    requires |cs| == 2 && t.vSpace == 10.0 && Part(t, cs[0], s) == 20.0 && Part(t, cs[1], s) == 20.0
    ensures StackY(t, cs, 0, s) == -15.0 && StackY(t, cs, 1, s) == 15.0
  {
    StackFirst(t, cs, s);
    StackLast(t, cs, s);
    assert Tail(t, cs, 0, s) == 20.0 + Tail(t, cs, 1, s);
    assert Tail(t, cs, 1, s) == 20.0 + Tail(t, cs, 2, s);
  }

  /** Outer heights are at least zero when every element height is. */
  lemma {:induction false} TailNonNegative(t: Scene, cs: seq<Id>, i: nat, s: nat)
    requires forall k | k in t.sizes :: t.sizes[k].height >= 0.0
    ensures Tail(t, cs, i, s) >= 0.0
    decreases |cs| - i
  {
    if i < |cs| {
      TailNonNegative(t, cs, i + 1, s);
      assert Outer(t, cs[i]) >= Height(t, cs[i]) >= 0.0;
    }
  }

  /**
   * With non-negative heights and vSpace, stacked members do not overlap: the
   * bottom edge of an earlier member lies at least vSpace above the top edge
   * of any later one.
   */
  lemma {:induction false} StackApart(t: Scene, cs: seq<Id>, i: nat, j: nat, s: nat)
    requires i < j < |cs| && t.vSpace >= 0.0
    requires forall k | k in t.sizes :: t.sizes[k].height >= 0.0
    ensures StackY(t, cs, i, s) + Part(t, cs[i], s) / 2.0 + t.vSpace <= StackY(t, cs, j, s) - Part(t, cs[j], s) / 2.0
    decreases j - i
  {
    StackGap(t, cs, i, s);
    if i + 1 < j {
      StackApart(t, cs, i + 1, j, s);
      TailNonNegative(t, cs, i + 1, s);
      assert Tail(t, cs, i + 1, s) == Part(t, cs[i + 1], s) + Tail(t, cs, i + 2, s);
      TailNonNegative(t, cs, i + 2, s);
    }
  }

  // ---------------------------------------------------------------------------
  // The regions a walk over a list covers.
  // ---------------------------------------------------------------------------

  /** The subtrees of `cs[i..]`, the members included. */
  ghost function Under(t: Scene, cs: seq<Id>, i: nat): set<Id> {
    set x | x in t.nodes && Below(t.nodes, t.rank, cs, i, x)
  }

  /** A live node's children form a family below it, each with less slack. */
  lemma ChildrenFamily(t: Scene, c: Id)
    requires Tree(t) && Live(t.nodes, c)
    ensures Family(t, Get(t.nodes, c).children, c)
  {
    assert LinkedAt(t.nodes, t.root, t.rank, t.bound, c);
  }

  /** A family member is not the root and has less slack than its parent. */
  lemma FamilySlack(t: Scene, cs: seq<Id>, p: Id, j: nat)
    requires Tree(t) && Family(t, cs, p) && j < |cs|
    ensures cs[j] != t.root && !Get(t.nodes, cs[j]).isRoot && Slack(t, cs[j]) < Slack(t, p)
  {
    assert LinkedAt(t.nodes, t.root, t.rank, t.bound, cs[j]);
  }

  /** Before a walk over a list starts, it has covered nothing. */
  lemma WalkStart(t: Scene, cs: seq<Id>)
    ensures Under(t, cs, |cs|) == {} && Members(cs, |cs|) == {}
  {
    forall x | x in cs ensures IndexOf(cs, x) < |cs| {
    }
  }

  /** Walking one more member adds it and the subtrees of its children. */
  lemma UnderSplit(t: Scene, cs: seq<Id>, p: Id, i: nat)
    requires Tree(t) && Family(t, cs, p) && 0 < i <= |cs|
    ensures var c := cs[i - 1];
      Under(t, cs, i - 1) == Under(t, cs, i) + {c} + Under(t, Get(t.nodes, c).children, 0)
  {
    var c := cs[i - 1];
    var ch := Get(t.nodes, c).children;
    assert LinkedAt(t.nodes, t.root, t.rank, t.bound, c);
    forall x ensures x in Under(t, cs, i - 1) <==> x in Under(t, cs, i) || x == c || x in Under(t, ch, 0) {
      BelowStep(t.nodes, t.rank, cs, i, x);
      if Live(t.nodes, x) {
        SubtreeSplit(t.nodes, t.root, t.rank, t.bound, c, x);
      }
    }
  }

  /** The part already walked and the member being walked do not overlap. */
  lemma UnderApart(t: Scene, cs: seq<Id>, p: Id, i: nat, x: Id)
    requires Tree(t) && Family(t, cs, p) && 0 < i <= |cs| && x in Under(t, cs, i)
    ensures Live(t.nodes, x) && x != cs[i - 1] && x !in Under(t, Get(t.nodes, cs[i - 1]).children, 0)
  {
    var c := cs[i - 1];
    var m :| i <= m < |cs| && Descends(t.nodes, t.rank, x, cs[m]);
    assert cs[m] != c;
    assert Live(t.nodes, x);
    FamilySlack(t, cs, p, m);
    FamilySlack(t, cs, p, i - 1);
    SiblingSubtreesDisjoint(t.nodes, t.root, t.rank, t.bound, cs[m], c, x);
    SubtreeSplit(t.nodes, t.root, t.rank, t.bound, c, x);
  }

  /** Nothing strictly below a member is a member. */
  lemma UnderNotMember(t: Scene, cs: seq<Id>, p: Id, j: nat, x: Id)
    requires Tree(t) && Family(t, cs, p) && j < |cs| && x in Under(t, Get(t.nodes, cs[j]).children, 0)
    ensures Live(t.nodes, x) && x !in cs
    ensures Descends(t.nodes, t.rank, x, cs[j]) && x != cs[j]
  {
    var c := cs[j];
    var ch := Get(t.nodes, c).children;
    assert LinkedAt(t.nodes, t.root, t.rank, t.bound, c);
    var m :| 0 <= m < |ch| && Descends(t.nodes, t.rank, x, ch[m]);
    assert Live(t.nodes, x);
    SubtreeSplit(t.nodes, t.root, t.rank, t.bound, c, x);
    assert LinkedAt(t.nodes, t.root, t.rank, t.bound, ch[m]);
    if x == c {
      DescendsRank(t.nodes, t.rank, c, ch[m]);
    }
    if x in cs {
      var k :| 0 <= k < |cs| && cs[k] == x;
      FamilySlack(t, cs, p, k);
      FamilySlack(t, cs, p, j);
      SiblingSubtreesDisjoint(t.nodes, t.root, t.rank, t.bound, x, c, x);
    }
  }

  // ---------------------------------------------------------------------------
  // Visibility (setVisible).
  // ---------------------------------------------------------------------------

  /**
   * The flag setVisible(cs, v) leaves on `x`: `v` for a member; below one,
   * `v` only when every node from that member down to x's parent is expanded.
   */
  ghost function Shown(t: Scene, cs: seq<Id>, v: bool, x: Id): bool
    decreases if x in t.rank then t.rank[x] else 0
  {
    if x in cs then v
    else if Live(t.nodes, x) && Get(t.nodes, x).parent.Some? && x in t.rank
            && Get(t.nodes, x).parent.value in t.rank && t.rank[Get(t.nodes, x).parent.value] < t.rank[x]
            && Live(t.nodes, Get(t.nodes, x).parent.value)
    then Get(t.nodes, Get(t.nodes, x).parent.value).expanded && Shown(t, cs, v, Get(t.nodes, x).parent.value)
    else false
  }

  /** The flags setVisible(cs, v) leaves on the nodes of `s`. */
  ghost function VeilsOn(t: Scene, cs: seq<Id>, v: bool, s: set<Id>): map<Id, bool> {
    map x | x in s :: Shown(t, cs, v, x)
  }

  /** setVisible's effect on the subtrees of `cs[i..]`. */
  ghost function Veils(t: Scene, cs: seq<Id>, v: bool, i: nat): map<Id, bool> {
    VeilsOn(t, cs, v, Under(t, cs, i))
  }

  /** The nodes of `s` below a collapsed node of a walk over `cs`, hidden. */
  ghost function HiddenOn(t: Scene, cs: seq<Id>, s: set<Id>): map<Id, bool> {
    map x | x in s && !Shown(t, cs, true, x) :: false
  }

  /** The nodes layoutOffsetSubNodes hides: those below a collapsed node of the walk. */
  ghost function Hidden(t: Scene, cs: seq<Id>, i: nat): map<Id, bool> {
    HiddenOn(t, cs, Under(t, cs, i))
  }

  /** Hiding a list hides everything below it. */
  lemma {:induction false} ShownFalse(t: Scene, cs: seq<Id>, x: Id)
    ensures !Shown(t, cs, false, x)
    decreases if x in t.rank then t.rank[x] else 0
  {
    if x !in cs && Live(t.nodes, x) && Get(t.nodes, x).parent.Some? && x in t.rank {
      var q := Get(t.nodes, x).parent.value;
      if q in t.rank && t.rank[q] < t.rank[x] {
        ShownFalse(t, cs, q);
      }
    }
  }

  /**
   * Below member `cs[j]`, the flag for the list is the flag for that member's
   * children, and that member expanded.
   */
  lemma {:induction false} ShownShift(t: Scene, cs: seq<Id>, p: Id, j: nat, v: bool, x: Id)
    requires Tree(t) && Family(t, cs, p) && j < |cs| && x in Under(t, Get(t.nodes, cs[j]).children, 0)
    ensures Shown(t, cs, v, x) == (Get(t.nodes, cs[j]).expanded && Shown(t, Get(t.nodes, cs[j]).children, v, x))
    decreases if x in t.rank then t.rank[x] else 0
  {
    var c := cs[j];
    var ch := Get(t.nodes, c).children;
    UnderNotMember(t, cs, p, j, x);
    assert LinkedAt(t.nodes, t.root, t.rank, t.bound, c);
    assert LinkedAt(t.nodes, t.root, t.rank, t.bound, x);
    var q := Get(t.nodes, x).parent.value;
    if x !in ch {
      var m :| 0 <= m < |ch| && Descends(t.nodes, t.rank, x, ch[m]);
      assert q in Under(t, ch, 0);
      ShownShift(t, cs, p, j, v, q);
    } else {
      var m :| 0 <= m < |ch| && ch[m] == x;
    }
  }

  /** setVisible on `cs[i-1]`: its children's flags, then its own. */
  lemma VeilsStep(t: Scene, cs: seq<Id>, p: Id, i: nat, v: bool, m0: map<Id, bool>)
    requires Tree(t) && Family(t, cs, p) && 0 < i <= |cs|
    ensures var c := cs[i - 1]; var ch := Get(t.nodes, c).children;
      (m0 + Veils(t, cs, v, i) + Veils(t, ch, if Get(t.nodes, c).expanded then v else false, 0))[c := v]
      == m0 + Veils(t, cs, v, i - 1)
  {
    var c := cs[i - 1];
    var ch := Get(t.nodes, c).children;
    var w := if Get(t.nodes, c).expanded then v else false;
    UnderSplit(t, cs, p, i);
    forall x | x in Under(t, ch, 0)
      ensures Shown(t, ch, w, x) == Shown(t, cs, v, x)
    {
      ShownShift(t, cs, p, i - 1, v, x);
      ShownFalse(t, ch, x);
    }
    VeilsMerge(t, cs, ch, v, w, m0, Under(t, cs, i), Under(t, ch, 0), Under(t, cs, i - 1), c);
  }

  /** Before setVisible walks `cs` nothing has changed. */
  lemma VeilsStart(t: Scene, cs: seq<Id>, v: bool, m0: map<Id, bool>)
    ensures m0 + Veils(t, cs, v, |cs|) == m0
  {
    WalkStart(t, cs);
    assert Veils(t, cs, v, |cs|) == map[];
  }

  /**
   * One round of setVisible's loop, from the flags before it (`m1`) through
   * the recursive call (`m2`) to the member's own flag (`m3`).
   */
  lemma VeilsRound(t: Scene, cs: seq<Id>, p: Id, i: nat, j: nat, c: Id, v: bool, m0: map<Id, bool>,
                   m1: map<Id, bool>, m2: map<Id, bool>, m3: map<Id, bool>)
    requires Tree(t) && Family(t, cs, p) && j == i + 1 && i < |cs| && c == cs[i]
    requires
      && m1 == m0 + Veils(t, cs, v, j)
      && m2 == m1 + Veils(t, Get(t.nodes, c).children, if Get(t.nodes, c).expanded then v else false, 0)
      && m3 == m2[c := v]
    ensures m3 == m0 + Veils(t, cs, v, i)
  {
    VeilsStep(t, cs, p, j, v, m0);
  }

  lemma VeilsMerge(t: Scene, cs: seq<Id>, ch: seq<Id>, v: bool, w: bool, m0: map<Id, bool>,
                   a: set<Id>, b: set<Id>, r: set<Id>, c: Id)
    requires r == a + {c} + b && c in cs
    requires forall x | x in b :: Shown(t, ch, w, x) == Shown(t, cs, v, x)
    ensures (m0 + VeilsOn(t, cs, v, a) + VeilsOn(t, ch, w, b))[c := v] == m0 + VeilsOn(t, cs, v, r)
  {
    MergeAt(m0, VeilsOn(t, cs, v, a), VeilsOn(t, ch, w, b), VeilsOn(t, cs, v, r), c, v);
  }

  /** layoutOffsetSubNodes on `cs[i-1]`: its children hidden when it is collapsed. */
  lemma HiddenStep(t: Scene, cs: seq<Id>, p: Id, i: nat, m0: map<Id, bool>)
    requires Tree(t) && Family(t, cs, p) && 0 < i <= |cs|
    ensures var c := cs[i - 1]; var ch := Get(t.nodes, c).children;
      (if Get(t.nodes, c).expanded then m0 + Hidden(t, cs, i) + Hidden(t, ch, 0)
       else m0 + Hidden(t, cs, i) + Hidden(t, ch, 0) + Veils(t, ch, false, 0))
      == m0 + Hidden(t, cs, i - 1)
  {
    var c := cs[i - 1];
    var ch := Get(t.nodes, c).children;
    UnderSplit(t, cs, p, i);
    forall x | x in Under(t, ch, 0)
      ensures Shown(t, cs, true, x) == (Get(t.nodes, c).expanded && Shown(t, ch, true, x))
      ensures !Shown(t, ch, false, x)
    {
      ShownShift(t, cs, p, i - 1, true, x);
      ShownFalse(t, ch, x);
    }
    HiddenMerge(t, cs, ch, m0, Under(t, cs, i), Under(t, ch, 0), Under(t, cs, i - 1), c, Get(t.nodes, c).expanded);
  }

  lemma HiddenMerge(t: Scene, cs: seq<Id>, ch: seq<Id>, m0: map<Id, bool>,
                    a: set<Id>, b: set<Id>, r: set<Id>, c: Id, e: bool)
    requires r == a + {c} + b && c in cs
    requires forall x | x in b :: Shown(t, cs, true, x) == (e && Shown(t, ch, true, x)) && !Shown(t, ch, false, x)
    ensures (if e then m0 + HiddenOn(t, cs, a) + HiddenOn(t, ch, b)
             else m0 + HiddenOn(t, cs, a) + HiddenOn(t, ch, b) + VeilsOn(t, ch, false, b))
            == m0 + HiddenOn(t, cs, r)
  {
    var ha, hb, hr := HiddenOn(t, cs, a), HiddenOn(t, ch, b), HiddenOn(t, cs, r);
    if e {
      HiddenKeysOpen(t, cs, ch, a, b, r, c);
      AllFalseMerge(m0, ha, hb, hr);
    } else {
      var vb := VeilsOn(t, ch, false, b);
      HiddenKeysClosed(t, cs, ch, a, b, r, c);
      MergeAssoc(m0 + ha, hb, vb);
      AllFalseMerge(m0, ha, hb + vb, hr);
    }
  }

  lemma HiddenKeysOpen(t: Scene, cs: seq<Id>, ch: seq<Id>, a: set<Id>, b: set<Id>, r: set<Id>, c: Id)
    requires r == a + {c} + b && c in cs
    requires forall x | x in b :: Shown(t, cs, true, x) == Shown(t, ch, true, x)
    ensures HiddenOn(t, cs, r).Keys == HiddenOn(t, cs, a).Keys + HiddenOn(t, ch, b).Keys
  {
    assert Shown(t, cs, true, c);
  }

  lemma HiddenKeysClosed(t: Scene, cs: seq<Id>, ch: seq<Id>, a: set<Id>, b: set<Id>, r: set<Id>, c: Id)
    requires r == a + {c} + b && c in cs
    requires forall x | x in b :: !Shown(t, cs, true, x) && !Shown(t, ch, false, x)
    ensures HiddenOn(t, cs, r).Keys == HiddenOn(t, cs, a).Keys + (HiddenOn(t, ch, b) + VeilsOn(t, ch, false, b)).Keys
    ensures forall x | x in VeilsOn(t, ch, false, b) :: !VeilsOn(t, ch, false, b)[x]
  {
    assert Shown(t, cs, true, c);
  }

  lemma MergeAssoc<V>(m0: map<Id, V>, a: map<Id, V>, b: map<Id, V>)
    ensures m0 + a + b == m0 + (a + b)
  {
  }

  /** Maps that only ever say false merge by their keys alone. */
  lemma AllFalseMerge(m0: map<Id, bool>, a: map<Id, bool>, b: map<Id, bool>, r: map<Id, bool>)
    requires r.Keys == a.Keys + b.Keys
    requires forall x | x in a :: !a[x]
    requires forall x | x in b :: !b[x]
    requires forall x | x in r :: !r[x]
    ensures m0 + a + b == m0 + r
  {
  }

  /** The outer heights of the nodes of `s`. */
  ghost function Heights(t: Scene, s: set<Id>): map<Id, real> {
    map x | x in s :: Outer(t, x)
  }

  /** layoutOffsetSubNodes on `cs[i-1]`: its subtree's heights, then its own. */
  lemma HeightsStep(t: Scene, cs: seq<Id>, p: Id, i: nat, m0: map<Id, real>)
    requires Tree(t) && Family(t, cs, p) && 0 < i <= |cs|
    ensures var c := cs[i - 1];
      (m0 + Heights(t, Under(t, cs, i)) + Heights(t, Under(t, Get(t.nodes, c).children, 0)))[c := Outer(t, c)]
      == m0 + Heights(t, Under(t, cs, i - 1))
  {
    var c := cs[i - 1];
    UnderSplit(t, cs, p, i);
    HeightsMerge(t, m0, Under(t, cs, i), Under(t, Get(t.nodes, c).children, 0), Under(t, cs, i - 1), c);
  }

  lemma HeightsMerge(t: Scene, m0: map<Id, real>, a: set<Id>, b: set<Id>, r: set<Id>, c: Id)
    requires r == a + {c} + b
    ensures (m0 + Heights(t, a) + Heights(t, b))[c := Outer(t, c)] == m0 + Heights(t, r)
  {
    MergeAt(m0, Heights(t, a), Heights(t, b), Heights(t, r), c, Outer(t, c));
  }

  /** Merging two maps that agree with `r` on their keys, which are r's keys, gives r. */
  lemma Merge<V>(m0: map<Id, V>, a: map<Id, V>, b: map<Id, V>, r: map<Id, V>)
    requires r.Keys == a.Keys + b.Keys
    requires forall x | x in b :: b[x] == r[x]
    requires forall x | x in a && x !in b :: a[x] == r[x]
    ensures m0 + a + b == m0 + r
  {
  }

  /** As Merge, with one more key written last. */
  lemma MergeAt<V>(m0: map<Id, V>, a: map<Id, V>, b: map<Id, V>, r: map<Id, V>, c: Id, v: V)
    requires r.Keys == a.Keys + b.Keys + {c} && r[c] == v
    requires forall x | x in b && x != c :: b[x] == r[x]
    requires forall x | x in a && x !in b && x != c :: a[x] == r[x]
    ensures (m0 + a + b)[c := v] == m0 + r
  {
  }

  // ---------------------------------------------------------------------------
  // Horizontal and vertical offsets.
  // ---------------------------------------------------------------------------

  /** A direction map's entry, 0 where none was written. */
  function DirIn(dir: map<Id, int>, x: Id): int {
    if x in dir then dir[x] else 0
  }

  /** A number map's entry, 0 where none was written. */
  function RealIn(m: map<Id, real>, x: Id): real {
    if x in m then m[x] else 0.0
  }

  /**
   * offsetX in terms of the spacing, the parent's width, the parent's and the
   * node's layout direction, and whether the parent is the root.
   */
  function Across(hSpace: real, pSpace: real, parentWidth: real, pd: int, d: int, parentIsRoot: bool): real {
    hSpace * d as real + parentWidth * (pd + d) as real / 2.0 + (if parentIsRoot then 0.0 else pSpace * d as real)
  }

  /** Left and right nodes of equal sizes get mirrored offsets. */
  lemma AcrossMirrored(hSpace: real, pSpace: real, parentWidth: real, pd: int, d: int, parentIsRoot: bool)
    ensures Across(hSpace, pSpace, parentWidth, -pd, -d, parentIsRoot) == -Across(hSpace, pSpace, parentWidth, pd, d, parentIsRoot)
  {
  }

  /**
   * On a side, a node with non-negative spacing and widths lies at least
   * hSpace beyond its parent's centre: right of it on the right, left on the left.
   */
  lemma AcrossOutward(hSpace: real, pSpace: real, parentWidth: real, d: int, parentIsRoot: bool)
    requires hSpace >= 0.0 && pSpace >= 0.0 && parentWidth >= 0.0
    ensures d == 1 ==> Across(hSpace, pSpace, parentWidth, if parentIsRoot then 0 else d, d, parentIsRoot) >= hSpace
    ensures d == -1 ==> Across(hSpace, pSpace, parentWidth, if parentIsRoot then 0 else d, d, parentIsRoot) <= -hSpace
  {
    var pd := if parentIsRoot then 0 else d;
    ScaleIs(hSpace, d);
    ScaleIs(parentWidth, pd + d);
    ScaleIs(pSpace, d);
  }

  /** A node's offsetX as layoutOffsetSubNodes computes it. */
  ghost function OffsetX(t: Scene, dir: map<Id, int>, x: Id): real {
    if Live(t.nodes, x) && Get(t.nodes, x).parent.Some? && Live(t.nodes, Get(t.nodes, x).parent.value)
    then
      var p := Get(t.nodes, x).parent.value;
      Across(t.hSpace, t.pSpace, Width(t, p), DirIn(dir, p), DirIn(dir, x), Get(t.nodes, p).isRoot)
    else 0.0
  }

  /** OffsetX in the two steps layoutOffsetSubNodes takes: pSpace added below a non-root parent. */
  lemma OffsetXOf(t: Scene, dir: map<Id, int>, x: Id, pw: real, pd: int, d: int, base: real, ox: real)
    requires Live(t.nodes, x) && Get(t.nodes, x).parent.Some? && Live(t.nodes, Get(t.nodes, x).parent.value)
    requires var p := Get(t.nodes, x).parent.value;
      && pw == Width(t, p) && pd == DirIn(dir, p) && d == DirIn(dir, x)
      && base == t.hSpace * d as real + pw * (pd + d) as real / 2.0
      && ox == if Get(t.nodes, p).isRoot then base else base + t.pSpace * d as real
    ensures ox == OffsetX(t, dir, x)
  {
  }

  ghost function OffsetsX(t: Scene, dir: map<Id, int>, s: set<Id>): map<Id, real> {
    map x | x in s :: OffsetX(t, dir, x)
  }

  lemma OffsetsXStep(t: Scene, dir: map<Id, int>, cs: seq<Id>, p: Id, i: nat, m0: map<Id, real>)
    requires Tree(t) && Family(t, cs, p) && 0 < i <= |cs|
    ensures var c := cs[i - 1];
      (m0 + OffsetsX(t, dir, Under(t, cs, i)) + OffsetsX(t, dir, Under(t, Get(t.nodes, c).children, 0)))[c := OffsetX(t, dir, c)]
      == m0 + OffsetsX(t, dir, Under(t, cs, i - 1))
  {
    var c := cs[i - 1];
    UnderSplit(t, cs, p, i);
    OffsetsXMerge(t, dir, m0, Under(t, cs, i), Under(t, Get(t.nodes, c).children, 0), Under(t, cs, i - 1), c);
  }

  lemma OffsetsXMerge(t: Scene, dir: map<Id, int>, m0: map<Id, real>, a: set<Id>, b: set<Id>, r: set<Id>, c: Id)
    requires r == a + {c} + b
    ensures (m0 + OffsetsX(t, dir, a) + OffsetsX(t, dir, b))[c := OffsetX(t, dir, c)] == m0 + OffsetsX(t, dir, r)
  {
    MergeAt(m0, OffsetsX(t, dir, a), OffsetsX(t, dir, b), OffsetsX(t, dir, r), c, OffsetX(t, dir, c));
  }

  /** A non-root node's offsetY: its place in its parent's centred stack. */
  ghost function NodeY(t: Scene, x: Id): real {
    if Live(t.nodes, x) && Get(t.nodes, x).parent.Some? && Live(t.nodes, Get(t.nodes, x).parent.value)
       && x in Get(t.nodes, Get(t.nodes, x).parent.value).children
    then
      var p := Get(t.nodes, x).parent.value;
      var cs := Get(t.nodes, p).children;
      StackY(t, cs, IndexOf(cs, x), Slack(t, p))
    else 0.0
  }

  ghost function Deep(t: Scene, s: set<Id>): map<Id, real> {
    map x | x in s :: NodeY(t, x)
  }

  /** The members of `cs` from position `i` on. */
  ghost function Members(cs: seq<Id>, i: nat): set<Id> {
    set x | x in cs && IndexOf(cs, x) >= i
  }

  /** The members in `l` of `cs` at their uncentred places. */
  ghost function LiftedOn(t: Scene, cs: seq<Id>, s: nat, l: set<Id>): map<Id, real> {
    map x | x in l && x in cs :: Raw(t, cs, IndexOf(cs, x), s)
  }

  /** The members of `cs[i..]` at their uncentred places. */
  ghost function Lifted(t: Scene, cs: seq<Id>, i: nat, s: nat): map<Id, real> {
    LiftedOn(t, cs, s, Members(cs, i))
  }

  /** The members of `cs`, those from `j` on centred. */
  ghost function Centred(t: Scene, cs: seq<Id>, j: nat, s: nat): map<Id, real> {
    map x | x in cs :: Raw(t, cs, IndexOf(cs, x), s) + (if IndexOf(cs, x) >= j then Span(t, cs, s) / 2.0 else 0.0)
  }

  /** The members of `cs` at their centred places. */
  ghost function Stacked(t: Scene, cs: seq<Id>, s: nat): map<Id, real> {
    map x | x in cs :: StackY(t, cs, IndexOf(cs, x), s)
  }

  /** offsetY after the first pass over `cs[i..]`: the subtrees placed, the members not yet centred. */
  ghost function Rising(t: Scene, cs: seq<Id>, i: nat, s: nat): map<Id, real> {
    Deep(t, Under(t, cs, i)) + Lifted(t, cs, i, s)
  }

  /** offsetY after layoutOffsetSubNodes(cs): the subtrees and the members placed. */
  ghost function Settled(t: Scene, cs: seq<Id>, s: nat): map<Id, real> {
    Deep(t, Under(t, cs, 0)) + Stacked(t, cs, s)
  }

  lemma MembersStep(cs: seq<Id>, i: nat)
    requires Distinct(cs) && 0 < i <= |cs|
    ensures Members(cs, i - 1) == Members(cs, i) + {cs[i - 1]}
  {
    IndexOfDistinct(cs, i - 1);
  }


  lemma DeepMerge(t: Scene, cs: seq<Id>, ch: seq<Id>, s: nat, sc: nat, m0: map<Id, real>,
                  u: set<Id>, uc: set<Id>, r: set<Id>, l: set<Id>, lr: set<Id>, c: Id)
    requires r == u + {c} + uc && lr == l + {c} && c in cs
    requires forall x | x in ch :: x in uc && NodeY(t, x) == StackY(t, ch, IndexOf(ch, x), sc)
    requires forall x | x in uc :: x !in cs
    ensures (m0 + (Deep(t, u) + LiftedOn(t, cs, s, l)) + (Deep(t, uc) + Stacked(t, ch, sc)))[c := Raw(t, cs, IndexOf(cs, c), s)]
            == m0 + (Deep(t, r) + LiftedOn(t, cs, s, lr))
  {
    StackedShadow(t, ch, sc, uc);
    DeepLiftMerge(t, cs, s, m0, u, uc, r, l, lr, c);
  }

  /** The members of `ch` already sit in Deep at their stacked places. */
  lemma StackedShadow(t: Scene, ch: seq<Id>, sc: nat, uc: set<Id>)
    requires forall x | x in ch :: x in uc && NodeY(t, x) == StackY(t, ch, IndexOf(ch, x), sc)
    ensures Deep(t, uc) + Stacked(t, ch, sc) == Deep(t, uc)
  {
  }

  lemma DeepLiftMerge(t: Scene, cs: seq<Id>, s: nat, m0: map<Id, real>,
                      u: set<Id>, uc: set<Id>, r: set<Id>, l: set<Id>, lr: set<Id>, c: Id)
    requires r == u + {c} + uc && lr == l + {c} && c in cs
    requires forall x | x in uc :: x !in cs
    ensures (m0 + (Deep(t, u) + LiftedOn(t, cs, s, l)) + Deep(t, uc))[c := Raw(t, cs, IndexOf(cs, c), s)]
            == m0 + (Deep(t, r) + LiftedOn(t, cs, s, lr))
  {
    var du, ll, duc := Deep(t, u), LiftedOn(t, cs, s, l), Deep(t, uc);
    DeepUnion(t, u, uc, r, c);
    LiftedAdd(t, cs, s, l, lr, c);
    forall x | x in ll ensures x !in duc {
      assert x in cs;
    }
    Overlay(m0, du, ll, duc, c, NodeY(t, c), Raw(t, cs, IndexOf(cs, c), s));
  }

  lemma DeepUnion(t: Scene, u: set<Id>, uc: set<Id>, r: set<Id>, c: Id)
    requires r == u + {c} + uc
    ensures Deep(t, r) == (Deep(t, u) + Deep(t, uc))[c := NodeY(t, c)]
  {
  }

  lemma LiftedAdd(t: Scene, cs: seq<Id>, s: nat, l: set<Id>, lr: set<Id>, c: Id)
    requires lr == l + {c} && c in cs
    ensures LiftedOn(t, cs, s, lr) == LiftedOn(t, cs, s, l)[c := Raw(t, cs, IndexOf(cs, c), s)]
  {
  }

  /** Writing `b` over `a + l` and then `c` is writing `a + b` with `c`, then `l` with `c`, when `l` and `b` are apart. */
  lemma Overlay<V>(m0: map<Id, V>, a: map<Id, V>, l: map<Id, V>, b: map<Id, V>, c: Id, vc: V, lc: V)
    requires forall x | x in l :: x !in b
    ensures (m0 + (a + l) + b)[c := lc] == m0 + ((a + b)[c := vc] + l[c := lc])
  {
  }

  /** Before the second pass the members are where the first left them. */
  lemma CentredStart(t: Scene, cs: seq<Id>, s: nat)
    ensures Centred(t, cs, |cs|, s) == Lifted(t, cs, 0, s)
  {
  }

  // ---------------------------------------------------------------------------
  // One round of layoutOffsetSubNodes' first loop, for each field it writes.
  // ---------------------------------------------------------------------------

  /** Before the walk over `cs` every field is as it was. */
  lemma OffsetStart(t: Scene, dir: map<Id, int>, cs: seq<Id>, s: nat,
                    h0: map<Id, real>, y0: map<Id, real>, x0: map<Id, real>, v0: map<Id, bool>)
    ensures h0 + Heights(t, Under(t, cs, |cs|)) == h0
    ensures y0 + Rising(t, cs, |cs|, s) == y0
    ensures x0 + OffsetsX(t, dir, Under(t, cs, |cs|)) == x0
    ensures v0 + Hidden(t, cs, |cs|) == v0
    ensures Tail(t, cs, |cs|, s) == 0.0
  {
    WalkStart(t, cs);
    assert Heights(t, Under(t, cs, |cs|)) == map[];
    assert Rising(t, cs, |cs|, s) == map[];
    assert OffsetsX(t, dir, Under(t, cs, |cs|)) == map[];
    assert Hidden(t, cs, |cs|) == map[];
  }

  /** The running total and baseY after member `cs[i]`, of outer height `h`, is stacked. */
  lemma TailRound(t: Scene, cs: seq<Id>, i: nat, j: nat, s: nat, total: real, baseY: real, h: real, y: real)
    requires j == i + 1 && i < |cs| && h == Outer(t, cs[i]) && Slack(t, cs[i]) < s
    requires total == Tail(t, cs, j, s) && baseY == -(Tail(t, cs, j, s) + Scale(t.vSpace, |cs| - j))
    requires y == baseY - h / 2.0
    ensures total + h == Tail(t, cs, i, s)
    ensures baseY - h - t.vSpace == -(Tail(t, cs, i, s) + Scale(t.vSpace, |cs| - i))
    ensures y == Raw(t, cs, i, s)
  {
    assert Scale(t.vSpace, |cs| - i) == Scale(t.vSpace, |cs| - j) + t.vSpace;
    assert Part(t, cs[i], s) == h;
    assert Tail(t, cs, i, s) == h + Tail(t, cs, j, s);
  }

  lemma HeightsRound(t: Scene, cs: seq<Id>, p: Id, i: nat, j: nat, c: Id, m0: map<Id, real>,
                     m1: map<Id, real>, m3: map<Id, real>)
    requires Tree(t) && Family(t, cs, p) && j == i + 1 && i < |cs| && c == cs[i]
    requires
      && m1 == m0 + Heights(t, Under(t, cs, j))
      && m3 == (m1 + Heights(t, Under(t, Get(t.nodes, c).children, 0)))[c := Outer(t, c)]
    ensures m3 == m0 + Heights(t, Under(t, cs, i))
  {
    HeightsStep(t, cs, p, j, m0);
  }

  /** layoutOffsetSubNodes on `cs[i]`: its children's subtrees settled, then its own raw place. */
  lemma DeepStep(t: Scene, cs: seq<Id>, p: Id, i: nat, j: nat, m0: map<Id, real>)
    requires Tree(t) && Family(t, cs, p) && j == i + 1 && j <= |cs|
    ensures var c := cs[i]; var s := Slack(t, p);
      (m0 + Rising(t, cs, j, s) + Settled(t, Get(t.nodes, c).children, Slack(t, c)))[c := Raw(t, cs, i, s)]
      == m0 + Rising(t, cs, i, s)
  {
    var c := cs[i];
    var ch := Get(t.nodes, c).children;
    UnderSplit(t, cs, p, j);
    MembersStep(cs, j);
    IndexOfDistinct(cs, i);
    ChildrenFamily(t, c);
    forall x | x in ch ensures x in Under(t, ch, 0) {
      var k :| 0 <= k < |ch| && ch[k] == x;
      assert Descends(t.nodes, t.rank, x, ch[k]);
    }
    forall x | x in Under(t, ch, 0) ensures x !in cs {
      UnderNotMember(t, cs, p, i, x);
    }
    DeepMerge(t, cs, ch, Slack(t, p), Slack(t, c), m0, Under(t, cs, j), Under(t, ch, 0), Under(t, cs, i),
              Members(cs, j), Members(cs, i), c);
  }

  lemma RisingRound(t: Scene, cs: seq<Id>, p: Id, i: nat, j: nat, c: Id, m0: map<Id, real>,
                    m1: map<Id, real>, m3: map<Id, real>, v: real)
    requires Tree(t) && Family(t, cs, p) && j == i + 1 && i < |cs| && c == cs[i]
    requires v == Raw(t, cs, i, Slack(t, p))
    requires
      && m1 == m0 + Rising(t, cs, j, Slack(t, p))
      && m3 == (m1 + Settled(t, Get(t.nodes, c).children, Slack(t, c)))[c := v]
    ensures m3 == m0 + Rising(t, cs, i, Slack(t, p))
  {
    DeepStep(t, cs, p, i, j, m0);
  }

  lemma OffsetsXRound(t: Scene, dir: map<Id, int>, cs: seq<Id>, p: Id, i: nat, j: nat, c: Id, m0: map<Id, real>,
                      m1: map<Id, real>, m3: map<Id, real>)
    requires Tree(t) && Family(t, cs, p) && j == i + 1 && i < |cs| && c == cs[i]
    requires
      && m1 == m0 + OffsetsX(t, dir, Under(t, cs, j))
      && m3 == (m1 + OffsetsX(t, dir, Under(t, Get(t.nodes, c).children, 0)))[c := OffsetX(t, dir, c)]
    ensures m3 == m0 + OffsetsX(t, dir, Under(t, cs, i))
  {
    OffsetsXStep(t, dir, cs, p, j, m0);
  }

  lemma HiddenRound(t: Scene, cs: seq<Id>, p: Id, i: nat, j: nat, c: Id, m0: map<Id, bool>,
                    m1: map<Id, bool>, m3: map<Id, bool>)
    requires Tree(t) && Family(t, cs, p) && j == i + 1 && i < |cs| && c == cs[i]
    requires var ch := Get(t.nodes, c).children;
      && m1 == m0 + Hidden(t, cs, j)
      && m3 == (if Get(t.nodes, c).expanded then m1 + Hidden(t, ch, 0)
                else m1 + Hidden(t, ch, 0) + Veils(t, ch, false, 0))
    ensures m3 == m0 + Hidden(t, cs, i)
  {
    HiddenStep(t, cs, p, j, m0);
  }

  /**
   * One step of the second pass of layoutOffsetSubNodes: raising member
   * `cs[i]` by half the stack centres it, the others keep their places.
   */
  lemma CentredStep(t: Scene, cs: seq<Id>, i: nat, j: nat, s: nat, m0: map<Id, real>, m1: map<Id, real>, half: real)
    requires Distinct(cs) && j == i + 1 && i < |cs| && half == Span(t, cs, s) / 2.0
    requires m1 == m0 + Centred(t, cs, j, s)
    ensures cs[i] in m1 && m1[cs[i] := m1[cs[i]] + half] == m0 + Centred(t, cs, i, s)
  {
    var c := cs[i];
    IndexOfDistinct(cs, i);
    var a, b := Centred(t, cs, j, s), Centred(t, cs, i, s);
    var v := Raw(t, cs, i, s) + half;
    assert a.Keys == b.Keys;
    assert a[c] == Raw(t, cs, i, s) && b[c] == v;
    forall x | x in a && x != c ensures a[x] == b[x] {
      assert IndexOf(cs, x) != i;
    }
    UpdateOver(m0, a, b, c, v);
    assert m1[c] + half == v;
  }

  /** The first pass leaves the members uncentred over the settled subtrees. */
  lemma RisingCentred(t: Scene, cs: seq<Id>, s: nat, y0: map<Id, real>)
    ensures y0 + Rising(t, cs, 0, s) == (y0 + Deep(t, Under(t, cs, 0))) + Centred(t, cs, |cs|, s)
    ensures (y0 + Deep(t, Under(t, cs, 0))) + Centred(t, cs, 0, s) == y0 + Settled(t, cs, s)
  {
    CentredStart(t, cs, s);
    MergeAssoc(y0, Deep(t, Under(t, cs, 0)), Lifted(t, cs, 0, s));
    CentredEnd(t, cs, s);
    MergeAssoc(y0, Deep(t, Under(t, cs, 0)), Stacked(t, cs, s));
  }

  /** Overwriting one key of `a` turns it into `r` when they agree elsewhere. */
  lemma UpdateOver<V>(m0: map<Id, V>, a: map<Id, V>, r: map<Id, V>, c: Id, v: V)
    requires c in a && r.Keys == a.Keys && r[c] == v
    requires forall x | x in a && x != c :: a[x] == r[x]
    ensures (m0 + a)[c := v] == m0 + r
  {
  }

  /** After the second pass every member is centred. */
  lemma CentredEnd(t: Scene, cs: seq<Id>, s: nat)
    ensures Centred(t, cs, 0, s) == Stacked(t, cs, s)
  {
    var a, b := Centred(t, cs, 0, s), Stacked(t, cs, s);
    assert a.Keys == b.Keys;
    forall x | x in a ensures a[x] == b[x] {
      assert a[x] == Raw(t, cs, IndexOf(cs, x), s) + Span(t, cs, s) / 2.0;
    }
  }

  // ---------------------------------------------------------------------------
  // The root's two sides (layoutOffset).
  // ---------------------------------------------------------------------------

  /** The members of `cs` laid out on the right (layout direction 1), in order. */
  function RightOf(dir: map<Id, int>, cs: seq<Id>): seq<Id> {
    if |cs| == 0 then [] else (if DirIn(dir, cs[0]) == 1 then [cs[0]] else []) + RightOf(dir, cs[1..])
  }

  /** The other members of `cs`, in order: every layout direction but 1 goes left. */
  function LeftOf(dir: map<Id, int>, cs: seq<Id>): seq<Id> {
    if |cs| == 0 then [] else (if DirIn(dir, cs[0]) == 1 then [] else [cs[0]]) + LeftOf(dir, cs[1..])
  }

  /** The two sides split the list: together they hold each member exactly as often as the list does. */
  lemma {:induction false} SidesSplit(dir: map<Id, int>, cs: seq<Id>)
    ensures multiset(RightOf(dir, cs)) + multiset(LeftOf(dir, cs)) == multiset(cs)
  {
    if |cs| > 0 {
      SidesSplit(dir, cs[1..]);
      SidesCons(dir, cs);
      ConsMultiset(cs);
    }
  }

  /** The first member goes to exactly one side. */
  lemma SidesCons(dir: map<Id, int>, cs: seq<Id>)
    requires |cs| > 0
    ensures multiset(RightOf(dir, cs)) + multiset(LeftOf(dir, cs))
            == multiset{cs[0]} + multiset(RightOf(dir, cs[1..])) + multiset(LeftOf(dir, cs[1..]))
  {
    var r, l := RightOf(dir, cs[1..]), LeftOf(dir, cs[1..]);
    if DirIn(dir, cs[0]) == 1 {
      PrependMultiset(cs[0], r);
      PrependMultiset(cs[0], l, false);
    } else {
      PrependMultiset(cs[0], r, false);
      PrependMultiset(cs[0], l);
    }
  }

  /** A non-empty sequence holds its first element and the rest. */
  lemma ConsMultiset<T>(s: seq<T>)
    requires |s| > 0
    ensures multiset(s) == multiset{s[0]} + multiset(s[1..])
  {
    assert s == [s[0]] + s[1..];
  }

  /** Putting `x` (when `keep`) in front of `r` adds it once to the multiset. */
  lemma PrependMultiset<T>(x: T, r: seq<T>, keep: bool := true)
    ensures multiset((if keep then [x] else []) + r) == (if keep then multiset{x} else multiset{}) + multiset(r)
  {
    if !keep {
      assert [] + r == r;
    }
  }

  /** The right side holds only direction-1 members, the left side only the others. */
  lemma {:induction false} SidesFiltered(dir: map<Id, int>, cs: seq<Id>)
    ensures forall x | x in RightOf(dir, cs) :: DirIn(dir, x) == 1
    ensures forall x | x in LeftOf(dir, cs) :: DirIn(dir, x) != 1
  {
    if |cs| > 0 {
      SidesFiltered(dir, cs[1..]);
      assert RightOf(dir, cs) == (if DirIn(dir, cs[0]) == 1 then [cs[0]] else []) + RightOf(dir, cs[1..]);
      assert LeftOf(dir, cs) == (if DirIn(dir, cs[0]) == 1 then [] else [cs[0]]) + LeftOf(dir, cs[1..]);
    }
  }

  /** Stepping back one member of a suffix adds it to the front of its side. */
  lemma SidesAt(dir: map<Id, int>, cs: seq<Id>, i: nat)
    requires i < |cs|
    ensures RightOf(dir, cs[i..]) == (if DirIn(dir, cs[i]) == 1 then [cs[i]] else []) + RightOf(dir, cs[i + 1..])
    ensures LeftOf(dir, cs[i..]) == (if DirIn(dir, cs[i]) == 1 then [] else [cs[i]]) + LeftOf(dir, cs[i + 1..])
  {
    assert cs[i..][1..] == cs[i + 1..];
  }

  /** A node is in the list exactly when it is on one of the two sides. */
  lemma {:induction false} SidesMembers(dir: map<Id, int>, cs: seq<Id>)
    ensures forall x :: x in cs <==> x in LeftOf(dir, cs) || x in RightOf(dir, cs)
  {
    if |cs| > 0 {
      SidesMembers(dir, cs[1..]);
      assert cs == [cs[0]] + cs[1..];
    }
  }

  /** The subtrees below the two sides are the subtrees below the whole list. */
  lemma SidesCover(t: Scene, dir: map<Id, int>, cs: seq<Id>)
    ensures Under(t, LeftOf(dir, cs), 0) + Under(t, RightOf(dir, cs), 0) == Under(t, cs, 0)
  {
    var l, r := LeftOf(dir, cs), RightOf(dir, cs);
    SidesMembers(dir, cs);
    forall x | x in t.nodes
      ensures Below(t.nodes, t.rank, l, 0, x) || Below(t.nodes, t.rank, r, 0, x) <==> Below(t.nodes, t.rank, cs, 0, x)
    {
      if Below(t.nodes, t.rank, l, 0, x) {
        var j :| 0 <= j < |l| && Descends(t.nodes, t.rank, x, l[j]);
        assert l[j] in cs;
        var k :| 0 <= k < |cs| && cs[k] == l[j];
      }
      if Below(t.nodes, t.rank, r, 0, x) {
        var j :| 0 <= j < |r| && Descends(t.nodes, t.rank, x, r[j]);
        assert r[j] in cs;
        var k :| 0 <= k < |cs| && cs[k] == r[j];
      }
      if Below(t.nodes, t.rank, cs, 0, x) {
        var k :| 0 <= k < |cs| && Descends(t.nodes, t.rank, x, cs[k]);
        if cs[k] in l {
          var j :| 0 <= j < |l| && l[j] == cs[k];
        } else {
          var j :| 0 <= j < |r| && r[j] == cs[k];
        }
      }
    }
  }

  /** The root's children laid out on the left: every direction but 1. */
  ghost function LeftSide(t: Scene, dir: map<Id, int>): seq<Id> {
    if Live(t.nodes, t.root) then LeftOf(dir, Get(t.nodes, t.root).children) else []
  }

  /** The root's children laid out on the right: direction 1. */
  ghost function RightSide(t: Scene, dir: map<Id, int>): seq<Id> {
    if Live(t.nodes, t.root) then RightOf(dir, Get(t.nodes, t.root).children) else []
  }

  /**
   * What layoutOffset writes into the node records, from the maps it started
   * from: the root at offset 0 with outer height 0, and each side stacked and
   * centred with its subtrees laid out below it.
   */
  ghost function LaidHeights(t: Scene, dir: map<Id, int>, oh0: map<Id, real>): map<Id, real> {
    oh0[t.root := 0.0] + Heights(t, Under(t, LeftSide(t, dir), 0)) + Heights(t, Under(t, RightSide(t, dir), 0))
  }

  ghost function LaidY(t: Scene, dir: map<Id, int>, oy0: map<Id, real>): map<Id, real> {
    oy0[t.root := 0.0] + Settled(t, LeftSide(t, dir), Slack(t, t.root)) + Settled(t, RightSide(t, dir), Slack(t, t.root))
  }

  ghost function LaidX(t: Scene, dir: map<Id, int>, ox0: map<Id, real>): map<Id, real> {
    ox0[t.root := 0.0] + OffsetsX(t, dir, Under(t, LeftSide(t, dir), 0)) + OffsetsX(t, dir, Under(t, RightSide(t, dir), 0))
  }

  ghost function LaidVisible(t: Scene, dir: map<Id, int>, vis0: map<Id, bool>): map<Id, bool> {
    vis0 + Hidden(t, LeftSide(t, dir), 0) + Hidden(t, RightSide(t, dir), 0)
  }

  /** The root's record layoutOffset writes: the two sides in their order with their heights. */
  ghost function LaidSides(t: Scene, dir: map<Id, int>): Sides {
    Sides(LeftSide(t, dir), RightSide(t, dir),
          Span(t, LeftSide(t, dir), Slack(t, t.root)), Span(t, RightSide(t, dir), Slack(t, t.root)))
  }

  /** The bounds layoutOffset writes: the root's width across, the taller side down. */
  ghost function LaidBounds(t: Scene, dir: map<Id, int>): Bounds {
    Bounds(0.0, Max(LaidSides(t, dir).heightLeft, LaidSides(t, dir).heightRight),
           0.0 - Width(t, t.root) / 2.0, Width(t, t.root) / 2.0)
  }

  /** The two sides of a live root are the two halves of its children. */
  lemma RootSides(t: Scene, dir: map<Id, int>, left: seq<Id>, right: seq<Id>)
    requires Live(t.nodes, t.root)
    requires left == LeftOf(dir, Get(t.nodes, t.root).children) && right == RightOf(dir, Get(t.nodes, t.root).children)
    ensures LeftSide(t, dir) == left && RightSide(t, dir) == right
    ensures LaidSides(t, dir) == Sides(left, right, Span(t, left, Slack(t, t.root)), Span(t, right, Slack(t, t.root)))
  {
  }

  /** The bounds of a live root, from its half width and the heights of its two sides. */
  lemma RootBounds(t: Scene, dir: map<Id, int>, left: seq<Id>, right: seq<Id>, hl: real, hr: real, e: real)
    requires Live(t.nodes, t.root)
    requires left == LeftOf(dir, Get(t.nodes, t.root).children) && right == RightOf(dir, Get(t.nodes, t.root).children)
    requires hl == Span(t, left, Slack(t, t.root)) && hr == Span(t, right, Slack(t, t.root))
    requires e == Width(t, t.root) / 2.0
    ensures LaidBounds(t, dir) == Bounds(0.0, Max(hl, hr), 0.0 - e, e)
  {
    RootSides(t, dir, left, right);
  }

  /** Each side of a family is a family of the same parent. */
  lemma SidesFamily(t: Scene, dir: map<Id, int>, cs: seq<Id>, p: Id)
    requires Family(t, cs, p)
    ensures Family(t, RightOf(dir, cs), p) && Family(t, LeftOf(dir, cs), p)
  {
    SidesSplit(dir, cs);
    SubFamily(t, cs, RightOf(dir, cs), LeftOf(dir, cs), p);
    SubFamily(t, cs, LeftOf(dir, cs), RightOf(dir, cs), p);
  }

  lemma SubFamily(t: Scene, cs: seq<Id>, a: seq<Id>, b: seq<Id>, p: Id)
    requires Family(t, cs, p) && multiset(a) + multiset(b) == multiset(cs)
    ensures Family(t, a, p)
  {
    forall j | 0 <= j < |a| ensures Live(t.nodes, a[j]) && Get(t.nodes, a[j]).parent == Some(p) {
      assert a[j] in multiset(cs);
    }
    forall i, j | 0 <= i < j < |a| ensures a[i] != a[j] {
      if a[i] == a[j] {
        assert multiset(a)[a[i]] >= 2 by {
          assert a == a[..i] + [a[i]] + a[i + 1..j] + [a[j]] + a[j + 1..];
        }
        DistinctOnce(cs, a[i]);
        assert false;
      }
    }
  }

  /** A member of a list without repeats occurs in it once. */
  lemma {:induction false} DistinctOnce(s: seq<Id>, x: Id)
    requires Distinct(s)
    ensures multiset(s)[x] <= 1
  {
    if |s| > 0 {
      assert s == [s[0]] + s[1..];
      DistinctOnce(s[1..], x);
      assert s[0] !in s[1..];
    }
  }

  // ---------------------------------------------------------------------------
  // Absolute offsets and connector points.
  // ---------------------------------------------------------------------------

  /** getNodeOffset: a node's own offsets plus its parent's absolute offset; the root's own offsets. */
  ghost function Offset(t: Scene, ox: map<Id, real>, oy: map<Id, real>, k: Id): Point
    decreases if k in t.rank then t.rank[k] else 0
  {
    if Live(t.nodes, k) && !Get(t.nodes, k).isRoot && Get(t.nodes, k).parent.Some? && k in t.rank
       && Get(t.nodes, k).parent.value in t.rank && t.rank[Get(t.nodes, k).parent.value] < t.rank[k]
    then
      var q := Offset(t, ox, oy, Get(t.nodes, k).parent.value);
      Point(RealIn(ox, k) + q.x, RealIn(oy, k) + q.y)
    else Point(RealIn(ox, k), RealIn(oy, k))
  }

  /** getNodePointOut: the root's centre, else the offset moved out by the width and pSpace. */
  ghost function PointOut(t: Scene, ox: map<Id, real>, oy: map<Id, real>, dir: map<Id, int>, k: Id): Point {
    if Live(t.nodes, k) && Get(t.nodes, k).isRoot then Point(0.0, 0.0)
    else
      var o := Offset(t, ox, oy, k);
      Point(o.x + (Width(t, k) + t.pSpace) * DirIn(dir, k) as real, o.y)
  }

  /** getNodePoint: the top-left corner of the node's element. */
  ghost function NodePoint(t: Scene, ox: map<Id, real>, oy: map<Id, real>, dir: map<Id, int>, k: Id): Point {
    var o := Offset(t, ox, oy, k);
    Point(o.x + Width(t, k) * (DirIn(dir, k) - 1) as real / 2.0, o.y - Height(t, k) / 2.0)
  }

  /** getExpanderPoint: where the expander box of width pSpace starts. */
  ghost function ExpanderPoint(t: Scene, ox: map<Id, real>, oy: map<Id, real>, dir: map<Id, int>, k: Id): Point {
    var po := PointOut(t, ox, oy, dir, k);
    Point(if DirIn(dir, k) == 1 then po.x - t.pSpace else po.x, po.y - Ceil(t.pSpace / 2.0) as real)
  }

  /** A non-root node's absolute offset is its parent's plus its own. */
  lemma OffsetChild(t: Scene, ox: map<Id, real>, oy: map<Id, real>, x: Id)
    requires Tree(t) && Live(t.nodes, x) && x != t.root && LinkedAt(t.nodes, t.root, t.rank, t.bound, x)
    ensures var p := Get(t.nodes, x).parent.value;
      Offset(t, ox, oy, x) == Point(Offset(t, ox, oy, p).x + RealIn(ox, x), Offset(t, ox, oy, p).y + RealIn(oy, x))
  {
    assert LinkedAt(t.nodes, t.root, t.rank, t.bound, x);
  }

  /**
   * The connector geometry of a side node (layout direction d of 1 or -1):
   * the offset, the point-in, lies on the element's inner edge at its
   * vertical centre; the point-out lies pSpace beyond the outer edge at the
   * same height; the expander box of width pSpace spans from the outer edge
   * to the point-out, about pSpace/2 above it.
   */
  lemma Connectors(t: Scene, ox: map<Id, real>, oy: map<Id, real>, dir: map<Id, int>, k: Id)
    requires Tree(t) && Live(t.nodes, k) && k != t.root && (DirIn(dir, k) == 1 || DirIn(dir, k) == -1)
    ensures var o, np, po, e := Offset(t, ox, oy, k), NodePoint(t, ox, oy, dir, k),
                                PointOut(t, ox, oy, dir, k), ExpanderPoint(t, ox, oy, dir, k);
      var w := Width(t, k);
      && o.y == np.y + Height(t, k) / 2.0 && po.y == o.y
      && (DirIn(dir, k) == 1 ==> o.x == np.x && po.x == np.x + w + t.pSpace && e.x == np.x + w)
      && (DirIn(dir, k) == -1 ==> o.x == np.x + w && po.x == np.x - t.pSpace && e.x == po.x)
      && po.y - t.pSpace / 2.0 - 1.0 < e.y <= po.y - t.pSpace / 2.0
  {
    assert LinkedAt(t.nodes, t.root, t.rank, t.bound, k);
  }

  /**
   * Once laid out, a side node's point-in lies hSpace beyond its parent's
   * point-out: beyond a non-root parent when they share the side, and beyond
   * the root element's edge (the root offset at the centre) for a root child.
   */
  lemma ConnectorGap(t: Scene, ox: map<Id, real>, oy: map<Id, real>, dir: map<Id, int>, x: Id)
    requires Tree(t) && Live(t.nodes, x) && x != t.root && LinkedAt(t.nodes, t.root, t.rank, t.bound, x)
    requires var d := DirIn(dir, x); d == 1 || d == -1
    requires RealIn(ox, x) == OffsetX(t, dir, x)
    requires var p := Get(t.nodes, x).parent.value;
      if p == t.root then DirIn(dir, p) == 0 && RealIn(ox, p) == 0.0 && RealIn(oy, p) == 0.0
      else DirIn(dir, p) == DirIn(dir, x)
    ensures var p, d := Get(t.nodes, x).parent.value, DirIn(dir, x) as real;
      var o := Offset(t, ox, oy, x);
      && (p != t.root ==> o.x == PointOut(t, ox, oy, dir, p).x + t.hSpace * d)
      && (p == t.root ==> o.x == Width(t, p) / 2.0 * d + t.hSpace * d)
  {
    var p := Get(t.nodes, x).parent.value;
    assert LinkedAt(t.nodes, t.root, t.rank, t.bound, x);
    assert LinkedAt(t.nodes, t.root, t.rank, t.bound, p);
    OffsetChild(t, ox, oy, x);
    var w, di := Width(t, p), DirIn(dir, x);
    if p == t.root {
      AcrossFromRoot(t.hSpace, t.pSpace, w, di);
    } else {
      AcrossSameSide(t.hSpace, t.pSpace, w, di);
    }
  }

  /** A root child's offsetX: half the root's width, then hSpace, on its side. */
  lemma AcrossFromRoot(hSpace: real, pSpace: real, w: real, d: int)
    requires d == 1 || d == -1
    ensures Across(hSpace, pSpace, w, 0, d, true) == w / 2.0 * d as real + hSpace * d as real
  {
  }

  /** A deeper node's offsetX, on its parent's side: the parent's width, pSpace, then hSpace. */
  lemma AcrossSameSide(hSpace: real, pSpace: real, w: real, d: int)
    requires d == 1 || d == -1
    ensures Across(hSpace, pSpace, w, d, d, false) == (w + pSpace) * d as real + hSpace * d as real
  {
  }

  // ---------------------------------------------------------------------------
  // Expansion flags (toggleNode, expandAll, collapseAll, expandToDepth).
  // ---------------------------------------------------------------------------

  /** The registry with node `k`'s expanded flag set to `b`. */
  function Flagged(nodes: Nodes, k: Id, b: bool): Nodes {
    if Live(nodes, k) then nodes[k := Some(Get(nodes, k).(expanded := b))] else nodes
  }

  /**
   * Setting a flag changes nothing but that flag: the registry keeps its
   * shape and every direction, so it stays linked and its directions flow.
   */
  lemma FlaggedKeeps(nodes: Nodes, root: Id, rank: map<Id, nat>, bound: nat, k: Id, b: bool)
    requires Linked(nodes, root, rank, bound) && DirectionsFlow(nodes, root)
    ensures var f := Flagged(nodes, k, b);
      && SameShape(nodes, f)
      && (forall x | x != k :: x in f <==> x in nodes)
      && (forall x | x in nodes && x != k :: f[x] == nodes[x])
      && (Live(nodes, k) ==> Get(f, k) == Get(nodes, k).(expanded := b))
      && Linked(f, root, rank, bound) && DirectionsFlow(f, root)
  {
    var f := Flagged(nodes, k, b);
    assert SameShape(nodes, f);
    ShapeLinked(nodes, f, root, rank, bound);
    ShapeFlows(nodes, f, root);
  }

  /** How many levels below the list `cs` a node lies: 0 for a member, one more per parent step. */
  ghost function Level(t: Scene, cs: seq<Id>, x: Id): nat
    decreases if x in t.rank then t.rank[x] else 0
  {
    if x in cs then 0
    else if Live(t.nodes, x) && Get(t.nodes, x).parent.Some? && x in t.rank
            && Get(t.nodes, x).parent.value in t.rank && t.rank[Get(t.nodes, x).parent.value] < t.rank[x]
    then 1 + Level(t, cs, Get(t.nodes, x).parent.value)
    else 0
  }

  /** The flag expandToDepth leaves at depth `d`: expanded above the target, collapsed at it, kept below. */
  function Wanted(e: bool, d: int, target: int): bool {
    if d < target then true else if d == target then false else e
  }

  /** A flag change keeps every family a family. */
  lemma FlaggedFamily(t: Scene, k: Id, b: bool, cs: seq<Id>, p: Id)
    requires Family(t, cs, p)
    ensures Family(t.(nodes := Flagged(t.nodes, k, b)), cs, p)
  {
  }

  /**
   * The entry a flag walk over the registry leaves: expandAll sets every
   * node's flag (`roots` true), collapseAll every non-root node's.
   */
  function Reflag(e: Option<Node>, b: bool, roots: bool): Option<Node> {
    if e.Some? && (roots || !e.value.isRoot) then Some(e.value.(expanded := b)) else e
  }

  /** A flag walk visits this entry and finds a flag to change (the source's `c++`). */
  predicate Changes(e: Option<Node>, b: bool, roots: bool) {
    e.Some? && (roots || !e.value.isRoot) && e.value.expanded != b
  }

  /** Some entry of the registry has a flag the walk changes. */
  ghost predicate AnyChange(nodes: Nodes, b: bool, roots: bool) {
    exists x | x in nodes :: Changes(nodes[x], b, roots)
  }

  /** The registry after a flag walk: each flag the walk reaches is `b`, nothing else moves. */
  function AllFlagged(nodes: Nodes, b: bool, roots: bool): (r: Nodes)
    ensures r.Keys == nodes.Keys
    ensures forall x | x in r :: r[x].Some? == nodes[x].Some?
    ensures forall x | x in r && r[x].Some? :: r[x].value.(expanded := nodes[x].value.expanded) == nodes[x].value
    ensures forall x | x in r && r[x].Some? ::
      r[x].value.expanded == (if roots || !nodes[x].value.isRoot then b else nodes[x].value.expanded)
  {
    map x | x in nodes :: Reflag(nodes[x], b, roots)
  }

  /** A walk that finds nothing to change leaves the registry as it was. */
  lemma AllFlaggedIdle(nodes: Nodes, b: bool, roots: bool)
    requires !AnyChange(nodes, b, roots)
    ensures AllFlagged(nodes, b, roots) == nodes
  {
    var r := AllFlagged(nodes, b, roots);
    forall x | x in nodes ensures r[x] == nodes[x] {
      assert !Changes(nodes[x], b, roots);
    }
  }

  /**
   * collapseAll's loop as written: an expanded non-root node gets
   * `expanded = true`, so no flag moves.
   */
  function CollapseFlagsAsWritten(nodes: Nodes): Nodes {
    map x | x in nodes ::
      if nodes[x].Some? && nodes[x].value.expanded && !nodes[x].value.isRoot
      then Some(nodes[x].value.(expanded := true)) else nodes[x]
  }

  /** The loop as written changes nothing, whatever the registry. */
  lemma CollapseFlagsAsWrittenIdle(nodes: Nodes)
    ensures CollapseFlagsAsWritten(nodes) == nodes
  {
    var r := CollapseFlagsAsWritten(nodes);
    forall x | x in nodes ensures r[x] == nodes[x] {
      if nodes[x].Some? && nodes[x].value.expanded && !nodes[x].value.isRoot {
        assert nodes[x].value.(expanded := true) == nodes[x].value;
      }
    }
  }

  /**
   * A root with one expanded child: the loop as written leaves the child
   * expanded, where collapsing everything but the root collapses it.
   */
  lemma CollapseFlagsAsWrittenMisses()
    ensures var nodes := map["r" := Some(Node("r", Null, "root", JObj(map[]), true, None, Center, true, ["a"])),
                             "a" := Some(Node("a", Null, "a", JObj(map[]), false, Some("r"), Right, true, []))];
      && CollapseFlagsAsWritten(nodes)["a"].value.expanded
      && !AllFlagged(nodes, false, false)["a"].value.expanded
  {
    var nodes := map["r" := Some(Node("r", Null, "root", JObj(map[]), true, None, Center, true, ["a"])),
                     "a" := Some(Node("a", Null, "a", JObj(map[]), false, Some("r"), Right, true, []))];
    CollapseFlagsAsWrittenIdle(nodes);
  }

  /** With every node expanded, setVisible(cs, true) shows everything below the list. */
  lemma {:induction false} AllShown(t: Scene, cs: seq<Id>, p: Id, x: Id)
    requires Tree(t) && Family(t, cs, p) && x in Under(t, cs, 0)
    requires forall y | Live(t.nodes, y) :: Get(t.nodes, y).expanded
    ensures Shown(t, cs, true, x)
    decreases Slack(t, p)
  {
    if x !in cs {
      var j :| 0 <= j < |cs| && Descends(t.nodes, t.rank, x, cs[j]);
      var c := cs[j];
      FamilySlack(t, cs, p, j);
      ChildrenFamily(t, c);
      assert Live(t.nodes, x);
      SubtreeSplit(t.nodes, t.root, t.rank, t.bound, c, x);
      assert x in Under(t, Get(t.nodes, c).children, 0);
      ShownShift(t, cs, p, j, true, x);
      AllShown(t, Get(t.nodes, c).children, c, x);
    }
  }

  /** Below member `cs[j]`, a node lies one level deeper under the list than under that member's children. */
  lemma {:induction false} LevelShift(t: Scene, cs: seq<Id>, p: Id, j: nat, x: Id)
    requires Tree(t) && Family(t, cs, p) && j < |cs| && x in Under(t, Get(t.nodes, cs[j]).children, 0)
    ensures Level(t, cs, x) == 1 + Level(t, Get(t.nodes, cs[j]).children, x)
    decreases if x in t.rank then t.rank[x] else 0
  {
    var c := cs[j];
    var ch := Get(t.nodes, c).children;
    UnderNotMember(t, cs, p, j, x);
    assert LinkedAt(t.nodes, t.root, t.rank, t.bound, c);
    assert LinkedAt(t.nodes, t.root, t.rank, t.bound, x);
    var q := Get(t.nodes, x).parent.value;
    if x !in ch {
      var m :| 0 <= m < |ch| && Descends(t.nodes, t.rank, x, ch[m]);
      assert q in Under(t, ch, 0);
      LevelShift(t, cs, p, j, q);
    } else {
      var m :| 0 <= m < |ch| && ch[m] == x;
    }
  }

  /** With every node but the root collapsed, setVisible(cs, true) hides everything strictly below the list. */
  lemma CollapsedHidden(t: Scene, cs: seq<Id>, p: Id, x: Id)
    requires Tree(t) && Family(t, cs, p) && x in Under(t, cs, 0) && x !in cs
    requires forall y | Live(t.nodes, y) && !Get(t.nodes, y).isRoot :: !Get(t.nodes, y).expanded
    ensures !Shown(t, cs, true, x)
  {
    var j :| 0 <= j < |cs| && Descends(t.nodes, t.rank, x, cs[j]);
    FamilySlack(t, cs, p, j);
    assert Live(t.nodes, x);
    assert LinkedAt(t.nodes, t.root, t.rank, t.bound, x);
    RootDescendsOnlyFromItself(t.nodes, t.root, t.rank, t.bound, cs[j]);
    var q := Get(t.nodes, x).parent.value;
    assert Descends(t.nodes, t.rank, q, cs[j]);
    RootDescendsOnlyFromItself(t.nodes, t.root, t.rank, t.bound, cs[j]);
    assert LinkedAt(t.nodes, t.root, t.rank, t.bound, q);
  }

  /** setVisible(cs, true) over a fully expanded tree: every node below the list ends visible. */
  lemma AllShownAfter(t: Scene, cs: seq<Id>, p: Id, vis0: map<Id, bool>)
    requires Tree(t) && Family(t, cs, p)
    requires forall y | Live(t.nodes, y) :: Get(t.nodes, y).expanded
    ensures var vis := vis0 + Veils(t, cs, true, 0);
      forall x | x in Under(t, cs, 0) :: x in vis && vis[x]
  {
    forall x | x in Under(t, cs, 0) ensures Shown(t, cs, true, x) {
      AllShown(t, cs, p, x);
    }
  }

  /**
   * setVisible(cs, true) over a tree whose nodes but the root are collapsed:
   * the members end visible and everything strictly below them hidden.
   */
  lemma CollapsedAfter(t: Scene, cs: seq<Id>, p: Id, vis0: map<Id, bool>)
    requires Tree(t) && Family(t, cs, p)
    requires forall y | Live(t.nodes, y) && !Get(t.nodes, y).isRoot :: !Get(t.nodes, y).expanded
    ensures var vis := vis0 + Veils(t, cs, true, 0);
      && (forall x | x in cs :: x in vis && vis[x])
      && (forall x | x in Under(t, cs, 0) && x !in cs :: x in vis && !vis[x])
  {
    MembersShown(t, cs, p, true);
    forall x | x in Under(t, cs, 0) && x !in cs ensures !Shown(t, cs, true, x) {
      CollapsedHidden(t, cs, p, x);
    }
  }

  /** Setting a flag to the value it has leaves the registry as it was. */
  lemma FlaggedSame(nodes: Nodes, k: Id)
    requires Live(nodes, k)
    ensures Flagged(nodes, k, Get(nodes, k).expanded) == nodes
  {
    assert Get(nodes, k).(expanded := Get(nodes, k).expanded) == Get(nodes, k);
  }

  /** Setting a live node's flag: same keys, that entry re-flagged, every other entry kept. */
  lemma FlaggedFacts(nodes: Nodes, k: Id, b: bool)
    requires Live(nodes, k)
    ensures var f := Flagged(nodes, k, b);
      && f.Keys == nodes.Keys && Live(f, k) && Get(f, k) == Get(nodes, k).(expanded := b)
      && forall x | x in nodes && x != k :: f[x] == nodes[x]
  {
  }

  /** Two registries that differ at most in expanded flags. */
  ghost predicate FlagsOnly(n1: Nodes, n2: Nodes) {
    && n1.Keys == n2.Keys
    && (forall x | x in n1 :: n1[x].Some? == n2[x].Some?)
    && (forall x | Live(n1, x) :: Get(n2, x) == Get(n1, x).(expanded := Get(n2, x).expanded))
  }

  /** Setting one flag differs from the registry in flags only, and so do two such steps. */
  lemma FlagsOnlyStep(n0: Nodes, n1: Nodes, k: Id, b: bool)
    requires FlagsOnly(n0, n1)
    ensures FlagsOnly(n0, Flagged(n1, k, b))
  {
  }

  /**
   * A registry `m` that differs from `n0` in the flags of `u` only, where a
   * node `lv[x]` levels down carries Wanted(its flag, depth + lv[x], target).
   */
  ghost predicate DoneOn(u: set<Id>, lv: map<Id, nat>, depth: int, target: int, n0: Nodes, m: Nodes) {
    && m.Keys == n0.Keys
    && (forall x | x in n0 && x !in u :: m[x] == n0[x])
    && (forall x | x in u :: DoneAt(lv, depth, target, n0, m, x))
  }

  /** Node `x`, `lv[x]` levels down, carries Wanted(its flag in `n0`, depth + lv[x], target) in `m`. */
  ghost predicate DoneAt(lv: map<Id, nat>, depth: int, target: int, n0: Nodes, m: Nodes, x: Id) {
    && x in lv && Live(n0, x) && Live(m, x)
    && Get(m, x) == Get(n0, x).(expanded := Wanted(Get(n0, x).expanded, depth + lv[x], target))
  }

  /** The levels below the list `cs` of the nodes of `s`. */
  ghost function Levels(t: Scene, cs: seq<Id>, s: set<Id>): map<Id, nat> {
    map x | x in s :: Level(t, cs, x)
  }

  /**
   * What expandToDepth(target, cs, depth) has done once it walked `cs[i..]`:
   * a node of those subtrees `l` levels below the list carries
   * Wanted(its flag, depth + l, target), and every other entry is as in `n0`.
   */
  ghost predicate DepthDone(t0: Scene, cs: seq<Id>, i: nat, depth: int, target: int, n0: Nodes, m: Nodes) {
    DoneOn(Under(t0, cs, i), Levels(t0, cs, Under(t0, cs, i)), depth, target, n0, m)
  }

  /** A walk that starts from flag changes only makes flag changes only. */
  lemma DepthFlags(t0: Scene, cs: seq<Id>, i: nat, depth: int, target: int, n0: Nodes, m: Nodes)
    requires FlagsOnly(t0.nodes, n0) && DepthDone(t0, cs, i, depth, target, n0, m)
    ensures FlagsOnly(t0.nodes, m)
  {
    DoneFlags(t0.nodes, Under(t0, cs, i), Levels(t0, cs, Under(t0, cs, i)), depth, target, n0, m);
  }

  lemma DoneFlags(n: Nodes, u: set<Id>, lv: map<Id, nat>, depth: int, target: int, n0: Nodes, m: Nodes)
    requires FlagsOnly(n, n0) && DoneOn(u, lv, depth, target, n0, m)
    ensures FlagsOnly(n, m)
  {
    forall x | x in n
      ensures n[x].Some? == m[x].Some?
    {
      if x in u {
        assert DoneAt(lv, depth, target, n0, m, x);
      }
    }
    forall x | Live(n, x)
      ensures Get(m, x) == Get(n, x).(expanded := Get(m, x).expanded)
    {
      assert Get(n0, x) == Get(n, x).(expanded := Get(n0, x).expanded);
      if x in u {
        assert DoneAt(lv, depth, target, n0, m, x);
      } else {
        assert x in n0 && m[x] == n0[x];
      }
    }
  }

  /** Nothing walked, nothing changed. */
  lemma DepthStart(t0: Scene, cs: seq<Id>, depth: int, target: int, n0: Nodes)
    ensures DepthDone(t0, cs, |cs|, depth, target, n0, n0)
  {
    WalkStart(t0, cs);
  }

  /**
   * One member `c` of the walk: its flag set for `depth` (registry `mid`),
   * then, above the target, its children walked one level deeper (`m2`).
   */
  lemma DepthStep(t0: Scene, cs: seq<Id>, p: Id, i: nat, depth: int, target: int,
                  n0: Nodes, m1: Nodes, mid: Nodes, m2: Nodes)
    requires Tree(t0) && Family(t0, cs, p) && 0 < i <= |cs| && FlagsOnly(t0.nodes, n0)
    requires DepthDone(t0, cs, i, depth, target, n0, m1)
    requires Live(m1, cs[i - 1])
    requires mid == Flagged(m1, cs[i - 1], Wanted(Get(m1, cs[i - 1]).expanded, depth, target))
    requires depth < target ==>
      DepthDone(t0, Get(t0.nodes, cs[i - 1]).children, 0, depth + 1, target, mid, m2)
    requires depth >= target ==> m2 == mid
    ensures DepthDone(t0, cs, i - 1, depth, target, n0, m2)
  {
    var c := cs[i - 1];
    var ch := Get(t0.nodes, c).children;
    var u0, u1, b := Under(t0, cs, i - 1), Under(t0, cs, i), Under(t0, ch, 0);
    var lv0, lv1, lvb := Levels(t0, cs, u0), Levels(t0, cs, u1), Levels(t0, ch, b);
    DepthRegions(t0, cs, p, i);
    assert forall x | x in b :: Live(n0, x);
    FlaggedFacts(m1, c, Wanted(Get(m1, c).expanded, depth, target));
    if depth < target {
      DoneDeep(u0, u1, b, c, lv0, lv1, lvb, depth, target, n0, m1, mid, m2);
    } else {
      DoneFlat(u0, u1, b, c, lv0, lv1, depth, target, n0, m1, mid);
    }
  }

  /**
   * The regions of one step of a walk over a family: the part walked, the
   * member, its subtree, and the member's subtree one level deeper.
   */
  lemma DepthRegions(t0: Scene, cs: seq<Id>, p: Id, i: nat)
    requires Tree(t0) && Family(t0, cs, p) && 0 < i <= |cs|
    ensures var c := cs[i - 1];
      var ch := Get(t0.nodes, c).children;
      var u0, u1, b := Under(t0, cs, i - 1), Under(t0, cs, i), Under(t0, ch, 0);
      var lv0, lv1, lvb := Levels(t0, cs, u0), Levels(t0, cs, u1), Levels(t0, ch, b);
      && u0 == u1 + {c} + b && c !in u1 && c !in b
      && (forall x | x in u1 :: x !in b && x in lv0 && x in lv1 && lv0[x] == lv1[x])
      && (forall x | x in b :: Live(t0.nodes, x) && x in lv0 && x in lvb && lv0[x] == 1 + lvb[x])
      && c in lv0 && lv0[c] == 0
  {
    var c := cs[i - 1];
    var ch := Get(t0.nodes, c).children;
    var u0, u1, b := Under(t0, cs, i - 1), Under(t0, cs, i), Under(t0, ch, 0);
    var lv0, lv1, lvb := Levels(t0, cs, u0), Levels(t0, cs, u1), Levels(t0, ch, b);
    UnderSplit(t0, cs, p, i);
    RegionsWalked(t0, cs, p, i);
    RegionsBelow(t0, cs, p, i);
    assert c in lv0 && lv0[c] == 0;
  }

  /** The part of a walk already done lies apart from the member and its subtree. */
  lemma RegionsWalked(t0: Scene, cs: seq<Id>, p: Id, i: nat)
    requires Tree(t0) && Family(t0, cs, p) && 0 < i <= |cs|
    ensures forall x | x in Under(t0, cs, i) ::
      x != cs[i - 1] && x !in Under(t0, Get(t0.nodes, cs[i - 1]).children, 0)
  {
    forall x | x in Under(t0, cs, i) ensures x != cs[i - 1] && x !in Under(t0, Get(t0.nodes, cs[i - 1]).children, 0) {
      UnderApart(t0, cs, p, i, x);
    }
  }

  /** Below member `cs[i-1]`: live nodes, not members, one level deeper under the list. */
  lemma RegionsBelow(t0: Scene, cs: seq<Id>, p: Id, i: nat)
    requires Tree(t0) && Family(t0, cs, p) && 0 < i <= |cs|
    ensures var ch := Get(t0.nodes, cs[i - 1]).children;
      forall x | x in Under(t0, ch, 0) :: Live(t0.nodes, x) && x !in cs && Level(t0, cs, x) == 1 + Level(t0, ch, x)
  {
    var ch := Get(t0.nodes, cs[i - 1]).children;
    forall x | x in Under(t0, ch, 0) ensures Live(t0.nodes, x) && x !in cs && Level(t0, cs, x) == 1 + Level(t0, ch, x) {
      UnderNotMember(t0, cs, p, i - 1, x);
      LevelShift(t0, cs, p, i - 1, x);
    }
  }

  /** One member above the target: its flag set, its subtree walked one level deeper. */
  lemma DoneDeep(u0: set<Id>, u1: set<Id>, b: set<Id>, c: Id, lv0: map<Id, nat>, lv1: map<Id, nat>, lvb: map<Id, nat>,
                 depth: int, target: int, n0: Nodes, m1: Nodes, mid: Nodes, m2: Nodes)
    requires u0 == u1 + {c} + b && c !in u1 && c !in b
    requires forall x | x in u1 :: x !in b && x in lv0 && x in lv1 && lv0[x] == lv1[x]
    requires forall x | x in b :: Live(n0, x) && x in lv0 && x in lvb && lv0[x] == 1 + lvb[x]
    requires c in lv0 && lv0[c] == 0 && Live(n0, c)
    requires DoneOn(u1, lv1, depth, target, n0, m1)
    requires mid.Keys == m1.Keys && Live(m1, c) && Live(mid, c)
    requires forall x | x in m1 && x != c :: mid[x] == m1[x]
    requires Get(mid, c) == Get(m1, c).(expanded := Wanted(Get(m1, c).expanded, depth, target))
    requires DoneOn(b, lvb, depth + 1, target, mid, m2)
    ensures DoneOn(u0, lv0, depth, target, n0, m2)
  {
    forall x | x in n0 && x !in u0 ensures m2[x] == n0[x] {
      assert m2[x] == mid[x];
    }
    forall x | x in u1
      ensures Live(n0, x) && Live(m2, x)
      ensures Get(m2, x) == Get(n0, x).(expanded := Wanted(Get(n0, x).expanded, depth + lv0[x], target))
    {
      assert m2[x] == mid[x] == m1[x];
    }
    assert m2[c] == mid[c] && m1[c] == n0[c];
    forall x | x in b
      ensures Live(n0, x) && Live(m2, x)
      ensures Get(m2, x) == Get(n0, x).(expanded := Wanted(Get(n0, x).expanded, depth + lv0[x], target))
    {
      assert mid[x] == m1[x] == n0[x];
    }
  }

  /** One member at or below the target: only its own flag moved. */
  lemma DoneFlat(u0: set<Id>, u1: set<Id>, b: set<Id>, c: Id, lv0: map<Id, nat>, lv1: map<Id, nat>,
                 depth: int, target: int, n0: Nodes, m1: Nodes, m2: Nodes)
    requires depth >= target
    requires u0 == u1 + {c} + b && c !in u1 && c !in b
    requires forall x | x in u1 :: x !in b && x in lv0 && x in lv1 && lv0[x] == lv1[x]
    requires forall x | x in b :: Live(n0, x) && x in lv0 && lv0[x] >= 1
    requires c in lv0 && lv0[c] == 0 && Live(n0, c)
    requires DoneOn(u1, lv1, depth, target, n0, m1)
    requires m2.Keys == m1.Keys && Live(m1, c) && Live(m2, c)
    requires forall x | x in m1 && x != c :: m2[x] == m1[x]
    requires Get(m2, c) == Get(m1, c).(expanded := Wanted(Get(m1, c).expanded, depth, target))
    ensures DoneOn(u0, lv0, depth, target, n0, m2)
  {
    forall x | x in u1
      ensures Live(n0, x) && Live(m2, x)
      ensures Get(m2, x) == Get(n0, x).(expanded := Wanted(Get(n0, x).expanded, depth + lv0[x], target))
    {
      assert m2[x] == m1[x];
    }
    assert m1[c] == n0[c];
    forall x | x in b
      ensures Live(n0, x) && Live(m2, x)
      ensures Get(m2, x) == Get(n0, x).(expanded := Wanted(Get(n0, x).expanded, depth + lv0[x], target))
    {
      assert m2[x] == m1[x] == n0[x];
    }
  }

  // ---------------------------------------------------------------------------
  // Partial re-layout (partLayout).
  // ---------------------------------------------------------------------------

  /** partLayout re-lays the right side for the root and for a node laid out to the right. */
  ghost predicate RedoRight(t: Scene, dir: map<Id, int>, k: Id) {
    (Live(t.nodes, k) && Get(t.nodes, k).isRoot) || DirIn(dir, k) == 1
  }

  /** partLayout re-lays the left side for the root and for a node laid out to the left. */
  ghost predicate RedoLeft(t: Scene, dir: map<Id, int>, k: Id) {
    (Live(t.nodes, k) && Get(t.nodes, k).isRoot) || DirIn(dir, k) != 1
  }

  /** The outer heights after partLayout(k), from the stored sides `s`. */
  ghost function Relaid(t: Scene, dir: map<Id, int>, s: Sides, k: Id, oh0: map<Id, real>): map<Id, real> {
    oh0 + (if RedoRight(t, dir, k) then Heights(t, Under(t, s.right, 0)) else map[])
        + (if RedoLeft(t, dir, k) then Heights(t, Under(t, s.left, 0)) else map[])
  }

  /** The offsetY values after partLayout(k), from the stored sides `s`. */
  ghost function RelaidY(t: Scene, dir: map<Id, int>, s: Sides, k: Id, oy0: map<Id, real>): map<Id, real> {
    oy0 + (if RedoRight(t, dir, k) then Settled(t, s.right, Slack(t, t.root)) else map[])
        + (if RedoLeft(t, dir, k) then Settled(t, s.left, Slack(t, t.root)) else map[])
  }

  /** The root's record after partLayout(k): the re-laid sides get their new heights. */
  ghost function RelaidSides(t: Scene, dir: map<Id, int>, s: Sides, k: Id): Sides {
    Sides(s.left, s.right,
          if RedoLeft(t, dir, k) then Span(t, s.left, Slack(t, t.root)) else s.heightLeft,
          if RedoRight(t, dir, k) then Span(t, s.right, Slack(t, t.root)) else s.heightRight)
  }

  /** Adding nothing to a map leaves it as it was. */
  lemma MergeEmpty<V>(m: map<Id, V>)
    ensures m + map[] == m
  {
  }

  /** setVisible(cs, v) gives every member of the list the flag `v`. */
  lemma MembersShown(t: Scene, cs: seq<Id>, p: Id, v: bool)
    requires Family(t, cs, p)
    ensures forall c | c in cs :: c in Veils(t, cs, v, 0) && Veils(t, cs, v, 0)[c] == v
  {
    forall c | c in cs ensures c in Under(t, cs, 0) {
      var j :| 0 <= j < |cs| && cs[j] == c;
      assert Descends(t.nodes, t.rank, c, cs[j]);
    }
  }
}
