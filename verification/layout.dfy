/**
 * The layout engine: class LayoutProvider of src/layoutProvider.ts. Each
 * node's `_data.layout` record is held as one map per field, keyed by node
 * id (direction, sideIndex, offsetX, offsetY, outerHeight, visible and the
 * two cached points); the root's record additionally holds its two side
 * lists and their heights (`rootSides`). Expansion flags live in the Mind's
 * registry and are changed there. Element sizes are written by the view
 * layer and read here.
 */
module Layout {
  import opened Wrappers
  import opened MindNodes
  import opened MindTree
  import opened Adding
  import opened Moving
  import opened MindStore
  import opened LayoutSpec

  class LayoutProvider {
    const mind: Mind
    const isSide: bool
    const hSpace: real
    const vSpace: real
    const pSpace: real
    var sizes: map<Id, Size>
    var direction: map<Id, int>
    var sideIndex: map<Id, int>
    var offsetX: map<Id, real>
    var offsetY: map<Id, real>
    var outerHeight: map<Id, real>
    var visible: map<Id, bool>
    var rootSides: Option<Sides>
    var bounds: Option<Bounds>
    var cacheValid: bool
    var offsetCache: map<Id, Point>
    var pointOutCache: map<Id, Point>

    /** A provider for `mind`: side mode exactly for the mode "side", no bounds yet, the caches invalid. */
    constructor(mind: Mind, mode: string, hSpace: real, vSpace: real, pSpace: real)
      ensures this.mind == mind && isSide == (mode == "side")
      ensures this.hSpace == hSpace && this.vSpace == vSpace && this.pSpace == pSpace
      ensures !cacheValid && bounds.None? && rootSides.None?
      ensures sizes == map[] && direction == map[] && sideIndex == map[] && visible == map[]
      ensures offsetX == map[] && offsetY == map[] && outerHeight == map[]
      ensures offsetCache == map[] && pointOutCache == map[]
    {
      this.mind := mind;
      this.isSide := mode == "side";
      this.hSpace, this.vSpace, this.pSpace := hSpace, vSpace, pSpace;
      sizes, direction, sideIndex, visible := map[], map[], map[], map[];
      offsetX, offsetY, outerHeight := map[], map[], map[];
      rootSides, bounds, cacheValid := None, None, false;
      offsetCache, pointOutCache := map[], map[];
    }

    /** The mind holds a tree. */
    ghost predicate Ready()
      reads mind
    {
      mind.Valid() && mind.root.Some?
    }

    /** What the layout phases read: the tree, the measured sizes and the spacing. */
    ghost function View(): Scene
      reads this`sizes, mind
      requires mind.root.Some?
    {
      Scene(mind.nodes, mind.root.value, mind.rank, mind.bound, sizes, hSpace, vSpace, pSpace)
    }

    /** A well-formed mind with a root is a tree the layout can walk. */
    lemma ReadyTree()
      requires Ready()
      ensures Tree(View())
    {
    }

    /** A node's measured size, 0 by 0 when the view has not measured it. */
    function SizeOf(k: Id): (r: Size)
      reads this`sizes
      ensures k in sizes ==> r == sizes[k]
    {
      if k in sizes then sizes[k] else Size(0.0, 0.0)
    }

    // -------------------------------------------------------------------------
    // Side assignment.
    // -------------------------------------------------------------------------

    /** reset: the directions assigned, the bounds all zero. */
    method Reset()
      requires Ready()
      modifies this`direction, this`sideIndex, this`bounds
      ensures direction == old(direction) + Directions(View(), isSide)
      ensures sideIndex == old(sideIndex) + Indices(mind.nodes, Subtree(mind.nodes, mind.rank, mind.root.value))
      ensures bounds == Some(Bounds(0.0, 0.0, 0.0, 0.0))
    {
      LayoutDirectionRoot();
      bounds := Some(Bounds(0.0, 0.0, 0.0, 0.0));
    }

    /**
     * layoutDirectionRoot: the root centred at sideIndex 0, then each root
     * child's subtree, from the last child, on the child's side.
     */
    method LayoutDirectionRoot()
      requires Ready()
      modifies this`direction, this`sideIndex
      ensures direction == old(direction) + Directions(View(), isSide)
      ensures sideIndex == old(sideIndex) + Indices(mind.nodes, Subtree(mind.nodes, mind.rank, mind.root.value))
    {
      ghost var t := View();
      ghost var d0, s0 := direction, sideIndex;
      var r := mind.root.value;
      SidedStart(d0, s0, t, isSide);
      direction := direction[r := 0];
      sideIndex := sideIndex[r := 0];
      var cs := mind.nodes[r].value.children;
      var i := |cs|;
      while i > 0
        invariant 0 <= i <= |cs| && cs == Get(t.nodes, t.root).children
        invariant direction == d0 + Sided(t, isSide, Flowed(t.nodes, t.rank, t.root, i))
        invariant sideIndex == s0 + Indices(t.nodes, Flowed(t.nodes, t.rank, t.root, i))
      {
        ghost var j, d1, s1 := i, direction, sideIndex;
        i := i - 1;
        var c := cs[i];
        ChildrenFamily(t, t.root);
        var d := if isSide then 1 else if mind.nodes[c].value.direction == Left then -1 else 1;
        LayoutDirectionSide(c, d, i);
        assert t.nodes == mind.nodes && t.rank == mind.rank;
        RootWalkStep(t, isSide, i, j, d, d0, d1, direction, s0, s1, sideIndex);
      }
      assert i == 0;
      SidedEnd(t, isSide);
      assert t.nodes == mind.nodes && t.rank == mind.rank && d0 == old(direction) && s0 == old(sideIndex);
    }

    /**
     * layoutDirectionSide: `k` gets direction `d` and sideIndex `idx`; its
     * subtree, from the last child, gets `d` and each node its position
     * among its parent's children.
     */
    method LayoutDirectionSide(k: Id, d: int, idx: int)
      requires Ready() && Live(mind.nodes, k)
      modifies this`direction, this`sideIndex
      decreases Slack(View(), k)
      ensures direction == old(direction) + Paint(Subtree(mind.nodes, mind.rank, k), d)
      ensures sideIndex == (old(sideIndex) + Indices(mind.nodes, Subtree(mind.nodes, mind.rank, k)))[k := idx]
    {
      ghost var t := View();
      ghost var d0, s0 := direction, sideIndex;
      PaintStart(d0, s0, t.nodes, t.rank, k, d, SideIndex(t.nodes, k) as int);
      PinStart(s0, t.nodes, t.rank, k, idx);
      direction := direction[k := d];
      sideIndex := sideIndex[k := idx];
      var cs := mind.nodes[k].value.children;
      ChildrenFamily(t, k);
      var i := |cs|;
      while i > 0
        invariant 0 <= i <= |cs| && cs == Get(t.nodes, k).children
        invariant direction == d0 + Paint(Flowed(t.nodes, t.rank, k, i), d)
        invariant sideIndex == (s0 + Indices(t.nodes, Flowed(t.nodes, t.rank, k, i)))[k := idx]
      {
        ghost var j, d1, s1 := i, direction, sideIndex;
        i := i - 1;
        FamilySlack(t, cs, k, i);
        LayoutDirectionSide(cs[i], d, i);
        assert t.nodes == mind.nodes && t.rank == mind.rank;
        SideWalkRound(t, k, i, j, d, idx, d0, d1, direction, s0, s1, sideIndex);
      }
      assert i == 0;
      ghost var f := Flowed(t.nodes, t.rank, k, 0);
      assert sideIndex == (s0 + Indices(t.nodes, f))[k := idx];
      PaintEnd(t, k, d);
      PinEnd(s0, t, k, idx);
      assert sideIndex == (s0 + Indices(t.nodes, Subtree(t.nodes, t.rank, k)))[k := idx];
      assert t.nodes == mind.nodes && t.rank == mind.rank && s0 == old(sideIndex);
    }

    // -------------------------------------------------------------------------
    // The whole layout.
    // -------------------------------------------------------------------------

    /** layout: the directions, then the offsets. */
    method Layout()
      requires Ready() && bounds.Some?
      modifies this`direction, this`sideIndex, this`offsetX, this`offsetY, this`outerHeight
      modifies this`visible, this`rootSides, this`bounds
      ensures direction == old(direction) + Directions(old(View()), isSide)
      ensures sideIndex == old(sideIndex) + Indices(mind.nodes, Subtree(mind.nodes, mind.rank, mind.root.value))
      ensures outerHeight == LaidHeights(old(View()), direction, old(outerHeight))
      ensures offsetY == LaidY(old(View()), direction, old(offsetY))
      ensures offsetX == LaidX(old(View()), direction, old(offsetX))
      ensures visible == LaidVisible(old(View()), direction, old(visible))
      ensures rootSides == Some(LaidSides(old(View()), direction)) && bounds == Some(LaidBounds(old(View()), direction))
    {
      ghost var t := View();
      LayoutDirectionRoot();
      assert View() == t;
      ReadyTree();
      LayoutOffset(t);
    }

    /**
     * layoutOffset: the root at the origin, its children split by layout
     * direction (right for 1, left otherwise), each side laid out, the
     * bounds set from the root's width and the two side heights.
     */
    method LayoutOffset(ghost t: Scene)
      requires mind.root.Some? && t == View() && Tree(t) && bounds.Some?
      modifies this`offsetX, this`offsetY, this`outerHeight, this`visible, this`rootSides, this`bounds
      ensures direction == old(direction)
      ensures outerHeight == LaidHeights(t, old(direction), old(outerHeight))
      ensures offsetY == LaidY(t, old(direction), old(offsetY))
      ensures offsetX == LaidX(t, old(direction), old(offsetX))
      ensures visible == LaidVisible(t, old(direction), old(visible))
      ensures rootSides == Some(LaidSides(t, old(direction))) && bounds == Some(LaidBounds(t, old(direction)))
    {
      var oh, oy, ox, vis, sides, box := Offsets(t, direction, outerHeight, offsetY, offsetX, visible);
      Store(oh, oy, ox, vis, sides, box);
    }

    /** Writes the computed layout into the node records and the bounds. */
    method Store(oh: map<Id, real>, oy: map<Id, real>, ox: map<Id, real>, vis: map<Id, bool>,
                 sides: Option<Sides>, box: Option<Bounds>)
      modifies this`offsetX, this`offsetY, this`outerHeight, this`visible, this`rootSides, this`bounds
      ensures outerHeight == oh && offsetY == oy && offsetX == ox && visible == vis
      ensures rootSides == sides && bounds == box
    {
      outerHeight, offsetY, offsetX, visible := oh, oy, ox, vis;
      rootSides, bounds := sides, box;
    }

    /** The values layoutOffset writes, computed from the fields before it writes them. */
    method Offsets(ghost t: Scene, ghost dir: map<Id, int>,
                   oh0: map<Id, real>, oy0: map<Id, real>, ox0: map<Id, real>, vis0: map<Id, bool>)
      returns (oh: map<Id, real>, oy: map<Id, real>, ox: map<Id, real>, vis: map<Id, bool>,
               sides: Option<Sides>, box: Option<Bounds>)
      requires mind.root.Some? && t == View() && Tree(t) && dir == direction
      ensures oh == LaidHeights(t, dir, oh0)
      ensures oy == LaidY(t, dir, oy0)
      ensures ox == LaidX(t, dir, ox0)
      ensures vis == LaidVisible(t, dir, vis0)
      ensures sides == Some(LaidSides(t, dir)) && box == Some(LaidBounds(t, dir))
    {
      var r := mind.root.value;
      oh, oy, ox, vis := oh0[r := 0.0], oy0[r := 0.0], ox0[r := 0.0], vis0;
      var ch := mind.nodes[r].value.children;
      var left, right := SplitSides(ch);
      ChildrenFamily(t, r);
      SidesFamily(t, direction, ch, r);
      var hl, hr;
      hl, oh, oy, ox, vis := LayoutOffsetSubNodes(left, t, r, oh, oy, ox, vis);
      hr, oh, oy, ox, vis := LayoutOffsetSubNodes(right, t, r, oh, oy, ox, vis);
      var e := SizeOf(r).width / 2.0;
      assert e == Width(t, r) / 2.0;
      sides, box := Some(Sides(left, right, hl, hr)), Some(Bounds(0.0, Max(hl, hr), 0.0 - e, e));
      RootSides(t, direction, left, right);
      RootBounds(t, direction, left, right, hl, hr, e);
    }

    /** The split loop of layoutOffset: from the last child, each goes to the front of its side. */
    method SplitSides(cs: seq<Id>) returns (left: seq<Id>, right: seq<Id>)
      ensures left == LeftOf(direction, cs) && right == RightOf(direction, cs)
    {
      left, right := [], [];
      var i := |cs|;
      while i > 0
        invariant 0 <= i <= |cs| && left == LeftOf(direction, cs[i..]) && right == RightOf(direction, cs[i..])
      {
        i := i - 1;
        SidesAt(direction, cs, i);
        if DirIn(direction, cs[i]) == 1 {
          right := [cs[i]] + right;
        } else {
          left := [cs[i]] + left;
        }
      }
      assert cs[0..] == cs;
    }

    // -------------------------------------------------------------------------
    // Visibility and offsets. The recursive walks below take the layout maps
    // they write as arguments and return the written maps; the public
    // operations store them back into the fields.
    // -------------------------------------------------------------------------

    /**
     * setVisible: every member of `cs` (a family of `p`) gets `v`, and its
     * children recursively get `v` when it is expanded and false otherwise;
     * the root's flag is never written.
     */
    method SetVisible(cs: seq<Id>, v: bool, ghost t: Scene, ghost p: Id, vis: map<Id, bool>) returns (r: map<Id, bool>)
      requires mind.root.Some? && t == View() && Tree(t) && Family(t, cs, p)
      decreases Slack(t, p)
      ensures r == vis + Veils(t, cs, v, 0)
    {
      VeilsStart(t, cs, v, vis);
      r := vis;
      var i := |cs|;
      while i > 0
        invariant 0 <= i <= |cs| && r == vis + Veils(t, cs, v, i)
      {
        ghost var j, r1 := i, r;
        i := i - 1;
        var c := cs[i];
        FamilySlack(t, cs, p, i);
        ChildrenFamily(t, c);
        var n := mind.nodes[c].value;
        r := SetVisible(n.children, if n.expanded then v else false, t, c, r);
        ghost var r2 := r;
        if !n.isRoot {
          r := r[c := v];
        }
        VeilsRound(t, cs, p, i, j, c, v, vis, r1, r2, r);
      }
      assert i == 0;
    }

    /**
     * layoutOffsetSubNodes: lays out the family `cs` of `p` and the subtrees
     * below it, and returns the height the family stacks to. The members are
     * stacked upwards from the last, vSpace apart, each at its outer height,
     * and the stack is then centred on the parent. `oh`, `oy`, `ox` and `vis`
     * are the outerHeight, offsetY, offsetX and visible maps before the walk.
     */
    method LayoutOffsetSubNodes(cs: seq<Id>, ghost t: Scene, ghost p: Id,
                                oh: map<Id, real>, oy: map<Id, real>, ox: map<Id, real>, vis: map<Id, bool>)
      returns (total: real, oh': map<Id, real>, oy': map<Id, real>, ox': map<Id, real>, vis': map<Id, bool>)
      requires mind.root.Some? && t == View() && Tree(t) && Family(t, cs, p)
      decreases Slack(t, p), 1
      ensures total == Span(t, cs, Slack(t, p))
      ensures oh' == oh + Heights(t, Under(t, cs, 0))
      ensures oy' == oy + Settled(t, cs, Slack(t, p))
      ensures ox' == ox + OffsetsX(t, direction, Under(t, cs, 0))
      ensures vis' == vis + Hidden(t, cs, 0)
    {
      ghost var s := Slack(t, p);
      total, oh', oy', ox', vis' := StackMembers(cs, t, p, oh, oy, ox, vis);
      total := total + StackGaps(vSpace, |cs|);
      RisingCentred(t, cs, s, oy);
      oy' := CentreStack(cs, total / 2.0, t, s, oy + Deep(t, Under(t, cs, 0)), oy');
    }

    /**
     * The first pass of layoutOffsetSubNodes: from the last member of `cs`,
     * each is laid out with its subtree and stacked upwards, vSpace apart;
     * `total` is the sum of their outer heights.
     */
    method StackMembers(cs: seq<Id>, ghost t: Scene, ghost p: Id,
                        oh: map<Id, real>, oy: map<Id, real>, ox: map<Id, real>, vis: map<Id, bool>)
      returns (total: real, oh': map<Id, real>, oy': map<Id, real>, ox': map<Id, real>, vis': map<Id, bool>)
      requires mind.root.Some? && t == View() && Tree(t) && Family(t, cs, p)
      decreases Slack(t, p), 0
      ensures total == Tail(t, cs, 0, Slack(t, p))
      ensures oh' == oh + Heights(t, Under(t, cs, 0))
      ensures oy' == oy + Rising(t, cs, 0, Slack(t, p))
      ensures ox' == ox + OffsetsX(t, direction, Under(t, cs, 0))
      ensures vis' == vis + Hidden(t, cs, 0)
    {
      ghost var s := Slack(t, p);
      OffsetStart(t, direction, cs, s, oh, oy, ox, vis);
      oh', oy', ox', vis' := oh, oy, ox, vis;
      total := 0.0;
      var baseY := 0.0;
      // parent_Data is taken from the first member visited; every member has the same parent
      var parentWidth, parentDir := 0.0, 0;
      if |cs| > 0 {
        FamilySlack(t, cs, p, |cs| - 1);
        var q := mind.nodes[cs[|cs| - 1]].value.parent.value;
        parentWidth, parentDir := SizeOf(q).width, DirIn(direction, q);
      }
      var i := |cs|;
      while i > 0
        invariant 0 <= i <= |cs| && total == Tail(t, cs, i, s)
        invariant baseY == -(Tail(t, cs, i, s) + Scale(t.vSpace, |cs| - i))
        invariant |cs| > 0 ==> parentWidth == Width(t, p) && parentDir == DirIn(direction, p)
        invariant oh' == oh + Heights(t, Under(t, cs, i))
        invariant oy' == oy + Rising(t, cs, i, s)
        invariant ox' == ox + OffsetsX(t, direction, Under(t, cs, i))
        invariant vis' == vis + Hidden(t, cs, i)
      {
        ghost var j, h1, y1, x1, v1 := i, oh', oy', ox', vis';
        i := i - 1;
        var c := cs[i];
        FamilySlack(t, cs, p, i);
        var h, y;
        h, y, oh', oy', ox', vis' := LayoutOffsetMember(c, t, p, baseY, parentWidth, parentDir, oh', oy', ox', vis');
        TailRound(t, cs, i, j, s, total, baseY, h, y);
        HeightsRound(t, cs, p, i, j, c, oh, h1, oh');
        RisingRound(t, cs, p, i, j, c, oy, y1, oy', y);
        OffsetsXRound(t, direction, cs, p, i, j, c, ox, x1, ox');
        HiddenRound(t, cs, p, i, j, c, vis, v1, vis');
        baseY := baseY - h - vSpace;
        total := total + h;
      }
      assert i == 0;
    }

    /**
     * The second pass of layoutOffsetSubNodes: each member of `cs`, from
     * the last, moves down by `middle`, half the stack's height.
     */
    method CentreStack(cs: seq<Id>, middle: real, ghost t: Scene, ghost s: nat, ghost m0: map<Id, real>, oy: map<Id, real>)
      returns (oy': map<Id, real>)
      requires Distinct(cs) && middle == Span(t, cs, s) / 2.0
      requires oy == m0 + Centred(t, cs, |cs|, s)
      ensures oy' == m0 + Centred(t, cs, 0, s)
    {
      oy' := oy;
      var i := |cs|;
      while i > 0
        invariant 0 <= i <= |cs| && oy' == m0 + Centred(t, cs, i, s)
      {
        ghost var j := i;
        i := i - 1;
        CentredStep(t, cs, i, j, s, m0, oy', middle);
        oy' := oy'[cs[i] := oy'[cs[i]] + middle];
      }
      assert i == 0;
    }

    /**
     * One member `c` of a family of `p` in layoutOffsetSubNodes' first pass:
     * its subtree laid out (and hidden when `c` is collapsed), then its outer
     * height, its offsetY half that height below `baseY`, and its offsetX
     * from the parent's width and direction.
     */
    method LayoutOffsetMember(c: Id, ghost t: Scene, ghost p: Id, baseY: real, parentWidth: real, parentDir: int,
                              oh: map<Id, real>, oy: map<Id, real>, ox: map<Id, real>, vis: map<Id, bool>)
      returns (h: real, y: real, oh': map<Id, real>, oy': map<Id, real>, ox': map<Id, real>, vis': map<Id, bool>)
      requires mind.root.Some? && t == View() && Tree(t) && Live(t.nodes, c) && c != t.root
      requires Get(t.nodes, c).parent == Some(p) && Slack(t, c) < Slack(t, p)
      requires parentWidth == Width(t, p) && parentDir == DirIn(direction, p)
      decreases Slack(t, c), 2
      ensures h == Outer(t, c) && y == baseY - h / 2.0
      ensures oh' == (oh + Heights(t, Under(t, Get(t.nodes, c).children, 0)))[c := h]
      ensures oy' == (oy + Settled(t, Get(t.nodes, c).children, Slack(t, c)))[c := y]
      ensures ox' == (ox + OffsetsX(t, direction, Under(t, Get(t.nodes, c).children, 0)))[c := OffsetX(t, direction, c)]
      ensures vis' == if Get(t.nodes, c).expanded then vis + Hidden(t, Get(t.nodes, c).children, 0)
                      else vis + Hidden(t, Get(t.nodes, c).children, 0) + Veils(t, Get(t.nodes, c).children, false, 0)
    {
      ChildrenFamily(t, c);
      var n := mind.nodes[c].value;
      var stack;
      stack, oh', oy', ox', vis' := LayoutOffsetSubNodes(n.children, t, c, oh, oy, ox, vis);
      if !n.expanded {
        stack := 0.0;
        vis' := SetVisible(n.children, false, t, c, vis');
      }
      assert SizeOf(c).height == Height(t, c);
      OuterOf(t, c, stack);
      h := Max(SizeOf(c).height, stack);
      oh' := oh'[c := h];
      y := baseY - h / 2.0;
      oy' := oy'[c := y];
      var x := OffsetXFor(c, t, p, parentWidth, parentDir);
      ox' := ox'[c := x];
    }

    /**
     * layoutOffsetSubNodesHeight: layoutOffsetSubNodes without the offsetX
     * and visibility writes, for a re-layout after an expansion flag
     * changed. It stacks and centres the family `cs` of `p` the same way.
     */
    method LayoutOffsetSubNodesHeight(cs: seq<Id>, ghost t: Scene, ghost p: Id, oh: map<Id, real>, oy: map<Id, real>)
      returns (total: real, oh': map<Id, real>, oy': map<Id, real>)
      requires mind.root.Some? && t == View() && Tree(t) && Family(t, cs, p)
      decreases Slack(t, p), 1
      ensures total == Span(t, cs, Slack(t, p))
      ensures oh' == oh + Heights(t, Under(t, cs, 0))
      ensures oy' == oy + Settled(t, cs, Slack(t, p))
    {
      ghost var s := Slack(t, p);
      OffsetStart(t, direction, cs, s, oh, oy, map[], map[]);
      oh', oy' := oh, oy;
      total := 0.0;
      var baseY := 0.0;
      var i := |cs|;
      while i > 0
        invariant 0 <= i <= |cs| && total == Tail(t, cs, i, s)
        invariant baseY == -(Tail(t, cs, i, s) + Scale(t.vSpace, |cs| - i))
        invariant oh' == oh + Heights(t, Under(t, cs, i))
        invariant oy' == oy + Rising(t, cs, i, s)
      {
        ghost var j, h1, y1 := i, oh', oy';
        i := i - 1;
        var c := cs[i];
        FamilySlack(t, cs, p, i);
        var h, y;
        h, y, oh', oy' := LayoutHeightMember(c, t, p, baseY, oh', oy');
        TailRound(t, cs, i, j, s, total, baseY, h, y);
        HeightsRound(t, cs, p, i, j, c, oh, h1, oh');
        RisingRound(t, cs, p, i, j, c, oy, y1, oy', y);
        baseY := baseY - h - vSpace;
        total := total + h;
      }
      assert i == 0;
      total := total + StackGaps(vSpace, |cs|);
      RisingCentred(t, cs, s, oy);
      oy' := CentreStack(cs, total / 2.0, t, s, oy + Deep(t, Under(t, cs, 0)), oy');
    }

    /** One member `c` of a family of `p` in layoutOffsetSubNodesHeight's first pass. */
    method LayoutHeightMember(c: Id, ghost t: Scene, ghost p: Id, baseY: real, oh: map<Id, real>, oy: map<Id, real>)
      returns (h: real, y: real, oh': map<Id, real>, oy': map<Id, real>)
      requires mind.root.Some? && t == View() && Tree(t) && Live(t.nodes, c) && c != t.root
      requires Get(t.nodes, c).parent == Some(p) && Slack(t, c) < Slack(t, p)
      decreases Slack(t, c), 2
      ensures h == Outer(t, c) && y == baseY - h / 2.0
      ensures oh' == (oh + Heights(t, Under(t, Get(t.nodes, c).children, 0)))[c := h]
      ensures oy' == (oy + Settled(t, Get(t.nodes, c).children, Slack(t, c)))[c := y]
    {
      ChildrenFamily(t, c);
      var n := mind.nodes[c].value;
      var stack;
      stack, oh', oy' := LayoutOffsetSubNodesHeight(n.children, t, c, oh, oy);
      if !n.expanded {
        stack := 0.0;
      }
      assert SizeOf(c).height == Height(t, c);
      OuterOf(t, c, stack);
      h := Max(SizeOf(c).height, stack);
      oh' := oh'[c := h];
      y := baseY - h / 2.0;
      oy' := oy'[c := y];
    }

    /**
     * A member's offsetX: hSpace outwards, plus half of its parent's width
     * weighted by the two directions, plus pSpace below a non-root parent.
     */
    method OffsetXFor(c: Id, ghost t: Scene, ghost p: Id, parentWidth: real, parentDir: int) returns (x: real)
      requires mind.root.Some? && t == View() && Tree(t) && Live(t.nodes, c) && Get(t.nodes, c).parent == Some(p)
      requires parentWidth == Width(t, p) && parentDir == DirIn(direction, p)
      ensures x == OffsetX(t, direction, c)
    {
      assert LinkedAt(t.nodes, t.root, t.rank, t.bound, c);
      ChildrenFamily(t, p);
      var q := mind.nodes[c].value.parent.value;
      var d := DirIn(direction, c);
      x := hSpace * d as real + parentWidth * (parentDir + d) as real / 2.0;
      ghost var base := x;
      if !mind.nodes[q].value.isRoot {
        x := x + pSpace * d as real;
      }
      OffsetXOf(t, direction, c, parentWidth, parentDir, d, base, x);
    }

    // -------------------------------------------------------------------------
    // Absolute offsets and connector points. Each node's record caches its
    // last offset and point-out; a cached point is reused only while
    // cacheValid holds and its coordinates are not the placeholder -1.
    // -------------------------------------------------------------------------

    /**
     * getNodeOffset: the node's own offsets, plus its parent's absolute
     * offset below the root; the point is cached in the node's record.
     */
    method GetNodeOffset(k: Id, ghost t: Scene) returns (r: Point)
      requires mind.root.Some? && t == View() && Tree(t) && Live(t.nodes, k)
      modifies this`offsetCache
      decreases if k in t.rank then t.rank[k] else 0
      ensures !cacheValid ==> r == Offset(t, offsetX, offsetY, k)
      ensures k in offsetCache && offsetCache[k] == r
    {
      var o := Point(-1.0, -1.0);
      if k in offsetCache && cacheValid {
        o := offsetCache[k];
      }
      if o.x == -1.0 || o.y == -1.0 {
        var n := mind.nodes[k].value;
        var x, y := RealIn(offsetX, k), RealIn(offsetY, k);
        assert LinkedAt(t.nodes, t.root, t.rank, t.bound, k);
        if !n.isRoot {
          var q := GetNodeOffset(n.parent.value, t);
          x, y := x + q.x, y + q.y;
          OffsetChild(t, offsetX, offsetY, k);
        }
        o := Point(x, y);
      }
      offsetCache := offsetCache[k := o];
      r := o;
    }

    /** getNodePointIn: where the connector from the parent ends, the node's absolute offset. */
    method GetNodePointIn(k: Id, ghost t: Scene) returns (r: Point)
      requires mind.root.Some? && t == View() && Tree(t) && Live(t.nodes, k)
      modifies this`offsetCache
      ensures !cacheValid ==> r == Offset(t, offsetX, offsetY, k)
    {
      r := GetNodeOffset(k, t);
    }

    /**
     * getNodePointOut: the root's centre for the root, otherwise the offset
     * moved out by the node's width and pSpace on its side; cached in the
     * node's record. The cached point is recomputed when its x is -1 or its
     * y is 1 (not -1).
     */
    method GetNodePointOut(k: Id, ghost t: Scene) returns (r: Point)
      requires mind.root.Some? && t == View() && Tree(t) && Live(t.nodes, k)
      modifies this`offsetCache, this`pointOutCache
      ensures !cacheValid ==> r == PointOut(t, offsetX, offsetY, direction, k)
      ensures k in pointOutCache && pointOutCache[k] == r
    {
      var o := Point(-1.0, -1.0);
      if k in pointOutCache && cacheValid {
        o := pointOutCache[k];
      }
      if o.x == -1.0 || o.y == 1.0 {
        if mind.nodes[k].value.isRoot {
          o := Point(0.0, 0.0);
        } else {
          var q := GetNodeOffset(k, t);
          o := Point(q.x + (SizeOf(k).width + pSpace) * DirIn(direction, k) as real, q.y);
        }
      }
      pointOutCache := pointOutCache[k := o];
      r := o;
    }

    /** getNodePoint as written: it computes the offset, then writes into a null point and throws. */
    method GetNodePointAsWritten(k: Id, ghost t: Scene) returns (r: PointResult)
      requires mind.root.Some? && t == View() && Tree(t) && Live(t.nodes, k)
      modifies this`offsetCache
      ensures r == TypeError
    {
      var o := GetNodeOffset(k, t);
      r := TypeError;
    }

    /** getNodePoint with a fresh result object: the top-left corner of the node's element. */
    method GetNodePoint(k: Id, ghost t: Scene) returns (r: Point)
      requires mind.root.Some? && t == View() && Tree(t) && Live(t.nodes, k)
      modifies this`offsetCache
      ensures !cacheValid ==> r == NodePoint(t, offsetX, offsetY, direction, k)
    {
      var o := GetNodeOffset(k, t);
      var size := SizeOf(k);
      r := Point(o.x + size.width * (DirIn(direction, k) - 1) as real / 2.0, o.y - size.height / 2.0);
    }

    /** getExpanderPoint as written: it computes the point-out, then writes into a null point and throws. */
    method GetExpanderPointAsWritten(k: Id, ghost t: Scene) returns (r: PointResult)
      requires mind.root.Some? && t == View() && Tree(t) && Live(t.nodes, k)
      modifies this`offsetCache, this`pointOutCache
      ensures r == TypeError
    {
      var po := GetNodePointOut(k, t);
      r := TypeError;
    }

    /**
     * getExpanderPoint with a fresh result object: pSpace back from the
     * point-out on the right side, at it on the left, ceil(pSpace / 2) up.
     */
    method GetExpanderPoint(k: Id, ghost t: Scene) returns (r: Point)
      requires mind.root.Some? && t == View() && Tree(t) && Live(t.nodes, k)
      modifies this`offsetCache, this`pointOutCache
      ensures !cacheValid ==> r == ExpanderPoint(t, offsetX, offsetY, direction, k)
    {
      var po := GetNodePointOut(k, t);
      var x := if DirIn(direction, k) == 1 then po.x - pSpace else po.x;
      r := Point(x, po.y - Ceil(pSpace / 2.0) as real);
    }

    /**
     * getMinSize: east and west widened to every node's point-out, then the
     * width east - west and the height south - north. Every registry entry
     * is read as a node.
     */
    method GetMinSize(ghost t: Scene) returns (r: Size)
      requires mind.root.Some? && t == View() && Tree(t) && bounds.Some?
      requires forall k | k in mind.nodes :: mind.nodes[k].Some?
      modifies this`bounds, this`offsetCache, this`pointOutCache
      ensures bounds.Some? && bounds.value.n == old(bounds.value.n) && bounds.value.s == old(bounds.value.s)
      ensures old(bounds.value.e) <= bounds.value.e && bounds.value.w <= old(bounds.value.w)
      ensures !cacheValid ==> forall k | k in mind.nodes ::
        bounds.value.w <= PointOut(t, offsetX, offsetY, direction, k).x <= bounds.value.e
      ensures !cacheValid ==> (bounds.value.e == old(bounds.value.e) ||
        exists k | k in mind.nodes :: bounds.value.e == PointOut(t, offsetX, offsetY, direction, k).x)
      ensures !cacheValid ==> (bounds.value.w == old(bounds.value.w) ||
        exists k | k in mind.nodes :: bounds.value.w == PointOut(t, offsetX, offsetY, direction, k).x)
      ensures r == Size(bounds.value.e - bounds.value.w, bounds.value.s - bounds.value.n)
    {
      var b := bounds.value;
      var e, w := b.e, b.w;
      var todo := mind.nodes.Keys;
      ghost var done: set<Id> := {};
      while todo != {}
        invariant todo + done == mind.nodes.Keys && todo !! done
        invariant b.e <= e && w <= b.w
        invariant !cacheValid ==> forall k | k in done :: w <= PointOut(t, offsetX, offsetY, direction, k).x <= e
        invariant !cacheValid ==> e == b.e || exists k | k in done :: e == PointOut(t, offsetX, offsetY, direction, k).x
        invariant !cacheValid ==> w == b.w || exists k | k in done :: w == PointOut(t, offsetX, offsetY, direction, k).x
        decreases todo
      {
        var k :| k in todo;
        var po := GetNodePointOut(k, t);
        if po.x > e {
          e := po.x;
        }
        if po.x < w {
          w := po.x;
        }
        todo, done := todo - {k}, done + {k};
      }
      bounds := Some(b.(e := e, w := w));
      r := Size(e - w, b.s - b.n);
    }

    // -------------------------------------------------------------------------
    // Partial re-layout, expanding and collapsing.
    // -------------------------------------------------------------------------

    /**
     * The root's record holds the two side lists of the last layoutOffset,
     * still families of the root, and the bounds are set.
     */
    ghost predicate Placed()
      reads this, mind
    {
      && mind.root.Some? && rootSides.Some? && bounds.Some?
      && Family(View(), rootSides.value.left, mind.root.value)
      && Family(View(), rootSides.value.right, mind.root.value)
    }

    /**
     * partLayout: without a root nothing happens; for the root both sides
     * are re-stacked, right first, for another node only its own side. The
     * south bound becomes the taller side and the caches are invalidated.
     */
    method PartLayout(k: Id)
      requires mind.Valid()
      requires mind.root.Some? ==> Live(mind.nodes, k) && Placed()
      modifies this`outerHeight, this`offsetY, this`rootSides, this`bounds, this`cacheValid
      ensures mind.root.None? ==> unchanged(this)
      ensures mind.root.Some? ==> outerHeight == Relaid(View(), direction, old(rootSides.value), k, old(outerHeight))
      ensures mind.root.Some? ==> offsetY == RelaidY(View(), direction, old(rootSides.value), k, old(offsetY))
      ensures mind.root.Some? ==> rootSides == Some(RelaidSides(View(), direction, old(rootSides.value), k))
      ensures mind.root.Some? ==>
        bounds == Some(old(bounds.value).(s := Max(rootSides.value.heightLeft, rootSides.value.heightRight)))
      ensures mind.root.Some? ==> !cacheValid
    {
      if mind.root.None? {
        return;
      }
      ghost var t := View();
      ReadyTree();
      var oh, oy, sides := PartHeights(k, t);
      var box := bounds.value.(s := Max(sides.heightLeft, sides.heightRight));
      StoreHeights(oh, oy, sides, box);
    }

    /** The values partLayout writes, computed from the fields before it writes them. */
    method PartHeights(k: Id, ghost t: Scene) returns (oh: map<Id, real>, oy: map<Id, real>, sides: Sides)
      requires mind.root.Some? && t == View() && Tree(t) && Live(t.nodes, k) && Placed()
      ensures oh == Relaid(t, direction, rootSides.value, k, outerHeight)
      ensures oy == RelaidY(t, direction, rootSides.value, k, offsetY)
      ensures sides == RelaidSides(t, direction, rootSides.value, k)
    {
      var s := rootSides.value;
      var r := mind.root.value;
      oh, oy := outerHeight, offsetY;
      if mind.nodes[k].value.isRoot {
        var hr, hl;
        hr, oh, oy := LayoutOffsetSubNodesHeight(s.right, t, r, oh, oy);
        hl, oh, oy := LayoutOffsetSubNodesHeight(s.left, t, r, oh, oy);
        sides := Sides(s.left, s.right, hl, hr);
        assert RedoRight(t, direction, k) && RedoLeft(t, direction, k);
      } else if DirIn(direction, k) == 1 {
        var hr;
        hr, oh, oy := LayoutOffsetSubNodesHeight(s.right, t, r, oh, oy);
        sides := Sides(s.left, s.right, s.heightLeft, hr);
        assert RedoRight(t, direction, k) && !RedoLeft(t, direction, k);
        MergeEmpty(oh);
        MergeEmpty(oy);
      } else {
        var hl;
        ghost var oh0, oy0 := oh, oy;
        hl, oh, oy := LayoutOffsetSubNodesHeight(s.left, t, r, oh, oy);
        sides := Sides(s.left, s.right, hl, s.heightRight);
        assert !RedoRight(t, direction, k) && RedoLeft(t, direction, k);
        MergeEmpty(oh0);
        MergeEmpty(oy0);
      }
    }

    /** Writes partLayout's results into the node records, the root's record and the bounds. */
    method StoreHeights(oh: map<Id, real>, oy: map<Id, real>, sides: Sides, box: Bounds)
      modifies this`outerHeight, this`offsetY, this`rootSides, this`bounds, this`cacheValid
      ensures outerHeight == oh && offsetY == oy && rootSides == Some(sides) && bounds == Some(box) && !cacheValid
    {
      outerHeight, offsetY := oh, oy;
      rootSides, bounds, cacheValid := Some(sides), Some(box), false;
    }

    /** `node.expanded = b` on a node of the mind: the registry changes in that flag only. */
    method Flag(k: Id, b: bool)
      requires Ready() && Live(mind.nodes, k) && Placed()
      modifies mind`nodes
      ensures mind.nodes == Flagged(old(mind.nodes), k, b)
      ensures Ready() && Placed() && Live(mind.nodes, k)
    {
      ghost var t := View();
      FlaggedKeeps(mind.nodes, mind.root.value, mind.rank, mind.bound, k, b);
      FlaggedFamily(t, k, b, rootSides.value.left, mind.root.value);
      FlaggedFamily(t, k, b, rootSides.value.right, mind.root.value);
      mind.nodes := Flagged(mind.nodes, k, b);
      assert View() == t.(nodes := mind.nodes);
    }

    /**
     * collapseNode: the node's flag set to false, its side re-stacked, and its
     * children's visibility set to false with setVisible.
     */
    method CollapseNode(k: Id)
      requires Ready() && Live(mind.nodes, k) && Placed()
      modifies mind`nodes, this`outerHeight, this`offsetY, this`rootSides, this`bounds, this`cacheValid, this`visible
      ensures mind.nodes == Flagged(old(mind.nodes), k, false)
      ensures Ready() && Placed() && Live(mind.nodes, k)
      ensures outerHeight == Relaid(View(), direction, old(rootSides.value), k, old(outerHeight))
      ensures offsetY == RelaidY(View(), direction, old(rootSides.value), k, old(offsetY))
      ensures rootSides == Some(RelaidSides(View(), direction, old(rootSides.value), k))
      ensures bounds == Some(old(bounds.value).(s := Max(rootSides.value.heightLeft, rootSides.value.heightRight)))
      ensures !cacheValid
      ensures visible == old(visible) + Veils(View(), Get(mind.nodes, k).children, false, 0)
      ensures forall c | c in Get(mind.nodes, k).children :: IsVisible(c) == false
    {
      Flag(k, false);
      PartLayout(k);
      ghost var t := View();
      ReadyTree();
      ChildrenFamily(t, k);
      var cs := mind.nodes[k].value.children;
      var vis := visible;
      vis := SetVisible(cs, false, t, k, vis);
      visible := vis;
      MembersShown(t, cs, k, false);
    }

    /**
     * expandNode: the node's flag set to true, its side re-stacked, and its
     * children's visibility set to true with setVisible.
     */
    method ExpandNode(k: Id)
      requires Ready() && Live(mind.nodes, k) && Placed()
      modifies mind`nodes, this`outerHeight, this`offsetY, this`rootSides, this`bounds, this`cacheValid, this`visible
      ensures mind.nodes == Flagged(old(mind.nodes), k, true)
      ensures Ready() && Placed() && Live(mind.nodes, k)
      ensures outerHeight == Relaid(View(), direction, old(rootSides.value), k, old(outerHeight))
      ensures offsetY == RelaidY(View(), direction, old(rootSides.value), k, old(offsetY))
      ensures rootSides == Some(RelaidSides(View(), direction, old(rootSides.value), k))
      ensures bounds == Some(old(bounds.value).(s := Max(rootSides.value.heightLeft, rootSides.value.heightRight)))
      ensures !cacheValid
      ensures visible == old(visible) + Veils(View(), Get(mind.nodes, k).children, true, 0)
      ensures forall c | c in Get(mind.nodes, k).children :: IsVisible(c) == true
    {
      Flag(k, true);
      PartLayout(k);
      ghost var t := View();
      ReadyTree();
      ChildrenFamily(t, k);
      var cs := mind.nodes[k].value.children;
      var vis := visible;
      vis := SetVisible(cs, true, t, k, vis);
      visible := vis;
      MembersShown(t, cs, k, true);
    }

    /**
     * toggleNode: nothing for the root; otherwise collapse an expanded node
     * and expand a collapsed one, with the re-stacking and visibility that
     * collapseNode and expandNode leave.
     */
    method ToggleNode(k: Id)
      requires Ready() && Live(mind.nodes, k) && Placed()
      modifies mind`nodes, this`outerHeight, this`offsetY, this`rootSides, this`bounds, this`cacheValid, this`visible
      ensures old(Get(mind.nodes, k)).isRoot ==> unchanged(this) && unchanged(mind)
      ensures !old(Get(mind.nodes, k)).isRoot ==>
        mind.nodes == Flagged(old(mind.nodes), k, !old(Get(mind.nodes, k)).expanded)
      ensures Ready() && Placed()
      ensures !old(Get(mind.nodes, k)).isRoot ==>
        && outerHeight == Relaid(View(), direction, old(rootSides.value), k, old(outerHeight))
        && offsetY == RelaidY(View(), direction, old(rootSides.value), k, old(offsetY))
        && rootSides == Some(RelaidSides(View(), direction, old(rootSides.value), k))
        && bounds == Some(old(bounds.value).(s := Max(rootSides.value.heightLeft, rootSides.value.heightRight)))
        && !cacheValid
        && visible == old(visible) + Veils(View(), Get(mind.nodes, k).children, !old(Get(mind.nodes, k)).expanded, 0)
    {
      var n := mind.nodes[k].value;
      if n.isRoot {
        return;
      }
      if n.expanded {
        CollapseNode(k);
      } else {
        ExpandNode(k);
      }
    }

    /**
     * The registry walk of expandAll (`b` true, every node) and of collapseAll
     * (`b` false, the root skipped): each flag the walk reaches becomes `b`,
     * and `c` counts the flags it changed.
     */
    method FlagAll(b: bool, roots: bool) returns (c: nat)
      requires Ready() && Placed()
      requires forall x | x in mind.nodes :: mind.nodes[x].Some?
      modifies mind`nodes
      ensures mind.nodes == AllFlagged(old(mind.nodes), b, roots)
      ensures Ready() && Placed()
      ensures c > 0 <==> AnyChange(old(mind.nodes), b, roots)
    {
      ghost var n0 := mind.nodes;
      var todo := mind.nodes.Keys;
      c := 0;
      while todo != {}
        invariant todo <= n0.Keys
        invariant Ready() && Placed()
        invariant mind.nodes.Keys == n0.Keys
        invariant forall x | x in n0 :: mind.nodes[x] == if x in todo then n0[x] else Reflag(n0[x], b, roots)
        invariant c > 0 <==> exists x | x in n0 && x !in todo :: Changes(n0[x], b, roots)
        decreases todo
      {
        var x :| x in todo;
        var n := mind.nodes[x].value;
        if (roots || !n.isRoot) && n.expanded != b {
          Flag(x, b);
          c := c + 1;
        }
        todo := todo - {x};
      }
      assert mind.nodes == AllFlagged(n0, b, roots);
    }

    /** The tail of expandAll and collapseAll: partLayout(root), then setVisible(root.children, true). */
    method RelayRoot()
      requires Ready() && Placed()
      modifies this`outerHeight, this`offsetY, this`rootSides, this`bounds, this`cacheValid, this`visible
      ensures Ready() && Placed()
      ensures outerHeight == Relaid(View(), direction, old(rootSides.value), mind.root.value, old(outerHeight))
      ensures offsetY == RelaidY(View(), direction, old(rootSides.value), mind.root.value, old(offsetY))
      ensures rootSides == Some(RelaidSides(View(), direction, old(rootSides.value), mind.root.value))
      ensures !cacheValid
      ensures visible == old(visible) + Veils(View(), Get(mind.nodes, mind.root.value).children, true, 0)
    {
      var r := mind.root.value;
      PartLayout(r);
      ghost var t := View();
      ReadyTree();
      ChildrenFamily(t, r);
      var cs := mind.nodes[r].value.children;
      var vis := visible;
      vis := SetVisible(cs, true, t, r, vis);
      visible := vis;
    }

    /**
     * expandAll: every node expanded; when some flag changed, both sides are
     * re-stacked and the root's children shown, so every node below the root
     * is visible.
     */
    method ExpandAll()
      requires Ready() && Placed()
      requires forall x | x in mind.nodes :: mind.nodes[x].Some?
      modifies mind`nodes, this`outerHeight, this`offsetY, this`rootSides, this`bounds, this`cacheValid, this`visible
      ensures mind.nodes == AllFlagged(old(mind.nodes), true, true)
      ensures Ready() && Placed()
      ensures !AnyChange(old(mind.nodes), true, true) ==> unchanged(this) && mind.nodes == old(mind.nodes)
      ensures AnyChange(old(mind.nodes), true, true) ==>
        && outerHeight == Relaid(View(), direction, old(rootSides.value), mind.root.value, old(outerHeight))
        && offsetY == RelaidY(View(), direction, old(rootSides.value), mind.root.value, old(offsetY))
        && rootSides == Some(RelaidSides(View(), direction, old(rootSides.value), mind.root.value))
        && !cacheValid
        && visible == old(visible) + Veils(View(), Get(mind.nodes, mind.root.value).children, true, 0)
        && forall x | x in Under(View(), Get(mind.nodes, mind.root.value).children, 0) :: IsVisible(x)
    {
      ghost var n0 := mind.nodes;
      var c := FlagAll(true, true);
      if c == 0 {
        AllFlaggedIdle(n0, true, true);
        return;
      }
      RelayRoot();
      ghost var t := View();
      ReadyTree();
      var cs := Get(mind.nodes, mind.root.value).children;
      ChildrenFamily(t, t.root);
      AllShownAfter(t, cs, t.root, old(visible));
    }

    /**
     * collapseAll, as intended: every node but the root collapsed; when some
     * flag changed, both sides are re-stacked and the root's children shown,
     * which hides everything deeper.
     */
    method CollapseAll()
      requires Ready() && Placed()
      requires forall x | x in mind.nodes :: mind.nodes[x].Some?
      modifies mind`nodes, this`outerHeight, this`offsetY, this`rootSides, this`bounds, this`cacheValid, this`visible
      ensures mind.nodes == AllFlagged(old(mind.nodes), false, false)
      ensures Ready() && Placed()
      ensures !AnyChange(old(mind.nodes), false, false) ==> unchanged(this) && mind.nodes == old(mind.nodes)
      ensures AnyChange(old(mind.nodes), false, false) ==>
        && outerHeight == Relaid(View(), direction, old(rootSides.value), mind.root.value, old(outerHeight))
        && offsetY == RelaidY(View(), direction, old(rootSides.value), mind.root.value, old(offsetY))
        && rootSides == Some(RelaidSides(View(), direction, old(rootSides.value), mind.root.value))
        && !cacheValid
        && visible == old(visible) + Veils(View(), Get(mind.nodes, mind.root.value).children, true, 0)
        && (forall x | x in Get(mind.nodes, mind.root.value).children :: IsVisible(x))
        && forall x | x in Under(View(), Get(mind.nodes, mind.root.value).children, 0)
                      && x !in Get(mind.nodes, mind.root.value).children :: !IsVisible(x)
    {
      ghost var n0 := mind.nodes;
      var c := FlagAll(false, false);
      if c == 0 {
        AllFlaggedIdle(n0, false, false);
        return;
      }
      RelayRoot();
      ghost var t := View();
      ReadyTree();
      var cs := Get(mind.nodes, mind.root.value).children;
      ChildrenFamily(t, t.root);
      CollapsedAfter(t, cs, t.root, old(visible));
    }

    /**
     * collapseAll as the source has it: the loop assigns `expanded = true` to
     * every expanded node but the root, so no flag moves; when it met such a
     * node, both sides are still re-stacked and the root's children shown,
     * which shows every node reached through expanded parents.
     */
    method CollapseAllAsWritten()
      requires Ready() && Placed()
      requires forall x | x in mind.nodes :: mind.nodes[x].Some?
      modifies mind`nodes, this`outerHeight, this`offsetY, this`rootSides, this`bounds, this`cacheValid, this`visible
      ensures mind.nodes == old(mind.nodes)
      ensures Ready() && Placed()
      ensures !AnyChange(old(mind.nodes), false, false) ==> unchanged(this)
      ensures AnyChange(old(mind.nodes), false, false) ==>
        && outerHeight == Relaid(View(), direction, old(rootSides.value), mind.root.value, old(outerHeight))
        && offsetY == RelaidY(View(), direction, old(rootSides.value), mind.root.value, old(offsetY))
        && rootSides == Some(RelaidSides(View(), direction, old(rootSides.value), mind.root.value))
        && !cacheValid
        && visible == old(visible) + Veils(View(), Get(mind.nodes, mind.root.value).children, true, 0)
    {
      ghost var n0 := mind.nodes;
      var todo := mind.nodes.Keys;
      var c := 0;
      while todo != {}
        invariant todo <= n0.Keys && mind.nodes == n0
        invariant c > 0 <==> exists x | x in n0 && x !in todo :: Changes(n0[x], false, false)
        modifies mind`nodes
        decreases todo
      {
        var x :| x in todo;
        var nodes := mind.nodes;
        var n := nodes[x].value;
        if n.expanded && !n.isRoot {
          var e := Some(n.(expanded := true));
          assert e == nodes[x];
          mind.nodes := nodes[x := e];
          assert mind.nodes == n0;
          c := c + 1;
        }
        todo := todo - {x};
      }
      if c > 0 {
        RelayRoot();
      }
    }

    /**
     * expandToDepth(target): nothing below 1; otherwise the walk from the
     * root's children at depth 1 (DepthDone says what it leaves on each node).
     */
    method ExpandToDepth(target: int)
      requires Ready() && Placed()
      modifies mind`nodes, this`outerHeight, this`offsetY, this`rootSides, this`bounds, this`cacheValid, this`visible
      ensures Ready() && Placed()
      ensures target < 1 ==> unchanged(this) && mind.nodes == old(mind.nodes)
      ensures target >= 1 ==>
        DepthDone(old(View()), Get(old(mind.nodes), mind.root.value).children, 0, 1, target, old(mind.nodes), mind.nodes)
    {
      if target < 1 {
        return;
      }
      ghost var t0 := View();
      ReadyTree();
      var r := mind.root.value;
      ChildrenFamily(t0, r);
      ExpandToDepthAt(target, mind.nodes[r].value.children, 1, t0, r);
    }

    /**
     * expandToDepth(target, cs, depth): from the last member of `cs` to the
     * first, a member above the target is expanded and its children walked
     * one level deeper; a member at the target is collapsed.
     */
    method ExpandToDepthAt(target: int, cs: seq<Id>, depth: int, ghost t0: Scene, ghost p: Id)
      requires Ready() && Placed() && Tree(t0) && Family(t0, cs, p)
      requires FlagsOnly(t0.nodes, mind.nodes)
      modifies mind`nodes, this`outerHeight, this`offsetY, this`rootSides, this`bounds, this`cacheValid, this`visible
      decreases Slack(t0, p), 1
      ensures Ready() && Placed()
      ensures DepthDone(t0, cs, 0, depth, target, old(mind.nodes), mind.nodes)
    {
      ghost var n0 := mind.nodes;
      DepthStart(t0, cs, depth, target, n0);
      var i := |cs|;
      ghost var u := Under(t0, cs, i);
      ghost var lv := Levels(t0, cs, u);
      while i > 0
        invariant 0 <= i <= |cs|
        invariant Ready() && Placed()
        invariant u == Under(t0, cs, i) && lv == Levels(t0, cs, u)
        invariant DoneOn(u, lv, depth, target, n0, mind.nodes)
      {
        i := i - 1;
        u, lv := DepthIter(target, cs, depth, t0, p, i, n0, u, lv);
      }
      assert i == 0;
    }

    /** One turn of expandToDepth's loop: member `cs[i]` and its subtree. */
    method DepthIter(target: int, cs: seq<Id>, depth: int, ghost t0: Scene, ghost p: Id, i: nat, ghost n0: Nodes,
                     ghost u0: set<Id>, ghost lv0: map<Id, nat>)
      returns (ghost u: set<Id>, ghost lv: map<Id, nat>)
      requires Ready() && Placed() && Tree(t0) && Family(t0, cs, p) && i < |cs|
      requires FlagsOnly(t0.nodes, n0)
      requires u0 == Under(t0, cs, i + 1) && lv0 == Levels(t0, cs, u0)
      requires DoneOn(u0, lv0, depth, target, n0, mind.nodes)
      modifies mind`nodes, this`outerHeight, this`offsetY, this`rootSides, this`bounds, this`cacheValid, this`visible
      decreases Slack(t0, p), 0
      ensures Ready() && Placed()
      ensures u == Under(t0, cs, i) && lv == Levels(t0, cs, u)
      ensures DoneOn(u, lv, depth, target, n0, mind.nodes)
    {
      ghost var m1 := mind.nodes;
      assert DepthDone(t0, cs, i + 1, depth, target, n0, m1);
      DepthFlags(t0, cs, i + 1, depth, target, n0, m1);
      FamilySlack(t0, cs, p, i);
      ghost var mid := DepthMember(target, cs[i], depth, t0);
      DepthStep(t0, cs, p, i + 1, depth, target, n0, m1, mid, mind.nodes);
      u := Under(t0, cs, i);
      lv := Levels(t0, cs, u);
    }

    /**
     * One member `c` of expandToDepth's walk: its flag made Wanted for
     * `depth` (registry `mid`), then, above the target, its children walked.
     */
    method DepthMember(target: int, c: Id, depth: int, ghost t0: Scene) returns (ghost mid: Nodes)
      requires Ready() && Placed() && Tree(t0) && Live(t0.nodes, c)
      requires FlagsOnly(t0.nodes, mind.nodes)
      modifies mind`nodes, this`outerHeight, this`offsetY, this`rootSides, this`bounds, this`cacheValid, this`visible
      decreases Slack(t0, c), 2
      ensures Ready() && Placed()
      ensures mid == Flagged(old(mind.nodes), c, Wanted(Get(old(mind.nodes), c).expanded, depth, target))
      ensures depth < target ==> DepthDone(t0, Get(t0.nodes, c).children, 0, depth + 1, target, mid, mind.nodes)
      ensures depth >= target ==> mind.nodes == mid
    {
      ghost var m1 := mind.nodes;
      ChildrenFamily(t0, c);
      var n := mind.nodes[c].value;
      var b := Wanted(n.expanded, depth, target);
      if b != n.expanded {
        SetFlag(c, b);
      } else {
        FlaggedSame(m1, c);
      }
      FlagsOnlyStep(t0.nodes, m1, c, b);
      mid := mind.nodes;
      if depth < target {
        ExpandToDepthAt(target, n.children, depth + 1, t0, c);
      }
    }

    /** expandNode (b true) or collapseNode (b false), seen from the flags only. */
    method SetFlag(k: Id, b: bool)
      requires Ready() && Live(mind.nodes, k) && Placed()
      modifies mind`nodes, this`outerHeight, this`offsetY, this`rootSides, this`bounds, this`cacheValid, this`visible
      ensures mind.nodes == Flagged(old(mind.nodes), k, b)
      ensures Ready() && Placed() && mind.root == old(mind.root)
    {
      if b {
        ExpandNode(k);
      } else {
        CollapseNode(k);
      }
    }

    /** isExpand: the node's expanded flag. */
    function IsExpand(k: Id): (r: bool)
      reads mind
      requires Live(mind.nodes, k)
      ensures r == Get(mind.nodes, k).expanded
    {
      mind.nodes[k].value.expanded
    }

    /** isVisible: false unless the node's record holds a true visible field. */
    function IsVisible(k: Id): (r: bool)
      reads this`visible
      ensures r <==> k in visible && visible[k]
    {
      k in visible && visible[k]
    }
  }
}
