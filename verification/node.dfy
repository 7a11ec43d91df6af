/**
 * The node record of the mind map (MindNode) and its sibling comparator
 * (MindNode.compare).
 */
module MindNodes {
  import opened Wrappers

  /** Node ids are strings. */
  type Id = string

  /** JsMind.direction: left -1, center 0, right 1. */
  datatype Direction = Left | Center | Right {
    /** The number the source stores and multiplies with. */
    function Sign(): int {
      match this
      case Left => -1
      case Center => 0
      case Right => 1
    }
  }

  /**
   * A node's sibling-order index: a number, or null (the API's addNode and both
   * parsers pass null).
   */
  datatype Index = Null | Num(r: real) {
    /** The number the comparator sees: null acts as 0 in `>=`, `- ` and `== -1`. */
    function Numeric(): real {
      if Null? then 0.0 else r
    }

    /** `index - d`, as JavaScript evaluates it: null is read as 0. */
    function Minus(d: real): (j: Index)
      ensures j.Num? && j.Numeric() == Numeric() - d
    {
      Num(Numeric() - d)
    }
  }

  /** The JSON-like values held by records and node payloads. */
  datatype Value =
    | JNull
    | JBool(b: bool)
    | JNum(n: real)
    | JStr(s: string)
    | JArr(items: seq<Value>)
    | JObj(fields: map<string, Value>)

  /** The keys of a payload that `for (key in data)` visits: those of an object. */
  function OwnKeys(v: Value): (m: map<string, Value>)
    ensures v.JObj? ==> m == v.fields
    ensures !v.JObj? ==> m == map[]
  {
    if v.JObj? then v.fields else map[]
  }

  /**
   * A node of the registry. `parent` and `children` hold ids; the root's
   * `direction`, which the source leaves undefined, is Center here and is
   * never read. An undefined `expanded` reads as false.
   */
  datatype Node = Node(
    id: Id,
    index: Index,
    topic: string,
    data: Value,
    isRoot: bool,
    parent: Option<Id>,
    direction: Direction,
    expanded: bool,
    children: seq<Id>)

  /** `new MindNode(...)`: no children yet; an undefined payload becomes `{}`. */
  function NewNode(id: Id, index: Index, topic: string, data: Option<Value>, isRoot: bool,
                   parent: Option<Id>, direction: Direction, expanded: bool): (n: Node)
    ensures n.children == []
    ensures n.id == id && n.index == index && n.topic == topic && n.isRoot == isRoot
    ensures n.parent == parent && n.direction == direction && n.expanded == expanded
    ensures n.data == (if data.Some? then data.value else JObj(map[]))
  {
    Node(id, index, topic, if data.Some? then data.value else JObj(map[]),
         isRoot, parent, direction, expanded, [])
  }

  /**
   * MindNode.compare on two indices: the difference when both are >= 0,
   * -1 ("last") after everything else, and 0 in every other case.
   */
  function Compare(a: Index, b: Index): real
  {
    var i1 := a.Numeric();
    var i2 := b.Numeric();
    if i1 >= 0.0 && i2 >= 0.0 then i1 - i2
    else if i1 == -1.0 && i2 == -1.0 then 0.0
    else if i1 == -1.0 then 1.0
    else if i2 == -1.0 then -1.0
    else 0.0
  }

  /** -1 sorts after every index >= 0 (null included) and ties with another -1. */
  lemma LastSortsAfter(b: Index)
    ensures b.Numeric() >= 0.0 ==> Compare(Num(-1.0), b) > 0.0 && Compare(b, Num(-1.0)) < 0.0
    ensures Compare(Num(-1.0), Num(-1.0)) == 0.0
  {
  }

  /** Two indices >= 0 compare by their difference, so sorting puts them ascending. */
  lemma NonNegativeAscending(a: Index, b: Index)
    requires a.Numeric() >= 0.0 && b.Numeric() >= 0.0
    ensures Compare(a, b) == a.Numeric() - b.Numeric()
    ensures Compare(a, b) < 0.0 <==> a.Numeric() < b.Numeric()
  {
  }

  /** The comparator is antisymmetric on every pair of indices. */
  lemma CompareAntisymmetric(a: Index, b: Index)
    ensures Compare(a, b) == -Compare(b, a)
  {
  }

  /** Null compares exactly as index 0. */
  lemma NullActsAsZero(b: Index)
    ensures Compare(Null, b) == Compare(Num(0.0), b)
    ensures Compare(b, Null) == Compare(b, Num(0.0))
  {
  }

  /**
   * A negative index other than -1 ties with every index that is not -1, so
   * "compares equal" is not transitive: 0 ~ -0.5 and -0.5 ~ 5 but 0 < 5.
   */
  lemma CompareNotTransitive()
    ensures Compare(Num(-0.5), Num(0.0)) == 0.0 && Compare(Num(-0.5), Num(5.0)) == 0.0
    ensures Compare(Num(0.0), Num(5.0)) < 0.0
    ensures forall b: Index :: b.Numeric() != -1.0 ==> Compare(Num(-0.5), b) == 0.0
  {
  }

  /** Indices on which the comparator is a total preorder: >= 0 (null included) or -1. */
  predicate Regular(i: Index) {
    i.Numeric() >= 0.0 || i.Numeric() == -1.0
  }

  /** On regular indices "compares <= 0" is transitive and total. */
  lemma RegularPreorder(a: Index, b: Index, c: Index)
    requires Regular(a) && Regular(b) && Regular(c)
    ensures Compare(a, b) <= 0.0 || Compare(b, a) <= 0.0
    ensures Compare(a, b) <= 0.0 && Compare(b, c) <= 0.0 ==> Compare(a, c) <= 0.0
  {
  }
}
