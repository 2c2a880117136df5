/** JSON values, and the mutable tree of nodes that holds one. */
module Json {

  datatype Value =
    | Null
    | Bool(b: bool)
    | Number(digits: string)
    | Str(s: string)
    | Arr(items: seq<Value>)
    | Obj(keys: seq<string>, items: seq<Value>)

  /** The string leaves in document order. */
  function Leaves(j: Value): seq<string> {
    match j
    case Str(s) => [s]
    case Arr(items) => LeavesAll(items)
    case Obj(_, items) => LeavesAll(items)
    case _ => []
  }

  function LeavesAll(items: seq<Value>): seq<string> {
    if items == [] then [] else LeavesAll(items[..|items| - 1]) + Leaves(items[|items| - 1])
  }

  /** How many elements satisfy a test. */
  function Count<T>(p: T -> bool, xs: seq<T>): nat {
    if xs == [] then 0 else Count(p, xs[..|xs| - 1]) + if p(xs[|xs| - 1]) then 1 else 0
  }

  lemma {:induction false} CountAppend<T>(p: T -> bool, a: seq<T>, b: seq<T>)
    ensures Count(p, a + b) == Count(p, a) + Count(p, b)
    decreases |b|
  {
    if b == [] {
      assert a + b == a;
    } else {
      assert (a + b)[..|a + b| - 1] == a + b[..|b| - 1];
      CountAppend(p, a, b[..|b| - 1]);
    }
  }

  lemma {:induction false} CountFinds<T>(p: T -> bool, xs: seq<T>)
    ensures Count(p, xs) > 0 <==> exists x :: x in xs && p(x)
  {
    if xs != [] {
      CountFinds(p, xs[..|xs| - 1]);
      assert xs == xs[..|xs| - 1] + [xs[|xs| - 1]];
    }
  }

  /** Equal up to the text of string leaves. */
  ghost predicate SameShape(a: Value, b: Value) {
    match a
    case Str(_) => b.Str?
    case Arr(items) => b.Arr? && |b.items| == |items| &&
          forall i :: 0 <= i < |items| ==> SameShape(items[i], b.items[i])
    case Obj(keys, items) =>
      b.Obj? && b.keys == keys && |b.items| == |items| &&
        forall i :: 0 <= i < |items| ==> SameShape(items[i], b.items[i])
    case _ => b == a
  }

  /** What one node stores: a leaf, or references to its children. */
  datatype Content =
    | Leaf(value: Value)
    | Text(s: string)
    | List(children: seq<Node>)
    | Record(keys: seq<string>, children: seq<Node>)

  function Children(c: Content): seq<Node> {
    match c
    case List(children) => children
    case Record(_, children) => children
    case _ => []
  }

  class Node {
    var content: Content
    /** The nodes of the subtree rooted here. */
    ghost var Repr: set<Node>

    constructor (content: Content)
      ensures this.content == content && Repr == {this}
    {
      this.content := content;
      Repr := {this};
    }

    /** Children's subtrees lie inside this one, apart from it and from each
        other, and together with this node make it up. */
    ghost predicate Valid()
      reads this, Repr
      decreases Repr
    {
      && this in Repr
      && (forall i :: 0 <= i < |Children(content)| ==>
            var c := Children(content)[i];
            c in Repr && c.Repr <= Repr && this !in c.Repr && c.Valid())
      && (forall i, j :: 0 <= i < j < |Children(content)| ==> Children(content)[i].Repr !! Children(content)[j].Repr)
      && (forall n :: n in Repr ==>
            n == this || exists i :: 0 <= i < |Children(content)| && n in Children(content)[i].Repr)
      && (content.Record? ==> |content.keys| == |content.children|)
      && (content.Leaf? ==> content.value.Null? || content.value.Bool? || content.value.Number?)
    }

    /** The JSON value the subtree holds. */
    ghost function Abs(): Value
      requires Valid()
      reads this, Repr
      decreases Repr, 1, 0
    {
      match content
      case Leaf(value) => value
      case Text(s) => Str(s)
      case List(_) => Arr(AbsAll(Children(content), Repr))
      case Record(keys, _) => Obj(keys, AbsAll(Children(content), Repr))
    }
  }

  ghost function AbsAll(nodes: seq<Node>, owner: set<Node>): seq<Value>
    requires forall i :: 0 <= i < |nodes| ==> nodes[i] in owner && nodes[i].Repr < owner && nodes[i].Valid()
    reads owner
    decreases owner, 0, |nodes|
  {
    if nodes == [] then []
    else AbsAll(nodes[..|nodes| - 1], owner) + [nodes[|nodes| - 1].Abs()]
  }

  lemma {:induction false} AbsAllAt(nodes: seq<Node>, owner: set<Node>)
    requires forall i :: 0 <= i < |nodes| ==> nodes[i] in owner && nodes[i].Repr < owner && nodes[i].Valid()
    ensures |AbsAll(nodes, owner)| == |nodes|
    ensures forall i :: 0 <= i < |nodes| ==> AbsAll(nodes, owner)[i] == nodes[i].Abs()
    decreases |nodes|
  {
    if nodes != [] { AbsAllAt(nodes[..|nodes| - 1], owner); }
  }

  // ----- Pictures of the heap: what each node held at one moment -----

  datatype Cell = Cell(content: Content, repr: set<Node>)

  type Picture = map<Node, Cell>

  /** In picture `h`, node `n` roots a well-formed subtree. */
  ghost predicate Rooted(h: Picture, n: Node) {
    && n in h && n in h[n].repr && h[n].repr <= h.Keys
    && var kids := Children(h[n].content);
       && (forall i :: 0 <= i < |kids| ==> Nested(h, n, kids[i]))
       && (forall i, j :: 0 <= i < j < |kids| ==> h[kids[i]].repr !! h[kids[j]].repr)
       && (forall m :: m in h[n].repr ==> m == n || exists i :: 0 <= i < |kids| && m in h[kids[i]].repr)
  }

  ghost predicate Nested(h: Picture, n: Node, kid: Node)
    requires n in h
  {
    kid in h && kid in h[n].repr && h[kid].repr <= h[n].repr && n !in h[kid].repr
  }

  /** In picture `h`, the subtree of `n` holds the JSON value `v`. */
  ghost predicate Holds(h: Picture, n: Node, v: Value)
    decreases v
  {
    && Rooted(h, n)
    && match v
       case Str(s) => h[n].content == Text(s)
       case Arr(items) => h[n].content.List? && HoldsAll(h, h[n].content.children, items)
       case Obj(keys, items) =>
         h[n].content.Record? && h[n].content.keys == keys && |keys| == |items|
          && HoldsAll(h, h[n].content.children, items)
       case _ => h[n].content == Leaf(v)
  }

  ghost predicate HoldsAll(h: Picture, nodes: seq<Node>, vs: seq<Value>)
    decreases vs
  {
    |nodes| == |vs| && forall i :: 0 <= i < |vs| ==> Holds(h, nodes[i], vs[i])
  }

  /** The heap agrees with the picture on a set of nodes. */
  ghost predicate Shows(h: Picture, nodes: set<Node>)
    reads nodes
  {
    nodes <= h.Keys && forall m :: m in nodes ==> m.content == h[m].content && m.Repr == h[m].repr
  }

  lemma ValidIsRooted(h: Picture, n: Node)
    requires n.Valid() && Shows(h, n.Repr)
    ensures Rooted(h, n)
  {
    var kids := Children(n.content);
    forall i | 0 <= i < |kids| ensures Nested(h, n, kids[i]) && h[kids[i]].repr == kids[i].Repr {
      assert kids[i] in n.Repr;
    }
  }

  lemma ChildrenAreSmaller(n: Node)
    requires n.Valid()
    ensures forall i :: 0 <= i < |Children(n.content)| ==>
              var c := Children(n.content)[i]; c in n.Repr && c.Repr < n.Repr && c.Valid()
  {
  }

  lemma {:induction false} ValidTreeIsHeld(h: Picture, n: Node)
    requires n.Valid() && Shows(h, n.Repr)
    ensures Holds(h, n, n.Abs())
    decreases n.Repr, 1, 0
  {
    ValidIsRooted(h, n);
    if n.content.List? || n.content.Record? {
      ChildrenAreSmaller(n);
      ValidTreesAreHeld(h, Children(n.content), n.Repr);
      AbsAllAt(Children(n.content), n.Repr);
    }
  }

  lemma {:induction false} ValidTreesAreHeld(h: Picture, nodes: seq<Node>, owner: set<Node>)
    requires forall i :: 0 <= i < |nodes| ==> nodes[i] in owner && nodes[i].Repr < owner && nodes[i].Valid()
    requires Shows(h, owner)
    ensures HoldsAll(h, nodes, AbsAll(nodes, owner))
    decreases owner, 0, |nodes|
  {
    AbsAllAt(nodes, owner);
    forall i | 0 <= i < |nodes| ensures Holds(h, nodes[i], AbsAll(nodes, owner)[i]) {
      ValidTreeIsHeld(h, nodes[i]);
    }
  }

  lemma RootIsValid(h: Picture, n: Node, v: Value)
    requires Holds(h, n, v) && Shows(h, h[n].repr) && (v.Arr? || v.Obj?)
    requires var kids := Children(h[n].content); forall i :: 0 <= i < |kids| ==> kids[i].Valid()
    ensures n.Valid()
    ensures forall i :: 0 <= i < |Children(n.content)| ==>
              Children(n.content)[i] in n.Repr && Children(n.content)[i].Repr < n.Repr
  {
    var kids := Children(h[n].content);
    forall i | 0 <= i < |kids| ensures Nested(h, n, kids[i]) && kids[i].Repr == h[kids[i]].repr {
      assert Nested(h, n, kids[i]);
    }
  }

  lemma ContainerAbs(n: Node, items: seq<Value>)
    requires n.Valid() && |Children(n.content)| == |items|
    requires forall i :: 0 <= i < |items| ==>
               var c := Children(n.content)[i]; c in n.Repr && c.Repr < n.Repr && c.Valid() && c.Abs() == items[i]
    ensures AbsAll(Children(n.content), n.Repr) == items
  {
    AbsAllAt(Children(n.content), n.Repr);
  }

  lemma {:induction false} HeldTreeIsValid(h: Picture, n: Node, v: Value)
    requires Holds(h, n, v) && Shows(h, h[n].repr)
    ensures n.Valid() && n.Abs() == v
    decreases v
  {
    var kids := Children(h[n].content);
    assert n.content == h[n].content && n.Repr == h[n].repr;
    if v.Arr? || v.Obj? {
      forall i | 0 <= i < |kids| ensures kids[i].Valid() && kids[i].Abs() == v.items[i] {
        assert Nested(h, n, kids[i]);
        HeldTreeIsValid(h, kids[i], v.items[i]);
      }
      RootIsValid(h, n, v);
      ContainerAbs(n, v.items);
    }
  }

  /** Nothing outside `region` changed from one picture to the next, and no
      subtree gained or lost a node. */
  ghost predicate Evolved(h: Picture, h': Picture, region: set<Node>) {
    && h'.Keys == h.Keys
    && forall m :: m in h ==> h'[m].repr == h[m].repr && (m in region || h'[m] == h[m])
  }

  lemma {:induction false} HoldsOutside(h: Picture, h': Picture, region: set<Node>, n: Node, v: Value)
    requires Evolved(h, h', region) && Holds(h, n, v) && h[n].repr !! region
    ensures Holds(h', n, v)
    decreases v
  {
    var kids := Children(h[n].content);
    assert h'[n] == h[n];
    forall i | 0 <= i < |kids| ensures Nested(h', n, kids[i]) { assert Nested(h, n, kids[i]); }
    assert Rooted(h', n);
    if v.Arr? || v.Obj? {
      forall i | 0 <= i < |kids| ensures Holds(h', kids[i], v.items[i]) {
        assert Nested(h, n, kids[i]);
        HoldsOutside(h, h', region, kids[i], v.items[i]);
      }
    }
  }

  /** A container whose children evolved holds their new values. */
  lemma ContainerHolds(h: Picture, h': Picture, n: Node, v: Value, vals: seq<Value>)
    requires Holds(h, n, v) && (v.Arr? || v.Obj?)
    requires Evolved(h, h', h[n].repr - {n}) && HoldsAll(h', Children(h[n].content), vals)
    ensures Holds(h', n, if v.Arr? then Arr(vals) else Obj(v.keys, vals))
  {
    var kids := Children(h[n].content);
    assert h'[n] == h[n];
    forall i | 0 <= i < |kids| ensures Nested(h', n, kids[i]) { assert Nested(h, n, kids[i]); }
    assert Rooted(h', n);
  }

  /** One child evolved inside its own subtree; its siblings hold what they held. */
  lemma SiblingsHold(h: Picture, h': Picture, n: Node, vals: seq<Value>, i: nat, v: Value)
    requires Rooted(h, n) && HoldsAll(h, Children(h[n].content), vals) && i < |vals|
    requires Evolved(h, h', h[Children(h[n].content)[i]].repr) && Holds(h', Children(h[n].content)[i], v)
    ensures HoldsAll(h', Children(h[n].content), vals[i := v])
  {
    var kids := Children(h[n].content);
    forall k | 0 <= k < |kids| ensures Holds(h', kids[k], vals[i := v][k]) {
      if k != i { HoldsOutside(h, h', h[kids[i]].repr, kids[k], vals[k]); }
    }
  }

  /** One more child of a container that has been evolving inside. */
  lemma ChildEvolved(h: Picture, was: Picture, h': Picture, node: Node, vals: seq<Value>, i: nat, v: Value)
    requires Rooted(h, node) && Evolved(h, was, h[node].repr - {node}) && i < |vals|
    requires var kids := Children(h[node].content);
             HoldsAll(was, kids, vals) && Evolved(was, h', was[kids[i]].repr) && Holds(h', kids[i], v)
    ensures Evolved(h, h', h[node].repr - {node}) && HoldsAll(h', Children(h[node].content), vals[i := v])
  {
    var kids := Children(h[node].content);
    assert was[node] == h[node];
    forall k | 0 <= k < |kids| ensures Nested(was, node, kids[k]) { assert Nested(h, node, kids[k]); }
    assert Rooted(was, node);
    SiblingsHold(was, h', node, vals, i, v);
  }

  lemma HoldsAllAppend(h: Picture, a: seq<Node>, va: seq<Value>, b: seq<Node>, vb: seq<Value>)
    requires HoldsAll(h, a, va) && HoldsAll(h, b, vb)
    ensures HoldsAll(h, a + b, va + vb)
  {}
}
