/** The explicit-stack walk over the mutable tree: pop a node, substitute a
    string, push a container's children. */
module SecretWalk {
  import opened Wrappers
  import opened Json
  import opened SecretResolver

  // ----- What the walk writes, as a function of pictures -----

  /** The picture after one subtree is walked, the strings counted from `turn`. */
  ghost function Write(reg: Registry, h: Picture, n: Node, v: Value, turn: nat): Picture
    decreases v
  {
    if n !in h then h
    else
      match v
      case Str(s) => h[n := Cell(Text(After(reg, Look(s, turn))), h[n].repr)]
      case Arr(items) => WriteAll(reg, h, Children(h[n].content), items, turn)
      case Obj(_, items) => WriteAll(reg, h, Children(h[n].content), items, turn)
      case _ => h
  }

  /** After the subtrees of a stack, the last first. */
  ghost function WriteAll(reg: Registry, h: Picture, nodes: seq<Node>, vs: seq<Value>, turn: nat): Picture
    decreases vs
  {
    if vs == [] || |nodes| != |vs| then h
    else
      var n := |vs| - 1;
      WriteAll(reg, Write(reg, h, nodes[n], vs[n], turn), nodes[..n], vs[..n], turn + Size(vs[n]))
  }

  lemma {:induction false} WriteAllAppend(reg: Registry, h: Picture, a: seq<Node>, va: seq<Value>, b: seq<Node>,
                                          vb: seq<Value>, turn: nat)
    requires |a| == |va| && |b| == |vb|
    ensures WriteAll(reg, h, a + b, va + vb, turn)
         == WriteAll(reg, WriteAll(reg, h, b, vb, turn), a, va, turn + |LeavesAll(vb)|)
    decreases |b|
  {
    if b == [] {
      assert a + b == a && va + vb == va;
    } else {
      var n := |b| - 1;
      assert (a + b)[..|a| + n] == a + b[..n] && (va + vb)[..|a| + n] == va + vb[..n];
      assert (a + b)[|a| + n] == b[n] && (va + vb)[|a| + n] == vb[n];
      WriteAllAppend(reg, Write(reg, h, b[n], vb[n], turn), a, va, b[..n], vb[..n], turn + Size(vb[n]));
    }
  }

  // ----- A written tree holds the substitution -----

  lemma {:induction false} WriteResolves(reg: Registry, h: Picture, n: Node, v: Value, turn: nat)
    requires Holds(h, n, v)
    ensures Evolved(h, Write(reg, h, n, v, turn), h[n].repr)
    ensures Holds(Write(reg, h, n, v, turn), n, Resolve(reg, v, turn))
    decreases v, 1
  {
    match v
    case Str(s) =>
    case Arr(items) => WriteContainer(reg, h, n, v, turn);
    case Obj(_, items) => WriteContainer(reg, h, n, v, turn);
    case _ =>
  }

  lemma {:induction false} WriteContainer(reg: Registry, h: Picture, n: Node, v: Value, turn: nat)
    requires Holds(h, n, v) && (v.Arr? || v.Obj?)
    ensures Evolved(h, Write(reg, h, n, v, turn), h[n].repr)
    ensures Holds(Write(reg, h, n, v, turn), n, Resolve(reg, v, turn))
    decreases v, 0
  {
    var kids, h' := Children(h[n].content), Write(reg, h, n, v, turn);
    var done := ResolveAll(reg, v.items, turn);
    WriteKids(reg, h, n, kids, v.items, h, v.items, turn);
    assert v.items[|v.items|..] == [] && done + [] == done;
    ContainerHolds(h, h', n, v, done);
  }

  /** The children of `n` evolved inside it and hold these values. */
  ghost predicate KidsHold(h: Picture, n: Node, was: Picture, vals: seq<Value>)
    requires n in h
  {
    Evolved(h, was, h[n].repr - {n}) && HoldsAll(was, Children(h[n].content), vals)
  }

  lemma {:induction false} WriteKid(reg: Registry, h: Picture, n: Node, was: Picture, vals: seq<Value>, i: nat,
                                   turn: nat)
    requires Rooted(h, n) && i < |vals| && KidsHold(h, n, was, vals)
    ensures i < |Children(h[n].content)|
    ensures KidsHold(h, n, Write(reg, was, Children(h[n].content)[i], vals[i], turn),
                     vals[i := Resolve(reg, vals[i], turn)])
    decreases vals[i], 2
  {
    var kid := Children(h[n].content)[i];
    WriteResolves(reg, was, kid, vals[i], turn);
    ChildEvolved(h, was, Write(reg, was, kid, vals[i], turn), n, vals, i, Resolve(reg, vals[i], turn));
  }

  /** The children in `nodes`, the first so many of all, are still to be written. */
  lemma {:induction false} WriteKids(reg: Registry, h: Picture, n: Node, nodes: seq<Node>, items: seq<Value>,
                                     was: Picture, vals: seq<Value>, turn: nat)
    requires Rooted(h, n) && |nodes| == |items| <= |vals| == |Children(h[n].content)|
    requires nodes <= Children(h[n].content) && items <= vals && KidsHold(h, n, was, vals)
    ensures KidsHold(h, n, WriteAll(reg, was, nodes, items, turn), ResolveAll(reg, items, turn) + vals[|items|..])
    decreases items, 0
  {
    if items == [] {
      assert [] + vals[0..] == vals;
    } else {
      hide Write, WriteAll, Resolve, ResolveAll, Leaves, LeavesAll, KidsHold, Rooted, Children;
      var m := |items| - 1;
      var val := Resolve(reg, items[m], turn);
      assert nodes[m] == Children(h[n].content)[m] && items[m] == vals[m];
      WriteKid(reg, h, n, was, vals, m, turn);
      WriteKids(reg, h, n, nodes[..m], items[..m], Write(reg, was, nodes[m], items[m], turn), vals[m := val],
                turn + Size(items[m]));
      KidsMatch(ResolveAll(reg, items[..m], turn + Size(items[m])), vals, m, val);
      WriteLast(reg, was, nodes, items, turn);
      ResolveLast(reg, items, turn);
    }
  }

  lemma WriteLast(reg: Registry, h: Picture, nodes: seq<Node>, vs: seq<Value>, turn: nat)
    requires vs != [] && |nodes| == |vs|
    ensures var n := |vs| - 1;
            WriteAll(reg, h, nodes, vs, turn)
            == WriteAll(reg, Write(reg, h, nodes[n], vs[n], turn), nodes[..n], vs[..n], turn + Size(vs[n]))
  {
  }

  lemma ResolveLast(reg: Registry, items: seq<Value>, turn: nat)
    requires items != []
    ensures var n := |items| - 1;
            ResolveAll(reg, items, turn)
            == ResolveAll(reg, items[..n], turn + Size(items[n])) + [Resolve(reg, items[n], turn)]
  {
  }

  lemma KidsMatch(done: seq<Value>, vals: seq<Value>, m: nat, val: Value)
    requires m < |vals|
    ensures done + vals[m := val][m..] == done + [val] + vals[m + 1..]
  {
    assert vals[m := val][m..] == [val] + vals[m + 1..];
  }

  // ----- The stack: disjoint subtrees that make up what is pending -----

  /** Disjoint parts that together make up the whole. */
  ghost predicate Partition<T>(parts: seq<set<T>>, whole: set<T>) {
    && (forall i :: 0 <= i < |parts| ==> parts[i] <= whole)
    && (forall i, j :: 0 <= i < j < |parts| ==> parts[i] !! parts[j])
    && (forall m :: m in whole ==> exists i :: 0 <= i < |parts| && m in parts[i])
  }

  /** Taking `top` out of the last part and splitting the rest of it. */
  lemma SplitLastPart<T>(parts: seq<set<T>>, whole: set<T>, top: T, kids: seq<set<T>>)
    requires Partition(parts, whole) && parts != []
    requires top in parts[|parts| - 1] && Partition(kids, parts[|parts| - 1] - {top})
    ensures Partition(parts[..|parts| - 1] + kids, whole - {top})
  {
    var n := |parts| - 1;
    var parts' := parts[..n] + kids;
    forall i | 0 <= i < |parts'| ensures parts'[i] <= whole - {top} {
      if i < n { assert parts[i] !! parts[n]; }
    }
    forall i, j | 0 <= i < j < |parts'| ensures parts'[i] !! parts'[j] {
      if i < n <= j { assert parts[i] !! parts[n] && kids[j - n] <= parts[n]; }
    }
    forall m | m in whole - {top} ensures exists i :: 0 <= i < |parts'| && m in parts'[i] {
      var i :| 0 <= i < |parts| && m in parts[i];
      if i == n {
        assert m in parts[n] - {top};
        var k :| 0 <= k < |kids| && m in kids[k];
        assert m in parts'[n + k];
      } else {
        assert m in parts'[i];
      }
    }
  }

  ghost function Subtrees(h: Picture, nodes: seq<Node>): seq<set<Node>>
    requires forall i :: 0 <= i < |nodes| ==> nodes[i] in h
  {
    seq(|nodes|, i requires 0 <= i < |nodes| => h[nodes[i]].repr)
  }

  lemma ChildrenPartition(h: Picture, n: Node)
    requires Rooted(h, n)
    ensures var kids := Children(h[n].content);
            (forall i :: 0 <= i < |kids| ==> kids[i] in h) && Partition(Subtrees(h, kids), h[n].repr - {n})
  {
    var kids := Children(h[n].content);
    forall i | 0 <= i < |kids| ensures Nested(h, n, kids[i]) {}
    var parts := Subtrees(h, kids);
    forall m | m in h[n].repr - {n} ensures exists i :: 0 <= i < |parts| && m in parts[i] {
      var i :| 0 <= i < |kids| && m in h[kids[i]].repr;
      assert m in parts[i];
    }
  }

  /** The stack roots disjoint subtrees holding `vals`; together they are the
      nodes still to be processed. */
  ghost predicate Stacked(h: Picture, stack: seq<Node>, vals: seq<Value>, pending: set<Node>) {
    && HoldsAll(h, stack, vals)
    && (forall i :: 0 <= i < |stack| ==> stack[i] in h)
    && Partition(Subtrees(h, stack), pending)
  }

  lemma PartIsWithin<T>(parts: seq<set<T>>, whole: set<T>, i: nat, x: T)
    requires Partition(parts, whole) && i < |parts| && x in parts[i]
    ensures x in whole
  {
  }

  lemma PopPartition(h: Picture, stack: seq<Node>, pending: set<Node>)
    requires stack != [] && forall i :: 0 <= i < |stack| ==> stack[i] in h
    requires Partition(Subtrees(h, stack), pending) && Rooted(h, stack[|stack| - 1])
    ensures stack[|stack| - 1] in pending
    ensures var next := stack[..|stack| - 1] + Children(h[stack[|stack| - 1]].content);
            (forall i :: 0 <= i < |next| ==> next[i] in h)
            && Partition(Subtrees(h, next), pending - {stack[|stack| - 1]})
  {
    hide Partition, Nested;
    var n := |stack| - 1;
    var top := stack[n];
    var parts := Subtrees(h, stack);
    assert parts[n] == h[top].repr && top in parts[n];
    PartIsWithin(parts, pending, n, top);
    ChildrenPartition(h, top);
    var kids := Children(h[top].content);
    SplitLastPart(parts, pending, top, Subtrees(h, kids));
    assert Subtrees(h, stack[..n] + kids) == parts[..n] + Subtrees(h, kids);
  }

  function ItemsOf(v: Value): seq<Value> {
    if v.Arr? || v.Obj? then v.items else []
  }

  lemma HeldItems(h: Picture, n: Node, v: Value)
    requires Holds(h, n, v)
    ensures n in h && Rooted(h, n) && HoldsAll(h, Children(h[n].content), ItemsOf(v))
  {}

  /** Popping the top node and pushing its children, none for a leaf. */
  lemma PopAndPush(h: Picture, stack: seq<Node>, vals: seq<Value>, pending: set<Node>)
    requires Stacked(h, stack, vals, pending) && stack != []
    ensures stack[|stack| - 1] in pending && Holds(h, stack[|stack| - 1], vals[|vals| - 1])
    ensures Stacked(h, stack[..|stack| - 1] + Children(h[stack[|stack| - 1]].content),
                    vals[..|vals| - 1] + ItemsOf(vals[|vals| - 1]), pending - {stack[|stack| - 1]})
  {
    var n := |stack| - 1;
    HeldItems(h, stack[n], vals[n]);
    PopPartition(h, stack, pending);
    HoldsAllAppend(h, stack[..n], vals[..n], Children(h[stack[n]].content), ItemsOf(vals[n]));
  }

  // ----- One turn of the loop -----

  function LookAt(c: Content, turn: nat): seq<Look> {
    if c.Text? then [Look(c.s, turn)] else []
  }

  function AfterContent(reg: Registry, c: Content, turn: nat): Content {
    if c.Text? then Text(After(reg, Look(c.s, turn))) else c
  }

  /** The picture after one node is processed by itself. */
  ghost function WriteTop(reg: Registry, h: Picture, n: Node, turn: nat): Picture
    requires n in h
  {
    h[n := Cell(AfterContent(reg, h[n].content, turn), h[n].repr)]
  }

  ghost predicate Writes(reg: Registry, h: Picture, whole: Value, root: Node, stack: seq<Node>, vals: seq<Value>,
                         turn: nat, now: Picture)
  {
    WriteAll(reg, now, stack, vals, turn) == Write(reg, h, root, whole, 0)
  }

  ghost predicate Visits(whole: Value, vals: seq<Value>, done: seq<Look>) {
    done + VisitAll(vals, |done|) == Visit(whole, 0)
  }

  /** Pending nodes are as they were. */
  ghost predicate Behind(h: Picture, now: Picture, pending: set<Node>) {
    now.Keys == h.Keys && forall m :: m in h && m in pending ==> now[m] == h[m]
  }

  /** A container on top gives way to its children. */
  lemma WriteStepDown(reg: Registry, now: Picture, init: seq<Node>, vals: seq<Value>, top: Node, v: Value,
                      kids: seq<Node>, turn: nat)
    requires |init| == |vals| && (v.Arr? || v.Obj?) && |kids| == |v.items|
    requires Write(reg, now, top, v, turn) == WriteAll(reg, now, kids, v.items, turn)
    ensures WriteAll(reg, now, init + [top], vals + [v], turn) == WriteAll(reg, now, init + kids, vals + v.items, turn)
  {
    WriteLast(reg, now, init + [top], vals + [v], turn);
    assert (init + [top])[..|init|] == init && (vals + [v])[..|vals|] == vals;
    WriteAllAppend(reg, now, init, vals, kids, v.items, turn);
  }

  /** A leaf on top is written and gone. */
  lemma WriteStepOver(reg: Registry, now: Picture, init: seq<Node>, vals: seq<Value>, top: Node, v: Value, turn: nat)
    requires |init| == |vals|
    ensures WriteAll(reg, now, init + [top], vals + [v], turn)
         == WriteAll(reg, Write(reg, now, top, v, turn), init, vals, turn + Size(v))
  {
    WriteLast(reg, now, init + [top], vals + [v], turn);
    assert (init + [top])[..|init|] == init && (vals + [v])[..|vals|] == vals;
  }

  lemma WriteStep(reg: Registry, h: Picture, now: Picture, stack: seq<Node>, vals: seq<Value>, turn: nat)
    requires stack != [] && |stack| == |vals|
    requires var n := |stack| - 1;
             Holds(h, stack[n], vals[n]) && stack[n] in now && now[stack[n]] == h[stack[n]]
    ensures var n := |stack| - 1;
            var top := stack[n];
            WriteAll(reg, now, stack, vals, turn)
            == WriteAll(reg, WriteTop(reg, now, top, turn), stack[..n] + Children(h[top].content),
                        vals[..n] + ItemsOf(vals[n]), turn + |LookAt(h[top].content, turn)|)
  {
    var n := |stack| - 1;
    var top, v := stack[n], vals[n];
    Ends(stack);
    Ends(vals);
    if v.Arr? || v.Obj? {
      WriteContainerTop(reg, h, now, top, v, turn);
      WriteStepDown(reg, now, stack[..n], vals[..n], top, v, Children(h[top].content), turn);
    } else {
      WriteLeafTop(reg, h, now, top, v, turn);
      WriteStepOver(reg, now, stack[..n], vals[..n], top, v, turn);
      Nothing(stack[..n]);
      Nothing(vals[..n]);
    }
  }

  lemma Ends<T>(s: seq<T>)
    requires s != []
    ensures s[..|s| - 1] + [s[|s| - 1]] == s
  {
  }

  lemma Nothing<T>(s: seq<T>)
    ensures s + [] == s
  {
  }

  lemma WriteContainerTop(reg: Registry, h: Picture, now: Picture, top: Node, v: Value, turn: nat)
    requires Holds(h, top, v) && top in now && now[top] == h[top] && (v.Arr? || v.Obj?)
    ensures WriteTop(reg, now, top, turn) == now && LookAt(h[top].content, turn) == []
    ensures |Children(h[top].content)| == |v.items| && Size(v) == |LeavesAll(v.items)|
    ensures Write(reg, now, top, v, turn) == WriteAll(reg, now, Children(h[top].content), v.items, turn)
  {
  }

  lemma WriteLeafTop(reg: Registry, h: Picture, now: Picture, top: Node, v: Value, turn: nat)
    requires Holds(h, top, v) && top in now && now[top] == h[top] && !v.Arr? && !v.Obj?
    ensures WriteTop(reg, now, top, turn) == Write(reg, now, top, v, turn)
    ensures Children(h[top].content) == [] && ItemsOf(v) == [] && |LookAt(h[top].content, turn)| == Size(v)
  {
  }

  lemma VisitLast(items: seq<Value>, v: Value, turn: nat)
    ensures VisitAll(items + [v], turn) == Visit(v, turn) + VisitAll(items, turn + Size(v))
  {
    assert (items + [v])[..|items|] == items;
  }

  lemma LeavesLast(items: seq<Value>, v: Value)
    ensures |LeavesAll(items + [v])| == |LeavesAll(items)| + Size(v)
  {
    assert (items + [v])[..|items|] == items;
  }

  lemma {:induction false} VisitAllAppend(a: seq<Value>, b: seq<Value>, turn: nat)
    ensures VisitAll(a + b, turn) == VisitAll(b, turn) + VisitAll(a, turn + |LeavesAll(b)|)
    decreases |b|
  {
    if b == [] {
      Nothing(a);
    } else {
      var init, v := b[..|b| - 1], b[|b| - 1];
      Ends(b);
      Nest(a, init, [v]);
      VisitAllAppend(a, init, turn + Size(v));
      VisitLast(a + init, v, turn);
      VisitLast(init, v, turn);
      LeavesLast(init, v);
      Nest(Visit(v, turn), VisitAll(init, turn + Size(v)), VisitAll(a, turn + |LeavesAll(b)|));
    }
  }

  lemma ContainerVisit(v: Value, turn: nat)
    requires v.Arr? || v.Obj?
    ensures Visit(v, turn) == VisitAll(v.items, turn) && Size(v) == |LeavesAll(v.items)|
  {
  }

  lemma VisitStepDown(rest: seq<Value>, v: Value, turn: nat)
    requires v.Arr? || v.Obj?
    ensures VisitAll(rest + v.items, turn) == VisitAll(rest + [v], turn)
  {
    ContainerVisit(v, turn);
    hide Visit, VisitAll, Leaves, LeavesAll;
    VisitLast(rest, v, turn);
    VisitAllAppend(rest, v.items, turn);
  }

  lemma VisitStepOver(rest: seq<Value>, v: Value, done: seq<Look>)
    requires |Visit(v, |done|)| == Size(v)
    ensures (done + Visit(v, |done|)) + VisitAll(rest, |done + Visit(v, |done|)|) == done + VisitAll(rest + [v], |done|)
  {
    hide Visit, VisitAll, Leaves, LeavesAll;
    VisitLast(rest, v, |done|);
    Nest(done, Visit(v, |done|), VisitAll(rest, |done| + Size(v)));
  }

  /** A container on top is visited through its children, a leaf by itself. */
  lemma VisitStep(h: Picture, top: Node, vals: seq<Value>, done: seq<Look>)
    requires vals != [] && Holds(h, top, vals[|vals| - 1])
    ensures var n := |vals| - 1;
            var done' := done + LookAt(h[top].content, |done|);
            done' + VisitAll(vals[..n] + ItemsOf(vals[n]), |done'|) == done + VisitAll(vals, |done|)
  {
    hide Visit, VisitAll, Holds, HoldsAll, LookAt, Leaves, LeavesAll, Rooted;
    var rest, v := vals[..|vals| - 1], vals[|vals| - 1];
    HeldItems(h, top, v);
    LookIsVisit(h, top, v, |done|);
    Ends(vals);
    if v.Arr? || v.Obj? {
      Nothing(done);
      VisitStepDown(rest, v, |done|);
    } else {
      Nothing(rest);
      VisitStepOver(rest, v, done);
    }
  }

  lemma LookIsVisit(h: Picture, top: Node, v: Value, turn: nat)
    requires Holds(h, top, v)
    ensures if v.Arr? || v.Obj?
            then LookAt(h[top].content, turn) == [] && Visit(v, turn) == VisitAll(v.items, turn)
                 && Size(v) == |LeavesAll(v.items)|
            else LookAt(h[top].content, turn) == Visit(v, turn) && ItemsOf(v) == [] && |Visit(v, turn)| == Size(v)
  {
  }

  lemma Nest<T>(a: seq<T>, b: seq<T>, c: seq<T>)
    ensures (a + b) + c == a + (b + c)
  {
  }

  lemma StaysBehind(reg: Registry, h: Picture, now: Picture, pending: set<Node>, top: Node, turn: nat)
    requires Behind(h, now, pending) && top in h
    ensures Behind(h, WriteTop(reg, now, top, turn), pending - {top})
  {
  }

  lemma TopIsPending(h: Picture, stack: seq<Node>, vals: seq<Value>, pending: set<Node>)
    requires Stacked(h, stack, vals, pending) && stack != []
    ensures var top := stack[|stack| - 1];
            |stack| == |vals| && top in h && top in pending && Holds(h, top, vals[|vals| - 1])
  {
    PopAndPush(h, stack, vals, pending);
  }

  lemma MovedStack(reg: Registry, h: Picture, now: Picture, stack: seq<Node>, vals: seq<Value>, pending: set<Node>,
                   turn: nat, stack': seq<Node>, vals': seq<Value>, now': Picture)
    requires Stacked(h, stack, vals, pending) && Behind(h, now, pending) && stack != [] && |stack| == |vals|
    requires var top, n := stack[|stack| - 1], |stack| - 1;
             && top in h && top in now && stack' == stack[..n] + Children(h[top].content)
             && vals' == vals[..n] + ItemsOf(vals[n]) && now' == WriteTop(reg, now, top, turn)
    ensures Stacked(h, stack', vals', pending - {stack[|stack| - 1]}) && Behind(h, now', pending - {stack[|stack| - 1]})
  {
    PopAndPush(h, stack, vals, pending);
    StaysBehind(reg, h, now, pending, stack[|stack| - 1], turn);
  }

  /** Halfway: writing and visiting the rest gives the whole. */
  ghost predicate Leads(reg: Registry, h: Picture, whole: Value, root: Node, stack: seq<Node>, vals: seq<Value>,
                        done: seq<Look>, now: Picture)
  {
    Writes(reg, h, whole, root, stack, vals, |done|, now) && Visits(whole, vals, done)
  }

  /** One turn of what the rest gives. */
  lemma LeadsOn(reg: Registry, h: Picture, whole: Value, root: Node, stack: seq<Node>, vals: seq<Value>,
                done: seq<Look>, now: Picture)
    returns (stack': seq<Node>, vals': seq<Value>, done': seq<Look>, now': Picture)
    requires Leads(reg, h, whole, root, stack, vals, done, now) && stack != [] && |stack| == |vals|
    requires var top := stack[|stack| - 1];
             Holds(h, top, vals[|vals| - 1]) && top in h && top in now && now[top] == h[top]
    ensures var top, n := stack[|stack| - 1], |stack| - 1;
            && stack' == stack[..n] + Children(h[top].content) && vals' == vals[..n] + ItemsOf(vals[n])
            && done' == done + LookAt(h[top].content, |done|) && now' == WriteTop(reg, now, top, |done|)
    ensures Leads(reg, h, whole, root, stack', vals', done', now')
  {
    hide Write, WriteAll, WriteTop, Visit, VisitAll, Holds, HoldsAll;
    var top, n := stack[|stack| - 1], |stack| - 1;
    WriteStep(reg, h, now, stack, vals, |done|);
    VisitStep(h, top, vals, done);
    stack', vals' := stack[..n] + Children(h[top].content), vals[..n] + ItemsOf(vals[n]);
    done', now' := done + LookAt(h[top].content, |done|), WriteTop(reg, now, top, |done|);
  }

  lemma WalkStart(reg: Registry, h: Picture, whole: Value, root: Node)
    requires Holds(h, root, whole)
    ensures Stacked(h, [root], [whole], h[root].repr) && Leads(reg, h, whole, root, [root], [whole], [], h)
  {
    var parts := Subtrees(h, [root]);
    assert parts == [h[root].repr];
    forall m | m in h[root].repr ensures exists i :: 0 <= i < |parts| && m in parts[i] { assert m in parts[0]; }
    assert [whole][..0] == [] && [root][..0] == [];
    assert VisitAll([whole], 0) == Visit(whole, 0) + VisitAll([], Size(whole));
    assert WriteAll(reg, h, [root], [whole], 0) == WriteAll(reg, Write(reg, h, root, whole, 0), [], [], Size(whole));
  }

  lemma WalkEnd(reg: Registry, h: Picture, whole: Value, root: Node, vals: seq<Value>, pending: set<Node>,
                done: seq<Look>, now: Picture)
    requires Stacked(h, [], vals, pending) && Leads(reg, h, whole, root, [], vals, done, now)
    ensures now == Write(reg, h, root, whole, 0) && done == Visit(whole, 0)
  {
    assert done + [] == done;
  }

  // ----- The loop -----

  method Drain(reg: Registry, root: Node, ghost h: Picture, ghost whole: Value)
    returns (report: Report, ghost now: Picture)
    requires root in h && Holds(h, root, whole)
    requires Shows(h, h[root].repr)
    modifies h[root].repr
    ensures now == Write(reg, h, root, whole, 0) && Shows(now, h[root].repr)
    ensures report == ReportOf(reg, Visit(whole, 0))
  {
    hide Write, WriteAll, Visit, VisitAll, Holds, HoldsAll, Stacked, Leads;
    report, now := EMPTY, h;
    var stack, turn := [root], 0;
    ghost var nodes := h[root].repr;
    ghost var vals, pending: set<Node>, done: seq<Look> := [whole], nodes, [];
    WalkStart(reg, h, whole, root);
    while stack != []
      invariant Stacked(h, stack, vals, pending) && Behind(h, now, pending)
      invariant Leads(reg, h, whole, root, stack, vals, done, now)
      invariant pending <= nodes && Shows(now, nodes)
      invariant turn == |done| && report == ReportOf(reg, done)
      decreases |pending|
    {
      var n := |stack| - 1;
      var node := stack[n];
      ghost var before, stack', vals', now' := done, stack, vals, now;
      TopIsPending(h, stack, vals, pending);
      stack', vals', done, now' := LeadsOn(reg, h, whole, root, stack, vals, done, now);
      MovedStack(reg, h, now, stack, vals, pending, turn, stack', vals', now');
      stack, pending, vals, now := stack[..n] + Children(node.content), pending - {node}, vals', now';
      report, turn := ProcessNode(reg, node, report, turn, before);
    }
    WalkEnd(reg, h, whole, root, vals, pending, done, now);
  }

  /** One node: strings are resolved, containers left as they are. */
  method ProcessNode(reg: Registry, node: Node, before: Report, turn: nat, ghost done: seq<Look>)
    returns (report: Report, turn': nat)
    requires turn == |done| && before == ReportOf(reg, done)
    modifies node`content
    ensures node.content == AfterContent(reg, old(node.content), turn)
    ensures var done' := done + LookAt(old(node.content), turn); turn' == |done'| && report == ReportOf(reg, done')
  {
    if node.content.Text? {
      assert (done + LookAt(node.content, turn))[..|done|] == done;
      report := ResolveLeaf(reg, node, before, turn);
      turn' := turn + 1;
    } else {
      assert done + [] == done;
      report, turn' := before, turn;
    }
  }

  /** One string leaf: substitute it or account for why not. */
  method ResolveLeaf(reg: Registry, node: Node, before: Report, turn: nat) returns (report: Report)
    requires node.content.Text?
    modifies node`content
    ensures node.content == AfterContent(reg, old(node.content), turn)
    ensures report == Account(reg, before, Look(old(node.content).s, turn))
  {
    var s := node.content.s;
    var parsed := reg.parse(s);
    if parsed.None? { return before; }
    var scheme := parsed.value.0;
    if !reg.bound(scheme) { return before.(skipped := before.skipped + {scheme}); }
    match reg.get(s, turn) {
      case Utf8(text) =>
        node.content := Text(text);
        return before.(expanded := before.expanded + 1, resolved := before.resolved + {s});
      case NotUtf8 => return before.(failures := before.failures + [Failure(s, NOT_UTF8)]);
      case Failed(e) => return before.(failures := before.failures + [Failure(s, e)]);
    }
  }

  /** The walk terminates, leaves the tree holding the recursive substitution,
      and reports the strings in visiting order. */
  method ResolveWalk(reg: Registry, root: Node) returns (report: Report)
    requires root.Valid()
    modifies root.Repr
    ensures root.Valid() && root.Repr == old(root.Repr)
    ensures root.Abs() == Resolve(reg, old(root.Abs()), 0)
    ensures report == ReportOf(reg, Visit(old(root.Abs()), 0))
  {
    ghost var nodes, whole := root.Repr, root.Abs();
    ghost var h: Picture := map m | m in nodes :: Cell(m.content, m.Repr);
    ValidTreeIsHeld(h, root);
    ghost var now;
    report, now := Drain(reg, root, h, whole);
    WriteResolves(reg, h, root, whole, 0);
    HeldTreeIsValid(now, root, Resolve(reg, whole, 0));
  }
}
