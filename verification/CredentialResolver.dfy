/** Credential references in a request's configuration: every `cred://` leaf is
    replaced, in place and in document order, by the credential the cache or
    its issuer yields; the first failure stops the walk. */
module CredentialResolver {
  import opened Wrappers
  import opened Json
  import opened CredentialCache

  datatype CredRef = CredRef(pluginId: string, target: string, part: Option<string>)

  datatype Error =
    | UnknownPlugin(pluginId: string, uri: string)
    | Issuance(uri: string, why: string)
    | UnknownPart(uri: string, part: string, available: set<string>)
    | PartRequired(uri: string)

  /** What surrounds one walk: the reference parser, the registered issuers,
      the answer each issuer gives to the n-th request, the clock at the n-th
      request, the caller's identity hash, and what other tasks do to the shared
      cache before the lookup of the n-th request and while its issuer is
      awaited. */
  datatype Env = Env(parse: string -> Option<CredRef>, registered: string -> bool,
                     issue: (string, string, nat) -> Result<Credential, string>, clock: nat -> nat,
                     identityHash: string, before: nat -> seq<Op>, during: nat -> seq<Op>)

  /** The cache, the (plugin, target) pairs issuers were called for, and how
      many references were looked up. */
  datatype Session = Session(cache: State, issued: seq<(string, string)>, calls: nat)

  function KeyOf(env: Env, r: CredRef): CacheKey {
    CacheKey(env.identityHash, r.pluginId, r.target)
  }

  function PickPart(c: Credential, r: CredRef, uri: string): Result<string, Error> {
    match r.part
    case Some(part) => if part in c.parts then Ok(c.parts[part]) else Err(UnknownPart(uri, part, c.parts.Keys))
    case None => if c.value.Some? then Ok(c.value.value) else Err(PartRequired(uri))
  }

  datatype Outcome = Untouched | Replaced(text: string) | Halted(error: Error)

  /** The credential for one reference and the session after asking for it. */
  ghost function Fetch(env: Env, config: Config, st: Session, r: CredRef): (Session, Result<Credential, string>) {
    var n, now, key := st.calls, env.clock(st.calls), KeyOf(env, r);
    var found := RunFrom(config, st.cache, env.before(n));
    var (es, hit) := Lookup(found.entries, key, now);
    var looked := found.(entries := es);
    if hit.Some? then (Session(looked, st.issued, n + 1), Ok(hit.value))
    else
      var answer := env.issue(r.pluginId, r.target, n);
      var cache := Stored(config, RunFrom(config, looked, env.during(n)), key, answer, now);
      (Session(cache, st.issued + [(r.pluginId, r.target)], n + 1), answer)
  }

  ghost function ResolveText(env: Env, config: Config, st: Session, s: string): (Session, Outcome) {
    match env.parse(s)
    case None => (st, Untouched)
    case Some(r) =>
      if !env.registered(r.pluginId) then (st, Halted(UnknownPlugin(r.pluginId, s)))
      else
        var (st', fetched) := Fetch(env, config, st, r);
        match fetched
        case Err(why) => (st', Halted(Issuance(s, why)))
        case Ok(c) =>
          match PickPart(c, r, s)
          case Ok(text) => (st', Replaced(text))
          case Err(e) => (st', Halted(e))
  }

  // ----- The walk as a function -----

  datatype Walked<T> = Walked(session: Session, tree: T, count: nat, error: Option<Error>)

  ghost function Walk(env: Env, config: Config, st: Session, j: Value): Walked<Value>
    decreases j
  {
    match j
    case Str(s) =>
      var (st', o) := ResolveText(env, config, st, s);
      (match o
       case Untouched => Walked(st', j, 0, None)
       case Replaced(text) => Walked(st', Str(text), 1, None)
       case Halted(e) => Walked(st', j, 0, Some(e)))
    case Arr(items) => var w := WalkAll(env, config, st, items); Walked(w.session, Arr(w.tree), w.count, w.error)
    case Obj(keys, items) =>
        var w := WalkAll(env, config, st, items); Walked(w.session, Obj(keys, w.tree), w.count, w.error)
    case _ => Walked(st, j, 0, None)
  }

  ghost function WalkAll(env: Env, config: Config, st: Session, items: seq<Value>): Walked<seq<Value>>
    decreases items
  {
    if items == [] then Walked(st, [], 0, None)
    else
      var w, last := WalkAll(env, config, st, items[..|items| - 1]), items[|items| - 1];
      if w.error.Some? then Walked(w.session, w.tree + [last], w.count, w.error)
      else
        var v := Walk(env, config, w.session, last);
        Walked(v.session, w.tree + [v.tree], w.count + v.count, v.error)
  }

  /** After the first failure nothing further changes. */
  lemma {:induction false} ErrorSticks(env: Env, config: Config, st: Session, items: seq<Value>, n: nat)
    requires n <= |items| && WalkAll(env, config, st, items[..n]).error.Some?
    ensures var w := WalkAll(env, config, st, items[..n]);
            WalkAll(env, config, st, items) == w.(tree := w.tree + items[n..])
    decreases |items|
  {
    if n == |items| {
      assert items[..n] == items &&
             WalkAll(env, config, st, items[..n]).tree + items[n..] == WalkAll(env, config, st, items).tree;
    } else {
      var m := |items| - 1;
      assert items[..m][..n] == items[..n];
      ErrorSticks(env, config, st, items[..m], n);
      var tree := WalkAll(env, config, st, items[..n]).tree;
      assert items[n..] == items[..m][n..] + [items[m]];
      assert tree + items[..m][n..] + [items[m]] == tree + items[n..];
    }
  }

  // ----- The walk over the mutable tree -----

  /** One subtree of the heap that `h` pictures, holding `v`; `h'` pictures the
      heap afterwards, and `all` is what both pictures cover. */
  method ResolveNode(env: Env, cache: Cache, node: Node, ghost h: Picture, ghost v: Value, ghost all: set<Node>,
                     issued: seq<(string, string)>, calls: nat)
    returns (issued': seq<(string, string)>, calls': nat, count: nat, error: Option<Error>, ghost h': Picture)
    requires Holds(h, node, v) && h[node].repr <= all && Shows(h, all)
    modifies h[node].repr, cache
    ensures Evolved(h, h', h[node].repr) && Shows(h', all)
    ensures Does(env, cache.config, Session(old(cache.View()), issued, calls), v,
                 Session(cache.View(), issued', calls'), count, error, h', node)
    decreases h[node].repr, 2
  {
    issued', calls', count, error, h' := issued, calls, 0, None, h;
    if node.content.Text? {
      var outcome;
      assert v == Str(node.content.s);
      issued', calls', outcome := ResolveTextIn(env, cache, node.content.s, issued, calls);
      match outcome {
        case Untouched =>
        case Replaced(text) =>
          node.content := Text(text);
          count := 1;
          h' := h[node := Cell(Text(text), h[node].repr)];
        case Halted(e) => error := Some(e);
      }
    } else if !node.content.Leaf? {
      issued', calls', count, error, h' := ResolveChildren(env, cache, node, h, v, all, issued, calls);
    }
  }

  /** The walk of `v` from session `st` ends in session `now` with this count and
      error, and `node` holds the tree it leaves. */
  ghost predicate Does(env: Env, config: Config, st: Session, v: Value,
                       now: Session, count: nat, error: Option<Error>, h: Picture, node: Node)
  {
    var w := Walk(env, config, st, v);
    Holds(h, node, w.tree) && w == Walked(now, w.tree, count, error)
  }

  /** The children in order, up to the first that fails. */
  method ResolveChildren(env: Env, cache: Cache, node: Node, ghost h: Picture, ghost v: Value, ghost all: set<Node>,
                         issued: seq<(string, string)>, calls: nat)
    returns (issued': seq<(string, string)>, calls': nat, count: nat, error: Option<Error>, ghost h': Picture)
    requires Holds(h, node, v) && h[node].repr <= all && Shows(h, all) && (v.Arr? || v.Obj?)
    modifies h[node].repr, cache
    ensures Evolved(h, h', h[node].repr) && Shows(h', all)
    ensures Does(env, cache.config, Session(old(cache.View()), issued, calls), v,
                 Session(cache.View(), issued', calls'), count, error, h', node)
    decreases h[node].repr, 1
  {
    issued', calls', count, error, h' := issued, calls, 0, None, h;
    var kids := Children(node.content);
    ghost var st, vals := Session(cache.View(), issued, calls), v.items;
    Begin(env, cache.config, st, h, node, v);
    var i := 0;
    while i < |kids| && error.None?
      invariant 0 <= i <= |kids| && Shows(h', all)
      invariant Partway(env, cache.config, st, h, node, v, i, Session(cache.View(), issued', calls'),
                        vals, count, error, h')
    {
      var more;
      issued', calls', more, error, vals, h' :=
        ResolveChild(env, cache, kids[i], st, h, node, v, i, vals, count, h', all, issued', calls');
      count, i := count + more, i + 1;
    }
    Finish(env, cache.config, st, h, node, v, i, Session(cache.View(), issued', calls'), vals, count, error, h');
  }

  /** The next child, after `i` of them. */
  method ResolveChild(env: Env, cache: Cache, kid: Node, ghost st: Session, ghost h: Picture, ghost node: Node,
                      ghost v: Value, ghost i: nat, ghost vals: seq<Value>, ghost count: nat, ghost was: Picture,
                      ghost all: set<Node>, issued: seq<(string, string)>, calls: nat)
    returns (issued': seq<(string, string)>, calls': nat, more: nat, error: Option<Error>,
             ghost vals': seq<Value>, ghost h': Picture)
    requires Holds(h, node, v) && (v.Arr? || v.Obj?) && i < |v.items| == |Children(h[node].content)|
             && kid == Children(h[node].content)[i]
    requires h[node].repr <= all && Shows(was, all)
    requires Partway(env, cache.config, st, h, node, v, i, Session(cache.View(), issued, calls), vals, count, None, was)
    modifies h[node].repr, cache
    ensures Shows(h', all)
    ensures Partway(env, cache.config, st, h, node, v, i + 1,
                    Session(cache.View(), issued', calls'), vals', count + more, error, h')
    decreases h[node].repr, 0
  {
    ghost var now := Session(cache.View(), issued, calls);
    ChildReady(env, cache.config, st, h, node, v, i, now, vals, count, was);
    issued', calls', more, error, h' := ResolveNode(env, cache, kid, was, v.items[i], all, issued, calls);
    vals' := Onward(env, cache.config, st, h, node, v, i, now, vals, count, was,
                    Session(cache.View(), issued', calls'), more, error, h');
  }

  /** The first `i` children are done: `vals` is what the children hold. */
  ghost predicate Partway(env: Env, config: Config, st: Session, h: Picture, node: Node, v: Value, i: nat,
                          now: Session, vals: seq<Value>, count: nat, error: Option<Error>, h': Picture)
    requires Holds(h, node, v) && (v.Arr? || v.Obj?)
  {
    && i <= |vals| == |v.items| && vals[i..] == v.items[i..]
    && Evolved(h, h', h[node].repr - {node}) && HoldsAll(h', Children(h[node].content), vals)
    && WalkAll(env, config, st, v.items[..i]) == Walked(now, vals[..i], count, error)
  }

  lemma Begin(env: Env, config: Config, st: Session, h: Picture, node: Node, v: Value)
    requires Holds(h, node, v) && (v.Arr? || v.Obj?)
    ensures Partway(env, config, st, h, node, v, 0, st, v.items, 0, None, h)
  {
  }

  lemma ChildReady(env: Env, config: Config, st: Session, h: Picture, node: Node, v: Value, i: nat,
                   now: Session, vals: seq<Value>, count: nat, h': Picture)
    requires Holds(h, node, v) && (v.Arr? || v.Obj?) && i < |v.items|
    requires Partway(env, config, st, h, node, v, i, now, vals, count, None, h')
    ensures var kid := Children(h[node].content)[i];
            Holds(h', kid, v.items[i]) && h'[kid].repr == h[kid].repr && h[kid].repr < h[node].repr
  {
    assert Nested(h, node, Children(h[node].content)[i]);
    assert vals[i..][0] == v.items[i..][0];
  }

  lemma Onward(env: Env, config: Config, st: Session, h: Picture, node: Node, v: Value, i: nat,
               now: Session, vals: seq<Value>, count: nat, was: Picture,
               now': Session, more: nat, error: Option<Error>, h': Picture)
    returns (vals': seq<Value>)
    requires Holds(h, node, v) && (v.Arr? || v.Obj?) && i < |v.items|
    requires Partway(env, config, st, h, node, v, i, now, vals, count, None, was)
    requires var kid := Children(h[node].content)[i];
             && Nested(h, node, kid) && Evolved(was, h', h[kid].repr)
             && Does(env, config, now, v.items[i], now', more, error, h', kid)
    ensures Partway(env, config, st, h, node, v, i + 1, now', vals', count + more, error, h')
  {
    var tree := Walk(env, config, now, v.items[i]).tree;
    vals' := vals[i := tree];
    RestKept(v.items, vals, i, tree);
    WalkAllStep(env, config, st, v.items, i);
    ChildEvolved(h, was, h', node, vals, i, tree);
  }

  /** A walk that stopped after `i` items, failing or at the end, is the whole walk. */
  lemma WholeWalk(env: Env, config: Config, st: Session, items: seq<Value>, i: nat,
                  now: Session, vals: seq<Value>, count: nat, error: Option<Error>)
    requires i <= |vals| == |items| && vals[i..] == items[i..] && (i == |items| || error.Some?)
    requires WalkAll(env, config, st, items[..i]) == Walked(now, vals[..i], count, error)
    ensures WalkAll(env, config, st, items) == Walked(now, vals, count, error)
  {
    if error.Some? {
      ErrorSticks(env, config, st, items, i);
      assert vals == vals[..i] + items[i..];
    } else {
      assert items[..i] == items && vals[..i] == vals;
    }
  }

  lemma Finish(env: Env, config: Config, st: Session, h: Picture, node: Node, v: Value, i: nat,
               now: Session, vals: seq<Value>, count: nat, error: Option<Error>, h': Picture)
    requires Holds(h, node, v) && (v.Arr? || v.Obj?)
    requires Partway(env, config, st, h, node, v, i, now, vals, count, error, h')
    requires i == |v.items| || error.Some?
    ensures Does(env, config, st, v, now, count, error, h', node)
  {
    WholeWalk(env, config, st, v.items, i, now, vals, count, error);
    ContainerHolds(h, h', node, v, vals);
  }

  lemma WalkAllStep(env: Env, config: Config, st: Session, items: seq<Value>, i: nat)
    requires i < |items|
    ensures var w, w' := WalkAll(env, config, st, items[..i]), WalkAll(env, config, st, items[..i + 1]);
            w.error == None ==>
              var v := Walk(env, config, w.session, items[i]);
              w' == Walked(v.session, w.tree + [v.tree], w.count + v.count, v.error)
  {
    assert items[..i + 1][..i] == items[..i];
  }

  lemma RestKept(before: seq<Value>, vals: seq<Value>, i: nat, v: Value)
    requires i < |before| == |vals| && vals[i..] == before[i..]
    ensures vals[i] == before[i]
    ensures vals[i := v][..i + 1] == vals[..i] + [v] && vals[i := v][i + 1..] == before[i + 1..]
  {
    assert vals[i..][0] == before[i..][0];
    assert vals[i..][1..] == before[i..][1..];
  }

  /** The walk over a mutable tree and the cache does what the function `Walk`
      says, in place: the tree, the cache, the issuer calls, the count of
      substituted references and the first failure. */
  method ResolveWalk(env: Env, cache: Cache, node: Node, issued: seq<(string, string)>, calls: nat)
    returns (issued': seq<(string, string)>, calls': nat, count: nat, error: Option<Error>)
    requires node.Valid()
    modifies node.Repr, cache
    ensures node.Valid() && node.Repr == old(node.Repr)
    ensures Walked(Session(cache.View(), issued', calls'), node.Abs(), count, error)
         == Walk(env, cache.config, Session(old(cache.View()), issued, calls), old(node.Abs()))
  {
    ghost var nodes, whole := node.Repr, node.Abs();
    ghost var h: Picture := map m | m in nodes :: Cell(m.content, m.Repr);
    ValidTreeIsHeld(h, node);
    ghost var st, h' := Session(cache.View(), issued, calls), h;
    issued', calls', count, error, h' := ResolveNode(env, cache, node, h, whole, nodes, issued, calls);
    HeldTreeIsValid(h', node, Walk(env, cache.config, st, whole).tree);
  }

  method ResolveTextIn(env: Env, cache: Cache, s: string, issued: seq<(string, string)>, calls: nat)
    returns (issued': seq<(string, string)>, calls': nat, outcome: Outcome)
    modifies cache
    ensures (Session(cache.View(), issued', calls'), outcome)
         == ResolveText(env, cache.config, Session(old(cache.View()), issued, calls), s)
  {
    issued', calls' := issued, calls;
    match env.parse(s) {
      case None => return issued, calls, Untouched;
      case Some(r) =>
        if !env.registered(r.pluginId) { return issued, calls, Halted(UnknownPlugin(r.pluginId, s)); }
        var answer := env.issue(r.pluginId, r.target, calls);
        cache.PerformAll(env.before(calls));
        var fetched, called := cache.GetOrIssue(KeyOf(env, r), answer, env.clock(calls), env.during(calls));
        calls' := calls + 1;
        if called { issued' := issued + [(r.pluginId, r.target)]; }
        match fetched {
          case Err(why) => return issued', calls', Halted(Issuance(s, why));
          case Ok(c) =>
            match PickPart(c, r, s) {
              case Ok(text) => return issued', calls', Replaced(text);
              case Err(e) => return issued', calls', Halted(e);
            }
        }
    }
  }
}
