/** What a credential walk does to a document: it acts on the leaves in
    document order, stops at the first failure, and shows only credentials that
    were cached, issued, or inserted by another task for the very pair. */
module CredentialResolverProperties {
  import opened Wrappers
  import opened Json
  import opened CredentialCache
  import opened CredentialResolver
  import opened CredentialCacheProperties

  // ----- The walk as one pass over the leaves -----

  /** The leaves one after another, until one fails. */
  ghost function LeafRun(env: Env, config: Config, st: Session, leaves: seq<string>): Walked<seq<string>>
    decreases |leaves|
  {
    if leaves == [] then Walked(st, [], 0, None)
    else
      var w, s := LeafRun(env, config, st, leaves[..|leaves| - 1]), leaves[|leaves| - 1];
      if w.error.Some? then w.(tree := w.tree + [s]) else Then(w, s, ResolveText(env, config, w.session, s))
  }

  function Then(w: Walked<seq<string>>, s: string, step: (Session, Outcome)): Walked<seq<string>> {
    match step.1
    case Untouched => Walked(step.0, w.tree + [s], w.count, None)
    case Replaced(text) => Walked(step.0, w.tree + [text], w.count + 1, None)
    case Halted(e) => Walked(step.0, w.tree + [s], w.count, Some(e))
  }

  /** Running `b` after `a`. */
  ghost function After(env: Env, config: Config, a: Walked<seq<string>>, b: seq<string>): Walked<seq<string>> {
    if a.error.Some? then a.(tree := a.tree + b)
    else Onto(a, LeafRun(env, config, a.session, b))
  }

  function Onto(a: Walked<seq<string>>, w: Walked<seq<string>>): Walked<seq<string>> {
    Walked(w.session, a.tree + w.tree, a.count + w.count, w.error)
  }

  lemma ThenOnto(a: Walked<seq<string>>, w: Walked<seq<string>>, s: string, step: (Session, Outcome))
    ensures Then(Onto(a, w), s, step) == Onto(a, Then(w, s, step))
  {
    assert forall t :: t == Then(w, s, step).tree[|w.tree|] ==> a.tree + w.tree + [t] == a.tree + (w.tree + [t]);
  }

  lemma {:induction false} LeafRunAppend(env: Env, config: Config, st: Session, a: seq<string>, b: seq<string>)
    ensures LeafRun(env, config, st, a + b) == After(env, config, LeafRun(env, config, st, a), b)
    decreases |b|
  {
    var w := LeafRun(env, config, st, a);
    if b == [] {
      assert a + b == a && w.tree + b == w.tree;
    } else {
      var n := |b| - 1;
      assert (a + b)[..|a + b| - 1] == a + b[..n];
      LeafRunAppend(env, config, st, a, b[..n]);
      assert w.tree + b == w.tree + b[..n] + [b[n]];
      var r := LeafRun(env, config, w.session, b[..n]);
      ThenOnto(w, r, b[n], ResolveText(env, config, r.session, b[n]));
      assert w.tree + r.tree + [b[n]] == w.tree + (r.tree + [b[n]]);
    }
  }

  lemma LeafRunOne(env: Env, config: Config, st: Session, s: string)
    ensures Agrees(Str(s), Walk(env, config, st, Str(s)), LeafRun(env, config, st, [s]))
  {
    assert [s][..0] == [];
    var step := ResolveText(env, config, st, s);
    assert LeafRun(env, config, st, [s]) == Then(Walked(st, [], 0, None), s, step);
    var text := if step.1.Replaced? then step.1.text else s;
    assert [] + [text] == [text] == Leaves(Str(text));
  }

  ghost predicate Agrees(j: Value, w: Walked<Value>, r: Walked<seq<string>>) {
    SameShape(j, w.tree) && Walked(w.session, Leaves(w.tree), w.count, w.error) == r
  }

  /** A walk keeps every key, shape and order, and does to the leaves, the
      cache, the issuers and the count exactly what one pass over the leaves in
      document order does. */
  lemma {:induction false} WalkIsLeafRun(env: Env, config: Config, st: Session, j: Value)
    ensures Agrees(j, Walk(env, config, st, j), LeafRun(env, config, st, Leaves(j)))
    decreases j
  {
    match j
    case Str(s) => LeafRunOne(env, config, st, s);
    case Arr(items) => WalkAllIsLeafRun(env, config, st, items);
    case Obj(_, items) => WalkAllIsLeafRun(env, config, st, items);
    case _ =>
  }

  ghost predicate AgreesAll(items: seq<Value>, w: Walked<seq<Value>>, r: Walked<seq<string>>) {
    && |w.tree| == |items|
    && (forall i :: 0 <= i < |items| ==> SameShape(items[i], w.tree[i]))
    && Walked(w.session, LeavesAll(w.tree), w.count, w.error) == r
  }

  lemma {:induction false} WalkAllIsLeafRun(env: Env, config: Config, st: Session, items: seq<Value>)
    ensures AgreesAll(items, WalkAll(env, config, st, items), LeafRun(env, config, st, LeavesAll(items)))
    decreases items
  {
    if items != [] {
      var n := |items| - 1;
      var w, r := WalkAll(env, config, st, items[..n]), LeafRun(env, config, st, LeavesAll(items[..n]));
      WalkAllIsLeafRun(env, config, st, items[..n]);
      LeafRunAppend(env, config, st, LeavesAll(items[..n]), Leaves(items[n]));
      if w.error.Some? {
        SameShapeReflexive(items[n]);
        ItemAdded(items, w, r, items[n]);
      } else {
        WalkIsLeafRun(env, config, w.session, items[n]);
        ItemAdded(items, w, r, Walk(env, config, w.session, items[n]).tree);
      }
    }
  }

  lemma ItemAdded(items: seq<Value>, w: Walked<seq<Value>>, r: Walked<seq<string>>, v: Value)
    requires items != [] && AgreesAll(items[..|items| - 1], w, r) && SameShape(items[|items| - 1], v)
    ensures |w.tree + [v]| == |items|
    ensures forall i :: 0 <= i < |items| ==> SameShape(items[i], (w.tree + [v])[i])
    ensures LeavesAll(w.tree + [v]) == r.tree + Leaves(v)
  {
    assert (w.tree + [v])[..|w.tree|] == w.tree;
    forall i | 0 <= i < |items| ensures SameShape(items[i], (w.tree + [v])[i]) {
      if i < |w.tree| { assert items[..|items| - 1][i] == items[i]; }
    }
  }

  lemma {:induction false} SameShapeReflexive(j: Value)
    ensures SameShape(j, j)
    decreases j
  {
    if j.Arr? || j.Obj? {
      forall i | 0 <= i < |j.items| ensures SameShape(j.items[i], j.items[i]) { SameShapeReflexive(j.items[i]); }
    }
  }

  // ----- What the substituted text is, and why a walk stops -----

  /** Credential `c` was cached for this key when the walk began, or the issuer
      gave it during the walk for exactly this plugin and target, or another
      task inserted it during the walk under exactly this key. */
  ghost predicate Sourced(env: Env, st: Session, now: Session, key: CacheKey, c: Credential) {
    || (key in st.cache.entries && st.cache.entries[key].credential == c)
    || (key.identityHash == env.identityHash && exists n :: st.calls <= n < now.calls && Issued(env, n, key, c))
    || exists n :: st.calls <= n < now.calls && Planted(env, n, key, c)
  }

  /** What other tasks do to the cache while request `n` is served. */
  function Others(env: Env, n: nat): seq<Op> {
    env.before(n) + env.during(n)
  }

  ghost predicate Planted(env: Env, n: nat, key: CacheKey, c: Credential) {
    exists op :: op in Others(env, n) && Inserts(op, key) && op.credential == c
  }

  ghost predicate Issued(env: Env, n: nat, key: CacheKey, c: Credential) {
    env.issue(key.pluginId, key.target, n) == Ok(c)
  }

  /** The text this credential gives a reference: the part the reference names,
      or the main value where it names none. */
  ghost predicate Yields(c: Credential, r: CredRef, text: string) {
    && (r.part.Some? ==> r.part.value in c.parts && text == c.parts[r.part.value])
    && (r.part.None? ==> c.value == Some(text))
  }

  /** A plain leaf keeps its text; a reference becomes what a credential
      genuinely held for its pair gives it. */
  ghost predicate Settled(env: Env, st: Session, now: Session, s: string, text: string) {
    match env.parse(s)
    case None => text == s
    case Some(r) =>
      var key := CacheKey(env.identityHash, r.pluginId, r.target);
      env.registered(r.pluginId) && exists c :: Sourced(env, st, now, key, c) && Yields(c, r, text)
  }

  /** The error names this leaf and is true of it. */
  ghost predicate Explains(env: Env, st: Session, now: Session, s: string, e: Error) {
    env.parse(s).Some? &&
    var r := env.parse(s).value;
    var key := CacheKey(env.identityHash, r.pluginId, r.target);
    match e
    case UnknownPlugin(plugin, uri) => plugin == r.pluginId && uri == s && !env.registered(plugin)
    case Issuance(uri, why) =>
      uri == s && env.registered(r.pluginId) && exists n :: st.calls <= n < now.calls && Refused(env, n, r, why)
    case UnknownPart(uri, part, available) =>
      uri == s && r.part == Some(part) && part !in available &&
      exists c :: Sourced(env, st, now, key, c) && c.parts.Keys == available
    case PartRequired(uri) =>
      uri == s && r.part == None && exists c :: Sourced(env, st, now, key, c) && c.value.None?
  }

  ghost predicate Refused(env: Env, n: nat, r: CredRef, why: string) {
    env.issue(r.pluginId, r.target, n) == Err(why)
  }

  ghost predicate AllSourced(env: Env, st: Session, now: Session) {
    st.calls <= now.calls && SourcedIn(env, st, now, now.cache.entries)
  }

  ghost predicate SourcedIn(env: Env, st: Session, now: Session, es: Entries) {
    forall k :: k in es ==> Sourced(env, st, now, k, es[k].credential)
  }

  lemma OthersAreSourced(env: Env, config: Config, st: Session, now: Session, s: State, ops: seq<Op>, n: nat)
    requires SourcedIn(env, st, now, s.entries) && st.calls <= n < now.calls
             && forall op :: op in ops ==> op in Others(env, n)
    ensures SourcedIn(env, st, now, RunFrom(config, s, ops).entries)
  {
    var es := RunFrom(config, s, ops).entries;
    forall k | k in es ensures Sourced(env, st, now, k, es[k].credential) {
      EntriesComeFrom(config, s, ops, k);
      if op :| op in ops && Inserts(op, k) && op.credential == es[k].credential {
        assert Planted(env, n, k, es[k].credential);
      }
    }
  }

  lemma LookupIsSourced(env: Env, st: Session, now: Session, es: Entries, key: CacheKey, at: nat)
    requires SourcedIn(env, st, now, es)
    ensures var (es', hit) := Lookup(es, key, at);
            SourcedIn(env, st, now, es') && (hit.Some? ==> Sourced(env, st, now, key, hit.value))
  {
    var es' := Lookup(es, key, at).0;
    assert forall k :: k in es' ==> k in es && es'[k].credential == es[k].credential;
  }

  lemma AnswerIsSourced(env: Env, config: Config, st: Session, now: Session, s: State, r: CredRef, n: nat, at: nat)
    requires SourcedIn(env, st, now, s.entries) && st.calls <= n < now.calls
    ensures var answer := env.issue(r.pluginId, r.target, n);
            && SourcedIn(env, st, now, Stored(config, s, KeyOf(env, r), answer, at).entries)
            && (answer.Ok? ==> Sourced(env, st, now, KeyOf(env, r), answer.value))
  {
    var answer := env.issue(r.pluginId, r.target, n);
    if answer.Ok? {
      assert Issued(env, n, KeyOf(env, r), answer.value);
      EvictMakesRoom(s.entries, config.maxEntries);
    }
  }

  lemma SourcedLater(env: Env, st: Session, now: Session, now': Session, es: Entries)
    requires SourcedIn(env, st, now, es) && now.calls <= now'.calls
    ensures SourcedIn(env, st, now', es)
  {
    forall k | k in es ensures Sourced(env, st, now', k, es[k].credential) {
      assert Sourced(env, st, now, k, es[k].credential);
    }
  }

  lemma FetchIsSourced(env: Env, config: Config, st: Session, now: Session, r: CredRef)
    requires AllSourced(env, st, now)
    ensures var (now', c) := Fetch(env, config, now, r);
            && AllSourced(env, st, now') && now.calls < now'.calls
            && (c.Ok? ==> Sourced(env, st, now', KeyOf(env, r), c.value))
            && (c.Err? ==> Refused(env, now.calls, r, c.error))
  {
    hide Sourced, RunFrom, Stored;
    var now', n, at, key := Fetch(env, config, now, r).0, now.calls, env.clock(now.calls), KeyOf(env, r);
    SourcedLater(env, st, now, now', now.cache.entries);
    OthersAreSourced(env, config, st, now', now.cache, env.before(n), n);
    var found := RunFrom(config, now.cache, env.before(n));
    LookupIsSourced(env, st, now', found.entries, key, at);
    var looked := found.(entries := Lookup(found.entries, key, at).0);
    OthersAreSourced(env, config, st, now', looked, env.during(n), n);
    AnswerIsSourced(env, config, st, now', RunFrom(config, looked, env.during(n)), r, n, at);
  }

  function IsRef(env: Env): string -> bool {
    s => env.parse(s).Some?
  }

  /** The first `k` leaves are settled and counted, the others are as they
      were, and unless all are settled the error explains leaf `k`. */
  ghost predicate SettledUpTo(env: Env, st: Session, leaves: seq<string>, k: nat, w: Walked<seq<string>>) {
    && |w.tree| == |leaves| && k <= |leaves|
    && (forall i :: 0 <= i < k ==> Settled(env, st, w.session, leaves[i], w.tree[i]))
    && (forall i :: k <= i < |leaves| ==> w.tree[i] == leaves[i])
    && w.count == Count(IsRef(env), leaves[..k])
    && if w.error.None? then k == |leaves| else k < |leaves| && Explains(env, st, w.session, leaves[k], w.error.value)
  }

  /** One leaf, met in a session all of whose credentials are accounted for. */
  lemma TextIsSettled(env: Env, config: Config, st: Session, now: Session, s: string)
    requires AllSourced(env, st, now)
    ensures var (now', o) := ResolveText(env, config, now, s);
            && AllSourced(env, st, now') && now.calls <= now'.calls
            && (o.Untouched? ==> env.parse(s).None?)
            && (o.Replaced? ==> env.parse(s).Some? && Settled(env, st, now', s, o.text))
            && (o.Halted? ==> Explains(env, st, now', s, o.error))
  {
    match env.parse(s)
    case None =>
    case Some(r) =>
      if env.registered(r.pluginId) { FetchIsSourced(env, config, st, now, r); }
  }

  lemma StaysSettled(env: Env, st: Session, now: Session, now': Session, s: string, text: string)
    requires Settled(env, st, now, s, text) && now.calls <= now'.calls
    ensures Settled(env, st, now', s, text)
  {
    match env.parse(s)
    case None =>
    case Some(r) =>
      var c :| Sourced(env, st, now, KeyOf(env, r), c) && Yields(c, r, text);
      assert Sourced(env, st, now', KeyOf(env, r), c);
  }

  lemma {:induction false} RunSettles(env: Env, config: Config, st: Session, leaves: seq<string>) returns (k: nat)
    ensures var w := LeafRun(env, config, st, leaves);
            AllSourced(env, st, w.session) && SettledUpTo(env, st, leaves, k, w)
    decreases |leaves|
  {
    if leaves == [] {
      k := 0;
    } else {
      var n := |leaves| - 1;
      var before := LeafRun(env, config, st, leaves[..n]);
      k := RunSettles(env, config, st, leaves[..n]);
      if before.error.Some? {
        assert leaves[..n][..k] == leaves[..k];
      } else {
        TextIsSettled(env, config, st, before.session, leaves[n]);
        k := LeafAdded(env, st, leaves, before, ResolveText(env, config, before.session, leaves[n]));
      }
    }
  }

  lemma LeafAdded(env: Env, st: Session, leaves: seq<string>, before: Walked<seq<string>>, step: (Session, Outcome))
    returns (k: nat)
    requires leaves != []
    requires var n := |leaves| - 1;
      && before.error.None? && SettledUpTo(env, st, leaves[..n], n, before) && before.session.calls <= step.0.calls
      && (step.1.Untouched? ==> env.parse(leaves[n]).None?)
      && (step.1.Replaced? ==> env.parse(leaves[n]).Some? && Settled(env, st, step.0, leaves[n], step.1.text))
      && (step.1.Halted? ==> Explains(env, st, step.0, leaves[n], step.1.error))
    ensures SettledUpTo(env, st, leaves, k, Then(before, leaves[|leaves| - 1], step))
  {
    var n := |leaves| - 1;
    forall i | 0 <= i < n ensures Settled(env, st, step.0, leaves[i], before.tree[i]) {
      StaysSettled(env, st, before.session, step.0, leaves[..n][i], before.tree[i]);
    }
    assert leaves[..n][..n] == leaves[..n] && leaves[..n + 1] == leaves;
    k := if step.1.Halted? then n else n + 1;
  }

  /** Main result on a document: shape, keys and order are kept; there is a
      first failing leaf, or none. Every leaf before it is settled, it and
      every later leaf keep their text, the count is the number of references
      before it, and the error returned is true of that leaf. */
  lemma WalkSubstitutesUpToFirstFailure(env: Env, config: Config, st: Session, j: Value) returns (k: nat)
    ensures var w := Walk(env, config, st, j);
            && SameShape(j, w.tree)
            && SettledUpTo(env, st, Leaves(j), k, Walked(w.session, Leaves(w.tree), w.count, w.error))
  {
    WalkIsLeafRun(env, config, st, j);
    k := RunSettles(env, config, st, Leaves(j));
  }

  /** The third source is real: what another task inserts just before a lookup is
      shown, and the issuer, which may refuse, is not asked. */
  lemma PlantedIsShown(env: Env, config: Config, st: Session, s: string, r: CredRef,
                       c: Credential, at: nat, text: string)
    requires env.parse(s) == Some(r) && env.registered(r.pluginId) && Yields(c, r, text)
    requires env.before(st.calls) == [InsertOp(CacheKey(env.identityHash, r.pluginId, r.target), c, at)]
    requires env.clock(st.calls) < at + 1000 * c.ttlSeconds && env.clock(st.calls) < at + config.maxCacheTtl
    ensures var (now, o) := ResolveText(env, config, st, s); o == Replaced(text) && now.issued == st.issued
  {
    var op := InsertOp(KeyOf(env, r), c, at);
    assert RunFrom(config, st.cache, [op]) == RunFrom(config, Apply(config, st.cache, op), []);
  }

  /** What another task inserts under another key while the issuer is awaited
      stays beside the issuer's answer, as long as there is room for both. */
  lemma PlantedMeanwhileStays(env: Env, config: Config, st: Session, r: CredRef, k: CacheKey, c: Credential, at: nat)
    requires env.before(st.calls) == [] && env.during(st.calls) == [InsertOp(k, c, at)]
    requires var key := CacheKey(env.identityHash, r.pluginId, r.target);
             k != key && key !in st.cache.entries && |st.cache.entries| + 1 < config.maxEntries
    requires env.issue(r.pluginId, r.target, st.calls).Ok?
    ensures var es := Fetch(env, config, st, r).0.cache.entries;
            var key := CacheKey(env.identityHash, r.pluginId, r.target);
            && k in es && es[k].credential == c
            && key in es && es[key].credential == env.issue(r.pluginId, r.target, st.calls).value
  {
    var op := InsertOp(k, c, at);
    var planted := Apply(config, st.cache, op);
    assert RunFrom(config, st.cache, [op]) == RunFrom(config, planted, []);
    assert Evict(st.cache.entries, config.maxEntries) == st.cache.entries;
    assert planted.entries.Keys == st.cache.entries.Keys + {k};
    assert Evict(planted.entries, config.maxEntries) == planted.entries;
  }
}
