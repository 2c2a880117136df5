/** How often a credential walk calls an issuer while other tasks use the same
    cache: once per pair, exactly as long as there is room for what everyone
    puts there, nothing expires, and nobody revokes a pair of the document. */
module IssuerCalls {
  import opened Wrappers
  import opened Orders
  import opened Json
  import opened CredentialCache
  import opened CredentialCacheProperties
  import opened CredentialResolver
  import opened CredentialResolverProperties

  // ----- What everyone may do -----

  function PairKey(env: Env, p: (string, string)): CacheKey {
    CacheKey(env.identityHash, p.0, p.1)
  }

  function RefKeys(env: Env, leaves: seq<string>): set<CacheKey> {
    set s | s in leaves && env.parse(s).Some? :: KeyOf(env, env.parse(s).value)
  }

  /** A walk over these leaves can come to request `n`. */
  predicate InWalk(st: Session, leaves: seq<string>, n: nat) {
    st.calls <= n < st.calls + |leaves|
  }

  /** What is inserted at `at` is not gone before `horizon`, by its own lifetime
      or by the cap. */
  predicate Outlasts(config: Config, c: Credential, at: nat, horizon: nat) {
    horizon <= at + 1000 * c.ttlSeconds && horizon <= at + config.maxCacheTtl
  }

  /** The operation uses no clock reading from `horizon` on, and inserts nothing
      that expires before. */
  predicate Mild(config: Config, op: Op, horizon: nat) {
    match op
    case LookupOp(_, now) => now < horizon
    case InsertOp(_, c, now) => Outlasts(config, c, now, horizon)
    case _ => true
  }

  /** Nothing cached during the walk can expire before `horizon`, which no clock
      reading reaches. */
  ghost predicate Lasting(env: Env, config: Config, st: Session, leaves: seq<string>, horizon: nat) {
    && (forall k :: k in st.cache.entries ==> horizon <= st.cache.entries[k].expiresAt)
    && (forall n :: InWalk(st, leaves, n) ==> env.clock(n) < horizon)
    && (forall n, op :: InWalk(st, leaves, n) && op in Others(env, n) ==> Mild(config, op, horizon))
    && (forall key, n, c :: InWalk(st, leaves, n) && Issued(env, n, key, c) ==>
          Outlasts(config, c, env.clock(n), horizon))
  }

  /** No other task revokes a pair of the document. */
  ghost predicate Spared(env: Env, st: Session, leaves: seq<string>) {
    forall n, op, k :: InWalk(st, leaves, n) && op in Others(env, n) && k in RefKeys(env, leaves) ==> !Revokes(op, k)
  }

  /** No other task inserts anything. */
  ghost predicate Alone(env: Env, st: Session, leaves: seq<string>) {
    forall n, op :: InWalk(st, leaves, n) && op in Others(env, n) ==> !op.InsertOp?
  }

  /** No other task inserts under a key of the document. */
  ghost predicate Undisturbed(env: Env, st: Session, leaves: seq<string>) {
    forall n, op :: InWalk(st, leaves, n) && op in Others(env, n) && op.InsertOp? ==> op.key !in RefKeys(env, leaves)
  }

  /** `room` has every key the cache can come to hold. */
  ghost predicate Within(env: Env, st: Session, leaves: seq<string>, room: set<CacheKey>) {
    && st.cache.entries.Keys + RefKeys(env, leaves) <= room
    && forall n, op :: InWalk(st, leaves, n) && op in Others(env, n) && op.InsertOp? ==> op.key in room
  }

  /** Where others insert, a place must stay free: a full cache evicts even for a
      key it holds. */
  ghost predicate Fits(env: Env, config: Config, st: Session, leaves: seq<string>, room: set<CacheKey>) {
    Within(env, st, leaves, room) && |room| <= if Alone(env, st, leaves) then Limit(config) else WorkingRoom(config)
  }

  ghost predicate Calm(env: Env, config: Config, st: Session, leaves: seq<string>, horizon: nat, room: set<CacheKey>) {
    Lasting(env, config, st, leaves, horizon) && Spared(env, st, leaves) && Fits(env, config, st, leaves, room)
  }

  // ----- What then stays cached -----

  /** What a calm walk goes by: the document's keys, all keys, the horizon, and
      whether others insert nothing, or nothing under the document's keys. */
  datatype Terms = Terms(docs: set<CacheKey>, room: set<CacheKey>, horizon: nat, alone: bool, same: bool)

  ghost predicate Ample(config: Config, t: Terms) {
    t.docs <= t.room && |t.room| <= if t.alone then Limit(config) else WorkingRoom(config)
  }

  ghost predicate Allowed(config: Config, t: Terms, op: Op) {
    && Mild(config, op, t.horizon)
    && (op.InsertOp? ==> !t.alone && op.key in t.room && (t.same ==> op.key !in t.docs))
    && forall k :: k in t.docs ==> !Revokes(op, k)
  }

  ghost predicate Steady(t: Terms, es: Entries) {
    es.Keys <= t.room && forall k :: k in es ==> t.horizon <= es[k].expiresAt
  }

  /** The document's keys stay cached, where nobody else inserts them with the
      same credentials. */
  ghost predicate Kept(t: Terms, es: Entries, es': Entries) {
    forall k :: k in es && k in t.docs ==> k in es' && (t.same ==> es'[k].credential == es[k].credential)
  }

  /** No key is new that nobody else inserts. */
  ghost predicate NoneNew(t: Terms, es: Entries, es': Entries) {
    && (t.alone ==> es'.Keys <= es.Keys)
    && (t.same ==> forall k :: k in es' && k in t.docs ==> k in es)
  }

  lemma KeptOn(t: Terms, a: Entries, b: Entries, c: Entries)
    requires Kept(t, a, b) && Kept(t, b, c)
    ensures Kept(t, a, c)
  {
  }

  /** An insertion that fits evicts no other key. */
  lemma InsertionFits(config: Config, es: Entries, room: set<CacheKey>, key: CacheKey)
    requires es.Keys <= room && key in room
    requires |room| <= WorkingRoom(config) || (key !in es && |room| <= Limit(config))
    ensures forall k :: k in es && k != key ==> k in Evict(es, config.maxEntries)
    ensures forall k :: k in Evict(es, config.maxEntries) ==> k in es && Evict(es, config.maxEntries)[k] == es[k]
  {
    EvictMakesRoom(es, config.maxEntries);
    SubsetIsSmaller(es.Keys - {key}, room - {key});
    SubsetIsSmaller(es.Keys, room);
    assert |es.Keys| == |es|;
    if key !in es {
      assert es.Keys - {key} == es.Keys;
    } else if config.maxEntries <= 1 {
      forall k | k in es && k != key ensures false { SubsetIsSmaller({k}, room - {key}); }
    }
  }

  lemma StoringKeeps(config: Config, t: Terms, s: State, key: CacheKey, c: Credential, now: nat)
    requires Ample(config, t) && Steady(t, s.entries) && key in t.room
    requires Outlasts(config, c, now, t.horizon)
    requires t.alone ==> key !in s.entries
    requires t.same ==> key !in s.entries || key !in t.docs
    ensures var es := Apply(config, s, InsertOp(key, c, now)).entries;
            && Steady(t, es) && Kept(t, s.entries, es) && key in es && es[key].credential == c
            && forall k :: k in es && k != key ==> k in s.entries
  {
    InsertionFits(config, s.entries, t.room, key);
  }

  lemma OperationKeeps(config: Config, t: Terms, s: State, op: Op)
    requires Ample(config, t) && Steady(t, s.entries) && Allowed(config, t, op)
    ensures var es := Apply(config, s, op).entries;
            Steady(t, es) && Kept(t, s.entries, es) && NoneNew(t, s.entries, es)
  {
    match op
    case InsertOp(key, c, now) => StoringKeeps(config, t, s, key, c, now);
    case InvalidateOp(key) => assert forall k :: k in t.docs ==> !Revokes(op, k);
    case InvalidatePluginOp(plugin) => assert forall k :: k in t.docs ==> !Revokes(op, k);
    case _ =>
  }

  lemma {:induction false} OperationsKeep(config: Config, t: Terms, s: State, ops: seq<Op>)
    requires Ample(config, t) && Steady(t, s.entries) && forall op :: op in ops ==> Allowed(config, t, op)
    ensures var es := RunFrom(config, s, ops).entries;
            Steady(t, es) && Kept(t, s.entries, es) && NoneNew(t, s.entries, es)
    decreases |ops|
  {
    if ops != [] {
      var s' := Apply(config, s, ops[0]);
      OperationKeeps(config, t, s, ops[0]);
      OperationsKeep(config, t, s', ops[1..]);
      KeptOn(t, s.entries, s'.entries, RunFrom(config, s', ops[1..]).entries);
    }
  }

  lemma LookupKeeps(t: Terms, es: Entries, key: CacheKey, now: nat)
    requires Steady(t, es) && now < t.horizon
    ensures var (es', hit) := Lookup(es, key, now);
            && Steady(t, es') && Kept(t, es, es')
            && (if key in es then key in es' && hit == Some(es'[key].credential) else hit == None && es' == es)
  {
  }

  /** One request: a pair of the document still cached is served from the cache;
      another goes to its issuer once, and is cached if that succeeds. */
  ghost predicate Served(env: Env, t: Terms, now: Session, r: CredRef, now': Session, c: Result<Credential, string>) {
    var key, es, es' := KeyOf(env, r), now.cache.entries, now'.cache.entries;
    && Steady(t, es') && Kept(t, es, es') && now'.calls == now.calls + 1
    && (c.Ok? ==> key in es' && es'[key].credential == c.value)
    && (now'.issued == now.issued || (now'.issued == now.issued + [(r.pluginId, r.target)] && key !in es))
  }

  /** The operations of others and the answers around request `n` are allowed. */
  ghost predicate CalmAt(env: Env, config: Config, t: Terms, n: nat, key: CacheKey) {
    && key in t.docs && env.clock(n) < t.horizon
    && (forall op :: op in Others(env, n) ==> Allowed(config, t, op))
    && (forall c :: Issued(env, n, key, c) ==> Outlasts(config, c, env.clock(n), t.horizon))
  }

  lemma CalmFetch(env: Env, config: Config, t: Terms, now: Session, r: CredRef)
    requires Ample(config, t) && Steady(t, now.cache.entries) && CalmAt(env, config, t, now.calls, KeyOf(env, r))
    ensures var (now', c) := Fetch(env, config, now, r); Served(env, t, now, r, now', c)
  {
    hide RunFrom, Stored, Lookup, Steady, Kept, NoneNew, Ample, Allowed;
    var n, key := now.calls, KeyOf(env, r);
    var found := RunFrom(config, now.cache, env.before(n));
    OperationsKeep(config, t, now.cache, env.before(n));
    LookupKeeps(t, found.entries, key, env.clock(n));
    var (es, hit) := Lookup(found.entries, key, env.clock(n));
    var looked := found.(entries := es);
    KeptOn(t, now.cache.entries, found.entries, es);
    if hit.None? {
      var waited := RunFrom(config, looked, env.during(n));
      OperationsKeep(config, t, looked, env.during(n));
      KeptOn(t, now.cache.entries, es, waited.entries);
      GoneAllAlong(t, now.cache.entries, es, key);
      AnswerKeeps(env, config, t, es, waited, r, n);
      KeptOn(t, now.cache.entries, waited.entries, Fetch(env, config, now, r).0.cache.entries);
    }
  }

  lemma GoneAllAlong(t: Terms, es: Entries, es': Entries, key: CacheKey)
    requires Kept(t, es, es') && key in t.docs && key !in es'
    ensures key !in es
  {
  }

  lemma AnswerKeeps(env: Env, config: Config, t: Terms, es: Entries, s: State, r: CredRef, n: nat)
    requires Ample(config, t) && Steady(t, s.entries) && CalmAt(env, config, t, n, KeyOf(env, r))
    requires NoneNew(t, es, s.entries) && KeyOf(env, r) !in es
    ensures var key, answer := KeyOf(env, r), env.issue(r.pluginId, r.target, n);
            var es' := Stored(config, s, key, answer, env.clock(n)).entries;
            && Steady(t, es') && Kept(t, s.entries, es')
            && (answer.Ok? ==> key in es' && es'[key].credential == answer.value)
  {
    var answer := env.issue(r.pluginId, r.target, n);
    if answer.Ok? {
      assert Issued(env, n, KeyOf(env, r), answer.value);
      StoringKeeps(config, t, s, KeyOf(env, r), answer.value, env.clock(n));
    }
  }

  // ----- One issuer call, and one credential, per pair -----

  /** The issuers called so far: for different pairs, none cached beforehand,
      each cached since unless the walk has failed. */
  ghost predicate Frugal(env: Env, st: Session, w: Walked<seq<string>>) {
    st.issued <= w.session.issued &&
    var asked := w.session.issued[|st.issued|..];
    && Distinct(asked)
    && (forall p :: p in asked ==> PairKey(env, p) !in st.cache.entries)
    && (w.error.None? ==> forall p :: p in asked ==> PairKey(env, p) in w.session.cache.entries)
  }

  /** A settled leaf shows the part it names of the one credential the cache
      now holds for its pair. */
  ghost predicate FromCache(env: Env, es: Entries, s: string, text: string) {
    match env.parse(s)
    case None => text == s
    case Some(r) =>
      var key := CacheKey(env.identityHash, r.pluginId, r.target);
      key in es && Yields(es[key].credential, r, text)
  }

  /** Pairs asked about are the document's. */
  ghost predicate AskedOfDocs(env: Env, t: Terms, st: Session, now: Session) {
    st.issued <= now.issued && forall p :: p in now.issued[|st.issued|..] ==> PairKey(env, p) in t.docs
  }

  ghost predicate CalmRun(env: Env, t: Terms, st: Session, leaves: seq<string>, w: Walked<seq<string>>) {
    && Steady(t, w.session.cache.entries) && Kept(t, st.cache.entries, w.session.cache.entries)
    && st.calls <= w.session.calls <= st.calls + |leaves|
    && Frugal(env, st, w) && AskedOfDocs(env, t, st, w.session) && |w.tree| == |leaves|
    && (w.error.None? && t.same ==> forall i :: 0 <= i < |leaves| ==>
          FromCache(env, w.session.cache.entries, leaves[i], w.tree[i]))
  }

  /** One leaf of a calm walk. */
  ghost predicate CalmStep(env: Env, t: Terms, now: Session, s: string, step: (Session, Outcome)) {
    && Steady(t, step.0.cache.entries) && Kept(t, now.cache.entries, step.0.cache.entries)
    && now.calls <= step.0.calls <= now.calls + 1
    && (step.1.Untouched? ==> env.parse(s).None?)
    && (step.1.Replaced? ==> FromCache(env, step.0.cache.entries, s, step.1.text))
    && (step.0.issued == now.issued || AskedFor(env, t, now, s, step))
  }

  ghost predicate AskedFor(env: Env, t: Terms, now: Session, s: string, step: (Session, Outcome)) {
    env.parse(s).Some? &&
    var r := env.parse(s).value;
    && step.0.issued == now.issued + [(r.pluginId, r.target)]
    && KeyOf(env, r) in t.docs && KeyOf(env, r) !in now.cache.entries
    && (!step.1.Halted? ==> KeyOf(env, r) in step.0.cache.entries)
  }

  lemma CalmLeaf(env: Env, config: Config, t: Terms, now: Session, s: string)
    requires Ample(config, t) && Steady(t, now.cache.entries)
    requires env.parse(s).Some? ==> CalmAt(env, config, t, now.calls, KeyOf(env, env.parse(s).value))
    ensures CalmStep(env, t, now, s, ResolveText(env, config, now, s))
  {
    hide Fetch, Steady, Ample;
    match env.parse(s)
    case None =>
    case Some(r) => if env.registered(r.pluginId) { CalmFetch(env, config, t, now, r); }
  }

  lemma StillFromCache(env: Env, t: Terms, es: Entries, es': Entries, s: string, text: string)
    requires FromCache(env, es, s, text) && Kept(t, es, es') && t.same
    requires env.parse(s).Some? ==> KeyOf(env, env.parse(s).value) in t.docs
    ensures FromCache(env, es', s, text)
  {
  }

  lemma FrugalStep(env: Env, t: Terms, st: Session, before: Walked<seq<string>>, s: string, step: (Session, Outcome))
    requires Frugal(env, st, before) && AskedOfDocs(env, t, st, before.session) && before.error.None?
    requires Kept(t, st.cache.entries, before.session.cache.entries)
    requires Kept(t, before.session.cache.entries, step.0.cache.entries)
    requires step.0.issued == before.session.issued || AskedFor(env, t, before.session, s, step)
    ensures Frugal(env, st, Then(before, s, step)) && AskedOfDocs(env, t, st, step.0)
  {
    var m := |st.issued|;
    var asked, asked' := before.session.issued[m..], step.0.issued[m..];
    if step.0.issued != before.session.issued {
      var r := env.parse(s).value;
      assert asked' == asked + [(r.pluginId, r.target)];
      assert PairKey(env, (r.pluginId, r.target)) == KeyOf(env, r);
    }
  }

  lemma CalmLeafAdded(env: Env, t: Terms, st: Session, before: Walked<seq<string>>, leaves: seq<string>,
                      step: (Session, Outcome))
    requires leaves != [] && before.error.None? && RefKeys(env, leaves) <= t.docs
    requires CalmRun(env, t, st, leaves[..|leaves| - 1], before)
    requires CalmStep(env, t, before.session, leaves[|leaves| - 1], step)
    ensures CalmRun(env, t, st, leaves, Then(before, leaves[|leaves| - 1], step))
  {
    var n := |leaves| - 1;
    FrugalStep(env, t, st, before, leaves[n], step);
    KeptOn(t, st.cache.entries, before.session.cache.entries, step.0.cache.entries);
    if t.same {
      forall i | 0 <= i < n ensures FromCache(env, step.0.cache.entries, leaves[i], before.tree[i]) {
        assert leaves[..n][i] == leaves[i];
        StillFromCache(env, t, before.session.cache.entries, step.0.cache.entries, leaves[i], before.tree[i]);
      }
    }
  }

  /** The terms a calm walk of these leaves goes by. */
  ghost function TermsOf(env: Env, st: Session, leaves: seq<string>, horizon: nat, room: set<CacheKey>): Terms {
    Terms(RefKeys(env, leaves), room, horizon, Alone(env, st, leaves), Undisturbed(env, st, leaves))
  }

  lemma CalmLeafIsCalm(env: Env, config: Config, st: Session, leaves: seq<string>, horizon: nat, room: set<CacheKey>,
                       n: nat, s: string)
    requires Calm(env, config, st, leaves, horizon, room) && InWalk(st, leaves, n)
    requires s in leaves && env.parse(s).Some?
    ensures CalmAt(env, config, TermsOf(env, st, leaves, horizon, room), n, KeyOf(env, env.parse(s).value))
  {
  }

  lemma {:induction false} CalmRunHolds(env: Env, config: Config, st: Session, horizon: nat, room: set<CacheKey>,
                                        leaves: seq<string>, all: seq<string>)
    requires leaves <= all && Calm(env, config, st, all, horizon, room)
    ensures CalmRun(env, TermsOf(env, st, all, horizon, room), st, leaves, LeafRun(env, config, st, leaves))
    decreases |leaves|
  {
    var t := TermsOf(env, st, all, horizon, room);
    if leaves != [] {
      var n := |leaves| - 1;
      var before := LeafRun(env, config, st, leaves[..n]);
      CalmRunHolds(env, config, st, horizon, room, leaves[..n], all);
      if before.error.None? {
        assert leaves[n] == all[n];
        if env.parse(leaves[n]).Some? {
          CalmLeafIsCalm(env, config, st, all, horizon, room, before.session.calls, leaves[n]);
        }
        CalmLeaf(env, config, t, before.session, leaves[n]);
        CalmLeafAdded(env, t, st, before, leaves, ResolveText(env, config, before.session, leaves[n]));
      }
    }
  }

  /** Main result on issuer calls: in a walk during which nothing cached expires,
      no other task revokes a pair of the document and everything fits, whether
      or not it fails, each issuer is called at most once per (plugin, target)
      pair, and for no pair already cached; if it succeeds and no other task
      inserts such a pair, every leaf of a pair shows its one credential. */
  lemma OneIssuePerPair(env: Env, config: Config, st: Session, j: Value, horizon: nat, room: set<CacheKey>)
    requires Calm(env, config, st, Leaves(j), horizon, room)
    ensures var w := Walk(env, config, st, j);
            && Frugal(env, st, Walked(w.session, Leaves(w.tree), w.count, w.error))
            && |Leaves(w.tree)| == |Leaves(j)|
            && (w.error.None? && Undisturbed(env, st, Leaves(j)) ==> forall i :: 0 <= i < |Leaves(j)| ==>
                  FromCache(env, w.session.cache.entries, Leaves(j)[i], Leaves(w.tree)[i]))
  {
    WalkIsLeafRun(env, config, st, j);
    CalmRunHolds(env, config, st, horizon, room, Leaves(j), Leaves(j));
  }
}
