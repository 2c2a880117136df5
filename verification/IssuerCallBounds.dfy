/** How far the one-call-per-pair result goes: the exact room, span of time and
    foreign operations it holds for, whatever the reference syntax. */
module IssuerCallBounds {
  import opened Wrappers
  import opened Orders
  import opened Json
  import opened CredentialCache
  import opened CredentialCacheProperties
  import opened CredentialResolver
  import opened CredentialResolverProperties
  import opened IssuerCalls

  type Parser = string -> Option<CredRef>

  const FRESH := Session(INITIAL, [], 0)

  /** From an empty cache the walk asks no issuer twice for one pair. */
  ghost predicate FrugalWalk(env: Env, config: Config, j: Value) {
    var w := Walk(env, config, FRESH, j);
    Frugal(env, FRESH, Walked(w.session, Leaves(w.tree), w.count, w.error))
  }

  lemma CalmWalkIsFrugal(env: Env, config: Config, j: Value, horizon: nat, room: set<CacheKey>)
    requires Calm(env, config, FRESH, Leaves(j), horizon, room)
    ensures FrugalWalk(env, config, j)
  {
    OneIssuePerPair(env, config, FRESH, j, horizon, room);
  }

  // ----- Issuers that always answer -----

  /** A credential that has every part these references name. */
  function Answer(parse: Parser, names: seq<string>, ttl: nat): Credential {
    Credential(Some("v"),
               map s | s in names && parse(s).Some? && parse(s).value.part.Some? :: parse(s).value.part.value := "v",
               ttl)
  }

  function Obliging(parse: Parser, names: seq<string>, ttl: nat, clock: nat -> nat, hash: string,
                    before: nat -> seq<Op>): Env
  {
    Env(parse, (p: string) => true, (p: string, t: string, n: nat) => Ok(Answer(parse, names, ttl)), clock, hash,
        before, (n: nat) => [])
  }

  function Nobody(): nat -> seq<Op> {
    (n: nat) => []
  }

  function Zero(): nat -> nat {
    (n: nat) => 0
  }

  function PairOf(parse: Parser, s: string): (string, string)
    requires parse(s).Some?
  {
    (parse(s).value.pluginId, parse(s).value.target)
  }

  /** References to as many different pairs. */
  ghost predicate Nameable(parse: Parser, names: seq<string>) {
    && (forall s :: s in names ==> parse(s).Some?)
    && (forall i, j :: 0 <= i < j < |names| ==> PairOf(parse, names[i]) != PairOf(parse, names[j]))
  }

  /** Each of these leaves is a reference that `c` serves, and every issuer
      answers `c`. */
  ghost predicate Serves(env: Env, c: Credential, leaves: seq<string>) {
    && (forall s :: s in leaves ==> env.parse(s).Some? && PickPart(c, env.parse(s).value, s).Ok?)
    && (forall p :: env.registered(p)) && (forall p, t, n :: env.issue(p, t, n) == Ok(c))
  }

  lemma ObligingServes(parse: Parser, names: seq<string>, ttl: nat, clock: nat -> nat, hash: string,
                       before: nat -> seq<Op>)
    requires forall s :: s in names ==> parse(s).Some?
    ensures Serves(Obliging(parse, names, ttl, clock, hash, before), Answer(parse, names, ttl), names)
  {
  }

  // ----- A walk alone, over references that are all served -----

  /** Only pairs asked about are cached, no more than fit. */
  ghost predicate Asked(env: Env, config: Config, c: Credential, now: Session) {
    && |now.cache.entries| <= Limit(config)
    && forall k :: k in now.cache.entries ==>
         && k.identityHash == env.identityHash && (k.pluginId, k.target) in now.issued
         && now.cache.entries[k].credential == c
  }

  predicate QuietAt(env: Env, n: nat) {
    env.before(n) == [] && env.during(n) == []
  }

  ghost predicate Answers(env: Env, config: Config, c: Credential, now: Session, s: string, step: (Session, Outcome))
    requires env.parse(s).Some?
  {
    var p := PairOf(env.parse, s);
    && step.1.Replaced? && Asked(env, config, c, step.0) && step.0.calls == now.calls + 1
    && now.issued <= step.0.issued && p in step.0.issued
    && (PairKey(env, p) !in now.cache.entries ==> step.0.issued == now.issued + [p])
  }

  /** A request no other task interferes with. */
  lemma QuietFetch(env: Env, config: Config, now: Session, r: CredRef)
    requires QuietAt(env, now.calls)
    ensures var key, n, at := KeyOf(env, r), now.calls, env.clock(now.calls);
            var (es, hit) := Lookup(now.cache.entries, key, at);
            var looked, answer := now.cache.(entries := es), env.issue(r.pluginId, r.target, n);
            Fetch(env, config, now, r)
            == if hit.Some? then (Session(looked, now.issued, n + 1), Ok(hit.value))
               else (Session(Stored(config, looked, key, answer, at),
                             now.issued + [(r.pluginId, r.target)], n + 1), answer)
  {
    assert forall s :: RunFrom(config, s, []) == s;
  }

  lemma LookupStaysAsked(env: Env, config: Config, c: Credential, now: Session, key: CacheKey, at: nat, calls: nat)
    requires Asked(env, config, c, now)
    ensures Asked(env, config, c, Session(now.cache.(entries := Lookup(now.cache.entries, key, at).0),
                                     now.issued, calls))
  {
    OperationKeepsLimit(config, now.cache, LookupOp(key, at));
  }

  lemma StoringStaysAsked(env: Env, config: Config, c: Credential, now: Session, key: CacheKey, at: nat)
    requires Asked(env, config, c, now) && key.identityHash == env.identityHash
    ensures Asked(env, config, c, Session(Apply(config, now.cache, InsertOp(key, c, at)),
                                       now.issued + [(key.pluginId, key.target)], now.calls))
  {
    OperationKeepsLimit(config, now.cache, InsertOp(key, c, at));
    EvictMakesRoom(now.cache.entries, config.maxEntries);
  }

  lemma FetchStaysAsked(env: Env, config: Config, c: Credential, now: Session, r: CredRef)
    requires Asked(env, config, c, now) && QuietAt(env, now.calls)
             && env.issue(r.pluginId, r.target, now.calls) == Ok(c)
    ensures var (now', got) := Fetch(env, config, now, r);
            && Asked(env, config, c, now') && got == Ok(c) && now'.calls == now.calls + 1
            && now.issued <= now'.issued && (r.pluginId, r.target) in now'.issued
            && (KeyOf(env, r) !in now.cache.entries ==> now'.issued == now.issued + [(r.pluginId, r.target)])
  {
    hide Insert;
    var key, at := KeyOf(env, r), env.clock(now.calls);
    QuietFetch(env, config, now, r);
    LookupStaysAsked(env, config, c, now, key, at, now.calls + 1);
    assert Lookup(now.cache.entries, key, at).1.Some? ==> key in now.cache.entries;
    var looked := Session(now.cache.(entries := Lookup(now.cache.entries, key, at).0), now.issued, now.calls + 1);
    StoringStaysAsked(env, config, c, looked, key, at);
  }

  lemma AskOne(env: Env, config: Config, c: Credential, now: Session, s: string)
    requires Asked(env, config, c, now) && Serves(env, c, [s]) && QuietAt(env, now.calls)
    ensures env.parse(s).Some? && Answers(env, config, c, now, s, ResolveText(env, config, now, s))
  {
    hide Fetch, Asked;
    assert s in [s];
    FetchStaysAsked(env, config, c, now, env.parse(s).value);
  }

  ghost predicate AllAsked(env: Env, config: Config, c: Credential, leaves: seq<string>, w: Walked<seq<string>>) {
    && w.error.None? && Asked(env, config, c, w.session) && w.session.calls == |leaves|
    && forall s :: s in leaves && env.parse(s).Some? ==> PairOf(env.parse, s) in w.session.issued
  }

  lemma {:induction false} AskAll(env: Env, config: Config, c: Credential, leaves: seq<string>)
    requires Serves(env, c, leaves) && forall n :: 0 <= n < |leaves| ==> QuietAt(env, n)
    ensures AllAsked(env, config, c, leaves, LeafRun(env, config, FRESH, leaves))
    decreases |leaves|
  {
    if leaves != [] {
      var n := |leaves| - 1;
      var before := LeafRun(env, config, FRESH, leaves[..n]);
      assert leaves == leaves[..n] + [leaves[n]];
      AskAll(env, config, c, leaves[..n]);
      AskOne(env, config, c, before.session, leaves[n]);
      AskedMore(env, config, c, leaves[..n], leaves[n], before, ResolveText(env, config, before.session, leaves[n]));
    }
  }

  lemma AskedMore(env: Env, config: Config, c: Credential, leaves: seq<string>, s: string, w: Walked<seq<string>>,
                  step: (Session, Outcome))
    requires AllAsked(env, config, c, leaves, w) && env.parse(s).Some? && Answers(env, config, c, w.session, s, step)
    ensures AllAsked(env, config, c, leaves + [s], Then(w, s, step))
  {
  }

  // ----- Counting pairs -----

  function Targets(parse: Parser, hash: string, names: seq<string>): set<CacheKey> {
    set s | s in names && parse(s).Some? :: CacheKey(hash, parse(s).value.pluginId, parse(s).value.target)
  }

  lemma TargetAdded(parse: Parser, hash: string, names: seq<string>, s: string)
    requires parse(s).Some?
    ensures Targets(parse, hash, names + [s])
         == Targets(parse, hash, names) + {CacheKey(hash, parse(s).value.pluginId, parse(s).value.target)}
  {
  }

  lemma {:induction false} TargetsDiffer(parse: Parser, hash: string, names: seq<string>)
    requires Nameable(parse, names)
    ensures |Targets(parse, hash, names)| == |names|
    decreases |names|
  {
    if names == [] {
      assert Targets(parse, hash, names) == {};
    } else {
      var n := |names| - 1;
      var init, s := names[..n], names[n];
      TargetsDiffer(parse, hash, init);
      assert names == init + [s];
      TargetAdded(parse, hash, init, s);
      assert forall i :: 0 <= i < n ==> PairOf(parse, names[i]) != PairOf(parse, s);
      assert CacheKey(hash, parse(s).value.pluginId, parse(s).value.target) !in Targets(parse, hash, init);
    }
  }

  lemma RefKeysAreTargets(env: Env, names: seq<string>)
    ensures RefKeys(env, names) == Targets(env.parse, env.identityHash, names)
  {
  }

  function Texts(leaves: seq<string>): seq<Value> {
    seq(|leaves|, i requires 0 <= i < |leaves| => Str(leaves[i]))
  }

  lemma {:induction false} FlatDocument(leaves: seq<string>)
    ensures LeavesAll(Texts(leaves)) == leaves
    decreases |leaves|
  {
    if leaves != [] {
      var n := |leaves| - 1;
      FlatDocument(leaves[..n]);
      assert Texts(leaves)[..n] == Texts(leaves[..n]);
    }
  }

  lemma RepeatIsNotDistinct<T>(s: seq<T>, x: T)
    requires x in s
    ensures !Distinct(s + [x])
  {
    var i :| 0 <= i < |s| && s[i] == x;
    assert (s + [x])[i] == (s + [x])[|s|];
  }

  /** Asking again for a pair asked about before makes a walk not frugal. */
  lemma AskedTwice(env: Env, config: Config, all: seq<string>, s: string)
    requires env.parse(s).Some?
    requires var before := LeafRun(env, config, FRESH, all);
             && before.error.None? && PairOf(env.parse, s) in before.session.issued
             && ResolveText(env, config, before.session, s).0.issued
                == before.session.issued + [PairOf(env.parse, s)]
    ensures !FrugalWalk(env, config, Arr(Texts(all + [s])))
  {
    var leaves, before := all + [s], LeafRun(env, config, FRESH, all);
    FlatDocument(leaves);
    WalkIsLeafRun(env, config, FRESH, Arr(Texts(leaves)));
    assert leaves[..|all|] == all;
    var asked := LeafRun(env, config, FRESH, leaves).session.issued;
    assert asked[0..] == asked;
    RepeatIsNotDistinct(before.session.issued, PairOf(env.parse, s));
  }

  // ----- Exactly how much room -----

  /** Whatever the issuers answer and others do, as long as nothing expires and
      nobody revokes a pair of the document: with at most `n` keys in play, others
      inserting nothing if `alone`, no walk asks twice. */
  ghost predicate FrugalUpTo(config: Config, parse: Parser, n: nat, alone: bool) {
    forall env: Env, j: Value, horizon: nat, room: set<CacheKey> ::
      env.parse == parse && Lasting(env, config, FRESH, Leaves(j), horizon) && Spared(env, FRESH, Leaves(j))
      && Within(env, FRESH, Leaves(j), room) && |room| <= n && (alone ==> Alone(env, FRESH, Leaves(j))) ==>
        FrugalWalk(env, config, j)
  }

  /** A walk that asks twice although nothing expires and nobody revokes. */
  ghost predicate Spoils(env: Env, config: Config, leaves: seq<string>, room: set<CacheKey>) {
    && Lasting(env, config, FRESH, leaves, 1) && Spared(env, FRESH, leaves) && Within(env, FRESH, leaves, room)
    && !FrugalWalk(env, config, Arr(Texts(leaves)))
  }

  lemma SpoiledMeansNotFrugal(env: Env, config: Config, leaves: seq<string>, room: set<CacheKey>, n: nat, alone: bool)
    requires Spoils(env, config, leaves, room) && |room| <= n && (alone ==> Alone(env, FRESH, leaves))
    ensures !FrugalUpTo(config, env.parse, n, alone)
  {
    FlatDocument(leaves);
    assert Leaves(Arr(Texts(leaves))) == leaves;
  }

  /** Some pair asked about is no longer cached where more were than fit. */
  lemma {:induction false} SomePairIsGone(env: Env, config: Config, c: Credential, names: seq<string>)
    returns (s: string)
    requires Nameable(env.parse, names) && |names| > Limit(config)
    requires AllAsked(env, config, c, names, LeafRun(env, config, FRESH, names))
    ensures s in names && env.parse(s).Some?
    ensures PairKey(env, PairOf(env.parse, s)) !in LeafRun(env, config, FRESH, names).session.cache.entries
  {
    var es := LeafRun(env, config, FRESH, names).session.cache.entries;
    var keys := Targets(env.parse, env.identityHash, names);
    TargetsDiffer(env.parse, env.identityHash, names);
    if keys <= es.Keys { SubsetIsSmaller(keys, es.Keys); }
    var key :| key in keys && key !in es.Keys;
    s :| s in names && env.parse(s).Some?
      && CacheKey(env.identityHash, env.parse(s).value.pluginId, env.parse(s).value.target) == key;
  }

  lemma AskedWhenGone(env: Env, config: Config, c: Credential, names: seq<string>, s: string)
    requires AllAsked(env, config, c, names, LeafRun(env, config, FRESH, names)) && QuietAt(env, |names|)
    requires Serves(env, c, names) && s in names && env.parse(s).Some?
    requires PairKey(env, PairOf(env.parse, s)) !in LeafRun(env, config, FRESH, names).session.cache.entries
    ensures !FrugalWalk(env, config, Arr(Texts(names + [s])))
  {
    AskOne(env, config, c, LeafRun(env, config, FRESH, names).session, s);
    AskedTwice(env, config, names, s);
  }

  lemma RepeatKeepsKeys(env: Env, all: seq<string>, s: string)
    requires s in all
    ensures RefKeys(env, all + [s]) == RefKeys(env, all)
  {
  }

  /** Issuers that always answer at time 0, and nobody else about. */
  lemma ObligingIsQuiet(config: Config, parse: Parser, names: seq<string>, hash: string, leaves: seq<string>)
    requires config.maxCacheTtl > 0
    ensures var env := Obliging(parse, names, 1, Zero(), hash, Nobody());
            && Lasting(env, config, FRESH, leaves, 1) && Spared(env, FRESH, leaves) && Alone(env, FRESH, leaves)
            && Within(env, FRESH, leaves, RefKeys(env, leaves)) && forall n :: QuietAt(env, n)
  {
    assert FRESH.cache.entries.Keys == {};
  }

  /** One pair more than fits, and one of them again, whatever the limit and the
      reference syntax. */
  lemma {:induction false} CrowdedCacheIssuesTwice(config: Config, parse: Parser, names: seq<string>)
    returns (env: Env, leaves: seq<string>, room: set<CacheKey>)
    requires config.maxCacheTtl > 0 && Nameable(parse, names) && |names| == Limit(config) + 1
    ensures env.parse == parse && Spoils(env, config, leaves, room) && Alone(env, FRESH, leaves)
    ensures |room| == Limit(config) + 1
  {
    hide Lasting, Spared, Alone, Within, FrugalWalk, AllAsked, Asked, RefKeys, LeafRun, ResolveText;
    var c := Answer(parse, names, 1);
    env := Obliging(parse, names, 1, Zero(), "h", Nobody());
    ObligingServes(parse, names, 1, Zero(), "h", Nobody());
    ObligingIsQuiet(config, parse, names, "h", []);
    AskAll(env, config, c, names);
    var s := SomePairIsGone(env, config, c, names);
    leaves := names + [s];
    ObligingIsQuiet(config, parse, names, "h", leaves);
    room := RefKeys(env, leaves);
    AskedWhenGone(env, config, c, names, s);
    RepeatKeepsKeys(env, names, s);
    RefKeysAreTargets(env, names);
    TargetsDiffer(parse, "h", names);
  }

  // A cache that is full evicts even for a key it holds: with others inserting,
  // one place fewer is safe.

  /** The same surroundings but for what others do before later lookups. */
  ghost predicate AgreeUpTo(a: Env, b: Env, n: nat) {
    b == a.(before := b.before) && forall i :: 0 <= i < n ==> a.before(i) == b.before(i)
  }

  lemma TextsAgree(a: Env, b: Env, config: Config, st: Session, s: string)
    requires b == a.(before := b.before) && a.before(st.calls) == b.before(st.calls)
    ensures ResolveText(a, config, st, s) == ResolveText(b, config, st, s)
    ensures ResolveText(a, config, st, s).0.calls <= st.calls + 1
  {
    hide RunFrom, Lookup, Stored;
  }

  lemma {:induction false} RunsAgree(a: Env, b: Env, config: Config, leaves: seq<string>)
    requires AgreeUpTo(a, b, |leaves|)
    ensures LeafRun(a, config, FRESH, leaves) == LeafRun(b, config, FRESH, leaves)
    ensures LeafRun(a, config, FRESH, leaves).session.calls <= |leaves|
    decreases |leaves|
  {
    if leaves != [] {
      var n := |leaves| - 1;
      RunsAgree(a, b, config, leaves[..n]);
      TextsAgree(a, b, config, LeafRun(a, config, FRESH, leaves[..n]).session, leaves[n]);
    }
  }

  function Just(n: nat, op: Op): nat -> seq<Op> {
    (i: nat) => if i == n then [op] else []
  }

  lemma QuietIsCalm(env: Env, config: Config, names: seq<string>)
    requires Nameable(env.parse, names) && |names| <= Limit(config) && Lasting(env, config, FRESH, names, 1)
    requires forall n :: 0 <= n < |names| ==> QuietAt(env, n)
    ensures Calm(env, config, FRESH, names, 1, RefKeys(env, names)) && Undisturbed(env, FRESH, names)
  {
    RefKeysAreTargets(env, names);
    TargetsDiffer(env.parse, env.identityHash, names);
    assert FRESH.cache.entries.Keys == {};
    forall n | InWalk(FRESH, names, n) ensures Others(env, n) == [] { assert QuietAt(env, n); }
  }

  /** Pairs that fit are all cached after a walk over them alone. */
  lemma AllCached(env: Env, config: Config, c: Credential, names: seq<string>)
    requires Serves(env, c, names) && Nameable(env.parse, names) && |names| <= Limit(config)
    requires forall n :: 0 <= n < |names| ==> QuietAt(env, n)
    requires Lasting(env, config, FRESH, names, 1)
    ensures LeafRun(env, config, FRESH, names).session.cache.entries.Keys == RefKeys(env, names)
  {
    QuietIsCalm(env, config, names);
    CalmRunHolds(env, config, FRESH, 1, RefKeys(env, names), names, names);
    AskAll(env, config, c, names);
    CalmRunCaches(env, TermsOf(env, FRESH, names, 1, RefKeys(env, names)), names, LeafRun(env, config, FRESH, names));
  }

  lemma CalmRunCaches(env: Env, t: Terms, leaves: seq<string>, w: Walked<seq<string>>)
    requires CalmRun(env, t, FRESH, leaves, w) && w.error.None? && t.same && t.room == RefKeys(env, leaves)
    ensures w.session.cache.entries.Keys == RefKeys(env, leaves)
  {
    forall k | k in t.room ensures k in w.session.cache.entries {
      var i :| 0 <= i < |leaves| && env.parse(leaves[i]).Some? && KeyOf(env, env.parse(leaves[i]).value) == k;
      assert FromCache(env, w.session.cache.entries, leaves[i], w.tree[i]);
    }
  }

  lemma FullEvictsOne(config: Config, es: Entries, key: CacheKey, c: Credential, now: nat)
    requires |es| == config.maxEntries > 0 && key in es && key != LeastRecent(es)
    ensures LeastRecent(es) !in Insert(config, es, key, c, now)
  {
    var rest := es - {LeastRecent(es)};
    assert |rest| == |es| - 1;
    assert Evict(es, config.maxEntries) == Evict(rest, config.maxEntries) == rest;
  }

  /** Where a full cache takes an insertion of a key it holds, the least recent
      other pair is asked about again. */
  lemma RefilledPairIsAsked(env: Env, config: Config, now: Session, s: string, key: CacheKey, c: Credential)
    requires env.parse(s).Some? && env.registered(env.parse(s).value.pluginId)
    requires |now.cache.entries| == config.maxEntries > 0 && key in now.cache.entries
    requires KeyOf(env, env.parse(s).value) == LeastRecent(now.cache.entries) != key
    requires env.before(now.calls) == [InsertOp(key, c, 0)]
    ensures ResolveText(env, config, now, s).0.issued == now.issued + [PairOf(env.parse, s)]
  {
    var op := InsertOp(key, c, 0);
    FullEvictsOne(config, now.cache.entries, key, c, 0);
    var found := Apply(config, now.cache, op);
    assert RunFrom(config, now.cache, [op]) == RunFrom(config, found, []) == found;
  }

  /** The surroundings in which that insertion comes after `names`. */
  function Refilling(parse: Parser, names: seq<string>, key: CacheKey): Env {
    Obliging(parse, names, 1, Zero(), "h", Just(|names|, InsertOp(key, Answer(parse, names, 1), 0)))
  }

  lemma RefillingLasts(config: Config, parse: Parser, names: seq<string>, key: CacheKey, s: string)
    requires config.maxCacheTtl > 0 && s in names
    ensures var env, leaves := Refilling(parse, names, key), names + [s];
            && Lasting(env, config, FRESH, leaves, 1) && Spared(env, FRESH, leaves)
            && (key in RefKeys(env, leaves) ==> Within(env, FRESH, leaves, RefKeys(env, leaves)))
            && RefKeys(env, leaves) == Targets(parse, "h", names)
  {
    var env, op := Refilling(parse, names, key), InsertOp(key, Answer(parse, names, 1), 0);
    assert forall n :: Others(env, n) == if n == |names| then [op] else [];
    assert forall n, o :: o in Others(env, n) ==> o == op;
    assert FRESH.cache.entries.Keys == {};
    RepeatKeepsKeys(env, names, s);
    RefKeysAreTargets(env, names);
  }

  function TargetOf(parse: Parser, s: string): CacheKey
    requires parse(s).Some?
  {
    CacheKey("h", parse(s).value.pluginId, parse(s).value.target)
  }

  /** The name whose pair is least recent in the full cache, and another. */
  lemma {:induction false} LeastName(parse: Parser, names: seq<string>, es: Entries) returns (s: string, other: string)
    requires Nameable(parse, names) && |names| >= 2 && es.Keys == Targets(parse, "h", names)
    ensures s in names && other in names && parse(s).Some? && parse(other).Some? && es != map[]
    ensures TargetOf(parse, s) == LeastRecent(es) != TargetOf(parse, other)
  {
    assert TargetOf(parse, names[0]) in Targets(parse, "h", names);
    var least := LeastRecent(es);
    assert least in Targets(parse, "h", names);
    s :| s in names && parse(s).Some? && TargetOf(parse, s) == least;
    assert PairOf(parse, names[0]) != PairOf(parse, names[1]);
    other := if TargetOf(parse, names[0]) == least then names[1] else names[0];
  }

  lemma RefillAsksTwice(env: Env, config: Config, c: Credential, names: seq<string>, s: string, key: CacheKey)
    requires env.parse(s).Some? && env.registered(env.parse(s).value.pluginId)
    requires AllAsked(env, config, c, names, LeafRun(env, config, FRESH, names)) && s in names
    requires var es := LeafRun(env, config, FRESH, names).session.cache.entries;
             && |es| == config.maxEntries > 0 && key in es && KeyOf(env, env.parse(s).value) == LeastRecent(es) != key
    requires env.before(|names|) == [InsertOp(key, c, 0)]
    ensures !FrugalWalk(env, config, Arr(Texts(names + [s])))
  {
    hide RunFrom;
    RefilledPairIsAsked(env, config, LeafRun(env, config, FRESH, names).session, s, key, c);
    AskedTwice(env, config, names, s);
  }

  /** Alone, a walk over as many pairs as fit leaves just them cached. */
  lemma {:induction false} FillsCache(config: Config, parse: Parser, names: seq<string>)
    returns (s: string, key: CacheKey)
    requires config.maxCacheTtl > 0 && Nameable(parse, names) && |names| == config.maxEntries >= 2
    ensures var es := FilledBy(config, parse, names).cache.entries;
            && |es| == config.maxEntries && s in names && parse(s).Some?
            && TargetOf(parse, s) == LeastRecent(es) != key && key in es && key in Targets(parse, "h", names)
  {
    var c, alone := Answer(parse, names, 1), Obliging(parse, names, 1, Zero(), "h", Nobody());
    ObligingServes(parse, names, 1, Zero(), "h", Nobody());
    ObligingIsQuiet(config, parse, names, "h", names);
    AllCached(alone, config, c, names);
    RefKeysAreTargets(alone, names);
    TargetsDiffer(parse, "h", names);
    var es := FilledBy(config, parse, names).cache.entries;
    assert |es.Keys| == |es|;
    var other;
    s, other := LeastName(parse, names, es);
    key := TargetOf(parse, other);
  }

  ghost function FilledBy(config: Config, parse: Parser, names: seq<string>): Session {
    LeafRun(Obliging(parse, names, 1, Zero(), "h", Nobody()), config, FRESH, names).session
  }

  /** What others do afterwards changes nothing so far. */
  lemma RefillingComesLater(config: Config, parse: Parser, names: seq<string>, key: CacheKey)
    requires Nameable(parse, names)
    ensures var env, c := Refilling(parse, names, key), Answer(parse, names, 1);
            && LeafRun(env, config, FRESH, names).session == FilledBy(config, parse, names)
            && AllAsked(env, config, c, names, LeafRun(env, config, FRESH, names))
  {
    var env, alone := Refilling(parse, names, key), Obliging(parse, names, 1, Zero(), "h", Nobody());
    RunsAgree(alone, env, config, names);
    ObligingServes(parse, names, 1, Zero(), "h", env.before);
    AskAll(env, config, Answer(parse, names, 1), names);
  }

  lemma {:induction false} FullCacheIssuesTwice(config: Config, parse: Parser, names: seq<string>)
    returns (env: Env, leaves: seq<string>, room: set<CacheKey>)
    requires config.maxCacheTtl > 0 && Nameable(parse, names) && |names| == config.maxEntries >= 2
    ensures env.parse == parse && Spoils(env, config, leaves, room) && |room| == config.maxEntries
  {
    hide Lasting, Spared, Within, FrugalWalk, AllAsked, Asked, RefKeys, LeafRun, ResolveText, FilledBy;
    var s, key := FillsCache(config, parse, names);
    env, leaves, room := Refilling(parse, names, key), names + [s], Targets(parse, "h", names);
    RefillingLasts(config, parse, names, key, s);
    RefillingComesLater(config, parse, names, key);
    RefillAsksTwice(env, config, Answer(parse, names, 1), names, s, key);
    TargetsDiffer(parse, "h", names);
  }

  /** Main result on room: from an empty cache and while nothing expires and
      nobody revokes, no document asks twice for a pair if and only if the keys
      fit where others insert nothing, and if and only if they leave a place
      free where others insert; for every limit, over any reference syntax with
      that many pairs. */
  lemma FrugalIffItFits(config: Config, parse: Parser, names: seq<string>, n: nat)
    requires config.maxCacheTtl > 0 && Nameable(parse, names) && |names| == Limit(config) + 1
    ensures FrugalUpTo(config, parse, n, true) <==> n <= Limit(config)
    ensures FrugalUpTo(config, parse, n, false) <==> n <= WorkingRoom(config)
  {
    hide FrugalUpTo;
    var env, leaves, room;
    if n <= Limit(config) { RoomSuffices(config, parse, n, true); }
    if n <= WorkingRoom(config) { RoomSuffices(config, parse, n, false); }
    if n > Limit(config) {
      env, leaves, room := CrowdedCacheIssuesTwice(config, parse, names);
      SpoiledMeansNotFrugal(env, config, leaves, room, n, true);
      SpoiledMeansNotFrugal(env, config, leaves, room, n, false);
    } else if n > WorkingRoom(config) {
      env, leaves, room := FullCacheIssuesTwice(config, parse, names[..Limit(config)]);
      SpoiledMeansNotFrugal(env, config, leaves, room, n, false);
    }
  }

  lemma RoomSuffices(config: Config, parse: Parser, n: nat, alone: bool)
    requires n <= if alone then Limit(config) else WorkingRoom(config)
    ensures FrugalUpTo(config, parse, n, alone)
  {
    hide FrugalWalk, Lasting, Spared, Within, Alone;
    forall env: Env, j: Value, horizon: nat, room: set<CacheKey>
      | env.parse == parse && Lasting(env, config, FRESH, Leaves(j), horizon) && Spared(env, FRESH, Leaves(j))
        && Within(env, FRESH, Leaves(j), room) && |room| <= n && (alone ==> Alone(env, FRESH, Leaves(j)))
      ensures FrugalWalk(env, config, j)
    {
      CalmWalkIsFrugal(env, config, j, horizon, room);
    }
  }

  // ----- Asking twice for one pair -----

  /** After the first request, with nobody else about. */
  ghost function Once(env: Env, config: Config, r: CredRef, c: Credential): State {
    INITIAL.(entries := map[KeyOf(env, r) := Entry(c, env.clock(0) + Lifetime(config, c), env.clock(0))])
  }

  lemma FirstRequest(env: Env, config: Config, c: Credential, s: string)
    requires Serves(env, c, [s]) && QuietAt(env, 0)
    ensures s in [s] && env.parse(s).Some?
    ensures var w := LeafRun(env, config, FRESH, [s]);
            w.error.None? && w.session == Session(Once(env, config, env.parse(s).value, c), [PairOf(env.parse, s)], 1)
  {
    assert s in [s];
    var r := env.parse(s).value;
    assert [s][..0] == [];
    QuietFetch(env, config, FRESH, r);
    assert Evict(map[], config.maxEntries) == map[];
    assert Lookup(map[], KeyOf(env, r), env.clock(0)) == (map[], None);
    assert [] + [PairOf(env.parse, s)] == [PairOf(env.parse, s)];
  }

  /** Its pair is asked about again if the second request finds it gone. */
  lemma SecondRequest(env: Env, config: Config, c: Credential, s: string)
    requires Serves(env, c, [s]) && QuietAt(env, 0) && env.parse(s).Some?
    requires var r := env.parse(s).value;
             var found := RunFrom(config, Once(env, config, r, c), env.before(1));
             Lookup(found.entries, KeyOf(env, r), env.clock(1)).1.None?
    ensures !FrugalWalk(env, config, Arr(Texts([s] + [s])))
  {
    hide RunFrom, Once, Lookup, Stored;
    FirstRequest(env, config, c, s);
    assert s in [s];
    AskedTwice(env, config, [s], s);
  }

  /** A two-leaf document in which anything others do keeps to one pair. */
  lemma TwoLeaves(env: Env, s: string)
    requires env.parse(s).Some?
    ensures Leaves(Arr(Texts([s] + [s]))) == [s] + [s]
    ensures RefKeys(env, [s] + [s]) == {KeyOf(env, env.parse(s).value)}
  {
    FlatDocument([s] + [s]);
    var both := [s] + [s];
    assert both[0] == s && forall x :: x in both ==> x == s;
  }

  // ----- Exactly how long -----

  /** Every clock reading lies within `span`, and all that is inserted lives for
      `ttl` seconds or more. */
  ghost predicate Brief(env: Env, leaves: seq<string>, ttl: nat, begin: nat, span: nat) {
    && (forall n :: InWalk(FRESH, leaves, n) ==> begin <= env.clock(n) <= begin + span)
    && (forall n, op :: InWalk(FRESH, leaves, n) && op in Others(env, n) ==> Timely(op, ttl, begin, span))
    && (forall key, n, c :: InWalk(FRESH, leaves, n) && Issued(env, n, key, c) ==> ttl <= c.ttlSeconds)
  }

  predicate Timely(op: Op, ttl: nat, begin: nat, span: nat) {
    match op
    case LookupOp(_, now) => now <= begin + span
    case InsertOp(_, c, now) => begin <= now && ttl <= c.ttlSeconds
    case _ => true
  }

  ghost predicate FrugalFor(config: Config, parse: Parser, ttl: nat, span: nat) {
    forall env: Env, j: Value, begin: nat, room: set<CacheKey> ::
      env.parse == parse && Brief(env, Leaves(j), ttl, begin, span) && Spared(env, FRESH, Leaves(j))
      && Fits(env, config, FRESH, Leaves(j), room) ==>
        FrugalWalk(env, config, j)
  }

  function Later(span: nat): nat -> nat {
    (n: nat) => if n == 0 then 0 else span
  }

  /** Main result on time: among documents that fit and issuers and tasks that
      store nothing for less than `ttl` seconds, none that is walked within `span`
      asks twice for a pair if and only if `span` is less than that lifetime and
      less than the cap on lifetimes. */
  lemma FrugalIffItOutlasts(config: Config, parse: Parser, s: string, ttl: nat, span: nat)
    requires parse(s).Some?
    ensures FrugalFor(config, parse, ttl, span) <==> span < 1000 * ttl && span < config.maxCacheTtl
  {
    if span < 1000 * ttl && span < config.maxCacheTtl {
      ShortWalksAreFrugal(config, parse, ttl, span);
    } else {
      SlowWalkAsksTwice(config, parse, s, ttl, span);
    }
  }

  lemma BriefLasts(env: Env, config: Config, leaves: seq<string>, ttl: nat, begin: nat, span: nat, life: nat)
    requires Brief(env, leaves, ttl, begin, span) && span < life <= 1000 * ttl && life <= config.maxCacheTtl
    ensures Lasting(env, config, FRESH, leaves, begin + life)
  {
    assert FRESH.cache.entries == map[];
    forall n, op | InWalk(FRESH, leaves, n) && op in Others(env, n) ensures Mild(config, op, begin + life) {
      assert Timely(op, ttl, begin, span);
    }
  }

  lemma ShortWalksAreFrugal(config: Config, parse: Parser, ttl: nat, span: nat)
    requires span < 1000 * ttl && span < config.maxCacheTtl
    ensures FrugalFor(config, parse, ttl, span)
  {
    hide FrugalWalk, Brief, Spared, Fits, Lasting;
    forall env: Env, j: Value, begin: nat, room: set<CacheKey>
      | env.parse == parse && Brief(env, Leaves(j), ttl, begin, span) && Spared(env, FRESH, Leaves(j))
        && Fits(env, config, FRESH, Leaves(j), room)
      ensures FrugalWalk(env, config, j)
    {
      BriefLasts(env, config, Leaves(j), ttl, begin, span, span + 1);
      CalmWalkIsFrugal(env, config, j, begin + span + 1, room);
    }
  }

  function Slow(parse: Parser, s: string, ttl: nat, span: nat): Env {
    Obliging(parse, [s], ttl, Later(span), "h", Nobody())
  }

  lemma SlowIsBrief(config: Config, parse: Parser, s: string, ttl: nat, span: nat)
    requires parse(s).Some?
    ensures var env, both := Slow(parse, s, ttl, span), [s] + [s];
            && Brief(env, both, ttl, 0, span) && Spared(env, FRESH, both)
            && Fits(env, config, FRESH, both, {KeyOf(env, parse(s).value)})
  {
    var env := Slow(parse, s, ttl, span);
    TwoLeaves(env, s);
    assert forall n :: Others(env, n) == [];
    assert FRESH.cache.entries.Keys == {};
  }

  lemma SlowIsGone(config: Config, parse: Parser, s: string, ttl: nat, span: nat)
    requires parse(s).Some? && (span >= 1000 * ttl || span >= config.maxCacheTtl)
    ensures var env := Slow(parse, s, ttl, span); !FrugalWalk(env, config, Arr(Texts([s] + [s])))
  {
    hide FrugalWalk;
    var env, c := Slow(parse, s, ttl, span), Answer(parse, [s], ttl);
    ObligingServes(parse, [s], ttl, Later(span), "h", Nobody());
    var first := Once(env, config, parse(s).value, c);
    assert RunFrom(config, first, []) == first;
    SecondRequest(env, config, c, s);
  }

  lemma SlowWalkAsksTwice(config: Config, parse: Parser, s: string, ttl: nat, span: nat)
    requires parse(s).Some? && (span >= 1000 * ttl || span >= config.maxCacheTtl)
    ensures !FrugalFor(config, parse, ttl, span)
  {
    hide FrugalWalk, Brief, Spared, Fits;
    SlowIsBrief(config, parse, s, ttl, span);
    SlowIsGone(config, parse, s, ttl, span);
    TwoLeaves(Slow(parse, s, ttl, span), s);
  }

  // ----- Exactly which operations of others -----

  /** The operation revokes the pair of this reference for some identity. */
  predicate RevokesRef(op: Op, r: CredRef) {
    || (op.InvalidateOp? && op.key.pluginId == r.pluginId && op.key.target == r.target)
    || (op.InvalidatePluginOp? && op.plugin == r.pluginId)
  }

  /** Others do nothing but this, as often and whenever they like. */
  ghost predicate OthersOnly(env: Env, leaves: seq<string>, op: Op) {
    forall n, o :: InWalk(FRESH, leaves, n) && o in Others(env, n) ==> o == op
  }

  ghost predicate FrugalDespite(config: Config, parse: Parser, op: Op) {
    forall env: Env, j: Value, horizon: nat, room: set<CacheKey> ::
      env.parse == parse && Lasting(env, config, FRESH, Leaves(j), horizon)
      && Fits(env, config, FRESH, Leaves(j), room) && OthersOnly(env, Leaves(j), op) ==>
        FrugalWalk(env, config, j)
  }

  /** Main result on other tasks: while nothing expires and everything fits, an
      operation of theirs can make no walk ask twice for a pair if and only if
      it revokes no pair that a reference can name. */
  lemma FrugalIffNoneRevoked(config: Config, parse: Parser, op: Op)
    requires config.maxCacheTtl > 0
    ensures FrugalDespite(config, parse, op) <==> forall s :: parse(s).Some? ==> !RevokesRef(op, parse(s).value)
  {
    if s :| parse(s).Some? && RevokesRef(op, parse(s).value) {
      RevocationAsksTwice(config, parse, op, s);
    } else {
      HarmlessToOthers(config, parse, op);
    }
  }

  lemma HarmlessSpares(env: Env, op: Op, leaves: seq<string>)
    requires OthersOnly(env, leaves, op) && forall s :: env.parse(s).Some? ==> !RevokesRef(op, env.parse(s).value)
    ensures Spared(env, FRESH, leaves)
  {
    forall k | k in RefKeys(env, leaves) ensures !Revokes(op, k) {
      var s :| s in leaves && env.parse(s).Some? && k == KeyOf(env, env.parse(s).value);
    }
  }

  lemma HarmlessToOthers(config: Config, parse: Parser, op: Op)
    requires forall s :: parse(s).Some? ==> !RevokesRef(op, parse(s).value)
    ensures FrugalDespite(config, parse, op)
  {
    hide FrugalWalk, Lasting, Spared, Fits, OthersOnly;
    forall env: Env, j: Value, horizon: nat, room: set<CacheKey>
      | env.parse == parse && Lasting(env, config, FRESH, Leaves(j), horizon)
        && Fits(env, config, FRESH, Leaves(j), room) && OthersOnly(env, Leaves(j), op)
      ensures FrugalWalk(env, config, j)
    {
      HarmlessSpares(env, op, Leaves(j));
      CalmWalkIsFrugal(env, config, j, horizon, room);
    }
  }

  /** The operation comes between the two requests. */
  function Revoking(parse: Parser, s: string, op: Op): Env {
    Obliging(parse, [s], 1, Zero(), if op.InvalidateOp? then op.key.identityHash else "h", Just(1, op))
  }

  lemma RevokingFits(config: Config, parse: Parser, op: Op, s: string)
    requires config.maxCacheTtl > 0 && parse(s).Some? && RevokesRef(op, parse(s).value)
    ensures var env, both := Revoking(parse, s, op), [s] + [s];
            && Lasting(env, config, FRESH, both, 1) && OthersOnly(env, both, op)
            && Fits(env, config, FRESH, both, {KeyOf(env, parse(s).value)})
  {
    var env := Revoking(parse, s, op);
    TwoLeaves(env, s);
    assert forall n :: Others(env, n) == if n == 1 then [op] else [];
    assert forall n, o :: o in Others(env, n) ==> o == op;
    assert FRESH.cache.entries.Keys == {};
  }

  lemma RevokedIsGone(config: Config, parse: Parser, op: Op, s: string)
    requires parse(s).Some? && RevokesRef(op, parse(s).value)
    ensures !FrugalWalk(Revoking(parse, s, op), config, Arr(Texts([s] + [s])))
  {
    hide FrugalWalk;
    var env, c := Revoking(parse, s, op), Answer(parse, [s], 1);
    ObligingServes(parse, [s], 1, Zero(), env.identityHash, Just(1, op));
    var key, first := KeyOf(env, parse(s).value), Once(env, config, parse(s).value, c);
    var after := Apply(config, first, op);
    assert RunFrom(config, first, [op]) == RunFrom(config, after, []) == after;
    assert key !in after.entries;
    SecondRequest(env, config, c, s);
  }

  lemma RevocationAsksTwice(config: Config, parse: Parser, op: Op, s: string)
    requires config.maxCacheTtl > 0 && parse(s).Some? && RevokesRef(op, parse(s).value)
    ensures !FrugalDespite(config, parse, op)
  {
    hide FrugalWalk, Lasting, OthersOnly, Fits;
    RevokingFits(config, parse, op, s);
    RevokedIsGone(config, parse, op, s);
    TwoLeaves(Revoking(parse, s, op), s);
  }
}
