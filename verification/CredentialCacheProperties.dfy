/** What the credential cache keeps over every run of its lock-held operations. */
module CredentialCacheProperties {
  import opened Wrappers
  import opened Orders
  import opened CredentialCache
  import Strings

  // ----- Size -----

  lemma {:induction false} EvictMakesRoom(es: Entries, max: nat)
    ensures max > 0 ==> |Evict(es, max)| < max
    ensures max == 0 ==> Evict(es, max) == map[]
    ensures forall k :: k in Evict(es, max) ==> k in es && Evict(es, max)[k] == es[k]
    decreases |es|
  {
    if |es| >= max && es != map[] {
      EvictMakesRoom(es - {LeastRecent(es)}, max);
    }
  }

  function Limit(config: Config): nat {
    if config.maxEntries == 0 then 1 else config.maxEntries
  }

  lemma OperationKeepsLimit(config: Config, s: State, op: Op)
    requires |s.entries| <= Limit(config)
    ensures |Apply(config, s, op).entries| <= Limit(config)
  {
    var es := s.entries;
    match op
    case InsertOp(key, c, now) => EvictMakesRoom(es, config.maxEntries);
    case LookupOp(key, now) =>
      if key in es { assert es[key := es[key].(lastAccess := now)].Keys == es.Keys; }
      assert |es - {key}| <= |es|;
    case InvalidateOp(key) => assert |es - {key}| <= |es|;
    case InvalidatePluginOp(plugin) => SubmapIsSmaller(WithoutPlugin(es, plugin), es);
    case _ =>
  }

  /** The cache never outgrows its limit; a limit of zero still holds one entry. */
  lemma {:induction false} SizeBounded(config: Config, ops: seq<Op>)
    ensures |Run(config, ops).entries| <= Limit(config)
    decreases |ops|
  {
    if ops != [] {
      var pre, op := ops[..|ops| - 1], ops[|ops| - 1];
      SizeBounded(config, pre);
      OperationKeepsLimit(config, Run(config, pre), op);
    }
  }

  lemma SubmapIsSmaller(small: Entries, big: Entries)
    requires small.Keys <= big.Keys
    ensures |small| <= |big|
  {
    assert |big.Keys| == |small.Keys| + |big.Keys - small.Keys|;
  }

  // ----- Agreement with an unbounded reference -----

  ghost predicate Inserts(op: Op, key: CacheKey) {
    op.InsertOp? && op.key == key
  }

  ghost predicate Revokes(op: Op, key: CacheKey) {
    (op.InvalidateOp? && op.key == key) || (op.InvalidatePluginOp? && op.plugin == key.pluginId)
  }

  /** `ops[i]` is the insertion the reference still holds for `key`: nothing
      later replaced or revoked it. The reference never evicts or expires. */
  ghost predicate Current(ops: seq<Op>, key: CacheKey, i: nat) {
    && i < |ops|
    && Inserts(ops[i], key)
    && forall j :: i < j < |ops| ==> !Inserts(ops[j], key) && !Revokes(ops[j], key)
  }

  /** An entry not just inserted was there before, with the same credential and
      deadline. */
  lemma EntryComesFrom(config: Config, s: State, op: Op, key: CacheKey)
    requires key in Apply(config, s, op).entries && !Inserts(op, key)
    ensures key in s.entries && !Revokes(op, key)
    ensures var e, e' := s.entries[key], Apply(config, s, op).entries[key];
            e'.credential == e.credential && e'.expiresAt == e.expiresAt
  {
    if op.InsertOp? { EvictMakesRoom(s.entries, config.maxEntries); }
  }

  lemma {:induction false} EntriesAreCurrent(config: Config, ops: seq<Op>, key: CacheKey) returns (i: nat)
    requires key in Run(config, ops).entries
    ensures Current(ops, key, i)
    ensures var e := Run(config, ops).entries[key];
            e.credential == ops[i].credential && e.expiresAt == ops[i].now + Lifetime(config, ops[i].credential)
    decreases |ops|
  {
    var n := |ops| - 1;
    var pre, op := ops[..n], ops[n];
    if Inserts(op, key) {
      i := n;
    } else {
      EntryComesFrom(config, Run(config, pre), op, key);
      i := EntriesAreCurrent(config, pre, key);
      assert forall j :: i < j < n ==> ops[j] == pre[j];
    }
  }

  /** Every entry was there before or is what one of the operations inserted. */
  lemma {:induction false} EntriesComeFrom(config: Config, s: State, ops: seq<Op>, key: CacheKey)
    requires key in RunFrom(config, s, ops).entries
    ensures var c := RunFrom(config, s, ops).entries[key].credential;
            || (key in s.entries && s.entries[key].credential == c)
            || exists op :: op in ops && Inserts(op, key) && op.credential == c
    decreases |ops|
  {
    if ops != [] {
      var s' := Apply(config, s, ops[0]);
      EntriesComeFrom(config, s', ops[1..], key);
      if key in s'.entries && !Inserts(ops[0], key) { EntryComesFrom(config, s, ops[0], key); }
    }
  }

  /** A lookup serves nothing, and then leaves nothing under the key, or the
      credential of the latest insertion of exactly this key that no
      invalidation followed, within its own lifetime and within the cap. */
  lemma LookupServesLatestInsertion(config: Config, ops: seq<Op>, key: CacheKey, now: nat)
    ensures var (es, hit) := Lookup(Run(config, ops).entries, key, now);
            if hit.None? then key !in es
            else exists i: nat :: Current(ops, key, i) && ops[i].credential == hit.value
                                  && now < ops[i].now + 1000 * hit.value.ttlSeconds
                                  && now < ops[i].now + config.maxCacheTtl
  {
    if Lookup(Run(config, ops).entries, key, now).1.Some? {
      var i := EntriesAreCurrent(config, ops, key);
    }
  }

  // ----- The LRU working set -----

  ghost predicate Spares(op: Op, key: CacheKey) {
    && !(op.LookupOp? && op.key == key)
    && !Inserts(op, key) && !Revokes(op, key)
  }

  ghost function Touched(op: Op): set<CacheKey> {
    if op.LookupOp? || op.InsertOp? then {op.key} else {}
  }

  ghost function TouchedBy(ops: seq<Op>): set<CacheKey> {
    if ops == [] then {} else Touched(ops[0]) + TouchedBy(ops[1..])
  }

  /** Every other entry is strictly older than `key`, or among `touched`. */
  ghost predicate NewerOnlyIn(es: Entries, key: CacheKey, touched: set<CacheKey>) {
    && key in es && key !in touched
    && forall j :: j in es && j != key ==> es[j].lastAccess < es[key].lastAccess || j in touched
  }

  lemma {:induction false} EvictSpares(es: Entries, max: nat, key: CacheKey, touched: set<CacheKey>)
    requires NewerOnlyIn(es, key, touched) && |touched| + 1 < max
    ensures NewerOnlyIn(Evict(es, max), key, touched) && Evict(es, max)[key] == es[key]
    decreases |es|
  {
    if |es| >= max {
      var k := LeastRecent(es);
      if k == key {
        forall j | j in es && j != key ensures j in touched { assert Older(es, key, j); }
        assert es.Keys - {key} <= touched;
        SubsetIsSmaller(es.Keys - {key}, touched);
        assert false;
      }
      EvictSpares(es - {k}, max, key, touched);
    }
  }

  lemma StepSpares(config: Config, s: State, op: Op, key: CacheKey, touched: set<CacheKey>)
    requires NewerOnlyIn(s.entries, key, touched) && Spares(op, key)
    requires |touched + Touched(op)| + 1 < config.maxEntries
    ensures NewerOnlyIn(Apply(config, s, op).entries, key, touched + Touched(op))
    ensures Apply(config, s, op).entries[key] == s.entries[key]
  {
    if op.InsertOp? {
      assert NewerOnlyIn(s.entries, key, touched + Touched(op));
      EvictSpares(s.entries, config.maxEntries, key, touched + Touched(op));
    }
  }

  lemma {:induction false} RunSpares(config: Config, s: State, ops: seq<Op>, key: CacheKey, touched: set<CacheKey>)
    requires NewerOnlyIn(s.entries, key, touched)
    requires forall i :: 0 <= i < |ops| ==> Spares(ops[i], key)
    requires |touched + TouchedBy(ops)| + 1 < config.maxEntries
    ensures key in RunFrom(config, s, ops).entries
    ensures RunFrom(config, s, ops).entries[key] == s.entries[key]
    decreases |ops|
  {
    if ops != [] {
      var touched' := touched + Touched(ops[0]);
      assert touched + TouchedBy(ops) == touched' + TouchedBy(ops[1..]);
      SubsetIsSmaller(touched', touched + TouchedBy(ops));
      StepSpares(config, s, ops[0], key, touched);
      RunSpares(config, Apply(config, s, ops[0]), ops[1..], key, touched');
    }
  }

  lemma {:induction false} RunAppend(config: Config, a: seq<Op>, b: seq<Op>)
    ensures Run(config, a + b) == RunFrom(config, Run(config, a), b)
    decreases |b|
  {
    if b == [] {
      assert a + b == a;
    } else {
      var a' := a + [b[0]];
      assert a + b == a' + b[1..] && a'[..|a|] == a;
      RunAppend(config, a', b[1..]);
    }
  }

  ghost predicate Before(op: Op, t: nat) {
    op.LookupOp? || op.InsertOp? ==> op.now < t
  }

  lemma {:induction false} AccessedBefore(config: Config, ops: seq<Op>, t: nat)
    requires forall i :: 0 <= i < |ops| ==> Before(ops[i], t)
    ensures forall j :: j in Run(config, ops).entries ==> Run(config, ops).entries[j].lastAccess < t
    decreases |ops|
  {
    if ops != [] {
      var pre, op := ops[..|ops| - 1], ops[|ops| - 1];
      assert Before(op, t);
      AccessedBefore(config, pre, t);
      if op.InsertOp? { EvictMakesRoom(Run(config, pre).entries, config.maxEntries); }
    }
  }

  /** An insertion of `key`, or a lookup that serves it. */
  ghost predicate Touches(config: Config, pre: seq<Op>, op: Op, key: CacheKey) {
    Inserts(op, key) || (op.LookupOp? && op.key == key && Lookup(Run(config, pre).entries, key, op.now).1.Some?)
  }

  /** How many other keys may be touched at most, less one. */
  function WorkingRoom(config: Config): nat {
    if config.maxEntries <= 1 then 1 else config.maxEntries - 1
  }

  lemma TouchedHasKey(op: Op)
    ensures op.InsertOp? || op.LookupOp? ==> op.key in Touched(op)
  {
  }

  /** Operations that look nothing up and insert nothing evict nothing. */
  lemma {:induction false} IdleRunSpares(config: Config, s: State, ops: seq<Op>, key: CacheKey)
    requires key in s.entries && TouchedBy(ops) == {} && forall i :: 0 <= i < |ops| ==> Spares(ops[i], key)
    ensures key in RunFrom(config, s, ops).entries && RunFrom(config, s, ops).entries[key] == s.entries[key]
    decreases |ops|
  {
    if ops != [] {
      TouchedHasKey(ops[0]);
      IdleRunSpares(config, Apply(config, s, ops[0]), ops[1..], key);
    }
  }

  /** From its own last insertion or hit, an entry survives any operations on
      other keys, as long as those look up or insert fewer than `maxEntries - 1`
      distinct keys, or none where the limit is 0 or 1; and its lookup hits
      exactly while both the credential's own lifetime and the cap run, counted
      from the insertion it is. */
  lemma WorkingSetSurvives(config: Config, pre: seq<Op>, touch: Op, mid: seq<Op>, key: CacheKey, now: nat)
    returns (i: nat)
    requires Touches(config, pre, touch, key)
    requires forall i :: 0 <= i < |pre| ==> Before(pre[i], touch.now)
    requires forall i :: 0 <= i < |mid| ==> Spares(mid[i], key)
    requires |TouchedBy(mid)| < WorkingRoom(config)
    ensures Current(pre + [touch], key, i)
    ensures var inserted := (pre + [touch])[i];
            Lookup(Run(config, pre + [touch] + mid).entries, key, now).1
            == if now < inserted.now + 1000 * inserted.credential.ttlSeconds && now < inserted.now + config.maxCacheTtl
               then Some(inserted.credential) else None
  {
    WorkingSetEntryStays(config, pre, touch, mid, key);
    i := EntriesAreCurrent(config, pre + [touch], key);
  }

  lemma WorkingSetEntryStays(config: Config, pre: seq<Op>, touch: Op, mid: seq<Op>, key: CacheKey)
    requires Touches(config, pre, touch, key)
    requires forall i :: 0 <= i < |pre| ==> Before(pre[i], touch.now)
    requires forall i :: 0 <= i < |mid| ==> Spares(mid[i], key)
    requires |TouchedBy(mid)| < WorkingRoom(config)
    ensures var touched, after := Run(config, pre + [touch]).entries, Run(config, pre + [touch] + mid).entries;
            key in touched && key in after && after[key] == touched[key]
  {
    var es := Run(config, pre).entries;
    var s := Run(config, pre + [touch]);
    assert (pre + [touch])[..|pre|] == pre;
    AccessedBefore(config, pre, touch.now);
    EvictMakesRoom(es, config.maxEntries);
    assert NewerOnlyIn(s.entries, key, {});
    RunAppend(config, pre + [touch], mid);
    NewestSurvives(config, s, mid, key);
  }

  lemma NewestSurvives(config: Config, s: State, mid: seq<Op>, key: CacheKey)
    requires NewerOnlyIn(s.entries, key, {}) && |TouchedBy(mid)| < WorkingRoom(config)
    requires forall i :: 0 <= i < |mid| ==> Spares(mid[i], key)
    ensures key in RunFrom(config, s, mid).entries && RunFrom(config, s, mid).entries[key] == s.entries[key]
  {
    if config.maxEntries <= 1 {
      IdleRunSpares(config, s, mid, key);
    } else {
      assert {} + TouchedBy(mid) == TouchedBy(mid);
      RunSpares(config, s, mid, key, {});
    }
  }

  // ----- The order of keys, and what is evicted -----

  ghost predicate Smaller(a: string, b: string) {
    exists n :: Strings.PartAt(a, b, n)
  }

  /** Key order: by identity hash, then plugin, then target. */
  ghost predicate Precedes(a: CacheKey, b: CacheKey) {
    || Smaller(a.identityHash, b.identityHash)
    || (a.identityHash == b.identityHash && Smaller(a.pluginId, b.pluginId))
    || (a.identityHash == b.identityHash && a.pluginId == b.pluginId && Smaller(a.target, b.target))
  }

  lemma KeyLtIff(a: CacheKey, b: CacheKey)
    ensures KeyLt(a, b) <==> Precedes(a, b)
  {
    Strings.LtIrreflexive(a.identityHash);
    Strings.LtIrreflexive(a.pluginId);
    Strings.LtIff(a.identityHash, b.identityHash);
    Strings.LtIff(a.pluginId, b.pluginId);
    Strings.LtIff(a.target, b.target);
  }

  /** An insertion into a full cache first takes out the entry accessed longest
      ago; of several, the one whose key comes first. */
  lemma EvictedIsOldest(es: Entries, k: CacheKey)
    requires k in es
    ensures (forall j :: j in es && j != k ==>
               es[k].lastAccess < es[j].lastAccess || (es[k].lastAccess == es[j].lastAccess && Precedes(k, j)))
       <==> Evict(es, |es|) == es - {k}
  {
    var first := LeastRecent(es);
    assert Evict(es, |es|) == es - {first};
    if first != k {
      assert k in es - {first} && Older(es, first, k);
      AccessOrderStrictTotal(es);
      assert !AccessOrder(es)(k, first);
      KeyLtIff(k, first);
    } else {
      forall j | j in es && j != k
        ensures es[k].lastAccess < es[j].lastAccess || (es[k].lastAccess == es[j].lastAccess && Precedes(k, j))
      {
        KeyLtIff(k, j);
        assert Older(es, k, j);
      }
    }
  }

  // The bound is tight: filling the cache with `maxEntries - 1` other keys and
  // then re-inserting one of them evicts the oldest, although no new key came.

  function Other(n: nat): CacheKey {
    CacheKey("o", "", seq(n, _ => 'x'))
  }

  lemma OthersDiffer(m: nat, n: nat)
    requires m != n
    ensures Other(m) != Other(n)
  {
    assert |Other(m).target| == m && |Other(n).target| == n;
  }

  ghost function Fill(n: nat, c: Credential): seq<Op> {
    if n == 0 then [] else Fill(n - 1, c) + [InsertOp(Other(n), c, n)]
  }

  /** The cache after the oldest entry and `n` others went in. */
  ghost predicate FilledWith(es: Entries, first: CacheKey, n: nat) {
    && |es| == n + 1
    && first in es && es[first].lastAccess == 0
    && (forall j :: j in es && j != first ==> es[j].lastAccess > 0)
    && (forall j :: j in es && j != first ==> exists i: nat :: i <= n && j == Other(i))
  }

  lemma InsertOther(config: Config, es: Entries, first: CacheKey, c: Credential, n: nat)
    requires n + 1 < config.maxEntries && first.identityHash != "o" && FilledWith(es, first, n)
    ensures FilledWith(Insert(config, es, Other(n + 1), c, n + 1), first, n + 1)
  {
    assert Evict(es, config.maxEntries) == es;
    forall i: nat | i <= n ensures Other(i) != Other(n + 1) { OthersDiffer(i, n + 1); }
  }

  lemma InsertRuns(config: Config, ops: seq<Op>, key: CacheKey, c: Credential, now: nat)
    ensures Run(config, ops + [InsertOp(key, c, now)]).entries == Insert(config, Run(config, ops).entries, key, c, now)
  {
    RunSnoc(config, ops, InsertOp(key, c, now));
  }

  lemma InsertFirst(config: Config, first: CacheKey, c: Credential)
    requires config.maxEntries > 0
    ensures FilledWith(Insert(config, map[], first, c, 0), first, 0)
  {
    assert Evict(map[], config.maxEntries) == map[];
  }

  lemma RunSnoc(config: Config, ops: seq<Op>, op: Op)
    ensures Run(config, ops + [op]) == Apply(config, Run(config, ops), op)
  {
    assert (ops + [op])[..|ops|] == ops;
  }

  ghost function Filling(config: Config, first: CacheKey, c: Credential, n: nat): Entries {
    if n == 0 then Insert(config, map[], first, c, 0)
    else Insert(config, Filling(config, first, c, n - 1), Other(n), c, n)
  }

  lemma SnocAssociates<T>(a: seq<T>, b: seq<T>, x: T)
    ensures a + (b + [x]) == a + b + [x]
  {
  }

  lemma FillBegins(config: Config, first: CacheKey, c: Credential)
    ensures [InsertOp(first, c, 0)] + Fill(0, c) == [] + [InsertOp(first, c, 0)]
    ensures Run(config, []).entries == map[]
  {
  }

  lemma {:induction false} RunFills(config: Config, first: CacheKey, c: Credential, n: nat)
    ensures Run(config, [InsertOp(first, c, 0)] + Fill(n, c)).entries == Filling(config, first, c, n)
  {
    hide Run, Insert;
    if n == 0 {
      InsertRuns(config, [], first, c, 0);
      FillBegins(config, first, c);
    } else {
      var before := [InsertOp(first, c, 0)] + Fill(n - 1, c);
      RunFills(config, first, c, n - 1);
      InsertRuns(config, before, Other(n), c, n);
      SnocAssociates([InsertOp(first, c, 0)], Fill(n - 1, c), InsertOp(Other(n), c, n));
    }
  }

  lemma {:induction false} Filled(config: Config, first: CacheKey, c: Credential, n: nat)
    requires n < config.maxEntries && first.identityHash != "o"
    ensures FilledWith(Filling(config, first, c, n), first, n)
  {
    if n == 0 {
      InsertFirst(config, first, c);
    } else {
      Filled(config, first, c, n - 1);
      InsertOther(config, Filling(config, first, c, n - 1), first, c, n - 1);
    }
  }

  lemma {:induction false} FillTouches(n: nat, c: Credential)
    ensures TouchedBy(Fill(n, c)) == set i | 0 < i <= n :: Other(i)
    ensures |TouchedBy(Fill(n, c))| == n
  {
    if n > 0 {
      FillTouches(n - 1, c);
      TouchedAppend(Fill(n - 1, c), InsertOp(Other(n), c, n));
      forall i | 0 < i < n ensures Other(i) != Other(n) { OthersDiffer(i, n); }
    }
  }

  lemma {:induction false} TouchedAppend(ops: seq<Op>, op: Op)
    ensures TouchedBy(ops + [op]) == TouchedBy(ops) + Touched(op)
    decreases |ops|
  {
    if ops == [] {
      assert (ops + [op])[1..] == [];
    } else {
      assert (ops + [op])[1..] == ops[1..] + [op];
      TouchedAppend(ops[1..], op);
    }
  }

  /** Filling the room with other keys, and one of them once more. */
  ghost function Crowd(config: Config, c: Credential): seq<Op> {
    if config.maxEntries <= 1 then [InsertOp(Other(1), c, 1)]
    else Fill(config.maxEntries - 1, c) + [InsertOp(Other(1), c, config.maxEntries)]
  }

  lemma WorkingSetBoundTight(config: Config, first: CacheKey, c: Credential)
    requires first.identityHash != "o"
    ensures var mid := Crowd(config, c);
            && |TouchedBy(mid)| == WorkingRoom(config)
            && (forall i :: 0 <= i < |mid| ==> Spares(mid[i], first))
            && first !in Run(config, [InsertOp(first, c, 0)] + mid).entries
  {
    hide Run, TouchedBy, Spares;
    if config.maxEntries <= 1 {
      SingleEntryIsReplaced(config, first, c);
    } else {
      FullCacheLosesFirst(config, first, c);
    }
  }

  lemma SingleEntryIsReplaced(config: Config, first: CacheKey, c: Credential)
    requires config.maxEntries <= 1 && first.identityHash != "o"
    ensures var mid := [InsertOp(Other(1), c, 1)];
            && |TouchedBy(mid)| == 1 && Spares(mid[0], first)
            && first !in Run(config, [InsertOp(first, c, 0)] + mid).entries
  {
    var start := [InsertOp(first, c, 0)];
    var es := Run(config, start).entries;
    assert TouchedBy([InsertOp(Other(1), c, 1)]) == {Other(1)};
    InsertRuns(config, start, Other(1), c, 1);
    EvictMakesRoom(es, config.maxEntries);
    assert Evict(es, config.maxEntries) == map[];
  }

  lemma FullCacheLosesFirst(config: Config, first: CacheKey, c: Credential)
    requires config.maxEntries >= 2 && first.identityHash != "o"
    ensures var mid := Fill(config.maxEntries - 1, c) + [InsertOp(Other(1), c, config.maxEntries)];
            && |TouchedBy(mid)| == config.maxEntries - 1
            && (forall i :: 0 <= i < |mid| ==> Spares(mid[i], first))
            && first !in Run(config, [InsertOp(first, c, 0)] + mid).entries
  {
    var n := config.maxEntries - 1;
    var again := InsertOp(Other(1), c, config.maxEntries);
    var mid := Fill(n, c) + [again];
    RefillTouchesNoMore(n, c, first, again.now);
    RunFills(config, first, c, n);
    InsertRuns(config, [InsertOp(first, c, 0)] + Fill(n, c), again.key, c, again.now);
    assert [InsertOp(first, c, 0)] + mid == [InsertOp(first, c, 0)] + Fill(n, c) + [again];
    FullCacheEvictsFirst(config, first, c);
  }

  /** An entry last touched by `touch`, later than everything before it, with
      operations on other keys since. */
  ghost predicate Kept(config: Config, pre: seq<Op>, touch: Op, mid: seq<Op>, key: CacheKey) {
    && Touches(config, pre, touch, key)
    && (forall i :: 0 <= i < |pre| ==> Before(pre[i], touch.now))
    && (forall i :: 0 <= i < |mid| ==> Spares(mid[i], key))
  }

  /** The least-recently-used promise, exactly: an entry survives every run that
      touches at most `n` other keys if and only if `n` is less than the room. */
  lemma WorkingSetSurvivesIff(config: Config, n: nat)
    ensures (forall pre, touch, mid, key :: Kept(config, pre, touch, mid, key) && |TouchedBy(mid)| <= n ==>
               key in Run(config, pre + [touch] + mid).entries) <==> n < WorkingRoom(config)
  {
    if n < WorkingRoom(config) {
      forall pre, touch, mid, key | Kept(config, pre, touch, mid, key) && |TouchedBy(mid)| <= n
        ensures key in Run(config, pre + [touch] + mid).entries
      {
        SurvivorIsCached(config, pre, touch, mid, key);
      }
    } else {
      var first, c := CacheKey("h", "p", "t"), Credential(None, map[], 0);
      var touch, mid := InsertOp(first, c, 0), Crowd(config, c);
      WorkingSetBoundTight(config, first, c);
      assert [] + [touch] + mid == [touch] + mid;
      assert Kept(config, [], touch, mid, first);
    }
  }

  lemma SurvivorIsCached(config: Config, pre: seq<Op>, touch: Op, mid: seq<Op>, key: CacheKey)
    requires Kept(config, pre, touch, mid, key) && |TouchedBy(mid)| < WorkingRoom(config)
    ensures key in Run(config, pre + [touch] + mid).entries
  {
    WorkingSetEntryStays(config, pre, touch, mid, key);
  }

  lemma RefillTouchesNoMore(n: nat, c: Credential, first: CacheKey, now: nat)
    requires n > 0 && first.identityHash != "o"
    ensures var mid := Fill(n, c) + [InsertOp(Other(1), c, now)];
            |TouchedBy(mid)| == n && forall i :: 0 <= i < |mid| ==> Spares(mid[i], first)
  {
    FillTouches(n, c);
    TouchedAppend(Fill(n, c), InsertOp(Other(1), c, now));
    assert TouchedBy(Fill(n, c) + [InsertOp(Other(1), c, now)]) == TouchedBy(Fill(n, c));
    FillSpares(n, c, first);
  }

  lemma FullCacheEvictsFirst(config: Config, first: CacheKey, c: Credential)
    requires config.maxEntries >= 2 && first.identityHash != "o"
    ensures first !in Insert(config, Filling(config, first, c, config.maxEntries - 1), Other(1), c, config.maxEntries)
  {
    Filled(config, first, c, config.maxEntries - 1);
    FullInsertEvictsOldest(config, Filling(config, first, c, config.maxEntries - 1), first, Other(1), c,
                          config.maxEntries);
  }

  lemma FullInsertEvictsOldest(config: Config, es: Entries, oldest: CacheKey, key: CacheKey, c: Credential, now: nat)
    requires |es| == config.maxEntries && oldest in es && key != oldest
    requires forall j :: j in es && j != oldest ==> es[j].lastAccess > es[oldest].lastAccess
    ensures oldest !in Insert(config, es, key, c, now)
  {
    var k := LeastRecent(es);
    assert k == oldest || Older(es, k, oldest);
    EvictMakesRoom(es - {oldest}, config.maxEntries);
  }

  lemma {:induction false} FillSpares(n: nat, c: Credential, first: CacheKey)
    requires first.identityHash != "o"
    ensures forall i :: 0 <= i < |Fill(n, c)| ==> Spares(Fill(n, c)[i], first)
  {
    if n > 0 { FillSpares(n - 1, c, first); }
  }

  // ----- Revocation delivery -----

  ghost function Subscriptions(ops: seq<Op>): nat {
    if ops == [] then 0
    else Subscriptions(ops[..|ops| - 1]) + if ops[|ops| - 1].SubscribeOp? then 1 else 0
  }

  /** Subscription number `id` has been taken and its guard not yet dropped. */
  ghost predicate Attached(ops: seq<Op>, id: nat) {
    ops != [] &&
    var pre, op := ops[..|ops| - 1], ops[|ops| - 1];
    match op
    case SubscribeOp => Subscriptions(pre) == id || Attached(pre, id)
    case UnsubscribeOp(i) => i != id && Attached(pre, id)
    case _ => Attached(pre, id)
  }

  /** The (plugin, target) pairs one operation revokes, whoever listens. */
  ghost function Announced(es: Entries, op: Op): seq<(string, string)> {
    match op
    case InvalidateOp(key) => [(key.pluginId, key.target)]
    case InvalidatePluginOp(plugin) => Pairs(PluginKeys(es, plugin))
    case _ => []
  }

  ghost function Pairs(keys: seq<CacheKey>): seq<(string, string)> {
    if keys == [] then []
    else Pairs(keys[..|keys| - 1]) + [(keys[|keys| - 1].pluginId, keys[|keys| - 1].target)]
  }

  /** What subscription `id` ought to hear: every announcement made while it
      is attached, in order. */
  ghost function Heard(config: Config, ops: seq<Op>, id: nat): seq<(string, string)> {
    if ops == [] then []
    else
      var pre := ops[..|ops| - 1];
      Heard(config, pre, id) +
      if Attached(pre, id) then Announced(Run(config, pre).entries, ops[|ops| - 1]) else []
  }

  /** The calls actually made to one subscriber. */
  ghost function CallsTo(fired: seq<Firing>, id: nat): seq<(string, string)> {
    if fired == [] then []
    else
      var last := fired[|fired| - 1];
      CallsTo(fired[..|fired| - 1], id) + if last.subscriber == id then [(last.pluginId, last.target)] else []
  }

  lemma {:induction false} CallsAppend(a: seq<Firing>, b: seq<Firing>, id: nat)
    ensures CallsTo(a + b, id) == CallsTo(a, id) + CallsTo(b, id)
    decreases |b|
  {
    if b == [] {
      assert a + b == a;
    } else {
      assert (a + b)[..|a + b| - 1] == a + b[..|b| - 1];
      CallsAppend(a, b[..|b| - 1], id);
    }
  }

  /** In the order in which the subscriptions were made. */
  ghost predicate Ascending(ids: seq<nat>) {
    forall i, j :: 0 <= i < j < |ids| ==> ids[i] < ids[j]
  }

  lemma AscendingAppend(ids: seq<nat>, id: nat)
    requires Ascending(ids) && forall x :: x in ids ==> x < id
    ensures Ascending(ids + [id])
  {
    forall i | 0 <= i < |ids| ensures ids[i] < id { assert ids[i] in ids; }
  }

  lemma {:induction false} FanCalls(subs: seq<nat>, plugin: string, target: string, id: nat)
    requires Distinct(subs)
    ensures CallsTo(Fan(subs, plugin, target), id) == if id in subs then [(plugin, target)] else []
    decreases |subs|
  {
    if subs != [] {
      var n := |subs| - 1;
      assert Fan(subs, plugin, target)[..n] == Fan(subs[..n], plugin, target);
      FanCalls(subs[..n], plugin, target, id);
      assert subs == subs[..n] + [subs[n]];
    }
  }

  lemma {:induction false} FanAllCalls(subs: seq<nat>, keys: seq<CacheKey>, id: nat)
    requires Distinct(subs)
    ensures CallsTo(FanAll(subs, keys), id) == if id in subs then Pairs(keys) else []
    decreases |keys|
  {
    if keys != [] {
      var last := keys[|keys| - 1];
      FanAllCalls(subs, keys[..|keys| - 1], id);
      FanCalls(subs, last.pluginId, last.target, id);
      CallsAppend(FanAll(subs, keys[..|keys| - 1]), Fan(subs, last.pluginId, last.target), id);
    }
  }

  lemma {:induction false} RetainDropsOne(subs: seq<nat>, id: nat)
    requires Ascending(subs)
    ensures Ascending(Retain(subs, id))
    ensures forall x :: x in Retain(subs, id) <==> x in subs && x != id
    decreases |subs|
  {
    if subs != [] {
      var n := |subs| - 1;
      RetainDropsOne(subs[..n], id);
      assert subs == subs[..n] + [subs[n]];
      AscendingAppend(Retain(subs[..n], id), subs[n]);
    }
  }

  /** Ids are never shared while the id counter has not wrapped, and the list
      stays in the order of subscription. */
  lemma {:induction false} SubscribersAreAttached(config: Config, ops: seq<Op>)
    requires Subscriptions(ops) < U64
    ensures var s := Run(config, ops);
            && s.nextSubscriber == Subscriptions(ops)
            && Ascending(s.subscribers)
            && (forall id :: id in s.subscribers <==> Attached(ops, id))
            && (forall id :: id in s.subscribers ==> id < s.nextSubscriber)
    decreases |ops|
  {
    if ops != [] {
      var pre, op := ops[..|ops| - 1], ops[|ops| - 1];
      SubscribersAreAttached(config, pre);
      var s := Run(config, pre);
      if op.UnsubscribeOp? { RetainDropsOne(s.subscribers, op.id); }
      if op.SubscribeOp? { AscendingAppend(s.subscribers, s.nextSubscriber); }
    }
  }

  function CycledIds(n: nat): seq<nat> {
    seq(n, i requires 0 <= i < n => i % 0x1_0000_0000_0000_0000)
  }

  lemma NextInCycle(n: nat)
    ensures (n % U64 + 1) % U64 == (n + 1) % U64
    ensures CycledIds(n) + [n % U64] == CycledIds(n + 1)
  {
  }

  lemma RunNothing(config: Config)
    ensures Run(config, []) == INITIAL
  {
  }

  lemma {:induction false} SubscribersCycle(config: Config, n: nat)
    ensures var s := Run(config, seq(n, _ => SubscribeOp));
            s.nextSubscriber == n % 0x1_0000_0000_0000_0000 && s.subscribers == CycledIds(n)
    decreases n
  {
    hide Run, CycledIds;
    if n == 0 {
      assert seq(0, _ => SubscribeOp) == [];
      RunNothing(config);
      NoCycle();
    } else {
      var before: seq<Op> := seq(n - 1, _ => SubscribeOp);
      SubscribersCycle(config, n - 1);
      RunSnoc(config, before, SubscribeOp);
      NextInCycle(n - 1);
      assert seq(n, _ => SubscribeOp) == before + [SubscribeOp];
    }
  }

  lemma NoCycle()
    ensures CycledIds(0) == []
  {
  }

  /** The bound on subscriptions is needed: number 2^64 gets the id of the first,
      and dropping the guard of one then detaches both. */
  lemma WrappedIdIsShared(config: Config)
    ensures var ops: seq<Op> := seq(U64 + 1, _ => SubscribeOp);
            var s := Run(config, ops);
            && |s.subscribers| == 0x1_0000_0000_0000_0001
            && s.subscribers[0] == s.subscribers[0x1_0000_0000_0000_0000] == 0
            && 0 !in Apply(config, s, UnsubscribeOp(0)).subscribers
  {
    hide Run;
    SubscribersCycle(config, U64 + 1);
    RetainDropsAll(Run(config, seq(U64 + 1, _ => SubscribeOp)).subscribers, 0);
  }

  lemma {:induction false} RetainDropsAll(subs: seq<nat>, id: nat)
    ensures id !in Retain(subs, id)
    decreases |subs|
  {
    if subs != [] { RetainDropsAll(subs[..|subs| - 1], id); }
  }

  /** One operation's calls to one subscriber: its announcements, if it listens. */
  lemma OperationIsHeard(config: Config, s: State, op: Op, id: nat)
    requires Distinct(s.subscribers)
    ensures CallsTo(Apply(config, s, op).fired, id)
         == CallsTo(s.fired, id) + if id in s.subscribers then Announced(s.entries, op) else []
  {
    match op
    case InvalidateOp(key) =>
      FanCalls(s.subscribers, key.pluginId, key.target, id);
      CallsAppend(s.fired, Fan(s.subscribers, key.pluginId, key.target), id);
    case InvalidatePluginOp(plugin) =>
      FanAllCalls(s.subscribers, PluginKeys(s.entries, plugin), id);
      CallsAppend(s.fired, FanAll(s.subscribers, PluginKeys(s.entries, plugin)), id);
    case _ =>
  }

  /** Each subscriber is called exactly for what was revoked between its
      subscription and its guard's drop, in order, once each; other
      subscribers coming and going do not change that. */
  lemma {:induction false} SubscriberHearsExactly(config: Config, ops: seq<Op>, id: nat)
    requires Subscriptions(ops) < U64
    ensures CallsTo(Run(config, ops).fired, id) == Heard(config, ops, id)
    decreases |ops|
  {
    if ops != [] {
      var pre, op := ops[..|ops| - 1], ops[|ops| - 1];
      SubscriberHearsExactly(config, pre, id);
      SubscribersAreAttached(config, pre);
      OperationIsHeard(config, Run(config, pre), op, id);
    }
  }

  /** Shutting a plugin down announces each of its cached keys exactly once, in
      key order, and removes those entries and no others. */
  lemma PluginShutdownIsExact(es: Entries, plugin: string)
    ensures var keys := PluginKeys(es, plugin);
            && (forall k :: k in keys <==> k in es && k.pluginId == plugin)
            && (forall i, j :: 0 <= i < j < |keys| ==> keys[i] != keys[j] && Precedes(keys[i], keys[j]))
            && WithoutPlugin(es, plugin) == es - (set k | k in keys)
  {
    KeyLtStrictTotal();
    SortedEnumerates((set k | k in es && k.pluginId == plugin), KeyLt);
    var keys := PluginKeys(es, plugin);
    forall i, j | 0 <= i < j < |keys| ensures keys[i] != keys[j] && Precedes(keys[i], keys[j]) {
      assert KeyLt(keys[i], keys[j]);
      KeyLtIff(keys[i], keys[j]);
    }
  }
}
