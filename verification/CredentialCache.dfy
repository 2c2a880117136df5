/** The credential cache: a map with an expiry deadline and an access time per
    entry, least-recently-used eviction on insertion, and revocation
    subscribers that are called while the lock is held. Times are milliseconds. */
module CredentialCache {
  import opened Wrappers
  import opened Orders
  import Strings

  datatype CacheKey = CacheKey(identityHash: string, pluginId: string, target: string)

  datatype Credential = Credential(value: Option<string>, parts: map<string, string>, ttlSeconds: nat)

  datatype Entry = Entry(credential: Credential, expiresAt: nat, lastAccess: nat)

  type Entries = map<CacheKey, Entry>

  datatype Config = Config(maxEntries: nat, maxCacheTtl: nat)

  /** One revocation callback invocation. */
  datatype Firing = Firing(subscriber: nat, pluginId: string, target: string)

  /** Everything behind the mutex, with the callbacks made so far. */
  datatype State = State(entries: Entries, subscribers: seq<nat>, nextSubscriber: nat, fired: seq<Firing>)

  const INITIAL := State(map[], [], 0, [])

  const U64: nat := 0x1_0000_0000_0000_0000

  // ----- Key order -----

  predicate KeyLt(a: CacheKey, b: CacheKey) {
    if a.identityHash != b.identityHash then Strings.Lt(a.identityHash, b.identityHash)
    else if a.pluginId != b.pluginId then Strings.Lt(a.pluginId, b.pluginId)
    else Strings.Lt(a.target, b.target)
  }

  lemma KeyLtStrictTotal()
    ensures StrictTotal(KeyLt)
  {
    Strings.LtStrictTotal();
    forall x: CacheKey, y: CacheKey, z: CacheKey | KeyLt(x, y) && KeyLt(y, z) ensures KeyLt(x, z) {
      KeyLtTransitive(x, y, z);
    }
  }

  lemma KeyLtTransitive(x: CacheKey, y: CacheKey, z: CacheKey)
    requires StrictTotal(Strings.Lt) && KeyLt(x, y) && KeyLt(y, z)
    ensures KeyLt(x, z)
  {}

  // ----- Lookup and insertion -----

  function Lifetime(config: Config, c: Credential): nat {
    if 1000 * c.ttlSeconds <= config.maxCacheTtl then 1000 * c.ttlSeconds else config.maxCacheTtl
  }

  /** A live entry is served and its access time refreshed; an expired one is
      removed. */
  function Lookup(es: Entries, key: CacheKey, now: nat): (Entries, Option<Credential>) {
    if key !in es then (es, None)
    else if es[key].expiresAt <= now then (es - {key}, None)
    else (es[key := es[key].(lastAccess := now)], Some(es[key].credential))
  }

  function LastAccess(es: Entries, k: CacheKey): nat {
    if k in es then es[k].lastAccess else 0
  }

  /** Eviction order: access time, then position in the ordered map. */
  predicate Older(es: Entries, a: CacheKey, b: CacheKey) {
    LastAccess(es, a) < LastAccess(es, b) || (LastAccess(es, a) == LastAccess(es, b) && KeyLt(a, b))
  }

  function AccessOrder(es: Entries): (CacheKey, CacheKey) -> bool {
    (a: CacheKey, b: CacheKey) => Older(es, a, b)
  }

  lemma AccessOrderStrictTotal(es: Entries)
    ensures StrictTotal(AccessOrder(es))
  {
    KeyLtStrictTotal();
    var lt := AccessOrder(es);
    forall x: CacheKey, y: CacheKey, z: CacheKey | lt(x, y) && lt(y, z) ensures lt(x, z) {}
  }

  ghost function LeastRecent(es: Entries): (k: CacheKey)
    requires es != map[]
    ensures k in es && forall j :: j in es && j != k ==> Older(es, k, j)
  {
    AccessOrderStrictTotal(es);
    var k := Least(es.Keys, AccessOrder(es));
    assert forall j :: j in es.Keys && j != k ==> AccessOrder(es)(k, j);
    k
  }

  ghost function Evict(es: Entries, max: nat): Entries
    decreases |es|
  {
    if |es| >= max && es != map[] then Evict(es - {LeastRecent(es)}, max) else es
  }

  /** Room is made before looking whether the key is already present. */
  ghost function Insert(config: Config, es: Entries, key: CacheKey, c: Credential, now: nat): Entries {
    Evict(es, config.maxEntries)[key := Entry(c, now + Lifetime(config, c), now)]
  }

  // ----- Invalidation and its fan-out -----

  /** The order in which the ordered map yields these keys. */
  ghost function InKeyOrder(keys: set<CacheKey>): seq<CacheKey> {
    KeyLtStrictTotal();
    Sorted(keys, KeyLt)
  }

  ghost function PluginKeys(es: Entries, plugin: string): seq<CacheKey> {
    InKeyOrder(set k | k in es && k.pluginId == plugin)
  }

  function WithoutPlugin(es: Entries, plugin: string): Entries {
    map k | k in es && k.pluginId != plugin :: es[k]
  }

  function Fan(subscribers: seq<nat>, plugin: string, target: string): seq<Firing> {
    seq(|subscribers|, i requires 0 <= i < |subscribers| => Firing(subscribers[i], plugin, target))
  }

  function FanAll(subscribers: seq<nat>, keys: seq<CacheKey>): seq<Firing> {
    if keys == [] then [] else
      FanAll(subscribers, keys[..|keys| - 1]) +
      Fan(subscribers, keys[|keys| - 1].pluginId, keys[|keys| - 1].target)
  }

  function Retain(subscribers: seq<nat>, id: nat): seq<nat> {
    if subscribers == [] then []
    else Retain(subscribers[..|subscribers| - 1], id) +
         if subscribers[|subscribers| - 1] == id then [] else [subscribers[|subscribers| - 1]]
  }

  // ----- The lock-held operations as one transition function -----

  datatype Op =
    | LookupOp(key: CacheKey, now: nat)
    | InsertOp(key: CacheKey, credential: Credential, now: nat)
    | InvalidateOp(key: CacheKey)
    | InvalidatePluginOp(plugin: string)
    | SubscribeOp
    | UnsubscribeOp(id: nat)

  ghost function Apply(config: Config, s: State, op: Op): State {
    match op
    case LookupOp(key, now) => s.(entries := Lookup(s.entries, key, now).0)
    case InsertOp(key, c, now) => s.(entries := Insert(config, s.entries, key, c, now))
    case InvalidateOp(key) =>
      s.(entries := s.entries - {key}, fired := s.fired + Fan(s.subscribers, key.pluginId, key.target))
    case InvalidatePluginOp(plugin) =>
      s.(entries := WithoutPlugin(s.entries, plugin),
         fired := s.fired + FanAll(s.subscribers, PluginKeys(s.entries, plugin)))
    case SubscribeOp =>
      s.(subscribers := s.subscribers + [s.nextSubscriber], nextSubscriber := (s.nextSubscriber + 1) % U64)
    case UnsubscribeOp(id) => s.(subscribers := Retain(s.subscribers, id))
  }

  ghost function Run(config: Config, ops: seq<Op>): State
    decreases |ops|
  {
    if ops == [] then INITIAL else Apply(config, Run(config, ops[..|ops| - 1]), ops[|ops| - 1])
  }

  /** From any state. */
  ghost function RunFrom(config: Config, s: State, ops: seq<Op>): State
    decreases |ops|
  {
    if ops == [] then s else RunFrom(config, Apply(config, s, ops[0]), ops[1..])
  }

  /** What an issuer's answer leaves in the cache; a refusal stores nothing. */
  ghost function Stored(config: Config, s: State, key: CacheKey, answer: Result<Credential, string>, now: nat): State {
    if answer.Ok? then Apply(config, s, InsertOp(key, answer.value, now)) else s
  }

  // ----- The cache object -----

  method LeastKey(s: set<CacheKey>) returns (m: CacheKey)
    requires s != {}
    ensures m in s && InKeyOrder(s) == [m] + InKeyOrder(s - {m})
  {
    KeyLtStrictTotal();
    m := FindLeast(s, KeyLt);
  }

  class Cache {
    const config: Config
    var entries: Entries
    var subscribers: seq<nat>
    var nextSubscriber: nat
    var fired: seq<Firing>

    ghost function View(): State
      reads this
    {
      State(entries, subscribers, nextSubscriber, fired)
    }

    constructor (config: Config)
      ensures this.config == config && View() == INITIAL
    {
      this.config := config;
      entries, subscribers, nextSubscriber, fired := map[], [], 0, [];
    }

    method LookupLocked(key: CacheKey, now: nat) returns (hit: Option<Credential>)
      modifies this
      ensures View() == Apply(config, old(View()), LookupOp(key, now))
      ensures hit == Lookup(old(entries), key, now).1
    {
      if key !in entries { return None; }
      if entries[key].expiresAt <= now {
        entries := entries - {key};
        return None;
      }
      entries := entries[key := entries[key].(lastAccess := now)];
      return Some(entries[key].credential);
    }

    method FindLeastRecent() returns (k: CacheKey)
      requires entries != map[]
      ensures k == LeastRecent(entries)
    {
      AccessOrderStrictTotal(entries);
      k := FindLeast(entries.Keys, AccessOrder(entries));
    }

    method MakeRoom()
      modifies this`entries
      ensures entries == Evict(old(entries), config.maxEntries)
    {
      while |entries| >= config.maxEntries
        invariant Evict(entries, config.maxEntries) == Evict(old(entries), config.maxEntries)
        decreases |entries|
      {
        if entries == map[] { break; }
        var k := FindLeastRecent();
        entries := entries - {k};
      }
    }

    method InsertLocked(key: CacheKey, credential: Credential, now: nat)
      modifies this
      ensures View() == Apply(config, old(View()), InsertOp(key, credential, now))
    {
      var entry := Entry(credential, now + Lifetime(config, credential), now);
      MakeRoom();
      entries := entries[key := entry];
    }

    method NotifyRevoked(plugin: string, target: string)
      modifies this`fired
      ensures fired == old(fired) + Fan(subscribers, plugin, target)
    {
      var i := 0;
      while i < |subscribers|
        invariant 0 <= i <= |subscribers|
        invariant fired == old(fired) + Fan(subscribers, plugin, target)[..i]
      {
        fired := fired + [Firing(subscribers[i], plugin, target)];
        i := i + 1;
      }
    }

    method Invalidate(key: CacheKey)
      modifies this
      ensures View() == Apply(config, old(View()), InvalidateOp(key))
    {
      entries := entries - {key};
      NotifyRevoked(key.pluginId, key.target);
    }

    /** The plugin's entries in map order: the scan both iterator passes of
        the source make. */
    method PluginScan(plugin: string) returns (keys: seq<CacheKey>, credentials: seq<Credential>)
      ensures keys == PluginKeys(entries, plugin)
      ensures |credentials| == |keys|
      ensures forall i :: 0 <= i < |keys| ==>
                keys[i] in entries && keys[i].pluginId == plugin && credentials[i] == entries[keys[i]].credential
    {
      var rest := set k | k in entries && k.pluginId == plugin;
      keys, credentials := [], [];
      while rest != {}
        invariant keys + InKeyOrder(rest) == PluginKeys(entries, plugin)
        invariant forall k :: k in rest ==> k in entries && k.pluginId == plugin
        invariant |credentials| == |keys|
        invariant forall i :: 0 <= i < |keys| ==>
                    keys[i] in entries && keys[i].pluginId == plugin && credentials[i] == entries[keys[i]].credential
        decreases |rest|
      {
        var k := LeastKey(rest);
        assert keys + InKeyOrder(rest) == keys + [k] + InKeyOrder(rest - {k});
        keys, credentials, rest := keys + [k], credentials + [entries[k].credential], rest - {k};
      }
    }

    method InvalidatePlugin(plugin: string) returns (evicted: seq<Credential>)
      modifies this
      ensures View() == Apply(config, old(View()), InvalidatePluginOp(plugin))
      ensures |evicted| == |PluginKeys(old(entries), plugin)|
      ensures forall i :: 0 <= i < |evicted| ==>
                PluginKeys(old(entries), plugin)[i] in old(entries)
                && evicted[i] == old(entries)[PluginKeys(old(entries), plugin)[i]].credential
    {
      var keys;
      keys, evicted := PluginScan(plugin);
      entries := WithoutPlugin(entries, plugin);
      var i := 0;
      while i < |keys|
        invariant 0 <= i <= |keys|
        invariant entries == WithoutPlugin(old(entries), plugin)
        invariant subscribers == old(subscribers) && nextSubscriber == old(nextSubscriber)
        invariant fired == old(fired) + FanAll(subscribers, keys[..i])
      {
        NotifyRevoked(plugin, keys[i].target);
        assert keys[..i + 1][..i] == keys[..i];
        i := i + 1;
      }
      assert keys[..i] == keys;
    }

    method OnRevoked() returns (id: nat)
      modifies this
      ensures id == old(nextSubscriber)
      ensures View() == Apply(config, old(View()), SubscribeOp)
    {
      id := nextSubscriber;
      nextSubscriber := (id + 1) % U64;
      subscribers := subscribers + [id];
    }

    /** What dropping a subscription guard does. */
    method DropSubscription(id: nat)
      modifies this
      ensures View() == Apply(config, old(View()), UnsubscribeOp(id))
    {
      var kept, i := [], 0;
      while i < |subscribers|
        invariant 0 <= i <= |subscribers|
        invariant View() == old(View())
        invariant kept == Retain(subscribers[..i], id)
      {
        if subscribers[i] != id { kept := kept + [subscribers[i]]; }
        assert subscribers[..i + 1][..i] == subscribers[..i];
        i := i + 1;
      }
      assert subscribers[..i] == subscribers;
      subscribers := kept;
    }

    /** One lock-held operation of some task. */
    method Perform(op: Op)
      modifies this
      ensures View() == Apply(config, old(View()), op)
    {
      match op {
        case LookupOp(key, now) => var _ := LookupLocked(key, now);
        case InsertOp(key, credential, now) => InsertLocked(key, credential, now);
        case InvalidateOp(key) => Invalidate(key);
        case InvalidatePluginOp(plugin) => var _ := InvalidatePlugin(plugin);
        case SubscribeOp => var _ := OnRevoked();
        case UnsubscribeOp(id) => DropSubscription(id);
      }
    }

    /** What other tasks do while this one waits. */
    method PerformAll(ops: seq<Op>)
      modifies this
      ensures View() == RunFrom(config, old(View()), ops)
    {
      var i := 0;
      while i < |ops|
        invariant 0 <= i <= |ops|
        invariant RunFrom(config, View(), ops[i..]) == RunFrom(config, old(View()), ops)
      {
        assert ops[i..][1..] == ops[i + 1..];
        Perform(ops[i]);
        i := i + 1;
      }
    }

    /** Look up, and on a miss store what the issuer answered under the clock
        reading taken before the issuer was called. The lock is free while the
        issuer is awaited: `meanwhile` is what other tasks do then. */
    method GetOrIssue(key: CacheKey, issued: Result<Credential, string>, now: nat, meanwhile: seq<Op>)
      returns (r: Result<Credential, string>, issuerCalled: bool)
      modifies this
      ensures var (es, hit) := Lookup(old(entries), key, now);
              var looked := old(View()).(entries := es);
              && issuerCalled == hit.None?
              && r == (if hit.Some? then Ok(hit.value) else issued)
              && View() == if hit.Some? then looked
                           else Stored(config, RunFrom(config, looked, meanwhile), key, issued, now)
    {
      var hit := LookupLocked(key, now);
      if hit.Some? { return Ok(hit.value), false; }
      PerformAll(meanwhile);
      if issued.Ok? { InsertLocked(key, issued.value, now); }
      return issued, true;
    }
  }
}
