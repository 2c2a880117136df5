/** A cluster of nodes on one event topic whose network may lose, duplicate and
    reorder: delivering any published event any number of times, to any node,
    at any moment, is a legal step. Every lock-held section is one step. */
module Cluster {
  import opened Wrappers
  import opened CredentialCache
  import opened CredentialCacheProperties
  import opened ClusteredCache
  import opened SeenEvents

  datatype Issuance = Issuance(key: CacheKey, credential: Credential)

  /** Where a cached entry came from. */
  datatype Origin = OwnIssuer(at: nat) | Peer(event: CacheEvent, clock: Reads)

  datatype Replica = Replica(state: NodeState, origin: map<CacheKey, Origin>)

  /** `issued` is every credential any issuer handed out, under the key it was
      asked for; `published` every event ever put on the topic. */
  datatype World = World(replicas: map<string, Replica>, issued: set<Issuance>, published: set<CacheEvent>)

  datatype Step =
    | LookupStep(n: string, key: CacheKey, now: nat)
    | IssueStep(n: string, key: CacheKey, credential: Credential, now: nat)
    | PublishIssuedStep(n: string, key: CacheKey, credential: Credential, now: nat, eventId: string)
    | InvalidateStep(n: string, key: CacheKey)
    | PublishRevokedStep(n: string, key: CacheKey, now: nat, eventId: string)
    | InvalidatePluginStep(n: string, plugin: string)
    | DeliverStep(n: string, event: CacheEvent, clock: Reads)

  type Nodes = map<string, Node>

  ghost function Start(nodes: Nodes): World {
    World(map n | n in nodes :: Replica(FRESH_NODE, map[]), {}, {})
  }

  /** What may be published is what was issued; what may arrive was published. */
  ghost predicate Enabled(w: World, step: Step) {
    && step.n in w.replicas
    && (step.PublishIssuedStep? ==> Issuance(step.key, step.credential) in w.issued)
    && (step.DeliverStep? ==> step.event in w.published)
  }

  ghost function Locally(nodes: Nodes, r: Replica, n: string, op: Op, origin: map<CacheKey, Origin>): Replica
    requires n in nodes
  {
    Replica(r.state.(local := Apply(nodes[n].cache, r.state.local, op)), origin)
  }

  ghost function Next(nodes: Nodes, w: World, step: Step): World
    requires step.n in nodes && Enabled(w, step)
  {
    var n, r := step.n, w.replicas[step.n];
    match step
    case LookupStep(_, key, now) =>
      w.(replicas := w.replicas[n := Locally(nodes, r, n, LookupOp(key, now), r.origin)])
    case IssueStep(_, key, c, now) =>
      w.(replicas := w.replicas[n := Locally(nodes, r, n, InsertOp(key, c, now), r.origin[key := OwnIssuer(now)])],
         issued := w.issued + {Issuance(key, c)})
    case PublishIssuedStep(_, key, c, now, id) => w.(published := w.published + {Issued(key, c, n, now, id)})
    case InvalidateStep(_, key) =>
      w.(replicas := w.replicas[n := Locally(nodes, r, n, InvalidateOp(key), r.origin)])
    case PublishRevokedStep(_, key, now, id) => w.(published := w.published + {Revoked(key, n, now, id)})
    case InvalidatePluginStep(_, plugin) =>
      w.(replicas := w.replicas[n := Locally(nodes, r, n, InvalidatePluginOp(plugin), r.origin)])
    case DeliverStep(_, e, clock) =>
      var (s, outcome) := Deliver(nodes[n], r.state, e, clock);
      var origin := if outcome == Applied && e.Issued? then r.origin[e.key := Peer(e, clock)] else r.origin;
      w.(replicas := w.replicas[n := Replica(s, origin)])
  }

  /** `w` is reached from the start by `steps`, each enabled when taken. */
  ghost predicate Reaches(nodes: Nodes, steps: seq<Step>, w: World) {
    if steps == [] then w == Start(nodes)
    else
      var last := steps[|steps| - 1];
      exists v :: Reaches(nodes, steps[..|steps| - 1], v) && last.n in nodes && Enabled(v, last)
                  && w == Next(nodes, v, last)
  }

  // ----- Provenance and staleness -----

  /** The entry lives no longer than its credential, nor than the cap. */
  predicate Bounded(config: Config, e: Entry, at: nat) {
    e.expiresAt <= at + 1000 * e.credential.ttlSeconds && e.expiresAt <= at + config.maxCacheTtl
  }

  /** The entry is an issuance for its very key, by this node or by a peer that
      is not this node, is on its list if it has one, and whose event was at most
      five minutes from the node's clock when applied. */
  ghost predicate Traced(w: World, node: Node, r: Replica, key: CacheKey)
    requires key in r.state.local.entries
  {
    var e := r.state.local.entries[key];
    && key in r.origin
    && Issuance(key, e.credential) in w.issued
    && match r.origin[key]
       case OwnIssuer(at) => Bounded(node.cache, e, at)
       case Peer(event, clock) =>
         && event in w.published && event.Issued? && event.key == key && event.credential == e.credential
         && event.publishedBy != node.id && (node.allowed == [] || event.publishedBy in node.allowed)
         && key.identityHash != "" && key.pluginId != "" && key.target != ""
         && (event.publishedAtMs == 0 ||
             (event.publishedAtMs <= clock.freshness + 300_000 && clock.freshness <= event.publishedAtMs + 300_000))
         && Bounded(node.cache, e, clock.insert)
  }

  ghost predicate AllTraced(nodes: Nodes, w: World) {
    && w.replicas.Keys == nodes.Keys
    && (forall e :: e in w.published && e.Issued? ==> Issuance(e.key, e.credential) in w.issued)
    && (forall n, k :: n in w.replicas && k in w.replicas[n].state.local.entries ==>
          Traced(w, nodes[n], w.replicas[n], k))
  }

  /** No operation changes what an entry it keeps holds, except the insertion
      that writes it. */
  lemma ApplyKeepsEntries(config: Config, s: State, op: Op)
    ensures var es := Apply(config, s, op).entries;
            forall k :: k in es && !(op.InsertOp? && op.key == k) ==>
              k in s.entries && es[k].credential == s.entries[k].credential && es[k].expiresAt == s.entries[k].expiresAt
    ensures op.InsertOp? ==>
              var es := Apply(config, s, op).entries;
              op.key in es && es[op.key] == Entry(op.credential, op.now + Lifetime(config, op.credential), op.now)
  {
    if op.InsertOp? { EvictMakesRoom(s.entries, config.maxEntries); }
  }

  /** A node's own step keeps its entries traced. */
  lemma OwnStepStaysTraced(nodes: Nodes, w: World, step: Step, k: CacheKey)
    requires step.n in nodes && Enabled(w, step) && AllTraced(nodes, w) && !step.DeliverStep?
    requires k in Next(nodes, w, step).replicas[step.n].state.local.entries
    ensures Traced(Next(nodes, w, step), nodes[step.n], Next(nodes, w, step).replicas[step.n], k)
  {
    var n, config := step.n, nodes[step.n].cache;
    var r := w.replicas[n];
    assert k in r.state.local.entries ==> Traced(w, nodes[n], r, k);
    match step
    case LookupStep(_, key, now) => ApplyKeepsEntries(config, r.state.local, LookupOp(key, now));
    case IssueStep(_, key, c, now) => ApplyKeepsEntries(config, r.state.local, InsertOp(key, c, now));
    case InvalidateStep(_, key) => ApplyKeepsEntries(config, r.state.local, InvalidateOp(key));
    case InvalidatePluginStep(_, plugin) => ApplyKeepsEntries(config, r.state.local, InvalidatePluginOp(plugin));
    case _ =>
  }

  lemma DeliveryStaysTraced(nodes: Nodes, w: World, n: string, e: CacheEvent, clock: Reads, k: CacheKey)
    requires n in nodes && Enabled(w, DeliverStep(n, e, clock)) && AllTraced(nodes, w)
    requires k in Next(nodes, w, DeliverStep(n, e, clock)).replicas[n].state.local.entries
    ensures var w' := Next(nodes, w, DeliverStep(n, e, clock)); Traced(w', nodes[n], w'.replicas[n], k)
  {
    hide Check, Apply;
    var r := w.replicas[n];
    assert k in r.state.local.entries ==> Traced(w, nodes[n], r, k);
    ApplyKeepsEntries(nodes[n].cache, r.state.local, Effect(e, clock));
  }

  lemma ReplicaStaysTraced(nodes: Nodes, w: World, step: Step, k: CacheKey)
    requires step.n in nodes && Enabled(w, step) && AllTraced(nodes, w)
    requires k in Next(nodes, w, step).replicas[step.n].state.local.entries
    ensures Traced(Next(nodes, w, step), nodes[step.n], Next(nodes, w, step).replicas[step.n], k)
  {
    if step.DeliverStep? {
      DeliveryStaysTraced(nodes, w, step.n, step.event, step.clock, k);
    } else {
      OwnStepStaysTraced(nodes, w, step, k);
    }
  }

  lemma NextStaysTraced(nodes: Nodes, w: World, step: Step)
    requires step.n in nodes && Enabled(w, step) && AllTraced(nodes, w)
    ensures AllTraced(nodes, Next(nodes, w, step))
  {
    var w' := Next(nodes, w, step);
    forall n, k | n in w'.replicas && k in w'.replicas[n].state.local.entries
      ensures Traced(w', nodes[n], w'.replicas[n], k)
    {
      if n == step.n {
        ReplicaStaysTraced(nodes, w, step, k);
      } else {
        assert w'.replicas[n] == w.replicas[n] && Traced(w, nodes[n], w.replicas[n], k);
      }
    }
  }

  lemma {:induction false} ReachableIsTraced(nodes: Nodes, steps: seq<Step>, w: World)
    requires Reaches(nodes, steps, w)
    ensures AllTraced(nodes, w)
    decreases |steps|
  {
    if steps != [] {
      var last := steps[|steps| - 1];
      var v :| Reaches(nodes, steps[..|steps| - 1], v) && last.n in nodes && Enabled(v, last)
               && w == Next(nodes, v, last);
      ReachableIsTraced(nodes, steps[..|steps| - 1], v);
      NextStaysTraced(nodes, v, last);
    }
  }

  /** A step takes effect at its own node and no other: what is issued there, or
      arrives and is applied, is served until its lifetime or the cap is over;
      what is revoked, or falls to a plugin's shutdown, is gone. */
  lemma StepTakesEffect(nodes: Nodes, w: World, step: Step, now: nat)
    requires step.n in nodes && Enabled(w, step)
    ensures var w', config := Next(nodes, w, step), nodes[step.n].cache;
            && w'.replicas.Keys == w.replicas.Keys
            && (forall m :: m in w.replicas && m != step.n ==> w'.replicas[m] == w.replicas[m])
            && var es := w'.replicas[step.n].state.local.entries;
               match step
               case LookupStep(_, key, at) => key in es ==> at < es[key].expiresAt && es[key].lastAccess == at
               case IssueStep(_, key, c, at) => HeldFor(config, es, key, c, at, now)
               case InvalidateStep(_, key) => key !in es
               case InvalidatePluginStep(_, plugin) => forall k :: k in es ==> k.pluginId != plugin
               case DeliverStep(_, e, clock) =>
                 Deliver(nodes[step.n], w.replicas[step.n].state, e, clock).1 == Applied ==>
                   if e.Issued? then HeldFor(config, es, e.key, e.credential, clock.insert, now) else e.key !in es
               case _ => w'.replicas == w.replicas
  {
    hide Check;
    var config, local := nodes[step.n].cache, w.replicas[step.n].state.local;
    if step.IssueStep? { ApplyKeepsEntries(config, local, InsertOp(step.key, step.credential, step.now)); }
    if step.DeliverStep? { ApplyKeepsEntries(config, local, Effect(step.event, step.clock)); }
  }

  ghost predicate HeldFor(config: Config, es: Entries, key: CacheKey, c: Credential, at: nat, now: nat) {
    Lookup(es, key, now).1
    == if now < at + 1000 * c.ttlSeconds && now < at + config.maxCacheTtl then Some(c) else None
  }

  /** Whatever any node ever serves for (hash, plugin, target) was issued by
      some node's issuer for exactly that triple. */
  lemma ServedCredentialWasIssued(nodes: Nodes, steps: seq<Step>, w: World, n: string, key: CacheKey, now: nat)
    requires Reaches(nodes, steps, w) && n in w.replicas
    ensures var hit := Lookup(w.replicas[n].state.local.entries, key, now).1;
            hit.Some? ==> Issuance(key, hit.value) in w.issued
  {
    ReachableIsTraced(nodes, steps, w);
    if key in w.replicas[n].state.local.entries {
      assert Traced(w, nodes[n], w.replicas[n], key);
    }
  }

  /** A credential served at `now` from a stamped peer event was published less
      than five minutes and its lifetime, or the cap, before, but for the time
      the event spent between the freshness check and the insertion. */
  lemma ServedEventIsRecent(nodes: Nodes, steps: seq<Step>, w: World, n: string, key: CacheKey, now: nat)
    requires Reaches(nodes, steps, w) && n in w.replicas
    requires Lookup(w.replicas[n].state.local.entries, key, now).1.Some?
    ensures var r := w.replicas[n];
            && key in r.origin
            && (r.origin[key].Peer? && r.origin[key].event.publishedAtMs != 0 ==>
                  var Peer(e, clock) := r.origin[key];
                  && n in nodes && e.Issued? && e in w.published
                  && e.publishedAtMs + 300_000 + 1000 * e.credential.ttlSeconds + clock.insert > now + clock.freshness
                  && e.publishedAtMs + 300_000 + nodes[n].cache.maxCacheTtl + clock.insert > now + clock.freshness)
  {
    ReachableIsTraced(nodes, steps, w);
    assert Traced(w, nodes[n], w.replicas[n], key);
  }
}
