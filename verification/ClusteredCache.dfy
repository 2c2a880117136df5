/** The cluster-aware wrapper: peer events pass a freshness window, a
    self-skip, an allowlist and shape gate and the replay window before they
    change the local cache. */
module ClusteredCache {
  import opened Wrappers
  import opened SeenEvents
  import opened CredentialCache
  import CredentialCacheProperties

  const MAX_EVENT_AGE_MS: nat := 300_000
  const MAX_SEEN_EVENTS: nat := 100_000
  /** How far apart the two clock reads of one delivery may be. */
  const READ_SLACK_MS: nat := 60_000
  const SEEN_TTL_MS: nat := 2 * MAX_EVENT_AGE_MS + READ_SLACK_MS

  datatype CacheEvent =
    | Issued(key: CacheKey, credential: Credential, publishedBy: string, publishedAtMs: nat, eventId: string)
    | Revoked(key: CacheKey, publishedBy: string, publishedAtMs: nat, eventId: string)

  datatype Outcome = Stale | OwnEvent | NotAllowed | Malformed | Replayed | Applied

  /** The clock readings of one delivery: at the freshness check, at the replay
      check, and at the insertion. */
  datatype Reads = Reads(freshness: nat, replay: nat, insert: nat)

  /** Identity and limits of one node. */
  datatype Node = Node(id: string, allowed: seq<string>, seenTtl: nat, seenCap: nat, cache: Config)

  /** One node's replay window and lock-held cache state. */
  datatype NodeState = NodeState(window: Window, local: State)

  const FRESH_NODE := NodeState(SeenEvents.EMPTY, CredentialCache.INITIAL)

  function AbsDiff(a: nat, b: nat): nat {
    if a >= b then a - b else b - a
  }

  /** A zero stamp predates the field and skips the check. */
  predicate FreshEnough(e: CacheEvent, now: nat) {
    e.publishedAtMs != 0 ==> AbsDiff(now, e.publishedAtMs) <= MAX_EVENT_AGE_MS
  }

  predicate Listed(node: Node, publisher: string) {
    node.allowed == [] || publisher in node.allowed
  }

  predicate WellShaped(key: CacheKey) {
    key.identityHash != "" && key.pluginId != "" && key.target != ""
  }

  /** An empty event id is exempt from the replay check. */
  function AcceptOnce(node: Node, w: Window, e: CacheEvent, now: nat): (Window, bool) {
    if e.eventId == "" then (w, true)
    else Check(w, node.seenTtl, node.seenCap, EventKey(e.publishedBy, e.eventId), now)
  }

  function Gate(node: Node, w: Window, e: CacheEvent, clock: Reads): (Window, Outcome) {
    if !FreshEnough(e, clock.freshness) then (w, Stale)
    else if e.publishedBy == node.id then (w, OwnEvent)
    else if !Listed(node, e.publishedBy) then (w, NotAllowed)
    else if !WellShaped(e.key) then (w, Malformed)
    else
      var (w', once) := AcceptOnce(node, w, e, clock.replay);
      (w', if once then Applied else Replayed)
  }

  function Effect(e: CacheEvent, clock: Reads): Op {
    match e
    case Issued(key, credential, _, _, _) => InsertOp(key, credential, clock.insert)
    case Revoked(key, _, _, _) => InvalidateOp(key)
  }

  ghost function Deliver(node: Node, s: NodeState, e: CacheEvent, clock: Reads): (NodeState, Outcome) {
    var (w, outcome) := Gate(node, s.window, e, clock);
    (NodeState(w, if outcome == Applied then Apply(node.cache, s.local, Effect(e, clock)) else s.local), outcome)
  }

  class Subscriber {
    const node: Node
    const local: Cache
    const seen: SeenSet

    ghost predicate Wired()
    {
      node.seenTtl == seen.ttl && node.seenCap == seen.cap && node.cache == local.config
    }

    ghost function View(): NodeState
      reads local, seen
    {
      NodeState(seen.View(), local.View())
    }

    /** `start` wires the replay window with the fixed lifetime and cap. */
    constructor (id: string, allowed: seq<string>, local: Cache)
      ensures Wired() && this.local == local && fresh(seen)
      ensures node == Node(id, allowed, 660_000, 100_000, local.config)
      ensures seen.View() == SeenEvents.EMPTY
    {
      this.node := Node(id, allowed, SEEN_TTL_MS, MAX_SEEN_EVENTS, local.config);
      this.local := local;
      this.seen := new SeenSet(SEEN_TTL_MS, MAX_SEEN_EVENTS);
    }

    method ApplyEvent(e: CacheEvent, clock: Reads) returns (outcome: Outcome)
      requires Wired()
      modifies local, seen
      ensures (View(), outcome) == Deliver(node, old(View()), e, clock)
    {
      if e.publishedAtMs != 0 && AbsDiff(clock.freshness, e.publishedAtMs) > MAX_EVENT_AGE_MS {
        return Stale;
      }
      if e.publishedBy == node.id { return OwnEvent; }
      if node.allowed != [] && e.publishedBy !in node.allowed { return NotAllowed; }
      if e.key.identityHash == "" || e.key.pluginId == "" || e.key.target == "" { return Malformed; }
      if e.eventId != "" {
        var once := seen.CheckAndRecord(e.publishedBy, e.eventId, clock.replay);
        if !once { return Replayed; }
      }
      match e {
        case Issued(key, credential, _, _, _) => local.InsertLocked(key, credential, clock.insert);
        case Revoked(key, _, _, _) => local.Invalidate(key);
      }
      return Applied;
    }
  }

  /** The publishing side of a node: its own operations take effect locally
      before their events are put on the topic. */
  class Publisher {
    const nodeId: string
    const local: Cache
    var published: seq<CacheEvent>

    constructor (nodeId: string, local: Cache)
      ensures this.nodeId == nodeId && this.local == local && published == []
    {
      this.nodeId, this.local, published := nodeId, local, [];
    }

    /** A local hit is served; a miss asks the issuer, and what it issues is
        inserted and published under the same key; a refusal changes nothing
        further. The three clock readings are separate, and `meanwhile` is what
        other tasks do to the cache while the issuer is awaited. */
    method GetOrIssue(key: CacheKey, issued: Result<Credential, string>, lookupAt: nat, insertAt: nat,
                      stamp: nat, eventId: string, meanwhile: seq<Op>)
      returns (r: Result<Credential, string>)
      modifies this, local
      ensures var (_, hit) := Lookup(old(local.entries), key, lookupAt);
              var looked := Apply(local.config, old(local.View()), LookupOp(key, lookupAt));
              if hit.Some? then r == Ok(hit.value) && local.View() == looked && published == old(published)
              else
                && r == issued
                && local.View() == Stored(local.config, RunFrom(local.config, looked, meanwhile), key, issued, insertAt)
                && published == old(published) +
                     if issued.Ok? then [Issued(key, issued.value, nodeId, stamp, eventId)] else []
    {
      var hit := local.LookupLocked(key, lookupAt);
      if hit.Some? { return Ok(hit.value); }
      local.PerformAll(meanwhile);
      if issued.Err? { return issued; }
      local.InsertLocked(key, issued.value, insertAt);
      published := published + [Issued(key, issued.value, nodeId, stamp, eventId)];
      return issued;
    }

    method Invalidate(key: CacheKey, stamp: nat, eventId: string)
      modifies this, local
      ensures local.View() == Apply(local.config, old(local.View()), InvalidateOp(key))
      ensures published == old(published) + [Revoked(key, nodeId, stamp, eventId)]
    {
      local.Invalidate(key);
      published := published + [Revoked(key, nodeId, stamp, eventId)];
    }

    /** A plugin-wide invalidation is local: no event is published for it. */
    method InvalidatePlugin(plugin: string) returns (evicted: seq<Credential>)
      modifies this, local
      ensures local.View() == Apply(local.config, old(local.View()), InvalidatePluginOp(plugin))
      ensures published == old(published)
      ensures |evicted| == |PluginKeys(old(local.entries), plugin)|
      ensures forall i :: 0 <= i < |evicted| ==>
                PluginKeys(old(local.entries), plugin)[i] in old(local.entries)
                && evicted[i] == old(local.entries)[PluginKeys(old(local.entries), plugin)[i]].credential
    {
      evicted := local.InvalidatePlugin(plugin);
    }
  }

  // ----- What a delivery does, condition by condition -----

  /** The verdict on an event, for a window that remembers `h`: an event is
      applied exactly if its stamp, if it has one, is within five minutes of the
      clock either way, it comes from another node and from one on the list if
      there is a list, its three key fields are there, and its id, if it has one,
      is not that of one of the last `seenCap` acceptances still in its lifetime. */
  lemma VerdictOn(node: Node, s: NodeState, h: seq<Acceptance>, before: nat, e: CacheEvent, clock: Reads)
    requires Represents(s.window, h, node.seenTtl, node.seenCap, before) && before <= clock.replay
    ensures var recent := e.publishedAtMs == 0 ||
                         (e.publishedAtMs <= clock.freshness + 300_000 && clock.freshness <= e.publishedAtMs + 300_000);
            var listed := node.allowed == [] || e.publishedBy in node.allowed;
            var whole := e.key.identityHash != "" && e.key.pluginId != "" && e.key.target != "";
            var seen := e.eventId != "" &&
              exists i ::
                && 0 <= i < |h| && |h| - node.seenCap <= i && h[i].key == EventKey(e.publishedBy, e.eventId)
                && clock.replay < h[i].at + node.seenTtl;
            Deliver(node, s, e, clock).1
            == if !recent then Stale
               else if e.publishedBy == node.id then OwnEvent
               else if !listed then NotAllowed
               else if !whole then Malformed
               else if seen then Replayed
               else Applied
  {
    if e.eventId != "" {
      CheckRefines(s.window, h, node.seenTtl, node.seenCap, before, EventKey(e.publishedBy, e.eventId), clock.replay);
    }
  }

  /** An event that is not applied leaves the cache alone, and the window too
      unless it was put to it. */
  lemma RefusedEventChangesNothing(node: Node, s: NodeState, e: CacheEvent, clock: Reads)
    ensures var (s', o) := Deliver(node, s, e, clock);
            && (o != Applied ==> s'.local == s.local)
            && (e.eventId == "" || o !in {Applied, Replayed} ==> s'.window == s.window)
  {
    hide Check, Apply;
  }

  /** An applied issuance is cached from the insertion on until its own lifetime
      or the cap is over, whichever comes first; every other entry that stays is
      as it was. */
  lemma AppliedIssuanceIsCached(node: Node, s: NodeState, e: CacheEvent, clock: Reads)
    requires e.Issued? && Deliver(node, s, e, clock).1 == Applied
    ensures var es, es' := s.local.entries, Deliver(node, s, e, clock).0.local.entries;
            var life := if 1000 * e.credential.ttlSeconds < node.cache.maxCacheTtl then 1000 * e.credential.ttlSeconds
                        else node.cache.maxCacheTtl;
            && e.key in es' && es'[e.key] == Entry(e.credential, clock.insert + life, clock.insert)
            && forall k :: k in es' && k != e.key ==> k in es && es'[k] == es[k]
  {
    hide Check;
    CredentialCacheProperties.EvictMakesRoom(s.local.entries, node.cache.maxEntries);
  }

  /** An applied revocation takes out its key and nothing else, with one call per
      subscriber, in their order. */
  lemma AppliedRevocationRemoves(node: Node, s: NodeState, e: CacheEvent, clock: Reads)
    requires e.Revoked? && Deliver(node, s, e, clock).1 == Applied
    ensures var local, local' := s.local, Deliver(node, s, e, clock).0.local;
            && local'.entries == (map k | k in local.entries && k != e.key :: local.entries[k])
            && local'.fired == local.fired + seq(|local.subscribers|, i requires 0 <= i < |local.subscribers| =>
                                                   Firing(local.subscribers[i], e.key.pluginId, e.key.target))
            && local'.subscribers == local.subscribers
  {
    hide Check;
  }

  // ----- At-most-once application -----

  datatype Delivery = Delivery(event: CacheEvent, clock: Reads)

  /** The replay window and outcome log after delivering a whole run. */
  function Outcomes(node: Node, w: Window, ds: seq<Delivery>): seq<Outcome>
    decreases |ds|
  {
    if ds == [] then [] else
      var (w', o) := Gate(node, w, ds[0].event, ds[0].clock);
      [o] + Outcomes(node, w', ds[1..])
  }

  /** One clock, never stepping back: it is read twice per delivery, and
      deliveries follow one another. */
  ghost predicate OneForwardClock(ds: seq<Delivery>) {
    && (forall i :: 0 <= i < |ds| ==> ds[i].clock.freshness <= ds[i].clock.replay)
    && (forall i, j :: 0 <= i < j < |ds| ==> ds[i].clock.replay <= ds[j].clock.freshness)
  }

  /** Recorded applications of ids other than that of `e` in `ds[from..]`. */
  function OthersApplied(ds: seq<Delivery>, outcomes: seq<Outcome>, e: CacheEvent): nat
    requires |ds| == |outcomes|
  {
    if ds == [] then 0
    else OthersApplied(ds[1..], outcomes[1..], e) +
         if outcomes[0] == Applied && ds[0].event.eventId != ""
            && (ds[0].event.publishedBy, ds[0].event.eventId) != (e.publishedBy, e.eventId)
         then 1 else 0
  }

  ghost function KeyOf(e: CacheEvent): EventKey {
    EventKey(e.publishedBy, e.eventId)
  }

  ghost function OtherRecords(h: seq<Acceptance>, key: EventKey): nat {
    if h == [] then 0
    else OtherRecords(h[..|h| - 1], key) + if h[|h| - 1].key != key then 1 else 0
  }

  lemma {:induction false} LatestRecord(h: seq<Acceptance>, p: nat, key: EventKey) returns (q: nat)
    requires p < |h| && h[p].key == key
    ensures p <= q < |h| && h[q].key == key
    ensures |h| - 1 - q <= OtherRecords(h[p + 1..], key)
    decreases |h|
  {
    var n := |h| - 1;
    if h[n].key == key {
      q := n;
    } else {
      q := LatestRecord(h[..n], p, key);
      assert h[..n][p + 1..] == h[p + 1..][..|h[p + 1..]| - 1];
    }
  }

  /** A young record of the key with fewer than `cap` foreign records after it
      makes the window refuse the key. */
  lemma YoungRecordRefuses(h: seq<Acceptance>, ttl: nat, cap: nat, key: EventKey, p: nat, now: nat)
    requires Timeline(h, now) && p < |h| && h[p].key == key
    requires Age(now, h[p].at) < ttl && OtherRecords(h[p + 1..], key) < cap
    ensures !Unseen(h, ttl, cap, key, now)
  {
    var q := LatestRecord(h, p, key);
    assert h[p].at <= h[q].at;
  }

  /** The acceptance history grows by one record per applied, identified event. */
  ghost function Recorded(h: seq<Acceptance>, d: Delivery, o: Outcome): seq<Acceptance> {
    if o == Applied && d.event.eventId != "" then h + [Acceptance(KeyOf(d.event), d.clock.replay)] else h
  }

  lemma GateRefines(node: Node, w: Window, h: seq<Acceptance>, now: nat, d: Delivery)
    requires Represents(w, h, node.seenTtl, node.seenCap, now) && now <= d.clock.replay
    ensures var (w', o) := Gate(node, w, d.event, d.clock);
            && Represents(w', Recorded(h, d, o), node.seenTtl, node.seenCap, d.clock.replay)
            && (o == Applied && d.event.eventId != "" ==>
                  Unseen(h, node.seenTtl, node.seenCap, KeyOf(d.event), d.clock.replay))
  {
    var (w', o) := Gate(node, w, d.event, d.clock);
    if (o == Applied || o == Replayed) && d.event.eventId != "" {
      var (checked, once) := Check(w, node.seenTtl, node.seenCap, KeyOf(d.event), d.clock.replay);
      assert w' == checked && (o == Applied <==> once);
      CheckRefines(w, h, node.seenTtl, node.seenCap, now, KeyOf(d.event), d.clock.replay);
      var h' := if once then h + [Acceptance(KeyOf(d.event), d.clock.replay)] else h;
      assert Represents(checked, h', node.seenTtl, node.seenCap, d.clock.replay);
      assert Recorded(h, d, o) == h';
    } else {
      assert w' == w && Recorded(h, d, o) == h;
      RepresentsLater(w, h, node.seenTtl, node.seenCap, now, d.clock.replay);
    }
  }

  lemma ForeignCountSplits(ds: seq<Delivery>, outs: seq<Outcome>, h: seq<Acceptance>, e: CacheEvent, p: nat)
    requires |ds| == |outs| >= 2 && p < |h|
    ensures var h' := Recorded(h, ds[0], outs[0]);
            (OtherRecords(h'[p + 1..], KeyOf(e)) + OthersApplied(ds[1..|ds| - 1], outs[1..|ds| - 1], e)
             == OtherRecords(h[p + 1..], KeyOf(e)) + OthersApplied(ds[..|ds| - 1], outs[..|ds| - 1], e))
  {
    assert ds[..|ds| - 1][1..] == ds[1..|ds| - 1] && outs[..|ds| - 1][1..] == outs[1..|ds| - 1];
    var h' := Recorded(h, ds[0], outs[0]);
    if h' != h {
      assert h'[p + 1..][..|h'[p + 1..]| - 1] == h[p + 1..];
    }
  }

  lemma {:induction false} LastIsRefused(node: Node, w: Window, h: seq<Acceptance>, now: nat, ds: seq<Delivery>,
                                         e: CacheEvent, p: nat, outs: seq<Outcome>)
    requires Represents(w, h, node.seenTtl, node.seenCap, now)
    requires ds != [] && OneForwardClock(ds) && now <= ds[0].clock.freshness
    requires ds[|ds| - 1].event == e && e.eventId != ""
    requires p < |h| && h[p].key == KeyOf(e) && Age(ds[|ds| - 1].clock.replay, h[p].at) < node.seenTtl
    requires outs == Outcomes(node, w, ds) && |outs| == |ds|
    requires OtherRecords(h[p + 1..], KeyOf(e)) + OthersApplied(ds[..|ds| - 1], outs[..|ds| - 1], e) < node.seenCap
    ensures outs[|ds| - 1] != Applied
    decreases |ds|
  {
    var d := ds[0];
    var (w', o) := Gate(node, w, d.event, d.clock);
    GateRefines(node, w, h, now, d);
    if |ds| == 1 {
      YoungRecordRefuses(h, node.seenTtl, node.seenCap, KeyOf(e), p, d.clock.replay);
    } else {
      ForeignCountSplits(ds, outs, h, e, p);
      assert ds[1..][..|ds| - 2] == ds[1..|ds| - 1] && outs[1..][..|ds| - 2] == outs[1..|ds| - 1];
      LastIsRefused(node, w', Recorded(h, d, o), d.clock.replay, ds[1..], e, p, outs[1..]);
    }
  }

  lemma {:induction false} OneOutcomeEach(node: Node, w: Window, ds: seq<Delivery>, n: nat)
    requires n <= |ds|
    ensures |Outcomes(node, w, ds)| == |ds|
    ensures Outcomes(node, w, ds[..n]) == Outcomes(node, w, ds)[..n]
    decreases |ds|
  {
    if ds != [] {
      var w' := Gate(node, w, ds[0].event, ds[0].clock).0;
      if n == 0 {
        OneOutcomeEach(node, w', ds[1..], 0);
      } else {
        OneOutcomeEach(node, w', ds[1..], n - 1);
        assert ds[..n][1..] == ds[1..][..n - 1];
      }
    }
  }

  /** Deliveries `i` and `j` of one stamped, identified event were both applied
      although the second one's clock reads are less than `slack` apart and
      fewer than `seenCap` other ids were recorded in between. */
  ghost predicate AppliedTwice(node: Node, w: Window, ds: seq<Delivery>, i: nat, j: nat, slack: nat) {
    && i < j < |ds|
    && OneForwardClock(ds)
    && ds[i].event == ds[j].event && ds[i].event.publishedAtMs != 0 && ds[i].event.eventId != ""
    && ds[j].clock.replay - ds[j].clock.freshness < slack
    && var outs := Outcomes(node, w, ds);
       && |outs| == |ds|
       && outs[i] == Applied && outs[j] == Applied
       && OthersApplied(ds[i + 1..j], outs[i + 1..j], ds[i].event) < node.seenCap
  }

  lemma LaterPair(node: Node, w: Window, ds: seq<Delivery>, i: nat, j: nat, slack: nat)
    requires AppliedTwice(node, w, ds, i, j, slack) && i > 0
    ensures AppliedTwice(node, Gate(node, w, ds[0].event, ds[0].clock).0, ds[1..], i - 1, j - 1, slack)
  {
    var outs := Outcomes(node, w, ds);
    assert outs[1..] == Outcomes(node, Gate(node, w, ds[0].event, ds[0].clock).0, ds[1..]);
    assert ds[1..][i..j - 1] == ds[i + 1..j] && outs[1..][i..j - 1] == outs[i + 1..j];
  }

  lemma FirstPair(node: Node, w: Window, h: seq<Acceptance>, now: nat, ds: seq<Delivery>, j: nat, slack: nat)
    requires Represents(w, h, node.seenTtl, node.seenCap, now)
    requires ds != [] && now <= ds[0].clock.freshness
    requires node.seenTtl >= 2 * MAX_EVENT_AGE_MS + slack
    ensures !AppliedTwice(node, w, ds, 0, j, slack)
  {
    if AppliedTwice(node, w, ds, 0, j, slack) {
      var d, outs := ds[0], Outcomes(node, w, ds);
      var w' := Gate(node, w, d.event, d.clock).0;
      GateRefines(node, w, h, now, d);
      OneOutcomeEach(node, w', ds[1..], j);
      var rest, later := ds[1..][..j], outs[1..][..j];
      assert rest[..j - 1] == ds[1..j] && later[..j - 1] == outs[1..j];
      assert rest[j - 1] == ds[j] && later[j - 1] == outs[j];
      var h' := Recorded(h, d, outs[0]);
      assert h'[|h| + 1..] == [];
      AppliedWasFresh(node, w, ds, j);
      FreshnessSpan(d, ds[j], slack);
      LastIsRefused(node, w', h', d.clock.replay, rest, d.event, |h|, later);
      assert false;
    }
  }

  lemma {:induction false} AppliedWasFresh(node: Node, w: Window, ds: seq<Delivery>, j: nat)
    requires j < |ds| == |Outcomes(node, w, ds)| && Outcomes(node, w, ds)[j] == Applied
    ensures FreshEnough(ds[j].event, ds[j].clock.freshness)
    decreases |ds|
  {
    if j > 0 {
      AppliedWasFresh(node, Gate(node, w, ds[0].event, ds[0].clock).0, ds[1..], j - 1);
    }
  }

  /** Two fresh deliveries of one stamped event are close in receipt time. */
  lemma FreshnessSpan(first: Delivery, second: Delivery, slack: nat)
    requires first.event.publishedAtMs == second.event.publishedAtMs != 0
    requires first.clock.freshness <= first.clock.replay <= second.clock.freshness <= second.clock.replay
    requires second.clock.replay - second.clock.freshness < slack
    requires FreshEnough(first.event, first.clock.freshness)
    ensures FreshEnough(second.event, second.clock.freshness) ==>
              second.clock.replay - first.clock.replay < 2 * MAX_EVENT_AGE_MS + slack
  {}

  lemma {:induction false} NeverAppliedTwiceFrom(node: Node, w: Window, h: seq<Acceptance>, now: nat,
                                                 ds: seq<Delivery>, i: nat, j: nat, slack: nat)
    requires Represents(w, h, node.seenTtl, node.seenCap, now)
    requires ds != [] ==> now <= ds[0].clock.freshness
    requires node.seenTtl >= 2 * MAX_EVENT_AGE_MS + slack
    ensures !AppliedTwice(node, w, ds, i, j, slack)
    decreases |ds|
  {
    if AppliedTwice(node, w, ds, i, j, slack) {
      if i == 0 {
        FirstPair(node, w, h, now, ds, j, slack);
      } else {
        var (w', o) := Gate(node, w, ds[0].event, ds[0].clock);
        GateRefines(node, w, h, now, ds[0]);
        LaterPair(node, w, ds, i, j, slack);
        NeverAppliedTwiceFrom(node, w', Recorded(h, ds[0], o), ds[0].clock.replay, ds[1..], i - 1, j - 1, slack);
      }
    }
  }

  function ProbeEvent(publisher: string): CacheEvent {
    Revoked(CacheKey("h", "p", "t"), publisher, MAX_EVENT_AGE_MS, "id")
  }

  /** A future-dated event delivered at the two ends of its freshness window. */
  function EdgeRun(publisher: string, slack: nat): seq<Delivery>
    requires slack > 0
  {
    var e := ProbeEvent(publisher);
    [Delivery(e, Reads(0, 0, 0)),
     Delivery(e, Reads(2 * MAX_EVENT_AGE_MS, 2 * MAX_EVENT_AGE_MS + slack - 1, 2 * MAX_EVENT_AGE_MS + slack))]
  }

  lemma ShortLifetimeAppliesTwice(node: Node, publisher: string, slack: nat)
    requires slack > 0 && node.seenCap > 0 && publisher != node.id && Listed(node, publisher)
    requires node.seenTtl < 2 * MAX_EVENT_AGE_MS + slack
    ensures AppliedTwice(node, SeenEvents.EMPTY, EdgeRun(publisher, slack), 0, 1, slack)
  {
    var ds := EdgeRun(publisher, slack);
    var key := EventKey(publisher, "id");
    var w1 := Window(map[key := 0], [key]);
    assert Window(map[][key := 0], [] + [key]) == w1;
    assert Gate(node, SeenEvents.EMPTY, ds[0].event, ds[0].clock) == (w1, Applied);
    assert DropFront(w1) == SeenEvents.EMPTY;
    assert Purge(w1, node.seenTtl, ds[1].clock.replay) == SeenEvents.EMPTY;
    var (w2, o2) := Gate(node, w1, ds[1].event, ds[1].clock);
    assert o2 == Applied;
    assert Outcomes(node, w2, ds[1..][1..]) == [];
    assert Outcomes(node, w1, ds[1..]) == [Applied];
  }

  /** At-most-once, with its exact lifetime: over every run with one forward
      clock no event is applied twice if and only if the window keeps ids for
      at least twice the freshness age plus the slack between the two reads. */
  lemma AtMostOnceIffLongEnough(node: Node, publisher: string, slack: nat)
    requires slack > 0 && node.seenCap > 0 && publisher != node.id && Listed(node, publisher)
    ensures (forall ds, i, j :: !AppliedTwice(node, SeenEvents.EMPTY, ds, i, j, slack))
       <==> node.seenTtl >= 600_000 + slack
  {
    if node.seenTtl >= 2 * MAX_EVENT_AGE_MS + slack {
      forall ds, i, j ensures !AppliedTwice(node, SeenEvents.EMPTY, ds, i, j, slack) {
        NeverAppliedTwiceFrom(node, SeenEvents.EMPTY, [], 0, ds, i, j, slack);
      }
    } else {
      ShortLifetimeAppliesTwice(node, publisher, slack);
    }
  }

  /** The wired constants give at-most-once for reads under 60 s apart, and
      for no larger slack. */
  lemma WiredWindowIsExact(id: string, allowed: seq<string>, cache: Config, ds: seq<Delivery>, i: nat, j: nat)
    ensures !AppliedTwice(Node(id, allowed, 660_000, 100_000, cache), SeenEvents.EMPTY, ds, i, j, 60_000)
    ensures AppliedTwice(Node("n", [], 660_000, 100_000, cache), SeenEvents.EMPTY,
                         EdgeRun("peer", 60_001), 0, 1, 60_001)
  {
    NeverAppliedTwiceFrom(Node(id, allowed, SEEN_TTL_MS, MAX_SEEN_EVENTS, cache),
                         SeenEvents.EMPTY, [], 0, ds, i, j, READ_SLACK_MS);
    ShortLifetimeAppliesTwice(Node("n", [], SEEN_TTL_MS, MAX_SEEN_EVENTS, cache), "peer", READ_SLACK_MS + 1);
  }

  // The cap is tight as well: exactly `seenCap` foreign ids push a record out.

  function FloodEvent(publisher: string, k: nat): CacheEvent {
    ProbeEvent(publisher).(eventId := seq(k, _ => 'x') + "!")
  }

  function Flood(publisher: string, k: nat, n: nat): seq<Delivery>
    requires k <= n
    decreases n - k
  {
    if k == n then [] else [Delivery(FloodEvent(publisher, k), Reads(0, 0, 0))] + Flood(publisher, k + 1, n)
  }

  lemma FloodKeysDistinct(publisher: string, j: nat, k: nat)
    ensures KeyOf(FloodEvent(publisher, k)) != KeyOf(ProbeEvent(publisher))
    ensures j != k ==> KeyOf(FloodEvent(publisher, j)) != KeyOf(FloodEvent(publisher, k))
  {
    assert FloodEvent(publisher, k).eventId[k] == '!' && |FloodEvent(publisher, j).eventId| == j + 1;
    assert |FloodEvent(publisher, k).eventId| == k + 1;
  }

  /** After `k` flood events the history is the probe followed by them. */
  ghost predicate Flooded(node: Node, publisher: string, w: Window, h: seq<Acceptance>, k: nat) {
    && Represents(w, h, node.seenTtl, node.seenCap, 0) && |h| == k + 1
    && h[0].key == KeyOf(ProbeEvent(publisher))
    && forall i :: 0 < i < |h| ==> h[i].key == KeyOf(FloodEvent(publisher, i - 1))
  }

  /** The rest of the flood is recorded and the probe then applied again. */
  ghost predicate ReplaySucceeds(node: Node, publisher: string, w: Window, k: nat) {
    && k <= node.seenCap
    && var flood := Flood(publisher, k, node.seenCap);
       var outs := Outcomes(node, w, flood + [Delivery(ProbeEvent(publisher), Reads(0, 0, 0))]);
       && |outs| == |flood| + 1
       && outs[|flood|] == Applied
       && OthersApplied(flood, outs[..|flood|], ProbeEvent(publisher)) == node.seenCap - k
  }

  lemma {:induction false} FloodThenReplay(node: Node, publisher: string, w: Window, h: seq<Acceptance>, k: nat)
    requires publisher != node.id && Listed(node, publisher) && k <= node.seenCap
    requires Flooded(node, publisher, w, h, k)
    ensures ReplaySucceeds(node, publisher, w, k)
    decreases node.seenCap - k
  {
    if k == node.seenCap {
      ReplayApplies(node, publisher, w, h);
      ForgottenReplay(node, publisher, w);
    } else {
      var w', h' := FloodStepApplies(node, publisher, w, h, k);
      FloodThenReplay(node, publisher, w', h', k + 1);
      PrependFlood(node, publisher, w, w', k);
    }
  }

  lemma PrependFlood(node: Node, publisher: string, w: Window, w': Window, k: nat)
    requires k < node.seenCap
    requires Gate(node, w, FloodEvent(publisher, k), Reads(0, 0, 0)) == (w', Applied)
    requires ReplaySucceeds(node, publisher, w', k + 1)
    ensures ReplaySucceeds(node, publisher, w, k)
  {
    hide Gate;
    var replay := Delivery(ProbeEvent(publisher), Reads(0, 0, 0));
    var d := Delivery(FloodEvent(publisher, k), Reads(0, 0, 0));
    var tail := Flood(publisher, k + 1, node.seenCap);
    var outs := Outcomes(node, w', tail + [replay]);
    FloodKeysDistinct(publisher, 0, k);
    assert ([d] + tail + [replay])[1..] == tail + [replay] && ([d] + tail + [replay])[0] == d;
    assert Outcomes(node, w, [d] + tail + [replay]) == [Applied] + outs;
    assert ([d] + tail)[1..] == tail && ([Applied] + outs)[..|tail| + 1][1..] == outs[..|tail|];
  }

  /** By now the probe's record has been pushed out. */
  lemma ReplayApplies(node: Node, publisher: string, w: Window, h: seq<Acceptance>)
    requires publisher != node.id && Listed(node, publisher)
    requires Flooded(node, publisher, w, h, node.seenCap)
    ensures Gate(node, w, ProbeEvent(publisher), Reads(0, 0, 0)).1 == Applied
  {
    var key := KeyOf(ProbeEvent(publisher));
    forall i | 0 < i < |h| ensures h[i].key != key { FloodKeysDistinct(publisher, 0, i - 1); }
    CheckRefines(w, h, node.seenTtl, node.seenCap, 0, key, 0);
  }

  lemma ForgottenReplay(node: Node, publisher: string, w: Window)
    requires Gate(node, w, ProbeEvent(publisher), Reads(0, 0, 0)).1 == Applied
    ensures ReplaySucceeds(node, publisher, w, node.seenCap)
  {
    var replay := Delivery(ProbeEvent(publisher), Reads(0, 0, 0));
    var w' := Gate(node, w, replay.event, replay.clock).0;
    assert [replay][1..] == [] && Outcomes(node, w', []) == [];
    assert Outcomes(node, w, [replay]) == [Applied];
    assert Flood(publisher, node.seenCap, node.seenCap) + [replay] == [replay];
  }

  lemma FloodStepApplies(node: Node, publisher: string, w: Window, h: seq<Acceptance>, k: nat)
    returns (w': Window, h': seq<Acceptance>)
    requires publisher != node.id && Listed(node, publisher) && k < node.seenCap
    requires Flooded(node, publisher, w, h, k)
    ensures Gate(node, w, FloodEvent(publisher, k), Reads(0, 0, 0)) == (w', Applied)
    ensures Flooded(node, publisher, w', h', k + 1)
  {
    var e := FloodEvent(publisher, k);
    forall i | 0 <= i < |h| ensures h[i].key != KeyOf(e) {
      FloodKeysDistinct(publisher, if i == 0 then 0 else i - 1, k);
    }
    CheckRefines(w, h, node.seenTtl, node.seenCap, 0, KeyOf(e), 0);
    w' := Gate(node, w, e, Reads(0, 0, 0)).0;
    h' := h + [Acceptance(KeyOf(e), 0)];
  }

  lemma ProbeRecorded(node: Node, publisher: string) returns (w: Window, h: seq<Acceptance>)
    requires publisher != node.id && Listed(node, publisher) && node.seenCap > 0
    ensures Gate(node, SeenEvents.EMPTY, ProbeEvent(publisher), Reads(0, 0, 0)) == (w, Applied)
    ensures Flooded(node, publisher, w, h, 0)
  {
    var key := KeyOf(ProbeEvent(publisher));
    w, h := Window(map[key := 0], [key]), [Acceptance(key, 0)];
    assert Window(map[][key := 0], [] + [key]) == w;
    assert Records(w, key, h[0]);
  }

  /** With exactly `seenCap` foreign ids recorded in between, a replay at the
      very same instant is applied a second time. */
  lemma SeenCapIsTight(node: Node, publisher: string)
    requires publisher != node.id && Listed(node, publisher) && node.seenCap > 0
    ensures var replay := Delivery(ProbeEvent(publisher), Reads(0, 0, 0));
            var flood := Flood(publisher, 0, node.seenCap);
            var outs := Outcomes(node, SeenEvents.EMPTY, [replay] + (flood + [replay]));
            && |outs| == |flood| + 2
            && outs[0] == Applied && outs[|flood| + 1] == Applied
            && OthersApplied(flood, outs[1..|flood| + 1], replay.event) == node.seenCap
  {
    var replay := Delivery(ProbeEvent(publisher), Reads(0, 0, 0));
    var flood := Flood(publisher, 0, node.seenCap);
    var w1, h1 := ProbeRecorded(node, publisher);
    FloodThenReplay(node, publisher, w1, h1, 0);
    assert ([replay] + (flood + [replay]))[1..] == flood + [replay];
    var outs := Outcomes(node, w1, flood + [replay]);
    assert ([Applied] + outs)[1..|flood| + 1] == outs[..|flood|];
  }
}
