# Proofs about the plugin host: credential cache, dispatch tags, tenant stores, reference walkers

This project models the parts of the MCP gateway's plugin host where state,
time and trust meet, and proves what they keep over every run:

- the clustered credential cache: a TTL and least-recently-used map on each
  node, the events nodes exchange, and the replay window that lets each peer
  event through once;
- the dispatch-bound identity tags handed to plugins and checked when a plugin
  relays an identity back;
- the store and bus decorators: a tenant head over encryption over a raw
  key-value store or broker;
- the walkers that substitute secret and credential references inside a JSON
  document, in place, and the allowlists collected from the same document;
- the secret rotation loop's debouncing, the health prober's failure streaks,
  and the plugin lifecycle.

Objects whose methods change fields are Dafny classes. Each of their methods is
proved against a function of the old state (`Apply`, `Check`, `Deliver`, `Walk`,
`Run`, ...), and the main results are lemmas about all runs of those functions.
Trees of JSON nodes live on the heap and are changed in place; a *picture* of the
heap (`Json.Picture`) is the value the proofs reason about. Times are
milliseconds as unbounded naturals; a counter that wraps in the code wraps here.

One file holds one module (`Orders.dfy` also holds `Strings`). `Wrappers`,
`Orders`, `Strings`, `Framing`, `NumberText` and `KeyValue` are shared by the
others. `dafny verify dfyconfig.toml` checks everything.

## Where the code and its comments differ

The model follows the code.

- `src/lifecycle.rs:333-335` says `fail` works from any non-terminal state but
  `Unloaded`. The table also refuses it from `Discovered` and `Disabled`
  (`Lifecycle.Lifecycle.Fail`). `src/lifecycle.rs:398-399` says unloading works
  from any non-terminal state; it does not from `Discovered`. The error
  `Terminal` is never returned.
- `src/credential_cache.rs:65-67` speaks of evicting the LRU entry when the
  cache is full. Room is made before looking whether the key is already there,
  so re-inserting a cached key into a full cache evicts another entry
  (`CredentialCacheProperties.WorkingSetBoundTight`). That is why a working set
  of `max_entries - 1` other keys is one too many.
- `src/credential_cache_clustered.rs:454-457` promises per-entry `Revoked`
  events for a plugin-wide invalidation; none is published
  (`ClusteredCache.Publisher.InvalidatePlugin`), and peers keep what the node
  dropped (`ConvergenceRuns.ShutdownDiverges`).
- An event is published after the operation it tells of, so one node's events on
  a key can go out in the other order, and two nodes' events can cross. Either
  leaves nodes that have read everything with different credentials
  (`ConvergenceRuns.SlowPublicationDiverges`,
  `ConvergenceRuns.CrossedPublishersDiverge`); `Convergence.OwnerAgreesIff` and
  `Convergence.NodesAgreeIff` say exactly when.
- `src/credential_resolver.rs:20-21` says references to one pair hit the same
  cache entry. The cache is shared and the walk waits at every leaf, so the entry
  may be evicted, expire or be revoked in between, and the issuer is then asked
  again (`IssuerCallBounds.FrugalIffItFits`, `IssuerCallBounds.FrugalIffItOutlasts`
  and `IssuerCallBounds.FrugalIffNoneRevoked` say exactly when).
- `src/secret_resolver.rs:143-144` calls the collected keys anchor-stripped; the
  anchor stays in them.
- The health threshold promises degradation after that many consecutive
  failures. The counter has 32 bits: in a build without overflow checks, the one
  the loop here follows, 2^32 failures read as none
  (`HealthProber.FullStreakIsForgotten`, `HealthProber.PromiseKeptIffNoWrap`); in
  a build with them the increment stops the prober
  (`HealthProber.CheckedAdditionsStopIff`).

## Hypotheses

- The replay window needs a clock that does not step back
  (`SeenEvents.BackwardsClockForgets` shows what happens otherwise, and
  `SeenClocks.AnyClockIff` for which windows). Its size bounds hold under any
  clock.
- One bridge per plugin alias, since every bridge counts dispatches from 1
  (`HostBridge.TwinBridgeRevivesTag`).
- Neither of two tenants' heads begins the other, which is exactly what isolation
  takes (`TenantKv.IsolatedIffApart`, `TenantBus.OwnMessagesIffApart`); distinct
  store segments without a slash and bus segments without a dot are so. A broker
  hands a tenant only topics under its head
  (`TenantBus.MisroutedMessageIsHandedOver`).
- Ideal cryptography: an envelope opens only as it was sealed, the keyed hash and
  the serializers are injective, serialized identities hold no zero byte, and
  someone without the key presents only ciphertexts and MACs the host made.
- An issuer's name followed by a slash does not begin another's, which is exactly
  what the pair list's gate takes (`CredentialAllowlist.GateIsExactIffApart`). The
  documented reference shape, which ends the issuer at the first slash, rules the
  collision out (`CredentialAllowlist.SlashFreeIssuersAreApart`); the reference
  parser itself is a parameter.
- A secret reference is its scheme, up to the first colon, `://`, and the rest.
- Event serialization loses nothing, and no other use of the event key seals
  without associated data (`EventAuthenticity.SoundIff`).
- The raw key-value store behaves as `KeyValue.Step` says: entries with
  deadlines, listings in byte order, cursors that name the last key of a page.

## Model

| member | source | states |
|---|---|---|
| SeenEvents.SeenSet.CheckAndRecord | src/credential_cache_clustered.rs:264-291 | the two loops over map and queue leave exactly the window, and give exactly the verdict, of the function `Check` |
| SeenEvents.CheckStaysBounded | src/credential_cache_clustered.rs:264-291 | under any clock, after every call the keys of the map are all on the queue and the map is no larger than the queue, which is no longer than the cap |
| SeenEvents.CheckRefines | src/credential_cache_clustered.rs:264-291 | under a forward clock one call accepts a key if and only if none of the last `cap` acceptances is a record of it younger than `ttl`, and queue and map stay the picture of those acceptances |
| SeenEvents.OnlyYoungRecordsStay | src/credential_cache_clustered.rs:264-291 | after a call, whatever it decided, every record is within its lifetime or is the one just made |
| SeenEvents.RunRefines | src/credential_cache_clustered.rs:241-291 | over every run with a forward clock the window's verdicts are those of a specification that remembers every acceptance |
| SeenEvents.BackwardsClockForgets | src/credential_cache_clustered.rs:264-291 | without the forward clock, for every cap of 2 or more and every positive lifetime: one backwards step puts a key on the queue twice, and after only `cap - 1` other keys, at the same instant, a key just accepted is accepted again |
| SeenClocks.AnyClockIff | src/credential_cache_clustered.rs:241-291 | over all runs under all clocks the verdicts are those of the specification, if and only if the cap is at most 1 or the lifetime is zero |
| ClusteredCache.Subscriber.constructor | src/credential_cache_clustered.rs:354-412 | a started node keeps ids for 660 000 ms and at most 100 000 of them, and begins with none |
| ClusteredCache.Subscriber.ApplyEvent | src/credential_cache_clustered.rs:741-883 | freshness, self-skip, allowlist, shape and replay gates in order; only an event that passes all changes the cache, and dropped events up to the shape gate leave the window alone |
| ClusteredCache.VerdictOn | src/credential_cache_clustered.rs:741-883 | for any window that remembers a history, the verdict condition by condition: applied if and only if the stamp, if any, is within five minutes of the clock either way, the publisher is another node and on the list if there is one, all three key fields are there, and the id, if any, is none of the last `cap` acceptances still in its lifetime; otherwise the first condition that fails |
| ClusteredCache.RefusedEventChangesNothing | src/credential_cache_clustered.rs:741-883 | an event that is not applied leaves the cache as it was, and the window too unless it was put to it |
| ClusteredCache.AppliedIssuanceIsCached | src/credential_cache_clustered.rs:803-814 | an applied issuance is cached until the lesser of its own lifetime and the cap, from the insertion on, and every other entry that stays is as it was |
| ClusteredCache.AppliedRevocationRemoves | src/credential_cache_clustered.rs:815-851 | an applied revocation takes out its key and nothing else and calls every subscriber once, in order |
| ClusteredCache.Publisher.GetOrIssue | src/credential_cache_clustered.rs:424-445 | whatever other tasks do to the cache while the issuer is awaited, an event is published exactly when the lookup missed and the issuer answered, and it carries what was then inserted under the same key |
| ClusteredCache.Publisher.Invalidate | src/credential_cache_clustered.rs:449-452 | the entry is dropped, local subscribers are called, and one revocation event is published |
| ClusteredCache.Publisher.InvalidatePlugin | src/credential_cache_clustered.rs:458-466 | the plugin's entries go, their credentials are returned in key order, and nothing is published |
| ClusteredCache.NeverAppliedTwiceFrom | src/credential_cache_clustered.rs:741-883 | from any window that represents a history, if the window's lifetime is at least twice the freshness age plus the slack, no event of any run is applied twice with fewer than `cap` other ids applied in between |
| ClusteredCache.AtMostOnceIffLongEnough | src/credential_cache_clustered.rs:365-374 | over all runs with one forward clock, no event is applied twice if and only if the lifetime is at least twice the freshness age plus the slack between the two clock reads |
| ClusteredCache.WiredWindowIsExact | src/credential_cache_clustered.rs:365-374 | 660 000 ms and 100 000 ids give at-most-once for reads less than 60 s apart, and one more millisecond admits a run that applies an event twice |
| ClusteredCache.SeenCapIsTight | src/credential_cache_clustered.rs:284-288 | exactly `cap` foreign ids in between push the record out, and the replay is applied again at the same instant |
| CredentialCache.Cache.LookupLocked | src/credential_cache.rs:395-404 | a live entry is served and touched, an expired one removed |
| CredentialCache.Cache.FindLeastRecent | src/credential_cache.rs:420-424 | the scan returns the entry with the least access time, first in key order among equals |
| CredentialCache.Cache.MakeRoom | src/credential_cache.rs:417-431 | the eviction loop ends and removes exactly the least recent entries until there is room |
| CredentialCache.Cache.InsertLocked | src/credential_cache.rs:406-433 | room is made, then the entry is written with the lesser of the two lifetimes |
| CredentialCache.Cache.GetOrIssue | src/credential_cache.rs:216-251 | the issuer's answer is used, and stored over whatever other tasks made of the cache meanwhile, only on a miss; a refusal stores nothing |
| CredentialCache.Cache.NotifyRevoked | src/credential_cache.rs:207-211 | every subscriber is called once, in order |
| CredentialCache.Cache.Invalidate | src/credential_cache.rs:258-271 | one entry goes, and every subscriber hears of its plugin and target |
| CredentialCache.Cache.InvalidatePlugin | src/credential_cache.rs:277-305 | returns the removed credentials in key order, removes that plugin's entries only, and announces each |
| CredentialCache.Cache.OnRevoked | src/credential_cache.rs:191-200 | a new subscriber with the next id, which wraps at 2^64 |
| CredentialCache.Cache.DropSubscription | src/credential_cache.rs:116-122 | removes that id and keeps the others in order |
| CredentialCacheProperties.SizeBounded | src/credential_cache.rs:406-433 | over every run the size never exceeds the limit, or 1 when the limit is 0 |
| CredentialCacheProperties.EvictedIsOldest | src/credential_cache.rs:417-431 | the entry a full cache gives up first is the one accessed longest ago, and of several the one whose hash, then plugin, then target comes first, byte by byte |
| CredentialCacheProperties.EntriesAreCurrent | src/credential_cache.rs:258-433 | every entry ever held is the latest insertion of its key in the run, with nothing revoking it since: the cache is a submap of an unbounded reference |
| CredentialCacheProperties.LookupServesLatestInsertion | src/credential_cache.rs:395-404 | a lookup serves nothing and leaves nothing under the key, or serves the latest uninvalidated insertion of exactly that key, made less than its own lifetime and less than the cap before |
| CredentialCacheProperties.WorkingSetSurvives | src/credential_cache.rs:395-433 | with strictly increasing times, a live entry survives any run that touches fewer than `max_entries - 1` distinct other keys since its own last use, and none where the limit is 0 or 1; it is then served exactly while both its own lifetime and the cap run, counted from its insertion |
| CredentialCacheProperties.WorkingSetBoundTight | src/credential_cache.rs:417-432 | for every limit, filling that room with other keys and re-inserting one of them evicts the entry |
| CredentialCacheProperties.WorkingSetSurvivesIff | src/credential_cache.rs:395-433 | for every limit and every `n`: an entry survives all runs that touch at most `n` other keys if and only if `n` is less than that room |
| CredentialCacheProperties.SubscribersAreAttached | src/credential_cache.rs:111-200 | over every run the subscriber list is exactly the subscriptions taken and not dropped, each once, in the order they were made |
| CredentialCacheProperties.SubscriberHearsExactly | src/credential_cache.rs:191-305 | each subscriber's calls are exactly the revocations made while it was attached, in order, once each |
| CredentialCacheProperties.WrappedIdIsShared | src/credential_cache.rs:191-200 | the bound of 2^64 subscriptions is needed: the next one gets the first id again, and dropping either guard detaches both |
| CredentialCacheProperties.PluginShutdownIsExact | src/credential_cache.rs:277-305 | announced keys are exactly the plugin's cached keys, once each, in key order, and exactly they are removed |
| Cluster.ReachableIsTraced | src/credential_cache_clustered.rs:424-498 | under loss, duplication and reordering, every entry of every node traces to an issuance for its very key, by this node, or by a peer that is not this node and is on its list if it has one, through a published event with all key fields whose stamp, if any, was within five minutes of the clock when applied; and it lives no longer than its credential or the cap from then on |
| Cluster.ServedCredentialWasIssued | src/credential_cache_clustered.rs:424-445 | whatever any node serves for a triple was issued by some issuer for exactly that triple |
| Cluster.ServedEventIsRecent | src/credential_cache_clustered.rs:741-814 | what is served at a time from a stamped peer event was published less than five minutes and its own lifetime before, and less than five minutes and the cap, but for the event's processing gap |
| Cluster.StepTakesEffect | src/credential_cache_clustered.rs:424-498 | a step changes its own node only: what is issued there, or arrives and is applied, is then served exactly until its lifetime or the cap is over; what is revoked, or falls to a plugin shutdown, is gone |
| Convergence.EveryNodeFollows | src/credential_cache_clustered.rs:424-498 | with publication a step of its own, in any order, and a lossless ordered topic: over every run what a node holds under a key is what its own last operation left there, or what the last foreign event on the key read since then says |
| Convergence.OwnerAgreesIff | src/credential_cache_clustered.rs:424-466 | over every run with one publisher of a key, a node that has drained the topic agrees with it on the key if and only if the topic's last event on the key says what the publisher's last operation did |
| Convergence.DrainedNodesAgree | src/credential_cache_clustered.rs:424-466 | they agree when the publisher starts no operation on the key while an earlier event of its own on the key is unpublished, and shuts the plugin down only with nothing cached under the key |
| Convergence.QuietNodesHold | src/credential_cache_clustered.rs:424-498 | with any number of publishers that wait so, once all is published and read: every node but the last event's publisher holds what that event says, and the publisher the last foreign event it had not read when it acted, if any |
| Convergence.NodesAgreeIff | src/credential_cache_clustered.rs:424-498 | all nodes then agree on the key if and only if the last event's publisher had no unread foreign event on the key, or the last such event said the same |
| ConvergenceRuns.SlowPublicationDiverges | src/credential_cache_clustered.rs:424-445 | for any two nodes, key and credentials: one publisher issues twice, publishes the other way round, and its drained peer ends with what it replaced |
| ConvergenceRuns.ShutdownDiverges | src/credential_cache_clustered.rs:454-466 | for any two nodes: after a plugin-wide invalidation, with everything published and read, the peer still holds the credential |
| ConvergenceRuns.CrossedPublishersDiverge | src/credential_cache_clustered.rs:424-445 | for any two nodes: two publishers that wait, and cross; all is published and read, and each holds the other's credential |
| EventCipher.EventEnvelopeIsFaithful | src/credential_cache_cipher.rs:276-291 | events round-trip, a payload yields an event only if it seals that event with no associated data, and an event's envelope opens as a stored value under no key but the empty one |
| EventAuthenticity.SoundIff | src/credential_cache_clustered.rs:605-680 | over every run of any nodes and a network without the key, all that a subscriber decodes was published by a node, if and only if a cipher is configured and nothing else seals under its key without associated data, as a value stored under the empty key would be |
| EventAuthenticity.PublishedIsDecoded | src/credential_cache_clustered.rs:501-680 | what a node with a cipher publishes can arrive, and then decodes to the very event |
| EventAuthenticity.RunIsClusterRun | src/credential_cache_clustered.rs:605-883 | a run over the payloads of such a network amounts to a run of the cluster over published events |
| EventAuthenticity.ServedDespiteNetwork | src/credential_cache_clustered.rs:424-680 | so whatever the network sends, a node serves for a triple only what some issuer handed out for that triple |
| EncryptedKv.EncryptingStore.OpenLogged | src/cluster_encryption.rs:108-150 | the plaintext policy and errors of opening a value, and the warn-once flag |
| EncryptedKv.EncryptingStore.OpenListed | src/cluster_encryption.rs:156-173 | the listing loop keeps what `OpenEntries` keeps |
| EncryptedKv.EncryptingStore.GetThrough | src/cluster_encryption.rs:178-190 | a read opens the stored value, passes a tolerated plaintext, keeps the deadline, and reports a failure, the inner store's own included |
| EncryptedKv.ServedIff | src/cluster_encryption.rs:108-150 | a stored value is served as some bytes if and only if it seals them under this cipher for that very key, or is those bytes in plaintext and plaintext is tolerated |
| EncryptedKv.RefusedBecause | src/cluster_encryption.rs:108-150 | plaintext is refused exactly where it is not tolerated; an envelope is refused for the first of version, key id, nonce text, nonce length, ciphertext text and authentication that is wrong |
| EncryptedKv.ListingKeepsOpenable | src/cluster_encryption.rs:156-173 | a listing is exactly its openable entries, each once, in the original order |
| EncryptedKv.StepIsAuthentic | src/cluster_encryption.rs:178-244 | with plaintext reads off, what one operation serves for a key was sealed under that key |
| EncryptedKv.AuthenticIffFailClosed | src/cluster_encryption.rs:97-240 | against any writer to the raw store without the key, every value served was sealed by a client under the key it is served for, if and only if plaintext reads are off |
| TenantKv.KeySpacesMeetIff | src/cluster_tenant.rs:54-68 | when two segments' key spaces share a key, exactly |
| TenantKv.DistinctSegmentsDisjoint | src/cluster_tenant.rs:54-68 | distinct slash-free segments never map to one key |
| TenantKv.SlashFreeIsApart | src/cluster_tenant.rs:54-68 | distinct slash-free segments are apart: neither head begins the other |
| TenantKv.OwnStepRefines | src/cluster_tenant.rs:72-125 | one operation through both decorators does to the tenant's slice, and answers, what it does to a plain private store; listed keys come back as the tenant wrote them |
| TenantKv.ForeignTokenShowsOwnKeys | src/cluster_tenant.rs:89-115 | a page token that is not under the tenant's head shows its own first page again, or nothing, never another tenant's keys |
| TenantKv.OtherStepKeeps | src/cluster_tenant.rs:72-125 | an operation of a tenant whose head does not nest with this one's leaves the slice alone |
| TenantKv.TenantsAreIsolated | src/cluster_tenant.rs:54-125 | over every interleaving on one raw store, whatever page tokens are handed in, a tenant whose head nests with no other's gets exactly the replies of a private plain store |
| TenantKv.IsolatedIffApart | src/cluster_tenant.rs:54-125 | of two distinct segments, each is isolated from the other over all interleavings if and only if neither head begins the other |
| TenantKv.SlashInSegmentLeaks | src/cluster_tenant.rs:55-63 | an instance of the failing side: tenant `a` reads what tenant `a/b` wrote |
| TenantAuthenticity.ServesOwnIff | src/cluster_tenant.rs:14-19 | of two tenants, whatever is written to the raw store by anyone without the key, one is served under a key only what it put under that key itself, if and only if plaintext reads are off and neither head begins the other |
| TenantBus.BusRoundTrip | src/cluster_tenant.rs:173-198 | publications, each under a nonce of its own, delivered in order are received with the topics and payloads they were published with |
| TenantBus.StreamKeepsOpenable | src/cluster_encryption.rs:310-371 | a subscription yields its stream's errors and its openable messages, each once and in order, the tenant's head off their topics, and drops the rest |
| TenantBus.OwnMessagesIffFailClosed | src/cluster_encryption.rs:304-371 | among tenants apart, under any broker without the key that routes by head, a tenant receives only messages it published, as published, if and only if plaintext payloads are refused |
| TenantBus.OwnMessagesIffApart | src/cluster_tenant.rs:160-198 | with plaintext refused, one of two tenants receives only its own messages, under every such broker, if and only if neither head begins the other |
| TenantBus.FullDecides | src/cluster_tenant.rs:160-169 | tenants apart share no full topic |
| TenantBus.DotFreeIsApart | src/cluster_tenant.rs:160-169 | distinct dot-free segments are apart |
| TenantBus.MisroutedMessageIsHandedOver | src/cluster_tenant.rs:177-197 | any message from outside the receiver's head passes unstripped |
| NumberText.HexRoundTrip | src/identity_sig.rs:88-114 | sixteen hexadecimal digits recover every 64-bit number through the signed-prefix, overflow-checked parser |
| NumberText.FromStrRadixIff | src/identity_sig.rs:112-114 | text is a number if and only if it is, but for one leading plus, a nonempty numeral of the radix whose positional value fits 64 bits |
| NumberText.BigEndianInjective | src/identity_sig.rs:78 | fixed-width big-endian bytes determine the number |
| IdentitySig.ConstantTimeEq | src/identity_sig.rs:136-145 | the folded comparison is equality |
| IdentitySig.Verify | src/identity_sig.rs:102-125 | the early returns amount to the function `VerifyStrip`; what is accepted is what was presented, on every field and every attribute but the tag, and carries none |
| IdentitySig.MacDataInjective | src/identity_sig.rs:70-81 | MAC inputs coincide if and only if the identities agree on every field and on every attribute but the tag, and alias (whatever it contains) and dispatch are the same |
| IdentitySig.VerifyIff | src/identity_sig.rs:102-125 | an identity verifies to `r` if and only if it is `r` with a tag of a 2, a live dispatch in hexadecimal, and the keyed hash over `r`, the alias and that dispatch, between colons |
| IdentitySig.SignedIs | src/identity_sig.rs:88-94 | signing changes the reserved attribute alone, to such a tag |
| IdentitySig.TagRoundTrip | src/identity_sig.rs:88-114 | the printed tag parses back to its dispatch and MAC, for every 64-bit dispatch |
| IdentitySig.SignedVerifiesWhileLive | src/identity_sig.rs:88-125 | a signed identity verifies for its alias exactly while its dispatch is live: to itself if it carried no tag before, and else to itself without that tag |
| HostBridge.Bridge.BeginDispatch | src/host_bridge.rs:256-268 | allocates the next nonce, makes it live, and signs the identity with it |
| HostBridge.Bridge.Accept | src/host_bridge.rs:799-821 | a callback accepts what `VerifyStrip` accepts against the nonces live now, and gets what was relayed, on every field and every attribute but the tag |
| HostBridge.Bridge.AcceptOrNone | src/host_bridge.rs:456-466 | a relayed identity that is not accepted becomes no identity; an accepted one comes back as it was relayed, without the tag |
| HostBridge.DispatchGuard.Drop | src/host_bridge.rs:147-156 | retires exactly its own nonce |
| HostBridge.AcceptedIsLiveAndSigned | src/host_bridge.rs:456-470 | over every run and any relayer without the key, an accepted identity agrees with the one a still-live dispatch toward that alias signed on every field and every attribute but the tag, so does what was relayed, and no other mint carries its number |
| HostBridge.TagVerifiesWhileGuardHeld | src/host_bridge.rs:256-268 | a dispatch's tag verifies at every later moment of every run in which its guard is held, to the identity that was signed |
| HostBridge.DroppedDispatchNeverVerifies | src/host_bridge.rs:147-156 | once dropped, nothing naming that dispatch is accepted again before the 64-bit allocator wraps |
| HostBridge.WrapRevivesTag | src/host_bridge.rs:256-268 | the bound is needed: after 2^64 further dispatches the number of a dropped guard is live again, and what was signed under it verifies |
| HostBridge.TwinBridgeRevivesTag | src/host_bridge.rs:194-268 | after any run of one bridge, a dispatch begun and dropped there is refused by it, while a second bridge for the alias that has begun as many dispatches accepts its tag |
| SecretWalk.ResolveWalk | src/secret_resolver.rs:205-312 | the explicit-stack walk over the mutable tree terminates, leaves the recursive substitution, in which a provider may answer differently at every visit, and reports the visits in stack order |
| SecretWalk.ResolveLeaf | src/secret_resolver.rs:227-293 | one string: substituted, or left with the right account of why |
| SecretResolver.SubstitutionIsPointwise | src/secret_resolver.rs:205-312 | same keys, shape and order, and each leaf substituted exactly once: a reference whose scheme is bound becomes the text its provider answered when the walk came to that very leaf, and every other leaf, or one whose provider answered no text, keeps its own; a returned text is never looked at again |
| SecretResolver.LeafBecomes | src/secret_resolver.rs:205-312 | of `n` string leaves, that with index `i` becomes what its provider answers at turn `n - 1 - i`, if its scheme is bound and the answer is text, and keeps its text otherwise |
| SecretResolver.WalkIsBackwards | src/secret_resolver.rs:205-312 | the stack comes to the strings of a document from the last to the first |
| SecretResolver.EachLeafIsVisitedOnce | src/secret_resolver.rs:205-312 | the stack order visits every string of the document exactly once, numbered from zero |
| SecretResolver.ReportIsExact | src/secret_resolver.rs:55-60 | expansions, resolved references and skipped schemes are exactly those of the visited leaves; the failures are those of the failing visits, each once, in order, with its reference and its provider's error |
| SecretResolver.WalkReportCountsDocument | src/secret_resolver.rs:205-312 | `expanded` is the number of replaced leaves of the document, one failure per bound leaf that was not, and the resolved references are those replaced |
| SecretResolver.ExpandedRefsAreCollected | src/secret_resolver.rs:155-180 | every reference the walk expands is on the allowlist collected from the document before the walk |
| ResourceGate.Gate.ResolveAllowed | src/registry.rs:3579-3597 | the gate's branches amount to the function `Allowed` |
| ResourceGate.AllowedIffNamed | src/registry.rs:3542-3597 | over every run of recorded and merged configurations, a plugin may resolve exactly the references its current ones name, as they stand or up to their first `#` |
| ResourceGate.BaseKeyIs | src/secret_resolver.rs:117-141 | the anchor-free form is the reference up to its first `#`, or all of it where it has none |
| ResourceGate.FieldGrantStaysNarrow | src/secret_resolver.rs:117-141 | where one field of a resource is named and nothing else of it, that field alone may be resolved; where the resource itself is named, every field may |
| CredentialResolver.ResolveWalk | src/credential_resolver.rs:324-408 | the recursive walk over the mutable tree and the shared cache, with anything other tasks do to it before each lookup and during each issuer call, leaves the tree, cache, issuer calls, count and error of the function `Walk`; after the first failure nothing changes |
| CredentialResolver.ErrorSticks | src/credential_resolver.rs:394-403 | the items after a failing one are untouched |
| CredentialResolverProperties.WalkIsLeafRun | src/credential_resolver.rs:324-408 | a walk keeps the shape and does to leaves, cache, issuers and count what one pass over the leaves in document order does |
| CredentialResolverProperties.WalkSubstitutesUpToFirstFailure | src/credential_resolver.rs:324-447 | whatever other tasks do, every leaf before the first failing one is plain and unchanged, or shows the part it names, or the main value where it names none, of a credential that was cached, issued, or inserted by another task for its very identity, plugin and target; that leaf and all later ones keep their text; the count is the number of references before it; the error is true of it |
| CredentialResolverProperties.PlantedIsShown | src/credential_resolver.rs:352-355 | what another task inserts just before a lookup is shown although the issuer was never asked |
| CredentialResolverProperties.PlantedMeanwhileStays | src/credential_cache.rs:216-251 | what another task inserts under another key while the issuer is awaited stays beside the issuer's answer while there is room for both |
| IssuerCalls.OneIssuePerPair | src/credential_cache.rs:216-251 | whatever other tasks do at each await short of revoking a pair of the document, with no expiry and room for what all of them insert: each issuer is called at most once per pair and never for a cached one, also when the walk fails; on success, unless another task inserts such a pair, every leaf of a pair shows its part, or the main value, of the one credential the cache then holds |
| IssuerCallBounds.FrugalIffItFits | src/credential_cache.rs:216-433 | from an empty cache, with no expiry or revocation, no document asks twice for a pair if and only if the keys in play are at most the limit where others insert nothing, and if and only if they are at most one less (or 1) where others insert; for every limit and any reference syntax |
| IssuerCallBounds.CrowdedCacheIssuesTwice | src/credential_cache.rs:406-433 | for every limit and any reference syntax with that many pairs, a document of one pair more than fits, and one of them again, calls an issuer twice for a pair |
| IssuerCallBounds.FrugalIffItOutlasts | src/credential_cache.rs:395-412 | among documents that fit, walked within a span of time by issuers and tasks that store nothing for less than a lifetime, none asks twice for a pair if and only if the span is shorter than the lifetime and than the cap |
| IssuerCallBounds.FrugalIffNoneRevoked | src/credential_cache.rs:258-305 | while nothing expires and everything fits, an operation of other tasks makes no walk ask twice for a pair if and only if it revokes no pair a reference can name |
| CredentialAllowlist.CollectCredIssuers | src/credential_resolver.rs:232-267 | exactly the issuers of the references the document mentions, bare or in tokens, at any depth |
| CredentialAllowlist.CollectCredRefs | src/credential_resolver.rs:277-317 | exactly the pair keys of those references |
| CredentialAllowlist.CollectWalk | src/credential_resolver.rs:238-253 | the recursive collector adds exactly the collected set to what it is handed |
| CredentialAllowlist.RefKeyInjective | src/credential_resolver.rs:287-289 | for slash-free issuers the key determines the pair |
| CredentialAllowlist.RefKeysCollideIff | src/credential_resolver.rs:287-289 | two issuers can share a key if and only if one followed by a slash begins the other followed by a slash |
| CredentialAllowlist.GateIsExact | src/credential_resolver.rs:277-289 | when no other mentioned issuer collides so, as without slashes, a pair's key is collected if and only if the document mentions that very pair |
| CredentialAllowlist.GateIsExactIffApart | src/credential_resolver.rs:277-289 | beside one other issuer the gate is exact, over all grammars, documents and targets, if and only if the two are not such |
| CredentialAllowlist.SlashFreeIssuersAreApart | src/credential_resolver.rs:9-18 | issuers without a slash, as in the documented reference shape, do not collide |
| CredentialAllowlist.IssuersAreProjection | src/credential_resolver.rs:232-317 | the issuer list is then the projection of the pair list |
| CredentialAllowlist.WalkStaysOnAllowlist | src/credential_resolver.rs:324-408 | every pair the walk asks an issuer about, and every reference in a leaf, is on both lists collected from the document |
| SecretWatcher.RunWatchLoop | src/secret_watcher.rs:195-283 | the loop makes the fan-outs and leaves the state of the function `Run`, for every feasible list of turns |
| SecretWatcher.VersionIsItsNumber | src/secret_watcher.rs:286-295 | a version is the number its decimal text stands for, and zero where there is no text or it is no 64-bit number |
| SecretWatcher.OverIsLast | src/secret_watcher.rs:195-283 | the loop is over exactly after a cancellation or the end of the stream |
| SecretWatcher.FanOutsPartitionRotations | src/secret_watcher.rs:195-283 | rotations split into consecutive non-empty batches with one fan-out each carrying the last version, plus what is pending; a timer waits a whole window; a batch's rotations come within its window but for the time between reading the clock and beginning to sleep, as the biased `select` makes them; the stream's end leaves nothing pending; `latest` and the deadline are set together |
| SecretWatcher.GapIsNeeded | src/secret_watcher.rs:213-226 | for every window and every such gap, a rotation can join a batch just less than the gap after its window |
| SecretWatcher.TimerFanOutsAreSpaced | src/secret_watcher.rs:226-252 | a timer fan-out comes at least a window after the one before |
| HealthProber.RunProber | src/health_prober.rs:155-236 | over every run the map holds exactly the failures since each plugin's last pass, modulo 2^32, and the registry is asked exactly what the history calls for, in order |
| HealthProber.Record | src/health_prober.rs:191-224 | one probe's effect on the streaks and the registry, skipped outcomes changing nothing |
| HealthProber.MarkIs | src/health_prober.rs:191-224 | after any history: activation is asked on a pass; degradation on a failure or timeout when the failures and timeouts since the last pass, modulo 2^32, reach the threshold; nothing otherwise |
| HealthProber.RunIsItsCycles | src/health_prober.rs:155-236 | cycles run one after another, also past one cut short by a stop inside it, up to the first stop between two |
| HealthProber.CycleRunsUpToStop | src/health_prober.rs:155-236 | a cycle probes exactly up to its first stop |
| HealthProber.PromiseKeptIffNoWrap | src/health_prober.rs:191-206 | where additions wrap, a failed probe degrades exactly from the threshold on in every history of at most `n` probes if and only if `n` is less than 2^32 |
| HealthProber.CheckedAdditionsStopIff | src/health_prober.rs:191-206 | where additions are checked, no history of at most `n` probes stops the prober if and only if `n` is less than 2^32, and until it stops the promise is kept |
| HealthProber.FullStreakIsForgotten | src/health_prober.rs:191-206 | where additions wrap, the failure that completes a streak of 2^32 asks for nothing, whatever the threshold |
| Lifecycle.Lifecycle.Transition | src/lifecycle.rs:294-304 | a permitted move is made and recorded, any other is refused with no change |
| Lifecycle.Lifecycle.Advance | src/lifecycle.rs:314-331 | moves along the boot path and from its end to Active, refused elsewhere |
| Lifecycle.Lifecycle.Fail | src/lifecycle.rs:336-338 | the exact states from which a plugin can be failed |
| Lifecycle.Lifecycle.Reject | src/lifecycle.rs:343-345 | allowed exactly from Installed to Configured |
| Lifecycle.MovesFrom | src/lifecycle.rs:358-416 | state by state, exactly which states may follow |
| Lifecycle.Phases | src/lifecycle.rs:358-416 | at every point of every run since the last discovery: booting in order, booted, or out of service |
| Lifecycle.RunningHasBooted | src/lifecycle.rs:358-416 | a serving, draining or disabled plugin has gone through Installed to Initialized in order since it was last discovered |
| Lifecycle.ServingObjectHasBooted | src/lifecycle.rs:252-345 | the same of a live object whatever was called on it |
| Lifecycle.TerminalRecoversByRediscovery | src/lifecycle.rs:358-416 | a failed or rejected plugin serves again only after unloading, rediscovery and the whole boot path |

## Left out

- The plugin registry, the protocol crates and the cluster interface: `CredRef::parse`, `cred_tokens`, `parse_secret_ref`, identity hashing, providers and issuers are parameters; what the registry does with a degrade or activate request is not modelled.
- `incr` and `incr_floor` on the store decorators: deliberate pass-throughs of plain counters; counter keys are assumed apart from sealed ones.
- Async scheduling: every lock-held section is one atomic step, and between two of them other tasks may do anything to the cache. Two concurrent misses on one node both calling the issuer are covered as separate lookups and insertions.
- JSON and envelope text, base64 and UTF-8 themselves: a payload is already an envelope or not, and each text field decodes or not.
- Convergence.NodesAgreeIff: the topic is lossless and ordered there, and nothing expires or is evicted; `Cluster` has none of these restrictions.
- TenantKv.OwnStepRefines: page cursors are compared by the key they name, since the code hands the inner store's token through with the tenant's head in it; tokens from elsewhere are `TenantKv.ForeignTokenShowsOwnKeys`.
- SecretWatcher.FanOutsPartitionRotations: a sleep ends at its instant; a runtime that wakes it late lets a batch run on by as much.
- HostBridge.DroppedDispatchNeverVerifies: stated for runs shorter than 2^64 dispatches, after which the allocator repeats itself (`HostBridge.WrapRevivesTag`).
- CredentialCacheProperties.SubscriberHearsExactly: stated for fewer than 2^64 subscriptions, after which ids repeat (`CredentialCacheProperties.WrappedIdIsShared`).
- Instants that overflow when a lifetime is added.
- Metrics, tracing, audit events, FFI marshalling, Wasm and OCI loading, signature and package checks, span sampling, metering wrappers: no state worth a proof, or I/O.
- `AtomicPluginState`, error texts, HTTP status mapping, configuration validation: one reading of each settles it.
