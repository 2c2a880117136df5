/** The cluster over a lossless, ordered topic, while nothing expires or is
    evicted. A node's operation and the publication of its event are separate
    steps: anything may happen between them. */
module Convergence {
  import opened Wrappers
  import opened CredentialCache
  import opened ClusteredCache

  /** An event not yet published, with how much of the topic its node had read
      when it performed the operation. */
  datatype Pending = Pending(key: CacheKey, says: Option<Credential>, at: nat)

  /** A published event, with that same reading. */
  datatype Post = Post(event: CacheEvent, at: nat)

  /** A node's own last operation on a key: how much it had read by then, and
      what the operation left under the key. */
  datatype Own = Own(at: nat, says: Option<Credential>)

  const NEVER := Own(0, None)

  datatype Site = Site(state: NodeState, cursor: nat, outbox: seq<Pending>, own: CacheKey -> Own)

  datatype Net = Net(sites: map<string, Site>, topic: seq<Post>)

  type Nodes = map<string, Node>

  /** A locked operation on the local cache, the publication of one waiting
      event, or the receipt of the next event of the topic. */
  datatype Step =
    | Operate(n: string, op: Op)
    | Publish(n: string, i: nat, stamp: nat, eventId: string)
    | Receive(n: string, clock: Reads)

  function Untouched(): CacheKey -> Own {
    (k: CacheKey) => NEVER
  }

  ghost function Start(nodes: Nodes): Net {
    Net(map n | n in nodes :: Site(FRESH_NODE, 0, [], Untouched()), [])
  }

  // ----- What an operation does to one key -----

  function HeldIn(es: Entries, k: CacheKey): Option<Credential> {
    if k in es then Some(es[k].credential) else None
  }

  /** The operation decides what is cached under `k`. A plugin-wide
      invalidation decides it only where something is cached. */
  predicate Decides(es: Entries, op: Op, k: CacheKey) {
    match op
    case InsertOp(key, _, _) => key == k
    case InvalidateOp(key) => key == k
    case InvalidatePluginOp(plugin) => k in es && k.pluginId == plugin
    case _ => false
  }

  function Leaves(op: Op): Option<Credential> {
    if op.InsertOp? then Some(op.credential) else None
  }

  /** A plugin-wide invalidation announces nothing. */
  function Announcements(op: Op, at: nat): seq<Pending> {
    if op.InsertOp? || op.InvalidateOp? then [Pending(op.key, Leaves(op), at)] else []
  }

  function Noted(site: Site, op: Op): CacheKey -> Own {
    (k: CacheKey) => if Decides(site.state.local.entries, op, k) then Own(site.cursor, Leaves(op)) else site.own(k)
  }

  function Says(e: CacheEvent): Option<Credential> {
    if e.Issued? then Some(e.credential) else None
  }

  function Announce(p: Pending, n: string, stamp: nat, eventId: string): CacheEvent {
    match p.says
    case Some(c) => Issued(p.key, c, n, stamp, eventId)
    case None => Revoked(p.key, n, stamp, eventId)
  }

  // ----- Steps and runs -----

  /** No insertion finds the cache full, no lookup finds its entry expired, and
      every event of a peer passes the gates. */
  ghost predicate Enabled(nodes: Nodes, net: Net, step: Step) {
    && step.n in nodes && step.n in net.sites && nodes[step.n].id == step.n
    && var node, site := nodes[step.n], net.sites[step.n];
       match step
       case Operate(_, op) => Roomy(node.cache, site.state.local.entries, op)
       case Publish(_, i, _, _) => i < |site.outbox|
       case Receive(_, clock) =>
         && site.cursor < |net.topic|
         && var e := net.topic[site.cursor].event;
            e.publishedBy != step.n ==>
              && Gate(node, site.state.window, e, clock).1 == Applied
              && Roomy(node.cache, site.state.local.entries, Effect(e, clock))
  }

  predicate Roomy(config: Config, es: Entries, op: Op) {
    && (op.InsertOp? ==> |es| < config.maxEntries)
    && (op.LookupOp? ==> Lookup(es, op.key, op.now).1.Some?)
  }

  ghost function Next(nodes: Nodes, net: Net, step: Step): Net {
    if !Enabled(nodes, net, step) then net
    else
      var n, node, site := step.n, nodes[step.n], net.sites[step.n];
      match step
      case Operate(_, op) =>
        var local := Apply(node.cache, site.state.local, op);
        var site' := Site(site.state.(local := local), site.cursor, site.outbox + Announcements(op, site.cursor),
                          Noted(site, op));
        net.(sites := net.sites[n := site'])
      case Publish(_, i, stamp, id) =>
        var p, rest := site.outbox[i], site.outbox[..i] + site.outbox[i + 1..];
        Net(net.sites[n := site.(outbox := rest)], net.topic + [Post(Announce(p, n, stamp, id), p.at)])
      case Receive(_, clock) =>
        var state := Deliver(node, site.state, net.topic[site.cursor].event, clock).0;
        net.(sites := net.sites[n := site.(state := state, cursor := site.cursor + 1)])
  }

  ghost function After(nodes: Nodes, steps: seq<Step>): Net {
    if steps == [] then Start(nodes) else Next(nodes, After(nodes, steps[..|steps| - 1]), steps[|steps| - 1])
  }

  ghost predicate Possible(nodes: Nodes, steps: seq<Step>) {
    steps == [] ||
    (Possible(nodes, steps[..|steps| - 1])
     && Enabled(nodes, After(nodes, steps[..|steps| - 1]), steps[|steps| - 1]))
  }

  ghost function Held(net: Net, n: string, k: CacheKey): Option<Credential>
    requires n in net.sites
  {
    HeldIn(net.sites[n].state.local.entries, k)
  }

  ghost predicate Drained(net: Net, n: string) {
    n in net.sites && net.sites[n].cursor == |net.topic|
  }

  // ----- The last post of a kind -----

  function Last(posts: seq<Post>, p: Post -> bool): (i: Option<nat>)
    ensures i.None? ==> forall j :: 0 <= j < |posts| ==> !p(posts[j])
    ensures i.Some? ==>
              i.value < |posts| && p(posts[i.value]) && forall j :: i.value < j < |posts| ==> !p(posts[j])
  {
    if posts == [] then None
    else if p(posts[|posts| - 1]) then Some(|posts| - 1)
    else Last(posts[..|posts| - 1], p)
  }

  lemma LastIs(posts: seq<Post>, p: Post -> bool, i: nat)
    requires i < |posts| && p(posts[i]) && forall j :: i < j < |posts| ==> !p(posts[j])
    ensures Last(posts, p) == Some(i)
  {
    var found := Last(posts, p);
    assert found.Some? && !(found.value < i) && !(i < found.value);
  }

  function On(k: CacheKey): Post -> bool {
    (p: Post) => p.event.key == k
  }

  function By(n: string, k: CacheKey): Post -> bool {
    (p: Post) => p.event.key == k && p.event.publishedBy == n
  }

  function Foreign(n: string, k: CacheKey): Post -> bool {
    (p: Post) => p.event.key == k && p.event.publishedBy != n
  }

  /** What the last post of a kind says, or else `says`. */
  function Heard(says: Option<Credential>, posts: seq<Post>, p: Post -> bool): Option<Credential> {
    match Last(posts, p)
    case None => says
    case Some(i) => Says(posts[i].event)
  }

  /** What the topic says last about `k`. */
  function Decided(topic: seq<Post>, k: CacheKey): Option<Credential> {
    Heard(None, topic, On(k))
  }

  lemma HeardAppend(says: Option<Credential>, posts: seq<Post>, e: Post, p: Post -> bool)
    ensures Heard(says, posts + [e], p) == if p(e) then Says(e.event) else Heard(says, posts, p)
  {
    assert (posts + [e])[..|posts|] == posts;
  }

  lemma HeardNext(says: Option<Credential>, topic: seq<Post>, from: nat, i: nat, p: Post -> bool)
    requires from <= i < |topic|
    ensures Heard(says, topic[from..i + 1], p)
         == if p(topic[i]) then Says(topic[i].event) else Heard(says, topic[from..i], p)
  {
    assert topic[from..i + 1] == topic[from..i] + [topic[i]];
    HeardAppend(says, topic[from..i], topic[i], p);
  }

  // ----- A cache holds its own last word, or a later foreign one -----

  /** What `n` holds under `k` is what its own last operation left there, unless
      it has since read a peer's event on `k`; then it is what the last says. */
  ghost predicate Follows(net: Net, n: string, k: CacheKey) {
    n in net.sites &&
    var site := net.sites[n];
    && site.own(k).at <= site.cursor <= |net.topic|
    && Held(net, n, k) == Heard(site.own(k).says, net.topic[site.own(k).at..site.cursor], Foreign(n, k))
  }

  lemma OperationHolds(config: Config, s: State, op: Op, k: CacheKey)
    requires Roomy(config, s.entries, op)
    ensures HeldIn(Apply(config, s, op).entries, k)
         == if Decides(s.entries, op, k) then Leaves(op) else HeldIn(s.entries, k)
  {
    if op.InsertOp? { assert Evict(s.entries, config.maxEntries) == s.entries; }
  }

  lemma OperatorFollows(nodes: Nodes, net: Net, step: Step, k: CacheKey)
    requires step.Operate? && Enabled(nodes, net, step) && Follows(net, step.n, k)
    ensures Follows(Next(nodes, net, step), step.n, k)
  {
    var site := net.sites[step.n];
    OperationHolds(nodes[step.n].cache, site.state.local, step.op, k);
    assert net.topic[site.cursor..site.cursor] == [];
  }

  lemma ReaderFollows(nodes: Nodes, net: Net, step: Step, k: CacheKey)
    requires step.Receive? && Enabled(nodes, net, step) && Follows(net, step.n, k)
    ensures Follows(Next(nodes, net, step), step.n, k)
  {
    hide Heard, Last;
    var n, site := step.n, net.sites[step.n];
    var post, from := net.topic[site.cursor], site.own(k);
    HeardNext(from.says, net.topic, from.at, site.cursor, Foreign(n, k));
    if post.event.publishedBy != n {
      OperationHolds(nodes[n].cache, site.state.local, Effect(post.event, step.clock), k);
    }
  }

  lemma NextFollows(nodes: Nodes, net: Net, step: Step, n: string, k: CacheKey)
    requires Enabled(nodes, net, step) && Follows(net, n, k)
    ensures Follows(Next(nodes, net, step), n, k)
  {
    var site := net.sites[n];
    match step
    case Operate(_, _) => if n == step.n { OperatorFollows(nodes, net, step, k); }
    case Receive(_, _) => if n == step.n { ReaderFollows(nodes, net, step, k); }
    case Publish(_, _, _, _) =>
      var topic' := Next(nodes, net, step).topic;
      assert topic'[site.own(k).at..site.cursor] == net.topic[site.own(k).at..site.cursor];
  }

  /** Over every run every node follows, key by key. */
  lemma {:induction false} EveryNodeFollows(nodes: Nodes, steps: seq<Step>, n: string, k: CacheKey)
    requires Possible(nodes, steps) && n in nodes
    ensures Follows(After(nodes, steps), n, k)
    decreases |steps|
  {
    if steps == [] {
      assert Start(nodes).topic[0..0] == [];
    } else {
      var pre := steps[..|steps| - 1];
      EveryNodeFollows(nodes, pre, n, k);
      NextFollows(nodes, After(nodes, pre), steps[|steps| - 1], n, k);
    }
  }

  // ----- One publisher of a key -----

  /** Only `o` performs operations that can decide `k`. */
  ghost predicate OnlyOwner(steps: seq<Step>, k: CacheKey, o: string) {
    forall i :: 0 <= i < |steps| && steps[i].Operate? && Concerns(steps[i].op, k) ==> steps[i].n == o
  }

  predicate Concerns(op: Op, k: CacheKey) {
    || ((op.InsertOp? || op.InvalidateOp?) && op.key == k)
    || (op.InvalidatePluginOp? && op.plugin == k.pluginId)
  }

  ghost predicate Solo(net: Net, k: CacheKey, o: string) {
    && (forall i :: 0 <= i < |net.topic| && net.topic[i].event.key == k ==> net.topic[i].event.publishedBy == o)
    && (forall n :: n in net.sites && n != o ==> SoloSite(net.sites[n], k))
  }

  ghost predicate SoloSite(site: Site, k: CacheKey) {
    site.own(k) == NEVER && forall j :: 0 <= j < |site.outbox| ==> site.outbox[j].key != k
  }

  lemma {:induction false} StaysSolo(nodes: Nodes, steps: seq<Step>, k: CacheKey, o: string)
    requires Possible(nodes, steps) && OnlyOwner(steps, k, o)
    ensures Solo(After(nodes, steps), k, o) && After(nodes, steps).sites.Keys == nodes.Keys
    decreases |steps|
  {
    if steps != [] {
      var pre, step := steps[..|steps| - 1], steps[|steps| - 1];
      StaysSolo(nodes, pre, k, o);
      SoloNext(nodes, After(nodes, pre), step, k, o);
    }
  }

  lemma SoloNext(nodes: Nodes, net: Net, step: Step, k: CacheKey, o: string)
    requires Enabled(nodes, net, step) && Solo(net, k, o)
    requires step.Operate? && Concerns(step.op, k) ==> step.n == o
    ensures Solo(Next(nodes, net, step), k, o)
  {
    if step.n != o { assert SoloSite(net.sites[step.n], k); }
  }

  lemma ListenerHoldsDecided(net: Net, n: string, k: CacheKey, o: string)
    requires Solo(net, k, o) && Follows(net, n, k) && Drained(net, n) && n != o
    ensures Held(net, n, k) == Decided(net.topic, k)
  {
    assert SoloSite(net.sites[n], k);
    assert net.topic[0..|net.topic|] == net.topic;
    match Last(net.topic, On(k))
    case None =>
    case Some(i) => LastIs(net.topic, Foreign(n, k), i);
  }

  lemma OwnerHoldsItsOwn(net: Net, k: CacheKey, o: string)
    requires Solo(net, k, o) && Follows(net, o, k)
    ensures Held(net, o, k) == net.sites[o].own(k).says
  {
    var site := net.sites[o];
    var read := net.topic[site.own(k).at..site.cursor];
    assert forall j :: 0 <= j < |read| ==> read[j] == net.topic[site.own(k).at + j];
  }

  /** With one publisher of `k`, over every run, whatever order its events are
      published in and whatever it invalidates silently: a node that has
      drained the topic agrees with the publisher on `k` if and only if the
      topic's last event on `k` says what the publisher's last operation did. */
  lemma OwnerAgreesIff(nodes: Nodes, steps: seq<Step>, o: string, n: string, k: CacheKey)
    requires Possible(nodes, steps) && OnlyOwner(steps, k, o) && o in nodes && n in nodes && n != o
    requires Drained(After(nodes, steps), n)
    ensures var net := After(nodes, steps);
            && o in net.sites
            && (Held(net, n, k) == Held(net, o, k) <==> Decided(net.topic, k) == net.sites[o].own(k).says)
  {
    StaysSolo(nodes, steps, k, o);
    EveryNodeFollows(nodes, steps, n, k);
    EveryNodeFollows(nodes, steps, o, k);
    ListenerHoldsDecided(After(nodes, steps), n, k, o);
    OwnerHoldsItsOwn(After(nodes, steps), k, o);
  }

  // ----- Operations that wait for their events to go out -----

  predicate Waiting(site: Site, k: CacheKey) {
    exists j :: 0 <= j < |site.outbox| && site.outbox[j].key == k
  }

  /** The guard a node can check: it starts no operation on `k` while an earlier
      event of its own on `k` is unpublished, and shuts down the plugin of `k`
      only while it caches nothing under `k`. */
  ghost predicate Guarded(net: Net, step: Step, k: CacheKey) {
    step.Operate? && step.n in net.sites && Concerns(step.op, k) ==>
      if step.op.InvalidatePluginOp? then k !in net.sites[step.n].state.local.entries
      else !Waiting(net.sites[step.n], k)
  }

  ghost predicate Orderly(nodes: Nodes, steps: seq<Step>, k: CacheKey) {
    steps == [] ||
    (Orderly(nodes, steps[..|steps| - 1], k)
     && Guarded(After(nodes, steps[..|steps| - 1]), steps[|steps| - 1], k))
  }

  /** A node's own last operation on `k` is its one waiting event on `k`, or
      else its last post on `k`, or else never happened. */
  ghost predicate Recorded(site: Site, topic: seq<Post>, n: string, k: CacheKey) {
    if Waiting(site, k) then
      && (forall j :: 0 <= j < |site.outbox| && site.outbox[j].key == k ==>
            site.outbox[j] == Pending(k, site.own(k).says, site.own(k).at))
      && (forall i, j :: 0 <= i < j < |site.outbox| ==> site.outbox[i].key != k || site.outbox[j].key != k)
    else
      match Last(topic, By(n, k))
      case None => site.own(k) == NEVER
      case Some(i) => site.own(k) == Own(topic[i].at, Says(topic[i].event))
  }

  ghost predicate AllRecorded(nodes: Nodes, net: Net, k: CacheKey) {
    && net.sites.Keys == nodes.Keys
    && (forall n :: n in net.sites ==> Recorded(net.sites[n], net.topic, n, k) && Follows(net, n, k))
    && (forall i :: 0 <= i < |net.topic| && net.topic[i].event.key == k ==>
          net.topic[i].at <= i && net.topic[i].event.publishedBy in net.sites)
  }

  lemma OperatorRecorded(nodes: Nodes, net: Net, step: Step, k: CacheKey)
    requires step.Operate? && Enabled(nodes, net, step) && Guarded(net, step, k)
    requires Recorded(net.sites[step.n], net.topic, step.n, k)
    ensures Recorded(Next(nodes, net, step).sites[step.n], net.topic, step.n, k)
  {
    var site, site' := net.sites[step.n], Next(nodes, net, step).sites[step.n];
    if Decides(site.state.local.entries, step.op, k) {
      assert !Waiting(site, k);
      assert site'.outbox[|site.outbox|] == Pending(k, Leaves(step.op), site.cursor);
    } else {
      assert site'.own(k) == site.own(k);
      assert forall j :: |site.outbox| <= j < |site'.outbox| ==> site'.outbox[j].key != k;
      assert Waiting(site', k) <==> Waiting(site, k) by {
        if Waiting(site, k) {
          var j :| 0 <= j < |site.outbox| && site.outbox[j].key == k;
          assert site'.outbox[j].key == k;
        }
      }
    }
  }

  lemma EventGoesOut(site: Site, topic: seq<Post>, i: nat, stamp: nat, id: string, n: string, k: CacheKey)
    requires i < |site.outbox| && Recorded(site, topic, n, k)
    ensures var p, rest := site.outbox[i], site.outbox[..i] + site.outbox[i + 1..];
            Recorded(site.(outbox := rest), topic + [Post(Announce(p, n, stamp, id), p.at)], n, k)
  {
    var site' := site.(outbox := site.outbox[..i] + site.outbox[i + 1..]);
    var topic' := topic + [Post(Announce(site.outbox[i], n, stamp, id), site.outbox[i].at)];
    assert topic'[..|topic|] == topic;
    assert forall j :: 0 <= j < |site'.outbox| ==> site'.outbox[j] == site.outbox[if j < i then j else j + 1];
    if site.outbox[i].key == k {
      assert Waiting(site, k) && !Waiting(site', k);
      assert Last(topic', By(n, k)) == Some(|topic|);
    } else {
      assert Last(topic', By(n, k)) == Last(topic, By(n, k));
      if Waiting(site, k) {
        var j :| 0 <= j < |site.outbox| && site.outbox[j].key == k;
        assert site'.outbox[if j < i then j else j - 1].key == k;
      }
    }
  }

  lemma PublisherRecorded(nodes: Nodes, net: Net, step: Step, k: CacheKey)
    requires step.Publish? && Enabled(nodes, net, step)
    requires Recorded(net.sites[step.n], net.topic, step.n, k)
    ensures var net' := Next(nodes, net, step); Recorded(net'.sites[step.n], net'.topic, step.n, k)
  {
    hide Recorded;
    EventGoesOut(net.sites[step.n], net.topic, step.i, step.stamp, step.eventId, step.n, k);
  }

  lemma RecordedNext(nodes: Nodes, net: Net, step: Step, n: string, k: CacheKey)
    requires Enabled(nodes, net, step) && Guarded(net, step, k)
    requires n in net.sites && Recorded(net.sites[n], net.topic, n, k)
    ensures var net' := Next(nodes, net, step); n in net'.sites && Recorded(net'.sites[n], net'.topic, n, k)
  {
    match step
    case Operate(_, _) => if n == step.n { OperatorRecorded(nodes, net, step, k); }
    case Receive(_, _) =>
    case Publish(_, _, _, _) =>
      if n == step.n {
        PublisherRecorded(nodes, net, step, k);
      } else {
        var topic' := Next(nodes, net, step).topic;
        assert topic'[..|net.topic|] == net.topic && Last(topic', By(n, k)) == Last(net.topic, By(n, k));
      }
  }

  lemma PostsRecorded(nodes: Nodes, net: Net, step: Step, k: CacheKey)
    requires Enabled(nodes, net, step) && AllRecorded(nodes, net, k)
    ensures var net' := Next(nodes, net, step);
            forall i :: 0 <= i < |net'.topic| && net'.topic[i].event.key == k ==>
              net'.topic[i].at <= i && net'.topic[i].event.publishedBy in net'.sites
  {
    if step.Publish? && net.sites[step.n].outbox[step.i].key == k {
      assert Recorded(net.sites[step.n], net.topic, step.n, k) && Follows(net, step.n, k);
      assert Waiting(net.sites[step.n], k);
    }
  }

  lemma {:induction false} OrderlyIsRecorded(nodes: Nodes, steps: seq<Step>, k: CacheKey)
    requires Possible(nodes, steps) && Orderly(nodes, steps, k)
    ensures AllRecorded(nodes, After(nodes, steps), k)
    decreases |steps|
  {
    var net := After(nodes, steps);
    if steps != [] {
      var pre, step := steps[..|steps| - 1], steps[|steps| - 1];
      var was := After(nodes, pre);
      OrderlyIsRecorded(nodes, pre, k);
      PostsRecorded(nodes, was, step, k);
      assert net.sites.Keys == was.sites.Keys;
      forall n | n in net.sites ensures Recorded(net.sites[n], net.topic, n, k) {
        RecordedNext(nodes, was, step, n, k);
      }
    }
    forall n | n in net.sites ensures Follows(net, n, k) { EveryNodeFollows(nodes, steps, n, k); }
  }

  lemma OwnerAnnouncedItsOwn(nodes: Nodes, net: Net, o: string, k: CacheKey)
    requires AllRecorded(nodes, net, k) && Solo(net, k, o) && o in net.sites && !Waiting(net.sites[o], k)
    ensures Decided(net.topic, k) == net.sites[o].own(k).says
  {
    assert Recorded(net.sites[o], net.topic, o, k);
    match Last(net.topic, On(k))
    case None =>
    case Some(i) => LastIs(net.topic, By(o, k), i);
  }

  /** With one publisher of `k` that waits for each event to go out, and nothing
      of its on `k` left to publish, every drained node agrees with it. */
  lemma DrainedNodesAgree(nodes: Nodes, steps: seq<Step>, o: string, n: string, k: CacheKey)
    requires Possible(nodes, steps) && OnlyOwner(steps, k, o) && Orderly(nodes, steps, k)
    requires o in nodes && n in nodes && Drained(After(nodes, steps), n)
    requires var net := After(nodes, steps); o in net.sites ==> !Waiting(net.sites[o], k)
    ensures var net := After(nodes, steps); o in net.sites && Held(net, n, k) == Held(net, o, k)
  {
    var net := After(nodes, steps);
    OrderlyIsRecorded(nodes, steps, k);
    StaysSolo(nodes, steps, k, o);
    if n != o {
      OwnerAnnouncedItsOwn(nodes, net, o, k);
      OwnerAgreesIff(nodes, steps, o, n, k);
    }
  }

  // ----- Any number of publishers of a key -----

  ghost predicate Quiet(net: Net, k: CacheKey) {
    forall n :: n in net.sites ==> !Waiting(net.sites[n], k) && Drained(net, n)
  }

  ghost predicate Agree(net: Net, k: CacheKey) {
    forall m, n :: m in net.sites && n in net.sites ==> Held(net, m, k) == Held(net, n, k)
  }

  /** The publisher of the topic's last event on `k` had read every peer's event
      on `k` before its operation, or the last it had not read says the same:
      which it can see in the topic before it publishes. */
  predicate Uncrossed(topic: seq<Post>, k: CacheKey) {
    match Last(topic, On(k))
    case None => true
    case Some(i) =>
      var post := topic[i];
      post.at <= i && Heard(Says(post.event), topic[post.at..i], Foreign(post.event.publishedBy, k)) == Says(post.event)
  }

  lemma LastAfter(topic: seq<Post>, p: Post -> bool, at: nat, i: nat)
    requires at <= i < |topic| && p(topic[i]) && forall j :: i < j < |topic| ==> !p(topic[j])
    ensures Last(topic[at..], p) == Some(i - at)
  {
    LastIs(topic[at..], p, i - at);
  }

  /** A suffix whose tail from `i` on has nothing of the kind. */
  lemma HeardBefore(says: Option<Credential>, topic: seq<Post>, p: Post -> bool, at: nat, i: nat)
    requires at <= i <= |topic| && forall j :: i <= j < |topic| ==> !p(topic[j])
    ensures Heard(says, topic[at..], p) == Heard(says, topic[at..i], p)
  {
    match Last(topic[at..i], p)
    case None => assert forall j :: 0 <= j < |topic[at..i]| ==> topic[at..i][j] == topic[at + j];
    case Some(j) => LastAfter(topic, p, at, at + j);
  }

  /** Every other node ends with what the last event says. */
  lemma PeerHoldsTheLast(net: Net, n: string, k: CacheKey, i: nat)
    requires n in net.sites && Recorded(net.sites[n], net.topic, n, k) && !Waiting(net.sites[n], k)
    requires Follows(net, n, k) && Drained(net, n)
    requires forall j :: 0 <= j < |net.topic| && net.topic[j].event.key == k ==> net.topic[j].at <= j
    requires Last(net.topic, On(k)) == Some(i) && net.topic[i].event.publishedBy != n
    ensures Held(net, n, k) == Says(net.topic[i].event)
  {
    var from := net.sites[n].own(k).at;
    assert from <= i;
    LastAfter(net.topic, Foreign(n, k), from, i);
    assert net.topic[from..|net.topic|] == net.topic[from..];
  }

  /** Its publisher ends with what it had not read when it acted. */
  lemma PublisherHoldsTheUnread(net: Net, n: string, k: CacheKey, i: nat)
    requires n in net.sites && Recorded(net.sites[n], net.topic, n, k) && !Waiting(net.sites[n], k)
    requires Follows(net, n, k) && Drained(net, n)
    requires Last(net.topic, On(k)) == Some(i) && net.topic[i].event.publishedBy == n && net.topic[i].at <= i
    ensures Held(net, n, k) == Heard(Says(net.topic[i].event), net.topic[net.topic[i].at..i], Foreign(n, k))
  {
    LastIs(net.topic, By(n, k), i);
    HeardBefore(Says(net.topic[i].event), net.topic, Foreign(n, k), net.topic[i].at, i);
    assert net.topic[net.topic[i].at..|net.topic|] == net.topic[net.topic[i].at..];
  }

  lemma SilentTopicHoldsNothing(net: Net, n: string, k: CacheKey)
    requires n in net.sites && Recorded(net.sites[n], net.topic, n, k) && !Waiting(net.sites[n], k)
    requires Follows(net, n, k) && Drained(net, n) && Last(net.topic, On(k)) == None
    ensures Held(net, n, k) == None
  {
    assert net.topic[0..|net.topic|] == net.topic;
  }

  /** What every node ends with: the last event, for its publisher unless it
      crossed another. */
  lemma QuietNodesHold(nodes: Nodes, steps: seq<Step>, k: CacheKey, i: nat)
    requires Possible(nodes, steps) && Orderly(nodes, steps, k) && Quiet(After(nodes, steps), k)
    requires Last(After(nodes, steps).topic, On(k)) == Some(i)
    ensures var net := After(nodes, steps);
            var post := net.topic[i];
            var p := post.event.publishedBy;
            && post.at <= i && p in net.sites
            && Held(net, p, k) == Heard(Says(post.event), net.topic[post.at..i], Foreign(p, k))
            && forall n :: n in net.sites && n != p ==> Held(net, n, k) == Says(post.event)
  {
    var net := After(nodes, steps);
    OrderlyIsRecorded(nodes, steps, k);
    PublisherHoldsTheUnread(net, net.topic[i].event.publishedBy, k, i);
    forall n | n in net.sites && n != net.topic[i].event.publishedBy
      ensures Held(net, n, k) == Says(net.topic[i].event)
    {
      PeerHoldsTheLast(net, n, k, i);
    }
  }

  /** What is heard is the fallback, or comes from one of the posts. */
  lemma HeardFromSomeone(net: Net, n: string, k: CacheKey, from: nat, i: nat, says: Option<Credential>)
    requires forall j :: 0 <= j < |net.topic| && net.topic[j].event.key == k ==>
               net.topic[j].event.publishedBy in net.sites
    requires from <= i <= |net.topic|
    ensures Heard(says, net.topic[from..i], Foreign(n, k)) == says || exists m :: m in net.sites && m != n
  {
    var unread := net.topic[from..i];
    var last := Last(unread, Foreign(n, k));
    if last.Some? {
      var post := net.topic[from + last.value];
      assert unread[last.value] == post;
      assert post.event.publishedBy in net.sites && post.event.publishedBy != n;
    }
  }

  lemma AgreeFromHeld(net: Net, k: CacheKey, p: string, says: Option<Credential>, heard: Option<Credential>)
    requires p in net.sites && Held(net, p, k) == heard
    requires forall n :: n in net.sites && n != p ==> Held(net, n, k) == says
    requires heard == says || exists m :: m in net.sites && m != p
    ensures Agree(net, k) <==> heard == says
  {
    if heard != says {
      var m :| m in net.sites && m != p;
      assert Held(net, m, k) != Held(net, p, k);
    }
  }

  lemma PostedNodesAgreeIff(nodes: Nodes, steps: seq<Step>, k: CacheKey, i: nat)
    requires Possible(nodes, steps) && Orderly(nodes, steps, k) && Quiet(After(nodes, steps), k)
    requires Last(After(nodes, steps).topic, On(k)) == Some(i)
    ensures var net := After(nodes, steps);
            var post := net.topic[i];
            var p := post.event.publishedBy;
            post.at <= i
            && (Agree(net, k) <==> Heard(Says(post.event), net.topic[post.at..i], Foreign(p, k)) == Says(post.event))
  {
    var net := After(nodes, steps);
    var post := net.topic[i];
    var p := post.event.publishedBy;
    QuietNodesHold(nodes, steps, k, i);
    OrderlyIsRecorded(nodes, steps, k);
    HeardFromSomeone(net, p, k, post.at, i, Says(post.event));
    AgreeFromHeld(net, k, p, Says(post.event), Heard(Says(post.event), net.topic[post.at..i], Foreign(p, k)));
  }

  lemma SilentNodesAgree(nodes: Nodes, net: Net, k: CacheKey)
    requires AllRecorded(nodes, net, k) && Quiet(net, k) && Last(net.topic, On(k)) == None
    ensures Agree(net, k)
  {
    forall n | n in net.sites ensures Held(net, n, k) == None { SilentTopicHoldsNothing(net, n, k); }
  }

  /** Over every run of any number of publishers that wait for their events on
      `k` to go out, once all is published and read: all nodes agree on `k` if
      and only if the last event on `k` did not cross one saying otherwise. */
  lemma NodesAgreeIff(nodes: Nodes, steps: seq<Step>, k: CacheKey)
    requires Possible(nodes, steps) && Orderly(nodes, steps, k) && Quiet(After(nodes, steps), k)
    ensures Agree(After(nodes, steps), k) <==> Uncrossed(After(nodes, steps).topic, k)
  {
    match Last(After(nodes, steps).topic, On(k))
    case None =>
      OrderlyIsRecorded(nodes, steps, k);
      SilentNodesAgree(nodes, After(nodes, steps), k);
    case Some(i) => PostedNodesAgreeIff(nodes, steps, k, i);
  }
}
