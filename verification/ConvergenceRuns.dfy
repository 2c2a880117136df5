/** Runs of the ordered cluster after which drained nodes disagree. A run on one
    key is followed on a sketch: what each node has read, still has to publish,
    last did and holds. */
module ConvergenceRuns {
  import opened Wrappers
  import opened CredentialCache
  import opened ClusteredCache
  import opened Convergence
  import SeenEvents

  datatype View = View(cursor: nat, outbox: seq<Pending>, own: Own, held: Option<Credential>)

  datatype Sketch = Sketch(views: map<string, View>, topic: seq<Post>)

  /** Nodes that accept every publisher and cache more than one entry. */
  ghost predicate Open(nodes: Nodes) {
    forall n :: n in nodes ==> nodes[n].id == n && nodes[n].allowed == [] && nodes[n].cache.maxEntries >= 2
  }

  ghost function Ids(posts: seq<Post>): set<SeenEvents.EventKey> {
    set p | p in posts :: KeyOf(p.event)
  }

  ghost predicate SiteFits(site: Site, view: View, topic: seq<Post>, k: CacheKey) {
    && site.cursor == view.cursor <= |topic| && site.outbox == view.outbox && site.own(k) == view.own
    && HeldIn(site.state.local.entries, k) == view.held
    && site.state.local.entries.Keys <= {k}
    && site.state.window.seen.Keys <= Ids(topic[..view.cursor])
  }

  ghost predicate Fits(nodes: Nodes, net: Net, k: CacheKey, sk: Sketch) {
    && net.topic == sk.topic && net.sites.Keys == sk.views.Keys == nodes.Keys
    && forall n :: n in net.sites ==> SiteFits(net.sites[n], sk.views[n], sk.topic, k)
  }

  /** Operations on the one key or its plugin, and receipts of fresh events with
      new ids. */
  ghost predicate CanTake(sk: Sketch, k: CacheKey, step: Step) {
    step.n in sk.views &&
    var view := sk.views[step.n];
    match step
    case Operate(_, op) => ((op.InsertOp? || op.InvalidateOp?) && op.key == k) || op.InvalidatePluginOp?
    case Publish(_, i, _, _) => i < |view.outbox|
    case Receive(_, clock) =>
      && view.cursor < |sk.topic|
      && var e := sk.topic[view.cursor].event;
         && e.key == k && e.eventId != "" && FreshEnough(e, clock.freshness)
         && KeyOf(e) !in Ids(sk.topic[..view.cursor])
  }

  ghost function Taken(sk: Sketch, k: CacheKey, step: Step): Sketch
    requires CanTake(sk, k, step)
  {
    var n, view := step.n, sk.views[step.n];
    match step
    case Operate(_, op) =>
      var decides := op.InvalidatePluginOp? ==> view.held.Some? && op.plugin == k.pluginId;
      sk.(views := sk.views[n := View(view.cursor, view.outbox + Announcements(op, view.cursor),
                                      if decides then Own(view.cursor, Leaves(op)) else view.own,
                                      if decides then Leaves(op) else view.held)])
    case Publish(_, i, stamp, id) =>
      var p, rest := view.outbox[i], view.outbox[..i] + view.outbox[i + 1..];
      Sketch(sk.views[n := view.(outbox := rest)], sk.topic + [Post(Announce(p, n, stamp, id), p.at)])
    case Receive(_, _) =>
      var e := sk.topic[view.cursor].event;
      sk.(views := sk.views[n := view.(cursor := view.cursor + 1,
                                       held := if e.publishedBy == n then view.held else Says(e))])
  }

  lemma OneEntryIsRoomy(config: Config, es: Entries, op: Op, k: CacheKey)
    requires es.Keys <= {k} && config.maxEntries >= 2 && !op.LookupOp?
    ensures Roomy(config, es, op)
  {
    assert |{k}| == |es.Keys| + |{k} - es.Keys|;
  }

  lemma OperatorFits(nodes: Nodes, net: Net, k: CacheKey, sk: Sketch, step: Step)
    requires Open(nodes) && Fits(nodes, net, k, sk) && CanTake(sk, k, step) && step.Operate?
    ensures Enabled(nodes, net, step)
    ensures SiteFits(Next(nodes, net, step).sites[step.n], Taken(sk, k, step).views[step.n], sk.topic, k)
  {
    var site, config := net.sites[step.n], nodes[step.n].cache;
    OneEntryIsRoomy(config, site.state.local.entries, step.op, k);
    OperationHolds(config, site.state.local, step.op, k);
    forall j | j in Apply(config, site.state.local, step.op).entries ensures j == k {
      OperationHolds(config, site.state.local, step.op, j);
    }
  }

  lemma ReaderFits(nodes: Nodes, net: Net, k: CacheKey, sk: Sketch, step: Step)
    requires Open(nodes) && WellShaped(k) && Fits(nodes, net, k, sk) && CanTake(sk, k, step) && step.Receive?
    ensures Enabled(nodes, net, step)
    ensures SiteFits(Next(nodes, net, step).sites[step.n], Taken(sk, k, step).views[step.n], sk.topic, k)
  {
    hide SeenEvents.Check;
    var site, node := net.sites[step.n], nodes[step.n];
    var e := sk.topic[site.cursor].event;
    assert sk.topic[..site.cursor + 1] == sk.topic[..site.cursor] + [sk.topic[site.cursor]];
    if e.publishedBy != step.n {
      SeenEvents.UnknownKeyIsAccepted(site.state.window, node.seenTtl, node.seenCap, KeyOf(e), step.clock.replay);
      var op := Effect(e, step.clock);
      OneEntryIsRoomy(node.cache, site.state.local.entries, op, k);
      OperationHolds(node.cache, site.state.local, op, k);
      forall j | j in Apply(node.cache, site.state.local, op).entries ensures j == k {
        OperationHolds(node.cache, site.state.local, op, j);
      }
    }
  }

  /** A step the sketch can take is enabled, and its sketch fits what it leads to. */
  lemma StepFits(nodes: Nodes, net: Net, k: CacheKey, sk: Sketch, step: Step)
    requires Open(nodes) && WellShaped(k) && Fits(nodes, net, k, sk) && CanTake(sk, k, step)
    ensures Enabled(nodes, net, step) && Fits(nodes, Next(nodes, net, step), k, Taken(sk, k, step))
  {
    hide SeenEvents.Check, CredentialCache.Apply, Gate;
    if step.Operate? { OperatorFits(nodes, net, k, sk, step); }
    if step.Receive? { ReaderFits(nodes, net, k, sk, step); }
    var net', sk' := Next(nodes, net, step), Taken(sk, k, step);
    forall n | n in net'.sites ensures SiteFits(net'.sites[n], sk'.views[n], sk'.topic, k) {
      assert SiteFits(net.sites[n], sk.views[n], sk.topic, k);
      StillFits(net.sites[n], sk.views[n], sk.topic, sk'.topic, k);
    }
  }

  lemma StillFits(site: Site, view: View, topic: seq<Post>, topic': seq<Post>, k: CacheKey)
    requires SiteFits(site, view, topic, k) && topic <= topic'
    ensures SiteFits(site, view, topic', k)
  {
    assert topic'[..view.cursor] == topic[..view.cursor];
  }

  // ----- Two nodes -----

  function Two(a: View, b: View, topic: seq<Post>): Sketch {
    Sketch(map["a" := a, "b" := b], topic)
  }

  const IDLE := View(0, [], NEVER, None)
  const NOON := Reads(1, 1, 1)

  /** The guard of `Orderly`, on the sketch. */
  ghost predicate Patient(sk: Sketch, k: CacheKey, step: Step) {
    step.Operate? && step.n in sk.views && Concerns(step.op, k) ==>
      if step.op.InvalidatePluginOp? then sk.views[step.n].held == None
      else forall j :: 0 <= j < |sk.views[step.n].outbox| ==> sk.views[step.n].outbox[j].key != k
  }

  ghost predicate Link(k: CacheKey, sk: Sketch, step: Step, sk': Sketch, patient: bool) {
    CanTake(sk, k, step) && sk' == Taken(sk, k, step) && (patient ==> Patient(sk, k, step))
  }

  /** Steps with the sketch before and after each. */
  datatype Drawn = Drawn(steps: seq<Step>, sketches: seq<Sketch>)

  /** The steps can be taken one after another; `patient` if each node also
      waits for its events to go out. */
  ghost predicate Draws(k: CacheKey, d: Drawn, patient: bool) {
    && |d.sketches| == |d.steps| + 1 && d.sketches[0] == Two(IDLE, IDLE, [])
    && forall i :: 0 <= i < |d.steps| ==> Link(k, d.sketches[i], d.steps[i], d.sketches[i + 1], patient)
  }

  function Now(d: Drawn): Sketch
    requires d.sketches != []
  {
    d.sketches[|d.sketches| - 1]
  }

  /** The steps are a run of the nodes, and the sketch fits where they lead. */
  ghost predicate Runs(nodes: Nodes, k: CacheKey, steps: seq<Step>, sk: Sketch, patient: bool) {
    Possible(nodes, steps) && Fits(nodes, After(nodes, steps), k, sk) && (patient ==> Orderly(nodes, steps, k))
  }

  lemma LinkIsStep(nodes: Nodes, k: CacheKey, pre: seq<Step>, sk: Sketch, step: Step, sk': Sketch, patient: bool)
    requires Open(nodes) && WellShaped(k) && Link(k, sk, step, sk', patient) && Runs(nodes, k, pre, sk, patient)
    ensures Runs(nodes, k, pre + [step], sk', patient)
  {
    assert (pre + [step])[..|pre|] == pre;
    StepFits(nodes, After(nodes, pre), k, sk, step);
    PatienceGuards(nodes, After(nodes, pre), k, sk, step);
  }

  lemma NothingRuns(nodes: Nodes, k: CacheKey, patient: bool)
    requires nodes.Keys == {"a", "b"}
    ensures Runs(nodes, k, [], Two(IDLE, IDLE, []), patient)
  {
  }

  /** A sketched run is a run of the nodes. */
  lemma {:induction false} SketchIsRun(nodes: Nodes, k: CacheKey, d: Drawn, patient: bool, n: nat)
    returns (steps: seq<Step>)
    requires Open(nodes) && nodes.Keys == {"a", "b"} && WellShaped(k) && Draws(k, d, patient) && n <= |d.steps|
    ensures steps == d.steps[..n] && Runs(nodes, k, steps, d.sketches[n], patient)
  {
    if n == 0 {
      steps := [];
      NothingRuns(nodes, k, patient);
    } else {
      var pre := SketchIsRun(nodes, k, d, patient, n - 1);
      LinkIsStep(nodes, k, pre, d.sketches[n - 1], d.steps[n - 1], d.sketches[n], patient);
      steps := pre + [d.steps[n - 1]];
      PrefixGrows(d.steps, n);
    }
  }

  lemma PrefixGrows<T>(s: seq<T>, n: nat)
    requires 0 < n <= |s|
    ensures s[..n] == s[..n - 1] + [s[n - 1]]
  {
  }

  lemma PatienceGuards(nodes: Nodes, net: Net, k: CacheKey, sk: Sketch, step: Step)
    requires Fits(nodes, net, k, sk)
    ensures Patient(sk, k, step) ==> Guarded(net, step, k)
  {
    if step.n in net.sites { assert SiteFits(net.sites[step.n], sk.views[step.n], sk.topic, k); }
  }

  /** A finished sketch, read off the nodes. */
  lemma SketchEnds(nodes: Nodes, k: CacheKey, d: Drawn, patient: bool)
    requires Open(nodes) && nodes.Keys == {"a", "b"} && WellShaped(k) && Draws(k, d, patient)
    ensures Possible(nodes, d.steps) && (patient ==> Orderly(nodes, d.steps, k))
    ensures var net := After(nodes, d.steps);
            && net.topic == Now(d).topic && net.sites.Keys == Now(d).views.Keys == {"a", "b"}
            && forall n :: n in net.sites ==>
                 && net.sites[n].cursor == Now(d).views[n].cursor && net.sites[n].outbox == Now(d).views[n].outbox
                 && Held(net, n, k) == Now(d).views[n].held
  {
    var steps := SketchIsRun(nodes, k, d, patient, |d.steps|);
    assert steps == d.steps;
    var net := After(nodes, d.steps);
    forall n | n in net.sites ensures SiteFits(net.sites[n], Now(d).views[n], Now(d).topic, k) {}
  }

  // ----- Drawing one more step -----

  lemma Draw(k: CacheKey, d: Drawn, patient: bool, step: Step) returns (d': Drawn)
    requires Draws(k, d, patient) && CanTake(Now(d), k, step) && (patient ==> Patient(Now(d), k, step))
    ensures Draws(k, d', patient) && Now(d') == Taken(Now(d), k, step) && d'.steps == d.steps + [step]
  {
    d' := Drawn(d.steps + [step], d.sketches + [Taken(Now(d), k, step)]);
    forall i | 0 <= i < |d'.steps| ensures Link(k, d'.sketches[i], d'.steps[i], d'.sketches[i + 1], patient) {
      if i < |d.steps| { assert Link(k, d.sketches[i], d.steps[i], d.sketches[i + 1], patient); }
    }
  }

  ghost predicate Grows(d: Drawn, step: Step, d': Drawn, n: string, view: View, topic: seq<Post>)
    requires d.sketches != [] && d'.sketches != []
  {
    && Now(d').topic == topic && Now(d').views == Now(d).views[n := view]
    && (forall k, o :: OnlyOwner(d.steps, k, o) && (step.Operate? ==> step.n == o) ==> OnlyOwner(d'.steps, k, o))
  }

  lemma DrawIssue(k: CacheKey, d: Drawn, patient: bool, n: string, c: Credential) returns (d': Drawn)
    requires Draws(k, d, patient) && n in Now(d).views
    requires patient ==> Now(d).views[n].outbox == []
    ensures Draws(k, d', patient)
    ensures var view := Now(d).views[n];
            Grows(d, Operate(n, InsertOp(k, c, 0)), d', n,
                  View(view.cursor, view.outbox + [Pending(k, Some(c), view.cursor)],
                        Own(view.cursor, Some(c)), Some(c)),
                  Now(d).topic)
  {
    d' := Draw(k, d, patient, Operate(n, InsertOp(k, c, 0)));
  }

  lemma DrawShutdown(k: CacheKey, d: Drawn, n: string) returns (d': Drawn)
    requires Draws(k, d, false) && n in Now(d).views && Now(d).views[n].held.Some?
    ensures Draws(k, d', false)
    ensures var view := Now(d).views[n];
            Grows(d, Operate(n, InvalidatePluginOp(k.pluginId)), d', n,
                  View(view.cursor, view.outbox, Own(view.cursor, None), None), Now(d).topic)
  {
    d' := Draw(k, d, false, Operate(n, InvalidatePluginOp(k.pluginId)));
    assert Now(d).views[n].outbox + [] == Now(d).views[n].outbox;
  }

  lemma DrawPublish(k: CacheKey, d: Drawn, patient: bool, n: string, i: nat, id: string) returns (d': Drawn)
    requires Draws(k, d, patient) && n in Now(d).views && i < |Now(d).views[n].outbox|
    ensures Draws(k, d', patient)
    ensures var view := Now(d).views[n];
            Grows(d, Publish(n, i, 1, id), d', n, view.(outbox := view.outbox[..i] + view.outbox[i + 1..]),
                  Now(d).topic + [Post(Announce(view.outbox[i], n, 1, id), view.outbox[i].at)])
  {
    d' := Draw(k, d, patient, Publish(n, i, 1, id));
  }

  lemma DrawReceive(k: CacheKey, d: Drawn, patient: bool, n: string) returns (d': Drawn)
    requires Draws(k, d, patient) && n in Now(d).views
    requires var sk := Now(d);
             var cursor := sk.views[n].cursor;
             && cursor < |sk.topic|
             && var e := sk.topic[cursor].event;
                && e.key == k && e.eventId != "" && e.publishedAtMs == 1
                && forall j :: 0 <= j < cursor ==> sk.topic[j].event.eventId != e.eventId
    ensures Draws(k, d', patient)
    ensures var view := Now(d).views[n];
            var e := Now(d).topic[view.cursor].event;
            Grows(d, Receive(n, NOON), d', n,
                  view.(cursor := view.cursor + 1, held := if e.publishedBy == n then view.held else Says(e)),
                  Now(d).topic)
  {
    var sk := Now(d);
    var read := sk.topic[..sk.views[n].cursor];
    forall p | p in read ensures p.event.eventId != sk.topic[sk.views[n].cursor].event.eventId {
      var j :| 0 <= j < |read| && read[j] == p;
      assert sk.topic[j] == p;
    }
    d' := Draw(k, d, patient, Receive(n, NOON));
  }

  lemma DrawNothing(k: CacheKey, patient: bool) returns (d: Drawn)
    ensures Draws(k, d, patient) && Now(d) == Two(IDLE, IDLE, []) && d.steps == []
  {
    d := Drawn([], [Two(IDLE, IDLE, [])]);
  }

  // ----- The runs -----

  lemma DrawSlowPublication(k: CacheKey, c1: Credential, c2: Credential) returns (d: Drawn)
    ensures Draws(k, d, false) && OnlyOwner(d.steps, k, "a")
    ensures var sk := Now(d);
            && sk.views.Keys == {"a", "b"} && sk.views["a"].held == Some(c2) && sk.views["a"].outbox == []
            && sk.views["b"].held == Some(c1) && sk.views["b"].cursor == |sk.topic|
  {
    d := DrawNothing(k, false);
    d := DrawIssue(k, d, false, "a", c1);
    d := DrawIssue(k, d, false, "a", c2);
    d := DrawPublish(k, d, false, "a", 1, "1");
    d := DrawPublish(k, d, false, "a", 0, "2");
    d := DrawReceive(k, d, false, "b");
    d := DrawReceive(k, d, false, "b");
  }

  /** One publisher is not enough: two concurrent issues, published the other
      way round, leave the drained peer with what the publisher replaced. */
  lemma SlowPublicationDiverges(nodes: Nodes, k: CacheKey, c1: Credential, c2: Credential) returns (steps: seq<Step>)
    requires Open(nodes) && nodes.Keys == {"a", "b"} && WellShaped(k)
    ensures Possible(nodes, steps) && OnlyOwner(steps, k, "a") && Drained(After(nodes, steps), "b")
    ensures var net := After(nodes, steps);
            "a" in net.sites && net.sites["a"].outbox == []
            && Held(net, "a", k) == Some(c2) && Held(net, "b", k) == Some(c1)
  {
    var d := DrawSlowPublication(k, c1, c2);
    SketchEnds(nodes, k, d, false);
    steps := d.steps;
  }

  lemma DrawSilentShutdown(k: CacheKey, c: Credential) returns (d: Drawn)
    ensures Draws(k, d, false) && OnlyOwner(d.steps, k, "a")
    ensures var sk := Now(d);
            && sk.views.Keys == {"a", "b"} && sk.views["a"].held == None && sk.views["a"].outbox == []
            && sk.views["b"].held == Some(c) && sk.views["b"].cursor == |sk.topic|
  {
    d := DrawNothing(k, false);
    d := DrawIssue(k, d, false, "a", c);
    d := DrawPublish(k, d, false, "a", 0, "1");
    d := DrawReceive(k, d, false, "b");
    d := DrawShutdown(k, d, "a");
  }

  /** A plugin-wide invalidation publishes nothing: the drained peer keeps what
      the publisher dropped. */
  lemma ShutdownDiverges(nodes: Nodes, k: CacheKey, c: Credential) returns (steps: seq<Step>)
    requires Open(nodes) && nodes.Keys == {"a", "b"} && WellShaped(k)
    ensures Possible(nodes, steps) && OnlyOwner(steps, k, "a") && Drained(After(nodes, steps), "b")
    ensures var net := After(nodes, steps);
            "a" in net.sites && net.sites["a"].outbox == [] && Held(net, "a", k) == None && Held(net, "b", k) == Some(c)
  {
    var d := DrawSilentShutdown(k, c);
    SketchEnds(nodes, k, d, false);
    steps := d.steps;
  }

  /** Both nodes miss, both issuers answer, both publish. */
  lemma DrawCrossing(k: CacheKey, c1: Credential, c2: Credential) returns (d: Drawn)
    ensures Draws(k, d, true)
    ensures var sk := Now(d);
            && sk.topic == [Post(Issued(k, c1, "a", 1, "1"), 0), Post(Issued(k, c2, "b", 1, "2"), 0)]
            && sk.views.Keys == {"a", "b"} && sk.views["a"].held == Some(c1) && sk.views["b"].held == Some(c2)
            && forall n :: n in sk.views ==> sk.views[n].cursor == 0 && sk.views[n].outbox == []
  {
    d := DrawNothing(k, true);
    d := DrawIssue(k, d, true, "a", c1);
    d := DrawIssue(k, d, true, "b", c2);
    d := DrawPublish(k, d, true, "a", 0, "1");
    d := DrawPublish(k, d, true, "b", 0, "2");
  }

  lemma DrawCrossed(k: CacheKey, c1: Credential, c2: Credential) returns (d: Drawn)
    ensures Draws(k, d, true)
    ensures var sk := Now(d);
            && |sk.topic| == 2
            && sk.views.Keys == {"a", "b"} && sk.views["a"].held == Some(c2) && sk.views["b"].held == Some(c1)
            && forall n :: n in sk.views ==> sk.views[n].cursor == 2 && sk.views[n].outbox == []
  {
    d := DrawCrossing(k, c1, c2);
    d := DrawReceive(k, d, true, "a");
    d := DrawReceive(k, d, true, "a");
    d := DrawReceive(k, d, true, "b");
    d := DrawReceive(k, d, true, "b");
  }

  /** Two publishers that wait, and cross: both miss, both issuers answer, both
      publish, both drain, and each holds the other's credential. */
  lemma CrossedPublishersDiverge(nodes: Nodes, k: CacheKey, c1: Credential, c2: Credential) returns (steps: seq<Step>)
    requires Open(nodes) && nodes.Keys == {"a", "b"} && WellShaped(k)
    ensures Possible(nodes, steps) && Orderly(nodes, steps, k) && Quiet(After(nodes, steps), k)
    ensures var net := After(nodes, steps);
            && "a" in net.sites && "b" in net.sites
            && Held(net, "a", k) == Some(c2) && Held(net, "b", k) == Some(c1)
  {
    var d := DrawCrossed(k, c1, c2);
    SketchEnds(nodes, k, d, true);
    steps := d.steps;
  }
}
