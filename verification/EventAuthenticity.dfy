/** The cluster over a network of payloads: anyone may put anything on the topic
    that needs no ciphertext of the key it has not seen. */
module EventAuthenticity {
  import opened Wrappers
  import opened CredentialCache
  import opened ClusteredCache
  import opened EventCipher
  import E = EncryptedKv
  import C = Cluster

  /** What a subscriber makes of a payload: with a cipher only envelopes that
      open, without one only plain events. */
  function DecodeEvent(cipher: Option<Cipher>, codec: Codec<CacheEvent>, w: Wire): Option<CacheEvent> {
    match cipher
    case Some(c) =>
      var r := DecryptEnvelope(c, codec, w);
      if r.Ok? then Some(r.value) else None
    case None => if w.Envelope? then None else codec.read(w.bytes)
  }

  /** `emptyKeys`: something else seals under the same key with no associated
      data, as a value stored under the empty key would be. */
  datatype Setup = Setup(nodes: C.Nodes, cipher: Option<Cipher>, codec: Codec<CacheEvent>, emptyKeys: bool)

  datatype World = World(cluster: C.World, produced: set<Ciphertext>)

  /** A node's own step, with the nonce its event is sealed under if it publishes
      one; a payload that reaches a node; something else sealed under the key. */
  datatype Step =
    | Act(step: C.Step, nonce: Nonce)
    | Arrive(n: string, payload: Wire, clock: Reads)
    | SealOther(aad: string, msg: Bytes, nonce: Nonce)

  ghost function Start(s: Setup): World {
    World(C.Start(s.nodes), {})
  }

  /** Without the key only ciphertexts it produced can be presented under it. */
  ghost predicate CanArrive(s: Setup, w: World, payload: Wire) {
    s.cipher.Some? ==> E.Forgeable(E.Policy(s.cipher.value, false), payload, w.produced)
  }

  ghost predicate Enabled(s: Setup, w: World, step: Step) {
    match step
    case Act(st, _) => !st.DeliverStep? && st.n in s.nodes && C.Enabled(w.cluster, st)
    case Arrive(n, payload, _) => n in s.nodes && n in w.cluster.replicas && CanArrive(s, w, payload)
    case SealOther(aad, _, _) => aad == "" ==> s.emptyKeys
  }

  function Announced(st: C.Step): Option<CacheEvent> {
    match st
    case PublishIssuedStep(n, key, c, now, id) => Some(Issued(key, c, n, now, id))
    case PublishRevokedStep(n, key, now, id) => Some(Revoked(key, n, now, id))
    case _ => None
  }

  function Sealings(s: Setup, nonce: Nonce, aad: string, msg: Bytes): set<Ciphertext> {
    if s.cipher.Some? then {Sealed(s.cipher.value.key, nonce, aad, msg)} else {}
  }

  /** A payload that decodes to nothing is dropped; the event of any other takes
      its way through the gates, whoever sent it. */
  ghost function Next(s: Setup, w: World, step: Step): World {
    if !Enabled(s, w, step) then w
    else
      match step
      case Act(st, nonce) =>
        var e := Announced(st);
        World(C.Next(s.nodes, w.cluster, st),
              w.produced + if e.Some? then Sealings(s, nonce, "", s.codec.write(e.value)) else {})
      case Arrive(n, payload, clock) =>
        var e := DecodeEvent(s.cipher, s.codec, payload);
        if e.None? then w
        else
          var seen := w.cluster.(published := w.cluster.published + {e.value});
          w.(cluster := C.Next(s.nodes, seen, C.DeliverStep(n, e.value, clock)).(published := w.cluster.published))
      case SealOther(aad, msg, nonce) => w.(produced := w.produced + Sealings(s, nonce, aad, msg))
  }

  ghost function After(s: Setup, steps: seq<Step>): World {
    if steps == [] then Start(s) else Next(s, After(s, steps[..|steps| - 1]), steps[|steps| - 1])
  }

  ghost predicate Possible(s: Setup, steps: seq<Step>) {
    steps == [] ||
    (Possible(s, steps[..|steps| - 1]) && Enabled(s, After(s, steps[..|steps| - 1]), steps[|steps| - 1]))
  }

  ghost predicate Faithful(codec: Codec<CacheEvent>) {
    forall e :: codec.read(codec.write(e)) == Some(e)
  }

  // ----- What the key seals without associated data was published -----

  ghost predicate IsEvent(s: Setup, w: World, msg: Bytes) {
    exists e :: e in w.cluster.published && s.codec.write(e) == msg
  }

  ghost predicate Accounted(s: Setup, w: World) {
    forall ct :: ct in w.produced ==> ct.Sealed? && (ct.aad == "" ==> IsEvent(s, w, ct.msg))
  }

  lemma PublishedOnly(s: Setup, w: World, step: Step)
    requires Enabled(s, w, step)
    ensures w.cluster.published <= Next(s, w, step).cluster.published
    ensures step.Act? && Announced(step.step).Some? ==>
              Announced(step.step).value in Next(s, w, step).cluster.published
  {
  }

  lemma NextStaysAccounted(s: Setup, w: World, step: Step)
    requires Enabled(s, w, step) && Accounted(s, w) && !s.emptyKeys
    ensures Accounted(s, Next(s, w, step))
  {
    hide C.Next;
    var w' := Next(s, w, step);
    PublishedOnly(s, w, step);
    forall ct | ct in w'.produced ensures ct.Sealed? && (ct.aad == "" ==> IsEvent(s, w', ct.msg)) {
      if ct in w.produced && ct.aad == "" {
        var e :| e in w.cluster.published && s.codec.write(e) == ct.msg;
        assert e in w'.cluster.published;
      }
    }
  }

  lemma {:induction false} AlwaysAccounted(s: Setup, steps: seq<Step>)
    requires Possible(s, steps) && !s.emptyKeys
    ensures Accounted(s, After(s, steps))
    decreases |steps|
  {
    if steps != [] {
      AlwaysAccounted(s, steps[..|steps| - 1]);
      NextStaysAccounted(s, After(s, steps[..|steps| - 1]), steps[|steps| - 1]);
    }
  }

  lemma DecodedWasPublished(s: Setup, w: World, payload: Wire)
    requires Accounted(s, w) && CanArrive(s, w, payload) && s.cipher.Some? && Faithful(s.codec)
    ensures var e := DecodeEvent(s.cipher, s.codec, payload); e.Some? ==> e.value in w.cluster.published
  {
    var c, e := s.cipher.value, DecodeEvent(s.cipher, s.codec, payload);
    if e.Some? {
      OpensOnlyItsOwnSealing(c, payload, "", Open(c, payload, "").value);
      var x :| x in w.cluster.published && s.codec.write(x) == payload.c.value.msg;
      assert s.codec.read(s.codec.write(x)) == Some(x);
    }
  }

  /** What a node publishes can arrive, and then decodes to the very event. */
  lemma PublishedIsDecoded(s: Setup, w: World, st: C.Step, nonce: Nonce)
    requires Enabled(s, w, Act(st, nonce)) && Announced(st).Some? && s.cipher.Some? && Faithful(s.codec)
    ensures var payload := EncryptEvent(s.cipher.value, s.codec, nonce, Announced(st).value);
            && CanArrive(s, Next(s, w, Act(st, nonce)), payload)
            && DecodeEvent(s.cipher, s.codec, payload) == Announced(st)
  {
    hide C.Next;
    EventEnvelopeIsFaithful(s.cipher.value, s.codec, nonce, Announced(st).value, Plain([]), "");
  }

  // ----- Exactly when -----

  /** After every run, whatever can arrive decodes to a published event, if any. */
  ghost predicate Sound(s: Setup) {
    forall steps: seq<Step>, payload: Wire :: Possible(s, steps) && CanArrive(s, After(s, steps), payload) ==>
      var e := DecodeEvent(s.cipher, s.codec, payload); e.Some? ==> e.value in After(s, steps).cluster.published
  }

  /** Main result: over every run of any nodes and a network without the key, all
      that a subscriber decodes was published by a node, if and only if a cipher
      is configured and nothing else seals under its key without associated
      data. */
  lemma SoundIff(s: Setup)
    requires Faithful(s.codec)
    ensures Sound(s) <==> s.cipher.Some? && !s.emptyKeys
  {
    if s.cipher.Some? && !s.emptyKeys {
      forall steps: seq<Step>, payload: Wire | Possible(s, steps) && CanArrive(s, After(s, steps), payload)
        ensures var e := DecodeEvent(s.cipher, s.codec, payload);
                e.Some? ==> e.value in After(s, steps).cluster.published
      {
        AlwaysAccounted(s, steps);
        DecodedWasPublished(s, After(s, steps), payload);
      }
    } else {
      StrangerIsHeard(s);
    }
  }

  lemma OneStep(s: Setup, step: Step)
    requires Enabled(s, Start(s), step)
    ensures Possible(s, [step]) && After(s, [step]) == Next(s, Start(s), step)
  {
    assert [step][..0] == [];
    assert Possible(s, []) && After(s, []) == Start(s);
  }

  lemma StrangerIsHeard(s: Setup)
    requires Faithful(s.codec) && (s.cipher.None? || s.emptyKeys)
    ensures !Sound(s)
  {
    var e := Revoked(CacheKey("h", "p", "t"), "stranger", 0, "");
    var msg := s.codec.write(e);
    assert s.codec.read(msg) == Some(e);
    if s.cipher.None? {
      var steps := [];
      assert Possible(s, steps) && CanArrive(s, After(s, steps), Plain(msg));
      assert DecodeEvent(s.cipher, s.codec, Plain(msg)) == Some(e);
    } else {
      var nonce: Nonce := seq(NONCE_BYTES, _ => 0);
      var steps, payload := [SealOther("", msg, nonce)], Seal(s.cipher.value, nonce, msg, "");
      OneStep(s, steps[0]);
      assert CanArrive(s, After(s, steps), payload) && DecodeEvent(s.cipher, s.codec, payload) == Some(e);
    }
  }

  // ----- So the cluster over payloads is the cluster over events -----

  /** The cluster steps a run over payloads amounts to. */
  lemma {:induction false} RunIsClusterRun(s: Setup, steps: seq<Step>) returns (run: seq<C.Step>)
    requires Possible(s, steps) && Faithful(s.codec) && s.cipher.Some? && !s.emptyKeys
    ensures C.Reaches(s.nodes, run, After(s, steps).cluster)
    decreases |steps|
  {
    if steps == [] {
      run := [];
    } else {
      var pre, step := steps[..|steps| - 1], steps[|steps| - 1];
      var w := After(s, pre);
      run := RunIsClusterRun(s, pre);
      AlwaysAccounted(s, pre);
      match step {
        case Act(st, _) => run := Extend(s, run, w.cluster, st);
        case Arrive(n, payload, clock) =>
          var e := DecodeEvent(s.cipher, s.codec, payload);
          if e.Some? {
            DecodedWasPublished(s, w, payload);
            assert w.cluster.published + {e.value} == w.cluster.published;
            run := Extend(s, run, w.cluster, C.DeliverStep(n, e.value, clock));
          }
        case SealOther(_, _, _) =>
      }
    }
  }

  lemma Extend(s: Setup, run: seq<C.Step>, v: C.World, st: C.Step) returns (run': seq<C.Step>)
    requires C.Reaches(s.nodes, run, v) && st.n in s.nodes && C.Enabled(v, st)
    ensures C.Reaches(s.nodes, run', C.Next(s.nodes, v, st))
  {
    run' := run + [st];
    var n := |run'| - 1;
    assert run'[..n] == run && run'[n] == st;
    assert C.Reaches(s.nodes, run'[..n], v) && C.Next(s.nodes, v, st) == C.Next(s.nodes, v, run'[n]);
  }

  /** With a cipher of their own, whatever the network sends, nodes serve only
      credentials some issuer handed out for that very triple. */
  lemma ServedDespiteNetwork(s: Setup, steps: seq<Step>, n: string, key: CacheKey, now: nat)
    requires Possible(s, steps) && Faithful(s.codec) && s.cipher.Some? && !s.emptyKeys
    requires n in After(s, steps).cluster.replicas
    ensures var w := After(s, steps).cluster;
            var hit := Lookup(w.replicas[n].state.local.entries, key, now).1;
            hit.Some? ==> C.Issuance(key, hit.value) in w.issued
  {
    var run := RunIsClusterRun(s, steps);
    C.ServedCredentialWasIssued(s.nodes, run, After(s, steps).cluster, n, key, now);
  }
}
