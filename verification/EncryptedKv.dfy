/** The value-encrypting store: values are sealed with their key as associated
    data, opened on the way out, and refused when they do not open. */
module EncryptedKv {
  import opened Wrappers
  import opened EventCipher
  import KV = KeyValue

  datatype KvError = PlaintextRefused | OpenFailed(why: DecryptError) | InnerFailed(reason: string)

  datatype Policy = Policy(cipher: Cipher, allowPlaintext: bool)

  type Raw = KV.Store<Wire>
  type Reply = KV.Reply<Bytes, KvError>

  /** `Ok(None)` tells the caller to pass a tolerated plaintext through. */
  function OpenValue(p: Policy, key: string, w: Wire): Result<Option<Bytes>, KvError> {
    match Open(p.cipher, w, key)
    case Ok(pt) => Ok(Some(pt))
    case Err(NotEnvelope) => if p.allowPlaintext then Ok(None) else Err(PlaintextRefused)
    case Err(e) => Err(OpenFailed(e))
  }

  function Served(p: Policy, key: string, w: Wire): Result<Bytes, KvError> {
    match OpenValue(p, key, w)
    case Ok(Some(pt)) => Ok(pt)
    case Ok(None) => Ok(if w.Plain? then w.bytes else [])
    case Err(e) => Err(e)
  }

  /** A stored value is served as `pt` exactly if it seals `pt` under this cipher
      for this very key, or is the plaintext `pt` and plaintext is tolerated. */
  lemma ServedIff(p: Policy, key: string, w: Wire, pt: Bytes)
    ensures Served(p, key, w) == Ok(pt) <==>
            || (exists nonce: Bytes ::
                  && |nonce| == 24
                  && w == Envelope(1, p.cipher.kid, Base64(nonce), Base64(Sealed(p.cipher.key, nonce, key, pt))))
            || (p.allowPlaintext && w == Plain(pt))
  {
    if w.Envelope? {
      OpensOnlyItsOwnSealing(p.cipher, w, key, pt);
      forall nonce: Bytes
        | |nonce| == 24
          && w == Envelope(1, p.cipher.kid, Base64(nonce), Base64(Sealed(p.cipher.key, nonce, key, pt)))
        ensures Served(p, key, w) == Ok(pt)
      {
        var n: Nonce := nonce;
        assert w == Seal(p.cipher, n, pt, key);
      }
    }
  }

  /** What refuses the rest: the first thing wrong with it, in this order. */
  lemma RefusedBecause(p: Policy, key: string, w: Wire)
    ensures w.Plain? ==> (Served(p, key, w) == Err(PlaintextRefused) <==> !p.allowPlaintext)
    ensures w.Envelope? && Served(p, key, w).Err? ==>
              Served(p, key, w).error == OpenFailed(
                if w.v != 1 then UnsupportedVersion(w.v)
                else if w.kid != p.cipher.kid then KidMismatch(w.kid)
                else if w.n == Malformed then InvalidBase64
                else if |w.n.value| != 24 then InvalidNonceLength(|w.n.value|)
                else if w.c == Malformed then InvalidBase64
                else AuthFailed)
  {
  }

  /** A listing drops the entries that do not open and keeps the rest in order. */
  function OpenEntries(p: Policy, raw: seq<(string, KV.Entry<Wire>)>): seq<(string, KV.Entry<Bytes>)> {
    if raw == [] then []
    else
      var (key, entry) := raw[|raw| - 1];
      var pt := Served(p, key, entry.bytes);
      OpenEntries(p, raw[..|raw| - 1]) +
      if pt.Ok? then [(key, KV.Entry(pt.value, entry.expiresAt))] else []
  }

  function Sealing(p: Policy, op: KV.Op<Bytes>, nonce: Nonce): KV.Op<Wire> {
    match op
    case Get(key) => KV.Get(key)
    case Put(key, value, ttl) => KV.Put(key, Seal(p.cipher, nonce, value, key), ttl)
    case PutIfAbsent(key, value, ttl) => KV.PutIfAbsent(key, Seal(p.cipher, nonce, value, key), ttl)
    case Delete(key) => KV.Delete(key)
    case Expire(key, ttl) => KV.Expire(key, ttl)
    case ListPrefix(prefix, limit) => KV.ListPrefix(prefix, limit)
    case ListPage(prefix, cursor, limit) => KV.ListPage(prefix, cursor, limit)
  }

  function OpenReply(p: Policy, op: KV.Op<Bytes>, r: KV.Reply<Wire, KvError>): Reply {
    match r
    case Got(Ok(Some(e))) =>
      var key := if op.Get? then op.key else "";
      var pt := Served(p, key, e.bytes);
      KV.Got(if pt.Ok? then Ok(Some(KV.Entry(pt.value, e.expiresAt))) else Err(pt.error))
    case Got(Ok(None)) => KV.Got(Ok(None))
    case Got(Err(e)) => KV.Got(Err(e))
    case Done => KV.Done
    case Changed(yes) => KV.Changed(yes)
    case Listed(entries, next) => KV.Listed(OpenEntries(p, entries), next)
  }

  /** One operation through the decorator. */
  ghost function Step(p: Policy, s: Raw, op: KV.Op<Bytes>, now: nat, nonce: Nonce): (Raw, Reply) {
    var (s', r) := KV.Step<Wire, KvError>(s, Sealing(p, op, nonce), now);
    (s', OpenReply(p, op, r))
  }

  /** The decorator object: what it does with the inner store's answers, and
      its warn-once flag. */
  class EncryptingStore {
    const policy: Policy
    var plaintextWarned: bool

    constructor (policy: Policy)
      ensures this.policy == policy && !plaintextWarned
    {
      this.policy := policy;
      plaintextWarned := false;
    }

    method OpenLogged(key: string, w: Wire) returns (r: Result<Option<Bytes>, KvError>)
      modifies this
      ensures r == OpenValue(policy, key, w)
      ensures plaintextWarned <==> old(plaintextWarned) || r == Ok(None)
    {
      match Open(policy.cipher, w, key) {
        case Ok(pt) => return Ok(Some(pt));
        case Err(NotEnvelope) =>
          if policy.allowPlaintext {
            plaintextWarned := true;
            return Ok(None);
          }
          return Err(PlaintextRefused);
        case Err(e) => return Err(OpenFailed(e));
      }
    }

    method OpenListed(raw: seq<(string, KV.Entry<Wire>)>) returns (out: seq<(string, KV.Entry<Bytes>)>)
      modifies this
      ensures out == OpenEntries(policy, raw)
      ensures plaintextWarned <==>
                old(plaintextWarned) ||
                exists i :: 0 <= i < |raw| && OpenValue(policy, raw[i].0, raw[i].1.bytes) == Ok(None)
    {
      out := [];
      var i := 0;
      while i < |raw|
        invariant 0 <= i <= |raw|
        invariant out == OpenEntries(policy, raw[..i])
        invariant plaintextWarned <==>
                    old(plaintextWarned) ||
                    exists j :: 0 <= j < i && OpenValue(policy, raw[j].0, raw[j].1.bytes) == Ok(None)
      {
        var (key, entry) := raw[i];
        var r := OpenLogged(key, entry.bytes);
        match r {
          case Ok(Some(pt)) => out := out + [(key, KV.Entry(pt, entry.expiresAt))];
          case Ok(None) =>
            var bytes := if entry.bytes.Plain? then entry.bytes.bytes else [];
            out := out + [(key, KV.Entry(bytes, entry.expiresAt))];
          case Err(_) =>
        }
        assert raw[..i + 1][..i] == raw[..i] && raw[..i + 1][i] == raw[i];
        i := i + 1;
      }
      assert raw[..i] == raw;
    }

    /** A read, given what the inner store answered or how it failed. */
    method GetThrough(key: string, inner: Result<Option<KV.Entry<Wire>>, KvError>)
      returns (r: Result<Option<KV.Entry<Bytes>>, KvError>)
      modifies this
      ensures KV.Got(r) == OpenReply(policy, KV.Get(key), KV.Got(inner))
      ensures inner.Err? ==> r == Err(inner.error) && plaintextWarned == old(plaintextWarned)
    {
      if inner.Err? { return Err(inner.error); }
      if inner.value.None? { return Ok(None); }
      var entry := inner.value.value;
      var pt := OpenLogged(key, entry.bytes);
      match pt {
        case Ok(Some(bytes)) => return Ok(Some(KV.Entry(bytes, entry.expiresAt)));
        case Ok(None) =>
          var bytes := if entry.bytes.Plain? then entry.bytes.bytes else [];
          return Ok(Some(KV.Entry(bytes, entry.expiresAt)));
        case Err(e) => return Err(e);
      }
    }
  }

  /** A listing is exactly its openable entries, each once, in the original
      order: `at` gives the position each kept entry had. */
  lemma {:induction false} ListingKeepsOpenable(p: Policy, raw: seq<(string, KV.Entry<Wire>)>) returns (at: seq<nat>)
    ensures |at| == |OpenEntries(p, raw)|
    ensures forall i, j :: 0 <= i < j < |at| ==> at[i] < at[j]
    ensures forall i :: 0 <= i < |at| ==>
              && at[i] < |raw|
              && var (key, entry) := raw[at[i]];
                 && Served(p, key, entry.bytes).Ok?
                 && OpenEntries(p, raw)[i] == (key, KV.Entry(Served(p, key, entry.bytes).value, entry.expiresAt))
    ensures forall j :: 0 <= j < |raw| && Served(p, raw[j].0, raw[j].1.bytes).Ok? ==> j in at
    decreases |raw|
  {
    if raw == [] {
      at := [];
    } else {
      var n := |raw| - 1;
      at := ListingKeepsOpenable(p, raw[..n]);
      if Served(p, raw[n].0, raw[n].1.bytes).Ok? { at := at + [n]; }
      assert forall j :: 0 <= j < n ==> raw[..n][j] == raw[j];
    }
  }

  // ----- Authenticity against a writer without the key -----

  /** Operations of keyed clients, and writes straight to the raw store. */
  datatype Act =
    | Client(op: KV.Op<Bytes>, now: nat, nonce: Nonce)
    | RawWrite(key: string, entry: KV.Entry<Wire>)
    | RawErase(key: string)

  datatype World = World(store: Raw, sealed: set<(string, Bytes)>, produced: set<Ciphertext>)

  const NOTHING := World(map[], {}, {})

  /** Without the key one can only repeat ciphertexts the key has produced. */
  predicate Forgeable(p: Policy, w: Wire, produced: set<Ciphertext>) {
    w.Envelope? && w.c.Base64? && w.c.value.Sealed? && w.c.value.key == p.cipher.key ==> w.c.value in produced
  }

  ghost predicate CanAct(p: Policy, w: World, act: Act) {
    act.RawWrite? ==> Forgeable(p, act.entry.bytes, w.produced)
  }

  ghost function Do(p: Policy, w: World, act: Act): World {
    match act
    case Client(op, now, nonce) =>
      var store := Step(p, w.store, op, now, nonce).0;
      if op.Put? || op.PutIfAbsent? then
        World(store, w.sealed + {(op.key, op.value)}, w.produced + {Sealed(p.cipher.key, nonce, op.key, op.value)})
      else w.(store := store)
    case RawWrite(key, entry) => w.(store := w.store[key := entry])
    case RawErase(key) => w.(store := w.store - {key})
  }

  ghost function After(p: Policy, acts: seq<Act>): World
    decreases |acts|
  {
    if acts == [] then NOTHING else Do(p, After(p, acts[..|acts| - 1]), acts[|acts| - 1])
  }

  ghost predicate Possible(p: Policy, acts: seq<Act>) {
    forall i :: 0 <= i < |acts| ==> CanAct(p, After(p, acts[..i]), acts[i])
  }

  ghost predicate Accounted(p: Policy, w: World) {
    && (forall ct :: ct in w.produced ==> ct.Sealed? && (ct.aad, ct.msg) in w.sealed)
    && (forall k :: k in w.store ==> Forgeable(p, w.store[k].bytes, w.produced))
  }

  lemma DoStaysAccounted(p: Policy, w: World, act: Act)
    requires Accounted(p, w) && CanAct(p, w, act)
    ensures Accounted(p, Do(p, w, act))
  {
    var w' := Do(p, w, act);
    forall k | k in w'.store ensures Forgeable(p, w'.store[k].bytes, w'.produced) {
      if k in w.store { assert Forgeable(p, w.store[k].bytes, w.produced); }
    }
  }

  lemma {:induction false} AlwaysAccounted(p: Policy, acts: seq<Act>)
    requires Possible(p, acts)
    ensures Accounted(p, After(p, acts))
    decreases |acts|
  {
    if acts != [] {
      var n := |acts| - 1;
      assert forall i :: 0 <= i < n ==> acts[..n][..i] == acts[..i];
      AlwaysAccounted(p, acts[..n]);
      DoStaysAccounted(p, After(p, acts[..n]), acts[n]);
    }
  }

  /** Every value a reply serves under a key was sealed by a client for it. */
  ghost predicate Authentic(reply: Reply, op: KV.Op<Bytes>, sealed: set<(string, Bytes)>) {
    && (op.Get? && reply.Got? && reply.result.Ok? && reply.result.value.Some? ==>
          (op.key, reply.result.value.value.bytes) in sealed)
    && (reply.Listed? ==> forall i :: 0 <= i < |reply.entries| ==>
          (reply.entries[i].0, reply.entries[i].1.bytes) in sealed)
  }

  lemma ServedWasSealed(p: Policy, w: World, key: string)
    requires Accounted(p, w) && !p.allowPlaintext && key in w.store && Served(p, key, w.store[key].bytes).Ok?
    ensures (key, Served(p, key, w.store[key].bytes).value) in w.sealed
  {
    var wire := w.store[key].bytes;
    OpensOnlyItsOwnSealing(p.cipher, wire, key, Served(p, key, wire).value);
    assert Forgeable(p, wire, w.produced);
  }

  lemma {:induction false} OpenedPageIsAuthentic(p: Policy, w: World, page: seq<(string, KV.Entry<Wire>)>)
    requires Accounted(p, w) && !p.allowPlaintext
    requires forall i :: 0 <= i < |page| ==> page[i].0 in w.store && w.store[page[i].0] == page[i].1
    ensures forall i :: 0 <= i < |OpenEntries(p, page)| ==>
              (OpenEntries(p, page)[i].0, OpenEntries(p, page)[i].1.bytes) in w.sealed
    decreases |page|
  {
    if page != [] {
      var n := |page| - 1;
      OpenedPageIsAuthentic(p, w, page[..n]);
      if Served(p, page[n].0, page[n].1.bytes).Ok? { ServedWasSealed(p, w, page[n].0); }
    }
  }

  lemma StepIsAuthentic(p: Policy, w: World, op: KV.Op<Bytes>, now: nat, nonce: Nonce)
    requires Accounted(p, w) && !p.allowPlaintext
    ensures Authentic(Step(p, w.store, op, now, nonce).1, op, w.sealed)
  {
    match op
    case Get(key) =>
      if KV.Present(w.store, key, now) && Served(p, key, w.store[key].bytes).Ok? { ServedWasSealed(p, w, key); }
    case ListPrefix(prefix, limit) =>
      KV.RangeKeysAreKeys(w.store, prefix, None, now);
      OpenedPageIsAuthentic(p, w, KV.Page(w.store, prefix, None, limit, now));
    case ListPage(prefix, cursor, limit) =>
      KV.RangeKeysAreKeys(w.store, prefix, cursor, now);
      OpenedPageIsAuthentic(p, w, KV.Page(w.store, prefix, cursor, limit, now));
    case _ =>
  }

  /** With plaintext reads on, anyone can write what a client is then served. */
  lemma PlaintextSlips(p: Policy) returns (acts: seq<Act>, op: KV.Op<Bytes>, nonce: Nonce)
    requires p.allowPlaintext
    ensures Possible(p, acts)
    ensures !Authentic(Step(p, After(p, acts).store, op, 0, nonce).1, op, After(p, acts).sealed)
  {
    var entry := KV.Entry(Plain([]), None);
    acts, op, nonce := [RawWrite("k", entry)], KV.Get("k"), seq(NONCE_BYTES, _ => 0);
    assert acts[..0] == [];
    assert After(p, acts) == World(map["k" := entry], {}, {});
    assert Step(p, After(p, acts).store, op, 0, nonce).1 == KV.Got(Ok(Some(KV.Entry([], None))));
  }

  /** Fail-closed authenticity: whatever is written to the raw store by anyone
      without the key, every value served was sealed by a client under the
      very key it is served for, exactly when plaintext reads are off. */
  lemma AuthenticIffFailClosed(p: Policy)
    ensures !p.allowPlaintext <==>
            forall acts, op, now, nonce :: Possible(p, acts) ==>
              Authentic(Step(p, After(p, acts).store, op, now, nonce).1, op, After(p, acts).sealed)
  {
    if p.allowPlaintext {
      var acts, op, nonce := PlaintextSlips(p);
    } else {
      forall acts, op, now, nonce | Possible(p, acts)
        ensures Authentic(Step(p, After(p, acts).store, op, now, nonce).1, op, After(p, acts).sealed)
      {
        AlwaysAccounted(p, acts);
        StepIsAuthentic(p, After(p, acts), op, now, nonce);
      }
    }
  }
}
