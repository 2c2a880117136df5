/** The host integrity tag on identities handed to plugins: a keyed MAC over
    the identity without its tag, the plugin alias and the dispatch number. */
module IdentitySig {
  import opened Wrappers
  import opened NumberText
  import Framing

  type Bytes = seq<Byte>

  datatype Identity = Identity(kind: string, trustLevel: string, subjectId: Option<string>,
                               authProvider: Option<string>, issuer: Option<string>,
                               roles: seq<string>, groups: seq<string>, scopes: seq<string>,
                               attributes: map<string, string>)

  /** The serializer, the encoding of texts, the keyed hash in hexadecimal, and
      the octets of a text as the machine compares them. */
  datatype Crypto = Crypto(json: Identity -> Bytes, utf8: string -> Bytes, hash: Bytes -> string,
                           octets: string -> seq<bv8>)

  /** What is assumed of them: nothing collides, and serialized identities,
      being JSON with control characters escaped, hold no zero byte. */
  ghost predicate Ideal(c: Crypto) {
    && (forall a, b :: c.json(a) == c.json(b) ==> a == b)
    && (forall a :: 0 !in c.json(a))
    && (forall a, b :: c.utf8(a) == c.utf8(b) ==> a == b)
    && (forall a, b :: c.octets(a) == c.octets(b) ==> a == b)
    && (forall a, b :: c.hash(a) == c.hash(b) ==> a == b)
  }

  const SIG_ATTR := "__mcpg_id_sig"
  const TAG_VERSION := "2"

  function Bare(id: Identity): Identity {
    id.(attributes := id.attributes - {SIG_ATTR})
  }

  /** The two agree on every field, and on every attribute but the reserved one. */
  ghost predicate SameButTag(a: Identity, b: Identity) {
    && a.kind == b.kind && a.trustLevel == b.trustLevel && a.subjectId == b.subjectId
    && a.authProvider == b.authProvider && a.issuer == b.issuer
    && a.roles == b.roles && a.groups == b.groups && a.scopes == b.scopes
    && forall k :: k != SIG_ATTR ==>
         && (k in a.attributes <==> k in b.attributes)
         && (k in a.attributes && k in b.attributes ==> a.attributes[k] == b.attributes[k])
  }

  /** `r` is `id` without the reserved attribute. */
  ghost predicate IsStripped(r: Identity, id: Identity) {
    SameButTag(r, id) && SIG_ATTR !in r.attributes
  }

  function MacData(c: Crypto, id: Identity, alias: string, dispatch: nat): Bytes {
    c.json(Bare(id)) + [0] + c.utf8(alias) + [0] + BigEndian(dispatch, 8)
  }

  function Mac(c: Crypto, id: Identity, alias: string, dispatch: nat): string {
    c.hash(MacData(c, id, alias, dispatch))
  }

  function Tag(mac: string, dispatch: nat): string {
    TAG_VERSION + ":" + Hex(dispatch, 16) + ":" + mac
  }

  function Sign(c: Crypto, id: Identity, alias: string, dispatch: nat): Identity {
    id.(attributes := id.attributes[SIG_ATTR := Tag(Mac(c, id, alias, dispatch), dispatch)])
  }

  /** Split at the first occurrence. */
  function SplitOnce(s: string, c: char): Option<(string, string)> {
    if s == "" then None
    else if s[0] == c then Some(("", s[1..]))
    else match SplitOnce(s[1..], c)
         case None => None
         case Some((head, tail)) => Some(([s[0]] + head, tail))
  }

  /** The dispatch number and MAC a well-formed tag of this version names. */
  function ParseTag(tag: string): Option<(nat, string)> {
    match SplitOnce(tag, ':')
    case None => None
    case Some((version, rest)) =>
      if version != TAG_VERSION then None
      else match SplitOnce(rest, ':')
           case None => None
           case Some((hex, mac)) =>
             match FromStrRadix(hex, 16)
             case None => None
             case Some(dispatch) => Some((dispatch, mac))
  }

  function PresentedTag(id: Identity): Option<(nat, string)> {
    if SIG_ATTR in id.attributes then ParseTag(id.attributes[SIG_ATTR]) else None
  }

  function VerifyStrip(c: Crypto, id: Identity, alias: string, isLive: nat -> bool): Option<Identity> {
    match PresentedTag(id)
    case None => None
    case Some((dispatch, mac)) =>
      if c.octets(mac) != c.octets(Mac(c, id, alias, dispatch)) then None
      else if !isLive(dispatch) then None
      else Some(Bare(id))
  }

  function VerifiedOrNone(c: Crypto, id: Option<Identity>, alias: string, isLive: nat -> bool): Option<Identity> {
    match id case None => None case Some(i) => VerifyStrip(c, i, alias, isLive)
  }

  /** Folds every byte difference into one accumulator before deciding. */
  method ConstantTimeEq(a: seq<bv8>, b: seq<bv8>) returns (equal: bool)
    ensures equal <==> a == b
  {
    if |a| != |b| { return false; }
    var diff: bv8 := 0;
    for i := 0 to |a|
      invariant diff == 0 <==> a[..i] == b[..i]
    {
      assert a[..i + 1] == a[..i] + [a[i]] && b[..i + 1] == b[..i] + [b[i]];
      DifferenceAccumulates(diff, a[i], b[i]);
      diff := diff | (a[i] ^ b[i]);
    }
    assert a[..|a|] == a && b[..|a|] == b;
    return diff == 0;
  }

  lemma DifferenceAccumulates(diff: bv8, x: bv8, y: bv8)
    ensures (diff | (x ^ y)) == 0 <==> diff == 0 && x == y
  {}

  method Verify(c: Crypto, id: Identity, alias: string, isLive: nat -> bool) returns (r: Option<Identity>)
    ensures r == VerifyStrip(c, id, alias, isLive)
    ensures r.Some? ==> IsStripped(r.value, id)
  {
    if SIG_ATTR !in id.attributes { return None; }
    var presented := ParseTag(id.attributes[SIG_ATTR]);
    match presented {
      case None => return None;
      case Some((dispatch, mac)) =>
        var same := ConstantTimeEq(c.octets(mac), c.octets(Mac(c, id, alias, dispatch)));
        if !same || !isLive(dispatch) { return None; }
        return Some(id.(attributes := id.attributes - {SIG_ATTR}));
    }
  }

  // ----- Framing and tag text -----

  /** Stripping is what the reserved attribute leaves, whatever it holds. */
  lemma BareIff(id: Identity, other: Identity)
    ensures IsStripped(Bare(id), id)
    ensures Bare(id) == Bare(other) <==> SameButTag(id, other)
    ensures IsStripped(other, id) <==> other == Bare(id)
  {
    if SameButTag(id, other) {
      assert Bare(id).attributes == Bare(other).attributes;
      if SIG_ATTR !in other.attributes {
        assert Bare(other).attributes == other.attributes;
      }
    } else if Bare(id) == Bare(other) {
      forall k | k != SIG_ATTR
        ensures k in id.attributes <==> k in other.attributes
        ensures k in id.attributes && k in other.attributes ==> id.attributes[k] == other.attributes[k]
      {
        assert k in id.attributes <==> k in Bare(id).attributes;
        assert k in other.attributes <==> k in Bare(other).attributes;
      }
    }
  }

  /** The MAC inputs coincide exactly for identities that agree on every field
      and every attribute but the tag, one alias and one dispatch: even for
      aliases that contain zero bytes. */
  lemma MacDataInjective(c: Crypto, id1: Identity, alias1: string, d1: nat, id2: Identity, alias2: string, d2: nat)
    requires Ideal(c) && d1 < U64 && d2 < U64
    ensures MacData(c, id1, alias1, d1) == MacData(c, id2, alias2, d2)
       <==> SameButTag(id1, id2) && alias1 == alias2 && d1 == d2
  {
    BareIff(id1, id2);
    if MacData(c, id1, alias1, d1) == MacData(c, id2, alias2, d2) {
      MacDataDetermines(c, id1, alias1, d1, id2, alias2, d2);
    }
  }

  lemma MacDataDetermines(c: Crypto, id1: Identity, alias1: string, d1: nat, id2: Identity, alias2: string, d2: nat)
    requires Ideal(c) && d1 < U64 && d2 < U64
    requires MacData(c, id1, alias1, d1) == MacData(c, id2, alias2, d2)
    ensures Bare(id1) == Bare(id2) && alias1 == alias2 && d1 == d2
  {
    var j1, j2 := c.json(Bare(id1)), c.json(Bare(id2));
    var x, y := c.utf8(alias1) + [0] + BigEndian(d1, 8), c.utf8(alias2) + [0] + BigEndian(d2, 8);
    assert MacData(c, id1, alias1, d1) == j1 + [0] + x && MacData(c, id2, alias2, d2) == j2 + [0] + y;
    Framing.FirstSplitIsUnique<Byte>(0, j1, x, j2, y);
    EightBytesHoldU64();
    BigEndianInjective(d1, d2, 8);
    var n := |c.utf8(alias1)|;
    assert |x| == n + 9 && |y| == |c.utf8(alias2)| + 9;
    assert c.utf8(alias1) == x[..n] == y[..n] == c.utf8(alias2);
    assert BigEndian(d1, 8) == x[n + 1..] == y[n + 1..] == BigEndian(d2, 8);
  }

  lemma {:induction false} SplitAtFirst(head: string, c: char, tail: string)
    requires c !in head
    ensures SplitOnce(head + [c] + tail, c) == Some((head, tail))
  {
    var s := head + [c] + tail;
    if head == "" {
      assert s[0] == c && s[1..] == tail;
    } else {
      assert s[1..] == head[1..] + [c] + tail;
      SplitAtFirst(head[1..], c, tail);
      assert head == [head[0]] + head[1..];
    }
  }

  /** Printing a tag and parsing it recovers the dispatch and the MAC, for every
      64-bit dispatch and any MAC text. */
  lemma TagRoundTrip(mac: string, dispatch: nat)
    requires dispatch < U64
    ensures ParseTag(Tag(mac, dispatch)) == Some((dispatch, mac))
  {
    HexRoundTrip(dispatch);
    var rest := Hex(dispatch, 16) + ":" + mac;
    assert Tag(mac, dispatch) == TAG_VERSION + ":" + rest;
    assert ':' !in TAG_VERSION;
    SplitAtFirst(TAG_VERSION, ':', rest);
    SplitAtFirst(Hex(dispatch, 16), ':', mac);
  }

  /** `tag` is this version's text for `dispatch` and `mac`: a 2, the number in
      hexadecimal and the MAC, between colons. */
  ghost predicate TagNames(tag: string, dispatch: nat, mac: string) {
    exists hex: string ::
      && ':' !in hex
      && tag == "2:" + hex + ":" + mac
      && FromStrRadix(hex, 16) == Some(dispatch)
  }

  lemma {:induction false} SplitOnceJoins(s: string, c: char)
    ensures SplitOnce(s, c) == None ==> c !in s
    ensures SplitOnce(s, c).Some? ==>
              && c !in SplitOnce(s, c).value.0
              && s == SplitOnce(s, c).value.0 + [c] + SplitOnce(s, c).value.1
    decreases |s|
  {
    if s != "" && s[0] != c {
      SplitOnceJoins(s[1..], c);
      assert s == [s[0]] + s[1..];
    }
  }

  lemma ParseTagIff(tag: string, dispatch: nat, mac: string)
    ensures ParseTag(tag) == Some((dispatch, mac)) <==> TagNames(tag, dispatch, mac)
  {
    if ParseTag(tag) == Some((dispatch, mac)) {
      SplitOnceJoins(tag, ':');
      var (version, rest) := SplitOnce(tag, ':').value;
      SplitOnceJoins(rest, ':');
      var (hex, _) := SplitOnce(rest, ':').value;
      assert tag == "2:" + hex + ":" + mac;
    }
    forall hex: string | ':' !in hex && tag == "2:" + hex + ":" + mac && FromStrRadix(hex, 16) == Some(dispatch)
      ensures ParseTag(tag) == Some((dispatch, mac))
    {
      var rest := hex + ":" + mac;
      assert tag == "2" + ":" + rest;
      SplitAtFirst("2", ':', rest);
      SplitAtFirst(hex, ':', mac);
    }
  }

  /** An identity verifies to `r` exactly when it is `r` with a tag naming a
      live dispatch and the keyed hash over `r`, the alias and that dispatch. */
  lemma VerifyIff(c: Crypto, id: Identity, alias: string, isLive: nat -> bool, r: Identity)
    requires Ideal(c)
    ensures VerifyStrip(c, id, alias, isLive) == Some(r)
       <==> && IsStripped(r, id)
            && SIG_ATTR in id.attributes
            && exists dispatch ::
                 && isLive(dispatch)
                 && TagNames(id.attributes[SIG_ATTR], dispatch,
                             c.hash(c.json(r) + [0] + c.utf8(alias) + [0] + BigEndian(dispatch, 8)))
  {
    BareIff(id, r);
    if SIG_ATTR in id.attributes {
      forall dispatch: nat, mac: string
        ensures ParseTag(id.attributes[SIG_ATTR]) == Some((dispatch, mac))
           <==> TagNames(id.attributes[SIG_ATTR], dispatch, mac)
      {
        ParseTagIff(id.attributes[SIG_ATTR], dispatch, mac);
      }
    }
  }

  /** Signing changes the reserved attribute alone, and sets it to a tag that
      names the dispatch and the keyed hash of what the identity is without it. */
  lemma SignedIs(c: Crypto, id: Identity, alias: string, dispatch: nat, r: Identity)
    requires dispatch < U64 && IsStripped(r, id)
    ensures SameButTag(Sign(c, id, alias, dispatch), id)
    ensures SIG_ATTR in Sign(c, id, alias, dispatch).attributes
    ensures TagNames(Sign(c, id, alias, dispatch).attributes[SIG_ATTR], dispatch,
                     c.hash(c.json(r) + [0] + c.utf8(alias) + [0] + BigEndian(dispatch, 8)))
  {
    BareIff(id, r);
    var mac := Mac(c, id, alias, dispatch);
    TagRoundTrip(mac, dispatch);
    ParseTagIff(Tag(mac, dispatch), dispatch, mac);
  }

  /** A freshly signed identity verifies for its alias exactly while its
      dispatch is live. What comes back is the identity that was signed, less
      any tag it already carried; without one, that very identity. */
  lemma SignedVerifiesWhileLive(c: Crypto, id: Identity, alias: string, dispatch: nat, isLive: nat -> bool)
    requires dispatch < U64
    ensures VerifyStrip(c, Sign(c, id, alias, dispatch), alias, isLive).Some? <==> isLive(dispatch)
    ensures isLive(dispatch) && SIG_ATTR !in id.attributes ==>
              VerifyStrip(c, Sign(c, id, alias, dispatch), alias, isLive) == Some(id)
    ensures isLive(dispatch) ==> IsStripped(VerifyStrip(c, Sign(c, id, alias, dispatch), alias, isLive).value, id)
  {
    TagRoundTrip(Mac(c, id, alias, dispatch), dispatch);
    assert Bare(Sign(c, id, alias, dispatch)) == Bare(id);
    BareIff(id, id);
  }
}
