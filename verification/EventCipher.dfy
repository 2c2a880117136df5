/** The AEAD envelope over an ideal cipher: a ciphertext is a term naming the
    key, nonce, associated data and message it was sealed with, and opens only
    under the same three. */
module EventCipher {
  import opened Wrappers

  type Bytes = seq<bv8>

  datatype Ciphertext = Sealed(key: nat, nonce: Bytes, aad: string, msg: Bytes) | Noise(bits: Bytes)

  /** A text field that either is base64 or is not. */
  datatype Field<+T> = Base64(value: T) | Malformed

  /** What a stored or published payload parses to. */
  datatype Wire =
    | Envelope(v: nat, kid: string, n: Field<Bytes>, c: Field<Ciphertext>)
    | Plain(bytes: Bytes)

  datatype DecryptError =
    | NotEnvelope
    | UnsupportedVersion(got: nat)
    | KidMismatch(published: string)
    | InvalidBase64
    | InvalidNonceLength(length: nat)
    | AuthFailed
    | InvalidPlaintext

  datatype Cipher = Cipher(key: nat, kid: string)

  const ENVELOPE_VERSION := 1
  const NONCE_BYTES := 24

  type Nonce = b: Bytes | |b| == NONCE_BYTES witness seq(NONCE_BYTES, _ => 0)

  function Seal(c: Cipher, nonce: Nonce, plaintext: Bytes, aad: string): Wire {
    Envelope(ENVELOPE_VERSION, c.kid, Base64(nonce), Base64(Sealed(c.key, nonce, aad, plaintext)))
  }

  function Decrypt(key: nat, nonce: Bytes, aad: string, ct: Ciphertext): Result<Bytes, DecryptError> {
    if ct.Sealed? && ct.key == key && ct.nonce == nonce && ct.aad == aad then Ok(ct.msg) else Err(AuthFailed)
  }

  function Open(c: Cipher, w: Wire, aad: string): Result<Bytes, DecryptError> {
    if w.Plain? then Err(NotEnvelope)
    else if w.v != ENVELOPE_VERSION then Err(UnsupportedVersion(w.v))
    else if w.kid != c.kid then Err(KidMismatch(w.kid))
    else if w.n.Malformed? then Err(InvalidBase64)
    else if |w.n.value| != NONCE_BYTES then Err(InvalidNonceLength(|w.n.value|))
    else if w.c.Malformed? then Err(InvalidBase64)
    else Decrypt(c.key, w.n.value, aad, w.c.value)
  }

  /** A payload opens to `pt` exactly when it is a sealing of `pt` under this
      cipher and this associated data; what was sealed for another slot fails
      authentication. */
  lemma OpensOnlyItsOwnSealing(c: Cipher, w: Wire, aad: string, pt: Bytes)
    ensures Open(c, w, aad) == Ok(pt) <==> exists nonce: Nonce :: w == Seal(c, nonce, pt, aad)
    ensures forall nonce: Nonce, other: string ::
              other != aad ==> Open(c, Seal(c, nonce, pt, other), aad) == Err(AuthFailed)
  {
    if Open(c, w, aad) == Ok(pt) {
      var nonce: Nonce := w.n.value;
      assert w == Seal(c, nonce, pt, aad);
    }
  }

  // ----- Cache events in envelopes: the same sealing with no associated data -----

  /** The serializer of cache events; `read` is what parsing makes of bytes. */
  datatype Codec<!E> = Codec(write: E -> Bytes, read: Bytes -> Option<E>)

  function EncryptEvent<E>(c: Cipher, codec: Codec<E>, nonce: Nonce, e: E): Wire {
    Seal(c, nonce, codec.write(e), "")
  }

  function DecryptEnvelope<E>(c: Cipher, codec: Codec<E>, w: Wire): Result<E, DecryptError> {
    match Open(c, w, "")
    case Err(e) => Err(e)
    case Ok(pt) =>
      match codec.read(pt)
      case None => Err(InvalidPlaintext)
      case Some(e) => Ok(e)
  }

  /** Every event comes back from its envelope; a payload yields an event only
      if it seals, under this cipher and no associated data, bytes that read as
      that event, and is an invalid plaintext if they read as none; and an event's
      envelope is a stored value of no key but the empty one. */
  lemma EventEnvelopeIsFaithful<E(!new)>(c: Cipher, codec: Codec<E>, nonce: Nonce, e: E, w: Wire, key: string)
    requires forall x: E :: codec.read(codec.write(x)) == Some(x)
    ensures DecryptEnvelope(c, codec, EncryptEvent(c, codec, nonce, e)) == Ok(e)
    ensures DecryptEnvelope(c, codec, w) == Ok(e) <==>
            exists n: Nonce, pt :: w == Seal(c, n, pt, "") && codec.read(pt) == Some(e)
    ensures Open(c, EncryptEvent(c, codec, nonce, e), key).Ok? <==> key == ""
    ensures DecryptEnvelope(c, codec, w) == Err(InvalidPlaintext) <==>
            exists n: Nonce, pt :: w == Seal(c, n, pt, "") && codec.read(pt) == None
  {
    if Open(c, w, "").Ok? {
      var pt := Open(c, w, "").value;
      OpensOnlyItsOwnSealing(c, w, "", pt);
    }
  }
}
