/** Both store decorators against a writer without the key: what a tenant is
    served under a key, it put there itself. */
module TenantAuthenticity {
  import opened Wrappers
  import opened EventCipher
  import KV = KeyValue
  import E = EncryptedKv
  import T = TenantKv
  import Framing

  /** An operation of a tenant through both decorators, or one on the raw store
      by anyone without the key. */
  datatype Move =
    | Tenant(segment: string, op: KV.Op<Bytes>, now: nat, nonce: Nonce)
    | Write(key: string, entry: KV.Entry<Wire>)
    | Erase(key: string)

  datatype Deposit = Deposit(segment: string, key: string, value: Bytes)

  /** The move as the encrypting store sees it. */
  function Lowered(m: Move): E.Act {
    match m
    case Tenant(segment, op, now, nonce) => E.Client(T.Prefixed(segment, op), now, nonce)
    case Write(key, entry) => E.RawWrite(key, entry)
    case Erase(key) => E.RawErase(key)
  }

  function LoweredAll(moves: seq<Move>): (acts: seq<E.Act>)
    ensures |acts| == |moves| && forall i :: 0 <= i < |moves| ==> acts[i] == Lowered(moves[i])
  {
    if moves == [] then [] else LoweredAll(moves[..|moves| - 1]) + [Lowered(moves[|moves| - 1])]
  }

  ghost function StoreAfter(p: E.Policy, moves: seq<Move>): E.Raw {
    E.After(p, LoweredAll(moves)).store
  }

  /** Nobody without the key writes a ciphertext the key did not produce. */
  ghost predicate Possible(p: E.Policy, moves: seq<Move>) {
    E.Possible(p, LoweredAll(moves))
  }

  function Deposits(moves: seq<Move>): set<Deposit> {
    set m | m in moves && m.Tenant? && (m.op.Put? || m.op.PutIfAbsent?) :: Deposit(m.segment, m.op.key, m.op.value)
  }

  /** Only these tenants use the store. */
  predicate Among(moves: seq<Move>, segments: set<string>) {
    forall i :: 0 <= i < |moves| && moves[i].Tenant? ==> moves[i].segment in segments
  }

  predicate OthersApart(moves: seq<Move>, segment: string) {
    forall i :: 0 <= i < |moves| && moves[i].Tenant? ==>
      moves[i].segment == segment || T.Apart(segment, moves[i].segment)
  }

  /** Everything the reply serves under a key, the tenant put under that key. */
  ghost predicate Own(reply: E.Reply, op: KV.Op<Bytes>, segment: string, deposits: set<Deposit>) {
    && (op.Get? && reply.Got? && reply.result.Ok? && reply.result.value.Some? ==>
          Deposit(segment, op.key, reply.result.value.value.bytes) in deposits)
    && (reply.Listed? ==> forall i :: 0 <= i < |reply.entries| ==>
          Deposit(segment, reply.entries[i].0, reply.entries[i].1.bytes) in deposits)
  }

  // ----- What was sealed was deposited -----

  ghost predicate FromDeposit(sealed: (string, Bytes), deposits: set<Deposit>) {
    exists d :: d in deposits && T.Full(d.segment, d.key) == sealed.0 && d.value == sealed.1
  }

  lemma {:induction false} SealedIsDeposited(p: E.Policy, moves: seq<Move>)
    ensures forall x :: x in E.After(p, LoweredAll(moves)).sealed ==> FromDeposit(x, Deposits(moves))
    decreases |moves|
  {
    if moves != [] {
      var n := |moves| - 1;
      var pre, m := moves[..n], moves[n];
      SealedIsDeposited(p, pre);
      assert LoweredAll(moves)[..n] == LoweredAll(pre);
      assert Deposits(pre) <= Deposits(moves);
      forall x | x in E.After(p, LoweredAll(moves)).sealed ensures FromDeposit(x, Deposits(moves)) {
        if x in E.After(p, LoweredAll(pre)).sealed {
          assert FromDeposit(x, Deposits(pre));
        } else {
          assert Deposit(m.segment, m.op.key, m.op.value) in Deposits(moves);
        }
      }
    }
  }

  lemma DepositIsOwn(moves: seq<Move>, segment: string, key: string, value: Bytes)
    requires FromDeposit((T.Full(segment, key), value), Deposits(moves)) && OthersApart(moves, segment)
    ensures Deposit(segment, key, value) in Deposits(moves)
  {
    var d :| d in Deposits(moves) && T.Full(d.segment, d.key) == T.Full(segment, key) && d.value == value;
    T.SharedKeyNestsHeads(segment, d.segment, key, d.key);
    Framing.PrefixCancels(T.Head(segment), key, d.key);
  }

  /** A listing under the tenant's head has only keys under that head. */
  lemma ListedIsHeaded(p: E.Policy, raw: E.Raw, op: KV.Op<Bytes>, now: nat, nonce: Nonce, segment: string)
    requires op.ListPrefix? || op.ListPage?
    ensures var entries := E.Step(p, raw, T.Prefixed(segment, op), now, nonce).1.entries;
            forall i :: 0 <= i < |entries| ==> T.Head(segment) <= entries[i].0
  {
    var full, cursor := T.Full(segment, op.prefix), if op.ListPage? then op.cursor else None;
    var page := KV.Page(raw, full, cursor, op.limit, now);
    KV.RangeKeysAreKeys(raw, full, cursor, now);
    var at := E.ListingKeepsOpenable(p, page);
    var entries := E.OpenEntries(p, page);
    forall i | 0 <= i < |entries| ensures T.Head(segment) <= entries[i].0 {
      assert entries[i].0 == page[at[i]].0 && full <= page[at[i]].0;
      assert T.Head(segment) <= full;
    }
  }

  lemma ReplyIsOwn(p: E.Policy, moves: seq<Move>, segment: string, op: KV.Op<Bytes>, now: nat, nonce: Nonce)
    requires !p.allowPlaintext && Possible(p, moves) && OthersApart(moves, segment)
    ensures Own(T.Step(p, segment, StoreAfter(p, moves), op, now, nonce).1, op, segment, Deposits(moves))
  {
    var w := E.After(p, LoweredAll(moves));
    var inner := E.Step(p, w.store, T.Prefixed(segment, op), now, nonce).1;
    E.AlwaysAccounted(p, LoweredAll(moves));
    E.StepIsAuthentic(p, w, T.Prefixed(segment, op), now, nonce);
    SealedIsDeposited(p, moves);
    if op.ListPrefix? || op.ListPage? {
      ListedIsHeaded(p, w.store, op, now, nonce, segment);
      forall i | 0 <= i < |inner.entries|
        ensures Deposit(segment, T.Strip(segment, inner.entries[i].0), inner.entries[i].1.bytes) in Deposits(moves)
      {
        T.HeadedKeyIsFull(segment, inner.entries[i].0);
        DepositIsOwn(moves, segment, T.Strip(segment, inner.entries[i].0), inner.entries[i].1.bytes);
      }
    } else if op.Get? && inner.result.Ok? && inner.result.value.Some? {
      DepositIsOwn(moves, segment, op.key, inner.result.value.value.bytes);
    }
  }

  // ----- Exactly when -----

  /** Over every run of two tenants and writers without the key, and every
      operation after it, one of the two is served only its own. */
  ghost predicate ServesOwn(p: E.Policy, segment: string, other: string) {
    forall moves: seq<Move>, op, now, nonce :: Among(moves, {segment, other}) && Possible(p, moves) ==>
      Own(T.Step(p, segment, StoreAfter(p, moves), op, now, nonce).1, op, segment, Deposits(moves))
  }

  lemma PlaintextIsServed(p: E.Policy, segment: string, other: string)
    requires p.allowPlaintext
    ensures !ServesOwn(p, segment, other)
  {
    var nonce: Nonce := seq(NONCE_BYTES, _ => 0);
    var entry, op := KV.Entry(Plain([]), None), KV.Get("k");
    var moves := [Write(T.Full(segment, "k"), entry)];
    var acts := LoweredAll(moves);
    assert acts == [E.RawWrite(T.Full(segment, "k"), entry)] && acts[..0] == [];
    assert E.After(p, acts).store == map[T.Full(segment, "k") := entry];
    assert T.Step(p, segment, StoreAfter(p, moves), op, 0, nonce).1 == KV.Got(Ok(Some(KV.Entry([], None))));
    assert Deposits(moves) == {};
    assert Among(moves, {segment, other}) && Possible(p, moves);
  }

  lemma MetKeyIsServed(p: E.Policy, segment: string, a: string, other: string, b: string)
    requires segment != other && T.Full(segment, a) == T.Full(other, b)
    ensures !ServesOwn(p, segment, other)
  {
    var nonce: Nonce := seq(NONCE_BYTES, _ => 0);
    var op := KV.Get(a);
    var moves := [Tenant(other, KV.Put(b, [], None), 0, nonce)];
    var acts := LoweredAll(moves);
    assert acts == [E.Client(KV.Put(T.Full(other, b), [], None), 0, nonce)] && acts[..0] == [];
    var full := T.Full(segment, a);
    assert E.After(p, acts).store == map[full := KV.Entry(Seal(p.cipher, nonce, [], full), None)];
    T.SealedSlotServes(p, nonce, [], full);
    assert T.Step(p, segment, StoreAfter(p, moves), op, 0, nonce).1 == KV.Got(Ok(Some(KV.Entry([], None))));
    assert Deposits(moves) == {Deposit(other, b, [])};
    assert Among(moves, {segment, other}) && Possible(p, moves);
  }

  /** Main result: of two tenants, whatever is written to the raw store by anyone
      without the key, one is served under a key only what it put there itself,
      if and only if plaintext reads are off and neither head begins the other. */
  lemma ServesOwnIff(p: E.Policy, segment: string, other: string)
    requires segment != other
    ensures ServesOwn(p, segment, other) <==> !p.allowPlaintext && T.Apart(segment, other)
  {
    if p.allowPlaintext {
      PlaintextIsServed(p, segment, other);
    } else if T.Apart(segment, other) {
      forall moves: seq<Move>, op, now, nonce | Among(moves, {segment, other}) && Possible(p, moves)
        ensures Own(T.Step(p, segment, StoreAfter(p, moves), op, now, nonce).1, op, segment, Deposits(moves))
      {
        ReplyIsOwn(p, moves, segment, op, now, nonce);
      }
    } else {
      T.KeySpacesMeetIff(segment, other);
      var a, b :| T.Full(segment, a) == T.Full(other, b);
      MetKeyIsServed(p, segment, a, other, b);
    }
  }
}
