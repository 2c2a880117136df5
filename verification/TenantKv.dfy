/** The tenant decorator, outermost over the encrypting store: every key gets
    the head `t.<segment>/`, and listed keys lose it again. */
module TenantKv {
  import opened Wrappers
  import opened Orders
  import Strings
  import opened EventCipher
  import KV = KeyValue
  import opened EncryptedKv
  import Framing

  type PlainStore = KV.Store<Bytes>

  function Head(segment: string): string {
    "t." + segment + "/"
  }

  function Full(segment: string, key: string): string {
    Head(segment) + key
  }

  /** A key without the head is returned unchanged. */
  function Strip(segment: string, key: string): string {
    if Head(segment) <= key then key[|Head(segment)|..] else key
  }

  /** The operation handed to the inner store. A page cursor is a token the
      inner store issued, so it goes through untouched. */
  function Prefixed(segment: string, op: KV.Op<Bytes>): KV.Op<Bytes> {
    match op
    case Get(key) => KV.Get(Full(segment, key))
    case Put(key, value, ttl) => KV.Put(Full(segment, key), value, ttl)
    case PutIfAbsent(key, value, ttl) => KV.PutIfAbsent(Full(segment, key), value, ttl)
    case Delete(key) => KV.Delete(Full(segment, key))
    case Expire(key, ttl) => KV.Expire(Full(segment, key), ttl)
    case ListPrefix(prefix, limit) => KV.ListPrefix(Full(segment, prefix), limit)
    case ListPage(prefix, cursor, limit) => KV.ListPage(Full(segment, prefix), cursor, limit)
  }

  function Stripped(segment: string, r: Reply): Reply {
    match r
    case Listed(entries, next) =>
      KV.Listed(seq(|entries|, i requires 0 <= i < |entries| => (Strip(segment, entries[i].0), entries[i].1)), next)
    case _ => r
  }

  /** One operation through both decorators. */
  ghost function Step(p: Policy, segment: string, s: Raw, op: KV.Op<Bytes>, now: nat, nonce: Nonce): (Raw, Reply) {
    var (s', r) := EncryptedKv.Step(p, s, Prefixed(segment, op), now, nonce);
    (s', Stripped(segment, r))
  }

  // ----- Key spaces -----

  predicate SlashFree(segment: string) {
    '/' !in segment
  }

  lemma FullAssociates(segment: string, key: string)
    ensures Full(segment, key) == "t." + (segment + "/" + key)
  {}

  lemma StripUndoesFull(segment: string, key: string)
    ensures Strip(segment, Full(segment, key)) == key
    ensures !("t." + segment + "/" <= key) ==> Strip(segment, key) == key
  {
    assert Full(segment, key)[|Head(segment)|..] == key;
  }

  lemma HeadedKeyIsFull(segment: string, f: string)
    requires Head(segment) <= f
    ensures f == Full(segment, Strip(segment, f))
  {}

  lemma SharedKeyNestsHeads(s: string, t: string, a: string, b: string)
    requires Full(s, a) == Full(t, b)
    ensures s + "/" <= t + "/" || t + "/" <= s + "/"
  {
    assert Full(s, a)[2..] == s + "/" + a && Full(t, b)[2..] == t + "/" + b;
    Framing.HeadsMeetIff(s + "/", t + "/");
  }

  /** The key spaces of two segments meet if and only if one segment followed
      by a slash begins the other followed by a slash. */
  lemma KeySpacesMeetIff(s: string, t: string)
    ensures (exists a, b :: Full(s, a) == Full(t, b)) <==> (s + "/" <= t + "/" || t + "/" <= s + "/")
  {
    forall a, b | Full(s, a) == Full(t, b) ensures s + "/" <= t + "/" || t + "/" <= s + "/" {
      SharedKeyNestsHeads(s, t, a, b);
    }
    if s + "/" <= t + "/" || t + "/" <= s + "/" {
      Framing.HeadsMeetIff(s + "/", t + "/");
      var a: string, b: string :| s + "/" + a == t + "/" + b;
      FullAssociates(s, a);
      FullAssociates(t, b);
      assert Full(s, a) == Full(t, b);
    }
  }

  lemma ShorterHeadMeansSlash(s: string, t: string)
    ensures s + "/" <= t + "/" ==> s == t || '/' in t
  {
    if s + "/" <= t + "/" {
      assert forall i :: 0 <= i < |s| ==> s[i] == (s + "/")[i] == (t + "/")[i] == t[i];
      if |s| < |t| {
        assert (t + "/")[|s|] == (s + "/")[|s|];
        assert t[|s|] == '/';
      }
    }
  }

  /** Neither head begins the other. */
  predicate Apart(s: string, t: string) {
    !(s + "/" <= t + "/") && !(t + "/" <= s + "/")
  }

  lemma SlashFreeIsApart(s: string, t: string)
    requires SlashFree(s) && SlashFree(t) && s != t
    ensures Apart(s, t)
  {
    ShorterHeadMeansSlash(s, t);
    ShorterHeadMeansSlash(t, s);
  }

  /** Distinct slash-free segments never share a key. */
  lemma DistinctSegmentsDisjoint(s: string, t: string, a: string, b: string)
    requires SlashFree(s) && SlashFree(t) && Full(s, a) == Full(t, b)
    ensures s == t && a == b
  {
    KeySpacesMeetIff(s, t);
    ShorterHeadMeansSlash(s, t);
    ShorterHeadMeansSlash(t, s);
    Framing.PrefixCancels(Head(s), a, b);
  }

  // ----- Refinement of a private plain store -----

  /** The tenant's slice of the raw store, opened and stripped, is `mine`. */
  ghost predicate Mirrors(p: Policy, segment: string, raw: Raw, mine: PlainStore) {
    forall k :: SlotMirrors(p, segment, raw, mine, k)
  }

  ghost predicate SlotMirrors(p: Policy, segment: string, raw: Raw, mine: PlainStore, k: string) {
    && (Full(segment, k) in raw <==> k in mine)
    && (k in mine ==>
          && Served(p, Full(segment, k), raw[Full(segment, k)].bytes) == Ok(mine[k].bytes)
          && raw[Full(segment, k)].expiresAt == mine[k].expiresAt)
  }

  /** The same operation in the terms of a store of its own: a page token is
      the inner store's name for the key it stands at. */
  function Tokened(segment: string, op: KV.Op<Bytes>): KV.Op<Bytes> {
    if op.ListPage? && op.cursor.Some? then op.(cursor := Some(Full(segment, op.cursor.value))) else op
  }

  /** Replies agree; the next-page token is compared by the key it names. */
  ghost predicate Agrees(segment: string, mine: Reply, got: Reply) {
    match mine
    case Listed(entries, next) =>
      got == KV.Listed(entries, match next case None => None case Some(k) => Some(Full(segment, k)))
    case _ => got == mine
  }

  lemma SealedSlotServes(p: Policy, nonce: Nonce, value: Bytes, key: string)
    ensures Served(p, key, Seal(p.cipher, nonce, value, key)) == Ok(value)
  {}

  function Naming(segment: string): string -> string {
    (k: string) => Full(segment, k)
  }

  function Beyond(segment: string, cursor: Option<string>): Option<string> {
    match cursor case None => None case Some(c) => Some(Full(segment, c))
  }

  lemma SlotInRange(p: Policy, segment: string, raw: Raw, mine: PlainStore, prefix: string, cursor: Option<string>,
                    now: nat, k: string)
    requires SlotMirrors(p, segment, raw, mine, k)
    ensures k in KV.RangeSet(mine, prefix, cursor, now) <==>
            Full(segment, k) in KV.RangeSet(raw, Full(segment, prefix), Beyond(segment, cursor), now)
  {
    PrefixUnderHead(segment, prefix, k);
    if cursor.Some? { Strings.LtUnderPrefix(Head(segment), cursor.value, k); }
  }

  lemma RangeIsImage(p: Policy, segment: string, raw: Raw, mine: PlainStore, prefix: string, cursor: Option<string>,
                     now: nat)
    requires Mirrors(p, segment, raw, mine)
    ensures KV.RangeSet(raw, Full(segment, prefix), Beyond(segment, cursor), now)
         == set k | k in KV.RangeSet(mine, prefix, cursor, now) :: Naming(segment)(k)
  {
    var ours := KV.RangeSet(mine, prefix, cursor, now);
    var theirs := KV.RangeSet(raw, Full(segment, prefix), Beyond(segment, cursor), now);
    forall k | k in ours ensures Full(segment, k) in theirs {
      assert SlotMirrors(p, segment, raw, mine, k);
      SlotInRange(p, segment, raw, mine, prefix, cursor, now, k);
    }
    forall r | r in theirs ensures Strip(segment, r) in ours && Naming(segment)(Strip(segment, r)) == r {
      assert Head(segment) <= Full(segment, prefix) <= r;
      HeadedKeyIsFull(segment, r);
      assert SlotMirrors(p, segment, raw, mine, Strip(segment, r));
      SlotInRange(p, segment, raw, mine, prefix, cursor, now, Strip(segment, r));
    }
  }

  lemma RangesCorrespond(p: Policy, segment: string, raw: Raw, mine: PlainStore, prefix: string,
                         cursor: Option<string>, now: nat)
    requires Mirrors(p, segment, raw, mine)
    ensures var theirs := KV.RangeKeys(raw, Full(segment, prefix), Beyond(segment, cursor), now);
            var ours := KV.RangeKeys(mine, prefix, cursor, now);
            |theirs| == |ours| && forall i :: 0 <= i < |ours| ==> theirs[i] == Full(segment, ours[i])
  {
    RangeIsImage(p, segment, raw, mine, prefix, cursor, now);
    Strings.LtStrictTotal();
    var f := Naming(segment);
    forall x: string, y: string | Strings.Lt(x, y) ensures Strings.Lt(f(x), f(y)) {
      Strings.LtUnderPrefix(Head(segment), x, y);
    }
    SortedImage(KV.RangeSet(mine, prefix, cursor, now), KV.RangeSet(raw, Full(segment, prefix),
                Beyond(segment, cursor), now),
                Strings.Lt, Strings.Lt, f);
  }

  lemma PrefixUnderHead(segment: string, prefix: string, k: string)
    ensures Full(segment, prefix) <= Full(segment, k) <==> prefix <= k
  {
    var h := |Head(segment)|;
    if Full(segment, prefix) <= Full(segment, k) {
      assert prefix == Full(segment, prefix)[h..] && k == Full(segment, k)[h..];
      assert Full(segment, k)[..h + |prefix|] == Full(segment, prefix);
      assert prefix == k[..|prefix|] by {
        forall i | 0 <= i < |prefix| ensures prefix[i] == k[i] {
          assert Full(segment, prefix)[h + i] == Full(segment, k)[h + i];
        }
      }
    }
  }

  /** Opening a page whose every entry opens keeps it entry by entry. */
  lemma {:induction false} OpenedPageMatches(p: Policy, segment: string, page: seq<(string, KV.Entry<Wire>)>,
                                             ours: seq<(string, KV.Entry<Bytes>)>)
    requires |page| == |ours|
    requires forall i :: 0 <= i < |page| ==>
               && page[i].0 == Full(segment, ours[i].0)
               && Served(p, page[i].0, page[i].1.bytes) == Ok(ours[i].1.bytes)
               && page[i].1.expiresAt == ours[i].1.expiresAt
    ensures |OpenEntries(p, page)| == |ours|
    ensures forall i :: 0 <= i < |ours| ==> OpenEntries(p, page)[i] == (Full(segment, ours[i].0), ours[i].1)
    decreases |page|
  {
    if page != [] {
      var n := |page| - 1;
      OpenedPageMatches(p, segment, page[..n], ours[..n]);
    }
  }

  lemma PagesCorrespond(p: Policy, segment: string, raw: Raw, mine: PlainStore, prefix: string,
                        cursor: Option<string>, limit: nat, now: nat)
    requires Mirrors(p, segment, raw, mine)
    ensures var opened' := OpenEntries(p, KV.Page(raw, Full(segment, prefix), Beyond(segment, cursor), limit, now));
            var page := KV.Page(mine, prefix, cursor, limit, now);
            && |opened'| == |page|
            && (forall i :: 0 <= i < |page| ==> (Strip(segment, opened'[i].0), opened'[i].1) == page[i])
            && KV.NextCursor(KV.RangeKeys(raw, Full(segment, prefix), Beyond(segment, cursor), now), limit)
            == match KV.NextCursor(KV.RangeKeys(mine, prefix, cursor, now), limit)
               case None => None
               case Some(k) => Some(Full(segment, k))
  {
    RangesCorrespond(p, segment, raw, mine, prefix, cursor, now);
    KV.RangeKeysAreKeys(mine, prefix, cursor, now);
    var theirs := KV.Page(raw, Full(segment, prefix), Beyond(segment, cursor), limit, now);
    var page := KV.Page(mine, prefix, cursor, limit, now);
    forall i | 0 <= i < |page|
      ensures theirs[i].0 == Full(segment, page[i].0)
      ensures Served(p, theirs[i].0, theirs[i].1.bytes) == Ok(page[i].1.bytes)
      ensures theirs[i].1.expiresAt == page[i].1.expiresAt
    {
      assert SlotMirrors(p, segment, raw, mine, page[i].0);
    }
    OpenedPageMatches(p, segment, theirs, page);
    forall i | 0 <= i < |page| ensures Strip(segment, Full(segment, page[i].0)) == page[i].0 {
      StripUndoesFull(segment, page[i].0);
    }
  }

  /** A page through both decorators shows the private page. */
  lemma PageAgrees(p: Policy, segment: string, raw: Raw, mine: PlainStore, prefix: string,
                   cursor: Option<string>, limit: nat, now: nat)
    requires Mirrors(p, segment, raw, mine)
    ensures var entries := OpenEntries(p, KV.Page(raw, Full(segment, prefix), Beyond(segment, cursor), limit, now));
            Stripped(segment, KV.Listed(entries, None)) == KV.Listed(KV.Page(mine, prefix, cursor, limit, now), None)
  {
    PagesCorrespond(p, segment, raw, mine, prefix, cursor, limit, now);
    var entries := OpenEntries(p, KV.Page(raw, Full(segment, prefix), Beyond(segment, cursor), limit, now));
    assert Stripped(segment, KV.Listed(entries, None)).entries == KV.Page(mine, prefix, cursor, limit, now);
  }

  lemma ListingAgrees(p: Policy, segment: string, raw: Raw, mine: PlainStore, op: KV.Op<Bytes>, now: nat, nonce: Nonce)
    requires Mirrors(p, segment, raw, mine) && (op.ListPrefix? || op.ListPage?)
    ensures Agrees(segment, KV.Step<Bytes, KvError>(mine, op, now).1,
                   Step(p, segment, raw, Tokened(segment, op), now, nonce).1)
    ensures Step(p, segment, raw, Tokened(segment, op), now, nonce).0 == raw
  {
    match op
    case ListPrefix(prefix, limit) => PageAgrees(p, segment, raw, mine, prefix, None, limit, now);
    case ListPage(prefix, cursor, limit) =>
      PageAgrees(p, segment, raw, mine, prefix, cursor, limit, now);
      PagesCorrespond(p, segment, raw, mine, prefix, cursor, limit, now);
  }

  lemma PointStepMirrors(p: Policy, segment: string, raw: Raw, mine: PlainStore, op: KV.Op<Bytes>, now: nat,
                         nonce: Nonce, k: string)
    requires Mirrors(p, segment, raw, mine) && !op.ListPrefix? && !op.ListPage?
    ensures Agrees(segment, KV.Step<Bytes, KvError>(mine, op, now).1, Step(p, segment, raw, op, now, nonce).1)
    ensures SlotMirrors(p, segment, Step(p, segment, raw, op, now, nonce).0,
                        KV.Step<Bytes, KvError>(mine, op, now).0, k)
  {
    assert SlotMirrors(p, segment, raw, mine, op.key) && SlotMirrors(p, segment, raw, mine, k);
    if Full(segment, op.key) == Full(segment, k) { Framing.PrefixCancels(Head(segment), op.key, k); }
    if op.Put? || op.PutIfAbsent? { SealedSlotServes(p, nonce, op.value, Full(segment, op.key)); }
  }

  /** One operation of the tenant gives the reply of its own plain store, and
      keeps its slice of the raw store in step with it. */
  lemma OwnStepRefines(p: Policy, segment: string, raw: Raw, mine: PlainStore, op: KV.Op<Bytes>, now: nat, nonce: Nonce)
    requires Mirrors(p, segment, raw, mine)
    ensures var (raw', got) := Step(p, segment, raw, Tokened(segment, op), now, nonce);
            var (mine', expected) := KV.Step<Bytes, KvError>(mine, op, now);
            Mirrors(p, segment, raw', mine') && Agrees(segment, expected, got)
  {
    if op.ListPrefix? || op.ListPage? {
      ListingAgrees(p, segment, raw, mine, op, now, nonce);
    } else {
      forall k
        ensures SlotMirrors(p, segment, Step(p, segment, raw, op, now, nonce).0,
                            KV.Step<Bytes, KvError>(mine, op, now).0, k) {
        PointStepMirrors(p, segment, raw, mine, op, now, nonce, k);
      }
      PointStepMirrors(p, segment, raw, mine, op, now, nonce, "");
    }
  }

  /** An operation of another tenant leaves the slice as it is. */
  lemma OtherStepKeeps(p: Policy, segment: string, other: string, raw: Raw, mine: PlainStore, op: KV.Op<Bytes>,
                       now: nat, nonce: Nonce)
    requires Mirrors(p, segment, raw, mine) && Apart(segment, other)
    ensures Mirrors(p, segment, Step(p, other, raw, op, now, nonce).0, mine)
  {
    var raw' := Step(p, other, raw, op, now, nonce).0;
    forall k ensures SlotMirrors(p, segment, raw', mine, k) {
      assert SlotMirrors(p, segment, raw, mine, k);
      if !op.ListPrefix? && !op.ListPage? && Full(other, op.key) == Full(segment, k) {
        SharedKeyNestsHeads(other, segment, op.key, k);
      }
    }
  }

  // ----- A page token that no page of this tenant issued -----

  lemma HeadedRange(p: Policy, segment: string, raw: Raw, prefix: string, c: string, now: nat)
    requires !(Head(segment) <= c)
    ensures KV.RangeSet(raw, Full(segment, prefix), Some(c), now)
         == if Strings.Lt(c, Head(segment)) then KV.RangeSet(raw, Full(segment, prefix), None, now) else {}
  {
    forall r | r in raw && Full(segment, prefix) <= r ensures Strings.Lt(c, r) <==> Strings.Lt(c, Head(segment)) {
      assert Head(segment) <= Full(segment, prefix) <= r;
      HeadedKeyIsFull(segment, r);
      Strings.LtDecidedByPrefix(Head(segment), c, Strip(segment, r));
    }
  }

  /** A token from elsewhere still shows the tenant nothing but its own: the
      first page again, or nothing. */
  lemma ForeignTokenShowsOwnKeys(p: Policy, segment: string, raw: Raw, mine: PlainStore, prefix: string, c: string,
                                 limit: nat, now: nat, nonce: Nonce)
    requires Mirrors(p, segment, raw, mine) && !(Head(segment) <= c)
    ensures var got := Step(p, segment, raw, KV.ListPage(prefix, Some(c), limit), now, nonce).1;
            if Strings.Lt(c, Head(segment))
            then Agrees(segment, KV.Step<Bytes, KvError>(mine, KV.ListPage(prefix, None, limit), now).1, got)
            else got == KV.Listed([], None)
  {
    HeadedRange(p, segment, raw, prefix, c, now);
    var first := KV.ListPage(prefix, None, limit);
    if Strings.Lt(c, Head(segment)) {
      ListingAgrees(p, segment, raw, mine, first, now, nonce);
      assert KV.Page(raw, Full(segment, prefix), Some(c), limit, now)
             == KV.Page(raw, Full(segment, prefix), None, limit, now);
      assert Step(p, segment, raw, KV.ListPage(prefix, Some(c), limit), now, nonce).1
          == Step(p, segment, raw, first, now, nonce).1;
    } else {
      assert KV.RangeKeys(raw, Full(segment, prefix), Some(c), now) == [];
      assert KV.Page(raw, Full(segment, prefix), Some(c), limit, now) == [];
    }
  }

  // ----- Whole interleavings -----

  /** One operation of one tenant, with the clock and the sealing nonce. A page
      cursor is whatever token the caller hands in. */
  datatype Turn = Turn(segment: string, op: KV.Op<Bytes>, now: nat, nonce: Nonce)

  /** The replies tenant `segment` gets while all the turns share one raw store. */
  ghost function SharedReplies(p: Policy, raw: Raw, turns: seq<Turn>, segment: string): seq<Reply>
    decreases |turns|
  {
    if turns == [] then []
    else
      var t := turns[0];
      var (raw', reply) := Step(p, t.segment, raw, t.op, t.now, t.nonce);
      (if t.segment == segment then [reply] else []) + SharedReplies(p, raw', turns[1..], segment)
  }

  /** The same operation on a store of the tenant's own: a token under its head
      names a key, one before it all the keys, one beyond it none. */
  function Untokened(segment: string, op: KV.Op<Bytes>): Option<KV.Op<Bytes>> {
    if !op.ListPage? || op.cursor.None? then Some(op)
    else
      var c := op.cursor.value;
      if Head(segment) <= c then Some(op.(cursor := Some(Strip(segment, c))))
      else if Strings.Lt(c, Head(segment)) then Some(op.(cursor := None))
      else None
  }

  ghost function PrivateStep(segment: string, mine: PlainStore, op: KV.Op<Bytes>, now: nat): (PlainStore, Reply) {
    match Untokened(segment, op)
    case Some(op') => KV.Step(mine, op', now)
    case None => (mine, KV.Listed([], None))
  }

  /** The replies it would get alone, on a plain unprefixed store. */
  ghost function PrivateReplies(mine: PlainStore, turns: seq<Turn>, segment: string): seq<Reply>
    decreases |turns|
  {
    if turns == [] then []
    else
      var t := turns[0];
      if t.segment == segment then
        var (mine', reply) := PrivateStep(segment, mine, t.op, t.now);
        [reply] + PrivateReplies(mine', turns[1..], segment)
      else PrivateReplies(mine, turns[1..], segment)
  }

  predicate OthersApart(turns: seq<Turn>, segment: string) {
    forall i :: 0 <= i < |turns| ==> turns[i].segment == segment || Apart(segment, turns[i].segment)
  }

  ghost predicate RepliesAgree(segment: string, mine: seq<Reply>, got: seq<Reply>) {
    |mine| == |got| && forall i :: 0 <= i < |mine| ==> Agrees(segment, mine[i], got[i])
  }

  lemma AgreementPrepends(segment: string, mine: Reply, got: Reply, mines: seq<Reply>, gots: seq<Reply>)
    requires Agrees(segment, mine, got) && RepliesAgree(segment, mines, gots)
    ensures RepliesAgree(segment, [mine] + mines, [got] + gots)
  {}

  lemma {:induction false} InterleavingRefinesFrom(p: Policy, raw: Raw, mine: PlainStore, turns: seq<Turn>,
                                                   segment: string)
    requires Mirrors(p, segment, raw, mine) && OthersApart(turns, segment)
    ensures RepliesAgree(segment, PrivateReplies(mine, turns, segment), SharedReplies(p, raw, turns, segment))
    decreases |turns|
  {
    if turns != [] {
      var t := turns[0];
      var raw', mine' := TurnKeepsMirror(p, raw, mine, t, segment);
      InterleavingRefinesFrom(p, raw', mine', turns[1..], segment);
      if t.segment == segment {
        AgreementPrepends(segment, PrivateStep(segment, mine, t.op, t.now).1,
                          Step(p, t.segment, raw, t.op, t.now, t.nonce).1,
                          PrivateReplies(mine', turns[1..], segment), SharedReplies(p, raw', turns[1..], segment));
      } else {
        assert [] + SharedReplies(p, raw', turns[1..], segment) == SharedReplies(p, raw', turns[1..], segment);
      }
    }
  }

  /** One operation of the tenant, with whatever token it hands in. */
  lemma OwnTurnRefines(p: Policy, segment: string, raw: Raw, mine: PlainStore, op: KV.Op<Bytes>, now: nat, nonce: Nonce)
    requires Mirrors(p, segment, raw, mine)
    ensures var (raw', got) := Step(p, segment, raw, op, now, nonce);
            var (mine', expected) := PrivateStep(segment, mine, op, now);
            Mirrors(p, segment, raw', mine') && Agrees(segment, expected, got)
  {
    if op.ListPage? && op.cursor.Some? && !(Head(segment) <= op.cursor.value) {
      ForeignTokenShowsOwnKeys(p, segment, raw, mine, op.prefix, op.cursor.value, op.limit, now, nonce);
    } else {
      var op' := Untokened(segment, op).value;
      if op.ListPage? && op.cursor.Some? { HeadedKeyIsFull(segment, op.cursor.value); }
      assert Tokened(segment, op') == op;
      OwnStepRefines(p, segment, raw, mine, op', now, nonce);
    }
  }

  lemma TurnKeepsMirror(p: Policy, raw: Raw, mine: PlainStore, t: Turn, segment: string)
    returns (raw': Raw, mine': PlainStore)
    requires Mirrors(p, segment, raw, mine) && (t.segment == segment || Apart(segment, t.segment))
    ensures raw' == Step(p, t.segment, raw, t.op, t.now, t.nonce).0
    ensures mine' == if t.segment == segment then PrivateStep(segment, mine, t.op, t.now).0 else mine
    ensures Mirrors(p, segment, raw', mine')
    ensures t.segment == segment ==>
              Agrees(segment, PrivateStep(segment, mine, t.op, t.now).1,
                     Step(p, t.segment, raw, t.op, t.now, t.nonce).1)
  {
    raw' := Step(p, t.segment, raw, t.op, t.now, t.nonce).0;
    if t.segment == segment {
      mine' := PrivateStep(segment, mine, t.op, t.now).0;
      OwnTurnRefines(p, segment, raw, mine, t.op, t.now, t.nonce);
    } else {
      mine' := mine;
      OtherStepKeeps(p, segment, t.segment, raw, mine, t.op, t.now, t.nonce);
    }
  }

  /** Over every interleaving of tenants on one raw store, a tenant whose head
      nests with no other's gets exactly the replies of a private plain store
      that sees its own operations only, whatever page tokens are handed in. */
  lemma TenantsAreIsolated(p: Policy, turns: seq<Turn>, segment: string)
    requires OthersApart(turns, segment)
    ensures RepliesAgree(segment, PrivateReplies(map[], turns, segment), SharedReplies(p, map[], turns, segment))
  {
    InterleavingRefinesFrom(p, map[], map[], turns, segment);
  }

  /** Where two tenants' keys meet, one reads what the other wrote. */
  lemma SharedKeyLeaks(p: Policy, writer: string, a: string, reader: string, b: string, nonce: Nonce, value: Bytes)
    requires writer != reader && Full(writer, a) == Full(reader, b)
    ensures var turns := [Turn(writer, KV.Put(a, value, None), 0, nonce), Turn(reader, KV.Get(b), 0, nonce)];
            && PrivateReplies(map[], turns, reader) == [KV.Got(Ok(None))]
            && SharedReplies(p, map[], turns, reader) == [KV.Got(Ok(Some(KV.Entry(value, None))))]
  {
    var turns := [Turn(writer, KV.Put(a, value, None), 0, nonce), Turn(reader, KV.Get(b), 0, nonce)];
    var rest := turns[1..];
    assert rest[1..] == [];
    var raw := Step(p, writer, map[], turns[0].op, 0, nonce).0;
    assert raw == map[][Full(reader, b) := KV.Entry(Seal(p.cipher, nonce, value, Full(reader, b)), None)];
    SealedSlotServes(p, nonce, value, Full(reader, b));
    assert SharedReplies(p, raw, rest, reader) == [Step(p, reader, raw, turns[1].op, 0, nonce).1];
    assert PrivateReplies(map[], rest, reader) == [KV.Got(Ok(None))];
  }

  /** Isolation of one of two tenants, over all their interleavings. */
  ghost predicate Isolated(p: Policy, segment: string, other: string) {
    forall turns: seq<Turn> :: (forall i :: 0 <= i < |turns| ==> turns[i].segment in {segment, other}) ==>
      RepliesAgree(segment, PrivateReplies(map[], turns, segment), SharedReplies(p, map[], turns, segment))
  }

  /** Of two tenants each is isolated from the other, over all interleavings, if
      and only if neither head begins the other. */
  lemma IsolatedIffApart(p: Policy, s: string, t: string)
    requires s != t
    ensures Isolated(p, s, t) <==> Apart(s, t)
    ensures Isolated(p, t, s) <==> Apart(s, t)
  {
    if Apart(s, t) {
      ApartIsIsolated(p, s, t);
      ApartIsIsolated(p, t, s);
    } else {
      KeySpacesMeetIff(s, t);
      var a, b :| Full(s, a) == Full(t, b);
      MeetingIsNotIsolated(p, s, a, t, b);
      MeetingIsNotIsolated(p, t, b, s, a);
    }
  }

  lemma ApartIsIsolated(p: Policy, s: string, t: string)
    requires Apart(s, t)
    ensures Isolated(p, s, t)
  {
    forall turns: seq<Turn> | forall i :: 0 <= i < |turns| ==> turns[i].segment in {s, t}
      ensures RepliesAgree(s, PrivateReplies(map[], turns, s), SharedReplies(p, map[], turns, s))
    {
      TenantsAreIsolated(p, turns, s);
    }
  }

  lemma MeetingIsNotIsolated(p: Policy, writer: string, a: string, reader: string, b: string)
    requires writer != reader && Full(writer, a) == Full(reader, b)
    ensures !Isolated(p, reader, writer)
  {
    var nonce: Nonce := seq(NONCE_BYTES, _ => 0);
    var turns := [Turn(writer, KV.Put(a, [], None), 0, nonce), Turn(reader, KV.Get(b), 0, nonce)];
    SharedKeyLeaks(p, writer, a, reader, b, nonce, []);
    assert !Agrees(reader, PrivateReplies(map[], turns, reader)[0], SharedReplies(p, map[], turns, reader)[0]);
    assert forall i :: 0 <= i < |turns| ==> turns[i].segment in {reader, writer};
  }

  /** A slash in a segment can break it: tenant `a` reads what tenant `a/b` wrote. */
  lemma SlashInSegmentLeaks(p: Policy, nonce: Nonce, value: Bytes)
    ensures var turns := [Turn("a/b", KV.Put("x", value, None), 0, nonce), Turn("a", KV.Get("b/x"), 0, nonce)];
            && PrivateReplies(map[], turns, "a") == [KV.Got(Ok(None))]
            && SharedReplies(p, map[], turns, "a") == [KV.Got(Ok(Some(KV.Entry(value, None))))]
  {
    assert Full("a/b", "x") == Full("a", "b/x");
    SharedKeyLeaks(p, "a/b", "x", "a", "b/x", nonce, value);
  }
}
