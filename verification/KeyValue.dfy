/** The contract assumed of the coordinator's key-value store: entries with an
    optional deadline, point operations, and ordered listing by prefix. */
module KeyValue {
  import opened Wrappers
  import opened Orders
  import Strings

  datatype Entry<+B> = Entry(bytes: B, expiresAt: Option<nat>)

  type Store<B> = map<string, Entry<B>>

  predicate Live<B>(e: Entry<B>, now: nat) {
    e.expiresAt.None? || now < e.expiresAt.value
  }

  predicate Present<B>(s: Store<B>, key: string, now: nat) {
    key in s && Live(s[key], now)
  }

  function Deadline(now: nat, ttl: Option<nat>): Option<nat> {
    match ttl case None => None case Some(d) => Some(now + d)
  }

  /** A live key in the page's range: under the prefix and after the cursor. */
  predicate InRange<B>(s: Store<B>, key: string, prefix: string, cursor: Option<string>, now: nat) {
    Present(s, key, now) && prefix <= key && (cursor.None? || Strings.Lt(cursor.value, key))
  }

  ghost function RangeSet<B>(s: Store<B>, prefix: string, cursor: Option<string>, now: nat): set<string> {
    set k | k in s && InRange(s, k, prefix, cursor, now)
  }

  ghost function RangeKeys<B>(s: Store<B>, prefix: string, cursor: Option<string>, now: nat): seq<string> {
    Strings.LtStrictTotal();
    Sorted(RangeSet(s, prefix, cursor, now), Strings.Lt)
  }

  lemma RangeKeysAreKeys<B>(s: Store<B>, prefix: string, cursor: Option<string>, now: nat)
    ensures forall i :: 0 <= i < |RangeKeys(s, prefix, cursor, now)| ==>
              InRange(s, RangeKeys(s, prefix, cursor, now)[i], prefix, cursor, now)
  {
    Strings.LtStrictTotal();
    var keys := RangeKeys(s, prefix, cursor, now);
    SortedEnumerates(RangeSet(s, prefix, cursor, now), Strings.Lt);
    forall i | 0 <= i < |keys| ensures InRange(s, keys[i], prefix, cursor, now) {
      assert keys[i] in keys;
    }
  }

  function Cut(keys: seq<string>, limit: nat): seq<string> {
    if |keys| <= limit then keys else keys[..limit]
  }

  /** Where the next page starts, when this one is full and more remains. */
  function NextCursor(keys: seq<string>, limit: nat): Option<string> {
    if |keys| > limit > 0 then Some(keys[limit - 1]) else None
  }

  ghost function Page<B>(s: Store<B>, prefix: string, cursor: Option<string>, limit: nat, now: nat)
    : seq<(string, Entry<B>)>
  {
    var keys := Cut(RangeKeys(s, prefix, cursor, now), limit);
    RangeKeysAreKeys(s, prefix, cursor, now);
    seq(|keys|, i requires 0 <= i < |keys| => (keys[i], s[keys[i]]))
  }

  lemma PageIsCut<B>(s: Store<B>, prefix: string, cursor: Option<string>, limit: nat, now: nat)
    ensures var page, keys := Page(s, prefix, cursor, limit, now), RangeKeys(s, prefix, cursor, now);
            && |page| == (if |keys| <= limit then |keys| else limit)
            && (forall i :: 0 <= i < |page| ==> keys[i] in s && page[i] == (keys[i], s[keys[i]]))
  {
    RangeKeysAreKeys(s, prefix, cursor, now);
  }

  /** A page is the first keys of the range in byte order, as many as the limit
      allows. */
  lemma PageBeginsRange<B>(s: Store<B>, prefix: string, cursor: Option<string>, limit: nat, now: nat)
    ensures var page, range := Page(s, prefix, cursor, limit, now), RangeSet(s, prefix, cursor, now);
            && |page| == (if |range| <= limit then |range| else limit)
            && (forall i :: 0 <= i < |page| ==> page[i].0 in range && page[i].0 in s && page[i].1 == s[page[i].0])
            && (forall i, j :: 0 <= i < j < |page| ==> Strings.Lt(page[i].0, page[j].0))
            && (forall k, i :: k in range && !OnPage(page, k) && 0 <= i < |page| ==> Strings.Lt(page[i].0, k))
  {
    Strings.LtStrictTotal();
    var range, keys := RangeSet(s, prefix, cursor, now), RangeKeys(s, prefix, cursor, now);
    SortedEnumerates(range, Strings.Lt);
    PageIsCut(s, prefix, cursor, limit, now);
    hide RangeSet, RangeKeys, Sorted, StrictTotal, Page, Increasing, Strings.Lt;
    var page := Page(s, prefix, cursor, limit, now);
    CutKeepsFirst(keys, |page|);
    forall i | 0 <= i < |page| ensures page[i].0 in range { assert keys[i] in keys; }
    forall k, i | k in range && !OnPage(page, k) && 0 <= i < |page| ensures Strings.Lt(page[i].0, k) {
      assert k in keys && page[i].0 == keys[i];
      forall m | 0 <= m < |page| ensures keys[m] != k { assert page[m].0 == keys[m]; }
    }
  }

  lemma CutKeepsFirst(keys: seq<string>, n: nat)
    requires n <= |keys| && Increasing(keys, Strings.Lt)
    ensures forall i, j :: 0 <= i < j < n ==> Strings.Lt(keys[i], keys[j])
    ensures forall k, i :: k in keys && (forall m :: 0 <= m < n ==> keys[m] != k) && 0 <= i < n ==>
              Strings.Lt(keys[i], k)
  {
    forall k, i | k in keys && (forall m :: 0 <= m < n ==> keys[m] != k) && 0 <= i < n ensures Strings.Lt(keys[i], k) {
      var j :| 0 <= j < |keys| && keys[j] == k;
    }
  }

  predicate OnPage<B>(page: seq<(string, Entry<B>)>, k: string) {
    exists i :: 0 <= i < |page| && page[i].0 == k
  }

  /** While a page names a next one, it is full, the cursor is its last key, and
      a key is beyond the cursor exactly if it is in range and not on the page. */
  lemma NextPageGoesOn<B>(s: Store<B>, prefix: string, cursor: Option<string>, limit: nat, now: nat, k: string)
    requires NextCursor(RangeKeys(s, prefix, cursor, now), limit).Some?
    ensures var page := Page(s, prefix, cursor, limit, now);
            var next := NextCursor(RangeKeys(s, prefix, cursor, now), limit);
            && |page| == limit > 0 && next == Some(page[limit - 1].0)
            && (k in RangeSet(s, prefix, next, now) <==> k in RangeSet(s, prefix, cursor, now) && !OnPage(page, k))
  {
    var page, keys := Page(s, prefix, cursor, limit, now), RangeKeys(s, prefix, cursor, now);
    PageBeginsRange(s, prefix, cursor, limit, now);
    assert page[limit - 1].0 == keys[limit - 1];
    LastOfPageDecides(page, k);
    BeyondCursor(s, prefix, cursor, page[limit - 1].0, now, k);
  }

  lemma LastOfPageDecides<B>(page: seq<(string, Entry<B>)>, k: string)
    requires page != [] && forall i, j :: 0 <= i < j < |page| ==> Strings.Lt(page[i].0, page[j].0)
    ensures Strings.Lt(page[|page| - 1].0, k) ==> !OnPage(page, k)
  {
    var last := page[|page| - 1].0;
    Strings.LtIrreflexive(last);
    if OnPage(page, k) {
      var i :| 0 <= i < |page| && page[i].0 == k;
      if i < |page| - 1 { Strings.LtAsymmetric(k, last); }
    }
  }

  /** Moving the cursor on to a key of the range only takes keys away. */
  lemma BeyondCursor<B>(s: Store<B>, prefix: string, cursor: Option<string>, last: string, now: nat, k: string)
    requires last in RangeSet(s, prefix, cursor, now)
    ensures k in RangeSet(s, prefix, Some(last), now) <==>
            k in RangeSet(s, prefix, cursor, now) && Strings.Lt(last, k)
  {
    if cursor.Some? && Strings.Lt(last, k) { Strings.LtTransitive(cursor.value, last, k); }
  }

  datatype Op<+B> =
    | Get(key: string)
    | Put(key: string, value: B, ttl: Option<nat>)
    | PutIfAbsent(key: string, value: B, ttl: Option<nat>)
    | Delete(key: string)
    | Expire(key: string, ttl: Option<nat>)
    | ListPrefix(prefix: string, limit: nat)
    | ListPage(prefix: string, cursor: Option<string>, limit: nat)

  datatype Reply<+B, +E> =
    | Got(result: Result<Option<Entry<B>>, E>)
    | Done
    | Changed(yes: bool)
    | Listed(entries: seq<(string, Entry<B>)>, next: Option<string>)

  /** One operation on a plain store. */
  ghost function Step<B, E>(s: Store<B>, op: Op<B>, now: nat): (Store<B>, Reply<B, E>) {
    match op
    case Get(key) => (s, Got(Ok(if Present(s, key, now) then Some(s[key]) else None)))
    case Put(key, value, ttl) => (s[key := Entry(value, Deadline(now, ttl))], Done)
    case PutIfAbsent(key, value, ttl) =>
      if Present(s, key, now) then (s, Changed(false))
      else (s[key := Entry(value, Deadline(now, ttl))], Changed(true))
    case Delete(key) => (s - {key}, Changed(Present(s, key, now)))
    case Expire(key, ttl) =>
      if Present(s, key, now) then (s[key := s[key].(expiresAt := Deadline(now, ttl))], Changed(true))
      else (s, Changed(false))
    case ListPrefix(prefix, limit) => (s, Listed(Page(s, prefix, None, limit, now), None))
    case ListPage(prefix, cursor, limit) =>
      (s, Listed(Page(s, prefix, cursor, limit, now), NextCursor(RangeKeys(s, prefix, cursor, now), limit)))
  }

  /** What is put is read back until its deadline, which is not reached at that
      very instant, and by no other key. */
  lemma PutIsReadBack<B, E>(s: Store<B>, key: string, value: B, ttl: Option<nat>, at: nat, other: string, now: nat)
    requires other != key
    ensures var s' := Step<B, E>(s, Put(key, value, ttl), at).0;
            && Step<B, E>(s', Get(key), now).1
               == Got(Ok(if ttl.None? || now < at + ttl.value then Some(Entry(value, Deadline(at, ttl))) else None))
            && Step<B, E>(s', Get(other), now).1 == Step<B, E>(s, Get(other), now).1
  {
  }
}
