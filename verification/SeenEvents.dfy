/** The bounded, expiring replay window of the clustered credential cache:
    a map from event key to receipt time beside a queue of the keys in the
    order they were recorded. */
module SeenEvents {
  import opened Orders

  datatype EventKey = EventKey(publisher: string, id: string)

  datatype Window = Window(seen: map<EventKey, nat>, order: seq<EventKey>)

  const EMPTY := Window(map[], [])

  /** Saturating subtraction: a clock that stepped back yields age zero. */
  function Age(now: nat, at: nat): nat {
    if now >= at then now - at else 0
  }

  predicate FrontExpired(w: Window, ttl: nat, now: nat) {
    |w.order| > 0 && w.order[0] in w.seen && Age(now, w.seen[w.order[0]]) >= ttl
  }

  function DropFront(w: Window): Window
    requires |w.order| > 0
  {
    Window(w.seen - {w.order[0]}, w.order[1..])
  }

  /** Drop aged-out entries off the front, stopping at the first survivor. */
  function Purge(w: Window, ttl: nat, now: nat): Window
    decreases |w.order|
  {
    if FrontExpired(w, ttl, now) then Purge(DropFront(w), ttl, now) else w
  }

  function Trim(w: Window, cap: nat): Window
    decreases |w.order|
  {
    if |w.order| > cap then Trim(DropFront(w), cap) else w
  }

  /** One call: the window it leaves and whether the key was accepted. */
  function Check(w: Window, ttl: nat, cap: nat, key: EventKey, now: nat): (Window, bool) {
    var p := Purge(w, ttl, now);
    if key in p.seen && Age(now, p.seen[key]) < ttl then (p, false)
    else (Trim(Window(p.seen[key := now], p.order + [key]), cap), true)
  }

  class SeenSet {
    const ttl: nat
    const cap: nat
    var seen: map<EventKey, nat>
    var order: seq<EventKey>

    ghost function View(): Window
      reads this
    {
      Window(seen, order)
    }

    constructor (ttl: nat, cap: nat)
      ensures this.ttl == ttl && this.cap == cap && View() == EMPTY
    {
      this.ttl, this.cap, seen, order := ttl, cap, map[], [];
    }

    method CheckAndRecord(publisher: string, id: string, now: nat) returns (accepted: bool)
      modifies this
      ensures (View(), accepted) == Check(old(View()), ttl, cap, EventKey(publisher, id), now)
    {
      while |order| > 0 && order[0] in seen && Age(now, seen[order[0]]) >= ttl
        invariant Purge(View(), ttl, now) == Purge(old(View()), ttl, now)
        decreases |order|
      {
        var front := order[0];
        order := order[1..];
        seen := seen - {front};
      }
      var key := EventKey(publisher, id);
      if key in seen && Age(now, seen[key]) < ttl {
        return false;
      }
      seen := seen[key := now];
      order := order + [key];
      ghost var pushed := View();
      while |order| > cap
        invariant Trim(View(), cap) == Trim(pushed, cap)
        decreases |order|
      {
        var evicted := order[0];
        order := order[1..];
        seen := seen - {evicted};
      }
      return true;
    }
  }

  // ----- What holds under any clock, forwards or backwards -----

  ghost predicate Bounded(w: Window, cap: nat) {
    && (forall k :: k in w.seen ==> k in w.order)
    && |w.order| <= cap
  }

  lemma {:induction false} KeysFitInQueue(keys: set<EventKey>, order: seq<EventKey>)
    requires forall k :: k in keys ==> k in order
    ensures |keys| <= |order|
  {
    if |order| == 0 {
      assert keys == {};
    } else {
      KeysFitInQueue(keys - {order[0]}, order[1..]);
      if order[0] in keys {
        assert |keys - {order[0]}| == |keys| - 1;
      } else {
        assert keys - {order[0]} == keys;
      }
    }
  }

  lemma {:induction false} PurgeKeepsQueued(w: Window, ttl: nat, now: nat)
    requires forall k :: k in w.seen ==> k in w.order
    ensures var p := Purge(w, ttl, now);
            (forall k :: k in p.seen ==> k in p.order) && |p.order| <= |w.order|
    decreases |w.order|
  {
    if FrontExpired(w, ttl, now) { PurgeKeepsQueued(DropFront(w), ttl, now); }
  }

  lemma {:induction false} TrimBounds(w: Window, cap: nat)
    requires forall k :: k in w.seen ==> k in w.order
    ensures Bounded(Trim(w, cap), cap)
    decreases |w.order|
  {
    if |w.order| > cap { TrimBounds(DropFront(w), cap); }
  }

  /** Memory stays bounded whatever the clock does: every recorded key is
      queued and neither structure outgrows the cap. */
  lemma CheckStaysBounded(w: Window, ttl: nat, cap: nat, key: EventKey, now: nat)
    requires Bounded(w, cap)
    ensures var w' := Check(w, ttl, cap, key, now).0;
            Bounded(w', cap) && |w'.seen| <= |w'.order| <= cap
  {
    var p := Purge(w, ttl, now);
    PurgeKeepsQueued(w, ttl, now);
    var w' := Check(w, ttl, cap, key, now).0;
    if Check(w, ttl, cap, key, now).1 {
      TrimBounds(Window(p.seen[key := now], p.order + [key]), cap);
    }
    KeysFitInQueue(w'.seen.Keys, w'.order);
  }

  lemma {:induction false} PurgeForgets(w: Window, ttl: nat, now: nat)
    ensures Purge(w, ttl, now).seen.Keys <= w.seen.Keys
    decreases |w.order|
  {
    if FrontExpired(w, ttl, now) { PurgeForgets(DropFront(w), ttl, now); }
  }

  lemma {:induction false} TrimForgets(w: Window, cap: nat)
    ensures Trim(w, cap).seen.Keys <= w.seen.Keys
    decreases |w.order|
  {
    if |w.order| > cap { TrimForgets(DropFront(w), cap); }
  }

  /** Under any clock a key not on record is accepted, and nothing else is put
      on record. */
  lemma UnknownKeyIsAccepted(w: Window, ttl: nat, cap: nat, key: EventKey, now: nat)
    requires key !in w.seen
    ensures Check(w, ttl, cap, key, now).1 && Check(w, ttl, cap, key, now).0.seen.Keys <= w.seen.Keys + {key}
  {
    var p := Purge(w, ttl, now);
    PurgeForgets(w, ttl, now);
    TrimForgets(Window(p.seen[key := now], p.order + [key]), cap);
  }

  // ----- The simple specification, and refinement under a forward clock -----

  datatype Acceptance = Acceptance(key: EventKey, at: nat)

  /** No record of `key` among the last `cap` acceptances is younger than `ttl`. */
  ghost predicate Unseen(h: seq<Acceptance>, ttl: nat, cap: nat, key: EventKey, now: nat) {
    forall i :: 0 <= i < |h| && |h| - cap <= i && h[i].key == key ==> ttl == 0 || h[i].at + ttl <= now
  }

  /** The window holds exactly a suffix of the acceptance history: queue and
      map agree, the queue is duplicate-free and sorted by time, and whatever
      it forgot is either past the cap or aged out. */
  ghost predicate Represents(w: Window, h: seq<Acceptance>, ttl: nat, cap: nat, clock: nat) {
    && |w.order| <= cap
    && Mirrors(w, h)
    && Timeline(h, clock)
    && (forall i :: 0 <= i < |h| - |w.order| ==> i < |h| - cap || Age(clock, h[i].at) >= ttl)
  }

  ghost predicate Mirrors(w: Window, h: seq<Acceptance>) {
    && |w.order| <= |h|
    && (forall i :: 0 <= i < |w.order| ==> Records(w, w.order[i], h[|h| - |w.order| + i]))
    && (forall i, j :: 0 <= i < j < |w.order| ==> w.order[i] != w.order[j])
    && (forall k :: k in w.seen ==> k in w.order)
  }

  ghost predicate Records(w: Window, queued: EventKey, a: Acceptance) {
    queued == a.key && queued in w.seen && w.seen[queued] == a.at
  }

  ghost predicate Timeline(h: seq<Acceptance>, clock: nat) {
    && (forall i, j :: 0 <= i <= j < |h| ==> h[i].at <= h[j].at)
    && (forall i :: 0 <= i < |h| ==> h[i].at <= clock)
  }

  lemma DropFrontRecords(w: Window, h: seq<Acceptance>, i: nat)
    requires Mirrors(w, h) && i + 1 < |w.order|
    ensures var w' := DropFront(w); Records(w', w'.order[i], h[|h| - |w'.order| + i])
  {
    assert Records(w, w.order[i + 1], h[|h| - |w.order| + (i + 1)]);
  }

  lemma DropFrontQueued(w: Window, h: seq<Acceptance>, k: EventKey)
    requires Mirrors(w, h) && |w.order| > 0 && k in DropFront(w).seen
    ensures k in DropFront(w).order
  {
    var i :| 0 <= i < |w.order| && w.order[i] == k;
    assert DropFront(w).order[i - 1] == k;
  }

  lemma DropFrontMirrors(w: Window, h: seq<Acceptance>)
    requires Mirrors(w, h) && |w.order| > 0
    ensures Mirrors(DropFront(w), h)
  {
    var w' := DropFront(w);
    forall i | 0 <= i < |w'.order| ensures Records(w', w'.order[i], h[|h| - |w'.order| + i]) {
      DropFrontRecords(w, h, i);
    }
    forall k | k in w'.seen ensures k in w'.order { DropFrontQueued(w, h, k); }
    assert forall i :: 0 <= i < |w'.order| ==> w'.order[i] == w.order[i + 1];
  }

  lemma PushMirrors(w: Window, h: seq<Acceptance>, key: EventKey, now: nat)
    requires Mirrors(w, h) && key !in w.seen
    ensures Mirrors(Window(w.seen[key := now], w.order + [key]), h + [Acceptance(key, now)])
  {
    var w' := Window(w.seen[key := now], w.order + [key]);
    var h' := h + [Acceptance(key, now)];
    forall i | 0 <= i < |w'.order|
      ensures Records(w', w'.order[i], h'[|h'| - |w'.order| + i])
      ensures i < |w.order| ==> w'.order[i] != key
    {
      if i < |w.order| { assert Records(w, w.order[i], h[|h| - |w.order| + i]); }
    }
    forall k | k in w'.seen ensures k in w'.order {
      if k == key { assert w'.order[|w.order|] == key; } else { assert k in w.order; }
    }
  }

  lemma DropFrontRepresents(w: Window, h: seq<Acceptance>, ttl: nat, cap: nat, now: nat)
    requires Represents(w, h, ttl, cap, now) && FrontExpired(w, ttl, now)
    ensures Represents(DropFront(w), h, ttl, cap, now)
  {
    DropFrontMirrors(w, h);
    assert Records(w, w.order[0], h[|h| - |w.order| + 0]);
  }

  lemma {:induction false} PurgeRepresents(w: Window, h: seq<Acceptance>, ttl: nat, cap: nat, now: nat)
    requires Represents(w, h, ttl, cap, now)
    ensures Represents(Purge(w, ttl, now), h, ttl, cap, now)
    ensures !FrontExpired(Purge(w, ttl, now), ttl, now)
    decreases |w.order|
  {
    if FrontExpired(w, ttl, now) {
      DropFrontRepresents(w, h, ttl, cap, now);
      PurgeRepresents(DropFront(w), h, ttl, cap, now);
    }
  }

  /** Once the front survives the purge, every queued entry does, so membership
      in the map alone decides. */
  lemma PurgedMembershipDecides(w: Window, h: seq<Acceptance>, ttl: nat, cap: nat, key: EventKey, now: nat)
    requires Represents(w, h, ttl, cap, now) && !FrontExpired(w, ttl, now)
    ensures key in w.seen ==> Age(now, w.seen[key]) < ttl
    ensures key !in w.seen <==> Unseen(h, ttl, cap, key, now)
  {
    var n := |h| - |w.order|;
    if key in w.seen {
      var i :| 0 <= i < |w.order| && w.order[i] == key;
      assert Records(w, w.order[0], h[n + 0]) && Records(w, w.order[i], h[n + i]);
      assert h[n + 0].at <= h[n + i].at;
    } else {
      forall i | n <= i < |h| ensures h[i].key != key {
        assert Records(w, w.order[i - n], h[n + (i - n)]);
      }
    }
  }

  lemma PushRepresents(w: Window, h: seq<Acceptance>, ttl: nat, cap: nat, key: EventKey, now: nat)
    requires Represents(w, h, ttl, cap, now) && key !in w.seen
    ensures Represents(Trim(Window(w.seen[key := now], w.order + [key]), cap),
                       h + [Acceptance(key, now)], ttl, cap, now)
  {
    var pushed := Window(w.seen[key := now], w.order + [key]);
    var h' := h + [Acceptance(key, now)];
    PushMirrors(w, h, key, now);
    assert Timeline(h', now);
    if |pushed.order| > cap {
      DropFrontMirrors(pushed, h');
      assert Trim(pushed, cap) == DropFront(pushed);
    }
  }

  lemma RepresentsLater(w: Window, h: seq<Acceptance>, ttl: nat, cap: nat, clock: nat, now: nat)
    requires Represents(w, h, ttl, cap, clock) && clock <= now
    ensures Represents(w, h, ttl, cap, now)
  {}

  /** One call of the real window is one step of the simple specification. */
  lemma CheckRefines(w: Window, h: seq<Acceptance>, ttl: nat, cap: nat, clock: nat, key: EventKey, now: nat)
    requires Represents(w, h, ttl, cap, clock) && clock <= now
    ensures var (w', accepted) := Check(w, ttl, cap, key, now);
            && accepted == Unseen(h, ttl, cap, key, now)
            && Represents(w', if accepted then h + [Acceptance(key, now)] else h, ttl, cap, now)
  {
    RepresentsLater(w, h, ttl, cap, clock, now);
    PurgeRepresents(w, h, ttl, cap, now);
    var p := Purge(w, ttl, now);
    PurgedMembershipDecides(p, h, ttl, cap, key, now);
    if key !in p.seen { PushRepresents(p, h, ttl, cap, key, now); }
  }

  lemma {:induction false} PurgeLeaves(w: Window, h: seq<Acceptance>, ttl: nat, cap: nat, now: nat, k: EventKey)
    requires Represents(w, h, ttl, cap, now) && k in Purge(w, ttl, now).seen
    ensures now < Purge(w, ttl, now).seen[k] + ttl
  {
    PurgeRepresents(w, h, ttl, cap, now);
    PurgedMembershipDecides(Purge(w, ttl, now), h, ttl, cap, k, now);
  }

  /** Nothing aged is kept: after a call, whatever it decided, every record is
      within its lifetime or is the one just made. */
  lemma OnlyYoungRecordsStay(w: Window, h: seq<Acceptance>, ttl: nat, cap: nat, clock: nat, key: EventKey,
                             now: nat, k: EventKey)
    requires Represents(w, h, ttl, cap, clock) && clock <= now
    requires k in Check(w, ttl, cap, key, now).0.seen
    ensures now < Check(w, ttl, cap, key, now).0.seen[k] + ttl
            || (k == key && Check(w, ttl, cap, key, now).0.seen[k] == now)
  {
    RepresentsLater(w, h, ttl, cap, clock, now);
    var p := Purge(w, ttl, now);
    if k in p.seen { PurgeLeaves(w, h, ttl, cap, now, k); }
    TrimKeeps(Window(p.seen[key := now], p.order + [key]), cap, k);
  }

  lemma {:induction false} TrimKeeps(w: Window, cap: nat, k: EventKey)
    ensures k in Trim(w, cap).seen ==> k in w.seen && Trim(w, cap).seen[k] == w.seen[k]
    decreases |w.order|
  {
    if |w.order| > cap { TrimKeeps(DropFront(w), cap, k); }
  }

  // ----- Whole runs -----

  datatype Call = Call(key: EventKey, now: nat)

  ghost predicate ClockForward(calls: seq<Call>, from: nat) {
    && (forall i :: 0 <= i < |calls| ==> from <= calls[i].now)
    && (forall i, j :: 0 <= i <= j < |calls| ==> calls[i].now <= calls[j].now)
  }

  /** The verdicts of the real window over a run. */
  function Verdicts(w: Window, ttl: nat, cap: nat, calls: seq<Call>): seq<bool>
    decreases |calls|
  {
    if calls == [] then [] else
      var (w', ok) := Check(w, ttl, cap, calls[0].key, calls[0].now);
      [ok] + Verdicts(w', ttl, cap, calls[1..])
  }

  /** The verdicts of the simple specification, which remembers everything. */
  ghost function SpecVerdicts(h: seq<Acceptance>, ttl: nat, cap: nat, calls: seq<Call>): seq<bool>
    decreases |calls|
  {
    if calls == [] then [] else
      var ok := Unseen(h, ttl, cap, calls[0].key, calls[0].now);
      var h' := if ok then h + [Acceptance(calls[0].key, calls[0].now)] else h;
      [ok] + SpecVerdicts(h', ttl, cap, calls[1..])
  }

  lemma FirstCallRefines(w: Window, h: seq<Acceptance>, ttl: nat, cap: nat, clock: nat, c: Call)
    returns (w': Window, h': seq<Acceptance>, ok: bool)
    requires Represents(w, h, ttl, cap, clock) && clock <= c.now
    ensures (w', ok) == Check(w, ttl, cap, c.key, c.now) && ok == Unseen(h, ttl, cap, c.key, c.now)
    ensures h' == (if ok then h + [Acceptance(c.key, c.now)] else h) && Represents(w', h', ttl, cap, c.now)
  {
    CheckRefines(w, h, ttl, cap, clock, c.key, c.now);
    w' := Check(w, ttl, cap, c.key, c.now).0;
    ok := Check(w, ttl, cap, c.key, c.now).1;
    h' := if ok then h + [Acceptance(c.key, c.now)] else h;
  }

  lemma {:induction false} RunRefinesFrom(w: Window, h: seq<Acceptance>, ttl: nat, cap: nat, clock: nat,
                                          calls: seq<Call>)
    requires Represents(w, h, ttl, cap, clock) && ClockForward(calls, clock)
    ensures Verdicts(w, ttl, cap, calls) == SpecVerdicts(h, ttl, cap, calls)
    decreases |calls|
  {
    if calls != [] {
      var w', h', ok := FirstCallRefines(w, h, ttl, cap, clock, calls[0]);
      RunRefinesFrom(w', h', ttl, cap, calls[0].now, calls[1..]);
    }
  }

  /** While the clock never steps back, the window decides every run exactly as
      the simple specification does. */
  lemma RunRefines(ttl: nat, cap: nat, calls: seq<Call>)
    requires ClockForward(calls, 0)
    ensures Verdicts(EMPTY, ttl, cap, calls) == SpecVerdicts([], ttl, cap, calls)
  {
    RunRefinesFrom(EMPTY, [], ttl, cap, 0, calls);
  }

  // ----- What one backwards step of the clock does -----

  /** The same instant for every key. */
  function CheckAll(w: Window, ttl: nat, cap: nat, keys: seq<EventKey>, now: nat): Window {
    if keys == [] then w else Check(CheckAll(w, ttl, cap, keys[..|keys| - 1], now), ttl, cap, keys[|keys| - 1], now).0
  }

  /** A young front stops the purge, and pushing a new key trims at most one. */
  lemma PushAtYoungFront(w: Window, ttl: nat, cap: nat, key: EventKey, now: nat)
    requires w.order != [] && (w.order[0] in w.seen ==> Age(now, w.seen[w.order[0]]) < ttl)
    requires key in w.seen ==> Age(now, w.seen[key]) >= ttl
    requires 0 < |w.order| <= cap
    ensures var pushed := Window(w.seen[key := now], w.order + [key]);
            Check(w, ttl, cap, key, now) == (if |w.order| == cap then DropFront(pushed) else pushed, true)
  {
    assert Purge(w, ttl, now) == w;
    var pushed := Window(w.seen[key := now], w.order + [key]);
    if |w.order| == cap { assert Trim(pushed, cap) == Trim(DropFront(pushed), cap) == DropFront(pushed); }
  }

  /** `b` was recorded, went stale behind a younger front, and was recorded
      again: it is queued twice. `m` other keys have followed. */
  ghost predicate Doubled(w: Window, a: EventKey, b: EventKey, others: seq<EventKey>, m: nat, at: nat,
                          now: nat, cap: nat)
    requires m <= |others|
  {
    && m + 2 <= cap
    && w.order == (if m + 2 == cap then [] else [a]) + [b, b] + others[..m]
    && b in w.seen && w.seen[b] == now
    && (m + 2 < cap ==> a in w.seen && w.seen[a] == at)
    && forall k :: k in w.seen ==> k in [a, b] + others[..m]
  }

  lemma OthersAreNew(a: EventKey, b: EventKey, others: seq<EventKey>, m: nat)
    requires m < |others| && Distinct([a, b] + others)
    ensures others[m] !in [a, b] + others[..m] && a != b
  {
    var all := [a, b] + others;
    assert all[0] == a && all[1] == b && all[m + 2] == others[m];
    assert forall i :: 0 <= i < m ==> others[i] == all[i + 2];
  }

  /** Pushing one more: `a` goes when the queue is full. */
  lemma DoubledPush(w: Window, a: EventKey, b: EventKey, others: seq<EventKey>, m: nat,
                    at: nat, now: nat, ttl: nat, cap: nat)
    returns (w': Window)
    requires m < |others| && Doubled(w, a, b, others, m, at, now, cap) && m + 2 < cap
    requires others[m] !in [a, b] + others[..m] && Age(now, at) < ttl
    ensures w' == Check(w, ttl, cap, others[m], now).0
    ensures w'.order == (if m + 3 == cap then [] else [a]) + [b, b] + others[..m] + [others[m]]
    ensures w'.seen == (if m + 3 == cap then w.seen[others[m] := now] - {a} else w.seen[others[m] := now])
  {
    PushAtYoungFront(w, ttl, cap, others[m], now);
    w' := Check(w, ttl, cap, others[m], now).0;
    assert |w.order| == m + 3;
  }

  lemma DoubledNext(w: Window, a: EventKey, b: EventKey, others: seq<EventKey>, m: nat,
                    at: nat, now: nat, ttl: nat, cap: nat)
    requires m < |others| && Doubled(w, a, b, others, m, at, now, cap) && m + 2 < cap
    requires Distinct([a, b] + others) && Age(now, at) < ttl
    ensures Doubled(Check(w, ttl, cap, others[m], now).0, a, b, others, m + 1, at, now, cap)
  {
    OthersAreNew(a, b, others, m);
    var w' := DoubledPush(w, a, b, others, m, at, now, ttl, cap);
    DoubledStays(w, w', a, b, others, m, at, now, cap);
  }

  lemma DoubledStays(w: Window, w': Window, a: EventKey, b: EventKey, others: seq<EventKey>,
                     m: nat, at: nat, now: nat, cap: nat)
    requires m < |others| && Doubled(w, a, b, others, m, at, now, cap) && m + 2 < cap && a != b
    requires others[m] !in [a, b] + others[..m]
    requires w'.order == (if m + 3 == cap then [] else [a]) + [b, b] + others[..m] + [others[m]]
    requires w'.seen == (if m + 3 == cap then w.seen[others[m] := now] - {a} else w.seen[others[m] := now])
    ensures Doubled(w', a, b, others, m + 1, at, now, cap)
  {
    assert others[..m + 1] == others[..m] + [others[m]];
    assert [a, b] + others[..m + 1] == [a, b] + others[..m] + [others[m]];
  }

  lemma {:induction false} DoubledRuns(w: Window, a: EventKey, b: EventKey, others: seq<EventKey>, m: nat, at: nat,
                                       now: nat, ttl: nat, cap: nat)
    requires Doubled(w, a, b, others, 0, at, now, cap) && m + 2 <= cap && m <= |others|
    requires Distinct([a, b] + others) && Age(now, at) < ttl
    ensures Doubled(CheckAll(w, ttl, cap, others[..m], now), a, b, others, m, at, now, cap)
  {
    if m == 0 {
      assert others[..0] == [];
    } else {
      DoubledRuns(w, a, b, others, m - 1, at, now, ttl, cap);
      assert others[..m][..m - 1] == others[..m - 1];
      DoubledNext(CheckAll(w, ttl, cap, others[..m - 1], now), a, b, others, m - 1, at, now, ttl, cap);
    }
  }

  /** One key more drops the first copy of `b`, and with it the record. */
  lemma SecondCopyLosesRecord(w: Window, a: EventKey, b: EventKey, others: seq<EventKey>, at: nat,
                            now: nat, ttl: nat, cap: nat)
    requires cap >= 2 && |others| == cap - 1 && Doubled(w, a, b, others, cap - 2, at, now, cap)
    requires Distinct([a, b] + others) && ttl > 0
    ensures var w' := Check(w, ttl, cap, others[cap - 2], now).0; Check(w', ttl, cap, b, now).1
  {
    var key := others[cap - 2];
    OthersAreNew(a, b, others, cap - 2);
    PushAtYoungFront(w, ttl, cap, key, now);
    var w' := Check(w, ttl, cap, key, now).0;
    assert b !in w'.seen;
    UnknownKeyIsAccepted(w', ttl, cap, b, now);
  }

  /** `b` queued twice: recorded one tick before `a` on a clock that stepped
      back, and again once that record is stale. */
  lemma StaleRecordDoubles(a: EventKey, b: EventKey, others: seq<EventKey>, ttl: nat, cap: nat, at: nat)
    returns (w1: Window, w2: Window, w3: Window)
    requires cap >= 2 && ttl > 0 && at > 0 && a != b
    ensures Check(EMPTY, ttl, cap, a, at) == (w1, true) && Check(w1, ttl, cap, b, at - 1) == (w2, true)
    ensures Check(w2, ttl, cap, b, at - 1 + ttl) == (w3, true)
    ensures Doubled(w3, a, b, others, 0, at, at - 1 + ttl, cap)
  {
    w1, w2 := Window(map[a := at], [a]), Window(map[a := at, b := at - 1], [a, b]);
    assert Window(map[][a := at], [] + [a]) == w1 && Trim(w1, cap) == w1;
    PushAtYoungFront(w1, ttl, cap, b, at - 1);
    assert Window(w1.seen[b := at - 1], w1.order + [b]) == w2;
    w3 := StaleRecordPushed(w2, a, b, others, ttl, cap, at);
  }

  lemma StaleRecordPushed(w: Window, a: EventKey, b: EventKey, others: seq<EventKey>, ttl: nat, cap: nat, at: nat)
    returns (w': Window)
    requires cap >= 2 && ttl > 0 && at > 0 && a != b && w == Window(map[a := at, b := at - 1], [a, b])
    ensures Check(w, ttl, cap, b, at - 1 + ttl) == (w', true)
    ensures Doubled(w', a, b, others, 0, at, at - 1 + ttl, cap)
  {
    PushAtYoungFront(w, ttl, cap, b, at - 1 + ttl);
    w' := Check(w, ttl, cap, b, at - 1 + ttl).0;
    assert [a, b] + [b] == [a] + [b, b] && ([a] + [b, b])[1..] == [b, b];
    assert [a] + [b, b] + others[..0] == [a] + [b, b] && [] + [b, b] + others[..0] == [b, b];
  }

  lemma DoubledForgets(w: Window, a: EventKey, b: EventKey, others: seq<EventKey>, ttl: nat, cap: nat, at: nat)
    requires cap >= 2 && ttl > 0 && at > 0 && |others| == cap - 1 && Distinct([a, b] + others)
    requires Doubled(w, a, b, others, 0, at, at - 1 + ttl, cap)
    ensures Check(CheckAll(w, ttl, cap, others, at - 1 + ttl), ttl, cap, b, at - 1 + ttl).1
  {
    var now := at - 1 + ttl;
    DoubledRuns(w, a, b, others, cap - 2, at, now, ttl, cap);
    SecondCopyLosesRecord(CheckAll(w, ttl, cap, others[..cap - 2], now), a, b, others, at, now, ttl, cap);
  }

  /** The forward clock is needed, for every cap of 2 or more and every lifetime:
      after one backwards step a key sits twice on the queue, dropping the first
      copy forgets the new record, and with only `cap - 1` other keys since, at
      the same instant, a key just accepted is accepted again. */
  lemma BackwardsClockForgets(a: EventKey, b: EventKey, others: seq<EventKey>, ttl: nat, cap: nat, at: nat)
    returns (w1: Window, w2: Window, w3: Window)
    requires cap >= 2 && ttl > 0 && at > 0 && |others| == cap - 1 && Distinct([a, b] + others)
    ensures Check(EMPTY, ttl, cap, a, at) == (w1, true) && Check(w1, ttl, cap, b, at - 1) == (w2, true)
    ensures Check(w2, ttl, cap, b, at - 1 + ttl) == (w3, true)
    ensures Check(CheckAll(w3, ttl, cap, others, at - 1 + ttl), ttl, cap, b, at - 1 + ttl).1
  {
    assert ([a, b] + others)[0] == a && ([a, b] + others)[1] == b;
    w1, w2, w3 := StaleRecordDoubles(a, b, others, ttl, cap, at);
    DoubledForgets(w3, a, b, others, ttl, cap, at);
  }
}
