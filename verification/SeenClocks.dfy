/** The replay window under clocks that may step back: for which caps and
    lifetimes it still does what its specification says. */
module SeenClocks {
  import opened Orders
  import opened SeenEvents

  // ----- Runs, one call at a time -----

  function WindowAfter(w: Window, ttl: nat, cap: nat, calls: seq<Call>): Window
    decreases |calls|
  {
    if calls == [] then w else WindowAfter(Check(w, ttl, cap, calls[0].key, calls[0].now).0, ttl, cap, calls[1..])
  }

  ghost function Recorded(h: seq<Acceptance>, ttl: nat, cap: nat, c: Call): seq<Acceptance> {
    if Unseen(h, ttl, cap, c.key, c.now) then h + [Acceptance(c.key, c.now)] else h
  }

  ghost function HistoryAfter(h: seq<Acceptance>, ttl: nat, cap: nat, calls: seq<Call>): seq<Acceptance>
    decreases |calls|
  {
    if calls == [] then h else HistoryAfter(Recorded(h, ttl, cap, calls[0]), ttl, cap, calls[1..])
  }

  lemma {:induction false} LastVerdict(w: Window, ttl: nat, cap: nat, calls: seq<Call>, c: Call)
    ensures var (w', ok) := Check(WindowAfter(w, ttl, cap, calls), ttl, cap, c.key, c.now);
            && Verdicts(w, ttl, cap, calls + [c]) == Verdicts(w, ttl, cap, calls) + [ok]
            && WindowAfter(w, ttl, cap, calls + [c]) == w'
    decreases |calls|
  {
    if calls == [] {
      assert (calls + [c])[1..] == [];
    } else {
      assert (calls + [c])[1..] == calls[1..] + [c];
      LastVerdict(Check(w, ttl, cap, calls[0].key, calls[0].now).0, ttl, cap, calls[1..], c);
    }
  }

  lemma {:induction false} LastSpecVerdict(h: seq<Acceptance>, ttl: nat, cap: nat, calls: seq<Call>, c: Call)
    ensures SpecVerdicts(h, ttl, cap, calls + [c])
         == SpecVerdicts(h, ttl, cap, calls) + [Unseen(HistoryAfter(h, ttl, cap, calls), ttl, cap, c.key, c.now)]
    decreases |calls|
  {
    if calls == [] {
      assert (calls + [c])[1..] == [];
    } else {
      assert (calls + [c])[1..] == calls[1..] + [c];
      LastSpecVerdict(Recorded(h, ttl, cap, calls[0]), ttl, cap, calls[1..], c);
    }
  }

  lemma {:induction false} HistoryGrows(h: seq<Acceptance>, ttl: nat, cap: nat, calls: seq<Call>)
    ensures var h' := HistoryAfter(h, ttl, cap, calls); h <= h' && |h'| <= |h| + |calls|
    decreases |calls|
  {
    if calls != [] { HistoryGrows(Recorded(h, ttl, cap, calls[0]), ttl, cap, calls[1..]); }
  }

  // ----- A cap of one remembers the last acceptance, under any clock -----

  /** The window holds the last acceptance, as far as the cap allows. */
  ghost predicate HoldsLast(w: Window, h: seq<Acceptance>, cap: nat) {
    if h == [] || cap == 0 then w == EMPTY
    else w == Window(map[h[|h| - 1].key := h[|h| - 1].at], [h[|h| - 1].key])
  }

  lemma PurgeOne(k: EventKey, t: nat, ttl: nat, now: nat)
    ensures Purge(Window(map[k := t], [k]), ttl, now) == if Age(now, t) >= ttl then EMPTY else Window(map[k := t], [k])
  {
    var w := Window(map[k := t], [k]);
    assert DropFront(w) == EMPTY;
  }

  lemma PushToOne(w: Window, cap: nat, key: EventKey, now: nat)
    requires cap <= 1 && (w == EMPTY || exists k, t :: w == Window(map[k := t], [k]) && k != key && cap == 1)
    ensures Trim(Window(w.seen[key := now], w.order + [key]), cap)
         == if cap == 0 then EMPTY else Window(map[key := now], [key])
  {
    var full := Window(w.seen[key := now], w.order + [key]);
    if w == EMPTY {
      assert full == Window(map[key := now], [key]);
      assert DropFront(full) == EMPTY;
    } else {
      assert DropFront(full) == Window(map[key := now], [key]);
    }
  }

  lemma SmallCheck(w: Window, h: seq<Acceptance>, ttl: nat, cap: nat, c: Call)
    requires cap <= 1 && HoldsLast(w, h, cap)
    ensures var (w', ok) := Check(w, ttl, cap, c.key, c.now);
            ok == Unseen(h, ttl, cap, c.key, c.now) && HoldsLast(w', Recorded(h, ttl, cap, c), cap)
  {
    if h == [] || cap == 0 {
      PushToOne(EMPTY, cap, c.key, c.now);
    } else {
      var last := h[|h| - 1];
      PurgeOne(last.key, last.at, ttl, c.now);
      assert Unseen(h, ttl, cap, c.key, c.now) <==> (last.key == c.key ==> Age(c.now, last.at) >= ttl);
      if Unseen(h, ttl, cap, c.key, c.now) { PushToOne(Purge(w, ttl, c.now), cap, c.key, c.now); }
    }
  }

  lemma {:induction false} SmallCapRefines(w: Window, h: seq<Acceptance>, ttl: nat, cap: nat, calls: seq<Call>)
    requires cap <= 1 && HoldsLast(w, h, cap)
    ensures Verdicts(w, ttl, cap, calls) == SpecVerdicts(h, ttl, cap, calls)
    decreases |calls|
  {
    if calls != [] {
      SmallCheck(w, h, ttl, cap, calls[0]);
      SmallCapRefines(Check(w, ttl, cap, calls[0].key, calls[0].now).0, Recorded(h, ttl, cap, calls[0]), ttl, cap,
                      calls[1..]);
    }
  }

  /** Where nothing is ever young, everything is accepted. */
  lemma {:induction false} NoLifetimeRefines(w: Window, h: seq<Acceptance>, cap: nat, calls: seq<Call>)
    ensures Verdicts(w, 0, cap, calls) == SpecVerdicts(h, 0, cap, calls)
    decreases |calls|
  {
    if calls != [] {
      var c := calls[0];
      assert Check(w, 0, cap, c.key, c.now).1 && Unseen(h, 0, cap, c.key, c.now);
      NoLifetimeRefines(Check(w, 0, cap, c.key, c.now).0, Recorded(h, 0, cap, c), cap, calls[1..]);
    }
  }

  // ----- A larger cap does not survive a step back -----

  function At(keys: seq<EventKey>, now: nat): seq<Call> {
    seq(|keys|, i requires 0 <= i < |keys| => Call(keys[i], now))
  }

  lemma {:induction false} CheckAllIsRun(w: Window, ttl: nat, cap: nat, keys: seq<EventKey>, now: nat)
    ensures WindowAfter(w, ttl, cap, At(keys, now)) == CheckAll(w, ttl, cap, keys, now)
    decreases |keys|
  {
    if keys != [] {
      var n := |keys| - 1;
      CheckAllIsRun(w, ttl, cap, keys[..n], now);
      assert At(keys, now) == At(keys[..n], now) + [Call(keys[n], now)];
      LastVerdict(w, ttl, cap, At(keys[..n], now), Call(keys[n], now));
    }
  }

  function Names(n: nat): seq<EventKey> {
    seq(n, i requires 0 <= i < n => EventKey("p", seq(i, _ => 'x')))
  }

  lemma NamesDiffer(n: nat)
    ensures Distinct(Names(n))
  {
    forall i, j | 0 <= i < j < n ensures Names(n)[i] != Names(n)[j] {
      assert |Names(n)[i].id| == i && |Names(n)[j].id| == j;
    }
  }

  /** The three calls that put `b` on the queue twice. */
  function StepBack(a: EventKey, b: EventKey, ttl: nat): seq<Call> {
    [Call(a, 1), Call(b, 0), Call(b, ttl)]
  }

  lemma RunOne(w: Window, h: seq<Acceptance>, ttl: nat, cap: nat, c: Call, rest: seq<Call>)
    ensures WindowAfter(w, ttl, cap, [c] + rest) == WindowAfter(Check(w, ttl, cap, c.key, c.now).0, ttl, cap, rest)
    ensures HistoryAfter(h, ttl, cap, [c] + rest) == HistoryAfter(Recorded(h, ttl, cap, c), ttl, cap, rest)
  {
    assert ([c] + rest)[1..] == rest;
  }

  lemma RunThree(w: Window, h: seq<Acceptance>, ttl: nat, cap: nat, a: Call, b: Call, c: Call)
    ensures var w1 := Check(w, ttl, cap, a.key, a.now).0;
            var w2 := Check(w1, ttl, cap, b.key, b.now).0;
            WindowAfter(w, ttl, cap, [a, b, c]) == Check(w2, ttl, cap, c.key, c.now).0
    ensures HistoryAfter(h, ttl, cap, [a, b, c])
         == Recorded(Recorded(Recorded(h, ttl, cap, a), ttl, cap, b), ttl, cap, c)
  {
    hide Check, Recorded;
    var w1, h1 := Check(w, ttl, cap, a.key, a.now).0, Recorded(h, ttl, cap, a);
    assert [a, b, c] == [a] + [b, c] && [b, c] == [b] + [c] && [c] == [c] + [];
    RunOne(w, h, ttl, cap, a, [b, c]);
    RunOne(w1, h1, ttl, cap, b, [c]);
    RunOne(Check(w1, ttl, cap, b.key, b.now).0, Recorded(h1, ttl, cap, b), ttl, cap, c, []);
  }

  lemma StepBackHistory(a: EventKey, b: EventKey, ttl: nat, cap: nat)
    requires a != b
    ensures HistoryAfter([], ttl, cap, StepBack(a, b, ttl)) == [Acceptance(a, 1), Acceptance(b, 0), Acceptance(b, ttl)]
  {
    RunThree(EMPTY, [], ttl, cap, Call(a, 1), Call(b, 0), Call(b, ttl));
  }

  lemma {:induction false} RunsJoin(w: Window, h: seq<Acceptance>, ttl: nat, cap: nat, a: seq<Call>, b: seq<Call>)
    ensures WindowAfter(w, ttl, cap, a + b) == WindowAfter(WindowAfter(w, ttl, cap, a), ttl, cap, b)
    ensures HistoryAfter(h, ttl, cap, a + b) == HistoryAfter(HistoryAfter(h, ttl, cap, a), ttl, cap, b)
    decreases |a|
  {
    if a == [] {
      assert a + b == b;
    } else {
      assert (a + b)[1..] == a[1..] + b;
      RunsJoin(Check(w, ttl, cap, a[0].key, a[0].now).0, Recorded(h, ttl, cap, a[0]), ttl, cap, a[1..], b);
    }
  }

  /** By then the window has forgotten `b`, accepted at that very instant. */
  lemma WindowForgets(a: EventKey, b: EventKey, others: seq<EventKey>, ttl: nat, cap: nat)
    requires cap >= 2 && ttl > 0 && |others| == cap - 1 && Distinct([a, b] + others)
    ensures Check(WindowAfter(EMPTY, ttl, cap, StepBack(a, b, ttl) + At(others, ttl)), ttl, cap, b, ttl).1
  {
    hide Check, CheckAll;
    var w1, w2, w3 := BackwardsClockForgets(a, b, others, ttl, cap, 1);
    RunThree(EMPTY, [], ttl, cap, Call(a, 1), Call(b, 0), Call(b, ttl));
    RunsJoin(EMPTY, [], ttl, cap, StepBack(a, b, ttl), At(others, ttl));
    CheckAllIsRun(w3, ttl, cap, others, ttl);
  }

  lemma SpecRemembers(a: EventKey, b: EventKey, others: seq<EventKey>, ttl: nat, cap: nat)
    requires cap >= 2 && ttl > 0 && |others| == cap - 1 && a != b
    ensures !Unseen(HistoryAfter([], ttl, cap, StepBack(a, b, ttl) + At(others, ttl)), ttl, cap, b, ttl)
  {
    StepBackHistory(a, b, ttl, cap);
    var start := HistoryAfter([], ttl, cap, StepBack(a, b, ttl));
    RunsJoin(EMPTY, [], ttl, cap, StepBack(a, b, ttl), At(others, ttl));
    HistoryGrows(start, ttl, cap, At(others, ttl));
    var h := HistoryAfter(start, ttl, cap, At(others, ttl));
    assert h[2] == start[2] == Acceptance(b, ttl) && |h| - cap <= 2;
  }

  lemma {:induction false} LargeCapDisagrees(ttl: nat, cap: nat) returns (calls: seq<Call>)
    requires cap >= 2 && ttl > 0
    ensures Verdicts(EMPTY, ttl, cap, calls) != SpecVerdicts([], ttl, cap, calls)
  {
    hide Check, Unseen, WindowAfter, HistoryAfter, Verdicts, SpecVerdicts;
    var names := Names(cap + 1);
    var a, b, others := names[0], names[1], names[2..];
    NamesDiffer(cap + 1);
    assert [a, b] + others == names;
    var pre, last := StepBack(a, b, ttl) + At(others, ttl), Call(b, ttl);
    WindowForgets(a, b, others, ttl, cap);
    SpecRemembers(a, b, others, ttl, cap);
    LastVerdict(EMPTY, ttl, cap, pre, last);
    LastSpecVerdict([], ttl, cap, pre, last);
    calls := pre + [last];
    LastDiffers(Verdicts(EMPTY, ttl, cap, pre), SpecVerdicts([], ttl, cap, pre));
  }

  lemma LastDiffers(a: seq<bool>, b: seq<bool>)
    ensures a + [true] != b + [false]
  {
    if |a| == |b| { assert (a + [true])[|a|] != (b + [false])[|b|]; }
  }

  /** Over every run under every clock the window decides as the specification
      that remembers every acceptance, if and only if the cap is at most 1 or
      the lifetime is zero. */
  lemma AnyClockIff(ttl: nat, cap: nat)
    ensures (forall calls :: Verdicts(EMPTY, ttl, cap, calls) == SpecVerdicts([], ttl, cap, calls)) <==>
            cap <= 1 || ttl == 0
  {
    if cap <= 1 {
      forall calls ensures Verdicts(EMPTY, ttl, cap, calls) == SpecVerdicts([], ttl, cap, calls) {
        SmallCapRefines(EMPTY, [], ttl, cap, calls);
      }
    } else if ttl == 0 {
      forall calls ensures Verdicts(EMPTY, ttl, cap, calls) == SpecVerdicts([], ttl, cap, calls) {
        NoLifetimeRefines(EMPTY, [], cap, calls);
      }
    } else {
      var calls := LargeCapDisagrees(ttl, cap);
    }
  }
}
