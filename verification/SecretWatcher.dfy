/** The per-reference secret rotation loop: rotations are coalesced, and one
    fan-out is made per debounce window. A run is the list of the loop's turns,
    each being what `select` picked and the clock readings it made. */
module SecretWatcher {
  import opened Wrappers
  import NumberText

  /** `top` is the clock read at the loop's head, from which the sleep length is
      computed; `slept` is when that sleep begins, inside `select`; `at` is when
      an arm is picked; `armed` is the clock read after picking a rotation. */
  datatype Turn =
    | Cancelled(at: nat)
    | Timer(top: nat, slept: nat, at: nat)
    | Rotation(top: nat, slept: nat, at: nat, armed: nat, version: Option<string>)
    | Ended(at: nat)

  datatype FanOut = FanOut(version: nat, at: nat, byTimer: bool)

  datatype Watch = Watch(latest: Option<nat>, nextFire: Option<nat>, calls: seq<FanOut>, over: bool)

  /** Providers whose version is not a number report zero. */
  function ParseVersion(version: Option<string>): nat {
    match version
    case None => 0
    case Some(s) =>
      var n := NumberText.FromStrRadix(s, 10);
      if n.Some? then n.value else 0
  }

  /** Decimal digits, after one plus at most, for a number of 64 bits. */
  ghost predicate IsDecimal(s: string, n: nat) {
    exists digits: string ::
      && digits != "" && (s == digits || s == "+" + digits)
      && (forall i :: 0 <= i < |digits| ==> '0' <= digits[i] <= '9')
      && n == NumberText.Value(digits, 10) < 0x1_0000_0000_0000_0000
  }

  /** The version reported is the number its text stands for, and zero exactly
      where there is no text or it stands for none, or for zero. */
  lemma VersionIsItsNumber(version: Option<string>, n: nat)
    ensures version.Some? && IsDecimal(version.value, n) ==> ParseVersion(version) == n
    ensures ParseVersion(version) == n && n > 0 ==> version.Some? && IsDecimal(version.value, n)
  {
    forall digits: string
      ensures NumberText.IsNumeral(digits, 10) <==> forall i :: 0 <= i < |digits| ==> '0' <= digits[i] <= '9'
    {
      forall i | 0 <= i < |digits| ensures NumberText.DigitValue(digits[i]) < 10 <==> '0' <= digits[i] <= '9' {}
    }
    if version.Some? { NumberText.FromStrRadixIff(version.value, 10, n); }
  }

  // ----- The loop -----

  function Step(debounce: nat, w: Watch, t: Turn): Watch {
    match t
    case Cancelled(_) => w.(over := true)
    case Timer(_, _, at) =>
      w.(latest := None, nextFire := None,
         calls := if w.latest.Some? then w.calls + [FanOut(w.latest.value, at, true)] else w.calls)
    case Rotation(_, _, _, armed, version) =>
      w.(latest := Some(ParseVersion(version)),
         nextFire := if w.nextFire.None? then Some(armed + debounce) else w.nextFire)
    case Ended(at) =>
      w.(latest := None, over := true,
         calls := if w.latest.Some? then w.calls + [FanOut(w.latest.value, at, false)] else w.calls)
  }

  function Run(debounce: nat, turns: seq<Turn>): Watch {
    if turns == [] then Watch(None, None, [], false)
    else Step(debounce, Run(debounce, turns[..|turns| - 1]), turns[|turns| - 1])
  }

  function Starts(t: Turn): nat {
    match t
    case Timer(top, _, _) => top
    case Rotation(top, _, _, _, _) => top
    case _ => t.at
  }

  function Ends(t: Turn): nat {
    match t
    case Rotation(_, _, _, armed, _) => armed
    case _ => t.at
  }

  function LastEnd(turns: seq<Turn>): nat {
    if turns == [] then 0 else Ends(turns[|turns| - 1])
  }

  function SaturatingSub(a: nat, b: nat): nat {
    if a >= b then a - b else 0
  }

  predicate InOrder(t: Turn) {
    match t
    case Timer(top, slept, at) => top <= slept <= at
    case Rotation(top, slept, at, armed, _) => top <= slept <= at <= armed
    case _ => true
  }

  /** When the sleep of this turn is over: it lasts for what was left of the
      deadline at the head of the loop. */
  function SleepEnds(due: nat, t: Turn): nat
    requires t.Timer? || t.Rotation?
  {
    t.slept + SaturatingSub(due, t.top)
  }

  /** The timer arm is pending forever unless a deadline is set; then it is ready
      once its sleep is over, and, coming first in the biased `select`, it is
      picked before any rotation from then on. */
  ghost predicate Possible(w: Watch, t: Turn) {
    && !w.over && InOrder(t)
    && (t.Timer? ==> w.nextFire.Some? && SleepEnds(w.nextFire.value, t) <= t.at)
    && (t.Rotation? && w.nextFire.Some? ==> t.at < SleepEnds(w.nextFire.value, t))
  }

  /** The runs the loop can make under a clock that never goes back. */
  ghost predicate Feasible(debounce: nat, turns: seq<Turn>) {
    turns == [] ||
    var pre, t := turns[..|turns| - 1], turns[|turns| - 1];
    Feasible(debounce, pre) && Possible(Run(debounce, pre), t) && LastEnd(pre) <= Starts(t) <= Ends(t)
  }

  method RunWatchLoop(debounce: nat, turns: seq<Turn>)
    returns (calls: seq<FanOut>, latest: Option<nat>, nextFire: Option<nat>)
    requires Feasible(debounce, turns)
    ensures var w := Run(debounce, turns); calls == w.calls && latest == w.latest && nextFire == w.nextFire
  {
    OverIsLast(debounce, turns);
    calls, latest, nextFire := [], None, None;
    var i := 0;
    while i < |turns|
      invariant 0 <= i <= |turns|
      invariant Feasible(debounce, turns[..i])
      invariant var w := Run(debounce, turns[..i]); calls == w.calls && latest == w.latest && nextFire == w.nextFire
    {
      FeasiblePrefix(debounce, turns, i + 1);
      assert turns[..i + 1][..i] == turns[..i];
      match turns[i] {
        case Cancelled(_) => assert turns[..i + 1] == turns; return;
        case Timer(_, _, at) =>
          if latest.Some? { calls, latest := calls + [FanOut(latest.value, at, true)], None; }
          nextFire := None;
        case Rotation(_, _, _, armed, version) =>
          latest := Some(ParseVersion(version));
          if nextFire.None? { nextFire := Some(armed + debounce); }
        case Ended(at) =>
          if latest.Some? { calls, latest := calls + [FanOut(latest.value, at, false)], None; }
          assert turns[..i + 1] == turns;
          return;
      }
      i := i + 1;
    }
    assert turns[..|turns|] == turns;
  }

  lemma {:induction false} FeasiblePrefix(debounce: nat, turns: seq<Turn>, n: nat)
    requires Feasible(debounce, turns) && n <= |turns|
    ensures Feasible(debounce, turns[..n])
    decreases |turns|
  {
    if n < |turns| {
      FeasiblePrefix(debounce, turns[..|turns| - 1], n);
      assert turns[..|turns| - 1][..n] == turns[..n];
    } else {
      assert turns[..n] == turns;
    }
  }

  predicate Exits(t: Turn) {
    t.Cancelled? || t.Ended?
  }

  /** The loop is over exactly when its last turn was a cancellation or the end
      of the stream, and no earlier turn was. */
  lemma {:induction false} OverIsLast(debounce: nat, turns: seq<Turn>)
    requires Feasible(debounce, turns)
    ensures Run(debounce, turns).over <==> turns != [] && Exits(turns[|turns| - 1])
    ensures forall i :: 0 <= i < |turns| - 1 ==> !Exits(turns[i])
    decreases |turns|
  {
    if turns != [] {
      var pre := turns[..|turns| - 1];
      OverIsLast(debounce, pre);
      forall i | 0 <= i < |pre| ensures !Exits(turns[i]) { assert pre[i] == turns[i]; }
    }
  }

  // ----- Conservation of rotations -----

  /** The rotations the loop was handed. */
  function Rotations(turns: seq<Turn>): seq<Turn> {
    if turns == [] then []
    else Rotations(turns[..|turns| - 1]) + if turns[|turns| - 1].Rotation? then [turns[|turns| - 1]] else []
  }

  function Flat(batches: seq<seq<Turn>>): seq<Turn> {
    if batches == [] then [] else Flat(batches[..|batches| - 1]) + batches[|batches| - 1]
  }

  /** A batch and the fan-out made for it: the version is the last one's, and a
      timer waits out the whole window from the first. */
  ghost predicate Delivers(debounce: nat, batch: seq<Turn>, call: FanOut) {
    && batch != [] && (forall e :: e in batch ==> e.Rotation? && InOrder(e))
    && call.version == ParseVersion(batch[|batch| - 1].version)
    && (call.byTimer ==> batch[0].armed + debounce <= call.at)
  }

  /** What is collected but not yet fanned out. */
  ghost predicate Pending(debounce: nat, pending: seq<Turn>, latest: Option<nat>, nextFire: Option<nat>) {
    && (forall e :: e in pending ==> e.Rotation? && InOrder(e))
    && if pending == [] then latest == None && nextFire == None
       else latest == Some(ParseVersion(pending[|pending| - 1].version))
            && nextFire == Some(pending[0].armed + debounce)
  }

  /** How long the loop took from reading the clock to beginning its sleep. */
  function Gap(t: Turn): nat
    requires t.Rotation? && InOrder(t)
  {
    t.slept - t.top
  }

  /** Everything after a batch's first rotation falls inside its window, but for
      the gap of the turn that took it. */
  ghost predicate Spans(debounce: nat, batch: seq<Turn>) {
    && (forall e :: e in batch ==> e.Rotation? && InOrder(e))
    && forall k :: 0 < k < |batch| ==> batch[k].at < batch[0].armed + debounce + Gap(batch[k])
  }

  /** One fan-out per batch, in order, each made before the next batch began. */
  ghost predicate Matched(debounce: nat, batches: seq<seq<Turn>>, calls: seq<FanOut>) {
    && |batches| == |calls|
    && (forall i :: 0 <= i < |batches| ==> Delivers(debounce, batches[i], calls[i]))
    && (forall i :: 0 < i < |batches| ==> calls[i - 1].at <= batches[i][0].at)
  }

  /** Loop state `w` accounts for these rotations. */
  ghost predicate Accounts(debounce: nat, w: Watch, rotations: seq<Turn>, batches: seq<seq<Turn>>, pending: seq<Turn>) {
    && Flat(batches) + pending == rotations
    && Matched(debounce, batches, w.calls)
    && (forall i :: 0 <= i < |w.calls| && !w.calls[i].byTimer ==> i == |w.calls| - 1 && w.over)
    && (Pending(debounce, pending, w.latest, w.nextFire) || (w.over && pending == [] && w.latest.None?))
  }

  /** Bookkeeping for the induction: how late anything so far can be. */
  ghost predicate Timely(end: nat, calls: seq<FanOut>, pending: seq<Turn>) {
    && (forall c :: c in calls ==> c.at <= end)
    && (pending != [] && calls != [] ==> calls[|calls| - 1].at <= Starts(pending[0]))
  }

  ghost predicate WindowsHold(debounce: nat, batches: seq<seq<Turn>>, pending: seq<Turn>) {
    (forall b :: b in batches ==> Spans(debounce, b)) && Spans(debounce, pending)
  }

  lemma BatchAdded(batches: seq<seq<Turn>>, batch: seq<Turn>)
    ensures Flat(batches + [batch]) == Flat(batches) + batch
  {
    assert (batches + [batch])[..|batches|] == batches;
  }

  function Close(batches: seq<seq<Turn>>, pending: seq<Turn>): seq<seq<Turn>> {
    if pending == [] then batches else batches + [pending]
  }

  lemma FlatClosed(batches: seq<seq<Turn>>, pending: seq<Turn>)
    ensures Flat(Close(batches, pending)) + [] == Flat(batches) + pending
  {
    if pending != [] { BatchAdded(batches, pending); }
  }

  /** A fan-out closes the pending batch. */
  lemma Flushed(debounce: nat, w: Watch, t: Turn, end: nat, rotations: seq<Turn>, batches: seq<seq<Turn>>,
                pending: seq<Turn>)
    requires (t.Timer? || t.Ended?) && Possible(w, t) && end <= t.at
    requires Accounts(debounce, w, rotations, batches, pending) && Timely(end, w.calls, pending)
    ensures Accounts(debounce, Step(debounce, w, t), rotations, Close(batches, pending), [])
    ensures Timely(t.at, Step(debounce, w, t).calls, [])
  {
    FlushedInTime(debounce, w, t, end, pending);
    if pending == [] {
      FlushedNothing(debounce, w, t, rotations, batches);
    } else {
      FlushedBatch(debounce, w, t, end, rotations, batches, pending);
    }
  }

  lemma FlushedInTime(debounce: nat, w: Watch, t: Turn, end: nat, pending: seq<Turn>)
    requires (t.Timer? || t.Ended?) && end <= t.at && Timely(end, w.calls, pending)
    ensures Timely(t.at, Step(debounce, w, t).calls, [])
  {
  }

  lemma FlushedNothing(debounce: nat, w: Watch, t: Turn, rotations: seq<Turn>, batches: seq<seq<Turn>>)
    requires (t.Timer? || t.Ended?) && Possible(w, t) && Accounts(debounce, w, rotations, batches, [])
    ensures Accounts(debounce, Step(debounce, w, t), rotations, batches, [])
  {
  }

  lemma FlushedBatch(debounce: nat, w: Watch, t: Turn, end: nat, rotations: seq<Turn>, batches: seq<seq<Turn>>,
                     pending: seq<Turn>)
    requires (t.Timer? || t.Ended?) && Possible(w, t) && pending != []
    requires Accounts(debounce, w, rotations, batches, pending) && Timely(end, w.calls, pending)
    ensures Accounts(debounce, Step(debounce, w, t), rotations, batches + [pending], [])
  {
    FlatClosed(batches, pending);
    if t.Timer? { TimerWaits(w, t); }
    FirstPending(debounce, w, pending);
    BatchMatched(debounce, w, t, batches, pending);
  }

  lemma TimerWaits(w: Watch, t: Turn)
    requires t.Timer? && Possible(w, t)
    ensures w.nextFire.Some? && w.nextFire.value <= t.at
  {
  }

  lemma FirstPending(debounce: nat, w: Watch, pending: seq<Turn>)
    requires pending != [] && Pending(debounce, pending, w.latest, w.nextFire)
    ensures Starts(pending[0]) <= pending[0].at
  {
    assert pending[0] in pending;
  }

  lemma BatchMatched(debounce: nat, w: Watch, t: Turn, batches: seq<seq<Turn>>, pending: seq<Turn>)
    requires (t.Timer? || t.Ended?) && Matched(debounce, batches, w.calls)
    requires t.Timer? ==> w.nextFire.Some? && w.nextFire.value <= t.at
    requires pending != [] && Pending(debounce, pending, w.latest, w.nextFire)
    requires w.calls != [] ==> w.calls[|w.calls| - 1].at <= pending[0].at
    ensures Step(debounce, w, t).calls == w.calls + [FanOut(w.latest.value, t.at, t.Timer?)]
    ensures Matched(debounce, batches + [pending], Step(debounce, w, t).calls)
  {
    assert Delivers(debounce, pending, FanOut(w.latest.value, t.at, t.Timer?));
  }

  /** A rotation joins the pending batch, or opens one. */
  lemma Collected(debounce: nat, w: Watch, t: Turn, end: nat, rotations: seq<Turn>, batches: seq<seq<Turn>>,
                  pending: seq<Turn>)
    requires t.Rotation? && Possible(w, t) && end <= t.top
    requires Accounts(debounce, w, rotations, batches, pending) && Timely(end, w.calls, pending)
    ensures Accounts(debounce, Step(debounce, w, t), rotations + [t], batches, pending + [t])
    ensures Timely(t.armed, Step(debounce, w, t).calls, pending + [t])
  {
    assert Flat(batches) + (pending + [t]) == Flat(batches) + pending + [t];
    PendingGrows(debounce, w, t, pending);
  }

  lemma PendingGrows(debounce: nat, w: Watch, t: Turn, pending: seq<Turn>)
    requires t.Rotation? && InOrder(t) && Pending(debounce, pending, w.latest, w.nextFire)
    ensures var w' := Step(debounce, w, t); Pending(debounce, pending + [t], w'.latest, w'.nextFire)
    ensures Starts((pending + [t])[0]) == if pending == [] then t.top else Starts(pending[0])
  {
    forall e | e in pending + [t] ensures e.Rotation? && InOrder(e) {
      assert e in pending || e == t;
    }
  }

  /** The sleep that a rotation beat had begun a gap after the clock was read, so
      the rotation came before the deadline plus that gap. */
  lemma CollectedInWindow(debounce: nat, w: Watch, t: Turn, pending: seq<Turn>)
    requires t.Rotation? && Possible(w, t) && Pending(debounce, pending, w.latest, w.nextFire)
             && Spans(debounce, pending)
    ensures Spans(debounce, pending + [t])
  {
    var all := pending + [t];
    forall k | 0 < k < |all| ensures all[k].at < all[0].armed + debounce + Gap(all[k]) {
      if k == |pending| { assert w.nextFire == Some(all[0].armed + debounce); }
    }
  }

  /** Main result. In every run the rotations split into consecutive non-empty
      batches, one fan-out each, and what is still pending; a fan-out carries
      its batch's last version; a timer fan-out comes a whole window after its
      batch's first rotation was taken, and every rotation of a batch came
      within its window, but for the gap of the turn that took it;
      `latest` and the deadline are set together while the loop runs. The end of
      the stream leaves nothing pending; a cancellation loses the pending batch
      only. */
  lemma {:induction false} FanOutsPartitionRotations(debounce: nat, turns: seq<Turn>)
    returns (batches: seq<seq<Turn>>, pending: seq<Turn>)
    requires Feasible(debounce, turns)
    ensures var w := Run(debounce, turns);
            Accounts(debounce, w, Rotations(turns), batches, pending) && Timely(LastEnd(turns), w.calls, pending)
    ensures WindowsHold(debounce, batches, pending)
    ensures turns != [] && turns[|turns| - 1].Ended? ==> pending == []
    decreases |turns|
  {
    if turns == [] {
      batches, pending := [], [];
    } else {
      var pre := turns[..|turns| - 1];
      batches, pending := FanOutsPartitionRotations(debounce, pre);
      batches, pending := TurnPartitions(debounce, pre, turns, batches, pending);
    }
  }

  /** A cancellation changes nothing that is accounted for. */
  lemma CancelledKeeps(debounce: nat, w: Watch, t: Turn, end: nat, rotations: seq<Turn>, batches: seq<seq<Turn>>,
                       pending: seq<Turn>)
    requires t.Cancelled? && end <= t.at
    requires Accounts(debounce, w, rotations, batches, pending) && Timely(end, w.calls, pending)
    ensures Accounts(debounce, Step(debounce, w, t), rotations, batches, pending)
    ensures Timely(t.at, Step(debounce, w, t).calls, pending)
  {
  }

  lemma WindowsGrow(debounce: nat, w: Watch, t: Turn, rotations: seq<Turn>, batches: seq<seq<Turn>>,
                    pending: seq<Turn>)
    requires t.Rotation? && Possible(w, t) && Accounts(debounce, w, rotations, batches, pending)
    requires WindowsHold(debounce, batches, pending)
    ensures WindowsHold(debounce, batches, pending + [t])
  {
    CollectedInWindow(debounce, w, t, pending);
  }

  lemma WindowsClose(debounce: nat, batches: seq<seq<Turn>>, pending: seq<Turn>)
    requires WindowsHold(debounce, batches, pending)
    ensures WindowsHold(debounce, Close(batches, pending), [])
  {
  }

  lemma TurnPartitions(debounce: nat, pre: seq<Turn>, turns: seq<Turn>, batches: seq<seq<Turn>>, pending: seq<Turn>)
    returns (batches': seq<seq<Turn>>, pending': seq<Turn>)
    requires turns != [] && pre == turns[..|turns| - 1] && Feasible(debounce, turns)
    requires var w := Run(debounce, pre);
             Accounts(debounce, w, Rotations(pre), batches, pending) && Timely(LastEnd(pre), w.calls, pending)
    requires WindowsHold(debounce, batches, pending)
    ensures var w := Run(debounce, turns);
            Accounts(debounce, w, Rotations(turns), batches', pending') && Timely(LastEnd(turns), w.calls, pending')
    ensures WindowsHold(debounce, batches', pending')
    ensures turns[|turns| - 1].Ended? ==> pending' == []
  {
    hide Accounts, Timely, WindowsHold, Close;
    var t, w, end, seen := turns[|turns| - 1], Run(debounce, pre), LastEnd(pre), Rotations(pre);
    assert seen + [] == seen;
    match t {
      case Cancelled(_) =>
        CancelledKeeps(debounce, w, t, end, seen, batches, pending);
        batches', pending' := batches, pending;
      case Rotation(_, _, _, _, _) =>
        Collected(debounce, w, t, end, seen, batches, pending);
        WindowsGrow(debounce, w, t, seen, batches, pending);
        batches', pending' := batches, pending + [t];
      case _ =>
        Flushed(debounce, w, t, end, seen, batches, pending);
        WindowsClose(debounce, batches, pending);
        batches', pending' := Close(batches, pending), [];
    }
  }

  /** Fan-outs made by the timer are at least a window after the fan-out before. */
  lemma TimerFanOutsAreSpaced(debounce: nat, turns: seq<Turn>, i: nat)
    requires Feasible(debounce, turns) && 0 < i < |Run(debounce, turns).calls|
    ensures var calls := Run(debounce, turns).calls;
            calls[i].byTimer ==> calls[i - 1].at + debounce <= calls[i].at
    ensures Run(debounce, turns).calls[i - 1].byTimer
  {
    var batches, pending := FanOutsPartitionRotations(debounce, turns);
    assert Delivers(debounce, batches[i], Run(debounce, turns).calls[i]) && batches[i][0] in batches[i];
  }

  /** The gap is needed: however small, a rotation can join a batch that late. */
  lemma GapIsNeeded(debounce: nat, gap: nat)
    requires debounce > 0 && gap > 0
    ensures var late := debounce + gap - 1;
            var turns := [Rotation(0, 0, 0, 0, None), Rotation(0, gap, late, late, None), Timer(late, late, late)];
            && Feasible(debounce, turns) && |Run(debounce, turns).calls| == 1
            && Gap(turns[1]) == gap && turns[1].at == turns[0].armed + debounce + gap - 1
  {
    var late := debounce + gap - 1;
    var turns := [Rotation(0, 0, 0, 0, None), Rotation(0, gap, late, late, None), Timer(late, late, late)];
    assert turns[..2][..1] == turns[..1] && turns[..1][..0] == [];
    assert Run(debounce, []) == Watch(None, None, [], false) && Feasible(debounce, []);
    assert turns[..1] == [turns[0]] && LastEnd([]) == 0;
    assert Feasible(debounce, turns[..1]);
    assert Run(debounce, turns[..1]) == Watch(Some(0), Some(debounce), [], false);
    assert Feasible(debounce, turns[..2]);
    assert Run(debounce, turns[..2]) == Watch(Some(0), Some(debounce), [], false);
  }
}
