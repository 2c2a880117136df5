/** The health prober's bookkeeping: a failure streak per plugin, and the state
    changes it asks the registry for. The streak is a 32-bit counter; in a build
    without overflow checks its increment wraps, which is what the loop here
    does, and in a build with them it stops the prober (`Overflows`). */
module HealthProber {

  datatype ProbeOutcome = Pass | Fail | Timeout | Skipped | Unsupported | NotFound

  datatype Probe = Probe(plugin: string, outcome: ProbeOutcome)

  /** A request to the registry; whether it is a no-op there is not part of
      this model. */
  datatype Mark = Degraded(plugin: string) | Active(plugin: string)

  const U32: nat := 0x1_0000_0000

  predicate IsFailure(o: ProbeOutcome) {
    o.Fail? || o.Timeout?
  }

  // ----- The history a streak stands for -----

  /** Failures of `plugin` since its last pass. */
  function FailuresSincePass(plugin: string, probes: seq<Probe>): nat {
    if probes == [] then 0
    else
      var p, before := probes[|probes| - 1], FailuresSincePass(plugin, probes[..|probes| - 1]);
      if p.plugin != plugin then before
      else if p.outcome.Pass? then 0
      else if IsFailure(p.outcome) then before + 1
      else before
  }

  /** What the registry is asked after the last of these probes: to activate on
      every pass, to degrade on a failure whose streak, as a 32-bit counter
      shows it, has reached the threshold. */
  function MarkAfter(threshold: nat, probes: seq<Probe>): seq<Mark>
    requires probes != []
  {
    var p := probes[|probes| - 1];
    if p.outcome.Pass? then [Active(p.plugin)]
    else if IsFailure(p.outcome) && FailuresSincePass(p.plugin, probes) % U32 >= threshold then [Degraded(p.plugin)]
    else []
  }

  function MarksOf(threshold: nat, probes: seq<Probe>): seq<Mark> {
    if probes == [] then [] else MarksOf(threshold, probes[..|probes| - 1]) + MarkAfter(threshold, probes)
  }

  /** The map holds each plugin's streak, and an entry for just the plugins that
      failed since they last passed. */
  ghost predicate Tracks(streaks: map<string, nat>, probes: seq<Probe>) {
    forall plugin ::
      && (plugin in streaks <==> FailuresSincePass(plugin, probes) > 0)
      && (plugin in streaks ==> streaks[plugin] == FailuresSincePass(plugin, probes) % U32)
  }

  // ----- The prober -----

  /** One turn of the inner loop: what the stop flag read, then the probe. */
  datatype Slot = Slot(stop: bool, probe: Probe)

  /** One turn of the outer loop. */
  datatype Cycle = Cycle(stop: bool, slots: seq<Slot>)

  function Ran(slots: seq<Slot>): seq<Probe> {
    if slots == [] || slots[0].stop then [] else [slots[0].probe] + Ran(slots[1..])
  }

  /** The probes a run of the prober makes: a stop seen inside a cycle ends that
      cycle, one seen between cycles ends the run. */
  function Probed(cycles: seq<Cycle>): seq<Probe> {
    if cycles == [] || cycles[0].stop then [] else Ran(cycles[0].slots) + Probed(cycles[1..])
  }

  /** One probe's outcome, entered in the books. */
  method Record(threshold: nat, before: map<string, nat>, p: Probe, ghost probes: seq<Probe>)
    returns (streaks: map<string, nat>, marks: seq<Mark>)
    requires Tracks(before, probes)
    ensures Tracks(streaks, probes + [p])
    ensures marks == MarkAfter(threshold, probes + [p])
  {
    assert (probes + [p])[..|probes|] == probes;
    streaks, marks := before, [];
    if IsFailure(p.outcome) {
      var streak := if p.plugin in streaks then streaks[p.plugin] else 0;
      streaks := streaks[p.plugin := (streak + 1) % U32];
      if streaks[p.plugin] >= threshold { marks := [Degraded(p.plugin)]; }
    } else if p.outcome.Pass? {
      streaks := streaks - {p.plugin};
      marks := [Active(p.plugin)];
    }
  }

  lemma NextSlot(threshold: nat, slots: seq<Slot>, i: nat, done: seq<Probe>) returns (done': seq<Probe>)
    requires i < |slots| && !slots[i].stop
    ensures done' == done + [slots[i].probe] && done' + Ran(slots[i + 1..]) == done + Ran(slots[i..])
    ensures MarksOf(threshold, done') == MarksOf(threshold, done) + MarkAfter(threshold, done')
  {
    done' := done + [slots[i].probe];
    assert done'[..|done|] == done;
    assert Ran(slots[i..]) == [slots[i].probe] + Ran(slots[i + 1..]);
  }

  method ProbeCycle(threshold: nat, slots: seq<Slot>, before: map<string, nat>, asked: seq<Mark>,
                    ghost probes: seq<Probe>)
    returns (streaks: map<string, nat>, marks: seq<Mark>)
    requires Tracks(before, probes) && asked == MarksOf(threshold, probes)
    ensures Tracks(streaks, probes + Ran(slots)) && marks == MarksOf(threshold, probes + Ran(slots))
  {
    streaks, marks := before, asked;
    ghost var done := probes;
    var i := 0;
    while i < |slots| && !slots[i].stop
      invariant 0 <= i <= |slots|
      invariant done + Ran(slots[i..]) == probes + Ran(slots)
      invariant Tracks(streaks, done) && marks == MarksOf(threshold, done)
    {
      var more;
      streaks, more := Record(threshold, streaks, slots[i].probe, done);
      marks := marks + more;
      done := NextSlot(threshold, slots, i, done);
      i := i + 1;
    }
    assert done + Ran(slots[i..]) == done;
  }

  /** The whole run: the streaks are exactly the failures since the last pass,
      and the registry is asked exactly what the history calls for, in order. */
  method RunProber(threshold: nat, cycles: seq<Cycle>) returns (streaks: map<string, nat>, marks: seq<Mark>)
    ensures Tracks(streaks, Probed(cycles)) && marks == MarksOf(threshold, Probed(cycles))
  {
    streaks, marks := map[], [];
    ghost var done: seq<Probe> := [];
    var i := 0;
    while i < |cycles| && !cycles[i].stop
      invariant 0 <= i <= |cycles|
      invariant done + Probed(cycles[i..]) == Probed(cycles)
      invariant Tracks(streaks, done) && marks == MarksOf(threshold, done)
    {
      streaks, marks := ProbeCycle(threshold, cycles[i].slots, streaks, marks, done);
      done := NextCycle(cycles, i, done);
      i := i + 1;
    }
    assert done + Probed(cycles[i..]) == done;
  }

  lemma NextCycle(cycles: seq<Cycle>, i: nat, done: seq<Probe>) returns (done': seq<Probe>)
    requires i < |cycles| && !cycles[i].stop
    ensures done' == done + Ran(cycles[i].slots)
    ensures done' + Probed(cycles[i + 1..]) == done + Probed(cycles[i..])
  {
    done' := done + Ran(cycles[i].slots);
    assert Probed(cycles[i..]) == Ran(cycles[i].slots) + Probed(cycles[i + 1..]);
  }

  // ----- The bookkeeping, counted out -----

  predicate FailsFor(plugin: string, p: Probe) {
    p.plugin == plugin && (p.outcome == Fail || p.outcome == Timeout)
  }

  /** The probes from `from` on in which `plugin` failed or ran out of time. */
  ghost function FailedFrom(plugin: string, probes: seq<Probe>, from: nat): set<int> {
    set i | from <= i < |probes| && FailsFor(plugin, probes[i])
  }

  /** The probes from `from` on are those since `plugin` last passed. */
  ghost predicate LastPassedBefore(plugin: string, probes: seq<Probe>, from: nat) {
    && from <= |probes| && (from > 0 ==> probes[from - 1] == Probe(plugin, Pass))
    && forall i :: from <= i < |probes| ==> probes[i] != Probe(plugin, Pass)
  }

  lemma FailedGrows(plugin: string, probes: seq<Probe>, from: nat)
    requires from < |probes|
    ensures |FailedFrom(plugin, probes, from)|
         == |FailedFrom(plugin, probes[..|probes| - 1], from)| + if FailsFor(plugin, probes[|probes| - 1]) then 1 else 0
  {
    var n := |probes| - 1;
    var failed := FailedFrom(plugin, probes[..n], from);
    assert n !in failed;
    assert FailedFrom(plugin, probes, from) == if FailsFor(plugin, probes[n]) then failed + {n} else failed;
  }

  lemma {:induction false} StreakCounts(plugin: string, probes: seq<Probe>, from: nat)
    requires LastPassedBefore(plugin, probes, from)
    ensures FailuresSincePass(plugin, probes) == |FailedFrom(plugin, probes, from)|
    decreases |probes|
  {
    if from == |probes| {
      assert FailedFrom(plugin, probes, from) == {};
    } else {
      hide FailedFrom;
      var pre, p := probes[..|probes| - 1], probes[|probes| - 1];
      StreakCounts(plugin, pre, from);
      FailedGrows(plugin, probes, from);
      assert p != Probe(plugin, Pass);
    }
  }

  /** The request after a history, counted out: to activate on a pass; on a
      failure or a timeout, to degrade if the failures and timeouts since the
      last pass, modulo 2^32, reach the threshold; nothing otherwise. */
  lemma MarkIs(threshold: nat, probes: seq<Probe>, from: nat)
    requires probes != [] && LastPassedBefore(probes[|probes| - 1].plugin, probes, from)
    ensures var p := probes[|probes| - 1];
            var failed := FailedFrom(p.plugin, probes, from);
            MarkAfter(threshold, probes)
            == if p.outcome == Pass then [Active(p.plugin)]
               else if (p.outcome == Fail || p.outcome == Timeout) && |failed| % 0x1_0000_0000 >= threshold
               then [Degraded(p.plugin)]
               else []
  {
    StreakCounts(probes[|probes| - 1].plugin, probes, from);
  }

  /** A cycle is cut short by the first stop in it. */
  lemma {:induction false} CycleRunsUpToStop(slots: seq<Slot>, n: nat)
    requires n <= |slots| && (forall i :: 0 <= i < n ==> !slots[i].stop) && (n < |slots| ==> slots[n].stop)
    ensures |Ran(slots)| == n && forall i :: 0 <= i < n ==> Ran(slots)[i] == slots[i].probe
    decreases |slots|
  {
    if n > 0 { CycleRunsUpToStop(slots[1..], n - 1); }
  }

  /** A run makes its cycles one after another, whether or not one was cut short,
      up to the first stop between two of them. */
  lemma {:induction false} RunIsItsCycles(cycles: seq<Cycle>, n: nat)
    requires n < |cycles| && forall i :: 0 <= i < n ==> !cycles[i].stop
    ensures Probed(cycles[..n + 1]) == Probed(cycles[..n]) + if cycles[n].stop then [] else Ran(cycles[n].slots)
    ensures cycles[n].stop ==> Probed(cycles) == Probed(cycles[..n])
    decreases n
  {
    if n == 0 {
      assert cycles[..1][1..] == [];
    } else {
      RunIsItsCycles(cycles[1..], n - 1);
      assert cycles[..n + 1][1..] == cycles[1..][..n] && cycles[..n][1..] == cycles[1..][..n - 1];
    }
  }

  // ----- When a failing plugin is marked degraded -----

  /** What the threshold promises: a failed probe asks for degradation if and
      only if it completes at least `threshold` failures since the last pass. */
  ghost predicate KeepsPromise(threshold: nat, probes: seq<Probe>)
    requires probes != []
  {
    var p := probes[|probes| - 1];
    Degraded(p.plugin) in MarkAfter(threshold, probes) <==>
      IsFailure(p.outcome) && FailuresSincePass(p.plugin, probes) >= threshold
  }

  lemma {:induction false} FailuresAreProbes(plugin: string, probes: seq<Probe>)
    ensures FailuresSincePass(plugin, probes) <= |probes|
    decreases |probes|
  {
    if probes != [] { FailuresAreProbes(plugin, probes[..|probes| - 1]); }
  }

  function Failing(plugin: string, n: nat): seq<Probe> {
    seq(n, i => Probe(plugin, Fail))
  }

  lemma {:induction false} FailingCounts(plugin: string, n: nat)
    ensures FailuresSincePass(plugin, Failing(plugin, n)) == n
    decreases n
  {
    if n > 0 {
      assert Failing(plugin, n)[..n - 1] == Failing(plugin, n - 1);
      FailingCounts(plugin, n - 1);
    }
  }

  /** A streak of 2^32 failures reads as zero where additions wrap: whatever the
      threshold, the failure that completes it asks for nothing. */
  lemma FullStreakIsForgotten(plugin: string, threshold: nat)
    requires 0 < threshold < U32
    ensures var probes := Failing(plugin, U32);
            FailuresSincePass(plugin, probes) >= threshold && !KeepsPromise(threshold, probes)
  {
    FailingCounts(plugin, U32);
    assert Failing(plugin, U32)[U32 - 1] == Probe(plugin, Fail);
  }

  /** Where additions wrap, the threshold's promise is kept over every history of
      at most `n` probes if and only if `n` is less than 2^32. */
  lemma PromiseKeptIffNoWrap(threshold: nat, n: nat)
    requires 0 < threshold < U32
    ensures (forall probes :: 0 < |probes| <= n ==> KeepsPromise(threshold, probes)) <==> n < U32
  {
    if n < U32 {
      forall probes: seq<Probe> | 0 < |probes| <= n ensures KeepsPromise(threshold, probes) {
        FailuresAreProbes(probes[|probes| - 1].plugin, probes);
      }
    } else {
      FullStreakIsForgotten("", threshold);
      assert |Failing("", U32)| == U32;
    }
  }

  /** Where additions are checked, the increment at which the prober stops. */
  predicate Overflows(probes: seq<Probe>)
    requires probes != []
  {
    var p := probes[|probes| - 1];
    IsFailure(p.outcome) && FailuresSincePass(p.plugin, probes) == U32
  }

  /** There it stops in no history of at most `n` probes if and only if `n` is
      less than 2^32, and until it stops the promise is kept. */
  lemma CheckedAdditionsStopIff(threshold: nat, n: nat, probes: seq<Probe>)
    ensures (forall ps :: 0 < |ps| <= n ==> !Overflows(ps)) <==> n < U32
    ensures probes != [] && (forall m :: 0 < m <= |probes| ==> !Overflows(probes[..m])) ==>
              KeepsPromise(threshold, probes)
  {
    if n < U32 {
      forall ps: seq<Probe> | 0 < |ps| <= n ensures !Overflows(ps) { FailuresAreProbes(ps[|ps| - 1].plugin, ps); }
    } else {
      FailingCounts("", U32);
      assert Overflows(Failing("", U32)) && |Failing("", U32)| == U32;
    }
    if probes != [] && forall m :: 0 < m <= |probes| ==> !Overflows(probes[..m]) {
      StreakStaysShort(probes[|probes| - 1].plugin, probes);
    }
  }

  lemma {:induction false} StreakStaysShort(plugin: string, probes: seq<Probe>)
    requires forall m :: 0 < m <= |probes| ==> !Overflows(probes[..m])
    ensures FailuresSincePass(plugin, probes) < U32
    decreases |probes|
  {
    if probes != [] {
      var pre := probes[..|probes| - 1];
      assert forall m :: 0 < m <= |pre| ==> pre[..m] == probes[..m];
      StreakStaysShort(plugin, pre);
      assert probes[..|probes|] == probes && !Overflows(probes[..|probes|]);
    }
  }
}
