/** The plugin lifecycle: a table of permitted transitions, the object that
    enforces it, and what every run of that object has passed through. */
module Lifecycle {
  import opened Wrappers

  datatype PluginState =
    | Discovered | Installed | Verified | Compatible | Configured | Enabled | Initialized
    | Active | Degraded | Disabled | Unloaded | Rejected | Failed | Draining

  datatype LifecycleError = InvalidTransition(from: PluginState, to: PluginState) | Terminal(state: PluginState)

  predicate IsTerminal(s: PluginState) {
    s.Rejected? || s.Failed?
  }

  predicate ServesTraffic(s: PluginState) {
    s.Active? || s.Degraded?
  }

  /** The single source of truth for permitted transitions. */
  predicate TransitionAllowed(from: PluginState, to: PluginState) {
    || (from, to) in {(Discovered, Installed), (Installed, Verified), (Verified, Compatible), (Compatible, Configured),
                      (Configured, Enabled), (Enabled, Initialized), (Initialized, Active)}
    || (from in {Active, Degraded, Initialized} && to == Disabled)
    || (from == Disabled && to == Enabled)
    || (from == Active && to == Degraded) || (from == Degraded && to == Active)
    || (from in {Active, Degraded} && to == Draining)
    || (from == Draining && to in {Disabled, Active})
    || (from in {Installed, Verified, Compatible, Configured} && to == Rejected)
    || (from in {Enabled, Initialized, Active, Degraded, Draining, Configured, Compatible, Verified, Installed}
        && to == Failed)
    || (from in {Installed, Verified, Compatible, Configured, Enabled, Initialized, Active, Degraded, Draining,
                 Disabled, Failed, Rejected}
        && to == Unloaded)
    || (from == Unloaded && to == Discovered)
  }

  /** State by state, all that may follow. */
  lemma MovesFrom(from: PluginState, to: PluginState)
    ensures TransitionAllowed(from, to) <==>
            to in match from
                  case Discovered => {Installed}
                  case Installed => {Verified, Rejected, Failed, Unloaded}
                  case Verified => {Compatible, Rejected, Failed, Unloaded}
                  case Compatible => {Configured, Rejected, Failed, Unloaded}
                  case Configured => {Enabled, Rejected, Failed, Unloaded}
                  case Enabled => {Initialized, Failed, Unloaded}
                  case Initialized => {Active, Disabled, Failed, Unloaded}
                  case Active => {Degraded, Disabled, Draining, Failed, Unloaded}
                  case Degraded => {Active, Disabled, Draining, Failed, Unloaded}
                  case Disabled => {Enabled, Unloaded}
                  case Draining => {Active, Disabled, Failed, Unloaded}
                  case Failed => {Unloaded}
                  case Rejected => {Unloaded}
                  case Unloaded => {Discovered}
  {}

  /** The boot path, in order. */
  const BOOT := [Discovered, Installed, Verified, Compatible, Configured, Enabled, Initialized]

  // ----- Runs -----

  /** The states a lifecycle has been in, oldest first. */
  ghost predicate IsRun(run: seq<PluginState>) {
    && run != [] && run[0] == Discovered
    && forall i :: 0 < i < |run| ==> TransitionAllowed(run[i - 1], run[i])
  }

  class Lifecycle {
    const pluginId: string
    var state: PluginState
    ghost var Run: seq<PluginState>

    ghost predicate Valid()
      reads this
    {
      IsRun(Run) && state == Run[|Run| - 1]
    }

    constructor (pluginId: string)
      ensures Valid() && this.pluginId == pluginId && Run == [Discovered]
    {
      this.pluginId := pluginId;
      state := Discovered;
      Run := [Discovered];
    }

    method Transition(to: PluginState) returns (r: Result<PluginState, LifecycleError>)
      requires Valid()
      modifies this
      ensures Valid()
      ensures if TransitionAllowed(old(state), to) then r == Ok(old(state)) && Run == old(Run) + [to]
              else r == Err(InvalidTransition(old(state), to)) && Run == old(Run)
    {
      if !TransitionAllowed(state, to) { return Err(InvalidTransition(state, to)); }
      r := Ok(state);
      state := to;
      Run := Run + [to];
    }

    /** From every state of the boot path to the next, and from its end to
        Active; refused elsewhere. */
    method Advance() returns (r: Result<PluginState, LifecycleError>)
      requires Valid()
      modifies this
      ensures Valid()
      ensures old(state) in BOOT ==> r == Ok(old(state)) && |Run| == |old(Run)| + 1 && Run[..|old(Run)|] == old(Run)
      ensures forall k :: 0 <= k < |BOOT| && old(state) == BOOT[k] ==>
                state == if k + 1 < |BOOT| then BOOT[k + 1] else Active
      ensures old(state) !in BOOT ==> r == Err(InvalidTransition(old(state), old(state))) && Run == old(Run)
    {
      var next;
      match state {
        case Discovered => next := Installed;
        case Installed => next := Verified;
        case Verified => next := Compatible;
        case Compatible => next := Configured;
        case Configured => next := Enabled;
        case Enabled => next := Initialized;
        case Initialized => next := Active;
        case other =>
          assert other !in BOOT;
          return Err(InvalidTransition(other, other));
      }
      r := Transition(next);
    }

    /** Refused in two states beyond the documented ones: the comment promises
        every non-terminal state but Unloaded, the table leaves out Discovered
        and Disabled. */
    method Fail() returns (r: Result<PluginState, LifecycleError>)
      requires Valid()
      modifies this
      ensures Valid()
      ensures r.Ok? <==> !IsTerminal(old(state)) && old(state) !in {Unloaded, Discovered, Disabled}
      ensures r.Ok? ==> state == Failed && Run == old(Run) + [Failed]
      ensures r.Err? ==> r.error == InvalidTransition(old(state), Failed) && Run == old(Run)
    {
      r := Transition(Failed);
    }

    method Reject() returns (r: Result<PluginState, LifecycleError>)
      requires Valid()
      modifies this
      ensures Valid()
      ensures r.Ok? <==> old(state) in {Installed, Verified, Compatible, Configured}
      ensures r.Ok? ==> state == Rejected && Run == old(Run) + [Rejected]
      ensures r.Err? ==> r.error == InvalidTransition(old(state), Rejected) && Run == old(Run)
    {
      r := Transition(Rejected);
    }
  }

  // ----- What a run has passed through -----

  ghost predicate LastDiscovery(run: seq<PluginState>, d: nat, i: nat)
    requires i < |run|
  {
    d <= i && run[d] == Discovered && forall k :: d < k <= i ==> run[k] != Discovered
  }

  /** From index `d` the run went through the whole boot path, in order. */
  ghost predicate Booted(run: seq<PluginState>, d: nat, i: int)
    requires i < |run|
  {
    d + |BOOT| <= i + 1 && run[d..d + |BOOT|] == BOOT
  }

  /** Still on the boot path for the first time. */
  ghost predicate Booting(run: seq<PluginState>, d: nat, i: nat)
    requires i < |run|
  {
    d <= i < d + |BOOT| && run[d..i + 1] == BOOT[..i + 1 - d] && run[i] == BOOT[i - d]
  }

  predicate Gone(s: PluginState) {
    s in {Unloaded, Rejected, Failed}
  }

  /** States only a booted plugin can be in, or be in again. */
  predicate Runs(s: PluginState) {
    s in {Enabled, Initialized, Active, Degraded, Disabled, Draining}
  }

  /** What one permitted step does, seen from the boot path. */
  lemma StepFromBoot(n: nat, to: PluginState)
    requires 0 < n <= |BOOT| && TransitionAllowed(BOOT[n - 1], to)
    ensures Gone(to) || (n < |BOOT| && to == BOOT[n]) || (n == |BOOT| && to in {Active, Disabled})
  {
  }

  lemma StepFromRunning(from: PluginState, to: PluginState)
    requires Runs(from) && TransitionAllowed(from, to)
    ensures Gone(to) || Runs(to)
  {
  }

  /** At every point of a run, since the last discovery: still booting, or
      booted, or out of service until rediscovered. */
  lemma {:induction false} Phases(run: seq<PluginState>, i: nat) returns (d: nat)
    requires IsRun(run) && i < |run|
    ensures LastDiscovery(run, d, i)
    ensures Gone(run[i]) || Booting(run, d, i) || (Booted(run, d, i - 1) && Runs(run[i]))
    decreases i
  {
    if run[i] == Discovered {
      d := i;
      assert run[i..i + 1] == BOOT[..1];
    } else {
      d := Phases(run, i - 1);
      assert TransitionAllowed(run[i - 1], run[i]);
      if Booting(run, d, i - 1) {
        StepFromBoot(i - d, run[i]);
        assert run[d..i + 1] == run[d..i] + [run[i]];
      } else if !Gone(run[i - 1]) {
        StepFromRunning(run[i - 1], run[i]);
      }
    }
  }

  /** Main result: a plugin that serves, drains or is disabled has, since it was
      last discovered, first gone through Installed to Initialized, each once
      and in order. */
  lemma RunningHasBooted(run: seq<PluginState>, i: nat) returns (d: nat)
    requires IsRun(run) && i < |run|
    requires ServesTraffic(run[i]) || run[i] in {Draining, Disabled}
    ensures LastDiscovery(run, d, i) && d + |BOOT| <= i && run[d..d + |BOOT|] == BOOT
  {
    d := Phases(run, i);
  }

  /** The same of a live object, whatever was called on it. */
  lemma ServingObjectHasBooted(l: Lifecycle) returns (d: nat)
    requires l.Valid() && ServesTraffic(l.state)
    ensures d + |BOOT| < |l.Run| && l.Run[d..d + |BOOT|] == BOOT
  {
    d := RunningHasBooted(l.Run, |l.Run| - 1);
  }

  /** A failed or rejected plugin serves again only after being unloaded,
      rediscovered, and taken through the whole boot path once more. */
  lemma TerminalRecoversByRediscovery(run: seq<PluginState>, i: nat, j: nat) returns (d: nat)
    requires IsRun(run) && i < j < |run| && IsTerminal(run[i]) && ServesTraffic(run[j])
    ensures i + 2 <= d && d + |BOOT| <= j && run[i + 1] == Unloaded && run[i + 2] == Discovered
    ensures run[d..d + |BOOT|] == BOOT
  {
    assert TransitionAllowed(run[i], run[i + 1]);
    assert i + 2 <= j && TransitionAllowed(run[i + 1], run[i + 2]);
    d := RunningHasBooted(run, j);
  }
}
