/** Dispatch-bound identities: a bridge per plugin alias hands out nonces, keeps
    the set of dispatches still running, and signs the identity it passes on. */
module HostBridge {
  import opened Wrappers
  import opened NumberText
  import opened IdentitySig

  /** The liveness test a callback passes to the tag check. */
  function Among(live: set<nat>): nat -> bool {
    n => n in live
  }

  /** The in-flight nonces, shared between a bridge and its guards. */
  class LiveDispatches {
    var nonces: set<nat>

    constructor ()
      ensures nonces == {}
    {
      nonces := {};
    }
  }

  class DispatchGuard {
    const live: LiveDispatches
    const nonce: nat

    constructor (live: LiveDispatches, nonce: nat)
      ensures this.live == live && this.nonce == nonce
    {
      this.live, this.nonce := live, nonce;
    }

    /** What dropping the guard does. */
    method Drop()
      modifies live
      ensures live.nonces == old(live.nonces) - {nonce}
    {
      live.nonces := live.nonces - {nonce};
    }
  }

  class Bridge {
    const crypto: Crypto
    const alias: string
    const live: LiveDispatches
    var nextDispatch: nat

    constructor (crypto: Crypto, alias: string)
      ensures this.crypto == crypto && this.alias == alias && fresh(live)
      ensures View() == FRESH
    {
      this.crypto, this.alias, nextDispatch := crypto, alias, 1;
      live := new LiveDispatches();
    }

    ghost function View(): Dispatches
      reads this, live
    {
      Dispatches(nextDispatch, live.nonces)
    }

    method BeginDispatch(identity: Identity) returns (signed: Identity, guard: DispatchGuard)
      modifies this, live
      ensures View() == Begun(old(View()))
      ensures fresh(guard) && guard.live == live && guard.nonce == old(nextDispatch)
      ensures signed == Sign(crypto, identity, alias, guard.nonce)
    {
      var nonce := nextDispatch;
      nextDispatch := (nextDispatch + 1) % U64;
      live.nonces := live.nonces + {nonce};
      signed := Sign(crypto, identity, alias, nonce);
      guard := new DispatchGuard(live, nonce);
    }

    /** The check every host callback makes on a relayed identity. */
    method Accept(relayed: Identity) returns (r: Option<Identity>)
      ensures r == VerifyStrip(crypto, relayed, alias, Among(live.nonces))
      ensures r.Some? ==> IsStripped(r.value, relayed)
    {
      var nonces := live.nonces;
      r := Verify(crypto, relayed, alias, Among(nonces));
    }

    /** The same where a call may carry no identity at all: what is not
        accepted becomes a call without one. */
    method AcceptOrNone(relayed: Option<Identity>) returns (r: Option<Identity>)
      ensures r == VerifiedOrNone(crypto, relayed, alias, Among(live.nonces))
      ensures r.Some? ==> relayed.Some? && IsStripped(r.value, relayed.value)
    {
      if relayed.None? { return None; }
      r := Accept(relayed.value);
    }
  }

  // ----- The protocol over many bridges -----

  /** One bridge's allocator and live set; the allocator wraps at 64 bits. */
  datatype Dispatches = Dispatches(next: nat, live: set<nat>)

  const FRESH := Dispatches(1, {})

  function Begun(d: Dispatches): Dispatches {
    Dispatches((d.next + 1) % U64, d.live + {d.next})
  }

  /** What was signed, for whom, under which dispatch. */
  datatype Mint = Mint(identity: Identity, alias: string, nonce: nat)

  /** One bridge per alias, and a log of everything ever signed. */
  datatype World = World(bridges: map<string, Dispatches>, minted: set<Mint>)

  datatype Step =
    | Begin(alias: string, identity: Identity)
    | DropGuard(alias: string, nonce: nat)

  ghost predicate Enabled(w: World, step: Step) {
    step.alias in w.bridges
  }

  ghost function Next(w: World, step: Step): World
    requires Enabled(w, step)
  {
    var d := w.bridges[step.alias];
    match step
    case Begin(alias, identity) =>
      World(w.bridges[alias := Begun(d)], w.minted + {Mint(identity, alias, d.next)})
    case DropGuard(alias, nonce) => w.(bridges := w.bridges[alias := d.(live := d.live - {nonce})])
  }

  /** `steps` lead from `w` to `v`. */
  ghost predicate Leads(w: World, steps: seq<Step>, v: World)
    decreases |steps|
  {
    if steps == [] then v == w
    else Enabled(w, steps[0]) && Leads(Next(w, steps[0]), steps[1..], v)
  }

  ghost function Start(aliases: set<string>): World {
    World(map a | a in aliases :: FRESH, {})
  }

  /** Fewer dispatches than nonces: the allocator has not wrapped. */
  ghost predicate NotWrapped(steps: seq<Step>) {
    |steps| + 1 < U64
  }

  ghost predicate WellMinted(w: World, spent: nat) {
    && (forall a :: a in w.bridges ==> 1 <= w.bridges[a].next <= spent + 1)
    && (forall a, n :: a in w.bridges && n in w.bridges[a].live ==>
          n < w.bridges[a].next && exists m :: m in w.minted && m.alias == a && m.nonce == n)
    && (forall m :: m in w.minted ==> m.alias in w.bridges && 1 <= m.nonce < w.bridges[m.alias].next)
    && (forall m, k :: m in w.minted && k in w.minted && m.alias == k.alias && m.nonce == k.nonce ==> m == k)
  }

  lemma NextWellMinted(w: World, step: Step, spent: nat)
    requires WellMinted(w, spent) && Enabled(w, step) && spent + 2 < U64
    ensures WellMinted(Next(w, step), spent + 1)
  {
    var w' := Next(w, step);
    forall a, n | a in w'.bridges && n in w'.bridges[a].live
      ensures n < w'.bridges[a].next && exists m :: m in w'.minted && m.alias == a && m.nonce == n
    {
      if step.Begin? && step.alias == a && n == w.bridges[a].next {
        assert Mint(step.identity, a, n) in w'.minted;
      } else {
        assert n in w.bridges[a].live;
        var m :| m in w.minted && m.alias == a && m.nonce == n;
        assert m in w'.minted;
      }
    }
  }

  lemma {:induction false} RunWellMinted(w: World, steps: seq<Step>, v: World, spent: nat)
    requires WellMinted(w, spent) && Leads(w, steps, v) && spent + |steps| + 1 < U64
    ensures WellMinted(v, spent + |steps|)
    decreases |steps|
  {
    if steps != [] {
      NextWellMinted(w, steps[0], spent);
      RunWellMinted(Next(w, steps[0]), steps[1..], v, spent + 1);
    }
  }

  // ----- Soundness: only live, signed identities are accepted -----

  ghost function SignedData(c: Crypto, m: Mint): Bytes {
    MacData(c, m.identity, m.alias, m.nonce)
  }

  /** A relayer without the key: a MAC value it presents was computed by the
      host for some signed identity, or is the MAC of nothing. */
  ghost predicate CanRelay(c: Crypto, w: World, relayed: Identity) {
    PresentedTag(relayed).Some? ==>
      forall data :: c.hash(data) == PresentedTag(relayed).value.1 ==>
        exists m :: m in w.minted && SignedData(c, m) == data
  }

  /** Over every run and whatever is relayed, an identity accepted for an alias
      is the one that a dispatch still live toward that alias signed, on every
      field and every attribute but the tag; so is what was relayed, and no
      other mint carries that dispatch. */
  lemma AcceptedIsLiveAndSigned(c: Crypto, aliases: set<string>, steps: seq<Step>, w: World, alias: string,
                                relayed: Identity)
    returns (m: Mint)
    requires Ideal(c) && Leads(Start(aliases), steps, w) && NotWrapped(steps)
    requires alias in w.bridges && CanRelay(c, w, relayed)
    requires VerifyStrip(c, relayed, alias, Among(w.bridges[alias].live)).Some?
    ensures m in w.minted && m.alias == alias && m.nonce in w.bridges[alias].live
    ensures IsStripped(VerifyStrip(c, relayed, alias, Among(w.bridges[alias].live)).value, m.identity)
    ensures SameButTag(relayed, m.identity)
    ensures forall k :: k in w.minted && k.alias == alias && k.nonce == m.nonce ==> k == m
  {
    RunWellMinted(Start(aliases), steps, w, 0);
    var (dispatch, mac) := PresentedTag(relayed).value;
    assert c.hash(MacData(c, relayed, alias, dispatch)) == mac;
    m :| m in w.minted && SignedData(c, m) == MacData(c, relayed, alias, dispatch);
    ParsedDispatchFits(relayed);
    MacDataInjective(c, m.identity, m.alias, m.nonce, relayed, alias, dispatch);
    BareIff(relayed, m.identity);
  }

  lemma ParsedDispatchFits(id: Identity)
    requires PresentedTag(id).Some?
    ensures PresentedTag(id).value.0 < U64
  {
    var (_, rest) := SplitOnce(id.attributes[SIG_ATTR], ':').value;
    var (hex, _) := SplitOnce(rest, ':').value;
    assert ParseDigits(if hex[0] == '+' then hex[1..] else hex, 16).Some?;
  }

  // ----- Completeness and retirement over the rest of a run -----

  lemma {:induction false} StaysLive(w: World, steps: seq<Step>, v: World, alias: string, nonce: nat)
    requires Leads(w, steps, v) && alias in w.bridges && nonce in w.bridges[alias].live
    requires DropGuard(alias, nonce) !in steps
    ensures alias in v.bridges && nonce in v.bridges[alias].live
    decreases |steps|
  {
    if steps != [] { StaysLive(Next(w, steps[0]), steps[1..], v, alias, nonce); }
  }

  lemma {:induction false} StaysRetired(w: World, steps: seq<Step>, v: World, alias: string, nonce: nat)
    requires Leads(w, steps, v) && alias in w.bridges && nonce !in w.bridges[alias].live
    requires nonce < w.bridges[alias].next && w.bridges[alias].next + |steps| < U64
    ensures alias in v.bridges && nonce !in v.bridges[alias].live
    decreases |steps|
  {
    if steps != [] { StaysRetired(Next(w, steps[0]), steps[1..], v, alias, nonce); }
  }

  /** The tag of a dispatch verifies at every later moment of every run in
      which its guard is still held, to the identity that was signed. */
  lemma TagVerifiesWhileGuardHeld(c: Crypto, w: World, identity: Identity, alias: string, steps: seq<Step>, v: World)
    returns (r: Identity)
    requires alias in w.bridges && w.bridges[alias].next < U64
    requires Leads(Next(w, Begin(alias, identity)), steps, v)
    requires DropGuard(alias, w.bridges[alias].next) !in steps
    ensures alias in v.bridges
    ensures VerifyStrip(c, Sign(c, identity, alias, w.bridges[alias].next), alias, Among(v.bridges[alias].live))
         == Some(r)
    ensures IsStripped(r, identity)
    ensures SIG_ATTR !in identity.attributes ==> r == identity
  {
    var nonce := w.bridges[alias].next;
    StaysLive(Next(w, Begin(alias, identity)), steps, v, alias, nonce);
    SignedVerifiesWhileLive(c, identity, alias, nonce, Among(v.bridges[alias].live));
    r := VerifyStrip(c, Sign(c, identity, alias, nonce), alias, Among(v.bridges[alias].live)).value;
  }

  /** Once a guard is dropped, no identity naming its dispatch is accepted for
      that alias again, at any later moment before the allocator wraps. */
  lemma DroppedDispatchNeverVerifies(c: Crypto, aliases: set<string>, before: seq<Step>, w: World, alias: string,
                                     nonce: nat, after: seq<Step>, v: World, relayed: Identity)
    requires Leads(Start(aliases), before, w) && alias in w.bridges && nonce in w.bridges[alias].live
    requires Leads(Next(w, DropGuard(alias, nonce)), after, v) && |before| + |after| + 2 < U64
    requires PresentedTag(relayed).Some? && PresentedTag(relayed).value.0 == nonce
    ensures alias in v.bridges
    ensures VerifyStrip(c, relayed, alias, Among(v.bridges[alias].live)) == None
  {
    RunWellMinted(Start(aliases), before, w, 0);
    StaysRetired(Next(w, DropGuard(alias, nonce)), after, v, alias, nonce);
  }

  // ----- When the allocator wraps -----

  function Begins(alias: string, identity: Identity, n: nat): seq<Step> {
    seq(n, _ => Begin(alias, identity))
  }

  lemma LeadsPrepend(w: World, step: Step, steps: seq<Step>, v: World)
    requires Enabled(w, step) && Leads(Next(w, step), steps, v)
    ensures Leads(w, [step] + steps, v)
  {
    assert ([step] + steps)[1..] == steps;
  }

  lemma CountOn(next: nat, n: nat)
    ensures ((next + 1) % U64 + n) % U64 == (next + 1 + n) % U64
  {
  }

  /** The dispatches begun are counted modulo 2^64. */
  lemma {:induction false} BeginsCycle(w: World, alias: string, identity: Identity, n: nat) returns (v: World)
    requires alias in w.bridges && w.bridges[alias].next < U64
    ensures Leads(w, Begins(alias, identity, n), v) && alias in v.bridges
    ensures v.bridges[alias].next == (w.bridges[alias].next + n) % 0x1_0000_0000_0000_0000
    ensures w.bridges[alias].live <= v.bridges[alias].live
    decreases n
  {
    if n == 0 {
      v := w;
    } else {
      hide Leads;
      var first := Begin(alias, identity);
      CountOn(w.bridges[alias].next, n - 1);
      v := BeginsCycle(Next(w, first), alias, identity, n - 1);
      LeadsPrepend(w, first, Begins(alias, identity, n - 1), v);
      assert Begins(alias, identity, n) == [first] + Begins(alias, identity, n - 1);
    }
  }

  lemma {:induction false} LeadsThrough(w: World, first: seq<Step>, u: World, second: seq<Step>, v: World)
    requires Leads(w, first, u) && Leads(u, second, v)
    ensures Leads(w, first + second, v)
    decreases |first|
  {
    if first == [] {
      assert first + second == second;
    } else {
      LeadsThrough(Next(w, first[0]), first[1..], u, second, v);
      assert (first + second)[1..] == first[1..] + second;
    }
  }

  /** The bound in `DroppedDispatchNeverVerifies` is needed. After 2^64 further
      dispatches the number of a dropped guard is live again, and what was
      signed under it verifies. */
  lemma WrapRevivesTag(c: Crypto, w: World, alias: string, identity: Identity, other: Identity)
    returns (after: seq<Step>, v: World)
    requires alias in w.bridges && w.bridges[alias].next < U64
    ensures |after| == 1 + 0x1_0000_0000_0000_0000
    ensures Leads(Next(w, Begin(alias, identity)), after, v)
    ensures after[0] == DropGuard(alias, w.bridges[alias].next)
    ensures forall i :: 1 <= i < |after| ==> after[i] == Begin(alias, other)
    ensures alias in v.bridges
    ensures VerifyStrip(c, Sign(c, identity, alias, w.bridges[alias].next), alias,
                        Among(v.bridges[alias].live)).Some?
  {
    hide Leads, Sign, VerifyStrip;
    var n := w.bridges[alias].next;
    var begun := Next(w, Begin(alias, identity));
    var dropped := Next(begun, DropGuard(alias, n));
    var around := BeginsCycle(dropped, alias, other, U64 - 1);
    assert around.bridges[alias].next == n;
    v := OneMore(around, alias, other);
    LeadsThrough(dropped, Begins(alias, other, U64 - 1), around, [Begin(alias, other)], v);
    after := [DropGuard(alias, n)] + (Begins(alias, other, U64 - 1) + [Begin(alias, other)]);
    LeadsPrepend(begun, DropGuard(alias, n), Begins(alias, other, U64 - 1) + [Begin(alias, other)], v);
    SignedVerifiesWhileLive(c, identity, alias, n, Among(v.bridges[alias].live));
  }

  lemma OneMore(w: World, alias: string, identity: Identity) returns (v: World)
    requires alias in w.bridges
    ensures Leads(w, [Begin(alias, identity)], v)
    ensures alias in v.bridges && w.bridges[alias].next in v.bridges[alias].live
  {
    v := Next(w, Begin(alias, identity));
    assert [Begin(alias, identity)][1..] == [];
  }

  // ----- Why one bridge per alias -----

  lemma {:induction false} BeginsCount(w: World, alias: string, identity: Identity, n: nat) returns (v: World)
    requires alias in w.bridges && w.bridges[alias].next + n < U64
    ensures Leads(w, Begins(alias, identity, n), v) && alias in v.bridges
    ensures w.bridges[alias].live <= v.bridges[alias].live
    ensures forall i :: w.bridges[alias].next <= i < w.bridges[alias].next + n ==> i in v.bridges[alias].live
    decreases n
  {
    if n == 0 {
      v := w;
    } else {
      var first := Begin(alias, identity);
      v := BeginsCount(Next(w, first), alias, identity, n - 1);
      assert Begins(alias, identity, n)[0] == first
             && Begins(alias, identity, n)[1..] == Begins(alias, identity, n - 1);
    }
  }

  /** Two bridges for one alias. The first, after any run, begins a dispatch and
      drops its guard, so it refuses the tag. The second need only have begun as
      many dispatches of its own, and accepts it: for as long as its own guard
      of that number is held. */
  lemma {:induction false} TwinBridgeRevivesTag(c: Crypto, alias: string, identity: Identity,
                                                 other: Identity, before: seq<Step>, w: World)
    returns (first: World, twin: World)
    requires Leads(Start({alias}), before, w) && alias in w.bridges && |before| + 3 < U64
    ensures Leads(w, [Begin(alias, identity), DropGuard(alias, w.bridges[alias].next)], first)
    ensures alias in first.bridges && VerifyStrip(c, Sign(c, identity, alias, w.bridges[alias].next), alias,
                                                  Among(first.bridges[alias].live)) == None
    ensures Leads(Start({alias}), Begins(alias, other, w.bridges[alias].next), twin)
    ensures alias in twin.bridges && VerifyStrip(c, Sign(c, identity, alias, w.bridges[alias].next), alias,
                                                 Among(twin.bridges[alias].live)).Some?
  {
    var n := w.bridges[alias].next;
    RunWellMinted(Start({alias}), before, w, 0);
    var begun := Next(w, Begin(alias, identity));
    first := Next(begun, DropGuard(alias, n));
    var steps := [Begin(alias, identity), DropGuard(alias, n)];
    assert steps[1..] == [DropGuard(alias, n)] && steps[1..][1..] == [];
    assert Leads(begun, steps[1..], first);
    twin := BeginsCount(Start({alias}), alias, other, n);
    SignedVerifiesWhileLive(c, identity, alias, n, Among(first.bridges[alias].live));
    SignedVerifiesWhileLive(c, identity, alias, n, Among(twin.bridges[alias].live));
  }
}
