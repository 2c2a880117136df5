/** The allowlists derived from a configuration: the issuers it names, and the
    exact issuer/target pairs, from bare references and from interpolation
    tokens alike. */
module CredentialAllowlist {
  import opened Wrappers
  import opened Json
  import opened CredentialCache
  import opened CredentialResolver
  import opened CredentialResolverProperties
  import Framing

  /** `parse` reads a whole string as a reference; `tokens` finds the
      interpolation tokens inside one. */
  datatype Grammar = Grammar(parse: string -> Option<CredRef>, tokens: string -> seq<string>)

  function RefKey(issuer: string, target: string): string {
    issuer + "/" + target
  }

  function IssuerOf(): CredRef -> string {
    (r: CredRef) => r.pluginId
  }

  function PairOf(): CredRef -> string {
    (r: CredRef) => RefKey(r.pluginId, r.target)
  }

  // ----- What a document names -----

  /** Reference `r` is this string, or one of the tokens inside it. */
  ghost predicate Names(g: Grammar, s: string, r: CredRef) {
    g.parse(s) == Some(r) || exists t :: t in g.tokens(s) && g.parse(t) == Some(r)
  }

  ghost predicate Mentions(g: Grammar, j: Value, r: CredRef) {
    exists s :: s in Leaves(j) && Names(g, s, r)
  }

  /** What `of` says about each reference the document mentions. */
  ghost predicate Collects(g: Grammar, of: CredRef -> string, j: Value, out: set<string>) {
    forall x :: x in out <==> exists r :: Mentions(g, j, r) && of(r) == x
  }

  // ----- The collectors -----

  function OfText(g: Grammar, of: CredRef -> string, s: string): set<string> {
    (if g.parse(s).Some? then {of(g.parse(s).value)} else {}) +
    set t | t in g.tokens(s) && g.parse(t).Some? :: of(g.parse(t).value)
  }

  function Collect(g: Grammar, of: CredRef -> string, j: Value): set<string>
    decreases j
  {
    match j
    case Str(s) => OfText(g, of, s)
    case Arr(items) => CollectAll(g, of, items)
    case Obj(_, items) => CollectAll(g, of, items)
    case _ => {}
  }

  function CollectAll(g: Grammar, of: CredRef -> string, items: seq<Value>): set<string>
    decreases items
  {
    if items == [] then {} else CollectAll(g, of, items[..|items| - 1]) + Collect(g, of, items[|items| - 1])
  }

  method CollectFromText(g: Grammar, of: CredRef -> string, s: string, before: set<string>) returns (out: set<string>)
    ensures out == before + OfText(g, of, s)
  {
    out := before;
    if g.parse(s).Some? { out := out + {of(g.parse(s).value)}; }
    ghost var bare := out;
    var tokens := g.tokens(s);
    for i := 0 to |tokens|
      invariant out == bare + set t | t in tokens[..i] && g.parse(t).Some? :: of(g.parse(t).value)
    {
      assert tokens[..i + 1] == tokens[..i] + [tokens[i]];
      if g.parse(tokens[i]).Some? { out := out + {of(g.parse(tokens[i]).value)}; }
    }
    assert tokens[..|tokens|] == tokens;
  }

  /** The recursive collector, adding to the set it is handed. */
  method CollectWalk(g: Grammar, of: CredRef -> string, j: Value, before: set<string>) returns (out: set<string>)
    ensures out == before + Collect(g, of, j)
    decreases j
  {
    match j {
      case Str(s) => out := CollectFromText(g, of, s, before);
      case Arr(items) => out := CollectItems(g, of, items, before);
      case Obj(_, items) => out := CollectItems(g, of, items, before);
      case _ => out := before;
    }
  }

  method CollectItems(g: Grammar, of: CredRef -> string, items: seq<Value>, before: set<string>)
    returns (out: set<string>)
    ensures out == before + CollectAll(g, of, items)
    decreases items
  {
    out := before;
    for i := 0 to |items|
      invariant out == before + CollectAll(g, of, items[..i])
    {
      out := CollectWalk(g, of, items[i], out);
      assert items[..i + 1][..i] == items[..i];
    }
    assert items[..|items|] == items;
  }

  method CollectCredIssuers(g: Grammar, j: Value) returns (out: set<string>)
    ensures forall x :: x in out <==> exists r :: Mentions(g, j, r) && r.pluginId == x
  {
    out := CollectWalk(g, IssuerOf(), j, {});
    CollectIsExact(g, IssuerOf(), j);
  }

  method CollectCredRefs(g: Grammar, j: Value) returns (out: set<string>)
    ensures forall x :: x in out <==> exists r :: Mentions(g, j, r) && r.pluginId + "/" + r.target == x
  {
    out := CollectWalk(g, PairOf(), j, {});
    CollectIsExact(g, PairOf(), j);
  }

  lemma OfTextIsExact(g: Grammar, of: CredRef -> string, s: string, x: string)
    ensures x in OfText(g, of, s) <==> exists r :: Names(g, s, r) && of(r) == x
  {
    if x in OfText(g, of, s) {
      if g.parse(s).Some? && of(g.parse(s).value) == x {
        assert Names(g, s, g.parse(s).value);
      } else {
        var t :| t in g.tokens(s) && g.parse(t).Some? && of(g.parse(t).value) == x;
        assert Names(g, s, g.parse(t).value);
      }
    }
  }

  lemma {:induction false} CollectedOfLeaf(g: Grammar, of: CredRef -> string, j: Value, x: string)
    ensures x in Collect(g, of, j) <==> exists s :: s in Leaves(j) && x in OfText(g, of, s)
    decreases j
  {
    if j.Str? { assert j.s in Leaves(j); }
    if j.Arr? || j.Obj? { CollectedOfLeaves(g, of, j.items, x); }
  }

  lemma {:induction false} CollectedOfLeaves(g: Grammar, of: CredRef -> string, items: seq<Value>, x: string)
    ensures x in CollectAll(g, of, items) <==> exists s :: s in LeavesAll(items) && x in OfText(g, of, s)
    decreases items
  {
    if items != [] {
      CollectedOfLeaves(g, of, items[..|items| - 1], x);
      CollectedOfLeaf(g, of, items[|items| - 1], x);
    }
  }

  /** Exactly what the document mentions is collected, at any depth and in
      either form. */
  lemma CollectIsExact(g: Grammar, of: CredRef -> string, j: Value)
    ensures Collects(g, of, j, Collect(g, of, j))
  {
    forall x ensures x in Collect(g, of, j) <==> exists r :: Mentions(g, j, r) && of(r) == x {
      CollectedOfLeaf(g, of, j, x);
      if x in Collect(g, of, j) {
        var s :| s in Leaves(j) && x in OfText(g, of, s);
        OfTextIsExact(g, of, s, x);
        var r :| Names(g, s, r) && of(r) == x;
        assert Mentions(g, j, r);
      }
      if r :| Mentions(g, j, r) && of(r) == x {
        var s :| s in Leaves(j) && Names(g, s, r);
        OfTextIsExact(g, of, s, x);
      }
    }
  }

  // ----- What the allowlists are worth -----

  ghost predicate SlashFreeIssuers(g: Grammar) {
    forall s :: g.parse(s).Some? ==> '/' !in g.parse(s).value.pluginId
  }

  lemma RefKeyInjective(a: string, x: string, b: string, y: string)
    requires '/' !in a && '/' !in b && RefKey(a, x) == RefKey(b, y)
    ensures a == b && x == y
  {
    Framing.FirstSplitIsUnique('/', a, x, b, y);
  }

  /** Neither issuer, followed by a slash, begins the other. */
  predicate Apart(a: string, b: string) {
    !(a + "/" <= b + "/") && !(b + "/" <= a + "/")
  }

  /** Two issuers can share a key if and only if one followed by a slash begins
      the other followed by a slash. */
  lemma RefKeysCollideIff(a: string, b: string)
    ensures (exists x, y :: RefKey(a, x) == RefKey(b, y)) <==> !Apart(a, b)
  {
    Framing.HeadsMeetIff(a + "/", b + "/");
    if a + "/" <= b + "/" || b + "/" <= a + "/" {
      var x: string, y: string :| a + "/" + x == b + "/" + y;
      assert RefKey(a, x) == RefKey(b, y);
    }
  }

  ghost predicate MentionsPair(g: Grammar, j: Value, issuer: string, target: string) {
    exists r :: Mentions(g, j, r) && r.pluginId == issuer && r.target == target
  }

  /** Every other issuer the document mentions is apart from this one. */
  ghost predicate OthersApart(g: Grammar, j: Value, issuer: string) {
    forall r :: Mentions(g, j, r) ==> r.pluginId == issuer || Apart(issuer, r.pluginId)
  }

  /** The gate is exact: a pair's key is on the list precisely when the document
      mentions that very pair, not one that merely prints the same. */
  lemma GateIsExact(g: Grammar, j: Value, issuer: string, target: string)
    requires OthersApart(g, j, issuer)
    ensures RefKey(issuer, target) in Collect(g, PairOf(), j) <==> MentionsPair(g, j, issuer, target)
  {
    CollectIsExact(g, PairOf(), j);
    if RefKey(issuer, target) in Collect(g, PairOf(), j) {
      var r :| Mentions(g, j, r) && PairOf()(r) == RefKey(issuer, target);
      RefKeysCollideIff(issuer, r.pluginId);
      assert r.pluginId == issuer;
      assert RefKey(issuer, target)[|issuer| + 1..] == target && RefKey(issuer, r.target)[|issuer| + 1..] == r.target;
    }
    if r :| Mentions(g, j, r) && r.pluginId == issuer && r.target == target {
      assert PairOf()(r) == RefKey(issuer, target);
    }
  }

  ghost predicate ExactBeside(a: string, b: string) {
    forall g: Grammar, j, target ::
      (forall r :: Mentions(g, j, r) ==> r.pluginId in {a, b}) ==>
        (RefKey(a, target) in Collect(g, PairOf(), j) <==> MentionsPair(g, j, a, target))
  }

  /** Beside another issuer the gate is exact, over all grammars, documents and
      targets, if and only if the two are apart. */
  lemma GateIsExactIffApart(a: string, b: string)
    requires a != b
    ensures ExactBeside(a, b) <==> Apart(a, b)
  {
    if Apart(a, b) {
      forall g: Grammar, j, target | forall r :: Mentions(g, j, r) ==> r.pluginId in {a, b}
        ensures RefKey(a, target) in Collect(g, PairOf(), j) <==> MentionsPair(g, j, a, target)
      {
        GateIsExact(g, j, a, target);
      }
    } else {
      RefKeysCollideIff(a, b);
      var x, y :| RefKey(a, x) == RefKey(b, y);
      CollidingPairPasses(a, x, b, y);
    }
  }

  /** A document naming one pair lets the other of the same key through. */
  lemma CollidingPairPasses(a: string, x: string, b: string, y: string)
    requires a != b && RefKey(a, x) == RefKey(b, y)
    ensures !ExactBeside(a, b)
  {
    var ref := CredRef(b, y, None);
    var g, j := Grammar(_ => Some(ref), _ => []), Str("");
    assert forall r :: Mentions(g, j, r) ==> r == ref;
    assert PairOf()(ref) in OfText(g, PairOf(), "");
    assert RefKey(a, x) in Collect(g, PairOf(), j) && !MentionsPair(g, j, a, x);
  }

  /** Issuers without a slash are apart. */
  lemma SlashFreeIssuersAreApart(g: Grammar, j: Value, issuer: string)
    requires SlashFreeIssuers(g) && '/' !in issuer
    ensures OthersApart(g, j, issuer)
  {
    forall r | Mentions(g, j, r) && r.pluginId != issuer ensures Apart(issuer, r.pluginId) {
      var s :| s in Leaves(j) && Names(g, s, r);
      if g.parse(s) != Some(r) {
        var t :| t in g.tokens(s) && g.parse(t) == Some(r);
      }
      if !Apart(issuer, r.pluginId) {
        RefKeysCollideIff(issuer, r.pluginId);
        var x, y :| RefKey(issuer, x) == RefKey(r.pluginId, y);
        RefKeyInjective(issuer, x, r.pluginId, y);
      }
    }
  }

  /** The issuer list is the projection of the pair list. */
  lemma IssuersAreProjection(g: Grammar, j: Value, issuer: string)
    requires OthersApart(g, j, issuer)
    ensures issuer in Collect(g, IssuerOf(), j) <==> exists target :: RefKey(issuer, target) in Collect(g, PairOf(), j)
  {
    CollectIsExact(g, IssuerOf(), j);
    if issuer in Collect(g, IssuerOf(), j) {
      var r :| Mentions(g, j, r) && IssuerOf()(r) == issuer;
      GateIsExact(g, j, issuer, r.target);
    }
    if target :| RefKey(issuer, target) in Collect(g, PairOf(), j) {
      GateIsExact(g, j, issuer, target);
      var r :| Mentions(g, j, r) && r.pluginId == issuer && r.target == target;
      assert IssuerOf()(r) == issuer;
    }
  }

  // ----- The walker stays within the lists of the document it walks -----

  ghost predicate AskedAbout(env: Env, st: Session, now: Session, leaves: seq<string>) {
    st.issued <= now.issued && forall p :: p in now.issued[|st.issued|..] ==> PairOfLeaf(env, leaves, p)
  }

  ghost predicate PairOfLeaf(env: Env, leaves: seq<string>, p: (string, string)) {
    exists s :: s in leaves && env.parse(s).Some? && (env.parse(s).value.pluginId, env.parse(s).value.target) == p
  }

  lemma {:induction false} RunAsksAboutLeaves(env: Env, config: Config, st: Session, leaves: seq<string>)
    ensures AskedAbout(env, st, LeafRun(env, config, st, leaves).session, leaves)
    decreases |leaves|
  {
    if leaves != [] {
      var n := |leaves| - 1;
      var before := LeafRun(env, config, st, leaves[..n]).session;
      RunAsksAboutLeaves(env, config, st, leaves[..n]);
      LeafAsksAboutItself(env, config, before, leaves[n]);
      var now := LeafRun(env, config, st, leaves).session;
      assert leaves[n] in leaves;
      forall p | p in now.issued[|st.issued|..] ensures PairOfLeaf(env, leaves, p) {
        if p in before.issued[|st.issued|..] {
          var s :| s in leaves[..n] && env.parse(s).Some?
                 && (env.parse(s).value.pluginId, env.parse(s).value.target) == p;
        }
      }
    }
  }

  lemma LeafAsksAboutItself(env: Env, config: Config, now: Session, s: string)
    ensures var now' := ResolveText(env, config, now, s).0;
            || now'.issued == now.issued
            || (env.parse(s).Some? &&
                now'.issued == now.issued + [(env.parse(s).value.pluginId, env.parse(s).value.target)])
  {
  }

  /** Coverage: whatever pair a walk of `j` asks an issuer about, and whatever
      reference it finds in a leaf of `j`, is on both lists collected from `j`. */
  lemma WalkStaysOnAllowlist(g: Grammar, env: Env, config: Config, st: Session, j: Value)
    requires env.parse == g.parse
    ensures var now := Walk(env, config, st, j).session;
            && st.issued <= now.issued
            && (forall p :: p in now.issued[|st.issued|..] ==>
                  RefKey(p.0, p.1) in Collect(g, PairOf(), j) && p.0 in Collect(g, IssuerOf(), j))
    ensures forall s :: s in Leaves(j) && env.parse(s).Some? ==>
              var r := env.parse(s).value;
              RefKey(r.pluginId, r.target) in Collect(g, PairOf(), j) && r.pluginId in Collect(g, IssuerOf(), j)
  {
    forall s | s in Leaves(j) && env.parse(s).Some?
      ensures var r := env.parse(s).value;
              RefKey(r.pluginId, r.target) in Collect(g, PairOf(), j) && r.pluginId in Collect(g, IssuerOf(), j)
    {
      var r := env.parse(s).value;
      assert Names(g, s, r) && Mentions(g, j, r);
      CollectIsExact(g, PairOf(), j);
      CollectIsExact(g, IssuerOf(), j);
      assert PairOf()(r) == RefKey(r.pluginId, r.target) && IssuerOf()(r) == r.pluginId;
    }
    WalkIsLeafRun(env, config, st, j);
    RunAsksAboutLeaves(env, config, st, Leaves(j));
    var now := Walk(env, config, st, j).session;
    forall p | p in now.issued[|st.issued|..]
      ensures RefKey(p.0, p.1) in Collect(g, PairOf(), j) && p.0 in Collect(g, IssuerOf(), j)
    {
      var s :| s in Leaves(j) && env.parse(s).Some? && (env.parse(s).value.pluginId, env.parse(s).value.target) == p;
    }
  }
}
