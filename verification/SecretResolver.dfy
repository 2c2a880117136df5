/** Secret references in a configuration tree: every string leaf naming a bound
    scheme is replaced by the secret its provider returns when the walk comes to
    that leaf. This module says what the walk computes and what that means. */
module SecretResolver {
  import opened Wrappers
  import opened Json

  datatype Answer = Utf8(text: string) | NotUtf8 | Failed(error: string)

  /** `parse` splits `scheme://rest`; `get` is what a provider answers for a
      reference at the n-th string the walk comes to, so that two occurrences of
      one reference may get different answers. */
  datatype Registry =
    Registry(parse: string -> Option<(string, string)>, bound: string -> bool, get: (string, nat) -> Answer)

  /** A string leaf and the walk's count of strings when it comes to it. */
  datatype Look = Look(text: string, turn: nat)

  datatype Failure = Failure(ref: string, error: string)

  datatype Report = Report(expanded: nat, failures: seq<Failure>, skipped: set<string>, resolved: set<string>)

  const EMPTY := Report(0, [], {}, {})
  const NOT_UTF8 := "secret value is not valid UTF-8; cannot replace JSON string"

  predicate BoundRef(reg: Registry, s: string) {
    reg.parse(s).Some? && reg.bound(reg.parse(s).value.0)
  }

  predicate Expands(reg: Registry, look: Look) {
    BoundRef(reg, look.text) && reg.get(look.text, look.turn).Utf8?
  }

  /** What a string leaf becomes. */
  function After(reg: Registry, look: Look): string {
    if Expands(reg, look) then reg.get(look.text, look.turn).text else look.text
  }

  /** What a string leaf adds to the report. */
  function Account(reg: Registry, r: Report, look: Look): Report {
    var s := look.text;
    match reg.parse(s)
    case None => r
    case Some((scheme, _)) =>
      if !reg.bound(scheme) then r.(skipped := r.skipped + {scheme})
      else match reg.get(s, look.turn)
           case Utf8(_) => r.(expanded := r.expanded + 1, resolved := r.resolved + {s})
           case NotUtf8 => r.(failures := r.failures + [Failure(s, NOT_UTF8)])
           case Failed(e) => r.(failures := r.failures + [Failure(s, e)])
  }

  // ----- The recursive specification -----

  function Size(j: Value): nat {
    |Leaves(j)|
  }

  /** Same shape, same keys, same order; each string leaf substituted once, the
      strings of a container's last child before those of its first. */
  function Resolve(reg: Registry, j: Value, turn: nat): Value
    decreases j
  {
    match j
    case Str(s) => Str(After(reg, Look(s, turn)))
    case Arr(items) => Arr(ResolveAll(reg, items, turn))
    case Obj(keys, items) => Obj(keys, ResolveAll(reg, items, turn))
    case _ => j
  }

  function ResolveAll(reg: Registry, items: seq<Value>, turn: nat): seq<Value>
    decreases items
  {
    if items == [] then []
    else
      var n := |items| - 1;
      ResolveAll(reg, items[..n], turn + Size(items[n])) + [Resolve(reg, items[n], turn)]
  }

  /** The strings in the order the stack visits them: last child first. */
  function Visit(j: Value, turn: nat): seq<Look>
    decreases j
  {
    match j
    case Str(s) => [Look(s, turn)]
    case Arr(items) => VisitAll(items, turn)
    case Obj(_, items) => VisitAll(items, turn)
    case _ => []
  }

  function VisitAll(items: seq<Value>, turn: nat): seq<Look>
    decreases items
  {
    if items == [] then []
    else
      var n := |items| - 1;
      Visit(items[n], turn) + VisitAll(items[..n], turn + Size(items[n]))
  }

  /** The same looks in document order. */
  function Looks(j: Value, turn: nat): seq<Look>
    decreases j
  {
    match j
    case Str(s) => [Look(s, turn)]
    case Arr(items) => LooksAll(items, turn)
    case Obj(_, items) => LooksAll(items, turn)
    case _ => []
  }

  function LooksAll(items: seq<Value>, turn: nat): seq<Look>
    decreases items
  {
    if items == [] then []
    else
      var n := |items| - 1;
      LooksAll(items[..n], turn + Size(items[n])) + Looks(items[n], turn)
  }

  function ReportOf(reg: Registry, visited: seq<Look>): Report {
    if visited == [] then EMPTY
    else Account(reg, ReportOf(reg, visited[..|visited| - 1]), visited[|visited| - 1])
  }

  // ----- What the substitution means -----

  ghost predicate TextsOf(looks: seq<Look>, leaves: seq<string>) {
    |looks| == |leaves| && forall i :: 0 <= i < |looks| ==> looks[i].text == leaves[i]
  }

  lemma {:induction false} LooksAreLeaves(j: Value, turn: nat)
    ensures TextsOf(Looks(j, turn), Leaves(j))
    decreases j
  {
    if j.Arr? || j.Obj? { AllLooksAreLeaves(j.items, turn); }
  }

  lemma {:induction false} AllLooksAreLeaves(items: seq<Value>, turn: nat)
    ensures TextsOf(LooksAll(items, turn), LeavesAll(items))
    decreases items
  {
    if items != [] {
      var n := |items| - 1;
      AllLooksAreLeaves(items[..n], turn + Size(items[n]));
      LooksAreLeaves(items[n], turn);
    }
  }

  /** The visits are numbered one after another. */
  ghost predicate NumberedFrom(visits: seq<Look>, turn: nat, size: nat) {
    |visits| == size && forall i :: 0 <= i < |visits| ==> visits[i].turn == turn + i
  }

  lemma {:induction false} VisitsAreNumbered(j: Value, turn: nat)
    ensures NumberedFrom(Visit(j, turn), turn, Size(j))
    decreases j
  {
    if j.Arr? || j.Obj? { AllVisitsAreNumbered(j.items, turn); }
  }

  lemma {:induction false} AllVisitsAreNumbered(items: seq<Value>, turn: nat)
    ensures NumberedFrom(VisitAll(items, turn), turn, |LeavesAll(items)|)
    decreases items
  {
    if items != [] {
      var n := |items| - 1;
      VisitsAreNumbered(items[n], turn);
      AllVisitsAreNumbered(items[..n], turn + Size(items[n]));
    }
  }

  ghost predicate BackwardsFrom(visits: seq<Look>, looks: seq<Look>, leaves: seq<string>, turn: nat) {
    && |visits| == |looks| == |leaves|
    && (forall i :: 0 <= i < |leaves| ==> looks[i] == Look(leaves[i], turn + |leaves| - 1 - i))
    && (forall i :: 0 <= i < |leaves| ==> visits[i] == Look(leaves[|leaves| - 1 - i], turn + i))
  }

  lemma BackwardsJoin(lastVisits: seq<Look>, lastLooks: seq<Look>, last: seq<string>,
                      visits: seq<Look>, looks: seq<Look>, leaves: seq<string>, turn: nat)
    requires BackwardsFrom(lastVisits, lastLooks, last, turn)
    requires BackwardsFrom(visits, looks, leaves, turn + |last|)
    ensures BackwardsFrom(lastVisits + visits, looks + lastLooks, leaves + last, turn)
  {
  }

  /** The stack takes the last string of the document first: of `n` strings, the
      one with index `i` comes at turn `n - 1 - i`. */
  lemma {:induction false} WalkIsBackwards(j: Value, turn: nat)
    ensures BackwardsFrom(Visit(j, turn), Looks(j, turn), Leaves(j), turn)
    decreases j
  {
    if j.Arr? || j.Obj? { WalkOfAllIsBackwards(j.items, turn); }
  }

  lemma {:induction false} WalkOfAllIsBackwards(items: seq<Value>, turn: nat)
    ensures BackwardsFrom(VisitAll(items, turn), LooksAll(items, turn), LeavesAll(items), turn)
    decreases items
  {
    if items != [] {
      hide BackwardsFrom;
      var init, last, rest := items[..|items| - 1], items[|items| - 1], turn + Size(items[|items| - 1]);
      WalkIsBackwards(last, turn);
      WalkOfAllIsBackwards(init, rest);
      BackwardsJoin(Visit(last, turn), Looks(last, turn), Leaves(last),
                    VisitAll(init, rest), LooksAll(init, rest), LeavesAll(init), turn);
    }
  }

  /** Stack order and document order hold the same looks equally often. */
  lemma {:induction false} VisitCountsLooks(p: Look -> bool, j: Value, turn: nat)
    ensures Count(p, Visit(j, turn)) == Count(p, Looks(j, turn))
    decreases j
  {
    if j.Arr? || j.Obj? { VisitAllCountsLooks(p, j.items, turn); }
  }

  lemma LastIsVisitedFirst(items: seq<Value>, turn: nat)
    requires items != []
    ensures var n := |items| - 1;
            var rest := turn + Size(items[n]);
            && VisitAll(items, turn) == Visit(items[n], turn) + VisitAll(items[..n], rest)
            && LooksAll(items, turn) == LooksAll(items[..n], rest) + Looks(items[n], turn)
  {
  }

  lemma {:induction false} VisitAllCountsLooks(p: Look -> bool, items: seq<Value>, turn: nat)
    ensures Count(p, VisitAll(items, turn)) == Count(p, LooksAll(items, turn))
    decreases items
  {
    if items != [] {
      hide Visit, VisitAll, Looks, LooksAll, Leaves, LeavesAll, Count;
      var n := |items| - 1;
      var rest := turn + Size(items[n]);
      LastIsVisitedFirst(items, turn);
      VisitCountsLooks(p, items[n], turn);
      VisitAllCountsLooks(p, items[..n], rest);
      CountAppend(p, Visit(items[n], turn), VisitAll(items[..n], rest));
      CountAppend(p, LooksAll(items[..n], rest), Looks(items[n], turn));
    }
  }

  function Being(look: Look): Look -> bool {
    (x: Look) => x == look
  }

  lemma VisitedIffLook(j: Value, look: Look)
    ensures look in Visit(j, 0) <==> look in Looks(j, 0)
  {
    VisitCountsLooks(Being(look), j, 0);
    CountFinds(Being(look), Visit(j, 0));
    CountFinds(Being(look), Looks(j, 0));
    assert forall xs: seq<Look> :: (exists x :: x in xs && Being(look)(x)) <==> look in xs;
  }

  /** A reference whose scheme is bound becomes the text its provider answers at
      that look; every other string, and one whose provider answers no text,
      stays as it is. */
  ghost predicate SubstitutedOnce(reg: Registry, looks: seq<Look>, after: seq<string>) {
    |looks| == |after| && forall i :: 0 <= i < |looks| ==>
      match reg.parse(looks[i].text)
      case None => after[i] == looks[i].text
      case Some((scheme, _)) =>
        if reg.bound(scheme) && reg.get(looks[i].text, looks[i].turn).Utf8?
        then after[i] == reg.get(looks[i].text, looks[i].turn).text
        else after[i] == looks[i].text
  }

  /** Same keys, shape and order; leaf `i` of the result is leaf `i` of the
      input substituted exactly once, by what its provider answered when the
      walk came to that very leaf: what a provider returned is never looked at
      again, and failed, unbound and plain leaves keep their text. */
  lemma {:induction false} SubstitutionIsPointwise(reg: Registry, j: Value, turn: nat)
    ensures SameShape(j, Resolve(reg, j, turn))
    ensures TextsOf(Looks(j, turn), Leaves(j))
    ensures SubstitutedOnce(reg, Looks(j, turn), Leaves(Resolve(reg, j, turn)))
    decreases j
  {
    LooksAreLeaves(j, turn);
    if j.Arr? || j.Obj? { ItemsArePointwise(reg, j.items, turn); }
  }

  /** The pass from its start, leaf by leaf: of `n` string leaves, that with index
      `i` becomes what its provider answers at turn `n - 1 - i`, if its scheme is
      bound and the answer is text, and keeps its text otherwise. */
  lemma LeafBecomes(reg: Registry, j: Value, i: nat)
    requires i < |Leaves(j)|
    ensures |Leaves(Resolve(reg, j, 0))| == |Leaves(j)|
    ensures var s, after := Leaves(j)[i], Leaves(Resolve(reg, j, 0))[i];
            var answer := reg.get(s, |Leaves(j)| - 1 - i);
            if reg.parse(s).Some? && reg.bound(reg.parse(s).value.0) && answer.Utf8? then after == answer.text
            else after == s
  {
    WalkIsBackwards(j, 0);
    SubstitutionIsPointwise(reg, j, 0);
    assert Looks(j, 0)[i] == Look(Leaves(j)[i], |Leaves(j)| - 1 - i);
  }

  /** Item by item of the same shape, and their leaves substituted once. */
  ghost predicate Pointwise(reg: Registry, looks: seq<Look>, items: seq<Value>, all: seq<Value>) {
    && |all| == |items| && (forall i :: 0 <= i < |items| ==> SameShape(items[i], all[i]))
    && SubstitutedOnce(reg, looks, LeavesAll(all))
  }

  lemma {:induction false} ItemsArePointwise(reg: Registry, items: seq<Value>, turn: nat)
    ensures Pointwise(reg, LooksAll(items, turn), items, ResolveAll(reg, items, turn))
    decreases items
  {
    if items != [] {
      hide Resolve, ResolveAll, Looks, LooksAll, Leaves, LeavesAll, SameShape, SubstitutedOnce, TextsOf, Pointwise;
      var init, last, rest := items[..|items| - 1], items[|items| - 1], turn + Size(items[|items| - 1]);
      assert items == init + [last];
      ItemsArePointwise(reg, init, rest);
      SubstitutionIsPointwise(reg, last, turn);
      LastIsResolved(reg, items, turn);
      PointwiseJoins(reg, LooksAll(init, rest), init, ResolveAll(reg, init, rest),
                     Looks(last, turn), last, Resolve(reg, last, turn));
    }
  }

  lemma LastIsResolved(reg: Registry, items: seq<Value>, turn: nat)
    requires items != []
    ensures var n := |items| - 1;
            var rest := turn + Size(items[n]);
            && ResolveAll(reg, items, turn) == ResolveAll(reg, items[..n], rest) + [Resolve(reg, items[n], turn)]
            && LooksAll(items, turn) == LooksAll(items[..n], rest) + Looks(items[n], turn)
  {
  }

  lemma PointwiseJoins(reg: Registry, looks: seq<Look>, items: seq<Value>, all: seq<Value>,
                       lastLooks: seq<Look>, last: Value, resolved: Value)
    requires Pointwise(reg, looks, items, all)
    requires SameShape(last, resolved) && SubstitutedOnce(reg, lastLooks, Leaves(resolved))
    ensures Pointwise(reg, looks + lastLooks, items + [last], all + [resolved])
  {
    assert (all + [resolved])[..|all|] == all;
    assert LeavesAll(all + [resolved]) == LeavesAll(all) + Leaves(resolved);
  }

  /** The walk comes to every string of the document exactly once: its looks,
      put in the order of their turns, are the visits, numbered from zero. */
  lemma EachLeafIsVisitedOnce(j: Value)
    ensures NumberedFrom(Visit(j, 0), 0, |Leaves(j)|)
    ensures forall look :: look in Visit(j, 0) <==> look in Looks(j, 0)
    ensures forall p: Look -> bool :: Count(p, Visit(j, 0)) == Count(p, Looks(j, 0))
  {
    VisitsAreNumbered(j, 0);
    forall look ensures look in Visit(j, 0) <==> look in Looks(j, 0) { VisitedIffLook(j, look); }
    forall p: Look -> bool ensures Count(p, Visit(j, 0)) == Count(p, Looks(j, 0)) { VisitCountsLooks(p, j, 0); }
  }

  // ----- What the report means -----

  /** A reference with a bound scheme and a provider that answers text: the
      leaves that are replaced. */
  function Expanding(reg: Registry): Look -> bool {
    (look: Look) =>
      match reg.parse(look.text)
      case None => false
      case Some((scheme, _)) => reg.bound(scheme) && reg.get(look.text, look.turn).Utf8?
  }

  function Failing(reg: Registry): Look -> bool {
    (look: Look) =>
      match reg.parse(look.text)
      case None => false
      case Some((scheme, _)) => reg.bound(scheme) && !reg.get(look.text, look.turn).Utf8?
  }

  /** Failure `f` is that of this look: its reference, and the error its provider
      gave it, or that what it gave is no text. */
  predicate FailureOf(reg: Registry, f: Failure, look: Look) {
    && f.ref == look.text && reg.parse(look.text).Some? && reg.bound(reg.parse(look.text).value.0)
    && match reg.get(look.text, look.turn)
       case Utf8(_) => false
       case NotUtf8 => f.error == "secret value is not valid UTF-8; cannot replace JSON string"
       case Failed(e) => f.error == e
  }

  /** The failures are those of exactly the failing visits, each once, in the
      order of the visits: `at` says which. */
  ghost predicate FailuresInOrder(reg: Registry, failures: seq<Failure>, visited: seq<Look>, at: seq<nat>) {
    && |at| == |failures| && (forall i, k :: 0 <= i < k < |at| ==> at[i] < at[k])
    && (forall i :: 0 <= i < |at| ==> at[i] < |visited| && FailureOf(reg, failures[i], visited[at[i]]))
    && (forall m :: 0 <= m < |visited| && Failing(reg)(visited[m]) ==> m in at)
  }

  /** Every string met is in exactly the right part of the report. */
  lemma {:induction false} ReportIsExact(reg: Registry, visited: seq<Look>) returns (at: seq<nat>)
    ensures var r := ReportOf(reg, visited);
            && r.expanded == Count(Expanding(reg), visited)
            && |r.failures| == Count(Failing(reg), visited) && FailuresInOrder(reg, r.failures, visited, at)
            && (forall s :: s in r.resolved <==>
                  exists look :: look in visited && look.text == s && Expanding(reg)(look))
            && (forall scheme :: scheme in r.skipped <==>
                  exists look :: look in visited && reg.parse(look.text).Some?
                                 && reg.parse(look.text).value.0 == scheme && !reg.bound(scheme))
    decreases |visited|
  {
    if visited == [] {
      at := [];
    } else {
      hide FailuresInOrder;
      var n := |visited| - 1;
      var pre, look := visited[..n], visited[n];
      at := ReportIsExact(reg, pre);
      assert visited == pre + [look];
      at := FailureAdded(reg, ReportOf(reg, pre), pre, look, at);
    }
  }

  lemma {:induction false} FailureAdded(reg: Registry, r: Report, pre: seq<Look>, look: Look, at: seq<nat>)
    returns (at': seq<nat>)
    requires FailuresInOrder(reg, r.failures, pre, at)
    ensures FailuresInOrder(reg, Account(reg, r, look).failures, pre + [look], at')
  {
    var failures := Account(reg, r, look).failures;
    if Failing(reg)(look) {
      at' := at + [|pre|];
      assert failures == r.failures + [failures[|r.failures|]] && FailureOf(reg, failures[|r.failures|], look);
    } else {
      at' := at;
      assert failures == r.failures;
    }
    forall m | 0 <= m < |pre| && Failing(reg)((pre + [look])[m]) ensures m in at' { assert Failing(reg)(pre[m]); }
  }

  /** The whole pass: `expanded` counts the leaves of the document that were
      replaced, and one failure is recorded per bound leaf that was not. */
  lemma WalkReportCountsDocument(reg: Registry, j: Value)
    ensures var r := ReportOf(reg, Visit(j, 0));
            && r.expanded == Count(Expanding(reg), Looks(j, 0))
            && |r.failures| == Count(Failing(reg), Looks(j, 0))
            && (forall s :: s in r.resolved <==>
                exists look :: look in Looks(j, 0) && look.text == s && Expanding(reg)(look))
  {
    var at := ReportIsExact(reg, Visit(j, 0));
    VisitCountsLooks(Expanding(reg), j, 0);
    VisitCountsLooks(Failing(reg), j, 0);
    forall look ensures look in Visit(j, 0) <==> look in Looks(j, 0) { VisitedIffLook(j, look); }
  }

  // ----- The allowlist derived from the same tree -----

  /** The per-plugin resource key of a reference: the full form. */
  function AllowlistKey(reg: Registry, uri: string): Option<string> {
    match reg.parse(uri)
    case None => None
    case Some((scheme, rest)) => Some(scheme + "://" + rest)
  }

  /** The resource keys a configuration names. */
  function CollectRefs(reg: Registry, j: Value): set<string> {
    match j
    case Str(s) => if AllowlistKey(reg, s).Some? then {AllowlistKey(reg, s).value} else {}
    case Arr(items) => CollectAll(reg, items)
    case Obj(_, items) => CollectAll(reg, items)
    case _ => {}
  }

  function CollectAll(reg: Registry, items: seq<Value>): set<string> {
    if items == [] then {}
    else CollectAll(reg, items[..|items| - 1]) + CollectRefs(reg, items[|items| - 1])
  }

  lemma {:induction false} CollectsLeafKeys(reg: Registry, j: Value, key: string)
    ensures key in CollectRefs(reg, j) <==> exists s :: s in Leaves(j) && AllowlistKey(reg, s) == Some(key)
    decreases j
  {
    if j.Arr? || j.Obj? { CollectAllLeafKeys(reg, j.items, key); }
    if j.Str? { assert j.s in Leaves(j); }
  }

  lemma {:induction false} CollectAllLeafKeys(reg: Registry, items: seq<Value>, key: string)
    ensures key in CollectAll(reg, items) <==> exists s :: s in LeavesAll(items) && AllowlistKey(reg, s) == Some(key)
    decreases items
  {
    if items != [] {
      var n := |items| - 1;
      CollectAllLeafKeys(reg, items[..n], key);
      CollectsLeafKeys(reg, items[n], key);
    }
  }

  /** Every reference the walk expands, in a tree, is covered by the allowlist
      collected from that same tree before the walk. */
  lemma ExpandedRefsAreCollected(reg: Registry, j: Value, s: string)
    requires s in ReportOf(reg, Visit(j, 0)).resolved
    ensures AllowlistKey(reg, s).Some? && AllowlistKey(reg, s).value in CollectRefs(reg, j)
  {
    var at := ReportIsExact(reg, Visit(j, 0));
    var look :| look in Visit(j, 0) && look.text == s && Expanding(reg)(look);
    VisitedIffLook(j, look);
    LooksAreLeaves(j, 0);
    var i :| 0 <= i < |Looks(j, 0)| && Looks(j, 0)[i] == look;
    assert s == Leaves(j)[i];
    CollectsLeafKeys(reg, j, AllowlistKey(reg, s).value);
  }
}
