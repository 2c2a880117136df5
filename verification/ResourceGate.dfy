/** Which resources a plugin may resolve through its host: those its own
    configuration names, a bare reference standing for every field under it. */
module ResourceGate {
  import opened Wrappers
  import opened Json
  import opened SecretResolver
  import Framing

  type Lists = map<string, set<string>>

  function UpToAnchor(rest: string): string {
    if rest == "" || rest[0] == '#' then "" else [rest[0]] + UpToAnchor(rest[1..])
  }

  /** The reference without its anchor. */
  function BaseKey(reg: Registry, uri: string): Option<string> {
    match reg.parse(uri)
    case None => None
    case Some((scheme, rest)) => Some(scheme + "://" + UpToAnchor(rest))
  }

  /** `base` is the reference up to its first `#`, or all of it without one. */
  ghost predicate IsBase(reg: Registry, uri: string, base: string) {
    reg.parse(uri).Some? &&
    var (scheme, rest) := reg.parse(uri).value;
    exists path: string ::
      && base == scheme + "://" + path && '#' !in path
      && (rest == path || exists anchor: string :: rest == path + "#" + anchor)
  }

  lemma {:induction false} UpToAnchorIs(rest: string, path: string)
    ensures UpToAnchor(rest) == path <==>
            '#' !in path && (rest == path || exists anchor: string :: rest == path + "#" + anchor)
    decreases |rest|
  {
    if rest == "" {
    } else if rest[0] == '#' {
      assert rest == "" + "#" + rest[1..];
      if path != "" && (rest == path || exists anchor: string :: rest == path + "#" + anchor) {
        assert rest[0] == path[0];
      }
    } else {
      assert rest == [rest[0]] + rest[1..];
      if path != "" {
        UpToAnchorIs(rest[1..], path[1..]);
        assert path == [path[0]] + path[1..];
        forall anchor: string ensures rest == path + "#" + anchor <==>
                                      rest[0] == path[0] && rest[1..] == path[1..] + "#" + anchor
        {
          assert path + "#" + anchor == [path[0]] + (path[1..] + "#" + anchor);
        }
      }
    }
  }

  lemma BaseKeyIs(reg: Registry, uri: string, base: string)
    ensures BaseKey(reg, uri) == Some(base) <==> IsBase(reg, uri, base)
  {
    if reg.parse(uri).Some? {
      var (scheme, rest) := reg.parse(uri).value;
      UpToAnchorIs(rest, UpToAnchor(rest));
      forall path: string
        ensures UpToAnchor(rest) == path <==>
                '#' !in path && (rest == path || exists anchor: string :: rest == path + "#" + anchor)
      {
        UpToAnchorIs(rest, path);
      }
    }
  }

  /** The gate: the full form is listed, or the reference has an anchor and its
      anchor-free form is. */
  function Allowed(reg: Registry, lists: Lists, alias: string, uri: string): bool {
    if alias !in lists || AllowlistKey(reg, uri).None? then false
    else
      var full, base := AllowlistKey(reg, uri).value, BaseKey(reg, uri).value;
      full in lists[alias] || (base != full && base in lists[alias])
  }

  /** The registry's lists, one per alias. */
  class Gate {
    var lists: Lists

    constructor ()
      ensures lists == map[]
    {
      lists := map[];
    }

    method Record(alias: string, resources: set<string>)
      modifies this
      ensures lists == old(lists)[alias := resources]
    {
      lists := lists[alias := resources];
    }

    method Extend(alias: string, resources: set<string>)
      modifies this
      ensures lists == old(lists)[alias := (if alias in old(lists) then old(lists)[alias] else {}) + resources]
    {
      if alias !in lists { lists := lists[alias := {}]; }
      lists := lists[alias := lists[alias] + resources];
    }

    method ResolveAllowed(reg: Registry, alias: string, uri: string) returns (ok: bool)
      ensures ok == Allowed(reg, lists, alias, uri)
    {
      if alias !in lists { return false; }
      var full := AllowlistKey(reg, uri);
      if full.None? { return false; }
      if full.value in lists[alias] { return true; }
      match BaseKey(reg, uri) {
        case Some(base) => return base != full.value && base in lists[alias];
        case None => return false;
      }
    }
  }

  // ----- Lists over a run of grants -----

  /** A configuration that becomes an alias's list, or is merged into it. */
  datatype Grant = Recorded(alias: string, config: Value) | Extended(alias: string, config: Value)

  function After(reg: Registry, grants: seq<Grant>): Lists {
    if grants == [] then map[]
    else
      var lists, g := After(reg, grants[..|grants| - 1]), grants[|grants| - 1];
      var refs := CollectRefs(reg, g.config);
      match g
      case Recorded(alias, _) => lists[alias := refs]
      case Extended(alias, _) => lists[alias := (if alias in lists then lists[alias] else {}) + refs]
  }

  /** The configurations an alias's list stands for: the last recorded one and
      those merged since. */
  function Configs(grants: seq<Grant>, alias: string): set<Value> {
    if grants == [] then {}
    else
      var before, g := Configs(grants[..|grants| - 1], alias), grants[|grants| - 1];
      if g.alias != alias then before
      else if g.Recorded? then {g.config}
      else before + {g.config}
  }

  /** One of them names this reference in some string. */
  ghost predicate Named(reg: Registry, grants: seq<Grant>, alias: string, uri: string) {
    reg.parse(uri).Some? && exists j :: j in Configs(grants, alias) && uri in Leaves(j)
  }

  /** A reference is its scheme, up to the first colon, and the rest. */
  ghost predicate Splits(reg: Registry) {
    forall s :: reg.parse(s).Some? ==>
      var (scheme, rest) := reg.parse(s).value;
      ':' !in scheme && s == scheme + "://" + rest
  }

  lemma KeyIsReference(reg: Registry, s: string, key: string)
    requires Splits(reg)
    ensures AllowlistKey(reg, s) == Some(key) <==> reg.parse(s).Some? && s == key
  {
    if reg.parse(s).Some? { assert s == reg.parse(s).value.0 + "://" + reg.parse(s).value.1; }
  }

  lemma {:induction false} ListedIffNamed(reg: Registry, grants: seq<Grant>, alias: string, uri: string)
    requires Splits(reg)
    ensures var lists := After(reg, grants);
            (alias in lists && uri in lists[alias]) <==> Named(reg, grants, alias, uri)
    decreases |grants|
  {
    if grants != [] {
      var n := |grants| - 1;
      var g := grants[n];
      ListedIffNamed(reg, grants[..n], alias, uri);
      RefsAreLeaves(reg, g.config, uri);
      if Named(reg, grants[..n], alias, uri) {
        var j :| j in Configs(grants[..n], alias) && uri in Leaves(j);
        if g.alias != alias || g.Extended? { assert j in Configs(grants, alias); }
      }
      if g.alias == alias { assert g.config in Configs(grants, alias); }
    }
  }

  lemma RefsAreLeaves(reg: Registry, j: Value, uri: string)
    requires Splits(reg)
    ensures uri in CollectRefs(reg, j) <==> reg.parse(uri).Some? && uri in Leaves(j)
  {
    CollectsLeafKeys(reg, j, uri);
    forall s ensures AllowlistKey(reg, s) == Some(uri) <==> reg.parse(s).Some? && s == uri {
      KeyIsReference(reg, s, uri);
    }
  }

  // ----- What the gate lets through -----

  /** Over every run of grants: a plugin may resolve exactly the references that
      its current configurations name, as they stand or without their anchor. */
  lemma AllowedIffNamed(reg: Registry, grants: seq<Grant>, alias: string, uri: string)
    requires Splits(reg)
    ensures Allowed(reg, After(reg, grants), alias, uri) <==>
            reg.parse(uri).Some? &&
            (Named(reg, grants, alias, uri) || exists base :: IsBase(reg, uri, base) && Named(reg, grants, alias, base))
  {
    if reg.parse(uri).Some? {
      forall base ensures BaseKey(reg, uri) == Some(base) <==> IsBase(reg, uri, base) { BaseKeyIs(reg, uri, base); }
      KeyIsReference(reg, uri, uri);
      ListedIffNamed(reg, grants, alias, uri);
      ListedIffNamed(reg, grants, alias, BaseKey(reg, uri).value);
    }
  }

  lemma {:induction false} AnchorFreeBase(rest: string)
    ensures '#' !in UpToAnchor(rest) && UpToAnchor(UpToAnchor(rest)) == UpToAnchor(rest)
    ensures UpToAnchor(rest) == rest <==> '#' !in rest
    decreases |rest|
  {
    if rest != "" && rest[0] != '#' {
      AnchorFreeBase(rest[1..]);
      var up := UpToAnchor(rest);
      assert up[1..] == UpToAnchor(rest[1..]) && up[0] == rest[0];
      assert rest == [rest[0]] + rest[1..];
    }
  }

  /** Taking the anchor off twice is taking it off once. */
  lemma BaseOfBase(reg: Registry, uri: string)
    requires Splits(reg) && reg.parse(uri).Some? && reg.parse(BaseKey(reg, uri).value).Some?
    ensures BaseKey(reg, BaseKey(reg, uri).value) == BaseKey(reg, uri)
    ensures BaseKey(reg, uri) == Some(uri) <==> '#' !in reg.parse(uri).value.1
  {
    var (scheme, rest) := reg.parse(uri).value;
    var base := BaseKey(reg, uri).value;
    var (scheme', rest') := reg.parse(base).value;
    assert base == scheme + [':'] + ("//" + UpToAnchor(rest)) == scheme' + [':'] + ("//" + rest');
    Framing.FirstSplitIsUnique(':', scheme, "//" + UpToAnchor(rest), scheme', "//" + rest');
    Framing.PrefixCancels("//", UpToAnchor(rest), rest');
    AnchorFreeBase(rest);
    if base == uri { Framing.PrefixCancels(scheme + "://", UpToAnchor(rest), rest); }
  }

  /** A field grant never reaches a sibling: where the configurations name one
      field of a resource and nothing else of it, that field is all of it that
      may be resolved; where they name the resource itself, all of it may. */
  lemma FieldGrantStaysNarrow(reg: Registry, grants: seq<Grant>, alias: string, field: string, base: string,
                              uri: string)
    requires Splits(reg) && reg.parse(field).Some? && '#' in reg.parse(field).value.1
    requires IsBase(reg, field, base) && IsBase(reg, uri, base)
    ensures Named(reg, grants, alias, base) ==> Allowed(reg, After(reg, grants), alias, uri)
    ensures (forall s :: Named(reg, grants, alias, s) && IsBase(reg, s, base) ==> s == field)
            && Named(reg, grants, alias, field) ==>
              (Allowed(reg, After(reg, grants), alias, uri) <==> uri == field)
  {
    AllowedIffNamed(reg, grants, alias, uri);
    forall s, b ensures BaseKey(reg, s) == Some(b) <==> IsBase(reg, s, b) { BaseKeyIs(reg, s, b); }
    if Named(reg, grants, alias, base) { BaseOfBase(reg, field); }
  }
}
