/** Role inheritance: what a role's base chain means, the memoised resolver that
    loads it, and the router's one-level shortcut. */
module RoleManifest {
  import opened Text
  import opened Json

  /** What a role is called, or what its base says: the manifest's own role names are strings. */
  type Name = Json
  type Spec = map<string, Json>

  /** A role as declared: its base, if it has a truthy one, and its other fields. */
  datatype Role = Role(base: Option<Name>, own: Spec)

  type Manifest = map<Name, Role>

  datatype Error =
    | BadVersion
    | UndefinedRole(name: Name)
    | Cycle(trail: seq<Name>)
    | MissingField(name: Name, field: string)
    | UnknownTier(name: Name)
    | UnknownAccess(name: Name)
    | MissingSkill(name: Name)

  datatype Result<+T> = Ok(value: T) | Err(error: Error)

  /** The check of one merged spec; None when it passes. */
  type Check = (Name, Spec) -> Option<Error>

  // ---- Base chains -------------------------------------------------------------

  /** `p` starts at `n`, steps from role to base, and ends at a role without one. */
  ghost predicate IsChain(raw: Manifest, n: Name, p: seq<Name>)
    decreases |p|
  {
    && p != [] && p[0] == n && n in raw
    && if |p| == 1 then raw[n].base == None
       else raw[n].base == Some(p[1]) && IsChain(raw, p[1], p[1..])
  }

  ghost predicate HasChain(raw: Manifest, n: Name) {
    exists p :: IsChain(raw, n, p)
  }

  /** The child-over-base merge along a chain. */
  ghost function Merge(raw: Manifest, n: Name, p: seq<Name>): Spec
    requires IsChain(raw, n, p)
    decreases |p|
  {
    if |p| == 1 then raw[n].own else Merge(raw, p[1], p[1..]) + raw[n].own
  }

  /** Every merge along the chain passes the check. */
  ghost predicate AllPass(raw: Manifest, check: Check, n: Name, p: seq<Name>)
    requires IsChain(raw, n, p)
    decreases |p|
  {
    check(n, Merge(raw, n, p)) == None && (|p| > 1 ==> AllPass(raw, check, p[1], p[1..]))
  }

  ghost function ChainOf(raw: Manifest, n: Name): (p: seq<Name>)
    requires HasChain(raw, n)
    ensures IsChain(raw, n, p)
  {
    var p :| IsChain(raw, n, p);
    p
  }

  ghost function Merged(raw: Manifest, n: Name): Spec
    requires HasChain(raw, n)
  {
    Merge(raw, n, ChainOf(raw, n))
  }

  /** The role's chain ends and every merge along it passes. */
  ghost predicate Good(raw: Manifest, check: Check, n: Name) {
    HasChain(raw, n) && AllPass(raw, check, n, ChainOf(raw, n))
  }

  lemma {:induction false} ChainUnique(raw: Manifest, n: Name, p: seq<Name>, q: seq<Name>)
    requires IsChain(raw, n, p) && IsChain(raw, n, q)
    ensures p == q
    decreases |p|
  {
    if |p| > 1 {
      ChainUnique(raw, p[1], p[1..], q[1..]);
      assert p == [p[0]] + p[1..] && q == [q[0]] + q[1..];
    }
  }

  /** A role with a base: its chain is one longer than the base's, its merge one layer over it. */
  lemma ChainStep(raw: Manifest, n: Name, b: Name)
    requires n in raw && raw[n].base == Some(b)
    ensures HasChain(raw, n) <==> HasChain(raw, b)
    ensures HasChain(raw, n) ==>
              && ChainOf(raw, n) == [n] + ChainOf(raw, b)
              && Merged(raw, n) == Merged(raw, b) + raw[n].own
  {
    if HasChain(raw, b) {
      var p := [n] + ChainOf(raw, b);
      assert p[1..] == ChainOf(raw, b);
      assert IsChain(raw, n, p);
      ChainUnique(raw, n, ChainOf(raw, n), p);
    }
    if HasChain(raw, n) { assert IsChain(raw, b, ChainOf(raw, n)[1..]); }
  }

  lemma ChainAlone(raw: Manifest, n: Name)
    requires n in raw && raw[n].base == None
    ensures HasChain(raw, n) && ChainOf(raw, n) == [n] && Merged(raw, n) == raw[n].own
  {
    assert IsChain(raw, n, [n]);
    ChainUnique(raw, n, ChainOf(raw, n), [n]);
  }

  lemma GoodStep(raw: Manifest, check: Check, n: Name)
    requires n in raw
    ensures Good(raw, check, n) <==>
            HasChain(raw, n) && check(n, Merged(raw, n)) == None
            && (raw[n].base.Some? ==> Good(raw, check, raw[n].base.value))
  {
    match raw[n].base
    case None => ChainAlone(raw, n);
    case Some(b) =>
      ChainStep(raw, n, b);
      if HasChain(raw, n) { assert ChainOf(raw, n)[1..] == ChainOf(raw, b); }
  }

  /** `trail` steps from role to base up to `n`. */
  ghost predicate TrailTo(raw: Manifest, trail: seq<Name>, n: Name)
    decreases |trail|
  {
    trail == [] ||
    var k := |trail| - 1;
    trail[k] in raw && raw[trail[k]].base == Some(n) && TrailTo(raw, trail[..k], trail[k])
  }

  ghost function Unvisited(raw: Manifest, trail: seq<Name>): set<Name> {
    raw.Keys - set n | n in trail
  }

  lemma TrailGrows(raw: Manifest, trail: seq<Name>, n: Name)
    requires TrailTo(raw, trail, n) && n in raw && raw[n].base.Some? && n !in trail
    ensures TrailTo(raw, trail + [n], raw[n].base.value)
    ensures Unvisited(raw, trail + [n]) < Unvisited(raw, trail)
  {
    var longer := trail + [n];
    assert longer[..|trail|] == trail && longer[|trail|] == n;
    VisitShrinks(raw, trail, n);
  }

  lemma {:induction false} TrailIsLonger(raw: Manifest, trail: seq<Name>, n: Name, m: Name)
    requires TrailTo(raw, trail, n) && m in trail && HasChain(raw, n)
    ensures HasChain(raw, m) && |ChainOf(raw, m)| > |ChainOf(raw, n)|
    decreases |trail|
  {
    var k := |trail| - 1;
    ChainStep(raw, trail[k], n);
    if m in trail[..k] { TrailIsLonger(raw, trail[..k], trail[k], m); }
  }

  /** Coming back to a role of the trail means the chain never ends. */
  lemma CycleHasNoChain(raw: Manifest, trail: seq<Name>, n: Name)
    requires TrailTo(raw, trail, n) && n in trail
    ensures !HasChain(raw, n)
  {
    if HasChain(raw, n) { TrailIsLonger(raw, trail, n, n); }
  }

  /** Following bases from `n` leads to an undefined role or back to one already passed. */
  ghost predicate LeadsAstray(raw: Manifest, n: Name, trail: seq<Name>, m: Name) {
    TrailTo(raw, trail, m) && (trail + [m])[0] == n && (m !in raw || m in trail)
  }

  lemma {:induction false} AstrayFrom(raw: Manifest, trail: seq<Name>, n: Name) returns (longer: seq<Name>, m: Name)
    requires TrailTo(raw, trail, n) && !HasChain(raw, n)
    ensures trail + [n] <= longer + [m] && TrailTo(raw, longer, m) && (m !in raw || m in longer)
    decreases Unvisited(raw, trail)
  {
    if n !in raw || n in trail {
      longer, m := trail, n;
    } else {
      if raw[n].base == None { ChainAlone(raw, n); }
      var base := raw[n].base.value;
      ChainStep(raw, n, base);
      TrailGrows(raw, trail, n);
      longer, m := AstrayFrom(raw, trail + [n], base);
    }
  }

  lemma {:induction false} TrailKeepsChain(raw: Manifest, trail: seq<Name>, m: Name)
    requires TrailTo(raw, trail, m) && HasChain(raw, (trail + [m])[0])
    ensures HasChain(raw, m)
    decreases |trail|
  {
    if trail != [] {
      var k := |trail| - 1;
      assert trail[..k] + [trail[k]] == trail;
      TrailKeepsChain(raw, trail[..k], trail[k]);
      ChainStep(raw, trail[k], m);
    }
  }

  /** A base chain ends iff it meets neither an undefined role nor a cycle. */
  lemma ChainEndsIff(raw: Manifest, n: Name)
    ensures HasChain(raw, n) <==> !exists trail, m :: LeadsAstray(raw, n, trail, m)
  {
    if trail, m :| LeadsAstray(raw, n, trail, m) {
      if HasChain(raw, n) {
        TrailKeepsChain(raw, trail, m);
        if m in trail { CycleHasNoChain(raw, trail, m); }
      }
    }
    if !HasChain(raw, n) {
      var longer, m := AstrayFrom(raw, [], n);
      assert LeadsAstray(raw, n, longer, m);
    }
  }

  // ---- The error a failing role gives ----------------------------------------------

  /** What goes wrong first when `n` is resolved below `trail`: bases before the
      role itself, and no memo. */
  ghost function FirstError(raw: Manifest, check: Check, n: Name, trail: seq<Name>): Option<Error>
    decreases Unvisited(raw, trail)
  {
    if n in trail then Some(Cycle(trail + [n]))
    else if n !in raw then Some(UndefinedRole(n))
    else
      assert Unvisited(raw, trail + [n]) < Unvisited(raw, trail) by { VisitShrinks(raw, trail, n); }
      var above := if raw[n].base.Some? then FirstError(raw, check, raw[n].base.value, trail + [n]) else None;
      if above.Some? then above
      else if HasChain(raw, n) then check(n, Merged(raw, n))
      else None
  }

  lemma VisitShrinks(raw: Manifest, trail: seq<Name>, n: Name)
    requires n in raw && n !in trail
    ensures Unvisited(raw, trail + [n]) < Unvisited(raw, trail)
  {
    assert Unvisited(raw, trail + [n]) == Unvisited(raw, trail) - {n};
    assert n in Unvisited(raw, trail);
  }

  /** A role has an error to report exactly when it is not good, wherever it is met. */
  lemma {:induction false} FirstErrorIff(raw: Manifest, check: Check, n: Name, trail: seq<Name>)
    requires TrailTo(raw, trail, n)
    ensures FirstError(raw, check, n, trail) == None <==> Good(raw, check, n)
    decreases Unvisited(raw, trail)
  {
    if n in trail {
      CycleHasNoChain(raw, trail, n);
    } else if n in raw {
      GoodStep(raw, check, n);
      match raw[n].base
      case None => ChainAlone(raw, n);
      case Some(b) =>
        TrailGrows(raw, trail, n);
        ChainStep(raw, n, b);
        FirstErrorIff(raw, check, b, trail + [n]);
    }
  }

  /** `m` on the base chain of `n` fails its check with `e`, and every role above it passes. */
  ghost predicate FailsFirst(raw: Manifest, check: Check, n: Name, m: Name, e: Error)
    requires HasChain(raw, n)
  {
    && m in ChainOf(raw, n) && HasChain(raw, m) && check(m, Merged(raw, m)) == Some(e)
    && (m in raw && raw[m].base.Some? ==> Good(raw, check, raw[m].base.value))
  }

  /** The bases from `n` on, below `trail`, lead along `longer` to `m`, which is undefined or already passed. */
  ghost predicate EndsAstray(raw: Manifest, n: Name, trail: seq<Name>, longer: seq<Name>, m: Name, e: Error) {
    && trail + [n] <= longer + [m] && TrailTo(raw, longer, m)
    && if m in longer then e == Cycle(longer + [m]) else m !in raw && e == UndefinedRole(m)
  }

  ghost predicate IsExplained(raw: Manifest, check: Check, n: Name, trail: seq<Name>, e: Error) {
    if HasChain(raw, n) then exists m :: FailsFirst(raw, check, n, m, e)
    else exists longer, m :: EndsAstray(raw, n, trail, longer, m, e)
  }

  /** What the error means: the end of a trail that leads astray, or the check of
      the role furthest up the chain that fails it. */
  lemma {:induction false} ErrorMeans(raw: Manifest, check: Check, n: Name, trail: seq<Name>)
    requires TrailTo(raw, trail, n) && !Good(raw, check, n)
    ensures FirstError(raw, check, n, trail).Some?
            && IsExplained(raw, check, n, trail, FirstError(raw, check, n, trail).value)
    decreases Unvisited(raw, trail)
  {
    FirstErrorIff(raw, check, n, trail);
    if n in trail {
      CycleHasNoChain(raw, trail, n);
      assert EndsAstray(raw, n, trail, trail, n, Cycle(trail + [n]));
    } else if n !in raw {
      assert EndsAstray(raw, n, trail, trail, n, UndefinedRole(n));
    } else {
      GoodStep(raw, check, n);
      match raw[n].base
      case None =>
        ChainAlone(raw, n);
        assert FailsFirst(raw, check, n, n, FirstError(raw, check, n, trail).value);
      case Some(b) => ErrorAbove(raw, check, n, b, trail);
    }
  }

  lemma {:induction false} ErrorAbove(raw: Manifest, check: Check, n: Name, b: Name, trail: seq<Name>)
    requires TrailTo(raw, trail, n) && !Good(raw, check, n) && n !in trail && n in raw && raw[n].base == Some(b)
    ensures FirstError(raw, check, n, trail).Some?
            && IsExplained(raw, check, n, trail, FirstError(raw, check, n, trail).value)
    decreases Unvisited(raw, trail), 0
  {
    FirstErrorIff(raw, check, n, trail);
    var e := FirstError(raw, check, n, trail).value;
    TrailGrows(raw, trail, n);
    ChainStep(raw, n, b);
    GoodStep(raw, check, n);
    FirstErrorIff(raw, check, b, trail + [n]);
    if Good(raw, check, b) {
      assert n in ChainOf(raw, n) && FailsFirst(raw, check, n, n, e);
    } else {
      ErrorMeans(raw, check, b, trail + [n]);
      if HasChain(raw, n) {
        var m :| FailsFirst(raw, check, b, m, e);
        assert FailsFirst(raw, check, n, m, e);
      } else {
        var longer, m :| EndsAstray(raw, b, trail + [n], longer, m, e);
        assert EndsAstray(raw, n, trail, longer, m, e);
      }
    }
  }

  /** A wrong version, or else what goes wrong first with the first role, in the given order, that is not good. */
  ghost predicate IsLoadError(raw: Manifest, check: Check, version: int, order: seq<Name>, e: Error) {
    if version != 1 then e == BadVersion
    else exists i :: 0 <= i < |order| && FirstError(raw, check, order[i], []) == Some(e)
                     && forall j :: 0 <= j < i ==> Good(raw, check, order[j])
  }

  // ---- The memoised resolver ------------------------------------------------------

  class Resolver {
    const raw: Manifest
    const check: Check
    var resolved: map<Name, Spec>

    constructor (raw: Manifest, check: Check)
      ensures this.raw == raw && this.check == check && resolved == map[]
    {
      this.raw, this.check, resolved := raw, check, map[];
    }

    /** The memo holds finished roles only, each with its chain merge. */
    ghost predicate MemoHolds()
      reads this
    {
      forall n :: n in resolved ==> Good(raw, check, n) && resolved[n] == Merged(raw, n)
    }

    method Resolve(name: Name, trail: seq<Name>) returns (r: Result<Spec>)
      requires MemoHolds() && TrailTo(raw, trail, name)
      modifies this`resolved
      ensures MemoHolds()
      ensures forall n :: n in old(resolved) ==> n in resolved
      ensures r.Ok? <==> Good(raw, check, name)
      ensures r.Err? ==> FirstError(raw, check, name, trail) == Some(r.error)
      ensures r.Ok? ==> name in resolved && r.value == Merged(raw, name)
      decreases Unvisited(raw, trail)
    {
      if name in resolved { return Ok(resolved[name]); }
      if name in trail {
        CycleHasNoChain(raw, trail, name);
        return Err(Cycle(trail + [name]));
      }
      if name !in raw { return Err(UndefinedRole(name)); }
      GoodStep(raw, check, name);
      var spec := raw[name].own;
      if raw[name].base.Some? {
        var base := raw[name].base.value;
        ChainStep(raw, name, base);
        TrailGrows(raw, trail, name);
        var merged := Resolve(base, trail + [name]);
        if merged.Err? { return merged; }
        FirstErrorIff(raw, check, base, trail + [name]);
        spec := merged.value + spec;
      } else {
        ChainAlone(raw, name);
      }
      assert HasChain(raw, name) && spec == Merged(raw, name);
      var problem := check(name, spec);
      if problem.Some? { return Err(problem.value); }
      resolved := resolved[name := spec];
      return Ok(spec);
    }

    /** All roles, in whatever order the manifest lists them. */
    method LoadRoles(version: int, order: seq<Name>) returns (r: Result<map<Name, Spec>>)
      requires resolved == map[] && forall n :: n in order <==> n in raw
      modifies this`resolved
      ensures r.Ok? <==> version == 1 && forall n :: n in raw ==> Good(raw, check, n)
      ensures r.Ok? ==> r.value.Keys == raw.Keys && forall n :: n in raw ==> r.value[n] == Merged(raw, n)
      ensures r.Err? ==> IsLoadError(raw, check, version, order, r.error)
    {
      if version != 1 { return Err(BadVersion); }
      for i := 0 to |order|
        invariant MemoHolds()
        invariant forall j :: 0 <= j < i ==> order[j] in resolved
      {
        var one := Resolve(order[i], []);
        if one.Err? {
          assert order[i] in raw;
          assert forall j :: 0 <= j < i ==> Good(raw, check, order[j]);
          return Err(one.error);
        }
      }
      assert resolved.Keys == raw.Keys by {
        forall n ensures n in resolved <==> n in raw {
          if n in raw { assert n in order; }
          if n in resolved { assert Good(raw, check, n); }
        }
      }
      return Ok(resolved);
    }
  }

  // ---- Reading a manifest, and the checks its specs get -------------------------------

  /** A falsy base is no base. A base that is no string names no role. */
  function ReadRole(declared: Spec): Role {
    Role(if "base" in declared && Truthy(declared["base"]) then Some(declared["base"]) else None, declared - {"base"})
  }

  function ReadManifest(declared: map<Name, Spec>): (raw: Manifest)
    ensures raw.Keys == declared.Keys
  {
    map n | n in declared :: ReadRole(declared[n])
  }

  /** The tiers each harness has a model for, and the skills on disk. */
  datatype Rules = Rules(
    codex: set<string>, claude: set<string>, opencode: set<string>, muse: set<string>, skills: set<string>)

  predicate IsOneOf(j: Json, names: set<string>) {
    j.Str? && j.s in names
  }

  /** The errors also stand for the TypeError that an unhashable tier or a skill that is no string ends in. */
  function Validate(rules: Rules, name: Name, spec: Spec): Option<Error> {
    if "tier" !in spec then Some(MissingField(name, "tier"))
    else if !IsOneOf(spec["tier"], rules.codex * rules.claude * rules.opencode * rules.muse) then
      Some(UnknownTier(name))
    else if "access" !in spec then Some(MissingField(name, "access"))
    else if !IsOneOf(spec["access"], {"read", "write"}) then Some(UnknownAccess(name))
    else if "skill" in spec && Truthy(spec["skill"]) && !IsOneOf(spec["skill"], rules.skills) then
      Some(MissingSkill(name))
    else None
  }

  ghost predicate IsNamed(spec: Spec, f: string, names: set<string>) {
    exists s :: f in spec && spec[f] == Str(s) && s in names
  }

  /** A spec passes iff its tier has a model in every harness, its access is read
      or write, and its skill, if it has a truthy one, is on disk. */
  lemma ValidateIff(rules: Rules, name: Name, spec: Spec)
    ensures Validate(rules, name, spec) == None <==>
            && IsNamed(spec, "tier", rules.codex) && IsNamed(spec, "tier", rules.claude)
            && IsNamed(spec, "tier", rules.opencode) && IsNamed(spec, "tier", rules.muse)
            && IsNamed(spec, "access", {"read", "write"})
            && ("skill" in spec ==>
                  spec["skill"] in {Null, Bool(false), Int(0), Float(0.0), Str(""), Arr([]), Obj(map[])}
                  || IsNamed(spec, "skill", rules.skills))
  {
    if "skill" in spec { FalsyIff(spec["skill"]); }
  }

  lemma FalsyIff(j: Json)
    ensures !Truthy(j) <==> j in {Null, Bool(false), Int(0), Float(0.0), Str(""), Arr([]), Obj(map[])}
  {
  }

  /** What a spec that fails is charged with: its tier first, then its access, then its skill. */
  lemma ValidateNames(rules: Rules, name: Name, spec: Spec)
    ensures "tier" !in spec ==> Validate(rules, name, spec) == Some(MissingField(name, "tier"))
    ensures Validate(rules, name, spec) == Some(UnknownTier(name)) <==>
            "tier" in spec && !(IsNamed(spec, "tier", rules.codex) && IsNamed(spec, "tier", rules.claude)
                                && IsNamed(spec, "tier", rules.opencode) && IsNamed(spec, "tier", rules.muse))
    ensures Validate(rules, name, spec) == Some(MissingField(name, "access")) ==> "tier" in spec && "access" !in spec
    ensures Validate(rules, name, spec) == Some(UnknownAccess(name)) ==>
              "access" in spec && !IsNamed(spec, "access", {"read", "write"})
    ensures Validate(rules, name, spec) == Some(MissingSkill(name)) ==>
              && "skill" in spec && Truthy(spec["skill"]) && !IsNamed(spec, "skill", rules.skills)
              && IsNamed(spec, "access", {"read", "write"})
  {
  }

  function Checker(rules: Rules): Check {
    (n: Name, s: Spec) => Validate(rules, n, s)
  }

  /** What reading a role keeps: a truthy base, and every other field. */
  lemma ReadRoleIs(declared: Spec)
    ensures forall b :: ReadRole(declared).base == Some(b) <==>
              "base" in declared && declared["base"] == b
              && b !in {Null, Bool(false), Int(0), Float(0.0), Str(""), Arr([]), Obj(map[])}
    ensures forall f :: f in ReadRole(declared).own <==> f in declared && f != "base"
    ensures forall f :: f in ReadRole(declared).own ==> ReadRole(declared).own[f] == declared[f]
  {
    if "base" in declared { FalsyIff(declared["base"]); }
  }

  /** load_roles: the manifest as written, with the file's own checks. */
  method Load(declared: map<Name, Spec>, rules: Rules, version: int, order: seq<Name>)
    returns (r: Result<map<Name, Spec>>)
    requires forall n :: n in order <==> n in declared
    ensures var raw, check := ReadManifest(declared), Checker(rules);
            && (r.Ok? <==> version == 1 && forall n :: n in raw ==> Good(raw, check, n))
            && (r.Ok? ==> r.value.Keys == declared.Keys && forall n :: n in raw ==> r.value[n] == Merged(raw, n))
            && (r.Err? ==> IsLoadError(raw, check, version, order, r.error))
  {
    var resolver := new Resolver(ReadManifest(declared), Checker(rules));
    r := resolver.LoadRoles(version, order);
  }

  // ---- The router's one-level merge -------------------------------------------------

  /** A field of a role as the router merges it; None where it would raise. */
  function RouterField(declared: map<Name, Spec>, n: Name, f: string): Option<Json>
    requires n in declared
  {
    var role := declared[n];
    if "base" !in role then (if f in role then Some(role[f]) else None)
    else if role["base"] !in declared then None
    else
      var merged := declared[role["base"]] + role;
      if f in merged then Some(merged[f]) else None
  }

  function LoadedField(spec: Spec, f: string): Option<Json> {
    if f in spec then Some(spec[f]) else None
  }

  /** No role from place `i` of the chain on defines `f`. */
  ghost predicate NowhereFrom(raw: Manifest, p: seq<Name>, i: nat, f: string) {
    forall k :: i <= k < |p| ==> p[k] in raw && f !in raw[p[k]].own
  }

  /** A chain's merge has a field exactly if some role of the chain defines it. */
  lemma {:induction false} MergeHas(raw: Manifest, n: Name, p: seq<Name>, f: string)
    requires IsChain(raw, n, p)
    ensures f !in Merge(raw, n, p) <==> NowhereFrom(raw, p, 0, f)
    decreases |p|
  {
    if |p| > 1 {
      MergeHas(raw, p[1], p[1..], f);
      assert NowhereFrom(raw, p[1..], 0, f) <==> NowhereFrom(raw, p, 1, f) by { NowhereInRest(raw, p, 1, 0, f); }
      assert NowhereFrom(raw, p, 0, f) <==> f !in raw[n].own && NowhereFrom(raw, p, 1, f);
    }
  }

  lemma NowhereInRest(raw: Manifest, p: seq<Name>, d: nat, i: nat, f: string)
    requires d <= |p|
    ensures NowhereFrom(raw, p[d..], i, f) <==> NowhereFrom(raw, p, d + i, f)
  {
    if NowhereFrom(raw, p[d..], i, f) {
      forall k | d + i <= k < |p| ensures p[k] in raw && f !in raw[p[k]].own { assert p[d..][k - d] == p[k]; }
    }
  }

  /** Whether the router's two layers show what the loader's chain does. A role
      without a base: always. A falsy base, which the loader ignores and the
      router looks up: where what it finds changes nothing. Any other base:
      unless the field is first defined at the third role of the chain or beyond. */
  ghost predicate TwoLayersShow(declared: map<Name, Spec>, n: Name, f: string)
    requires n in declared && HasChain(ReadManifest(declared), n)
  {
    var role := declared[n];
    if "base" !in role then true
    else if !Truthy(role["base"]) then
      if role["base"] in declared then f in role || f !in declared[role["base"]] else f !in role
    else
      || f in role || (role["base"] in declared && f in declared[role["base"]])
      || NowhereFrom(ReadManifest(declared), ChainOf(ReadManifest(declared), n), 2, f)
  }

  lemma BaseIsDeclared(raw: Manifest, n: Name)
    requires HasChain(raw, n)
    ensures n in raw && (raw[n].base.Some? ==> raw[n].base.value in raw)
  {
    if raw[n].base.Some? {
      var b := raw[n].base.value;
      ChainStep(raw, n, b);
      assert IsChain(raw, b, ChainOf(raw, b));
    }
  }

  lemma MergedStep(raw: Manifest, n: Name)
    requires HasChain(raw, n)
    ensures n in raw
    ensures match raw[n].base
            case None => Merged(raw, n) == raw[n].own
            case Some(b) => HasChain(raw, b) && Merged(raw, n) == Merged(raw, b) + raw[n].own
  {
    BaseIsDeclared(raw, n);
    match raw[n].base
    case None => ChainAlone(raw, n);
    case Some(b) => ChainStep(raw, n, b);
  }

  /** With a base, the chain is the role, the base and what lies above the base. */
  lemma AboveBase(raw: Manifest, n: Name, b: Name, f: string)
    requires HasChain(raw, n) && n in raw && raw[n].base == Some(b)
    ensures HasChain(raw, b) && b in raw
    ensures NowhereFrom(raw, ChainOf(raw, n), 2, f) <==> NowhereFrom(raw, ChainOf(raw, b), 1, f)
    ensures f !in Merged(raw, b) <==> f !in raw[b].own && NowhereFrom(raw, ChainOf(raw, b), 1, f)
  {
    ChainStep(raw, n, b);
    BaseIsDeclared(raw, n);
    var p := ChainOf(raw, b);
    assert ([n] + p)[1..] == p;
    NowhereInRest(raw, [n] + p, 1, 1, f);
    MergeHas(raw, b, p, f);
    assert p[0] == b;
    assert NowhereFrom(raw, p, 0, f) <==> f !in raw[b].own && NowhereFrom(raw, p, 1, f);
  }

  /** On any manifest, for any role whose chain ends: the router gives the
      loaded field exactly when its two layers show it, and with a truthy
      base it never gives a different one, only none. */
  lemma RouterFieldExact(declared: map<Name, Spec>, n: Name, f: string)
    requires n in declared && f != "base" && HasChain(ReadManifest(declared), n)
    ensures var router, loaded := RouterField(declared, n, f), LoadedField(Merged(ReadManifest(declared), n), f);
            && (router == loaded <==> TwoLayersShow(declared, n, f))
            && (router.Some? && ReadRole(declared[n]).base.Some? ==> router == loaded)
  {
    var raw := ReadManifest(declared);
    MergedStep(raw, n);
    match ReadRole(declared[n]).base
    case None =>
    case Some(b) =>
      AboveBase(raw, n, b, f);
      MergedStep(raw, b);
  }

  /** Three layers, any names: the loader finds the field, the router nothing. */
  lemma ThirdLayerIsMissed(a: Name, b: Name, c: Name, f: string, v: Json)
    requires a != b && a != c && b != c && Truthy(b) && Truthy(c) && f != "base"
    ensures var declared := map[a := map["base" := b], b := map["base" := c], c := map[f := v]];
            && RouterField(declared, a, f) == None
            && HasChain(ReadManifest(declared), a)
            && LoadedField(Merged(ReadManifest(declared), a), f) == Some(v)
  {
    var declared := map[a := map["base" := b], b := map["base" := c], c := map[f := v]];
    var raw := ReadManifest(declared);
    ChainAlone(raw, c);
    ChainStep(raw, b, c);
    ChainStep(raw, a, b);
  }

  /** No role's base has a base of its own, and none writes a falsy base. */
  ghost predicate OneLevel(declared: map<Name, Spec>) {
    forall n :: n in declared && "base" in declared[n] ==>
      Truthy(declared[n]["base"]) && (declared[n]["base"] in declared ==> "base" !in declared[declared[n]["base"]])
  }

  /** There router and loader agree on every field of every role that loads. */
  lemma OneLevelAgrees(declared: map<Name, Spec>, n: Name, f: string)
    requires n in declared && f != "base" && OneLevel(declared) && HasChain(ReadManifest(declared), n)
    ensures RouterField(declared, n, f) == LoadedField(Merged(ReadManifest(declared), n), f)
  {
    var raw := ReadManifest(declared);
    RouterFieldExact(declared, n, f);
    MergedStep(raw, n);
    match ReadRole(declared[n]).base
    case None =>
    case Some(b) =>
      BaseIsDeclared(raw, n);
      MergedStep(raw, b);
  }

  /** A falsy base is where they part otherwise: the loader ignores it; the
      router merges the role named "" into the role if there is one, and raises
      if there is none, or if the base is null, 0, false or empty. */
  lemma FalsyBaseReadByRouterOnly(declared: map<Name, Spec>, n: Name, f: string)
    requires n in declared && "base" in declared[n] && !Truthy(declared[n]["base"]) && f != "base"
    ensures HasChain(ReadManifest(declared), n)
    ensures LoadedField(Merged(ReadManifest(declared), n), f) == LoadedField(declared[n], f)
    ensures var base := declared[n]["base"];
            RouterField(declared, n, f) ==
            if base in declared then LoadedField(declared[base] + declared[n], f) else None
  {
    ChainAlone(ReadManifest(declared), n);
  }
}
