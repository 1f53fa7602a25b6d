/** The worklist loops of the canonicaliser, each proved against the path-based meaning of the graph. */
module PolicyLoops {
  import opened Order
  import opened Policy
  import opened PolicyPaths
  import opened PolicyTheorems
  import opened PolicyAcceptance

  ghost predicate DirectLimit(g: Graph)
  {
    forall name | name in g.roles :: |g.roles[name].inherits| <= MAXIMUM_DIRECT_INHERITED
  }

  /** `has_cycle`. The stack may hold duplicates, yet on a graph within the limits it is popped at
      most 256 times. */
  method HasCycle(origin: string, g: Graph) returns (found: Search, ghost pops: nat)
    requires origin in g.roles
    ensures found == SearchFrom(g, origin)
    ensures AllDeclared(g) ==> found == if Inherits(g, origin, origin) then Cycle else NoCycle
    ensures DirectLimit(g) && |g.roles| <= MAXIMUM_ROLES ==> pops <= MAXIMUM_ROLES * MAXIMUM_DIRECT_INHERITED
  {
    if AllDeclared(g) { HasCycleExact(g, origin); }
    var pending := g.roles[origin].inherits;
    var visited: set<string> := {};
    pops := 0;
    while pending != []
      invariant CycleSearch(g, origin, pending, visited) == SearchFrom(g, origin)
      invariant visited <= g.roles.Keys - {origin}
      invariant DirectLimit(g) ==> pops + |pending| <= MAXIMUM_DIRECT_INHERITED * (1 + |visited|)
      decreases g.roles.Keys - visited, |pending|
    {
      SubsetSize(visited, g.roles.Keys - {origin});
      var candidate := pending[|pending| - 1];
      pending := pending[..|pending| - 1];
      pops := pops + 1;
      if candidate == origin {
        return Cycle, pops;
      }
      if candidate !in visited {
        if candidate !in g.roles {
          return Absent, pops;
        }
        assert candidate in g.roles.Keys - visited && candidate !in g.roles.Keys - (visited + {candidate});
        visited := visited + {candidate};
        pending := pending + g.roles[candidate].inherits;
      }
    }
    SubsetSize(visited, g.roles.Keys - {origin});
    return NoCycle, pops;
  }

  /** `validate_graph`: roles in ascending order, stopping at the first failure. */
  method ValidateGraph(g: Graph) returns (r: Outcome<()>)
    ensures r == Validate(g)
  {
    hide Leq, StrictlySorted, Ascending, LocallyValid, SearchFrom, GloballyValid;
    if !GloballyValid(g) {
      return Rejected;
    }
    var names := Ascending(g.roles.Keys);
    for k := 0 to |names|
      invariant ValidateRoles(g, names[k..]) == Validate(g)
    {
      assert names[k] in names;
      assert names[k..][1..] == names[k + 1..] && names[k..][0] == names[k];
      if !LocallyValid(g, names[k]) {
        return Rejected;
      }
      var found, _ := HasCycle(names[k], g);
      match found {
        case Cycle => return Rejected;
        case Absent => return MissingRole;
        case NoCycle =>
      }
    }
    return Accepted(());
  }

  /** `canonicalize_direct_arrays`: both arrays of every role are sorted, nothing else changes. */
  method CanonicalizeDirectArrays(g: Graph) returns (h: Graph)
    ensures h == SortArrays(g)
  {
    hide Leq, Sort, Sorted;
    var roles, remaining := g.roles, g.roles.Keys;
    while remaining != {}
      invariant remaining <= roles.Keys == g.roles.Keys
      invariant forall name | name in remaining :: roles[name] == g.roles[name]
      invariant forall name | name in roles && name !in remaining :: roles[name] == SortRole(g.roles[name])
    {
      var name := Least(remaining);
      roles := roles[name := SortRole(roles[name])];
      remaining := remaining - {name};
    }
    h := Graph(g.defaultRole, roles);
  }

  /** `inherited_closure`: the visited set grows until it is exactly the set of reachable roles. */
  method InheritedClosure(name: string, g: Graph) returns (closure: seq<string>, ghost pops: nat)
    requires AllDeclared(g) && name in g.roles
    ensures closure == Ascending(EffectiveRoles(g, name))
    ensures DirectLimit(g) && |g.roles| <= MAXIMUM_ROLES ==> pops <= MAXIMUM_ROLES * MAXIMUM_DIRECT_INHERITED
  {
    var roles := {name};
    var pending := g.roles[name].inherits;
    pops := 0;
    ReachesSelf(g, name);
    forall x | x in pending ensures Reaches(g, name, x) {
      assert Edge(g, name, x);
      ReachesStep(g, name, name, x);
    }
    while pending != []
      invariant name in roles && roles <= EffectiveRoles(g, name)
      invariant forall x | x in pending :: Reaches(g, name, x)
      invariant forall a, b | a in roles && Edge(g, a, b) :: b in roles || b in pending
      invariant DirectLimit(g) ==> pops + |pending| <= MAXIMUM_DIRECT_INHERITED * |roles|
      decreases g.roles.Keys - roles, |pending|
    {
      var candidate := pending[|pending| - 1];
      ghost var before := pending;
      assert candidate in pending;
      pending := pending[..|pending| - 1];
      assert before == pending + [candidate];
      pops := pops + 1;
      if candidate !in roles {
        DeclaredReached(g, name, candidate);
        assert candidate in g.roles.Keys - roles && candidate !in g.roles.Keys - (roles + {candidate});
        var inherits := g.roles[candidate].inherits;
        forall x | x in inherits ensures Reaches(g, name, x) {
          assert Edge(g, candidate, x);
          ReachesStep(g, name, candidate, x);
        }
        roles := roles + {candidate};
        pending := pending + inherits;
      }
    }
    assert roles == EffectiveRoles(g, name) by {
      forall r | r in EffectiveRoles(g, name) ensures r in roles { ClosedHoldsReached(g, roles, name, r); }
    }
    SubsetSize(roles, g.roles.Keys);
    closure := Ascending(roles);
  }

  /** `expand`: one closure and one permission union for each role. */
  method ExpandGraph(g: Graph) returns (e: Effective)
    requires AllDeclared(g)
    ensures e == Expand(g)
  {
    hide Leq, StrictlySorted, Ascending, PermissionsOf, EffectiveRoles, AllDeclared;
    var roles: map<string, seq<string>>, permissions: map<string, seq<string>> := map[], map[];
    var remaining := g.roles.Keys;
    while remaining != {}
      invariant remaining <= g.roles.Keys
      invariant roles.Keys == permissions.Keys == g.roles.Keys - remaining
      invariant forall name | name in roles :: roles[name] == Ascending(EffectiveRoles(g, name))
      invariant forall name | name in roles ::
                  permissions[name] == Ascending(PermissionsOf(g, EffectiveRoles(g, name)))
    {
      var name := Least(remaining);
      var closure, _ := InheritedClosure(name, g);
      var reached := set r | r in closure;
      assert reached == EffectiveRoles(g, name) by {
        assert forall r :: r in closure <==> r in EffectiveRoles(g, name);
      }
      roles := roles[name := closure];
      permissions := permissions[name := Ascending(PermissionsOf(g, reached))];
      remaining := remaining - {name};
    }
    e := Effective(roles, permissions);
  }

  /** `canonicalize_application_policy`. The panic never comes from the closure: what passes
      validation has every inherited name declared. */
  method CanonicalizeApplicationPolicy(g: Graph) returns (r: Outcome<Canonical>)
    ensures r == Canonicalize(g)
    ensures r.Accepted? <==> Stated(g)
    ensures r.MissingRole? ==> !AllDeclared(g)
  {
    AcceptanceExact(g);
    AcceptedExactly(g);
    var valid := ValidateGraph(g);
    match valid {
      case Rejected => r := Rejected;
      case MissingRole => r := MissingRole;
      case Accepted(_) =>
        var h := CanonicalizeDirectArrays(g);
        assert AllDeclared(h) by {
          ValidDeclared(g);
          SortedEdges(g);
        }
        var effective := ExpandGraph(h);
        r := Accepted(Canonical(h, effective));
    }
  }
}
