/** What canonicalisation guarantees, for every graph. */
module PolicyTheorems {
  import opened Order
  import opened Policy
  import opened PolicyPaths

  // ----- acceptance

  lemma {:induction false} ValidateRolesAccepted(g: Graph, names: seq<string>)
    requires forall name | name in names :: name in g.roles
    ensures ValidateRoles(g, names).Accepted? <==>
              forall name | name in names :: ValidateRole(g, name).Accepted?
    ensures ValidateRoles(g, names).MissingRole? ==>
              exists name | name in names :: ValidateRole(g, name).MissingRole?
  {
    if names != [] {
      assert names == [names[0]] + names[1..];
      ValidateRolesAccepted(g, names[1..]);
    }
  }

  lemma RoleAccepted(g: Graph, name: string)
    requires name in g.roles
    ensures ValidateRole(g, name).Accepted? <==>
              && LocallyValid(g, name) && !Inherits(g, name, name)
              && forall x | Inherits(g, name, x) :: x in g.roles
    ensures AllDeclared(g) ==> !ValidateRole(g, name).MissingRole?
  {
    hide WellShaped;
    SearchExact(g, name);
    if AllDeclared(g) { HasCycleExact(g, name); }
  }

  lemma ValidDeclared(g: Graph)
    requires forall name | name in g.roles :: LocallyValid(g, name)
    ensures AllDeclared(g)
  {
    hide WellShaped;
    forall a, b | Edge(g, a, b) ensures b in g.roles { assert LocallyValid(g, a); }
  }

  lemma RolesAccepted(g: Graph)
    ensures (forall name | name in g.roles :: ValidateRole(g, name).Accepted?) <==>
              (forall name | name in g.roles :: LocallyValid(g, name)) && Acyclic(g)
  {
    hide ValidateRole, LocallyValid;
    forall name | name in g.roles
      ensures ValidateRole(g, name).Accepted? ==> LocallyValid(g, name) && !Inherits(g, name, name)
    {
      RoleAccepted(g, name);
    }
    if (forall name | name in g.roles :: LocallyValid(g, name)) && Acyclic(g) {
      ValidDeclared(g);
      forall name | name in g.roles ensures ValidateRole(g, name).Accepted? {
        RoleAccepted(g, name);
        forall x | Inherits(g, name, x) ensures x in g.roles {
          InheritsReaches(g, name, x);
          DeclaredReached(g, name, x);
        }
      }
    }
  }

  /** A policy is accepted exactly when it is valid; the panic needs an undeclared inherited name. */
  lemma AcceptanceExact(g: Graph)
    ensures Canonicalize(g).Accepted? <==> ValidPolicy(g)
    ensures Canonicalize(g).MissingRole? ==> !AllDeclared(g)
  {
    hide ValidateRole, ValidateRoles, LocallyValid, StrictlySorted, Ascending, Expand, SortArrays, Acyclic, AllDeclared;
    ValidateRolesAccepted(g, Ascending(g.roles.Keys));
    RolesAccepted(g);
    forall name | name in g.roles ensures AllDeclared(g) ==> !ValidateRole(g, name).MissingRole? {
      RoleAccepted(g, name);
    }
  }

  // ----- the closure

  lemma SortedEdges(g: Graph)
    ensures forall a, b :: Edge(SortArrays(g), a, b) <==> Edge(g, a, b)
  {
    forall a, b ensures Edge(SortArrays(g), a, b) <==> Edge(g, a, b) {
      if a in g.roles {
        assert multiset(SortArrays(g).roles[a].inherits) == multiset(g.roles[a].inherits);
        assert b in g.roles[a].inherits <==> b in multiset(g.roles[a].inherits);
      }
    }
  }

  lemma SameEdgesReach(g: Graph, h: Graph, a: string, b: string)
    requires forall x, y :: Edge(g, x, y) <==> Edge(h, x, y)
    ensures Reaches(g, a, b) <==> Reaches(h, a, b)
  {
    if Reaches(g, a, b) {
      var p :| Connects(g, p, a, b);
      assert Connects(h, p, a, b);
    }
    if Reaches(h, a, b) {
      var p :| Connects(h, p, a, b);
      assert Connects(g, p, a, b);
    }
  }

  lemma SameEdgesInherit(g: Graph, h: Graph, a: string, b: string)
    requires forall x, y :: Edge(g, x, y) <==> Edge(h, x, y)
    ensures Inherits(g, a, b) <==> Inherits(h, a, b)
  {
    forall c ensures Reaches(g, c, b) <==> Reaches(h, c, b) { SameEdgesReach(g, h, c, b); }
  }

  lemma SortedClosure(g: Graph, name: string)
    requires AllDeclared(g) && name in g.roles
    ensures forall r :: r in EffectiveRoles(SortArrays(g), name) <==> Reaches(g, name, r)
  {
    SortedEdges(g);
    forall r ensures r in EffectiveRoles(SortArrays(g), name) <==> Reaches(g, name, r) {
      SameEdgesReach(g, SortArrays(g), name, r);
      if Reaches(g, name, r) { DeclaredReached(g, name, r); }
    }
  }

  lemma SortedPermissions(g: Graph, names: set<string>)
    ensures PermissionsOf(SortArrays(g), names) == PermissionsOf(g, names)
  {
    forall r | r in g.roles
      ensures forall p :: p in SortArrays(g).roles[r].permissions <==> p in g.roles[r].permissions
    {
      SameElements(SortArrays(g).roles[r].permissions, g.roles[r].permissions);
    }
  }

  lemma AcceptedShape(g: Graph)
    requires Canonicalize(g).Accepted?
    ensures ValidPolicy(g) && AllDeclared(g)
    ensures Canonicalize(g).value == Canonical(SortArrays(g), Expand(SortArrays(g)))
  {
    AcceptanceExact(g);
    ValidDeclared(g);
  }

  /** The stored closure is the reflexive-transitive closure of the graph that came in, each list
      strictly ascending, and the stored permissions are exactly those of the reached roles. */
  lemma EffectiveExact(g: Graph, name: string)
    requires Canonicalize(g).Accepted? && name in g.roles
    ensures var e := Canonicalize(g).value.effective;
            && e.roles.Keys == e.permissions.Keys == g.roles.Keys
            && StrictlySorted(e.roles[name]) && StrictlySorted(e.permissions[name])
            && (forall r :: r in e.roles[name] <==> Reaches(g, name, r))
            && (forall p :: p in e.permissions[name] <==>
                  exists r :: Reaches(g, name, r) && r in g.roles && p in g.roles[r].permissions)
  {
    hide Leq, StrictlySorted, ValidPolicy, Canonicalize, Reaches;
    AcceptedShape(g);
    var h := SortArrays(g);
    SortedClosure(g, name);
    SortedPermissions(g, EffectiveRoles(h, name));
    assert Expand(h).permissions[name] == Ascending(PermissionsOf(g, EffectiveRoles(h, name)));
  }

  // ----- order

  /** Effective roles form a partial order, permissions grow along it, and the size of a role's
      closure is a rank that falls along every inheritance edge. */
  lemma EffectiveOrder(g: Graph, a: string, b: string, c: string)
    requires Canonicalize(g).Accepted? && a in g.roles && b in g.roles && c in g.roles
    ensures var e := Canonicalize(g).value.effective;
            && a in e.roles[a]
            && (b in e.roles[a] && c in e.roles[b] ==> c in e.roles[a])
            && (b in e.roles[a] && a in e.roles[b] ==> a == b)
            && (b in e.roles[a] ==> forall p | p in e.permissions[b] :: p in e.permissions[a])
            && (Edge(g, a, b) ==> |e.roles[b]| < |e.roles[a]|)
  {
    AcceptanceExact(g);
    EffectiveExact(g, a);
    EffectiveExact(g, b);
    var e := Canonicalize(g).value.effective;
    ReachesSelf(g, a);
    if Reaches(g, a, b) {
      forall x | Reaches(g, b, x) ensures Reaches(g, a, x) { ReachesTransitive(g, a, b, x); }
      if Reaches(g, b, a) && a != b {
        ReachesSplit(g, a, b);
        InheritsThenReaches(g, a, b, a);
      }
    }
    if Edge(g, a, b) {
      ReachesStep(g, a, a, b);
      forall x | x in e.roles[b] ensures x in e.roles[a] { ReachesTransitive(g, a, b, x); }
      assert !Reaches(g, b, a);
      FewerElements(e.roles[b], e.roles[a], a);
    }
  }

  lemma StrictlySortedSize(s: seq<string>)
    requires StrictlySorted(s)
    ensures |set x | x in s| == |s|
  {
    if s != [] {
      var last := s[|s| - 1];
      var init := s[..|s| - 1];
      StrictlySortedSize(init);
      assert s == init + [last];
      assert (set x | x in s) == (set x | x in init) + {last};
    }
  }

  lemma FewerElements(small: seq<string>, big: seq<string>, extra: string)
    requires StrictlySorted(small) && StrictlySorted(big)
    requires (forall x | x in small :: x in big) && extra in big && extra !in small
    ensures |small| < |big|
  {
    StrictlySortedSize(small);
    StrictlySortedSize(big);
    var a, b := set x | x in small, set x | x in big;
    assert a + {extra} <= b;
    SubsetSize(a + {extra}, b);
  }

  lemma {:induction false} SubsetSize<T>(a: set<T>, b: set<T>)
    requires a <= b
    ensures |a| <= |b|
  {
    if a != {} {
      var x :| x in a;
      SubsetSize(a - {x}, b - {x});
    }
  }

  // ----- canonical form

  ghost predicate SameUpToOrder(g: Graph, h: Graph)
  {
    && g.defaultRole == h.defaultRole
    && g.roles.Keys == h.roles.Keys
    && forall name | name in g.roles ::
         && multiset(g.roles[name].inherits) == multiset(h.roles[name].inherits)
         && multiset(g.roles[name].permissions) == multiset(h.roles[name].permissions)
  }

  lemma SameElements(a: seq<string>, b: seq<string>)
    requires multiset(a) == multiset(b)
    ensures |a| == |b| && (set x | x in a) == (set x | x in b)
    ensures forall x :: x in a <==> x in b
  {
    assert |multiset(a)| == |a| && |multiset(b)| == |b|;
    forall x ensures x in a <==> x in b {
      assert x in a <==> x in multiset(a);
      assert x in b <==> x in multiset(b);
    }
  }

  lemma SameRole(a: Role, b: Role)
    requires multiset(a.inherits) == multiset(b.inherits) && multiset(a.permissions) == multiset(b.permissions)
    ensures SortRole(a) == SortRole(b)
  {
    SortedUnique(Sort(a.inherits), Sort(b.inherits));
    SortedUnique(Sort(a.permissions), Sort(b.permissions));
  }

  lemma SameUpToOrderSorts(g: Graph, h: Graph)
    requires SameUpToOrder(g, h)
    ensures SortArrays(g) == SortArrays(h)
  {
    hide SortRole;
    forall name | name in g.roles ensures SortRole(g.roles[name]) == SortRole(h.roles[name]) {
      SameRole(g.roles[name], h.roles[name]);
    }
  }

  lemma SameUpToOrderEdges(g: Graph, h: Graph)
    requires SameUpToOrder(g, h)
    ensures forall x, y :: Edge(g, x, y) <==> Edge(h, x, y)
  {
    forall x, y ensures Edge(g, x, y) <==> Edge(h, x, y) {
      if x in g.roles { SameElements(g.roles[x].inherits, h.roles[x].inherits); }
    }
  }

  lemma SameUpToOrderValid(g: Graph, h: Graph)
    requires SameUpToOrder(g, h) && ValidPolicy(g)
    ensures ValidPolicy(h)
  {
    forall name | name in h.roles ensures LocallyValid(h, name) {
      var a, b := g.roles[name], h.roles[name];
      assert LocallyValid(g, name);
      SameElements(a.inherits, b.inherits);
      SameElements(a.permissions, b.permissions);
    }
    SameUpToOrderEdges(g, h);
    forall name | name in h.roles ensures !Inherits(h, name, name) {
      SameEdgesInherit(g, h, name, name);
    }
    assert |g.roles| == |g.roles.Keys| && |h.roles| == |h.roles.Keys|;
  }

  lemma SameAccepted(g: Graph, h: Graph)
    requires SameUpToOrder(g, h) && Canonicalize(g).Accepted?
    ensures Canonicalize(h) == Canonicalize(g)
  {
    hide ValidPolicy, Validate, SortArrays, Expand, SameUpToOrder;
    AcceptanceExact(g);
    SameUpToOrderValid(g, h);
    AcceptanceExact(h);
    SameUpToOrderSorts(g, h);
  }

  /** Canonicalising a canonical graph returns it with the same closure. */
  lemma Idempotent(g: Graph)
    requires Canonicalize(g).Accepted?
    ensures Canonicalize(Canonicalize(g).value.graph) == Canonicalize(g)
  {
    hide ValidPolicy, AllDeclared, Expand, Leq;
    AcceptedShape(g);
    SameAccepted(g, SortArrays(g));
  }

  // ----- bounds

  lemma {:induction false} PermissionsBound(g: Graph, names: set<string>)
    requires forall name | name in g.roles :: |g.roles[name].permissions| <= MAXIMUM_DIRECT_PERMISSIONS
    ensures |PermissionsOf(g, names)| <= MAXIMUM_DIRECT_PERMISSIONS * |names|
  {
    if names == {} {
      assert PermissionsOf(g, names) == {};
    } else {
      var x :| x in names;
      var rest := names - {x};
      PermissionsBound(g, rest);
      var own := if x in g.roles then g.roles[x].permissions else [];
      ElementsBound(own);
      assert PermissionsOf(g, names) <= PermissionsOf(g, rest) + (set p | p in own);
      SubsetSize(PermissionsOf(g, names), PermissionsOf(g, rest) + (set p | p in own));
    }
  }

  lemma {:induction false} ElementsBound(s: seq<string>)
    ensures |set x | x in s| <= |s|
  {
    if s != [] {
      ElementsBound(s[1..]);
      assert (set x | x in s) == {s[0]} + (set x | x in s[1..]);
    }
  }

  /** An accepted policy stores at most 32 roles and 2048 permissions for each role. */
  lemma EffectiveBounds(g: Graph, name: string)
    requires Canonicalize(g).Accepted? && name in g.roles
    ensures var e := Canonicalize(g).value.effective;
            |e.roles[name]| <= MAXIMUM_ROLES && |e.permissions[name]| <= MAXIMUM_ROLES * MAXIMUM_DIRECT_PERMISSIONS
  {
    AcceptedShape(g);
    var reached := EffectiveRoles(SortArrays(g), name);
    assert reached <= g.roles.Keys;
    SubsetSize(reached, g.roles.Keys);
    assert |g.roles.Keys| == |g.roles|;
    SortedPermissions(g, reached);
    forall r | r in g.roles ensures |g.roles[r].permissions| <= MAXIMUM_DIRECT_PERMISSIONS {
      assert LocallyValid(g, r);
    }
    PermissionsBound(g, reached);
  }
}
