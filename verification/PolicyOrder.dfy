/** The outcome of every graph, rejected ones included, and when the order of its arrays decides it. */
module PolicyOrder {
  import opened Text
  import opened Order
  import opened Policy
  import opened PolicyPaths
  import opened PolicyTheorems

  // ----- the first failing role decides

  /** Some undeclared name is inherited, however far away. */
  ghost predicate Dangling(g: Graph, name: string)
  {
    exists x :: Inherits(g, name, x) && x !in g.roles
  }

  ghost predicate Fails(g: Graph, name: string)
    requires name in g.roles
  {
    !LocallyValid(g, name) || Inherits(g, name, name) || Dangling(g, name)
  }

  /** The first role, in name order, with anything wrong. */
  ghost predicate FirstFailing(g: Graph, name: string)
  {
    name in g.roles && Fails(g, name) && forall other | other in g.roles && Fails(g, other) :: Leq(name, other)
  }

  lemma FailsExactly(g: Graph, name: string)
    requires name in g.roles
    ensures Fails(g, name) <==> !ValidateRole(g, name).Accepted?
  {
    hide LocallyValid, ValidateRole;
    RoleAccepted(g, name);
  }

  lemma {:induction false} FirstFailureDecides(g: Graph, names: seq<string>, k: nat)
    requires forall name | name in names :: name in g.roles
    requires k < |names| && forall i | 0 <= i < k :: ValidateRole(g, names[i]).Accepted?
    requires !ValidateRole(g, names[k]).Accepted?
    ensures ValidateRoles(g, names) == ValidateRole(g, names[k])
  {
    if k > 0 { FirstFailureDecides(g, names[1..], k - 1); }
  }

  lemma FirstFailingDecides(g: Graph, first: string)
    requires GloballyValid(g) && FirstFailing(g, first)
    ensures Validate(g) == ValidateRole(g, first)
  {
    hide Fails, ValidateRole;
    var names := Ascending(g.roles.Keys);
    var k :| 0 <= k < |names| && names[k] == first;
    forall i | 0 <= i < k ensures ValidateRole(g, names[i]).Accepted? {
      assert names[i] in names;
      FailsExactly(g, names[i]);
      if Fails(g, names[i]) { LeqAntisymmetric(names[i], names[k]); }
    }
    FailsExactly(g, first);
    FirstFailureDecides(g, names, k);
  }

  /** Locally sound, yet inheriting both itself and an undeclared name: which of the two the search
      meets first is not settled by the inheritance relation. */
  ghost predicate Torn(g: Graph, name: string)
  {
    name in g.roles && LocallyValid(g, name) && Inherits(g, name, name) && Dangling(g, name)
  }

  /** The outcome of every graph whose first failing role is not torn; a torn one is still never
      accepted. */
  lemma OutcomeExact(g: Graph)
    ensures !GloballyValid(g) ==> Canonicalize(g) == Rejected
    ensures GloballyValid(g) && (forall name | name in g.roles :: !Fails(g, name)) ==> Canonicalize(g).Accepted?
    ensures forall first | GloballyValid(g) && FirstFailing(g, first) ::
              if !LocallyValid(g, first) || !Dangling(g, first) then Canonicalize(g) == Rejected
              else if !Inherits(g, first, first) then Canonicalize(g) == MissingRole
              else !Canonicalize(g).Accepted?
  {
    hide LocallyValid, GloballyValid, Expand, SortArrays, Inherits, Ascending;
    forall first | GloballyValid(g) && FirstFailing(g, first)
      ensures if !LocallyValid(g, first) || !Dangling(g, first) then Canonicalize(g) == Rejected
              else if !Inherits(g, first, first) then Canonicalize(g) == MissingRole
              else !Canonicalize(g).Accepted?
    {
      FirstFailingDecides(g, first);
      SearchExact(g, first);
    }
    if GloballyValid(g) && forall name | name in g.roles :: !Fails(g, name) { NothingFails(g); }
  }

  lemma NothingFails(g: Graph)
    requires GloballyValid(g) && forall name | name in g.roles :: !Fails(g, name)
    ensures Canonicalize(g).Accepted?
  {
    hide Fails, ValidateRole, GloballyValid, Expand, SortArrays;
    forall name | name in g.roles ensures ValidateRole(g, name).Accepted? { FailsExactly(g, name); }
    ValidateRolesAccepted(g, Ascending(g.roles.Keys));
  }

  lemma {:induction false} FirstFailingExists(g: Graph)
    requires exists name | name in g.roles :: Fails(g, name)
    ensures exists first :: FirstFailing(g, first)
  {
    hide Fails;
    var failing := set name | name in g.roles && Fails(g, name);
    var some :| some in g.roles && Fails(g, some);
    assert some in failing;
    LeastExists(failing);
    var first :| IsLeast(first, failing);
    assert FirstFailing(g, first);
  }

  // ----- what reordering keeps

  lemma SameFails(g: Graph, h: Graph, name: string)
    requires SameUpToOrder(g, h) && name in g.roles
    ensures LocallyValid(g, name) <==> LocallyValid(h, name)
    ensures Inherits(g, name, name) <==> Inherits(h, name, name)
    ensures Dangling(g, name) <==> Dangling(h, name)
  {
    hide Inherits, Permission, RoleName;
    SameElements(g.roles[name].inherits, h.roles[name].inherits);
    SameElements(g.roles[name].permissions, h.roles[name].permissions);
    SameUpToOrderEdges(g, h);
    forall x ensures Inherits(g, name, x) <==> Inherits(h, name, x) { SameEdgesInherit(g, h, name, x); }
  }

  lemma SameFirstFailing(g: Graph, h: Graph, first: string)
    requires SameUpToOrder(g, h) && FirstFailing(g, first)
    ensures FirstFailing(h, first)
  {
    hide LocallyValid, Inherits, Dangling, Leq;
    forall name | name in g.roles ensures Fails(g, name) <==> Fails(h, name) { SameFails(g, h, name); }
  }

  lemma SameGloballyValid(g: Graph, h: Graph)
    requires SameUpToOrder(g, h)
    ensures GloballyValid(g) <==> GloballyValid(h)
  {
    assert |g.roles| == |g.roles.Keys| && |h.roles| == |h.roles.Keys|;
  }

  // ----- steering the search along a path

  /** A path of at least one step that visits no role twice, though it may come back to its start. */
  ghost predicate SimplePath(g: Graph, p: seq<string>)
  {
    |p| > 1 && IsPath(g, p) && forall i, j | 0 <= i < j < |p| - 1 :: p[i] != p[j]
  }

  /** Cutting out the loops of a path leaves a simple one between the same ends. */
  lemma {:induction false} Shorten(g: Graph, p: seq<string>) returns (q: seq<string>)
    requires |p| > 1 && IsPath(g, p)
    ensures SimplePath(g, q) && q[0] == p[0] && q[|q| - 1] == p[|p| - 1]
    decreases |p|
  {
    if i, j :| 0 <= i < j < |p| - 1 && p[i] == p[j] {
      var cut := p[..i] + p[j..];
      forall k | 0 <= k < |cut| - 1 ensures Edge(g, cut[k], cut[k + 1]) {
        if k < i {
          assert cut[k] == p[k] && cut[k + 1] == p[k + 1];
        } else {
          assert cut[k] == p[k - i + j] && cut[k + 1] == p[k + 1 - i + j];
        }
      }
      q := Shorten(g, cut);
    } else {
      q := p;
    }
  }

  lemma SimplePathExists(g: Graph, a: string, b: string) returns (p: seq<string>)
    requires Inherits(g, a, b)
    ensures SimplePath(g, p) && p[0] == a && p[|p| - 1] == b
  {
    var c :| Edge(g, a, c) && Reaches(g, c, b);
    var q :| Connects(g, q, c, b);
    var walk := [a] + q;
    assert forall i | 0 < i < |walk| :: walk[i] == q[i - 1];
    p := Shorten(g, walk);
  }

  /** The same elements with `x` moved to the end. */
  ghost function MovedLast(s: seq<string>, x: string): (r: seq<string>)
    requires x in s
    ensures multiset(r) == multiset(s) && r != [] && r[|r| - 1] == x
  {
    var k :| 0 <= k < |s| && s[k] == x;
    assert s == s[..k] + [s[k]] + s[k + 1..];
    s[..k] + s[k + 1..] + [x]
  }

  /** The step a path takes from `x`. */
  ghost function Next(p: seq<string>, x: string): (y: string)
    requires |p| > 1 && x in p[..|p| - 1]
    ensures exists i :: 0 <= i < |p| - 1 && p[i] == x && p[i + 1] == y
  {
    var i :| 0 <= i < |p| - 1 && p[i] == x;
    p[i + 1]
  }

  ghost function SteeredRole(g: Graph, p: seq<string>, name: string): Role
    requires SimplePath(g, p) && name in g.roles
  {
    if name in p[..|p| - 1] then
      assert Edge(g, name, Next(p, name));
      g.roles[name].(inherits := MovedLast(g.roles[name].inherits, Next(p, name)))
    else g.roles[name]
  }

  /** The graph with every role of the path inheriting its next step last, where the search looks first. */
  ghost function Steered(g: Graph, p: seq<string>): (h: Graph)
    requires SimplePath(g, p)
    ensures SameUpToOrder(g, h)
  {
    Graph(g.defaultRole, map name | name in g.roles :: SteeredRole(g, p, name))
  }

  lemma SteeredNext(g: Graph, p: seq<string>, i: nat)
    requires SimplePath(g, p) && i < |p| - 1
    ensures p[i] in g.roles
    ensures var inherits := Steered(g, p).roles[p[i]].inherits;
            inherits != [] && inherits[|inherits| - 1] == p[i + 1]
  {
    assert Edge(g, p[i], p[i + 1]);
    assert p[..|p| - 1][i] == p[i];
    assert Next(p, p[i]) == p[i + 1];
  }

  /** On the steered graph the search walks the path and stops at its end. */
  lemma {:induction false} SearchFollows(g: Graph, p: seq<string>, i: nat, pending: seq<string>, visited: set<string>)
    requires SimplePath(g, p) && (p[|p| - 1] == p[0] || p[|p| - 1] !in g.roles)
    requires 0 < i < |p| && pending != [] && pending[|pending| - 1] == p[i]
    requires forall x | x in visited :: exists k | 0 < k < i :: p[k] == x
    ensures CycleSearch(Steered(g, p), p[0], pending, visited) == if p[|p| - 1] == p[0] then Cycle else Absent
    decreases |p| - i
  {
    hide Steered;
    var h := Steered(g, p);
    if i < |p| - 1 {
      SteeredNext(g, p, i);
      var longer := pending[..|pending| - 1] + h.roles[p[i]].inherits;
      SearchFollows(g, p, i + 1, longer, visited + {p[i]});
    } else {
      forall k | 0 < k < i ensures p[k] in g.roles { SteeredNext(g, p, k); }
    }
  }

  lemma SteeredSearch(g: Graph, p: seq<string>)
    requires SimplePath(g, p) && (p[|p| - 1] == p[0] || p[|p| - 1] !in g.roles)
    ensures p[0] in g.roles
    ensures SearchFrom(Steered(g, p), p[0]) == if p[|p| - 1] == p[0] then Cycle else Absent
  {
    hide Steered, CycleSearch;
    SteeredNext(g, p, 0);
    SearchFollows(g, p, 1, Steered(g, p).roles[p[0]].inherits, {});
  }

  // ----- array order

  lemma SteeredOutcome(g: Graph, first: string, p: seq<string>)
    requires GloballyValid(g) && FirstFailing(g, first) && Torn(g, first)
    requires SimplePath(g, p) && p[0] == first && (p[|p| - 1] == first || p[|p| - 1] !in g.roles)
    ensures Canonicalize(Steered(g, p)) == if p[|p| - 1] == first then Rejected else MissingRole
  {
    hide Steered, LocallyValid, Dangling, Inherits, SearchFrom, SimplePath;
    var h := Steered(g, p);
    SameGloballyValid(g, h);
    SameFirstFailing(g, h, first);
    SameFails(g, h, first);
    SteeredSearch(g, p);
    FirstFailingDecides(h, first);
  }

  /** If the first failing role is torn, the order of the arrays decides: one order of the same graph is
      reported and another panics. */
  lemma OrderDecides(g: Graph, first: string) returns (reported: Graph, panicking: Graph)
    requires GloballyValid(g) && FirstFailing(g, first) && Torn(g, first)
    ensures SameUpToOrder(g, reported) && Canonicalize(reported) == Rejected
    ensures SameUpToOrder(g, panicking) && Canonicalize(panicking) == MissingRole
  {
    hide LocallyValid, FirstFailing;
    var p := SimplePathExists(g, first, first);
    SteeredOutcome(g, first, p);
    reported := Steered(g, p);
    var x :| Inherits(g, first, x) && x !in g.roles;
    var q := SimplePathExists(g, first, x);
    SteeredOutcome(g, first, q);
    panicking := Steered(g, q);
  }

  lemma SameOutcome(g: Graph, h: Graph)
    requires SameUpToOrder(g, h)
    requires !exists first :: GloballyValid(g) && FirstFailing(g, first) && Torn(g, first)
    ensures Canonicalize(h) == Canonicalize(g)
  {
    hide LocallyValid, GloballyValid, Dangling, Inherits, Canonicalize, SameUpToOrder, FirstFailing;
    OutcomeExact(g);
    OutcomeExact(h);
    SameGloballyValid(g, h);
    if GloballyValid(g) {
      if exists name | name in g.roles :: Fails(g, name) {
        FirstFailingExists(g);
        var first :| FirstFailing(g, first);
        SameFirstFailing(g, h, first);
        FirstFailingIsRole(g, first);
        SameFails(g, h, first);
      } else {
        SameAccepted(g, h);
      }
    }
  }

  lemma FirstFailingIsRole(g: Graph, first: string)
    requires FirstFailing(g, first)
    ensures first in g.roles && Fails(g, first)
  {
  }

  /** Array order never matters, exactly unless the first failing role is torn. */
  lemma OrderBlind(g: Graph)
    ensures (forall h | SameUpToOrder(g, h) :: Canonicalize(h) == Canonicalize(g)) <==>
              !exists first :: GloballyValid(g) && FirstFailing(g, first) && Torn(g, first)
  {
    hide Torn, FirstFailing, GloballyValid, Canonicalize, SameUpToOrder;
    if first :| GloballyValid(g) && FirstFailing(g, first) && Torn(g, first) {
      var reported, panicking := OrderDecides(g, first);
    } else {
      forall h | SameUpToOrder(g, h) ensures Canonicalize(h) == Canonicalize(g) { SameOutcome(g, h); }
    }
  }

  // ----- witnesses

  const NO_PERMISSIONS: seq<string> := []

  /** `a` inherits `b`, which inherits a name nobody declared. */
  const BROKEN_CHAIN := Graph(None, map["a" := Role(["b"], NO_PERMISSIONS), "b" := Role(["x"], NO_PERMISSIONS)])

  /** The documented error for undeclared inheritance is not what this graph gets: the lookup panics. */
  lemma UndeclaredCanPanic()
    ensures !AllDeclared(BROKEN_CHAIN)
    ensures Canonicalize(BROKEN_CHAIN) == MissingRole
  {
    assert Edge(BROKEN_CHAIN, "b", "x");
    ChainSearch();
    ChainRole();
    FirstRoleDecides(BROKEN_CHAIN);
  }

  lemma SearchExpands(g: Graph, origin: string, rest: seq<string>, c: string)
    requires c != origin && c in g.roles
    ensures CycleSearch(g, origin, rest + [c], {}) == CycleSearch(g, origin, rest + g.roles[c].inherits, {c})
  {
    assert (rest + [c])[..|rest|] == rest;
    assert {} + {c} == {c};
  }

  lemma SearchStops(g: Graph, origin: string, rest: seq<string>, c: string, visited: set<string>)
    requires c == origin || (c !in visited && c !in g.roles)
    ensures CycleSearch(g, origin, rest + [c], visited) == if c == origin then Cycle else Absent
  {
  }

  lemma ChainSearch()
    ensures SearchFrom(BROKEN_CHAIN, "a") == Absent
  {
    hide CycleSearch;
    assert ["b"] == [] + ["b"];
    SearchExpands(BROKEN_CHAIN, "a", [], "b");
    SearchStops(BROKEN_CHAIN, "a", [], "x", {"b"});
  }

  lemma ChainRole()
    ensures LocallyValid(BROKEN_CHAIN, "a") && GloballyValid(BROKEN_CHAIN)
    ensures IsLeast("a", BROKEN_CHAIN.roles.Keys)
  {
    assert BROKEN_CHAIN.roles.Keys == {"a", "b"};
    UniqueSingleton("b");
    assert Leq("a", "a") && Leq("a", "b");
  }

  lemma UniqueSingleton(x: string)
    ensures Unique([x]) && Unique([])
  {
    assert (set y | y in [x]) == {x};
    var none: seq<string> := [];
    assert (set y | y in none) == {};
  }

  const CYCLE_LAST := Graph(None, map[
    "a" := Role(["b", "c"], NO_PERMISSIONS),
    "b" := Role(["x"], NO_PERMISSIONS),
    "c" := Role(["a"], NO_PERMISSIONS)])

  const CYCLE_FIRST := Graph(None, map[
    "a" := Role(["c", "b"], NO_PERMISSIONS),
    "b" := Role(["x"], NO_PERMISSIONS),
    "c" := Role(["a"], NO_PERMISSIONS)])

  lemma LeastFirst(s: set<string>, m: string)
    requires IsLeast(m, s)
    ensures Ascending(s) != [] && Ascending(s)[0] == m
  {
    var names := Ascending(s);
    var k :| 0 <= k < |names| && names[k] == m;
    assert names[0] in names;
    if k > 0 { LeqAntisymmetric(m, names[0]); }
  }

  lemma UniquePair(x: string, y: string)
    requires x != y
    ensures Unique([x, y])
  {
    assert (set z | z in [x, y]) == {x, y};
  }

  /** The role `a` is checked first, so its own check decides. */
  lemma FirstRoleDecides(g: Graph)
    requires GloballyValid(g) && IsLeast("a", g.roles.Keys)
    requires !ValidateRole(g, "a").Accepted?
    ensures Validate(g) == ValidateRole(g, "a")
  {
    LeastFirst(g.roles.Keys, "a");
    FirstFailureDecides(g, Ascending(g.roles.Keys), 0);
  }

  lemma CycleMetFirst()
    ensures SearchFrom(CYCLE_LAST, "a") == Cycle
  {
    hide CycleSearch;
    assert ["b", "c"] == ["b"] + ["c"];
    SearchExpands(CYCLE_LAST, "a", ["b"], "c");
    SearchStops(CYCLE_LAST, "a", ["b"], "a", {"c"});
  }

  lemma AbsentMetFirst()
    ensures SearchFrom(CYCLE_FIRST, "a") == Absent
  {
    hide CycleSearch;
    assert ["c", "b"] == ["c"] + ["b"];
    SearchExpands(CYCLE_FIRST, "a", ["c"], "b");
    SearchStops(CYCLE_FIRST, "a", ["c"], "x", {"b"});
  }

  lemma LeastA()
    ensures IsLeast("a", {"a", "b", "c"})
  {
    assert Leq("a", "a") && Leq("a", "b") && Leq("a", "c");
  }

  lemma FirstRoleLocallyValid()
    ensures LocallyValid(CYCLE_LAST, "a") && LocallyValid(CYCLE_FIRST, "a")
  {
    UniquePair("b", "c");
    UniquePair("c", "b");
    UniqueSingleton("a");
  }

  lemma CycleReported()
    ensures Validate(CYCLE_LAST) == Rejected
  {
    assert CYCLE_LAST.roles.Keys == {"a", "b", "c"};
    LeastA();
    FirstRoleLocallyValid();
    CycleMetFirst();
    FirstRoleDecides(CYCLE_LAST);
  }

  lemma AbsentPanics()
    ensures Validate(CYCLE_FIRST) == MissingRole
  {
    assert CYCLE_FIRST.roles.Keys == {"a", "b", "c"};
    LeastA();
    FirstRoleLocallyValid();
    AbsentMetFirst();
    FirstRoleDecides(CYCLE_FIRST);
  }

  lemma SwappedPair(x: string, y: string)
    ensures multiset([x, y]) == multiset([y, x])
  {
    assert multiset([x, y]) == multiset{x, y} && multiset([y, x]) == multiset{y, x};
  }

  lemma OnlyOrderDiffers()
    ensures SameUpToOrder(CYCLE_LAST, CYCLE_FIRST)
  {
    SwappedPair("b", "c");
    assert CYCLE_LAST.roles.Keys == {"a", "b", "c"} == CYCLE_FIRST.roles.Keys;
    forall name | name in {"a", "b", "c"}
      ensures multiset(CYCLE_LAST.roles[name].inherits) == multiset(CYCLE_FIRST.roles[name].inherits)
      ensures multiset(CYCLE_LAST.roles[name].permissions) == multiset(CYCLE_FIRST.roles[name].permissions)
    {
    }
  }

  /** With an undeclared name, array order can turn the error into the panic: the search from `a`
      meets its own cycle first in one order and the undeclared name first in the other. */
  lemma OrderDecidesPanic()
    ensures FirstFailing(CYCLE_LAST, "a") && Torn(CYCLE_LAST, "a")
    ensures SameUpToOrder(CYCLE_LAST, CYCLE_FIRST)
    ensures Canonicalize(CYCLE_LAST) == Rejected
    ensures Canonicalize(CYCLE_FIRST) == MissingRole
  {
    OnlyOrderDiffers();
    CycleReported();
    AbsentPanics();
    FirstRoleTorn();
  }

  lemma FirstRoleTorn()
    ensures FirstFailing(CYCLE_LAST, "a") && Torn(CYCLE_LAST, "a")
  {
    hide LocallyValid, Leq;
    var g := CYCLE_LAST;
    FirstRoleLocallyValid();
    LeastA();
    assert Edge(g, "a", "c") && Edge(g, "c", "a") && Edge(g, "a", "b") && Edge(g, "b", "x");
    assert Connects(g, ["c", "a"], "c", "a") && Connects(g, ["b", "x"], "b", "x");
    assert Inherits(g, "a", "a") && Inherits(g, "a", "x");
  }
}
