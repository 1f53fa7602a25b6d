/** Facts about inheritance paths, and the cycle search measured against them. */
module PolicyPaths {
  import opened Policy

  lemma ReachesSelf(g: Graph, a: string)
    ensures Reaches(g, a, a)
  {
    assert Connects(g, [a], a, a);
  }

  lemma ReachesStep(g: Graph, a: string, b: string, c: string)
    requires Reaches(g, a, b) && Edge(g, b, c)
    ensures Reaches(g, a, c)
  {
    var p :| Connects(g, p, a, b);
    assert Connects(g, p + [c], a, c);
  }

  lemma ReachesTransitive(g: Graph, a: string, b: string, c: string)
    requires Reaches(g, a, b) && Reaches(g, b, c)
    ensures Reaches(g, a, c)
  {
    var p :| Connects(g, p, a, b);
    var q :| Connects(g, q, b, c);
    var r := p + q[1..];
    forall i | 0 <= i < |r| - 1 ensures Edge(g, r[i], r[i + 1]) {
      if i >= |p| - 1 { assert r[i] == q[i - |p| + 1] && r[i + 1] == q[i - |p| + 2]; }
    }
    assert Connects(g, r, a, c);
  }

  /** A path is empty or has a first step. */
  lemma ReachesSplit(g: Graph, a: string, b: string)
    requires Reaches(g, a, b)
    ensures a == b || Inherits(g, a, b)
  {
    var p :| Connects(g, p, a, b);
    if |p| > 1 {
      assert Edge(g, p[0], p[1]);
      assert Connects(g, p[1..], p[1], b);
    }
  }

  lemma InheritsReaches(g: Graph, a: string, b: string)
    requires Inherits(g, a, b)
    ensures Reaches(g, a, b)
  {
    var c :| Edge(g, a, c) && Reaches(g, c, b);
    assert Connects(g, [a, c], a, c);
    ReachesTransitive(g, a, c, b);
  }

  lemma InheritsThenReaches(g: Graph, a: string, b: string, c: string)
    requires Inherits(g, a, b) && Reaches(g, b, c)
    ensures Inherits(g, a, c)
  {
    var d :| Edge(g, a, d) && Reaches(g, d, b);
    ReachesTransitive(g, d, b, c);
  }

  lemma InheritsStep(g: Graph, a: string, b: string, c: string)
    requires Inherits(g, a, b) && Edge(g, b, c)
    ensures Inherits(g, a, c)
  {
    ReachesSelf(g, b);
    ReachesStep(g, b, b, c);
    InheritsThenReaches(g, a, b, c);
  }

  ghost predicate Closed(g: Graph, s: set<string>)
  {
    forall a, b | a in s && Edge(g, a, b) :: b in s
  }

  /** A set closed under inheritance holds everything its members reach. */
  lemma {:induction false} ClosedHoldsPath(g: Graph, s: set<string>, p: seq<string>)
    requires Closed(g, s) && IsPath(g, p) && p[0] in s
    ensures p[|p| - 1] in s
    decreases |p|
  {
    if |p| > 1 {
      assert Edge(g, p[0], p[1]);
      ClosedHoldsPath(g, s, p[1..]);
    }
  }

  lemma ClosedHoldsReached(g: Graph, s: set<string>, a: string, b: string)
    requires Closed(g, s) && a in s && Reaches(g, a, b)
    ensures b in s
  {
    var p :| Connects(g, p, a, b);
    ClosedHoldsPath(g, s, p);
  }

  /** The search only reports what is really there. */
  lemma {:induction false} SearchSound(g: Graph, origin: string, pending: seq<string>, visited: set<string>)
    requires forall x | x in pending :: Inherits(g, origin, x)
    ensures CycleSearch(g, origin, pending, visited) == Cycle ==> Inherits(g, origin, origin)
    ensures CycleSearch(g, origin, pending, visited) == Absent ==> exists x :: Inherits(g, origin, x) && x !in g.roles
    decreases g.roles.Keys - visited, |pending|
  {
    if pending != [] {
      var candidate, rest := pending[|pending| - 1], pending[..|pending| - 1];
      assert candidate in pending;
      if candidate == origin || (candidate !in visited && candidate !in g.roles) {
      } else if candidate in visited {
        SearchSound(g, origin, rest, visited);
      } else {
        var inherits := g.roles[candidate].inherits;
        forall x | x in rest + inherits ensures Inherits(g, origin, x) {
          if x in inherits { InheritsStep(g, origin, candidate, x); }
        }
        assert candidate in g.roles.Keys - visited && candidate !in g.roles.Keys - (visited + {candidate});
        SearchSound(g, origin, rest + inherits, visited + {candidate});
      }
    }
  }

  /** A search that ends quietly has swept out a closed set of declared roles without the origin. */
  lemma {:induction false} SearchComplete(g: Graph, origin: string, pending: seq<string>, visited: set<string>)
    returns (swept: set<string>)
    requires CycleSearch(g, origin, pending, visited) == NoCycle
    requires origin !in visited && visited <= g.roles.Keys
    requires forall a, b | a in visited && Edge(g, a, b) :: b in visited || b in pending
    ensures visited <= swept <= g.roles.Keys && origin !in swept
    ensures forall x | x in pending :: x in swept
    ensures Closed(g, swept)
    decreases g.roles.Keys - visited, |pending|
  {
    if pending == [] {
      swept := visited;
    } else {
      var candidate, rest := pending[|pending| - 1], pending[..|pending| - 1];
      assert pending == rest + [candidate];
      if candidate in visited {
        swept := SearchComplete(g, origin, rest, visited);
      } else {
        assert candidate in g.roles.Keys - visited && candidate !in g.roles.Keys - (visited + {candidate});
        swept := SearchComplete(g, origin, rest + g.roles[candidate].inherits, visited + {candidate});
      }
    }
  }

  /** The search ends quietly exactly when the origin inherits only declared roles and never itself. */
  lemma SearchExact(g: Graph, origin: string)
    requires origin in g.roles
    ensures SearchFrom(g, origin) == NoCycle <==>
              !Inherits(g, origin, origin) && forall x | Inherits(g, origin, x) :: x in g.roles
    ensures SearchFrom(g, origin) == Cycle ==> Inherits(g, origin, origin)
    ensures SearchFrom(g, origin) == Absent ==> exists x :: Inherits(g, origin, x) && x !in g.roles
  {
    var inherits := g.roles[origin].inherits;
    forall x | x in inherits ensures Inherits(g, origin, x) {
      assert Edge(g, origin, x);
      ReachesSelf(g, x);
    }
    SearchSound(g, origin, inherits, {});
    if SearchFrom(g, origin) == NoCycle {
      var swept := SearchComplete(g, origin, inherits, {});
      forall x | Inherits(g, origin, x) ensures x in swept {
        var c :| Edge(g, origin, c) && Reaches(g, c, x);
        ClosedHoldsReached(g, swept, c, x);
      }
    }
  }

  lemma DeclaredReached(g: Graph, a: string, b: string)
    requires AllDeclared(g) && a in g.roles && Reaches(g, a, b)
    ensures b in g.roles
  {
    assert Closed(g, g.roles.Keys);
    ClosedHoldsReached(g, g.roles.Keys, a, b);
  }

  /** With every inherited name declared, the search answers the cycle question exactly. */
  lemma HasCycleExact(g: Graph, origin: string)
    requires AllDeclared(g) && origin in g.roles
    ensures SearchFrom(g, origin) == (if Inherits(g, origin, origin) then Cycle else NoCycle)
  {
    SearchExact(g, origin);
    forall x | Inherits(g, origin, x) ensures x in g.roles {
      InheritsReaches(g, origin, x);
      DeclaredReached(g, origin, x);
    }
  }
}
