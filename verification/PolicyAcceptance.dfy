/** What an accepted policy is, written out over its texts, positions and inheritance chains. */
module PolicyAcceptance {
  import opened Text
  import opened Policy
  import opened PolicyTheorems

  ghost predicate Distinct(names: seq<string>)
  {
    forall i, j | 0 <= i < j < |names| :: names[i] != names[j]
  }

  /** A lowercase letter, then lowercase letters, digits and hyphens, 32 bytes at most. */
  ghost predicate NameText(name: string)
  {
    && 1 <= |name| <= 32 && 'a' <= name[0] <= 'z'
    && forall i | 0 <= i < |name| :: 'a' <= name[i] <= 'z' || '0' <= name[i] <= '9' || name[i] == '-'
  }

  ghost predicate PartText(part: string)
  {
    && |part| >= 1 && 'a' <= part[0] <= 'z'
    && forall i | 0 <= i < |part| :: 'a' <= part[i] <= 'z' || '0' <= part[i] <= '9' || part[i] == '_'
  }

  ghost function Dotted(parts: seq<string>): string
    requires 2 <= |parts| <= 4
  {
    if |parts| == 2 then parts[0] + "." + parts[1]
    else if |parts| == 3 then parts[0] + "." + (parts[1] + "." + parts[2])
    else parts[0] + "." + (parts[1] + "." + (parts[2] + "." + parts[3]))
  }

  /** Two, three or four parts with a dot between neighbours, 128 bytes at most. */
  ghost predicate PermissionText(permission: string)
  {
    && |permission| <= 128
    && exists parts :: 2 <= |parts| <= 4 && (forall i | 0 <= i < |parts| :: PartText(parts[i]))
                       && permission == Dotted(parts)
  }

  /** Each name of the chain stands in the `inherits` list of the one before it. */
  ghost predicate Chain(g: Graph, names: seq<string>)
  {
    forall i | 0 <= i < |names| - 1 :: names[i] in g.roles && names[i + 1] in g.roles[names[i]].inherits
  }

  ghost predicate RoleStated(g: Graph, name: string)
    requires name in g.roles
  {
    var inherits, permissions := g.roles[name].inherits, g.roles[name].permissions;
    && NameText(name)
    && |inherits| <= 8 && Distinct(inherits)
    && |permissions| <= 64 && Distinct(permissions)
    && (forall i | 0 <= i < |inherits| :: inherits[i] in g.roles)
    && (forall i | 0 <= i < |permissions| :: PermissionText(permissions[i]))
  }

  /** The rules of a policy, none of them in the words of the validator. */
  ghost predicate Stated(g: Graph)
  {
    && |g.roles| <= 32
    && (forall role | g.defaultRole == Some(role) :: role in g.roles)
    && (forall name | name in g.roles :: RoleStated(g, name))
    && (forall names | Chain(g, names) && |names| >= 2 :: names[0] != names[|names| - 1])
  }

  // ----- counting distinct names

  lemma {:induction false} UniqueExact(names: seq<string>)
    ensures Unique(names) <==> Distinct(names)
  {
    if names != [] {
      var init, last := names[..|names| - 1], names[|names| - 1];
      UniqueExact(init);
      var all, before := set x | x in names, set x | x in init;
      assert names == init + [last];
      assert all == before + {last};
      SetBound(init);
      if last in init {
        var i :| 0 <= i < |init| && init[i] == last;
        assert names[i] == names[|names| - 1];
        assert all == before;
      } else {
        assert forall i | 0 <= i < |init| :: names[i] == init[i];
        assert forall i, j | 0 <= i < j < |init| :: names[i] == init[i] && names[j] == init[j];
      }
    }
  }

  lemma {:induction false} SetBound(names: seq<string>)
    ensures |set x | x in names| <= |names|
  {
    if names != [] {
      var init, last := names[..|names| - 1], names[|names| - 1];
      SetBound(init);
      assert names == init + [last];
      assert (set x | x in names) == (set x | x in init) + {last};
    }
  }

  // ----- name patterns

  lemma PartExact(part: string)
    ensures DottedPart(part) <==> PartText(part)
  {
    assert forall i | 0 <= i < |part| :: part[i] in part;
  }

  lemma NameExact(name: string)
    ensures RoleName(name) <==> NameText(name)
  {
    assert forall i | 0 <= i < |name| :: name[i] in name;
  }

  lemma Joins(parts: seq<string>)
    requires 2 <= |parts| <= 4
    ensures Join(parts, '.') == Dotted(parts)
  {
    if |parts| > 2 { Joins(parts[1..]); }
  }

  lemma PartsJoin(parts: seq<string>)
    requires 2 <= |parts| <= 4 && forall i | 0 <= i < |parts| :: PartText(parts[i])
    ensures var value := Join(parts, '.');
            Split(value, '.') == parts && (|value| <= 128 ==> Permission(value))
  {
    forall i | 0 <= i < |parts| ensures '.' !in parts[i] && DottedPart(parts[i]) { PartExact(parts[i]); }
    SplitJoin(parts, '.');
  }

  lemma PermissionExact(value: string)
    ensures Permission(value) <==> PermissionText(value)
  {
    hide DottedPart, PartText, Split, Join, Dotted;
    var parts := Split(value, '.');
    if Permission(value) {
      JoinSplit(value, '.');
      Joins(parts);
      forall i | 0 <= i < |parts| ensures PartText(parts[i]) { PartExact(parts[i]); }
    }
    if PermissionText(value) {
      var written :| 2 <= |written| <= 4 && (forall i | 0 <= i < |written| :: PartText(written[i]))
                     && value == Dotted(written);
      Joins(written);
      PartsJoin(written);
    }
  }

  lemma RoleExact(g: Graph, name: string)
    requires name in g.roles
    ensures LocallyValid(g, name) <==> RoleStated(g, name)
  {
    hide Permission, PermissionText, Unique, Distinct, RoleName, NameText;
    var role := g.roles[name];
    NameExact(name);
    UniqueExact(role.inherits);
    UniqueExact(role.permissions);
    forall permission ensures Permission(permission) <==> PermissionText(permission) { PermissionExact(permission); }
  }

  // ----- chains

  lemma ChainsExact(g: Graph)
    ensures Acyclic(g) <==> forall names | Chain(g, names) && |names| >= 2 :: names[0] != names[|names| - 1]
  {
    if !Acyclic(g) {
      var a :| a in g.roles && Inherits(g, a, a);
      var c :| Edge(g, a, c) && Reaches(g, c, a);
      var p :| Connects(g, p, c, a);
      var names := [a] + p;
      forall i | 0 <= i < |names| - 1
        ensures names[i] in g.roles && names[i + 1] in g.roles[names[i]].inherits
      {
        assert Edge(g, a, c);
        if i > 0 { assert names[i] == p[i - 1] && names[i + 1] == p[i] && Edge(g, p[i - 1], p[i - 1 + 1]); }
      }
      assert Chain(g, names) && names[0] == names[|names| - 1];
    }
    if names :| Chain(g, names) && |names| >= 2 && names[0] == names[|names| - 1] {
      var rest := names[1..];
      assert Edge(g, names[0], names[1]);
      forall i | 0 <= i < |rest| - 1 ensures Edge(g, rest[i], rest[i + 1]) {
        assert rest[i] == names[i + 1] && rest[i + 1] == names[i + 2];
      }
      assert Connects(g, rest, names[1], names[0]);
      assert Inherits(g, names[0], names[0]);
    }
  }

  /** A policy is accepted exactly when it keeps the rules written out above. */
  lemma AcceptedExactly(g: Graph)
    ensures Canonicalize(g).Accepted? <==> Stated(g)
  {
    hide LocallyValid, RoleStated, Canonicalize, Acyclic, Chain;
    AcceptanceExact(g);
    ChainsExact(g);
    forall name | name in g.roles ensures LocallyValid(g, name) <==> RoleStated(g, name) { RoleExact(g, name); }
  }
}
