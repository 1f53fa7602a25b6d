/** Application-role policies: the graph, its inheritance paths and the declarative meaning of canonicalisation. */
module Policy {
  import opened Text
  import opened Order

  const MAXIMUM_ROLES := 32
  const MAXIMUM_DIRECT_INHERITED := 8
  const MAXIMUM_DIRECT_PERMISSIONS := 64

  datatype Role = Role(inherits: seq<string>, permissions: seq<string>)

  datatype Graph = Graph(defaultRole: Option<string>, roles: map<string, Role>)

  datatype Effective = Effective(roles: map<string, seq<string>>, permissions: map<string, seq<string>>)

  datatype Canonical = Canonical(graph: Graph, effective: Effective)

  /** `Rejected` is the declared error; `MissingRole` is the panic of indexing the role map at an undeclared name. */
  datatype Outcome<+T> = Accepted(value: T) | Rejected | MissingRole

  // ----- name patterns

  predicate RoleName(value: string)
  {
    0 < |value| <= 32 && IsLower(value[0]) && forall c | c in value :: IsLower(c) || IsDigit(c) || c == '-'
  }

  predicate DottedPart(part: string)
  {
    part != [] && IsLower(part[0]) && forall c | c in part :: IsLower(c) || IsDigit(c) || c == '_'
  }

  predicate Permission(value: string)
  {
    var parts := Split(value, '.');
    |value| <= 128 && 2 <= |parts| <= 4 && forall part | part in parts :: DottedPart(part)
  }

  // ----- inheritance paths

  predicate Edge(g: Graph, a: string, b: string)
  {
    a in g.roles && b in g.roles[a].inherits
  }

  ghost predicate IsPath(g: Graph, p: seq<string>)
  {
    p != [] && forall i | 0 <= i < |p| - 1 :: Edge(g, p[i], p[i + 1])
  }

  ghost predicate Connects(g: Graph, p: seq<string>, a: string, b: string)
  {
    IsPath(g, p) && p[0] == a && p[|p| - 1] == b
  }

  /** `b` is `a` or inherited by `a` through some path. */
  ghost predicate Reaches(g: Graph, a: string, b: string)
  {
    exists p :: Connects(g, p, a, b)
  }

  /** `b` is inherited by `a` through a path of at least one step. */
  ghost predicate Inherits(g: Graph, a: string, b: string)
  {
    exists c :: Edge(g, a, c) && Reaches(g, c, b)
  }

  ghost predicate AllDeclared(g: Graph)
  {
    forall a, b | Edge(g, a, b) :: b in g.roles
  }

  ghost predicate Acyclic(g: Graph)
  {
    forall a | a in g.roles :: !Inherits(g, a, a)
  }

  // ----- what a valid policy is

  predicate Unique(values: seq<string>)
  {
    |set x | x in values| == |values|
  }

  /** Every check on one role except the cycle search. */
  predicate LocallyValid(g: Graph, name: string)
    requires name in g.roles
  {
    var role := g.roles[name];
    && WellShaped(g, name)
    && forall inherited | inherited in role.inherits :: inherited in g.roles
  }

  predicate WellShaped(g: Graph, name: string)
    requires name in g.roles
  {
    var role := g.roles[name];
    && RoleName(name)
    && |role.inherits| <= MAXIMUM_DIRECT_INHERITED
    && |role.permissions| <= MAXIMUM_DIRECT_PERMISSIONS
    && Unique(role.inherits)
    && Unique(role.permissions)
    && forall permission | permission in role.permissions :: Permission(permission)
  }

  predicate GloballyValid(g: Graph)
  {
    |g.roles| <= MAXIMUM_ROLES && (g.defaultRole.Some? ==> g.defaultRole.value in g.roles)
  }

  ghost predicate ValidPolicy(g: Graph)
  {
    && GloballyValid(g)
    && (forall name | name in g.roles :: LocallyValid(g, name))
    && Acyclic(g)
  }

  // ----- the cycle search, as a deterministic function of its stack and visited set

  datatype Search = Cycle | NoCycle | Absent

  function CycleSearch(g: Graph, origin: string, pending: seq<string>, visited: set<string>): Search
    decreases g.roles.Keys - visited, |pending|
  {
    if pending == [] then NoCycle
    else
      var candidate, rest := pending[|pending| - 1], pending[..|pending| - 1];
      if candidate == origin then Cycle
      else if candidate in visited then CycleSearch(g, origin, rest, visited)
      else if candidate !in g.roles then Absent
      else
        assert candidate in g.roles.Keys - visited && candidate !in g.roles.Keys - (visited + {candidate});
        CycleSearch(g, origin, rest + g.roles[candidate].inherits, visited + {candidate})
  }

  function SearchFrom(g: Graph, origin: string): Search
    requires origin in g.roles
  {
    CycleSearch(g, origin, g.roles[origin].inherits, {})
  }

  function ValidateRole(g: Graph, name: string): Outcome<()>
    requires name in g.roles
  {
    if !LocallyValid(g, name) then Rejected
    else match SearchFrom(g, name)
      case Cycle => Rejected
      case Absent => MissingRole
      case NoCycle => Accepted(())
  }

  /** Roles are visited in the given order and the first failure decides. */
  function ValidateRoles(g: Graph, names: seq<string>): Outcome<()>
    requires forall name | name in names :: name in g.roles
  {
    if names == [] then Accepted(())
    else
      var first := ValidateRole(g, names[0]);
      if first.Accepted? then ValidateRoles(g, names[1..]) else first
  }

  function Validate(g: Graph): Outcome<()>
  {
    if GloballyValid(g) then ValidateRoles(g, Ascending(g.roles.Keys)) else Rejected
  }

  // ----- the canonical form and its closure

  function SortRole(role: Role): Role
  {
    Role(Sort(role.inherits), Sort(role.permissions))
  }

  function SortArrays(g: Graph): Graph
  {
    Graph(g.defaultRole, map name | name in g.roles :: SortRole(g.roles[name]))
  }

  /** Roles declared in `g` that `name` reaches by zero or more inheritance steps. */
  ghost function EffectiveRoles(g: Graph, name: string): set<string>
  {
    set r | r in g.roles && Reaches(g, name, r)
  }

  /** Union of the direct permissions of a set of declared roles. */
  function PermissionsOf(g: Graph, names: set<string>): set<string>
  {
    set r, p | r in names && r in g.roles && p in g.roles[r].permissions :: p
  }

  ghost function Expand(g: Graph): Effective
  {
    Effective(
      map name | name in g.roles :: Ascending(EffectiveRoles(g, name)),
      map name | name in g.roles :: Ascending(PermissionsOf(g, EffectiveRoles(g, name))))
  }

  ghost function Canonicalize(g: Graph): Outcome<Canonical>
  {
    match Validate(g)
    case Rejected => Rejected
    case MissingRole => MissingRole
    case Accepted(_) => Accepted(Canonical(SortArrays(g), Expand(SortArrays(g))))
  }
}
