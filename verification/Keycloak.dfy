/** Compilation of a declaration to Keycloak roles and groups. */
module Keycloak {
  import opened Digraph
  import opened Holders
  import opened PolicySchema
  import opened PolicyValidation
  import opened RoleGraph
  import opened Sorting

  datatype RealmRole = RealmRole(name: string, composite: bool, composites: seq<string>)
  datatype RealmGroup = RealmGroup(name: string, realmRoles: seq<string>)
  datatype Realm = Realm(roles: seq<RealmRole>, groups: seq<RealmGroup>)

  predicate RoleLe(a: RealmRole, b: RealmRole) { StringLe(a.name, b.name) }
  predicate GroupLe(a: RealmGroup, b: RealmGroup) { StringLe(a.name, b.name) }

  function RealmRoleOf(r: Role): RealmRole
  {
    RealmRole(r.name, r.includes != [], SortBy(r.includes, StringLe))
  }

  function RealmGroupOf(g: Group): RealmGroup
  {
    RealmGroup(g.name, SortBy(g.roles, StringLe))
  }

  /** Roles list their direct parents as composites; the expansion is left to Keycloak. */
  function CompileKeycloak(d: Declaration): Realm
  {
    Realm(SortBy(seq(|d.roles|, i requires 0 <= i < |d.roles| => RealmRoleOf(d.roles[i])), RoleLe),
          SortBy(seq(|d.groups|, i requires 0 <= i < |d.groups| => RealmGroupOf(d.groups[i])), GroupLe))
  }

  // ---------------------------------------------------------------------------------------------
  // What Keycloak makes of a realm
  // ---------------------------------------------------------------------------------------------

  ghost function CompositeEdges(realm: Realm): set<(string, string)>
  {
    set i, c | 0 <= i < |realm.roles| && realm.roles[i].composite && c in realm.roles[i].composites ::
      (realm.roles[i].name, c)
  }

  /** The token of someone who is given the roles: they and all their composites. */
  ghost predicate InToken(realm: Realm, roles: seq<string>, x: string)
  {
    exists r :: r in roles && Reaches(CompositeEdges(realm), r, x)
  }

  ghost predicate DistinctRoleNames(d: Declaration)
  {
    forall i, j | 0 <= i < |d.roles| && 0 <= j < |d.roles| && d.roles[i].name == d.roles[j].name :: i == j
  }

  lemma ValidRoleNamesAreDistinct(d: Declaration, accepts: string -> bool)
    requires IsValid(d, accepts)
    ensures DistinctRoleNames(d)
  {
    assert !Offends(d, accepts, RoleNameCollision);
    forall i, j | 0 <= i < |d.roles| && 0 <= j < |d.roles| && d.roles[i].name == d.roles[j].name ensures i == j {
      assert PgRoles(d.roles)[i] == PgRoles(d.roles)[j];
    }
  }

  /** The realm role of a declared one: its name, its parents in order, and whether it has any. */
  ghost predicate StandsFor(role: RealmRole, r: Role)
  {
    && role.name == r.name && (role.composite <==> r.includes != [])
    && multiset(role.composites) == multiset(r.includes) && SortedBy(role.composites, StringLe)
  }

  lemma RealmRoleStands(r: Role)
    ensures StandsFor(RealmRoleOf(r), r)
  {
    StringLeIsOrder();
    SortPermutes(r.includes, StringLe);
    SortSorts(r.includes, StringLe);
  }

  lemma RolesAreOrdered(roles: seq<RealmRole>)
    ensures SortedBy(SortBy(roles, RoleLe), RoleLe)
  {
    StringLeIsOrder();
    assert IsTotalPreorder(RoleLe) by {
      forall a, b ensures RoleLe(a, b) || RoleLe(b, a) {
        assert StringLe(a.name, b.name) || StringLe(b.name, a.name);
      }
      forall a, b, c | RoleLe(a, b) && RoleLe(b, c) ensures RoleLe(a, c) {
        assert StringLe(a.name, b.name) && StringLe(b.name, c.name);
      }
    }
    SortSorts(roles, RoleLe);
  }

  lemma DeclaredRoleIsCompiled(d: Declaration, r: Role)
    requires r in d.roles
    ensures exists role :: role in CompileKeycloak(d).roles && StandsFor(role, r)
  {
    var listed := seq(|d.roles|, i requires 0 <= i < |d.roles| => RealmRoleOf(d.roles[i]));
    var i :| 0 <= i < |d.roles| && d.roles[i] == r;
    RealmRoleStands(r);
    SortMembers(listed, RoleLe);
    assert listed[i] in CompileKeycloak(d).roles;
  }

  lemma CompiledRoleIsDeclared(d: Declaration, role: RealmRole)
    requires role in CompileKeycloak(d).roles
    ensures exists r :: r in d.roles && StandsFor(role, r)
  {
    var listed := seq(|d.roles|, i requires 0 <= i < |d.roles| => RealmRoleOf(d.roles[i]));
    SortMembers(listed, RoleLe);
    var i :| 0 <= i < |listed| && listed[i] == role;
    RealmRoleStands(d.roles[i]);
  }

  lemma CompiledRolesAreOrdered(d: Declaration)
    requires DistinctRoleNames(d)
    ensures |CompileKeycloak(d).roles| == |d.roles|
    ensures forall i, j | 0 <= i < j < |d.roles| ::
        var roles := CompileKeycloak(d).roles;
        StringLe(roles[i].name, roles[j].name) && roles[i].name != roles[j].name
  {
    var listed := seq(|d.roles|, i requires 0 <= i < |d.roles| => RealmRoleOf(d.roles[i]));
    var roles := CompileKeycloak(d).roles;
    SortPermutes(listed, RoleLe);
    RolesAreOrdered(listed);
    DistinctIsPermuted(listed, roles, (role: RealmRole) => role.name);
    forall i, j | 0 <= i < j < |d.roles|
        ensures StringLe(roles[i].name, roles[j].name) && roles[i].name != roles[j].name {
      assert RoleLe(roles[i], roles[j]);
    }
  }

  /** The realm has one role for each declared role and no other, in order of their names, and no name twice. */
  lemma EveryRoleIsCompiled(d: Declaration, accepts: string -> bool)
    requires IsValid(d, accepts)
    ensures |CompileKeycloak(d).roles| == |d.roles|
    ensures forall r | r in d.roles :: exists role :: role in CompileKeycloak(d).roles && StandsFor(role, r)
    ensures forall role | role in CompileKeycloak(d).roles :: exists r :: r in d.roles && StandsFor(role, r)
    ensures forall i, j | 0 <= i < j < |d.roles| ::
        var roles := CompileKeycloak(d).roles;
        StringLe(roles[i].name, roles[j].name) && roles[i].name != roles[j].name
  {
    ValidRoleNamesAreDistinct(d, accepts);
    CompiledRolesAreOrdered(d);
    forall r | r in d.roles ensures exists role :: role in CompileKeycloak(d).roles && StandsFor(role, r) {
      DeclaredRoleIsCompiled(d, r);
    }
    forall role | role in CompileKeycloak(d).roles ensures exists r :: r in d.roles && StandsFor(role, r) {
      CompiledRoleIsDeclared(d, role);
    }
  }

  lemma CompositesAreIncludes(d: Declaration, n: string, p: string)
    requires DistinctRoleNames(d)
    ensures (n, p) in CompositeEdges(CompileKeycloak(d)) <==> p in Includes(d, n)
  {
    var listed := seq(|d.roles|, i requires 0 <= i < |d.roles| => RealmRoleOf(d.roles[i]));
    var realm := CompileKeycloak(d);
    SortMembers(listed, RoleLe);
    RoleNamedDeclared(d.roles, n);
    if (n, p) in CompositeEdges(realm) {
      var k :| 0 <= k < |realm.roles| && realm.roles[k].name == n && p in realm.roles[k].composites;
      assert realm.roles[k] in listed;
      var i :| 0 <= i < |listed| && listed[i] == realm.roles[k];
      SortMembers(d.roles[i].includes, StringLe);
      var j :| 0 <= j < |d.roles| && d.roles[j] == RoleNamed(d.roles, n).value;
      assert i == j;
    }
    if p in Includes(d, n) {
      var i :| 0 <= i < |d.roles| && d.roles[i] == RoleNamed(d.roles, n).value;
      SortMembers(d.roles[i].includes, StringLe);
      assert listed[i] in realm.roles;
      var k :| 0 <= k < |realm.roles| && realm.roles[k] == listed[i];
      assert p in realm.roles[k].composites && realm.roles[k].composite;
    }
  }

  /** What Keycloak expands a role to is what the compiler expands it to. */
  lemma ExpansionMatches(d: Declaration, accepts: string -> bool, role: string, x: string)
    requires IsValid(d, accepts)
    ensures Reaches(CompositeEdges(CompileKeycloak(d)), role, x) <==> x in Closure(d, role)
  {
    ValidRoleNamesAreDistinct(d, accepts);
    forall n, p ensures (n, p) in CompositeEdges(CompileKeycloak(d)) <==> (n, p) in RoleEdges(d) {
      CompositesAreIncludes(d, n, p);
      EdgeIffIncluded(d, n, p);
    }
    assert CompositeEdges(CompileKeycloak(d)) == RoleEdges(d);
    ClosureIsReach(d, role, x);
  }

  ghost predicate SameToken(d: Declaration, group: RealmGroup, g: Group)
  {
    forall x :: InToken(CompileKeycloak(d), group.realmRoles, x) <==> x in GroupToken(d, g)
  }

  lemma RealmGroupCarriesToken(d: Declaration, accepts: string -> bool, g: Group)
    requires IsValid(d, accepts)
    ensures SameToken(d, RealmGroupOf(g), g)
  {
    SortMembers(g.roles, StringLe);
    forall x ensures InToken(CompileKeycloak(d), RealmGroupOf(g).realmRoles, x) <==> x in GroupToken(d, g) {
      forall r ensures Reaches(CompositeEdges(CompileKeycloak(d)), r, x) <==> x in Closure(d, r) {
        ExpansionMatches(d, accepts, r, x);
      }
    }
  }

  /** Every realm group stems from a declared group of its name, and its members' token is the one the
      mask checks assume. */
  lemma GroupTokensMatch(d: Declaration, accepts: string -> bool, group: RealmGroup)
    requires IsValid(d, accepts) && group in CompileKeycloak(d).groups
    ensures exists i :: 0 <= i < |d.groups| && d.groups[i].name == group.name && SameToken(d, group, d.groups[i])
  {
    var listed := seq(|d.groups|, i requires 0 <= i < |d.groups| => RealmGroupOf(d.groups[i]));
    SortMembers(listed, GroupLe);
    var i :| 0 <= i < |listed| && listed[i] == group;
    RealmGroupCarriesToken(d, accepts, d.groups[i]);
  }

  /** Every declared group becomes a realm group of its name that carries its token. */
  lemma EveryGroupIsCompiled(d: Declaration, accepts: string -> bool, i: nat)
    requires IsValid(d, accepts) && i < |d.groups|
    ensures exists group ::
        group in CompileKeycloak(d).groups && group.name == d.groups[i].name && SameToken(d, group, d.groups[i])
    ensures |CompileKeycloak(d).groups| == |d.groups|
  {
    var listed := seq(|d.groups|, i requires 0 <= i < |d.groups| => RealmGroupOf(d.groups[i]));
    SortMembers(listed, GroupLe);
    SortPermutes(listed, GroupLe);
    assert listed[i] in CompileKeycloak(d).groups;
    RealmGroupCarriesToken(d, accepts, d.groups[i]);
  }
}
