/** What the compiled PostgreSQL script lets a login do, against what the declaration grants. */
module PgGuarantees {
  import opened Digraph
  import opened Holders
  import opened PgCompiler
  import opened PolicySchema
  import opened PolicyValidation
  import opened RoleGraph
  import opened Sorting
  import opened Strings

  // ---------------------------------------------------------------------------------------------
  // The server's view of a script
  // ---------------------------------------------------------------------------------------------

  /** Members and the roles granted to them. */
  ghost function Memberships(out: seq<Statement>): set<(string, string)>
  {
    set i | 0 <= i < |out| && out[i].GrantRole? :: (out[i].member, out[i].role)
  }

  /** Privileges flow along memberships: the principal is the role or inherits it. */
  ghost predicate Inherits(out: seq<Statement>, who: string, role: string)
  {
    Reaches(Memberships(out), who, role)
  }

  /** Unquoted names are folded to lower case by the server. */
  ghost predicate HoldsTable(out: seq<Statement>, who: string, p: Privilege, table: string)
  {
    exists s :: s in out && s.GrantTable? && p in s.privileges && ToLower(s.table) == table
                && Inherits(out, who, s.role)
  }

  ghost predicate HoldsUsage(out: seq<Statement>, who: string, schema: string)
  {
    exists s :: s in out && s.GrantUsage? && ToLower(s.schema) == schema && Inherits(out, who, s.role)
  }

  ghost predicate HoldsSequences(out: seq<Statement>, who: string, schema: string)
  {
    exists s :: s in out && s.GrantSequences? && ToLower(s.schema) == schema && Inherits(out, who, s.role)
  }

  /** A role is created once only, with the flag of the first statement that creates it: later ones find it
      there and leave it as it is. */
  ghost predicate CanLogIn(out: seq<Statement>, who: string)
  {
    exists i :: 0 <= i < |out| && out[i] == CreateRole(who, true) && !CreatedBefore(out, i, who)
  }

  ghost predicate HoldsConnect(out: seq<Statement>, who: string, database: string)
  {
    exists s :: s in out && s.GrantConnect? && ToLower(s.database) == database && Inherits(out, who, s.role)
  }

  /** To connect takes an account that can log in and holds CONNECT on the database. */
  ghost predicate CanConnect(out: seq<Statement>, who: string, database: string)
  {
    CanLogIn(out, who) && HoldsConnect(out, who, database)
  }

  // ---------------------------------------------------------------------------------------------
  // What validation contributes
  // ---------------------------------------------------------------------------------------------

  ghost predicate DistinctPgRoles(d: Declaration)
  {
    forall i, j | 0 <= i < |d.roles| && 0 <= j < |d.roles| && ToPgRole(d.roles[i].name) == ToPgRole(d.roles[j].name) ::
        i == j
  }

  ghost predicate LoginsApart(d: Declaration)
  {
    forall i, j | 0 <= i < |d.roles| && 0 <= j < |d.logins| :: ToPgRole(d.roles[i].name) != d.logins[j].name
  }

  /** Role names stay apart from one another and from login names, and all references are declared. */
  ghost predicate NamesSound(d: Declaration)
  {
    DistinctPgRoles(d) && LoginsApart(d) && ReferencesDeclared(d)
  }

  lemma ValidNamesAreSound(d: Declaration, accepts: string -> bool)
    requires IsValid(d, accepts)
    ensures NamesSound(d)
  {
    assert !Offends(d, accepts, RoleNameCollision) && !Offends(d, accepts, LoginNameCollision)
        && !Offends(d, accepts, UnknownRole);
    forall i, j | 0 <= i < |d.roles| && 0 <= j < |d.roles| && ToPgRole(d.roles[i].name) == ToPgRole(d.roles[j].name)
        ensures i == j {
      assert PgRoles(d.roles)[i] == PgRoles(d.roles)[j];
    }
    forall j | 0 <= j < |d.logins| ensures AllDeclared(d, d.logins[j].memberOf) && forall i | 0 <= i < |d.roles| ::
        ToPgRole(d.roles[i].name) != d.logins[j].name {
      assert !LoginOffends(d, d.logins[j], LoginNameCollision);
      assert !LoginOffends(d, d.logins[j], UnknownRole);
    }
    forall i | 0 <= i < |d.roles| ensures AllDeclared(d, d.roles[i].includes) {
      assert !NamedReferencesOffend(RoleNames(d), d.roles[i].name, d.roles[i].includes, UnknownRole);
    }
    forall i, k | 0 <= i < |d.resources| && 0 <= k < |d.resources[i].grants|
        ensures AllDeclared(d, d.resources[i].grants[k].roles) {
      assert !ResourceOffends(d, accepts, d.resources[i], UnknownRole);
      assert !GrantOffends(RoleNames(d), accepts, d.resources[i], d.resources[i].grants[k], UnknownRole);
    }
  }

  lemma DistinctPgRolesTellNames(d: Declaration, a: string, b: string)
    requires DistinctPgRoles(d) && a in RoleNames(d) && b in RoleNames(d) && ToPgRole(a) == ToPgRole(b)
    ensures a == b
  {
    var i :| 0 <= i < |d.roles| && d.roles[i].name == a;
    var j :| 0 <= j < |d.roles| && d.roles[j].name == b;
  }

  /** The collision check makes the renaming of roles injective on declared roles. */
  lemma RenamingIsInjective(d: Declaration, accepts: string -> bool, a: string, b: string)
    requires IsValid(d, accepts) && a in RoleNames(d) && b in RoleNames(d)
    ensures ToPgRole(a) == ToPgRole(b) <==> a == b
  {
    ValidNamesAreSound(d, accepts);
    if ToPgRole(a) == ToPgRole(b) {
      DistinctPgRolesTellNames(d, a, b);
    }
  }

  /** The server takes the renamed role for what it says: a name without quotes that folding leaves alone. */
  lemma PgRolesAreFoldedIdentifiers(d: Declaration, accepts: string -> bool, r: string)
    requires IsValid(d, accepts) && r in RoleNames(d)
    ensures IsIdentifier(ToPgRole(r)) && ToLower(ToPgRole(r)) == ToPgRole(r)
    ensures IsIdentifier(r) ==> ToPgRole(r) == ToLower(r)
  {
    var i :| 0 <= i < |d.roles| && d.roles[i].name == r;
    assert !Offends(d, accepts, InvalidIdentifier);
    assert !NamedReferencesOffend(RoleNames(d), d.roles[i].name, d.roles[i].includes, InvalidIdentifier);
  }

  /** Hyphens become underscores; with the lemma above this says what any role name becomes. */
  lemma HyphensBecomeUnderscores(a: string, b: string)
    ensures ToPgRole(a + "-" + b) == ToPgRole(a) + "_" + ToPgRole(b)
  {
    var name := a + "-" + b;
    forall i | 0 <= i < |name| ensures ToPgRole(name)[i] == (ToPgRole(a) + "_" + ToPgRole(b))[i] {
      if i < |a| {
        assert name[i] == a[i];
      } else if |a| < i {
        assert name[i] == b[i - |a| - 1];
      }
    }
  }

  /** The schema of a table is what stands before the dot. */
  lemma SchemaIsBeforeTheDot(schema: string, table: string)
    requires '.' !in schema
    ensures SchemaOf(schema + "." + table) == schema
  {
    SplitJoined(schema, table, '.');
    assert schema + "." + table == schema + ['.'] + table;
  }

  // ---------------------------------------------------------------------------------------------
  // The membership graph preserves inheritance
  // ---------------------------------------------------------------------------------------------

  ghost predicate IsScript(d: Declaration, out: seq<Statement>)
  {
    forall s :: s in out <==> IsPgStatement(d, s)
  }

  lemma MembershipIffGranted(d: Declaration, out: seq<Statement>, member: string, role: string)
    requires IsScript(d, out)
    ensures (member, role) in Memberships(out) <==>
        GrantsParent(d, GrantRole(role, member)) || BindsLogin(d, GrantRole(role, member))
  {
    var s := GrantRole(role, member);
    assert IsPgStatement(d, s) <==> GrantsParent(d, s) || BindsLogin(d, s);
    if (member, role) in Memberships(out) {
      var i :| 0 <= i < |out| && out[i].GrantRole? && (out[i].member, out[i].role) == (member, role);
      assert out[i] == s;
    }
    if s in out {
      var i :| 0 <= i < |out| && out[i] == s;
    }
  }

  /** The memberships of a declared role are those of its parents. */
  lemma RoleMemberships(d: Declaration, out: seq<Statement>, x: string, y: string)
    requires IsScript(d, out) && NamesSound(d) && x in RoleNames(d)
    ensures (ToPgRole(x), y) in Memberships(out) <==> exists p :: p in Includes(d, x) && y == ToPgRole(p)
  {
    MembershipIffGranted(d, out, ToPgRole(x), y);
    var i :| 0 <= i < |d.roles| && d.roles[i].name == x;
    RoleNamedDeclared(d.roles, x);
    var j :| 0 <= j < |d.roles| && d.roles[j] == RoleNamed(d.roles, x).value;
    assert i == j;
    assert Includes(d, x) == d.roles[i].includes;
    if p :| p in Includes(d, x) && y == ToPgRole(p) {
      var k :| 0 <= k < |d.roles[i].includes| && d.roles[i].includes[k] == p;
      assert GrantsParent(d, GrantRole(y, ToPgRole(x)));
    }
  }

  /** The memberships of a login are those its entries list. */
  lemma LoginMemberships(d: Declaration, out: seq<Statement>, login: string, y: string)
    requires IsScript(d, out) && NamesSound(d) && exists i :: 0 <= i < |d.logins| && d.logins[i].name == login
    ensures (login, y) in Memberships(out) <==>
      exists i, k :: 0 <= i < |d.logins| && 0 <= k < |d.logins[i].memberOf| && d.logins[i].name == login
                     && y == ToPgRole(d.logins[i].memberOf[k])
  {
    MembershipIffGranted(d, out, login, y);
    assert !GrantsParent(d, GrantRole(y, login));
  }

  /** A role inherits in the database exactly the renamed roles it inherits in the declaration. */
  lemma RoleInheritance(d: Declaration, out: seq<Statement>, x: string, z: string)
    requires IsScript(d, out) && NamesSound(d) && x in RoleNames(d) && z in RoleNames(d)
    ensures Inherits(out, ToPgRole(x), ToPgRole(z)) <==> z in Closure(d, x)
  {
    if z in Closure(d, x) {
      InheritanceIsKept(d, out, x, z);
    }
    if Inherits(out, ToPgRole(x), ToPgRole(z)) {
      InheritanceIsDeclared(d, out, x, ToPgRole(z));
      var w :| w in Closure(d, x) && ToPgRole(w) == ToPgRole(z);
      DistinctPgRolesTellNames(d, w, z);
    }
  }

  lemma InheritanceIsKept(d: Declaration, out: seq<Statement>, x: string, z: string)
    requires IsScript(d, out) && NamesSound(d) && x in RoleNames(d) && z in Closure(d, x)
    ensures Inherits(out, ToPgRole(x), ToPgRole(z))
  {
    var kept := set w | w in RoleNames(d) && Inherits(out, ToPgRole(x), ToPgRole(w));
    ReachesSelf(Memberships(out), ToPgRole(x));
    forall e | e in RoleEdges(d) && e.0 in kept ensures e.1 in kept {
      EdgeIffIncluded(d, e.0, e.1);
      ClosureSelf(d, e.0);
      ClosureStep(d, e.0, e.1);
      RoleMemberships(d, out, e.0, ToPgRole(e.1));
      ReachesEdge(Memberships(out), ToPgRole(e.0), ToPgRole(e.1));
      ReachesTransitive(Memberships(out), ToPgRole(x), ToPgRole(e.0), ToPgRole(e.1));
    }
    ClosedUnderReach(RoleEdges(d), kept, x, z);
  }

  lemma ClosureStep(d: Declaration, n: string, p: string)
    requires (n, p) in RoleEdges(d)
    ensures p in Closure(d, n)
  {
    ReachesEdge(RoleEdges(d), n, p);
    ClosureIsReach(d, n, p);
  }

  lemma InheritanceIsDeclared(d: Declaration, out: seq<Statement>, x: string, y: string)
    requires IsScript(d, out) && NamesSound(d) && x in RoleNames(d) && Inherits(out, ToPgRole(x), y)
    ensures exists z :: z in Closure(d, x) && y == ToPgRole(z)
  {
    var image := set z | z in Closure(d, x) :: ToPgRole(z);
    ClosureSelf(d, x);
    forall e | e in Memberships(out) && e.0 in image ensures e.1 in image {
      var z :| z in Closure(d, x) && e.0 == ToPgRole(z);
      RoleMemberships(d, out, z, e.1);
      var p :| p in Includes(d, z) && e.1 == ToPgRole(p);
      EdgeIffIncluded(d, z, p);
      ClosureStep(d, z, p);
      ClosureTransitive(d, x, z, p);
    }
    ClosedUnderReach(Memberships(out), image, ToPgRole(x), y);
  }

  /** The logins of this name reach the role through their entries. */
  ghost predicate ReachedByName(d: Declaration, login: string, role: string)
  {
    exists i :: 0 <= i < |d.logins| && d.logins[i].name == login && LoginReaches(d, d.logins[i], role)
  }

  /** A login inherits in the database exactly the roles that its entries reach in the declaration. */
  lemma LoginInheritance(d: Declaration, out: seq<Statement>, login: string, z: string)
    requires IsScript(d, out) && NamesSound(d) && z in RoleNames(d)
    requires exists i :: 0 <= i < |d.logins| && d.logins[i].name == login
    ensures Inherits(out, login, ToPgRole(z)) <==> ReachedByName(d, login, z)
  {
    if ReachedByName(d, login, z) {
      var i :| 0 <= i < |d.logins| && d.logins[i].name == login && LoginReaches(d, d.logins[i], z);
      var k :| 0 <= k < |d.logins[i].memberOf| && z in Closure(d, d.logins[i].memberOf[k]);
      var x := d.logins[i].memberOf[k];
      assert x in d.logins[i].memberOf && AllDeclared(d, d.logins[i].memberOf);
      LoginMemberships(d, out, login, ToPgRole(x));
      ReachesEdge(Memberships(out), login, ToPgRole(x));
      RoleInheritance(d, out, x, z);
      ReachesTransitive(Memberships(out), login, ToPgRole(x), ToPgRole(z));
    }
    if Inherits(out, login, ToPgRole(z)) {
      var walk :| WalkFromTo(Memberships(out), walk, login, ToPgRole(z));
      assert login != ToPgRole(z) by {
        var i :| 0 <= i < |d.roles| && d.roles[i].name == z;
      }
      FirstStep(Memberships(out), walk);
      LoginMemberships(d, out, login, walk[1]);
      var i, k :| 0 <= i < |d.logins| && 0 <= k < |d.logins[i].memberOf| && d.logins[i].name == login
                  && walk[1] == ToPgRole(d.logins[i].memberOf[k]);
      var x := d.logins[i].memberOf[k];
      assert x in d.logins[i].memberOf && AllDeclared(d, d.logins[i].memberOf);
      assert WalkFromTo(Memberships(out), walk[1..], ToPgRole(x), ToPgRole(z));
      RoleInheritance(d, out, x, z);
      assert LoginReaches(d, d.logins[i], z);
    }
  }

  // ---------------------------------------------------------------------------------------------
  // Privileges
  // ---------------------------------------------------------------------------------------------

  ghost predicate IsLogin(d: Declaration, login: string)
  {
    exists i :: 0 <= i < |d.logins| && d.logins[i].name == login
  }

  /** The grant gives the role the privilege on a PostgreSQL table of that folded name. */
  predicate GivesTable(res: Resource, g: Grant, role: string, p: Privilege, table: string)
  {
    !res.OnTrino() && ToLower(res.resource) == table && role in g.roles && p in g.privileges
  }

  /** Grant k of resource i gives the privilege to the role, which the login reaches. */
  ghost predicate DeclaresAt(d: Declaration, login: string, p: Privilege, table: string, role: string, i: nat, k: nat)
  {
    && i < |d.resources| && k < |d.resources[i].grants|
    && ReachedByName(d, login, role) && GivesTable(d.resources[i], d.resources[i].grants[k], role, p, table)
  }

  ghost predicate DeclaresTable(d: Declaration, login: string, p: Privilege, table: string)
  {
    exists role, i, k :: DeclaresAt(d, login, p, table, role, i, k)
  }

  lemma HeldTableIsDeclared(d: Declaration, out: seq<Statement>, login: string, p: Privilege, table: string)
    requires NamesSound(d) && IsScript(d, out) && IsLogin(d, login) && HoldsTable(out, login, p, table)
    ensures DeclaresTable(d, login, p, table)
  {
    var s :| s in out && s.GrantTable? && p in s.privileges && ToLower(s.table) == table
             && Inherits(out, login, s.role);
    assert GrantsTable(d, s);
    var i, k :| 0 <= i < |d.resources| && 0 <= k < |d.resources[i].grants|
                && IsTableGrant(d.resources[i], d.resources[i].grants[k], s);
    var g := d.resources[i].grants[k];
    var n :| 0 <= n < |g.roles| && s == GrantTable(SortBy(g.privileges, PrivilegeLe), d.resources[i].resource,
             ToPgRole(g.roles[n]));
    SortMembers(g.privileges, PrivilegeLe);
    assert AllDeclared(d, g.roles) && g.roles[n] in g.roles;
    LoginInheritance(d, out, login, g.roles[n]);
    assert DeclaresAt(d, login, p, table, g.roles[n], i, k);
  }

  lemma DeclaredTableIsHeld(d: Declaration, out: seq<Statement>, login: string, p: Privilege, table: string)
    requires NamesSound(d) && IsScript(d, out) && IsLogin(d, login) && DeclaresTable(d, login, p, table)
    ensures HoldsTable(out, login, p, table)
  {
    var role, i: nat, k: nat :| DeclaresAt(d, login, p, table, role, i, k);
    var g := d.resources[i].grants[k];
    var n :| 0 <= n < |g.roles| && g.roles[n] == role;
    var s := GrantTable(SortBy(g.privileges, PrivilegeLe), d.resources[i].resource, ToPgRole(g.roles[n]));
    SortMembers(g.privileges, PrivilegeLe);
    assert IsTableGrant(d.resources[i], d.resources[i].grants[k], s);
    assert GrantsTable(d, s);
    assert AllDeclared(d, g.roles);
    LoginInheritance(d, out, login, role);
  }

  /** A login holds a privilege on a table exactly when some entry of that name reaches a role that the
      declaration grants it to, tables being told apart by their folded names. */
  lemma TablePrivilegesMatch(d: Declaration, accepts: string -> bool, out: seq<Statement>, login: string, p: Privilege,
        table: string)
    requires IsValid(d, accepts) && IsScript(d, out) && IsLogin(d, login)
    ensures HoldsTable(out, login, p, table) <==> DeclaresTable(d, login, p, table)
  {
    ValidNamesAreSound(d, accepts);
    if HoldsTable(out, login, p, table) {
      HeldTableIsDeclared(d, out, login, p, table);
    } else if DeclaresTable(d, login, p, table) {
      DeclaredTableIsHeld(d, out, login, p, table);
    }
  }

  /** Whatever order a grant declares its privileges in, the script lists them in one: select, insert, update,
      delete, each as often as declared. */
  lemma PrivilegesAreInOrder(d: Declaration, out: seq<Statement>, s: Statement)
    requires IsScript(d, out) && s in out && s.GrantTable?
    ensures forall a, b | 0 <= a < b < |s.privileges| ::
      && (s.privileges[b] == Select ==> s.privileges[a] == Select)
      && (s.privileges[b] == Insert ==> s.privileges[a] in {Select, Insert})
      && (s.privileges[b] == Update ==> s.privileges[a] != Delete)
    ensures exists i, k :: 0 <= i < |d.resources| && 0 <= k < |d.resources[i].grants|
                           && multiset(s.privileges) == multiset(d.resources[i].grants[k].privileges)
  {
    assert GrantsTable(d, s);
    var i, k :| 0 <= i < |d.resources| && 0 <= k < |d.resources[i].grants|
                && IsTableGrant(d.resources[i], d.resources[i].grants[k], s);
    SortPermutes(d.resources[i].grants[k].privileges, PrivilegeLe);
    SortSorts(d.resources[i].grants[k].privileges, PrivilegeLe);
  }

  /** The login reaches a role that a grant of the resource itself gives the privilege to. */
  ghost predicate OwnPrivilege(d: Declaration, login: string, p: Privilege, i: nat)
  {
    && i < |d.resources|
    && exists role, k :: 0 <= k < |d.resources[i].grants| && role in d.resources[i].grants[k].roles
                         && p in d.resources[i].grants[k].privileges && ReachedByName(d, login, role)
  }

  /** Two PostgreSQL resources whose names are the same but for letter case. */
  predicate AreTwins(d: Declaration, i: nat, j: nat)
  {
    && i < |d.resources| && j < |d.resources| && !d.resources[i].OnTrino() && !d.resources[j].OnTrino()
    && ToLower(d.resources[i].resource) == ToLower(d.resources[j].resource)
  }

  /** The privileges on a resource are those its own grants or those of a case twin give. */
  lemma PrivilegesComeFromTwins(d: Declaration, accepts: string -> bool, out: seq<Statement>, login: string,
        p: Privilege, i: nat)
    requires IsValid(d, accepts) && IsScript(d, out) && IsLogin(d, login)
    requires i < |d.resources| && !d.resources[i].OnTrino()
    ensures HoldsTable(out, login, p, ToLower(d.resources[i].resource)) <==>
              exists j: nat :: AreTwins(d, i, j) && OwnPrivilege(d, login, p, j)
  {
    var table := ToLower(d.resources[i].resource);
    TablePrivilegesMatch(d, accepts, out, login, p, table);
    if role, j: nat, k: nat :| DeclaresAt(d, login, p, table, role, j, k) {
      assert AreTwins(d, i, j) && OwnPrivilege(d, login, p, j);
    }
    if j: nat :| AreTwins(d, i, j) && OwnPrivilege(d, login, p, j) {
      var role, k :| 0 <= k < |d.resources[j].grants| && role in d.resources[j].grants[k].roles
                     && p in d.resources[j].grants[k].privileges && ReachedByName(d, login, role);
      assert DeclaresAt(d, login, p, table, role, j, k);
    }
  }

  /** No twin gives a login a privilege that the resource itself does not give it. */
  ghost predicate TwinsAddNothing(d: Declaration, i: nat)
  {
    forall j: nat, login, p | AreTwins(d, i, j) && IsLogin(d, login) && OwnPrivilege(d, login, p, j) ::
        OwnPrivilege(d, login, p, i)
  }

  /** Logins hold on the resource exactly what its own grants give them. */
  ghost predicate FollowsTheResource(d: Declaration, out: seq<Statement>, i: nat)
    requires i < |d.resources|
  {
    forall login, p | IsLogin(d, login) ::
      HoldsTable(out, login, p, ToLower(d.resources[i].resource)) <==> OwnPrivilege(d, login, p, i)
  }

  /** The privileges on a resource are those of its own grants exactly if its case twins add nothing, in
      particular if it has none. */
  lemma PrivilegesFollowTheResource(d: Declaration, accepts: string -> bool, out: seq<Statement>, i: nat)
    requires IsValid(d, accepts) && IsScript(d, out) && i < |d.resources| && !d.resources[i].OnTrino()
    ensures FollowsTheResource(d, out, i) <==> TwinsAddNothing(d, i)
    ensures (forall j: nat | AreTwins(d, i, j) :: j == i) ==> FollowsTheResource(d, out, i)
  {
    assert AreTwins(d, i, i);
    forall login, p | IsLogin(d, login)
      ensures HoldsTable(out, login, p, ToLower(d.resources[i].resource)) <==>
                exists j: nat :: AreTwins(d, i, j) && OwnPrivilege(d, login, p, j)
    {
      PrivilegesComeFromTwins(d, accepts, out, login, p, i);
    }
  }

  // A role named `public`

  /** The name that stands for everybody where privileges are granted. */
  const EVERYBODY: string := "public"

  /** What a login holds on a table if grants to `public` reach everybody. */
  ghost predicate HoldsOnServer(out: seq<Statement>, who: string, p: Privilege, table: string)
  {
    HoldsTable(out, who, p, table) || GivenToEverybody(out, p, table)
  }

  /** A grant gives the privilege to a declared role that is renamed to `public`. */
  ghost predicate GivesEverybody(d: Declaration, p: Privilege, table: string)
  {
    exists role, i, k :: 0 <= i < |d.resources| && 0 <= k < |d.resources[i].grants|
                         && ToPgRole(role) == EVERYBODY && GivesTable(d.resources[i], d.resources[i].grants[k], role,
                           p, table)
  }

  ghost predicate GivenToEverybody(out: seq<Statement>, p: Privilege, table: string)
  {
    exists s :: s in out && s.GrantTable? && p in s.privileges && ToLower(s.table) == table && s.role == EVERYBODY
  }

  lemma PublicGrantIsDeclared(d: Declaration, out: seq<Statement>, p: Privilege, table: string)
    requires IsScript(d, out) && GivenToEverybody(out, p, table)
    ensures GivesEverybody(d, p, table)
  {
    var s :| s in out && s.GrantTable? && p in s.privileges && ToLower(s.table) == table && s.role == EVERYBODY;
    assert GrantsTable(d, s);
    var i, k :| 0 <= i < |d.resources| && 0 <= k < |d.resources[i].grants|
                && IsTableGrant(d.resources[i], d.resources[i].grants[k], s);
    var g := d.resources[i].grants[k];
    var n :| 0 <= n < |g.roles| && s == GrantTable(SortBy(g.privileges, PrivilegeLe), d.resources[i].resource,
             ToPgRole(g.roles[n]));
    SortMembers(g.privileges, PrivilegeLe);
    assert GivesTable(d.resources[i], d.resources[i].grants[k], g.roles[n], p, table);
  }

  lemma DeclaredPublicGrantIsGiven(d: Declaration, out: seq<Statement>, p: Privilege, table: string)
    requires IsScript(d, out) && GivesEverybody(d, p, table)
    ensures GivenToEverybody(out, p, table)
  {
    var role, i, k :| 0 <= i < |d.resources| && 0 <= k < |d.resources[i].grants| && ToPgRole(role) == EVERYBODY
                      && GivesTable(d.resources[i], d.resources[i].grants[k], role, p, table);
    var g := d.resources[i].grants[k];
    var n :| 0 <= n < |g.roles| && g.roles[n] == role;
    var s := GrantTable(SortBy(g.privileges, PrivilegeLe), d.resources[i].resource, ToPgRole(g.roles[n]));
    SortMembers(g.privileges, PrivilegeLe);
    assert IsTableGrant(d.resources[i], d.resources[i].grants[k], s);
    assert GrantsTable(d, s);
  }

  /** Nobody is given anything through `public` that the declaration does not give it anyway. */
  ghost predicate PublicAddsNothing(d: Declaration)
  {
    forall login, p, table | IsLogin(d, login) && GivesEverybody(d, p, table) :: DeclaresTable(d, login, p, table)
  }

  /** With grants to `public` reaching everybody, logins hold what is declared exactly if these grants add
      nothing, in particular if no declared role is renamed to `public`. */
  lemma PrivilegesSurvivePublicIff(d: Declaration, accepts: string -> bool, out: seq<Statement>)
    requires IsValid(d, accepts) && IsScript(d, out)
    ensures (forall login, p, table | IsLogin(d, login) ::
               HoldsOnServer(out, login, p, table) <==> DeclaresTable(d, login, p, table)) <==> PublicAddsNothing(d)
  {
    forall login, p, table | IsLogin(d, login)
      ensures HoldsOnServer(out, login, p, table) <==> DeclaresTable(d, login, p, table) || GivesEverybody(d, p, table)
    {
      TablePrivilegesMatch(d, accepts, out, login, p, table);
      if GivenToEverybody(out, p, table) {
        PublicGrantIsDeclared(d, out, p, table);
      } else if GivesEverybody(d, p, table) {
        DeclaredPublicGrantIsGiven(d, out, p, table);
      }
    }
  }

  lemma {:induction false} SplitFolds(s: string)
    ensures |Split(ToLower(s), '.')| == |Split(s, '.')|
    ensures SchemaOf(ToLower(s)) == ToLower(SchemaOf(s))
  {
    if s != [] {
      SplitFolds(s[1..]);
      assert ToLower(s)[1..] == ToLower(s[1..]);
      assert Lower(s[0]) == '.' <==> s[0] == '.';
      if s[0] != '.' {
        assert ToLower([s[0]] + SchemaOf(s[1..])) == [Lower(s[0])] + ToLower(SchemaOf(s[1..]));
      }
    }
  }

  lemma SchemaStatementsPresent(d: Declaration, out: seq<Statement>, i: nat, k: nat, role: string, insert: bool)
    requires IsScript(d, out) && i < |d.resources| && k < |d.resources[i].grants|
    requires UsesTable(d.resources[i], d.resources[i].grants[k], insert, SchemaOf(d.resources[i].resource), role)
    ensures SchemaStatement(insert, SchemaOf(d.resources[i].resource), role) in out
  {
    var schema := SchemaOf(d.resources[i].resource);
    assert ResourceUses(d.resources[i], insert, schema, role);
    assert role in AllGrantRoles(d);
    var s := SchemaStatement(insert, schema, role);
    assert if insert then GrantsSequences(d, s) else GrantsUsage(d, s);
  }

  /** A login that holds any privilege on a table may use its schema, and one that may insert may use
      the sequences of the schema. */
  lemma TablePrivilegeBringsSchema(d: Declaration, accepts: string -> bool, out: seq<Statement>, login: string,
        p: Privilege, table: string)
    requires IsValid(d, accepts) && IsScript(d, out) && IsLogin(d, login) && HoldsTable(out, login, p, table)
    ensures HoldsUsage(out, login, SchemaOf(table))
    ensures p == Insert ==> HoldsSequences(out, login, SchemaOf(table))
  {
    ValidNamesAreSound(d, accepts);
    HeldTableIsDeclared(d, out, login, p, table);
    var role, i: nat, k: nat :| DeclaresAt(d, login, p, table, role, i, k);
    SplitFolds(d.resources[i].resource);
    assert AllDeclared(d, d.resources[i].grants[k].roles);
    LoginInheritance(d, out, login, role);
    SchemaStatementsPresent(d, out, i, k, role, false);
    if p == Insert {
      SchemaStatementsPresent(d, out, i, k, role, true);
    }
  }

  lemma UsageComesFromTable(d: Declaration, s: Statement, insert: bool) returns (role: string, i: nat, k: nat)
    requires if insert then GrantsSequences(d, s) else GrantsUsage(d, s)
    ensures i < |d.resources| && k < |d.resources[i].grants|
        && UsesTable(d.resources[i], d.resources[i].grants[k], insert, s.schema, role)
    ensures s.role == ToPgRole(role)
  {
    role :| role in AllGrantRoles(d) && UsesSchema(d.resources, insert, s.schema, role) && s.role == ToPgRole(role);
    i :| 0 <= i < |d.resources| && ResourceUses(d.resources[i], insert, s.schema, role);
    k :| 0 <= k < |d.resources[i].grants| && UsesTable(d.resources[i], d.resources[i].grants[k], insert, s.schema,
                                                       role);
  }

  lemma UsedTable(d: Declaration, out: seq<Statement>, login: string, s: Statement, insert: bool)
        returns (role: string, i: nat, k: nat)
    requires NamesSound(d) && IsScript(d, out) && IsLogin(d, login) && s in out
    requires (if insert then s.GrantSequences? else s.GrantUsage?) && Inherits(out, login, s.role)
    ensures i < |d.resources| && k < |d.resources[i].grants|
    ensures UsesTable(d.resources[i], d.resources[i].grants[k], insert, s.schema, role)
        && ReachedByName(d, login, role)
  {
    assert IsPgStatement(d, s);
    role, i, k := UsageComesFromTable(d, s, insert);
    assert AllDeclared(d, d.resources[i].grants[k].roles);
    LoginInheritance(d, out, login, role);
  }

  /** Nothing else opens a schema: who may use it holds a privilege on one of its tables. */
  lemma SchemaUsageNeedsTable(d: Declaration, accepts: string -> bool, out: seq<Statement>, login: string,
        schema: string)
    requires IsValid(d, accepts) && IsScript(d, out) && IsLogin(d, login) && HoldsUsage(out, login, schema)
    requires forall i, k | 0 <= i < |d.resources| && 0 <= k < |d.resources[i].grants| ::
        d.resources[i].grants[k].privileges != []
    ensures exists p, table :: SchemaOf(table) == schema && HoldsTable(out, login, p, table)
  {
    ValidNamesAreSound(d, accepts);
    var s :| s in out && s.GrantUsage? && ToLower(s.schema) == schema && Inherits(out, login, s.role);
    var role, i, k := UsedTable(d, out, login, s, false);
    var p, table := d.resources[i].grants[k].privileges[0], ToLower(d.resources[i].resource);
    SplitFolds(d.resources[i].resource);
    assert DeclaresAt(d, login, p, table, role, i, k);
    DeclaredTableIsHeld(d, out, login, p, table);
  }

  /** A login may use the sequences of a schema exactly if it may insert into one of its tables. */
  lemma SequencesNeedInsert(d: Declaration, accepts: string -> bool, out: seq<Statement>, login: string,
        schema: string)
    requires IsValid(d, accepts) && IsScript(d, out) && IsLogin(d, login)
    ensures HoldsSequences(out, login, schema) <==>
              exists table :: SchemaOf(table) == schema && HoldsTable(out, login, Insert, table)
  {
    ValidNamesAreSound(d, accepts);
    if s :| s in out && s.GrantSequences? && ToLower(s.schema) == schema && Inherits(out, login, s.role) {
      var role, i, k := UsedTable(d, out, login, s, true);
      var table := ToLower(d.resources[i].resource);
      SplitFolds(d.resources[i].resource);
      assert DeclaresAt(d, login, Insert, table, role, i, k);
      DeclaredTableIsHeld(d, out, login, Insert, table);
      assert SchemaOf(table) == schema;
    }
    if table :| SchemaOf(table) == schema && HoldsTable(out, login, Insert, table) {
      TablePrivilegeBringsSchema(d, accepts, out, login, Insert, table);
    }
  }

  // ---------------------------------------------------------------------------------------------
  // Connections
  // ---------------------------------------------------------------------------------------------

  /** What some statement creates, a first one creates. */
  lemma {:induction false} FirstCreation(out: seq<Statement>, i: nat, who: string) returns (first: nat)
    requires i < |out| && out[i].CreateRole? && out[i].name == who
    ensures first <= i && out[first].CreateRole? && out[first].name == who && !CreatedBefore(out, first, who)
  {
    if j: nat :| j < i && out[j].CreateRole? && out[j].name == who {
      first := FirstCreation(out, j, who);
    } else {
      first := i;
    }
  }

  lemma CreationsOfLogin(d: Declaration, login: string, s: Statement)
    requires LoginsApart(d) && IsLogin(d, login) && IsPgStatement(d, s) && s.CreateRole? && s.name == login
    ensures s.login
  {
    assert !CreatesRole(d, s);
  }

  /** Exactly the declared logins can log in; no policy role can. */
  lemma LogsInIffLogin(d: Declaration, accepts: string -> bool, out: seq<Statement>, who: string)
    requires IsValid(d, accepts) && IsScript(d, out)
    ensures CanLogIn(out, who) <==> IsLogin(d, who)
    ensures forall r | r in RoleNames(d) :: !CanLogIn(out, ToPgRole(r))
  {
    ValidNamesAreSound(d, accepts);
    forall name ensures CanLogIn(out, name) ==> IsLogin(d, name) {
      if i :| 0 <= i < |out| && out[i] == CreateRole(name, true) && !CreatedBefore(out, i, name) {
        assert IsPgStatement(d, out[i]) && CreatesLogin(d, out[i]);
      }
    }
    if IsLogin(d, who) {
      var s := CreateRole(who, true);
      assert CreatesLogin(d, s) && IsPgStatement(d, s) && s in out;
      var i :| 0 <= i < |out| && out[i] == s;
      var first := FirstCreation(out, i, who);
      assert out[first] in out;
      CreationsOfLogin(d, who, out[first]);
    }
    forall r | r in RoleNames(d) ensures !IsLogin(d, ToPgRole(r)) {
      var i :| 0 <= i < |d.roles| && d.roles[i].name == r;
    }
  }

  /** The login reaches a role that has a table grant and that some login of the database reaches too. */
  ghost predicate SharesRoleWith(d: Declaration, login: string, database: string, role: string)
  {
    ReachedByName(d, login, role) && HasTableGrant(d.resources, role) && DatabaseReaches(d, d.logins, database, role)
  }

  lemma ConnectIsShared(d: Declaration, out: seq<Statement>, login: string, s: Statement)
    requires NamesSound(d) && IsScript(d, out) && IsLogin(d, login)
    requires s in out && s.GrantConnect? && Inherits(out, login, s.role)
    ensures exists role :: SharesRoleWith(d, login, s.database, role)
  {
    assert GrantsConnect(d, s);
    var role :| HasTableGrant(d.resources, role) && DatabaseReaches(d, d.logins, s.database, role)
                && s.role == ToPgRole(role);
    LoginInheritance(d, out, login, role);
    assert SharesRoleWith(d, login, s.database, role);
  }

  lemma SharedIsConnect(d: Declaration, out: seq<Statement>, login: string, db: string, role: string)
    requires NamesSound(d) && IsScript(d, out) && IsLogin(d, login) && SharesRoleWith(d, login, db, role)
    ensures HoldsConnect(out, login, ToLower(db))
  {
    var s := GrantConnect(db, ToPgRole(role));
    assert GrantsConnect(d, s);
    assert s in out;
    LoginInheritance(d, out, login, role);
  }

  /** Who can connect to a database: a login, exactly when it shares a role with a table grant with some
      login of that database, and nobody else. */
  lemma ConnectMatches(d: Declaration, accepts: string -> bool, out: seq<Statement>, who: string, database: string)
    requires IsValid(d, accepts) && IsScript(d, out)
    ensures CanConnect(out, who, database) <==>
        IsLogin(d, who) && exists db, role :: ToLower(db) == database && SharesRoleWith(d, who, db, role)
  {
    LogsInIffLogin(d, accepts, out, who);
    if IsLogin(d, who) {
      LoginHoldsConnect(d, accepts, out, who, database);
    }
  }

  lemma LoginHoldsConnect(d: Declaration, accepts: string -> bool, out: seq<Statement>, login: string,
        database: string)
    requires IsValid(d, accepts) && IsScript(d, out) && IsLogin(d, login)
    ensures HoldsConnect(out, login, database) <==>
        exists db, role :: ToLower(db) == database && SharesRoleWith(d, login, db, role)
  {
    ValidNamesAreSound(d, accepts);
    if s :| s in out && s.GrantConnect? && ToLower(s.database) == database && Inherits(out, login, s.role) {
      ConnectIsShared(d, out, login, s);
    }
    if db, role :| ToLower(db) == database && SharesRoleWith(d, login, db, role) {
      SharedIsConnect(d, out, login, db, role);
    }
  }

  ghost predicate ReachesTables(d: Declaration, login: Login)
  {
    exists role :: LoginReaches(d, login, role) && HasTableGrant(d.resources, role)
  }

  /** Another entry of the same name reaches a role with a table grant that some login of this database
      reaches too; letter case in database names aside. */
  ghost predicate BorrowsConnect(d: Declaration, i: nat)
    requires i < |d.logins|
  {
    exists j, db, role :: IsLender(d, i, j, db, role)
  }

  ghost predicate IsLender(d: Declaration, i: nat, j: nat, db: string, role: string)
    requires i < |d.logins|
  {
    && j < |d.logins| && j != i && d.logins[j].name == d.logins[i].name && LoginReaches(d, d.logins[j], role)
    && HasTableGrant(d.resources, role) && ToLower(db) == ToLower(d.logins[i].database)
      && DatabaseReaches(d, d.logins, db, role)
  }

  lemma ConnectedReachesOrBorrows(d: Declaration, i: nat, db: string, role: string)
    requires i < |d.logins| && ToLower(db) == ToLower(d.logins[i].database)
        && SharesRoleWith(d, d.logins[i].name, db, role)
    ensures ReachesTables(d, d.logins[i]) || BorrowsConnect(d, i)
  {
    var j :| 0 <= j < |d.logins| && d.logins[j].name == d.logins[i].name && LoginReaches(d, d.logins[j], role);
    if j != i {
      assert IsLender(d, i, j, db, role);
    }
  }

  /** The login of an entry can connect to the database of the entry exactly when the entry reaches a role
      that has a table grant, or borrows one from another entry of its name. */
  lemma LoginConnectsIff(d: Declaration, accepts: string -> bool, out: seq<Statement>, i: nat)
    requires IsValid(d, accepts) && IsScript(d, out) && i < |d.logins|
    ensures CanConnect(out, d.logins[i].name, ToLower(d.logins[i].database)) <==>
              ReachesTables(d, d.logins[i]) || BorrowsConnect(d, i)
  {
    var login := d.logins[i];
    ConnectMatches(d, accepts, out, login.name, ToLower(login.database));
    if db, role :| ToLower(db) == ToLower(login.database) && SharesRoleWith(d, login.name, db, role) {
      ConnectedReachesOrBorrows(d, i, db, role);
    }
    if role :| LoginReaches(d, login, role) && HasTableGrant(d.resources, role) {
      assert DatabaseReaches(d, d.logins, login.database, role);
      assert SharesRoleWith(d, login.name, login.database, role);
    }
    if j: nat, db, role :| IsLender(d, i, j, db, role) {
      assert SharesRoleWith(d, login.name, db, role);
    }
  }

  ghost predicate DistinctLoginNames(d: Declaration)
  {
    forall i, j | 0 <= i < |d.logins| && 0 <= j < |d.logins| && d.logins[i].name == d.logins[j].name :: i == j
  }

  /** With distinct login names there is nothing to borrow. */
  lemma LoginConnectsIffItHasTables(d: Declaration, accepts: string -> bool, out: seq<Statement>, i: nat)
    requires IsValid(d, accepts) && IsScript(d, out) && DistinctLoginNames(d) && i < |d.logins|
    ensures CanConnect(out, d.logins[i].name, ToLower(d.logins[i].database)) <==> ReachesTables(d, d.logins[i])
  {
    LoginConnectsIff(d, accepts, out, i);
    assert !BorrowsConnect(d, i);
  }
}
