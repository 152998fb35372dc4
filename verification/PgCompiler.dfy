/** Compilation of a declaration to PostgreSQL statements. */
module PgCompiler {
  import opened Holders
  import opened PolicySchema
  import opened RoleGraph
  import opened Sorting
  import opened Strings

  /** Roles, tables, schemas and databases are printed unquoted, login names quoted. */
  datatype Statement =
    | CreateRole(name: string, login: bool)
    | GrantRole(role: string, member: string)
    | GrantUsage(schema: string, role: string)
    | GrantTable(privileges: seq<Privilege>, table: string, role: string)
    | GrantSequences(schema: string, role: string)
    | GrantConnect(database: string, role: string)

  function PrivilegeRank(p: Privilege): nat
  {
    match p case Select => 0 case Insert => 1 case Update => 2 case Delete => 3
  }

  predicate PrivilegeLe(a: Privilege, b: Privilege)
  {
    PrivilegeRank(a) <= PrivilegeRank(b)
  }

  function SchemaOf(table: string): string
  {
    Split(table, '.')[0]
  }

  // ---------------------------------------------------------------------------------------------
  // The statements a declaration stands for
  // ---------------------------------------------------------------------------------------------

  predicate CreatesRole(d: Declaration, s: Statement)
  {
    exists i :: 0 <= i < |d.roles| && s == CreateRole(ToPgRole(d.roles[i].name), false)
  }

  predicate GrantsParent(d: Declaration, s: Statement)
  {
    exists i, k :: 0 <= i < |d.roles| && 0 <= k < |d.roles[i].includes|
                   && s == GrantRole(ToPgRole(d.roles[i].includes[k]), ToPgRole(d.roles[i].name))
  }

  /** The role has a grant on a PostgreSQL table of the schema; on `insert`, one that lets it insert. */
  predicate UsesSchema(resources: seq<Resource>, insert: bool, schema: string, role: string)
  {
    exists i :: 0 <= i < |resources| && ResourceUses(resources[i], insert, schema, role)
  }

  predicate ResourceUses(res: Resource, insert: bool, schema: string, role: string)
  {
    exists k :: 0 <= k < |res.grants| && UsesTable(res, res.grants[k], insert, schema, role)
  }

  predicate UsesTable(res: Resource, g: Grant, insert: bool, schema: string, role: string)
  {
    !res.OnTrino() && SchemaOf(res.resource) == schema && role in g.roles && (insert ==> Insert in g.privileges)
  }

  predicate GrantsUsage(d: Declaration, s: Statement)
  {
    s.GrantUsage? && exists role ::
      role in AllGrantRoles(d) && UsesSchema(d.resources, false, s.schema, role) && s.role == ToPgRole(role)
  }

  predicate GrantsSequences(d: Declaration, s: Statement)
  {
    s.GrantSequences? && exists role ::
      role in AllGrantRoles(d) && UsesSchema(d.resources, true, s.schema, role) && s.role == ToPgRole(role)
  }

  function AllGrantRoles(d: Declaration): set<string>
  {
    set i, k, r | 0 <= i < |d.resources| && 0 <= k < |d.resources[i].grants| && r in d.resources[i].grants[k].roles :: r
  }

  predicate IsTableGrant(res: Resource, g: Grant, s: Statement)
  {
    !res.OnTrino() && exists n ::
      0 <= n < |g.roles| && s == GrantTable(SortBy(g.privileges, PrivilegeLe), res.resource, ToPgRole(g.roles[n]))
  }

  predicate GrantsTable(d: Declaration, s: Statement)
  {
    exists i, k :: 0 <= i < |d.resources| && 0 <= k < |d.resources[i].grants|
                   && IsTableGrant(d.resources[i], d.resources[i].grants[k], s)
  }

  predicate CreatesLogin(d: Declaration, s: Statement)
  {
    exists i :: 0 <= i < |d.logins| && s == CreateRole(d.logins[i].name, true)
  }

  predicate BindsLogin(d: Declaration, s: Statement)
  {
    exists i, k :: 0 <= i < |d.logins| && 0 <= k < |d.logins[i].memberOf|
                   && s == GrantRole(ToPgRole(d.logins[i].memberOf[k]), d.logins[i].name)
  }

  /** The role has a grant on some PostgreSQL table. */
  predicate HasTableGrant(resources: seq<Resource>, role: string)
  {
    exists i, k :: 0 <= i < |resources| && 0 <= k < |resources[i].grants| && !resources[i].OnTrino()
                   && role in resources[i].grants[k].roles
  }

  /** The login is or inherits the role. */
  ghost predicate LoginReaches(d: Declaration, login: Login, role: string)
  {
    exists k :: 0 <= k < |login.memberOf| && role in Closure(d, login.memberOf[k])
  }

  /** Some login of the database is or inherits the role. */
  ghost predicate DatabaseReaches(d: Declaration, logins: seq<Login>, database: string, role: string)
  {
    exists i :: 0 <= i < |logins| && logins[i].database == database && LoginReaches(d, logins[i], role)
  }

  ghost predicate GrantsConnect(d: Declaration, s: Statement)
  {
    s.GrantConnect? && exists role ::
      HasTableGrant(d.resources, role) && DatabaseReaches(d, d.logins, s.database, role) && s.role == ToPgRole(role)
  }

  ghost predicate IsPgStatement(d: Declaration, s: Statement)
  {
    || CreatesRole(d, s) || GrantsParent(d, s) || GrantsUsage(d, s) || GrantsTable(d, s) || GrantsSequences(d, s)
    || CreatesLogin(d, s) || BindsLogin(d, s) || GrantsConnect(d, s)
  }

  // ---------------------------------------------------------------------------------------------
  // Compilation, section by section
  // ---------------------------------------------------------------------------------------------

  method CompileRoles(d: Declaration) returns (out: seq<Statement>)
    ensures forall s :: s in out <==> CreatesRole(d, s)
  {
    out := [];
    for i := 0 to |d.roles|
      invariant forall s :: s in out <==> exists k :: 0 <= k < i && s == CreateRole(ToPgRole(d.roles[k].name), false)
    {
      out := out + [CreateRole(ToPgRole(d.roles[i].name), false)];
    }
  }

  method CompileParents(d: Declaration) returns (out: seq<Statement>)
    ensures forall s :: s in out <==> GrantsParent(d, s)
  {
    out := [];
    for i := 0 to |d.roles|
      invariant forall s :: s in out <==>
        exists j, k :: 0 <= j < i && 0 <= k < |d.roles[j].includes|
                       && s == GrantRole(ToPgRole(d.roles[j].includes[k]), ToPgRole(d.roles[j].name))
    {
      ghost var before := out;
      for n := 0 to |d.roles[i].includes|
        invariant forall s :: s in out <==>
          s in before || exists k ::
            0 <= k < n && s == GrantRole(ToPgRole(d.roles[i].includes[k]), ToPgRole(d.roles[i].name))
      {
        out := out + [GrantRole(ToPgRole(d.roles[i].includes[n]), ToPgRole(d.roles[i].name))];
      }
    }
  }

  /** The roles listed for a key. */
  function RolesAt(roles: map<string, set<string>>, key: string): set<string>
  {
    if key in roles then roles[key] else {}
  }

  /** Grows, schema by schema, the roles with any table grant and the roles that may insert. */
  method CollectSchemaRoles(resources: seq<Resource>)
        returns (schemaRoles: map<string, set<string>>, sequenceRoles: map<string, set<string>>)
    ensures forall schema, role :: role in RolesAt(schemaRoles, schema) <==> UsesSchema(resources, false, schema, role)
    ensures forall schema, role :: role in RolesAt(sequenceRoles, schema) <==> UsesSchema(resources, true, schema, role)
  {
    schemaRoles, sequenceRoles := map[], map[];
    for i := 0 to |resources|
      invariant forall schema, role :: role in RolesAt(schemaRoles, schema) <==>
                                       exists j :: 0 <= j < i && ResourceUses(resources[j], false, schema, role)
      invariant forall schema, role :: role in RolesAt(sequenceRoles, schema) <==>
                                       exists j :: 0 <= j < i && ResourceUses(resources[j], true, schema, role)
    {
      var res := resources[i];
      ghost var schemaRoles0, sequenceRoles0 := schemaRoles, sequenceRoles;
      if !res.OnTrino() {
        var schema := SchemaOf(res.resource);
        var users, writers := CollectTableRoles(res, RolesAt(schemaRoles, schema), RolesAt(sequenceRoles, schema));
        schemaRoles := schemaRoles[schema := users];
        sequenceRoles := sequenceRoles[schema := writers];
      }
      assert forall schema, role :: role in RolesAt(schemaRoles, schema) <==>
        role in RolesAt(schemaRoles0, schema) || ResourceUses(resources[i], false, schema, role);
      assert forall schema, role :: role in RolesAt(sequenceRoles, schema) <==>
        role in RolesAt(sequenceRoles0, schema) || ResourceUses(resources[i], true, schema, role);
    }
  }

  /** Adds the roles of one table to those already collected for its schema. */
  method CollectTableRoles(res: Resource, users0: set<string>, writers0: set<string>)
        returns (users: set<string>, writers: set<string>)
    requires !res.OnTrino()
    ensures forall role :: role in users <==> role in users0 || ResourceUses(res, false, SchemaOf(res.resource), role)
    ensures forall role :: role in writers <==>
                           role in writers0 || ResourceUses(res, true, SchemaOf(res.resource), role)
  {
    users, writers := users0, writers0;
    for k := 0 to |res.grants|
      invariant forall role :: role in users <==>
                               role in users0 || exists j ::
                               0 <= j < k && UsesTable(res, res.grants[j], false, SchemaOf(res.resource), role)
      invariant forall role :: role in writers <==>
                               role in writers0 || exists j ::
                               0 <= j < k && UsesTable(res, res.grants[j], true, SchemaOf(res.resource), role)
    {
      var roles := set r | r in res.grants[k].roles;
      users := users + roles;
      if Insert in res.grants[k].privileges {
        writers := writers + roles;
      }
    }
  }

  /** One statement for each schema and each role listed for it. */
  method EmitPerSchema(roles: map<string, set<string>>, sequences: bool) returns (out: seq<Statement>)
    ensures forall s :: s in out <==>
                        exists schema, role ::
                        role in RolesAt(roles, schema) && s == SchemaStatement(sequences, schema, role)
  {
    out := [];
    var schemas := roles.Keys;
    while schemas != {}
      invariant schemas <= roles.Keys
      invariant forall s :: s in out <==>
                            exists schema, role ::
                            schema !in schemas && role in RolesAt(roles, schema)
                            && s == SchemaStatement(sequences, schema, role)
    {
      var schema :| schema in schemas;
      schemas := schemas - {schema};
      var listed := Elements(roles[schema]);
      ghost var before := out;
      for i := 0 to |listed|
        invariant forall s :: s in out <==>
                              s in before || exists k ::
                              0 <= k < i && s == SchemaStatement(sequences, schema, listed[k])
      {
        out := out + [SchemaStatement(sequences, schema, listed[i])];
      }
    }
  }

  function SchemaStatement(sequences: bool, schema: string, role: string): Statement
  {
    if sequences then GrantSequences(schema, ToPgRole(role)) else GrantUsage(schema, ToPgRole(role))
  }

  method CompileTables(d: Declaration) returns (out: seq<Statement>)
    ensures forall s :: s in out <==> GrantsTable(d, s)
  {
    out := [];
    for i := 0 to |d.resources|
      invariant forall s :: s in out <==>
                            exists j, k :: 0 <= j < i && 0 <= k < |d.resources[j].grants|
                                           && IsTableGrant(d.resources[j], d.resources[j].grants[k], s)
    {
      var res := d.resources[i];
      if !res.OnTrino() {
        ghost var before := out;
        for k := 0 to |res.grants|
          invariant forall s :: s in out <==>
                                s in before || exists j :: 0 <= j < k && IsTableGrant(res, res.grants[j], s)
        {
          var rows := CompileTableGrant(res, res.grants[k]);
          out := out + rows;
        }
      }
    }
  }

  method CompileTableGrant(res: Resource, g: Grant) returns (out: seq<Statement>)
    requires !res.OnTrino()
    ensures forall s :: s in out <==> IsTableGrant(res, g, s)
  {
    out := [];
    for n := 0 to |g.roles|
      invariant forall s :: s in out <==>
        exists m :: 0 <= m < n && s == GrantTable(SortBy(g.privileges, PrivilegeLe), res.resource, ToPgRole(g.roles[m]))
    {
      out := out + [GrantTable(SortBy(g.privileges, PrivilegeLe), res.resource, ToPgRole(g.roles[n]))];
    }
  }

  method CompileLogins(d: Declaration) returns (created: seq<Statement>, bound: seq<Statement>)
    ensures forall s :: s in created <==> CreatesLogin(d, s)
    ensures forall s :: s in bound <==> BindsLogin(d, s)
  {
    created, bound := [], [];
    for i := 0 to |d.logins|
      invariant forall s :: s in created <==> exists j :: 0 <= j < i && s == CreateRole(d.logins[j].name, true)
    {
      created := created + [CreateRole(d.logins[i].name, true)];
    }
    for i := 0 to |d.logins|
      invariant forall s :: s in bound <==>
        exists j, k :: 0 <= j < i && 0 <= k < |d.logins[j].memberOf|
                       && s == GrantRole(ToPgRole(d.logins[j].memberOf[k]), d.logins[j].name)
    {
      ghost var before := bound;
      for n := 0 to |d.logins[i].memberOf|
        invariant forall s :: s in bound <==>
          s in before || exists k :: 0 <= k < n && s == GrantRole(ToPgRole(d.logins[i].memberOf[k]), d.logins[i].name)
      {
        bound := bound + [GrantRole(ToPgRole(d.logins[i].memberOf[n]), d.logins[i].name)];
      }
    }
  }

  method CollectGrantRoles(resources: seq<Resource>) returns (roles: set<string>)
    ensures forall r :: r in roles <==> HasTableGrant(resources, r)
  {
    roles := {};
    for i := 0 to |resources|
      invariant forall r :: r in roles <==>
                            exists j, k :: 0 <= j < i && 0 <= k < |resources[j].grants| && !resources[j].OnTrino()
                                           && r in resources[j].grants[k].roles
    {
      if !resources[i].OnTrino() {
        ghost var before := roles;
        for k := 0 to |resources[i].grants|
          invariant forall r :: r in roles <==>
                                r in before || exists n :: 0 <= n < k && r in resources[i].grants[n].roles
        {
          roles := roles + set r | r in resources[i].grants[k].roles;
        }
      }
    }
  }

  /** Adds the roles one login is or inherits. */
  method CollectLoginRoles(d: Declaration, login: Login, before: set<string>) returns (roles: set<string>)
    ensures forall r :: r in roles <==> r in before || LoginReaches(d, login, r)
  {
    roles := before;
    for k := 0 to |login.memberOf|
      invariant forall r :: r in roles <==> r in before || exists n :: 0 <= n < k && r in Closure(d, login.memberOf[n])
    {
      var expanded := ExpandRoles(d, login.memberOf[k]);
      roles := roles + set r | r in expanded;
    }
  }

  /** The roles some login of each database is or inherits. */
  method CollectDatabaseRoles(d: Declaration) returns (rolesByDatabase: map<string, set<string>>)
    ensures forall db, r :: r in RolesAt(rolesByDatabase, db) <==> DatabaseReaches(d, d.logins, db, r)
  {
    rolesByDatabase := map[];
    for i := 0 to |d.logins|
      invariant forall db, r :: r in RolesAt(rolesByDatabase, db) <==>
                                exists j :: 0 <= j < i && d.logins[j].database == db && LoginReaches(d, d.logins[j], r)
    {
      var login := d.logins[i];
      var roles := CollectLoginRoles(d, login, RolesAt(rolesByDatabase, login.database));
      ghost var collected := rolesByDatabase;
      rolesByDatabase := rolesByDatabase[login.database := roles];
      assert forall db, r :: r in RolesAt(rolesByDatabase, db) <==>
        r in RolesAt(collected, db) || (db == login.database && LoginReaches(d, d.logins[i], r));
    }
  }

  /** A CONNECT grant for each of the roles. */
  method EmitConnects(database: string, roles: set<string>) returns (out: seq<Statement>)
    ensures forall s :: s in out <==> exists r :: r in roles && s == GrantConnect(database, ToPgRole(r))
  {
    var listed := Elements(roles);
    out := [];
    for i := 0 to |listed|
      invariant forall s :: s in out <==> exists k :: 0 <= k < i && s == GrantConnect(database, ToPgRole(listed[k]))
    {
      out := out + [GrantConnect(database, ToPgRole(listed[i]))];
    }
    assert forall r | r in roles :: r in listed;
  }

  method CompileConnects(d: Declaration) returns (out: seq<Statement>)
    ensures forall s :: s in out <==> GrantsConnect(d, s)
  {
    var granted := CollectGrantRoles(d.resources);
    var rolesByDatabase := CollectDatabaseRoles(d);
    out := [];
    var databases := rolesByDatabase.Keys;
    while databases != {}
      invariant databases <= rolesByDatabase.Keys
      invariant forall s :: s in out <==>
                            exists db, r :: db !in databases && r in RolesAt(rolesByDatabase, db) && r in granted
                                            && s == GrantConnect(db, ToPgRole(r))
    {
      var db :| db in databases;
      databases := databases - {db};
      var connects := EmitConnects(db, granted * rolesByDatabase[db]);
      out := out + connects;
    }
  }

  /** The script's statements are those the declaration stands for; with declared roles only, every
      principal is created before it is granted anything. */
  method CompilePgDdl(d: Declaration) returns (out: seq<Statement>)
    ensures forall s :: s in out <==> IsPgStatement(d, s)
    ensures ReferencesDeclared(d) ==> Runs(out)
  {
    var roles := CompileRoles(d);
    var parents := CompileParents(d);
    var schemaRoles, sequenceRoles := CollectSchemaRoles(d.resources);
    var usages := EmitPerSchema(schemaRoles, false);
    var tables := CompileTables(d);
    var sequences := EmitPerSchema(sequenceRoles, true);
    var created, bound := CompileLogins(d);
    var connects := CompileConnects(d);
    var middle := parents + usages + tables + sequences + created;
    var tail := bound + connects;
    if ReferencesDeclared(d) {
      ScriptRuns(d, roles, middle, tail);
    }
    out := roles + middle + tail;
  }

  /** Principals that must exist for a statement to succeed. */
  function Mentions(s: Statement): set<string>
  {
    match s
    case CreateRole(_, _) => {}
    case GrantRole(role, member) => {role, member}
    case GrantUsage(_, role) => {role}
    case GrantTable(_, _, role) => {role}
    case GrantSequences(_, role) => {role}
    case GrantConnect(_, role) => {role}
  }

  /** Every principal a statement mentions is created by an earlier one. */
  ghost predicate Runs(out: seq<Statement>)
  {
    forall i, name | 0 <= i < |out| && name in Mentions(out[i]) :: CreatedBefore(out, i, name)
  }

  ghost predicate CreatedBefore(out: seq<Statement>, i: nat, name: string)
    requires i <= |out|
  {
    exists j :: 0 <= j < i && out[j].CreateRole? && out[j].name == name
  }

  /** Every role that is mentioned anywhere is declared. */
  ghost predicate ReferencesDeclared(d: Declaration)
  {
    && (forall i | 0 <= i < |d.roles| :: AllDeclared(d, d.roles[i].includes))
    && (forall i, k | 0 <= i < |d.resources| && 0 <= k < |d.resources[i].grants| ::
      AllDeclared(d, d.resources[i].grants[k].roles))
    && (forall i | 0 <= i < |d.logins| :: AllDeclared(d, d.logins[i].memberOf))
  }

  ghost predicate Creates(out: seq<Statement>, name: string)
  {
    exists j :: 0 <= j < |out| && out[j].CreateRole? && out[j].name == name
  }

  lemma AppendRuns(a: seq<Statement>, b: seq<Statement>)
    requires Runs(a) && forall s, name | s in b && name in Mentions(s) :: Creates(a, name)
    ensures Runs(a + b)
  {
    var out := a + b;
    forall i, name | 0 <= i < |out| && name in Mentions(out[i]) ensures CreatedBefore(out, i, name) {
      if i < |a| {
        assert CreatedBefore(a, i, name);
        var j :| 0 <= j < i && a[j].CreateRole? && a[j].name == name;
        assert out[j] == a[j];
      } else {
        assert out[i] == b[i - |a|] && out[i] in b;
        assert Creates(a, name);
        var j :| 0 <= j < |a| && a[j].CreateRole? && a[j].name == name;
        assert out[j] == a[j];
      }
    }
  }

  ghost predicate MentionsDeclared(d: Declaration, s: Statement)
  {
    forall name | name in Mentions(s) :: exists i :: 0 <= i < |d.roles| && ToPgRole(d.roles[i].name) == name
  }

  lemma DeclaredRoleMentioned(d: Declaration, names: seq<string>, n: string)
    requires AllDeclared(d, names) && n in names
    ensures exists i :: 0 <= i < |d.roles| && ToPgRole(d.roles[i].name) == ToPgRole(n)
  {
    var i :| 0 <= i < |d.roles| && d.roles[i].name == n;
  }

  lemma MiddleMentionsDeclared(d: Declaration, s: Statement)
    requires ReferencesDeclared(d)
    requires GrantsParent(d, s) || GrantsUsage(d, s) || GrantsTable(d, s) || GrantsSequences(d, s) || CreatesLogin(d, s)
    ensures MentionsDeclared(d, s)
  {
    if GrantsParent(d, s) {
      var i, k :| 0 <= i < |d.roles| && 0 <= k < |d.roles[i].includes|
                  && s == GrantRole(ToPgRole(d.roles[i].includes[k]), ToPgRole(d.roles[i].name));
      DeclaredRoleMentioned(d, d.roles[i].includes, d.roles[i].includes[k]);
    } else if GrantsUsage(d, s) || GrantsSequences(d, s) {
      var role :| role in AllGrantRoles(d) && s.role == ToPgRole(role);
      var i, k :| 0 <= i < |d.resources| && 0 <= k < |d.resources[i].grants| && role in d.resources[i].grants[k].roles;
      DeclaredRoleMentioned(d, d.resources[i].grants[k].roles, role);
    } else if GrantsTable(d, s) {
      var i, k :| 0 <= i < |d.resources| && 0 <= k < |d.resources[i].grants|
                  && IsTableGrant(d.resources[i], d.resources[i].grants[k], s);
      var g := d.resources[i].grants[k];
      var n :| 0 <= n < |g.roles| && s.role == ToPgRole(g.roles[n]);
      DeclaredRoleMentioned(d, g.roles, g.roles[n]);
    }
  }

  lemma ConnectMentionsDeclared(d: Declaration, s: Statement)
    requires ReferencesDeclared(d) && GrantsConnect(d, s)
    ensures MentionsDeclared(d, s)
  {
    var role :| HasTableGrant(d.resources, role) && s.role == ToPgRole(role);
    var i, k :| 0 <= i < |d.resources| && 0 <= k < |d.resources[i].grants| && role in d.resources[i].grants[k].roles;
    DeclaredRoleMentioned(d, d.resources[i].grants[k].roles, role);
  }

  lemma BindingMentions(d: Declaration, s: Statement, name: string)
    requires ReferencesDeclared(d) && BindsLogin(d, s) && name in Mentions(s)
    ensures (exists i :: 0 <= i < |d.roles| && ToPgRole(d.roles[i].name) == name) || exists i ::
        0 <= i < |d.logins| && d.logins[i].name == name
  {
    var i, k :| 0 <= i < |d.logins| && 0 <= k < |d.logins[i].memberOf|
                && s == GrantRole(ToPgRole(d.logins[i].memberOf[k]), d.logins[i].name);
    DeclaredRoleMentioned(d, d.logins[i].memberOf, d.logins[i].memberOf[k]);
  }

  lemma ScriptRuns(d: Declaration, roles: seq<Statement>, middle: seq<Statement>, tail: seq<Statement>)
    requires ReferencesDeclared(d)
    requires forall s :: s in roles <==> CreatesRole(d, s)
    requires forall s :: s in middle <==>
                         GrantsParent(d, s) || GrantsUsage(d, s) || GrantsTable(d, s) || GrantsSequences(d, s)
                         || CreatesLogin(d, s)
    requires forall s :: s in tail <==> BindsLogin(d, s) || GrantsConnect(d, s)
    ensures Runs(roles + middle + tail)
  {
    forall i | 0 <= i < |roles| ensures Mentions(roles[i]) == {} {
      assert roles[i] in roles && CreatesRole(d, roles[i]);
    }
    forall i | 0 <= i < |d.roles|
        ensures Creates(roles, ToPgRole(d.roles[i].name)) && Creates(roles + middle, ToPgRole(d.roles[i].name)) {
      RoleIsCreated(d, roles, middle, i);
    }
    forall s, name | s in middle && name in Mentions(s) ensures Creates(roles, name) {
      MiddleMentionsDeclared(d, s);
    }
    AppendRuns(roles, middle);
    forall s, name | s in tail && name in Mentions(s) ensures Creates(roles + middle, name) {
      if BindsLogin(d, s) {
        BindingMentions(d, s, name);
        if i :| 0 <= i < |d.logins| && d.logins[i].name == name {
          LoginIsCreated(d, roles, middle, i);
        }
      } else {
        ConnectMentionsDeclared(d, s);
      }
    }
    AppendRuns(roles + middle, tail);
  }

  lemma RoleIsCreated(d: Declaration, roles: seq<Statement>, middle: seq<Statement>, i: nat)
    requires i < |d.roles| && forall s :: s in roles <==> CreatesRole(d, s)
    ensures Creates(roles, ToPgRole(d.roles[i].name)) && Creates(roles + middle, ToPgRole(d.roles[i].name))
  {
    var s := CreateRole(ToPgRole(d.roles[i].name), false);
    assert CreatesRole(d, s);
    var j :| 0 <= j < |roles| && roles[j] == s;
    assert (roles + middle)[j] == s;
  }

  lemma LoginIsCreated(d: Declaration, roles: seq<Statement>, middle: seq<Statement>, i: nat)
    requires i < |d.logins| && forall s | CreatesLogin(d, s) :: s in middle
    ensures Creates(roles + middle, d.logins[i].name)
  {
    var s := CreateRole(d.logins[i].name, true);
    assert CreatesLogin(d, s);
    var j :| 0 <= j < |middle| && middle[j] == s;
    assert (roles + middle)[|roles| + j] == s;
  }

}
