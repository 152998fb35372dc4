/** Valid declarations in which a login holds a privilege that it is not granted: through a table that differs in
    letter case only, and through a role named `public`. */
module LentPrivileges {
  import opened PgCompiler
  import opened PgGuarantees
  import opened PolicySchema
  import opened PolicyValidation
  import opened RoleGraph
  import opened Strings
  import opened Wrappers

  /** Names for the examples: two roles, a login with its database, and two tables. */
  datatype TwoTables = TwoTables(reader: string, other: string, login: string, database: string, one: string,
        two: string)
  {
    predicate Fine()
    {
      && IsRoleName(reader) && IsRoleName(other) && ToPgRole(reader) != ToPgRole(other)
      && IsRoleName(login) && ToPgRole(reader) != login && ToPgRole(other) != login && IsIdentifier(database)
      && IsTableName(one) && IsTableName(two) && one != two
    }

    /** Two spellings of one name. */
    predicate AreSpellings()
    {
      ToLower(one) == ToLower(two)
    }

    /** The other role is printed as `public`. */
    predicate IsPublic()
    {
      ToPgRole(other) == EVERYBODY && ToLower(one) != ToLower(two)
    }

    function TableOf(name: string, role: string): Resource
    {
      Resource(name, Public, [Grant([role], [Select], None, None, None)], [], Some(Postgres))
    }

    /** Each role may read one table; the login has the first role only. */
    function Policy(): Declaration
    {
      Declaration([Role(reader, []), Role(other, [])], [], [TableOf(one, reader), TableOf(two, other)], [],
                  [Login(login, [reader], database)])
    }
  }

  /** There are such tables. */
  lemma SpellingsExist()
    ensures var n := TwoTables("r", "o", "l", "d", "s.t", "s.T"); n.Fine() && n.AreSpellings()
  {
    assert "s.t" == "s" + ['.'] + "t" && "s.T" == "s" + ['.'] + "T";
    SplitJoined("s", "t", '.');
    SplitJoined("s", "T", '.');
    SplitNone("t", '.');
    SplitNone("T", '.');
    assert ToPgRole("r")[0] == 'r' && ToPgRole("o")[0] == 'o';
    assert ToLower("s.t") == "s.t" == ToLower("s.T");
    assert "s.t"[2] != "s.T"[2];
  }

  /** And such roles. */
  lemma PublicExists()
    ensures var n := TwoTables("r", "public", "l", "d", "s.t", "s.u"); n.Fine() && n.IsPublic()
  {
    assert "s.t" == "s" + ['.'] + "t" && "s.u" == "s" + ['.'] + "u";
    SplitJoined("s", "t", '.');
    SplitJoined("s", "u", '.');
    SplitNone("t", '.');
    SplitNone("u", '.');
    assert ToPgRole("public") == "public" && ToPgRole("r")[0] == 'r';
    assert ToLower("s.t")[2] == 't' && ToLower("s.u")[2] == 'u';
  }

  lemma RolesAreKnown(n: TwoTables)
    ensures n.reader in RoleNames(n.Policy()) && n.other in RoleNames(n.Policy())
  {
    var d := n.Policy();
    assert d.roles[0].name == n.reader && d.roles[1].name == n.other;
  }

  lemma DeclaredRolesAreFine(n: TwoTables, c: ErrorCode)
    requires n.Fine()
    ensures !RolesOffend(n.Policy(), c)
  {
    var d := n.Policy();
    forall i | 0 <= i < |d.roles|
        ensures !NamedReferencesOffend(RoleNames(d), d.roles[i].name, d.roles[i].includes, c) {
      assert d.roles[i].name in [n.reader, n.other] && d.roles[i].includes == [];
    }
  }

  lemma KeysDiffer(n: TwoTables)
    requires n.Fine()
    ensures !HasRepeat(PgRoles(n.Policy().roles)) && !HasRepeat(TableKeys(n.Policy().resources))
  {
    assert PgRoles(n.Policy().roles) == [ToPgRole(n.reader), ToPgRole(n.other)];
    assert TableKeys(n.Policy().resources) == [(false, n.one), (false, n.two)];
  }

  lemma NamesAreFine(n: TwoTables, c: ErrorCode)
    requires n.Fine()
    ensures !NamesOffend(n.Policy(), c)
  {
    FlatClosure(n.Policy(), n.reader);
    DeclaredRolesAreFine(n, c);
    KeysDiffer(n);
    assert !GroupsOffend(n.Policy(), c);
  }

  lemma TableIsFine(n: TwoTables, accepts: string -> bool, name: string, role: string, c: ErrorCode)
    requires n.Fine() && IsTableName(name) && role in [n.reader, n.other]
    ensures !ResourceOffends(n.Policy(), accepts, n.TableOf(name, role), c)
  {
    var d, res := n.Policy(), n.TableOf(name, role);
    RolesAreKnown(n);
    assert !ReferencesOffend(RoleNames(d), [role], c);
    assert !GrantOffends(RoleNames(d), accepts, res, res.grants[0], c);
    assert res.grants[0].Masks() == [];
    assert !MasksConflict(d, res);
  }

  lemma TablesAreFine(n: TwoTables, accepts: string -> bool, c: ErrorCode)
    requires n.Fine()
    ensures !ResourcesOffend(n.Policy(), accepts, c)
  {
    TableIsFine(n, accepts, n.one, n.reader, c);
    TableIsFine(n, accepts, n.two, n.other, c);
  }

  lemma LoginIsFine(n: TwoTables, c: ErrorCode)
    requires n.Fine()
    ensures !LoginsOffend(n.Policy(), c)
  {
    RolesAreKnown(n);
    assert !LoginOffends(n.Policy(), n.Policy().logins[0], c);
  }

  lemma PolicyIsValid(n: TwoTables, accepts: string -> bool)
    requires n.Fine()
    ensures IsValid(n.Policy(), accepts)
  {
    forall c ensures !Offends(n.Policy(), accepts, c) {
      NamesAreFine(n, c);
      TablesAreFine(n, accepts, c);
      LoginIsFine(n, c);
      assert !CatalogGrantsOffend(n.Policy(), c) && OperationKeys(n.Policy().catalogGrants) == [];
    }
  }

  /** Which roles the login reaches: the first one only. */
  lemma ReachesReaderOnly(n: TwoTables, role: string)
    ensures ReachedByName(n.Policy(), n.login, role) <==> role == n.reader
  {
    var d := n.Policy();
    FlatClosure(d, n.reader);
    if role == n.reader {
      assert d.logins[0].memberOf[0] == n.reader;
      assert LoginReaches(d, d.logins[0], role);
    }
  }

  /** A valid declaration in which a login may read a table that no grant of that table lets it read. */
  lemma CaseTwinLendsPrivilege(n: TwoTables, accepts: string -> bool, out: seq<Statement>)
    requires n.Fine() && n.AreSpellings() && IsScript(n.Policy(), out)
    ensures IsValid(n.Policy(), accepts) && n.Policy().resources[1].resource == n.two
    ensures HoldsTable(out, n.login, Select, ToLower(n.two)) && !OwnPrivilege(n.Policy(), n.login, Select, 1)
  {
    var d := n.Policy();
    PolicyIsValid(n, accepts);
    assert IsLogin(d, d.logins[0].name);
    ReachesReaderOnly(n, n.reader);
    ReachesReaderOnly(n, n.other);
    assert n.reader in d.resources[0].grants[0].roles && Select in d.resources[0].grants[0].privileges;
    assert OwnPrivilege(d, n.login, Select, 0) && AreTwins(d, 1, 0);
    PrivilegesComeFromTwins(d, accepts, out, n.login, Select, 1);
    assert ToPgRole(n.reader) != ToPgRole(n.other);
  }

  lemma OtherTableIsNotDeclared(n: TwoTables, p: Privilege)
    requires n.Fine() && n.IsPublic()
    ensures !DeclaresTable(n.Policy(), n.login, p, ToLower(n.two))
  {
    var d := n.Policy();
    forall role, i: nat, k: nat ensures !DeclaresAt(d, n.login, p, ToLower(n.two), role, i, k) {
      ReachesReaderOnly(n, role);
      assert i < |d.resources| ==>
          d.resources[i] == n.TableOf(n.one, n.reader) || d.resources[i] == n.TableOf(n.two, n.other);
    }
  }

  /** A valid declaration with a role named `public`: everybody may read its table, also a login that no
      grant of the declaration lets read it. */
  lemma PublicLendsPrivilege(n: TwoTables, accepts: string -> bool, out: seq<Statement>)
    requires n.Fine() && n.IsPublic() && IsScript(n.Policy(), out)
    ensures IsValid(n.Policy(), accepts) && IsLogin(n.Policy(), n.login)
    ensures HoldsOnServer(out, n.login, Select, ToLower(n.two))
    ensures !DeclaresTable(n.Policy(), n.login, Select, ToLower(n.two))
  {
    var d := n.Policy();
    PolicyIsValid(n, accepts);
    assert IsLogin(d, d.logins[0].name);
    OtherTableIsNotDeclared(n, Select);
    assert n.other in d.resources[1].grants[0].roles && Select in d.resources[1].grants[0].privileges;
    assert GivesTable(d.resources[1], d.resources[1].grants[0], n.other, Select, ToLower(n.two));
    DeclaredPublicGrantIsGiven(d, out, Select, ToLower(n.two));
  }
}
