/** The compiled PostgreSQL script against the grants a server reports. */
module DeclarationDrift {
  import opened Drift
  import opened GrantLines
  import opened Holders
  import opened PgCompiler
  import opened PgGuarantees
  import opened PolicySchema
  import opened PolicyValidation
  import opened RoleGraph
  import opened ScriptText
  import opened Sorting
  import opened Strings
  import opened Wrappers

  predicate IsPrintable(s: Statement)
  {
    s.GrantTable? && s.privileges != [] && IsBareWord(s.table) && IsBareWord(s.role)
  }

  predicate ArePrintable(grants: seq<Statement>)
  {
    forall i | 0 <= i < |grants| :: IsPrintable(grants[i])
  }

  /** The GRANT lines of the script. */
  function Lines(grants: seq<Statement>): seq<string>
    requires ArePrintable(grants)
  {
    if grants == [] then []
    else
      var last := grants[|grants| - 1];
      Lines(grants[..|grants| - 1]) + [PrintGrant(last.privileges, last.table, last.role)]
  }

  /** A row for each privilege of a grant, as the information schema lists them. */
  function SingleRows(s: Statement): seq<string>
    requires IsPrintable(s)
  {
    seq(|s.privileges|, i requires 0 <= i < |s.privileges| => PrintGrant([s.privileges[i]], s.table, s.role))
  }

  function AllSingleRows(grants: seq<Statement>): seq<string>
    requires ArePrintable(grants)
  {
    if grants == [] then [] else AllSingleRows(grants[..|grants| - 1]) + SingleRows(grants[|grants| - 1])
  }

  lemma OneSql(p: Privilege)
    ensures Sqls([p]) == {PrivilegeSql(p)}
  {
    assert p in [p];
  }

  lemma SingleRowsSplit(s: Statement)
    requires IsPrintable(s)
    ensures SplitsInto(ParseGrantLine, PrintGrant(s.privileges, s.table, s.role), SingleRows(s))
  {
    var row, parts := PrintGrant(s.privileges, s.table, s.role), SingleRows(s);
    GrantReadsBack(s.privileges, s.table, s.role);
    var key := KeyOf(ParseGrantLine(row).value);
    forall i | 0 <= i < |parts|
        ensures ParseGrantLine(parts[i]) == Some(ParsedGrant(s.table, s.role, {PrivilegeSql(s.privileges[i])})) {
      GrantReadsBack([s.privileges[i]], s.table, s.role);
      OneSql(s.privileges[i]);
    }
    forall l | l in parts ensures Covers(ParseGrantLine, l, key) {
    }
    forall p ensures p in Rows(ParseGrantLine, parts, key) <==> p in Sqls(s.privileges) {
      if p in Sqls(s.privileges) {
        var q :| q in s.privileges && p == PrivilegeSql(q);
        var i :| 0 <= i < |s.privileges| && s.privileges[i] == q;
        assert parts[i] in parts && Covers(ParseGrantLine, parts[i], key);
      }
    }
  }

  lemma {:induction false} OwnRowsMerge(grants: seq<Statement>)
    requires ArePrintable(grants)
    ensures Keys(ParseGrantLine, Lines(grants)) == Keys(ParseGrantLine, AllSingleRows(grants))
    ensures forall k :: Rows(ParseGrantLine, Lines(grants), k) == Rows(ParseGrantLine, AllSingleRows(grants), k)
  {
    if grants != [] {
      var front, last := grants[..|grants| - 1], grants[|grants| - 1];
      OwnRowsMerge(front);
      SingleRowsSplit(last);
      var line := PrintGrant(last.privileges, last.table, last.role);
      SplitMeansTheSame(ParseGrantLine, line, SingleRows(last));
      LinesJoin(ParseGrantLine, Lines(front), [line]);
      LinesJoin(ParseGrantLine, AllSingleRows(front), SingleRows(last));
    }
  }

  lemma {:induction false} OwnRowsParse(grants: seq<Statement>)
    requires ArePrintable(grants)
    ensures Unparsed(ParseGrantLine, AllSingleRows(grants)) == []
  {
    if grants != [] {
      var front, last := grants[..|grants| - 1], grants[|grants| - 1];
      OwnRowsParse(front);
      SingleRowsSplit(last);
      UnparsedJoin(ParseGrantLine, AllSingleRows(front), SingleRows(last));
      assert forall i | 0 <= i < |SingleRows(last)| :: SingleRows(last)[i] in SingleRows(last);
      AllParsed(ParseGrantLine, SingleRows(last));
    }
  }

  /** A database that holds exactly the printed grants, listed privilege by privilege, shows no drift. */
  lemma OwnGrantsAreClean(grants: seq<Statement>, format: Format)
    requires ArePrintable(grants)
    ensures PgItems(ParseGrantLine, format, Lines(grants), AllSingleRows(grants)) == multiset{}
  {
    OwnRowsMerge(grants);
    OwnRowsParse(grants);
    MergedFromRows(ParseGrantLine, AllSingleRows(grants), Merged(ParseGrantLine, Lines(grants)));
    PgCleanIffAgree(ParseGrantLine, format, Lines(grants), AllSingleRows(grants));
  }

  /** The table grants of a valid declaration print so that they can be read back. */
  lemma ValidGrantsArePrintable(d: Declaration, accepts: string -> bool, s: Statement)
    requires IsValid(d, accepts) && GrantsTable(d, s)
    requires forall i, k | 0 <= i < |d.resources| && 0 <= k < |d.resources[i].grants| ::
        d.resources[i].grants[k].privileges != []
    ensures IsPrintable(s) && '/' !in s.table
  {
    var i, k :| 0 <= i < |d.resources| && 0 <= k < |d.resources[i].grants|
                && IsTableGrant(d.resources[i], d.resources[i].grants[k], s);
    var res, g := d.resources[i], d.resources[i].grants[k];
    var n :| 0 <= n < |g.roles| && s == GrantTable(SortBy(g.privileges, PrivilegeLe), res.resource,
             ToPgRole(g.roles[n]));
    assert !Offends(d, accepts, InvalidIdentifier);
    assert !ResourceOffends(d, accepts, res, InvalidIdentifier);
    assert !GrantOffends(RoleNames(d), accepts, res, g, InvalidIdentifier);
    assert IsRoleName(g.roles[n]) && IsTableName(res.resource);
    var parts := Split(res.resource, '.');
    SplitPieces(res.resource, '.');
    assert res.resource == parts[0] + "." + parts[1];
    ValidNamesAreBare(parts[0], parts[1], g.roles[n]);
    SortPermutes(g.privileges, PrivilegeLe);
  }

  // ---------------------------------------------------------------------------------------------
  // The text of the script
  // ---------------------------------------------------------------------------------------------

  /** The table grants of a script. */
  function TableGrants(out: seq<Statement>): (grants: seq<Statement>)
    ensures forall s :: s in grants <==> s in out && s.GrantTable?
  {
    if out == [] then []
    else TableGrants(out[..|out| - 1]) + if out[|out| - 1].GrantTable? then [out[|out| - 1]] else []
  }

  predicate HavePrivileges(out: seq<Statement>)
  {
    forall s | s in out :: s.GrantTable? ==> s.privileges != []
  }

  function LoginNames(d: Declaration): set<string>
  {
    set i | 0 <= i < |d.logins| :: d.logins[i].name
  }

  ghost predicate IsLineOf(out: seq<Statement>, logins: set<string>, line: string)
    requires HavePrivileges(out)
  {
    exists s :: s in out && line in StatementLines(s, logins)
  }

  /** The lines hold what the statements print, and besides only comments, empty lines and block frames. */
  ghost predicate IsText(lines: seq<string>, out: seq<Statement>, logins: set<string>)
    requires HavePrivileges(out)
  {
    && (forall l | l in lines :: IsFrame(l) || IsLineOf(out, logins, l))
    && (forall l | IsLineOf(out, logins, l) :: l in lines)
  }

  /** What the statements print, one after the other. */
  function ScriptLines(out: seq<Statement>, logins: set<string>): seq<string>
    requires HavePrivileges(out)
  {
    if out == [] then []
    else
      assert forall s | s in out[..|out| - 1] :: s in out;
      ScriptLines(out[..|out| - 1], logins) + StatementLines(out[|out| - 1], logins)
  }

  /** These lines alone are a text of the script. */
  lemma {:induction false} ScriptLinesAreText(out: seq<Statement>, logins: set<string>)
    requires HavePrivileges(out)
    ensures forall l :: l in ScriptLines(out, logins) <==> IsLineOf(out, logins, l)
    ensures IsText(ScriptLines(out, logins), out, logins)
  {
    if out != [] {
      var front, last := out[..|out| - 1], out[|out| - 1];
      assert out == front + [last];
      ScriptLinesAreText(front, logins);
      forall l ensures l in ScriptLines(out, logins) <==> IsLineOf(out, logins, l) {
        if s :| s in out && l in StatementLines(s, logins) {
          assert s in front ==> IsLineOf(front, logins, l);
        }
      }
    }
  }

  lemma RoleIsWord(name: string)
    requires IsRoleName(name)
    ensures IsWord(ToPgRole(name)) && '/' !in ToPgRole(name)
  {
    var pg := ToPgRole(name);
    forall i | 0 <= i < |pg| ensures !IsSpace(pg[i]) && pg[i] != '/' {
      assert IsNameChar(name[i]) || name[i] == '-';
    }
  }

  lemma NameIsWord(name: string)
    requires IsRoleName(name) || IsIdentifier(name)
    ensures IsWord(name) && IsWord(Quoted(name))
  {
    forall i | 0 <= i < |name| ensures !IsSpace(name[i]) {
      assert IsNameChar(name[i]) || name[i] == '-';
    }
  }

  lemma ReferencedNamesAreRoleNames(d: Declaration, accepts: string -> bool)
    requires IsValid(d, accepts)
    ensures forall i | 0 <= i < |d.roles| :: IsRoleName(d.roles[i].name)
    ensures forall i, k | 0 <= i < |d.roles| && 0 <= k < |d.roles[i].includes| :: IsRoleName(d.roles[i].includes[k])
    ensures forall i | 0 <= i < |d.logins| :: IsRoleName(d.logins[i].name) && IsIdentifier(d.logins[i].database)
  {
    assert !Offends(d, accepts, InvalidIdentifier);
    forall i | 0 <= i < |d.roles|
      ensures IsRoleName(d.roles[i].name) && forall k | 0 <= k < |d.roles[i].includes| ::
          IsRoleName(d.roles[i].includes[k])
    {
      assert !NamedReferencesOffend(RoleNames(d), d.roles[i].name, d.roles[i].includes, InvalidIdentifier);
    }
    forall i | 0 <= i < |d.logins| ensures IsRoleName(d.logins[i].name) && IsIdentifier(d.logins[i].database) {
      assert !LoginOffends(d, d.logins[i], InvalidIdentifier);
    }
  }

  lemma DeclaredIsRoleName(d: Declaration, accepts: string -> bool, names: seq<string>, name: string)
    requires IsValid(d, accepts) && AllDeclared(d, names) && name in names
    ensures IsRoleName(name)
  {
    ReferencedNamesAreRoleNames(d, accepts);
    var i :| 0 <= i < |d.roles| && d.roles[i].name == name;
  }

  lemma SchemaIsIdentifier(d: Declaration, accepts: string -> bool, i: nat)
    requires IsValid(d, accepts) && i < |d.resources|
    ensures IsIdentifier(SchemaOf(d.resources[i].resource))
  {
    assert !Offends(d, accepts, InvalidIdentifier);
    assert !ResourceOffends(d, accepts, d.resources[i], InvalidIdentifier);
  }

  lemma MembershipLines(d: Declaration, accepts: string -> bool, s: Statement)
    requires IsValid(d, accepts) && (GrantsParent(d, s) || BindsLogin(d, s))
    ensures IsWord(s.role) && IsWord(s.member) && IsWord(Quoted(s.member))
  {
    ReferencedNamesAreRoleNames(d, accepts);
    ValidNamesAreSound(d, accepts);
    if GrantsParent(d, s) {
      var i, k :| 0 <= i < |d.roles| && 0 <= k < |d.roles[i].includes|
                  && s == GrantRole(ToPgRole(d.roles[i].includes[k]), ToPgRole(d.roles[i].name));
      RoleIsWord(d.roles[i].includes[k]);
      RoleIsWord(d.roles[i].name);
    } else {
      var i, k :| 0 <= i < |d.logins| && 0 <= k < |d.logins[i].memberOf|
                  && s == GrantRole(ToPgRole(d.logins[i].memberOf[k]), d.logins[i].name);
      DeclaredIsRoleName(d, accepts, d.logins[i].memberOf, d.logins[i].memberOf[k]);
      RoleIsWord(d.logins[i].memberOf[k]);
      NameIsWord(d.logins[i].name);
    }
  }

  lemma SchemaLines(d: Declaration, accepts: string -> bool, s: Statement)
    requires IsValid(d, accepts) && (GrantsUsage(d, s) || GrantsSequences(d, s))
    ensures IsWord(s.schema) && IsWord(s.role)
  {
    ValidNamesAreSound(d, accepts);
    var insert := GrantsSequences(d, s);
    var role :| role in AllGrantRoles(d) && UsesSchema(d.resources, insert, s.schema, role) && s.role == ToPgRole(role);
    var i :| 0 <= i < |d.resources| && ResourceUses(d.resources[i], insert, s.schema, role);
    var k :| 0 <= k < |d.resources[i].grants| && UsesTable(d.resources[i], d.resources[i].grants[k], insert, s.schema,
             role);
    DeclaredIsRoleName(d, accepts, d.resources[i].grants[k].roles, role);
    RoleIsWord(role);
    SchemaIsIdentifier(d, accepts, i);
    NameIsWord(s.schema);
  }

  lemma ConnectLines(d: Declaration, accepts: string -> bool, s: Statement)
    requires IsValid(d, accepts) && GrantsConnect(d, s)
    ensures IsWord(s.database) && IsWord(s.role)
  {
    ValidNamesAreSound(d, accepts);
    ReferencedNamesAreRoleNames(d, accepts);
    var role :| HasTableGrant(d.resources, role) && DatabaseReaches(d, d.logins, s.database, role)
                && s.role == ToPgRole(role);
    var i, k :| 0 <= i < |d.resources| && 0 <= k < |d.resources[i].grants| && role in d.resources[i].grants[k].roles;
    DeclaredIsRoleName(d, accepts, d.resources[i].grants[k].roles, role);
    RoleIsWord(role);
    var j :| 0 <= j < |d.logins| && d.logins[j].database == s.database;
    NameIsWord(s.database);
  }

  /** Of what a valid declaration compiles to, only table grants print lines that read back as table grants. */
  lemma OtherStatementsDoNotParse(d: Declaration, accepts: string -> bool, s: Statement, line: string)
    requires IsValid(d, accepts) && IsPgStatement(d, s) && !s.GrantTable? && line in StatementLines(s, LoginNames(d))
    ensures ParseGrantLine(line).None?
  {
    match s
    case CreateRole(name, login) => CreateLinesAreNoTableGrants(name, login, line);
    case GrantRole(role, member) =>
      MembershipLines(d, accepts, s);
      MembershipIsNoTableGrant(role, if member in LoginNames(d) then Quoted(member) else member);
    case GrantUsage(schema, role) =>
      SchemaLines(d, accepts, s);
      UsageIsNoTableGrant(schema, role);
    case GrantSequences(schema, role) =>
      SchemaLines(d, accepts, s);
      SequencesAreNoTableGrant(schema, role);
    case GrantConnect(database, role) =>
      ConnectLines(d, accepts, s);
      ConnectIsNoTableGrant(database, role);
  }

  // ---------------------------------------------------------------------------------------------
  // The script against reported grants
  // ---------------------------------------------------------------------------------------------

  /** Every grant lists a privilege, as the schema of declarations demands. */
  ghost predicate GrantsGive(d: Declaration)
  {
    forall i, k | 0 <= i < |d.resources| && 0 <= k < |d.resources[i].grants| ::
        d.resources[i].grants[k].privileges != []
  }

  /** So every table grant of the script lists one, and its line can be printed. */
  lemma ScriptHasPrivileges(d: Declaration, out: seq<Statement>)
    requires GrantsGive(d) && IsScript(d, out)
    ensures HavePrivileges(out)
  {
    forall s | s in out && s.GrantTable? ensures s.privileges != [] {
      assert IsPgStatement(d, s) && GrantsTable(d, s);
      var i, k :| 0 <= i < |d.resources| && 0 <= k < |d.resources[i].grants|
                  && IsTableGrant(d.resources[i], d.resources[i].grants[k], s);
      SortPermutes(d.resources[i].grants[k].privileges, PrivilegeLe);
    }
  }

  /** A valid declaration, its compiled script, and the text of the script. */
  ghost predicate IsCompiledText(d: Declaration, accepts: string -> bool, out: seq<Statement>, lines: seq<string>)
  {
    && IsValid(d, accepts) && GrantsGive(d) && IsScript(d, out)
    && HavePrivileges(out) && IsText(lines, out, LoginNames(d))
  }

  /** Every valid declaration's script has a text: the lines its statements print. */
  lemma EveryScriptHasText(d: Declaration, accepts: string -> bool, out: seq<Statement>)
    requires IsValid(d, accepts) && GrantsGive(d) && IsScript(d, out)
    ensures HavePrivileges(out) && IsCompiledText(d, accepts, out, ScriptLines(out, LoginNames(d)))
  {
    ScriptHasPrivileges(d, out);
    ScriptLinesAreText(out, LoginNames(d));
  }

  lemma TableGrantReadsBack(d: Declaration, accepts: string -> bool, s: Statement)
    requires IsValid(d, accepts) && GrantsGive(d) && GrantsTable(d, s)
    ensures IsPrintable(s) && '/' !in s.table && '/' !in s.role
    ensures ParseGrantLine(PrintGrant(s.privileges, s.table, s.role)) ==
        Some(ParsedGrant(s.table, s.role, Sqls(s.privileges)))
  {
    ValidGrantsArePrintable(d, accepts, s);
    ValidNamesAreSound(d, accepts);
    var i, k :| 0 <= i < |d.resources| && 0 <= k < |d.resources[i].grants|
                && IsTableGrant(d.resources[i], d.resources[i].grants[k], s);
    var g := d.resources[i].grants[k];
    var n :| 0 <= n < |g.roles| && s.role == ToPgRole(g.roles[n]);
    DeclaredIsRoleName(d, accepts, g.roles, g.roles[n]);
    RoleIsWord(g.roles[n]);
    GrantReadsBack(s.privileges, s.table, s.role);
  }

  /** A line that reads back is no frame, so some statement prints it. */
  lemma ParsedLineIsPrinted(out: seq<Statement>, logins: set<string>, lines: seq<string>, l: string)
        returns (s: Statement)
    requires HavePrivileges(out) && IsText(lines, out, logins) && l in lines && ParseGrantLine(l).Some?
    ensures s in out && l in StatementLines(s, logins)
  {
    assert !IsFrame(l) by {
      if IsFrame(l) {
        FrameIsNoTableGrant(l);
      }
    }
    s :| s in out && l in StatementLines(s, logins);
  }

  lemma ParsedStatementGrants(d: Declaration, accepts: string -> bool, s: Statement, l: string)
    requires IsValid(d, accepts) && IsPgStatement(d, s) && (s.GrantTable? ==> s.privileges != [])
    requires l in StatementLines(s, LoginNames(d)) && ParseGrantLine(l).Some?
    ensures s.GrantTable? && l == PrintGrant(s.privileges, s.table, s.role)
  {
    if !s.GrantTable? {
      OtherStatementsDoNotParse(d, accepts, s, l);
    }
  }

  lemma ParsedLineHasStatement(d: Declaration, accepts: string -> bool, out: seq<Statement>, lines: seq<string>,
        l: string)
    returns (s: Statement)
    requires IsCompiledText(d, accepts, out, lines) && l in lines && ParseGrantLine(l).Some?
    ensures s in out && s.GrantTable? && s.privileges != [] && l == PrintGrant(s.privileges, s.table, s.role)
  {
    s := ParsedLineIsPrinted(out, LoginNames(d), lines, l);
    ParsedStatementGrants(d, accepts, s, l);
  }

  /** A line of the script that reads back as a table grant is that of a table grant. */
  lemma ParsedLineIsTableGrant(d: Declaration, accepts: string -> bool, out: seq<Statement>, lines: seq<string>,
        l: string)
    returns (s: Statement)
    requires IsCompiledText(d, accepts, out, lines) && l in lines && ParseGrantLine(l).Some?
    ensures s in out && GrantsTable(d, s) && s.privileges != [] && l == PrintGrant(s.privileges, s.table, s.role)
    ensures ParseGrantLine(l) == Some(ParsedGrant(s.table, s.role, Sqls(s.privileges)))
    ensures '/' !in s.table && '/' !in s.role
  {
    s := ParsedLineHasStatement(d, accepts, out, lines, l);
    assert IsPgStatement(d, s) && GrantsTable(d, s);
    TableGrantReadsBack(d, accepts, s);
  }

  lemma TableGrantHasLine(d: Declaration, accepts: string -> bool, out: seq<Statement>, lines: seq<string>,
        s: Statement)
    requires IsCompiledText(d, accepts, out, lines) && s in out && s.GrantTable?
    ensures s.privileges != [] && PrintGrant(s.privileges, s.table, s.role) in lines
    ensures ParseGrantLine(PrintGrant(s.privileges, s.table, s.role)) ==
        Some(ParsedGrant(s.table, s.role, Sqls(s.privileges)))
  {
    assert IsPgStatement(d, s) && GrantsTable(d, s);
    TableGrantReadsBack(d, accepts, s);
    var line := PrintGrant(s.privileges, s.table, s.role);
    assert line in StatementLines(s, LoginNames(d));
    assert IsLineOf(out, LoginNames(d), line);
  }

  /** The grant gives the database role the privilege on the PostgreSQL table. */
  predicate GrantGives(res: Resource, g: Grant, table: string, role: string, p: Privilege)
  {
    && !res.OnTrino() && res.resource == table && p in g.privileges
    && exists n :: 0 <= n < |g.roles| && ToPgRole(g.roles[n]) == role
  }

  ghost predicate Declares(d: Declaration, table: string, role: string, p: Privilege)
  {
    exists i, k :: 0 <= i < |d.resources| && 0 <= k < |d.resources[i].grants|
                   && GrantGives(d.resources[i], d.resources[i].grants[k], table, role, p)
  }

  ghost function DeclaredSqls(d: Declaration, table: string, role: string): set<string>
  {
    set p: Privilege | Declares(d, table, role, p) :: PrivilegeSql(p)
  }

  predicate Gives(s: Statement, table: string, role: string, p: Privilege)
  {
    s.GrantTable? && s.table == table && s.role == role && p in s.privileges
  }

  lemma DeclaresIffGiven(d: Declaration, out: seq<Statement>, table: string, role: string, p: Privilege)
    requires IsScript(d, out)
    ensures Declares(d, table, role, p) <==> exists s :: s in out && Gives(s, table, role, p)
  {
    if i, k :| 0 <= i < |d.resources| && 0 <= k < |d.resources[i].grants|
               && GrantGives(d.resources[i], d.resources[i].grants[k], table, role, p) {
      var g := d.resources[i].grants[k];
      var n :| 0 <= n < |g.roles| && ToPgRole(g.roles[n]) == role;
      var s := GrantTable(SortBy(g.privileges, PrivilegeLe), table, ToPgRole(g.roles[n]));
      SortMembers(g.privileges, PrivilegeLe);
      assert IsTableGrant(d.resources[i], d.resources[i].grants[k], s);
      assert GrantsTable(d, s) && Gives(s, table, role, p);
    }
    if s :| s in out && Gives(s, table, role, p) {
      assert GrantsTable(d, s);
      var i, k :| 0 <= i < |d.resources| && 0 <= k < |d.resources[i].grants|
                  && IsTableGrant(d.resources[i], d.resources[i].grants[k], s);
      SortMembers(d.resources[i].grants[k].privileges, PrivilegeLe);
      assert GrantGives(d.resources[i], d.resources[i].grants[k], table, role, p);
    }
  }

  /** The script grants what is declared, read back line by line. */
  lemma ScriptGrantsDeclared(d: Declaration, accepts: string -> bool, out: seq<Statement>, lines: seq<string>,
        table: string, role: string)
    requires IsCompiledText(d, accepts, out, lines)
    ensures IsNamed(ParseGrantLine, lines, table, role) <==> DeclaredSqls(d, table, role) != {}
    ensures GrantedTo(ParseGrantLine, lines, table, role) == DeclaredSqls(d, table, role)
  {
    forall i | 0 <= i < |lines| && Names(ParseGrantLine, lines[i], table, role)
      ensures ParseGrantLine(lines[i]).value.privileges <= DeclaredSqls(d, table, role)
      ensures DeclaredSqls(d, table, role) != {}
    {
      var s := ParsedLineIsTableGrant(d, accepts, out, lines, lines[i]);
      forall p | p in s.privileges ensures PrivilegeSql(p) in DeclaredSqls(d, table, role) {
        assert Gives(s, table, role, p);
        DeclaresIffGiven(d, out, table, role, p);
      }
      assert s.privileges[0] in s.privileges;
    }
    forall x | x in DeclaredSqls(d, table, role)
      ensures x in GrantedTo(ParseGrantLine, lines, table, role) && IsNamed(ParseGrantLine, lines, table, role)
    {
      SqlIsInScript(d, accepts, out, lines, table, role, x);
    }
  }

  lemma SqlIsInScript(d: Declaration, accepts: string -> bool, out: seq<Statement>, lines: seq<string>,
                      table: string, role: string, x: string)
    requires IsCompiledText(d, accepts, out, lines) && x in DeclaredSqls(d, table, role)
    ensures x in GrantedTo(ParseGrantLine, lines, table, role) && IsNamed(ParseGrantLine, lines, table, role)
  {
    var p: Privilege :| Declares(d, table, role, p) && x == PrivilegeSql(p);
    DeclaresIffGiven(d, out, table, role, p);
    var s :| s in out && Gives(s, table, role, p);
    TableGrantHasLine(d, accepts, out, lines, s);
    var line := PrintGrant(s.privileges, s.table, s.role);
    var i :| 0 <= i < |lines| && lines[i] == line;
    assert Names(ParseGrantLine, lines[i], table, role);
    assert x in Sqls(s.privileges);
  }

  lemma ScriptNamesHaveNoSlash(d: Declaration, accepts: string -> bool, out: seq<Statement>, lines: seq<string>)
    requires IsCompiledText(d, accepts, out, lines)
    ensures NamesWithoutSlash(ParseGrantLine, lines)
  {
    forall i | 0 <= i < |lines| && ParseGrantLine(lines[i]).Some?
      ensures '/' !in ParseGrantLine(lines[i]).value.table && '/' !in ParseGrantLine(lines[i]).value.role
    {
      var s := ParsedLineIsTableGrant(d, accepts, out, lines, lines[i]);
    }
  }

  /** The lines grant every role on every table exactly what is declared. */
  ghost predicate GrantAsDeclared(d: Declaration, lines: seq<string>)
  {
    forall table, role {:trigger IsNamed(ParseGrantLine, lines, table, role)} ::
      && (IsNamed(ParseGrantLine, lines, table, role) <==> DeclaredSqls(d, table, role) != {})
      && GrantedTo(ParseGrantLine, lines, table, role) == DeclaredSqls(d, table, role)
  }

  lemma ScriptGrantsAsDeclared(d: Declaration, accepts: string -> bool, out: seq<Statement>, lines: seq<string>)
    requires IsCompiledText(d, accepts, out, lines)
    ensures GrantAsDeclared(d, lines)
  {
    forall table, role
      ensures IsNamed(ParseGrantLine, lines, table, role) <==> DeclaredSqls(d, table, role) != {}
      ensures GrantedTo(ParseGrantLine, lines, table, role) == DeclaredSqls(d, table, role)
    {
      ScriptGrantsDeclared(d, accepts, out, lines, table, role);
    }
  }

  lemma SameGrantsIffAsDeclared(d: Declaration, lines: seq<string>, rows: seq<string>)
    requires GrantAsDeclared(d, lines)
    ensures SameGrants(ParseGrantLine, lines, rows) <==> GrantAsDeclared(d, rows)
  {
  }

  /** For a valid declaration and its script there is no item about grants exactly when the reported rows
      can all be read and grant what is declared, whatever these rows are. */
  lemma ScriptIsCleanIffRowsMatch(d: Declaration, accepts: string -> bool, out: seq<Statement>, lines: seq<string>,
                                  rows: seq<string>, format: Format)
    requires IsCompiledText(d, accepts, out, lines)
    ensures PgItems(ParseGrantLine, format, lines, rows) == multiset{} <==>
              Unparsed(ParseGrantLine, rows) == [] && GrantAsDeclared(d, rows)
  {
    ScriptNamesHaveNoSlash(d, accepts, out, lines);
    PgCleanIffSameGrants(ParseGrantLine, format, lines, rows);
    ScriptGrantsAsDeclared(d, accepts, out, lines);
    SameGrantsIffAsDeclared(d, lines, rows);
  }

  /** The rows of a server that was given the script: it folds unquoted table names to lower case. */
  ghost predicate ReportsFolded(d: Declaration, rows: seq<string>)
  {
    && Unparsed(ParseGrantLine, rows) == []
    && (forall table, role, x {:trigger x in GrantedTo(ParseGrantLine, rows, table, role)} ::
          x in GrantedTo(ParseGrantLine, rows, table, role) <==>
            exists t :: ToLower(t) == table && x in DeclaredSqls(d, t, role))
    && forall table, role {:trigger IsNamed(ParseGrantLine, rows, table, role)} ::
         IsNamed(ParseGrantLine, rows, table, role) <==> GrantedTo(ParseGrantLine, rows, table, role) != {}
  }

  /** Every table a declared grant is on is spelled in lower case. */
  ghost predicate GrantedTablesAreLower(d: Declaration)
  {
    forall table, role | DeclaredSqls(d, table, role) != {} :: ToLower(table) == table
  }

  lemma FoldedRowsMatch(d: Declaration, rows: seq<string>)
    requires ReportsFolded(d, rows) && GrantedTablesAreLower(d)
    ensures GrantAsDeclared(d, rows)
  {
    forall table, role ensures GrantedTo(ParseGrantLine, rows, table, role) == DeclaredSqls(d, table, role) {
      forall x ensures x in GrantedTo(ParseGrantLine, rows, table, role) <==> x in DeclaredSqls(d, table, role) {
        if x in DeclaredSqls(d, table, role) {
          assert ToLower(table) == table;
        }
      }
    }
  }

  lemma MatchedTableIsLower(d: Declaration, rows: seq<string>, table: string, role: string)
    requires ReportsFolded(d, rows) && GrantAsDeclared(d, rows) && DeclaredSqls(d, table, role) != {}
    ensures ToLower(table) == table
  {
    assert IsNamed(ParseGrantLine, rows, table, role);
    var x :| x in GrantedTo(ParseGrantLine, rows, table, role);
    var t :| ToLower(t) == table && x in DeclaredSqls(d, t, role);
    LowerTwice(t);
  }

  /** Against such a server the report is clean exactly if every granted table is declared in lower case. */
  lemma FoldedReportIsCleanIffLowerCase(d: Declaration, accepts: string -> bool, out: seq<Statement>,
        lines: seq<string>, rows: seq<string>, format: Format)
    requires IsCompiledText(d, accepts, out, lines) && ReportsFolded(d, rows)
    ensures PgItems(ParseGrantLine, format, lines, rows) == multiset{} <==> GrantedTablesAreLower(d)
  {
    ScriptIsCleanIffRowsMatch(d, accepts, out, lines, rows, format);
    if GrantedTablesAreLower(d) {
      FoldedRowsMatch(d, rows);
    }
    if GrantAsDeclared(d, rows) {
      forall table, role | DeclaredSqls(d, table, role) != {} ensures ToLower(table) == table {
        MatchedTableIsLower(d, rows, table, role);
      }
    }
  }

  /** Lines that do not read back do not matter on the declared side. */
  lemma UnreadLinesDoNotMatter(parse: Parser, format: Format, a: seq<string>, b: seq<string>, rows: seq<string>)
    requires forall l | parse(l).Some? :: l in a <==> l in b
    ensures PgItems(parse, format, a, rows) == PgItems(parse, format, b, rows)
  {
    forall k ensures Rows(parse, a, k) == Rows(parse, b, k) && (k in Keys(parse, a) <==> k in Keys(parse, b)) {
    }
    MergedFromRows(parse, b, Merged(parse, a));
  }

  lemma {:induction false} LinesMembers(grants: seq<Statement>, l: string)
    requires ArePrintable(grants)
    ensures l in Lines(grants) <==>
        exists s :: s in grants && s.GrantTable? && s.privileges != [] && l == PrintGrant(s.privileges, s.table, s.role)
  {
    if grants != [] {
      var front, last := grants[..|grants| - 1], grants[|grants| - 1];
      LinesMembers(front, l);
      assert grants == front + [last];
    }
  }

  lemma ScriptGrantsArePrintable(d: Declaration, accepts: string -> bool, out: seq<Statement>)
    requires IsValid(d, accepts) && GrantsGive(d) && IsScript(d, out)
    ensures ArePrintable(TableGrants(out))
  {
    var grants := TableGrants(out);
    forall i | 0 <= i < |grants| ensures IsPrintable(grants[i]) {
      assert grants[i] in grants && IsPgStatement(d, grants[i]) && GrantsTable(d, grants[i]);
      ValidGrantsArePrintable(d, accepts, grants[i]);
    }
  }

  /** A server on which the script was applied, and nothing else was granted, shows no drift: its grants,
      listed privilege by privilege, are those of the whole script. */
  lemma AppliedScriptIsClean(d: Declaration, accepts: string -> bool, out: seq<Statement>, lines: seq<string>,
        format: Format)
    requires IsCompiledText(d, accepts, out, lines)
    ensures ArePrintable(TableGrants(out))
    ensures PgItems(ParseGrantLine, format, lines, AllSingleRows(TableGrants(out))) == multiset{}
  {
    ScriptGrantsArePrintable(d, accepts, out);
    var grants := TableGrants(out);
    forall l | ParseGrantLine(l).Some? ensures l in lines <==> l in Lines(grants) {
      LinesMembers(grants, l);
      if l in lines {
        var s := ParsedLineIsTableGrant(d, accepts, out, lines, l);
        assert s in grants;
      } else if s :| s in grants && s.GrantTable? && s.privileges != []
                     && l == PrintGrant(s.privileges, s.table, s.role) {
        TableGrantHasLine(d, accepts, out, lines, s);
      }
    }
    UnreadLinesDoNotMatter(ParseGrantLine, format, lines, Lines(grants), AllSingleRows(grants));
    OwnGrantsAreClean(grants, format);
  }
}
