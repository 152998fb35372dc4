/** What the lines of the compiled PostgreSQL script say, line by line. */
module ScriptLines {
  import opened DeclarationDrift
  import opened GrantLines
  import opened PgCompiler
  import opened PgGuarantees
  import opened PolicySchema
  import opened PolicyValidation
  import opened RoleGraph
  import opened ScriptText
  import opened Strings

  // ---------------------------------------------------------------------------------------------
  // Accounts and roles
  // ---------------------------------------------------------------------------------------------

  /** The script makes exactly the declared logins accounts that can log in, and exactly the declared roles,
      renamed, roles that cannot. */
  lemma LoginLinesTell(d: Declaration, out: seq<Statement>, name: string)
    requires IsScript(d, out) && HavePrivileges(out)
    ensures IsLineOf(out, LoginNames(d), "    CREATE ROLE \"" + name + "\" WITH LOGIN INHERIT;") <==> IsLogin(d, name)
    ensures IsLineOf(out, LoginNames(d), "    CREATE ROLE " + name + " WITH NOLOGIN INHERIT;") <==>
      exists r :: r in RoleNames(d) && ToPgRole(r) == name
  {
    var logins := LoginNames(d);
    LineOfCreation(out, logins, name, true);
    LineOfCreation(out, logins, name, false);
    assert CreationLine(name, true) == "    CREATE ROLE \"" + name + "\" WITH LOGIN INHERIT;";
    assert CreationLine(name, false) == "    CREATE ROLE " + name + " WITH NOLOGIN INHERIT;";
    assert CreateRole(name, true) in out <==> CreatesLogin(d, CreateRole(name, true));
    assert CreateRole(name, false) in out <==> CreatesRole(d, CreateRole(name, false));
    if r :| r in RoleNames(d) && ToPgRole(r) == name {
      var i :| 0 <= i < |d.roles| && d.roles[i].name == r;
      assert CreatesRole(d, CreateRole(name, false));
    }
    if i :| 0 <= i < |d.roles| && CreateRole(name, false) == CreateRole(ToPgRole(d.roles[i].name), false) {
      assert d.roles[i].name in RoleNames(d);
    }
  }

  lemma CreationIsWritten(out: seq<Statement>, logins: set<string>, name: string, login: bool)
    requires HavePrivileges(out) && CreateRole(name, login) in out
    ensures IsLineOf(out, logins, CreationLine(name, login))
  {
    var line := CreationLine(name, login);
    assert CreateLines(name, login)[1] == line;
    assert line in StatementLines(CreateRole(name, login), logins);
  }

  lemma WrittenIsCreation(out: seq<Statement>, logins: set<string>, name: string, login: bool)
    requires HavePrivileges(out) && IsLineOf(out, logins, CreationLine(name, login))
    ensures CreateRole(name, login) in out
  {
    var line := CreationLine(name, login);
    var s :| s in out && line in StatementLines(s, logins);
    CreationIsIndented(name, login);
    CreationTells(s, logins, line);
    CreationLineTells(name, s.name, login);
    CreationLineTells(s.name, name, login);
  }

  lemma LineOfCreation(out: seq<Statement>, logins: set<string>, name: string, login: bool)
    requires HavePrivileges(out)
    ensures IsLineOf(out, logins, CreationLine(name, login)) <==> CreateRole(name, login) in out
  {
    if CreateRole(name, login) in out {
      CreationIsWritten(out, logins, name, login);
    } else if IsLineOf(out, logins, CreationLine(name, login)) {
      WrittenIsCreation(out, logins, name, login);
    }
  }

  // ---------------------------------------------------------------------------------------------
  // Memberships and privileges on schemas, sequences and databases
  // ---------------------------------------------------------------------------------------------

  predicate IsSentence(s: Statement)
  {
    s.GrantRole? || s.GrantUsage? || s.GrantSequences? || s.GrantConnect?
  }

  /** The words of the line that such a statement prints. */
  function WordsOf(s: Statement, logins: set<string>): (words: seq<string>)
    requires IsSentence(s)
    ensures words != [] && StatementLines(s, logins) == [Sentence(words)]
  {
    match s
    case GrantRole(role, member) => ["GRANT", role, "TO", if member in logins then Quoted(member) else member]
    case GrantUsage(schema, role) => ["GRANT", "USAGE", "ON", "SCHEMA", schema, "TO", role]
    case GrantSequences(schema, role) =>
      ["GRANT", "USAGE,", "SELECT", "ON", "ALL", "SEQUENCES", "IN", "SCHEMA", schema, "TO", role]
    case GrantConnect(database, role) => ["GRANT", "CONNECT", "ON", "DATABASE", database, "TO", role]
  }

  lemma EndedTells(x: seq<string>, y: seq<string>)
    requires x != [] && y != [] && Ended(x) == Ended(y)
    ensures x == y
  {
    var m, n := |x| - 1, |y| - 1;
    assert Ended(x)[m] == x[m] + ";" && Ended(y)[n] == y[n] + ";";
    assert x[m] == (x[m] + ";")[..|x[m]|] && y[n] == (y[n] + ";")[..|y[n]|];
    assert x[..m] == Ended(x)[..m] && y[..n] == Ended(y)[..n];
    assert x == x[..m] + [x[m]] && y == y[..n] + [y[n]];
  }

  lemma SentenceTells(x: seq<string>, y: seq<string>)
    requires x != [] && y != [] && AreWords(x) && AreWords(y) && Sentence(x) == Sentence(y)
    ensures x == y
  {
    WordsOfSentence(x);
    WordsOfSentence(y);
    EndedTells(x, y);
  }

  lemma FixedWords()
    ensures IsWord("GRANT") && IsWord("TO") && IsWord("USAGE") && IsWord("USAGE,") && IsWord("SELECT")
    ensures IsWord("ON") && IsWord("ALL") && IsWord("SEQUENCES") && IsWord("IN") && IsWord("SCHEMA")
    ensures IsWord("CONNECT") && IsWord("DATABASE")
  {
  }

  lemma MembershipIsWords(d: Declaration, accepts: string -> bool, s: Statement)
    requires IsValid(d, accepts) && IsPgStatement(d, s) && s.GrantRole?
    ensures AreWords(WordsOf(s, LoginNames(d)))
  {
    FixedWords();
    MembershipLines(d, accepts, s);
  }

  lemma PrivilegeIsWords(d: Declaration, accepts: string -> bool, s: Statement)
    requires IsValid(d, accepts) && IsPgStatement(d, s) && (s.GrantUsage? || s.GrantSequences?)
    ensures AreWords(WordsOf(s, LoginNames(d)))
  {
    FixedWords();
    SchemaLines(d, accepts, s);
  }

  lemma ScriptIsWords(d: Declaration, accepts: string -> bool, s: Statement)
    requires IsValid(d, accepts) && IsPgStatement(d, s) && IsSentence(s)
    ensures AreWords(WordsOf(s, LoginNames(d)))
  {
    match s
    case GrantRole(_, _) => MembershipIsWords(d, accepts, s);
    case GrantUsage(_, _) => PrivilegeIsWords(d, accepts, s);
    case GrantSequences(_, _) => PrivilegeIsWords(d, accepts, s);
    case GrantConnect(_, _) =>
      FixedWords();
      ConnectLines(d, accepts, s);
  }

  lemma CreationIsNoSentence(name: string, login: bool, line: string)
    requires line in CreateLines(name, login)
    ensures line != [] && line[0] == ' '
  {
    assert IF_NOT_EXISTS[0] == ' ' && CREATE_ROLE[0] == ' ';
  }

  /** Of the statements of a script only one of these words prints the line, if no table grant does. */
  lemma SentenceIsOf(d: Declaration, accepts: string -> bool, words: seq<string>, s: Statement)
    requires IsValid(d, accepts) && GrantsGive(d) && words != [] && words[0] == "GRANT" && AreWords(words)
    requires ParseGrantLine(Sentence(words)).None?
    requires IsPgStatement(d, s) && (s.GrantTable? ==> s.privileges != [])
    requires Sentence(words) in StatementLines(s, LoginNames(d))
    ensures IsSentence(s) && WordsOf(s, LoginNames(d)) == words
  {
    var line := Sentence(words);
    SentenceStarts(words);
    assert line[0] == 'G';
    if s.CreateRole? {
      CreationIsNoSentence(s.name, s.login, line);
    }
    if s.GrantTable? {
      ValidGrantsArePrintable(d, accepts, s);
      GrantReadsBack(s.privileges, s.table, s.role);
    }
    if IsSentence(s) {
      ScriptIsWords(d, accepts, s);
      SentenceTells(WordsOf(s, LoginNames(d)), words);
    }
  }

  /** The line is in the script exactly if a statement of these words is. */
  lemma SentenceIsWritten(d: Declaration, accepts: string -> bool, out: seq<Statement>, words: seq<string>)
    requires IsValid(d, accepts) && GrantsGive(d) && IsScript(d, out) && HavePrivileges(out)
    requires words != [] && words[0] == "GRANT" && AreWords(words) && ParseGrantLine(Sentence(words)).None?
    ensures IsLineOf(out, LoginNames(d), Sentence(words)) <==>
      exists s :: s in out && IsSentence(s) && WordsOf(s, LoginNames(d)) == words
  {
    var line := Sentence(words);
    if s :| s in out && line in StatementLines(s, LoginNames(d)) {
      SentenceIsOf(d, accepts, words, s);
    }
    if s :| s in out && IsSentence(s) && WordsOf(s, LoginNames(d)) == words {
      assert line in StatementLines(s, LoginNames(d));
    }
  }

  lemma JoinFirst(first: string, rest: seq<string>)
    requires rest != []
    ensures Join([first] + rest, ' ') == first + " " + Join(rest, ' ')
  {
    assert ([first] + rest)[1..] == rest;
  }

  lemma MembershipText(role: string, member: string)
    ensures Sentence(["GRANT", role, "TO", member]) == "GRANT " + role + " TO " + member + ";"
  {
    assert ["TO", member] == ["TO"] + [member];
    assert [role, "TO", member] == [role] + ["TO", member];
    assert ["GRANT", role, "TO", member] == ["GRANT"] + [role, "TO", member];
    JoinFirst("TO", [member]);
    JoinFirst(role, ["TO", member]);
    JoinFirst("GRANT", [role, "TO", member]);
  }

  lemma LoginText(role: string, login: string)
    ensures Sentence(["GRANT", role, "TO", Quoted(login)]) == "GRANT " + role + " TO \"" + login + "\";"
  {
    var front := "GRANT " + role;
    MembershipText(role, Quoted(login));
    assert front + " TO " + Quoted(login) + ";" == front + " TO \"" + login + "\";";
  }

  lemma GoingTo(target: string, role: string)
    ensures Join([target, "TO", role], ' ') == target + " TO " + role
  {
    assert ["TO", role] == ["TO"] + [role];
    assert [target, "TO", role] == [target] + ["TO", role];
    JoinFirst("TO", [role]);
    JoinFirst(target, ["TO", role]);
  }

  /** `GRANT <what> ON <kind> <target> TO <role>;` */
  lemma PrivilegeText(what: string, kind: string, target: string, role: string)
    ensures Sentence(["GRANT", what, "ON", kind, target, "TO", role]) ==
      "GRANT " + what + " ON " + kind + " " + target + " TO " + role + ";"
  {
    var to := [target, "TO", role];
    GoingTo(target, role);
    assert [kind, target, "TO", role] == [kind] + to;
    assert ["ON", kind, target, "TO", role] == ["ON"] + [kind, target, "TO", role];
    assert [what, "ON", kind, target, "TO", role] == [what] + ["ON", kind, target, "TO", role];
    assert ["GRANT", what, "ON", kind, target, "TO", role] == ["GRANT"] + [what, "ON", kind, target, "TO", role];
    JoinFirst(kind, to);
    JoinFirst("ON", [kind, target, "TO", role]);
    JoinFirst(what, ["ON", kind, target, "TO", role]);
    JoinFirst("GRANT", [what, "ON", kind, target, "TO", role]);
  }

  lemma UsageText(schema: string, role: string)
    ensures Sentence(["GRANT", "USAGE", "ON", "SCHEMA", schema, "TO", role]) ==
      "GRANT USAGE ON SCHEMA " + schema + " TO " + role + ";"
  {
    PrivilegeText("USAGE", "SCHEMA", schema, role);
    assert "GRANT " + "USAGE" + " ON " + "SCHEMA" + " " == "GRANT USAGE ON SCHEMA ";
  }

  lemma ConnectText(database: string, role: string)
    ensures Sentence(["GRANT", "CONNECT", "ON", "DATABASE", database, "TO", role]) ==
      "GRANT CONNECT ON DATABASE " + database + " TO " + role + ";"
  {
    PrivilegeText("CONNECT", "DATABASE", database, role);
    assert "GRANT " + "CONNECT" + " ON " + "DATABASE" + " " == "GRANT CONNECT ON DATABASE ";
  }

  lemma FourFirst(a: string, b: string, c: string, e: string, rest: seq<string>)
    requires rest != []
    ensures Join([a, b, c, e] + rest, ' ') == a + " " + b + " " + c + " " + e + " " + Join(rest, ' ')
  {
    assert [a, b, c, e] + rest == [a] + ([b] + ([c] + ([e] + rest)));
    JoinFirst(e, rest);
    JoinFirst(c, [e] + rest);
    JoinFirst(b, [c] + ([e] + rest));
    JoinFirst(a, [b] + ([c] + ([e] + rest)));
  }

  lemma SequencesTail(schema: string, role: string)
    ensures Join(["ALL", "SEQUENCES", "IN", "SCHEMA"] + [schema, "TO", role], ' ') ==
      "ALL SEQUENCES IN SCHEMA " + schema + " TO " + role
  {
    GoingTo(schema, role);
    FourFirst("ALL", "SEQUENCES", "IN", "SCHEMA", [schema, "TO", role]);
    assert "ALL" + " " + "SEQUENCES" + " " + "IN" + " " + "SCHEMA" + " " == "ALL SEQUENCES IN SCHEMA ";
  }

  lemma SequencesHead(rest: seq<string>)
    requires rest != []
    ensures Join(["GRANT", "USAGE,", "SELECT", "ON"] + rest, ' ') == "GRANT USAGE, SELECT ON " + Join(rest, ' ')
  {
    FourFirst("GRANT", "USAGE,", "SELECT", "ON", rest);
    assert "GRANT" + " " + "USAGE," + " " + "SELECT" + " " + "ON" + " " == "GRANT USAGE, SELECT ON ";
  }

  lemma SequencesSplit(schema: string, role: string)
    ensures ["GRANT", "USAGE,", "SELECT", "ON", "ALL", "SEQUENCES", "IN", "SCHEMA", schema, "TO", role] ==
      ["GRANT", "USAGE,", "SELECT", "ON"] + (["ALL", "SEQUENCES", "IN", "SCHEMA"] + [schema, "TO", role])
  {
  }

  /** `GRANT USAGE, SELECT ON ALL SEQUENCES IN SCHEMA <schema> TO <role>;` */
  lemma SequencesText(schema: string, role: string)
    ensures Sentence(["GRANT", "USAGE,", "SELECT", "ON", "ALL", "SEQUENCES", "IN", "SCHEMA", schema, "TO", role]) ==
      "GRANT USAGE, SELECT ON ALL SEQUENCES IN SCHEMA " + schema + " TO " + role + ";"
  {
    var all := ["ALL", "SEQUENCES", "IN", "SCHEMA"] + [schema, "TO", role];
    SequencesTail(schema, role);
    SequencesSplit(schema, role);
    SequencesHead(all);
    assert "GRANT USAGE, SELECT ON " + "ALL SEQUENCES IN SCHEMA " == "GRANT USAGE, SELECT ON ALL SEQUENCES IN SCHEMA ";
  }

  // ---------------------------------------------------------------------------------------------
  // What the lines say
  // ---------------------------------------------------------------------------------------------

  /** A declared role includes another one, under these names. */
  ghost predicate IncludesAs(d: Declaration, member: string, role: string)
  {
    exists i, k :: 0 <= i < |d.roles| && 0 <= k < |d.roles[i].includes|
                   && ToPgRole(d.roles[i].name) == member && ToPgRole(d.roles[i].includes[k]) == role
  }

  ghost predicate IsMemberAs(d: Declaration, login: string, role: string)
  {
    exists i, k :: 0 <= i < |d.logins| && 0 <= k < |d.logins[i].memberOf|
                   && d.logins[i].name == login && ToPgRole(d.logins[i].memberOf[k]) == role
  }

  /** A valid declaration and its compiled script. */
  ghost predicate IsCompiled(d: Declaration, accepts: string -> bool, out: seq<Statement>)
  {
    IsValid(d, accepts) && GrantsGive(d) && IsScript(d, out) && HavePrivileges(out)
  }

  lemma MembershipsDiffer(d: Declaration, role: string, member: string)
    requires NamesSound(d)
    ensures member in LoginNames(d) ==> !IncludesAs(d, member, role)
    ensures IncludesAs(d, member, role) <==> GrantsParent(d, GrantRole(role, member))
    ensures IsMemberAs(d, member, role) <==> BindsLogin(d, GrantRole(role, member))
    ensures IsMemberAs(d, member, role) ==> member in LoginNames(d)
  {
  }

  lemma MemberIsBare(d: Declaration, accepts: string -> bool, s: Statement)
    requires IsValid(d, accepts) && IsPgStatement(d, s) && s.GrantRole?
    ensures IsBareWord(s.member)
  {
    ReferencedNamesAreRoleNames(d, accepts);
    if GrantsParent(d, s) {
      var i, k :| 0 <= i < |d.roles| && 0 <= k < |d.roles[i].includes|
                  && s == GrantRole(ToPgRole(d.roles[i].includes[k]), ToPgRole(d.roles[i].name));
      assert IsIdentifier("a");
      ValidNamesAreBare("a", "a", d.roles[i].name);
    } else {
      LoginIsBare(d, accepts, s);
    }
  }

  lemma LoginIsBare(d: Declaration, accepts: string -> bool, s: Statement)
    requires IsValid(d, accepts) && BindsLogin(d, s)
    ensures IsBareWord(s.member)
  {
    ReferencedNamesAreRoleNames(d, accepts);
    var i, k :| 0 <= i < |d.logins| && 0 <= k < |d.logins[i].memberOf|
                && s == GrantRole(ToPgRole(d.logins[i].memberOf[k]), d.logins[i].name);
    var name := d.logins[i].name;
    forall j | 0 <= j < |name| ensures !IsSpace(name[j]) && name[j] != '"' {
      assert IsNameChar(name[j]) || name[j] == '-';
    }
  }

  lemma MembershipHasWords(s: Statement, logins: set<string>, role: string, member: string)
    requires IsSentence(s) && WordsOf(s, logins) == ["GRANT", role, "TO", member]
    ensures s.GrantRole? && s.role == role
    ensures member == if s.member in logins then Quoted(s.member) else s.member
  {
    var words := WordsOf(s, logins);
    assert |words| == 4 && words[1] == role && words[3] == member;
  }

  lemma QuotesTell(x: string, y: string)
    ensures Quoted(x) == Quoted(y) ==> x == y
    ensures IsBareWord(x) ==> x != Quoted(y)
  {
    assert Quoted(x)[1..|x| + 1] == x && Quoted(y)[1..|y| + 1] == y;
    assert Quoted(y)[0] == '"';
  }

  /** A membership is written with the name of a login in quotes and with that of a role as it is. */
  lemma MembershipTells(d: Declaration, accepts: string -> bool, out: seq<Statement>, role: string, member: string)
    requires IsCompiled(d, accepts, out) && IsBareWord(role) && IsBareWord(member)
    ensures IsLineOf(out, LoginNames(d), PrintMembership(role, member)) <==>
      member !in LoginNames(d) && GrantRole(role, member) in out
    ensures IsLineOf(out, LoginNames(d), PrintMembership(role, Quoted(member))) <==>
      member in LoginNames(d) && GrantRole(role, member) in out
  {
    MembershipIsWritten(d, accepts, out, role, member, member);
    MembershipIsWritten(d, accepts, out, role, member, Quoted(member));
    QuotesTell(member, member);
  }

  lemma MembershipIsWritten(d: Declaration, accepts: string -> bool, out: seq<Statement>, role: string, member: string,
                            shown: string)
    requires IsCompiled(d, accepts, out) && IsBareWord(role) && IsBareWord(member)
    requires shown == member || shown == Quoted(member)
    ensures IsLineOf(out, LoginNames(d), PrintMembership(role, shown)) <==>
      GrantRole(role, member) in out && shown == if member in LoginNames(d) then Quoted(member) else member
  {
    var logins, t, words := LoginNames(d), GrantRole(role, member), ["GRANT", role, "TO", shown];
    FixedWords();
    assert IsWord(shown);
    MembershipIsNoTableGrant(role, shown);
    SentenceIsWritten(d, accepts, out, words);
    if s :| s in out && IsSentence(s) && WordsOf(s, logins) == words {
      MembershipHasWords(s, logins, role, shown);
      MemberIsBare(d, accepts, s);
      QuotesTell(s.member, member);
      QuotesTell(member, s.member);
    }
    if t in out && shown == if member in logins then Quoted(member) else member {
      assert WordsOf(t, logins) == words;
    }
  }

  /** The script makes a role a member of another exactly for the inclusions that are declared. */
  lemma RoleMembershipTells(d: Declaration, accepts: string -> bool, out: seq<Statement>, role: string, member: string)
    requires IsCompiled(d, accepts, out) && IsBareWord(role) && IsBareWord(member)
    ensures IsLineOf(out, LoginNames(d), "GRANT " + role + " TO " + member + ";") <==> IncludesAs(d, member, role)
  {
    ValidNamesAreSound(d, accepts);
    MembershipsDiffer(d, role, member);
    MembershipText(role, member);
    MembershipTells(d, accepts, out, role, member);
    assert GrantRole(role, member) in out <==> IsPgStatement(d, GrantRole(role, member));
  }

  /** It makes a login a member of a role, its name in quotes, exactly for the roles that its entries list. */
  lemma LoginMembershipTells(d: Declaration, accepts: string -> bool, out: seq<Statement>, role: string, login: string)
    requires IsCompiled(d, accepts, out) && IsBareWord(role) && IsBareWord(login)
    ensures IsLineOf(out, LoginNames(d), "GRANT " + role + " TO \"" + login + "\";") <==> IsMemberAs(d, login, role)
  {
    ValidNamesAreSound(d, accepts);
    MembershipsDiffer(d, role, login);
    LoginText(role, login);
    MembershipTells(d, accepts, out, role, login);
    assert GrantRole(role, login) in out <==> IsPgStatement(d, GrantRole(role, login));
  }

  /** A PostgreSQL table of the schema has a grant to the role; on `insert`, one that lets it insert. */
  ghost predicate HasTableIn(d: Declaration, schema: string, role: string, insert: bool)
  {
    exists i, k, n :: 0 <= i < |d.resources| && 0 <= k < |d.resources[i].grants|
      && 0 <= n < |d.resources[i].grants[k].roles| && !d.resources[i].OnTrino()
      && SchemaOf(d.resources[i].resource) == schema && ToPgRole(d.resources[i].grants[k].roles[n]) == role
      && (insert ==> Insert in d.resources[i].grants[k].privileges)
  }

  lemma SchemaUseTells(d: Declaration, schema: string, role: string, insert: bool)
    ensures HasTableIn(d, schema, role, insert) <==> exists r ::
      r in AllGrantRoles(d) && UsesSchema(d.resources, insert, schema, r) && role == ToPgRole(r)
  {
    if r :| r in AllGrantRoles(d) && UsesSchema(d.resources, insert, schema, r) && role == ToPgRole(r) {
      var i :| 0 <= i < |d.resources| && ResourceUses(d.resources[i], insert, schema, r);
      var k :|
        0 <= k < |d.resources[i].grants| && UsesTable(d.resources[i], d.resources[i].grants[k], insert, schema, r);
      var n :| 0 <= n < |d.resources[i].grants[k].roles| && d.resources[i].grants[k].roles[n] == r;
    }
    if i, k, n :|
        0 <= i < |d.resources| && 0 <= k < |d.resources[i].grants|
        && 0 <= n < |d.resources[i].grants[k].roles| && !d.resources[i].OnTrino()
        && SchemaOf(d.resources[i].resource) == schema && ToPgRole(d.resources[i].grants[k].roles[n]) == role
        && (insert ==> Insert in d.resources[i].grants[k].privileges) {
      var r := d.resources[i].grants[k].roles[n];
      assert UsesTable(d.resources[i], d.resources[i].grants[k], insert, schema, r);
      assert ResourceUses(d.resources[i], insert, schema, r);
      assert r in AllGrantRoles(d);
    }
  }

  /** It gives USAGE on a schema exactly to the roles that have a grant on a table of the schema. */
  lemma UsageLineTells(d: Declaration, accepts: string -> bool, out: seq<Statement>, schema: string, role: string)
    requires IsCompiled(d, accepts, out) && IsWord(schema) && IsWord(role)
    ensures IsLineOf(out, LoginNames(d), "GRANT USAGE ON SCHEMA " + schema + " TO " + role + ";") <==>
      HasTableIn(d, schema, role, false)
  {
    var words := ["GRANT", "USAGE", "ON", "SCHEMA", schema, "TO", role];
    var logins, t := LoginNames(d), GrantUsage(schema, role);
    UsageText(schema, role);
    FixedWords();
    UsageIsNoTableGrant(schema, role);
    SentenceIsWritten(d, accepts, out, words);
    SchemaUseTells(d, schema, role, false);
    assert t in out <==> GrantsUsage(d, t);
    if s :| s in out && IsSentence(s) && WordsOf(s, logins) == words {
      UsageHasWords(s, logins, schema, role);
    }
    assert WordsOf(t, logins) == words;
  }

  lemma UsageHasWords(s: Statement, logins: set<string>, schema: string, role: string)
    requires IsSentence(s) && WordsOf(s, logins) == ["GRANT", "USAGE", "ON", "SCHEMA", schema, "TO", role]
    ensures s == GrantUsage(schema, role)
  {
    var words := WordsOf(s, logins);
    assert |words| == 7 && words[1] == "USAGE" && words[4] == schema && words[6] == role;
    assert "USAGE" != "CONNECT";
  }

  /** It gives the sequences of a schema exactly to the roles that may insert into a table of the schema. */
  lemma SequencesLineTells(d: Declaration, accepts: string -> bool, out: seq<Statement>, schema: string, role: string)
    requires IsCompiled(d, accepts, out) && IsWord(schema) && IsWord(role)
    ensures IsLineOf(out, LoginNames(d),
                     "GRANT USAGE, SELECT ON ALL SEQUENCES IN SCHEMA " + schema + " TO " + role + ";") <==>
      HasTableIn(d, schema, role, true)
  {
    var words := ["GRANT", "USAGE,", "SELECT", "ON", "ALL", "SEQUENCES", "IN", "SCHEMA", schema, "TO", role];
    var logins, t := LoginNames(d), GrantSequences(schema, role);
    SequencesText(schema, role);
    SequenceWords(schema, role);
    SequencesAreNoTableGrant(schema, role);
    SentenceIsWritten(d, accepts, out, words);
    SchemaUseTells(d, schema, role, true);
    assert t in out <==> GrantsSequences(d, t);
    if s :| s in out && IsSentence(s) && WordsOf(s, logins) == words {
      SequencesHaveWords(s, logins, schema, role);
    }
    assert WordsOf(t, logins) == words;
  }

  lemma SequencesHaveWords(s: Statement, logins: set<string>, schema: string, role: string)
    requires IsSentence(s)
    requires WordsOf(s, logins) ==
        ["GRANT", "USAGE,", "SELECT", "ON", "ALL", "SEQUENCES", "IN", "SCHEMA", schema, "TO", role]
    ensures s == GrantSequences(schema, role)
  {
    var words := WordsOf(s, logins);
    assert |words| == 11 && words[8] == schema && words[10] == role;
  }

  /** Some login of the database is or inherits a role of this name that has a grant on some table. */
  ghost predicate NeedsConnect(d: Declaration, database: string, role: string)
  {
    exists r :: HasTableGrant(d.resources, r) && DatabaseReaches(d, d.logins, database, r) && ToPgRole(r) == role
  }

  /** It gives CONNECT on a database exactly to the roles with a table grant that its logins are or inherit. */
  lemma ConnectLineTells(d: Declaration, accepts: string -> bool, out: seq<Statement>, database: string, role: string)
    requires IsCompiled(d, accepts, out) && IsWord(database) && IsWord(role)
    ensures IsLineOf(out, LoginNames(d), "GRANT CONNECT ON DATABASE " + database + " TO " + role + ";") <==>
      NeedsConnect(d, database, role)
  {
    var words := ["GRANT", "CONNECT", "ON", "DATABASE", database, "TO", role];
    var logins, t := LoginNames(d), GrantConnect(database, role);
    ConnectText(database, role);
    FixedWords();
    ConnectIsNoTableGrant(database, role);
    SentenceIsWritten(d, accepts, out, words);
    assert t in out <==> GrantsConnect(d, t);
    if s :| s in out && IsSentence(s) && WordsOf(s, logins) == words {
      ConnectHasWords(s, logins, database, role);
    }
    assert WordsOf(t, logins) == words;
  }

  lemma ConnectHasWords(s: Statement, logins: set<string>, database: string, role: string)
    requires IsSentence(s) && WordsOf(s, logins) == ["GRANT", "CONNECT", "ON", "DATABASE", database, "TO", role]
    ensures s == GrantConnect(database, role)
  {
    var words := WordsOf(s, logins);
    assert |words| == 7 && words[1] == "CONNECT" && words[4] == database && words[6] == role;
    assert "USAGE" != "CONNECT";
  }
}
