/** The lines of the compiled PostgreSQL script, and which of them read back as table grants. */
module ScriptText {
  import opened GrantLines
  import opened PgCompiler
  import opened Strings

  // ---------------------------------------------------------------------------------------------
  // Words of a text
  // ---------------------------------------------------------------------------------------------

  lemma {:induction false} LongestWord(s: string)
    requires forall i | 0 <= i < |s| :: !IsSpace(s[i])
    ensures WordLength(s) == |s|
  {
    if s != [] {
      LongestWord(s[1..]);
    }
  }

  /** The first word of a text that goes on behind it is the first word of the whole. */
  lemma {:induction false} WordLengthOfJoined(a: string, b: string)
    requires WordLength(a) < |a| || b == [] || IsSpace(b[0])
    ensures WordLength(a + b) == WordLength(a)
  {
    if a != [] && !IsSpace(a[0]) {
      assert (a + b)[1..] == a[1..] + b;
      WordLengthOfJoined(a[1..], b);
    } else if a == [] {
      assert a + b == b;
    }
  }

  /** A text cut at a blank has the words of both parts. */
  lemma {:induction false} WordsJoin(a: string, b: string)
    requires a == [] || b == [] || IsSpace(a[|a| - 1]) || IsSpace(b[0])
    ensures Words(a + b) == Words(a) + Words(b)
    decreases |a|
  {
    if a == [] {
      assert a + b == b;
    } else if IsSpace(a[0]) {
      assert (a + b)[1..] == a[1..] + b;
      WordsJoin(a[1..], b);
    } else {
      var n := WordLength(a);
      WordLengthOfJoined(a, b);
      assert (a + b)[..n] == a[..n] && (a + b)[n..] == a[n..] + b;
      WordsJoin(a[n..], b);
    }
  }

  lemma OneWord(w: string)
    requires IsWord(w)
    ensures Words(w) == [w]
  {
    LongestWord(w);
    assert w[..|w|] == w && w[|w|..] == [];
  }

  // ---------------------------------------------------------------------------------------------
  // What a line must look like to be read as a table grant
  // ---------------------------------------------------------------------------------------------

  /** Somewhere the keyword `ON` is followed by the words of a target, up to the end. */
  predicate EndsInTarget(words: seq<string>)
  {
    exists n :: 0 <= n < |words| && IsKeyword(words[n], "ON") && ParseTarget(words[n + 1..]).Some?
  }

  lemma WordsAroundOn(front: string, on: string, back: string)
    requires front != [] && IsSpace(front[|front| - 1]) && IsWord(on) && back != [] && IsSpace(back[0])
    ensures Words(front + (on + back)) == Words(front) + ([on] + Words(back))
  {
    WordsJoin(front, on + back);
    WordsJoin(on, back);
    OneWord(on);
  }

  lemma OnIsWord(s: string, p: nat)
    requires IsOn(s, p) && ParseTarget(Words(s[p + 2..])).Some?
    ensures EndsInTarget(Words(s))
  {
    var front, on, back := s[..p], s[p..p + 2], s[p + 2..];
    assert s == front + (on + back);
    assert ToUpper(on)[0] == 'O' && ToUpper(on)[1] == 'N';
    WordsAroundOn(front, on, back);
    var n := |Words(front)|;
    assert Words(s)[n] == on && Words(s)[n + 1..] == Words(back);
  }

  lemma {:induction false} FoundIsOn(s: string, start: nat, p: nat)
    requires start <= p && FindTarget(s, start, p).Some?
    ensures EndsInTarget(Words(s))
    decreases |s| - p
  {
    if IsOn(s, p) && ParseTarget(Words(s[p + 2..])).Some? && OnOneLine(TrimEnd(s[start..p])) {
      OnIsWord(s, p);
    } else {
      FoundIsOn(s, start, p + 1);
    }
  }

  lemma ParsedEndsInTarget(line: string)
    requires ParseGrantLine(line).Some?
    ensures StartsGrant(Trim(line)) && EndsInTarget(Words(Trim(line)))
  {
    var s := Trim(line);
    var q := SkipSpaces(s, 5);
    if FindTarget(s, q, q + 1).Some? {
      FoundIsOn(s, q, q + 1);
    } else {
      OnIsWord(s, q);
    }
  }

  lemma TargetLengths(tail: seq<string>)
    requires ParseTarget(tail).Some?
    ensures |tail| == 3 || |tail| == 6 || ((|tail| == 4 || |tail| == 7) && IsKeyword(tail[0], "TABLE"))
  {
  }

  /** Where the keywords stand in words that end in a target. */
  lemma TargetPositions(words: seq<string>)
    requires EndsInTarget(words)
    ensures var n := |words|;
            || (4 <= n && IsKeyword(words[n - 4], "ON"))
            || (5 <= n && IsKeyword(words[n - 5], "ON") && IsKeyword(words[n - 4], "TABLE"))
            || (7 <= n && IsKeyword(words[n - 7], "ON"))
            || (8 <= n && IsKeyword(words[n - 8], "ON") && IsKeyword(words[n - 7], "TABLE"))
  {
    var k :| 0 <= k < |words| && IsKeyword(words[k], "ON") && ParseTarget(words[k + 1..]).Some?;
    var tail := words[k + 1..];
    TargetLengths(tail);
    assert |tail| == |words| - k - 1 && tail[0] == words[k + 1];
  }

  /** A line whose first letter is not that of `GRANT` is none. */
  lemma OtherStart(line: string)
    requires TrimStart(line) != [] ==> Upper(TrimStart(line)[0]) != 'G'
    ensures ParseGrantLine(line).None?
  {
    var s := Trim(line);
    TrimEndIsPrefix(TrimStart(line));
    assert 5 <= |s| ==> ToUpper(s[..5])[0] == Upper(s[0]) != 'G';
  }

  // ---------------------------------------------------------------------------------------------
  // Lines of the other statements
  // ---------------------------------------------------------------------------------------------

  /** The words with a blank between any two, and a semicolon at the end. */
  function Sentence(words: seq<string>): string
  {
    Join(words, ' ') + ";"
  }

  function PrintMembership(role: string, member: string): string
  {
    Sentence(["GRANT", role, "TO", member])
  }

  function PrintUsage(schema: string, role: string): string
  {
    Sentence(["GRANT", "USAGE", "ON", "SCHEMA", schema, "TO", role])
  }

  function PrintSequences(schema: string, role: string): string
  {
    Sentence(["GRANT", "USAGE,", "SELECT", "ON", "ALL", "SEQUENCES", "IN", "SCHEMA", schema, "TO", role])
  }

  function PrintConnect(database: string, role: string): string
  {
    Sentence(["GRANT", "CONNECT", "ON", "DATABASE", database, "TO", role])
  }

  ghost predicate AreWords(words: seq<string>)
  {
    forall i | 0 <= i < |words| :: IsWord(words[i])
  }

  /** The words with the semicolon at the last one. */
  function Ended(words: seq<string>): seq<string>
    requires words != []
  {
    words[..|words| - 1] + [words[|words| - 1] + ";"]
  }

  lemma {:induction false} SentenceIsSpaced(words: seq<string>)
    requires words != [] && AreWords(words)
    ensures " " + Sentence(words) == Spaced(Ended(words))
  {
    var ended := Ended(words);
    if |words| == 1 {
      assert ended == [words[0] + ";"] && ended[1..] == [];
    } else {
      SentenceIsSpaced(words[1..]);
      assert ended[0] == words[0] && ended[1..] == Ended(words[1..]);
      assert " " + Sentence(words) == " " + words[0] + (" " + Sentence(words[1..]));
    }
  }

  lemma {:induction false} SentenceStarts(words: seq<string>)
    requires words != [] && AreWords(words)
    ensures Sentence(words)[0] == words[0][0] && Sentence(words)[|Sentence(words)| - 1] == ';'
  {
  }

  lemma WordsOfSentence(words: seq<string>)
    requires words != [] && AreWords(words)
    ensures Words(Trim(Sentence(words))) == Ended(words)
  {
    var line := Sentence(words);
    SentenceIsSpaced(words);
    SentenceStarts(words);
    WordsOfSpaced(Ended(words));
    assert (" " + line)[1..] == line;
    assert TrimStart(line) == line && TrimEnd(line) == line;
  }

  /** A sentence of words without a target at its end is no table grant. */
  lemma SentenceIsNoTableGrant(words: seq<string>)
    requires words != [] && AreWords(words)
    requires var n := |words|;
             && (4 <= n ==> !IsKeyword(words[n - 4], "ON"))
             && (5 <= n ==> !(IsKeyword(words[n - 5], "ON") && IsKeyword(words[n - 4], "TABLE")))
             && (7 <= n ==> !IsKeyword(words[n - 7], "ON"))
             && (8 <= n ==> !(IsKeyword(words[n - 8], "ON") && IsKeyword(words[n - 7], "TABLE")))
    ensures ParseGrantLine(Sentence(words)).None?
  {
    WordsOfSentence(words);
    if ParseGrantLine(Sentence(words)).Some? {
      ParsedEndsInTarget(Sentence(words));
      TargetPositions(Ended(words));
      assert false;
    }
  }

  lemma OtherFirstLetter(word: string, keyword: string)
    requires word != [] && keyword != [] && Upper(word[0]) != keyword[0]
    ensures !IsKeyword(word, keyword)
  {
    assert ToUpper(word)[0] == Upper(word[0]);
  }

  lemma MembershipIsNoTableGrant(role: string, member: string)
    requires IsWord(role) && IsWord(member)
    ensures ParseGrantLine(PrintMembership(role, member)).None?
  {
    assert IsWord("GRANT") && IsWord("TO");
    OtherFirstLetter("GRANT", "ON");
    SentenceIsNoTableGrant(["GRANT", role, "TO", member]);
  }

  lemma UsageIsNoTableGrant(schema: string, role: string)
    requires IsWord(schema) && IsWord(role)
    ensures ParseGrantLine(PrintUsage(schema, role)).None?
  {
    assert IsWord("GRANT") && IsWord("USAGE") && IsWord("ON") && IsWord("SCHEMA") && IsWord("TO");
    OtherFirstLetter("GRANT", "ON");
    OtherFirstLetter("SCHEMA", "ON");
    OtherFirstLetter("SCHEMA", "TABLE");
    SentenceIsNoTableGrant(["GRANT", "USAGE", "ON", "SCHEMA", schema, "TO", role]);
  }

  lemma ConnectIsNoTableGrant(database: string, role: string)
    requires IsWord(database) && IsWord(role)
    ensures ParseGrantLine(PrintConnect(database, role)).None?
  {
    assert IsWord("GRANT") && IsWord("CONNECT") && IsWord("ON") && IsWord("DATABASE") && IsWord("TO");
    OtherFirstLetter("GRANT", "ON");
    OtherFirstLetter("DATABASE", "ON");
    OtherFirstLetter("DATABASE", "TABLE");
    SentenceIsNoTableGrant(["GRANT", "CONNECT", "ON", "DATABASE", database, "TO", role]);
  }

  lemma SequenceWords(schema: string, role: string)
    requires IsWord(schema) && IsWord(role)
    ensures AreWords(["GRANT", "USAGE,", "SELECT", "ON", "ALL", "SEQUENCES", "IN", "SCHEMA", schema, "TO", role])
  {
    assert IsWord("GRANT") && IsWord("USAGE,") && IsWord("SELECT") && IsWord("ON") && IsWord("ALL");
    assert IsWord("SEQUENCES") && IsWord("IN") && IsWord("SCHEMA") && IsWord("TO");
  }

  lemma SequencesAreNoTableGrant(schema: string, role: string)
    requires IsWord(schema) && IsWord(role)
    ensures ParseGrantLine(PrintSequences(schema, role)).None?
  {
    SequenceWords(schema, role);
    OtherFirstLetter("SCHEMA", "ON");
    OtherFirstLetter("IN", "ON");
    OtherFirstLetter("ALL", "ON");
    OtherFirstLetter("ALL", "TABLE");
    SentenceIsNoTableGrant(["GRANT", "USAGE,", "SELECT", "ON", "ALL", "SEQUENCES", "IN", "SCHEMA", schema, "TO", role]);
  }

  // ---------------------------------------------------------------------------------------------
  // The script
  // ---------------------------------------------------------------------------------------------

  /** Login names are printed in quotes. */
  function Quoted(name: string): string
  {
    "\"" + name + "\""
  }

  const IF_NOT_EXISTS: string := "  IF NOT EXISTS " + "(SELECT FROM pg_roles WHERE rolname = '"
  const CREATE_ROLE: string := "    CREATE ROLE "

  /** The line that makes an account one that can log in, or a role one that cannot. */
  function CreationLine(name: string, login: bool): string
  {
    CREATE_ROLE + if login then Quoted(name) + " WITH LOGIN INHERIT;" else name + " WITH NOLOGIN INHERIT;"
  }

  /** The lines that create a role unless it exists. */
  function CreateLines(name: string, login: bool): seq<string>
  {
    [IF_NOT_EXISTS + (name + "') THEN"),
     CreationLine(name, login),
     "  END IF;"]
  }

  /** The lines of a statement; a member is printed in quotes if it is a login. */
  function StatementLines(s: Statement, logins: set<string>): seq<string>
    requires s.GrantTable? ==> s.privileges != []
  {
    match s
    case CreateRole(name, login) => CreateLines(name, login)
    case GrantRole(role, member) => [PrintMembership(role, if member in logins then Quoted(member) else member)]
    case GrantUsage(schema, role) => [PrintUsage(schema, role)]
    case GrantTable(privileges, table, role) => [PrintGrant(privileges, table, role)]
    case GrantSequences(schema, role) => [PrintSequences(schema, role)]
    case GrantConnect(database, role) => [PrintConnect(database, role)]
  }

  lemma FrontTells(front: string, a: string, b: string)
    ensures front + a == front + b ==> a == b
  {
    assert a == (front + a)[|front|..] && b == (front + b)[|front|..];
  }

  lemma BackTells(a: string, b: string, back: string)
    ensures a + back == b + back ==> a == b
  {
    assert a == (a + back)[..|a + back| - |back|] && b == (b + back)[..|b + back| - |back|];
  }

  lemma CreationLineTells(a: string, b: string, login: bool)
    ensures CreationLine(a, login) == CreationLine(b, login) ==> a == b
    ensures CreationLine(a, true) != CreationLine(b, false)
  {
    var x, y := CreationLine(a, true), CreationLine(b, false);
    assert x[|x| - 15] == ' ' && y[|y| - 15] == 'O';
    FrontTells(CREATE_ROLE, Quoted(a) + " WITH LOGIN INHERIT;", Quoted(b) + " WITH LOGIN INHERIT;");
    FrontTells(CREATE_ROLE, a + " WITH NOLOGIN INHERIT;", b + " WITH NOLOGIN INHERIT;");
    BackTells(Quoted(a), Quoted(b), " WITH LOGIN INHERIT;");
    BackTells(a, b, " WITH NOLOGIN INHERIT;");
    BackTells("\"" + a, "\"" + b, "\"");
    FrontTells("\"", a, b);
  }

  /** No other line of a script is that far indented. */
  predicate IsIndented(line: string)
  {
    4 <= |line| && line[0] == ' ' && line[2] == ' '
  }

  lemma CreationIsIndented(name: string, login: bool)
    ensures IsIndented(CreationLine(name, login))
  {
    assert CREATE_ROLE[0] == ' ' && CREATE_ROLE[2] == ' ';
  }

  lemma OthersStartWithG(s: Statement, logins: set<string>, line: string)
    requires s.GrantTable? ==> s.privileges != []
    requires line in StatementLines(s, logins)
    ensures s.CreateRole? || (line != [] && line[0] == 'G')
  {
  }

  lemma OnlyCreationIsIndented(name: string, login: bool, line: string)
    requires line in CreateLines(name, login) && IsIndented(line)
    ensures line == CreationLine(name, login)
  {
    assert (IF_NOT_EXISTS + (name + "') THEN"))[2] == IF_NOT_EXISTS[2] == 'I';
    assert "  END IF;"[2] == 'E';
  }

  /** So it is the creation of a role that prints such a line, and it says what the statement says. */
  lemma CreationTells(s: Statement, logins: set<string>, line: string)
    requires s.GrantTable? ==> s.privileges != []
    requires line in StatementLines(s, logins) && IsIndented(line)
    ensures s.CreateRole? && line == CreationLine(s.name, s.login)
  {
    OthersStartWithG(s, logins, line);
    OnlyCreationIsIndented(s.name, s.login, line);
  }

  /** Empty lines, comments, and the lines around blocks. */
  predicate IsFrame(line: string)
  {
    line == "" || line[0] == '-' || line in {"DO $$", "BEGIN", "END $$;"}
  }

  lemma FrameIsNoTableGrant(line: string)
    requires IsFrame(line)
    ensures ParseGrantLine(line).None?
  {
    OtherStart(line);
  }

  lemma {:induction false} TrimStartJoins(front: string, back: string)
    requires TrimStart(front) != []
    ensures TrimStart(front + back) == TrimStart(front) + back
  {
    if IsSpace(front[0]) {
      assert (front + back)[1..] == front[1..] + back;
      TrimStartJoins(front[1..], back);
    }
  }

  lemma OtherFront(line: string, front: string)
    requires front <= line && TrimStart(front) != [] && Upper(TrimStart(front)[0]) != 'G'
    ensures ParseGrantLine(line).None?
  {
    assert line == front + line[|front|..];
    TrimStartJoins(front, line[|front|..]);
    OtherStart(line);
  }

  lemma CreateLinesAreNoTableGrants(name: string, login: bool, line: string)
    requires line in CreateLines(name, login)
    ensures ParseGrantLine(line).None?
  {
    assert "  I"[1..] == " I" && " I"[1..] == "I" && "  E"[1..] == " E" && " E"[1..] == "E";
    assert "    C"[1..] == "   C" && "   C"[1..] == "  C" && "  C"[1..] == " C" && " C"[1..] == "C";
    assert TrimStart("  I") == "I" && TrimStart("  E") == "E" && TrimStart("    C") == TrimStart("  C") == "C";
    var i :| 0 <= i < 3 && line == CreateLines(name, login)[i];
    if i == 0 {
      assert "  I" <= "  IF NOT EXISTS " <= IF_NOT_EXISTS;
      OtherFront(line, "  I");
    } else if i == 1 {
      assert "    C" <= CREATE_ROLE;
      OtherFront(line, "    C");
    } else {
      OtherFront(line, "  E");
    }
  }
}
