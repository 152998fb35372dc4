/** The ways to write a table GRANT that read the same: letter case, optional words, quotes. */
module GrantStyles {
  import opened GrantLines
  import opened PolicySchema
  import opened Strings
  import opened Wrappers

  // ---------------------------------------------------------------------------------------------
  // Letter case
  // ---------------------------------------------------------------------------------------------

  function AllUpper(words: seq<string>): seq<string>
  {
    seq(|words|, i requires 0 <= i < |words| => ToUpper(words[i]))
  }

  function UpperTarget(t: Target): Target
  {
    Target(ToUpper(t.table), ToUpper(t.role), t.grantOption)
  }

  function UpperParsed(target: Option<Target>): Option<Target>
  {
    match target case None => None case Some(t) => Some(UpperTarget(t))
  }

  function UpperFound(found: Option<(string, Target)>): Option<(string, Target)>
  {
    match found case None => None case Some((text, t)) => Some((ToUpper(text), UpperTarget(t)))
  }

  lemma UpperTwice(s: string)
    ensures ToUpper(ToUpper(s)) == ToUpper(s)
  {
  }

  lemma UpperSlice(s: string, i: nat, j: nat)
    requires i <= j <= |s|
    ensures ToUpper(s)[i..j] == ToUpper(s[i..j])
  {
  }

  lemma {:induction false} UpperTrimStart(s: string)
    ensures TrimStart(ToUpper(s)) == ToUpper(TrimStart(s))
  {
    if s != [] && IsSpace(s[0]) {
      UpperSlice(s, 1, |s|);
      UpperTrimStart(s[1..]);
      assert ToUpper(s)[1..] == ToUpper(s)[1..|s|] && s[1..] == s[1..|s|];
    }
  }

  lemma {:induction false} UpperTrimEnd(s: string)
    ensures TrimEnd(ToUpper(s)) == ToUpper(TrimEnd(s))
  {
    if s != [] && IsSpace(s[|s| - 1]) {
      UpperSlice(s, 0, |s| - 1);
      UpperTrimEnd(s[..|s| - 1]);
      assert ToUpper(s)[..|s| - 1] == ToUpper(s)[0..|s| - 1] && s[..|s| - 1] == s[0..|s| - 1];
    }
  }

  lemma UpperTrim(s: string)
    ensures Trim(ToUpper(s)) == ToUpper(Trim(s))
  {
    UpperTrimStart(s);
    UpperTrimEnd(TrimStart(s));
  }

  lemma UpperRest(s: string, i: nat)
    requires i <= |s|
    ensures ToUpper(s)[i..] == ToUpper(s[i..]) && ToUpper(s)[..i] == ToUpper(s[..i])
  {
  }

  lemma {:induction false} UpperWordLength(s: string)
    ensures WordLength(ToUpper(s)) == WordLength(s)
  {
    if s != [] && !IsSpace(s[0]) {
      UpperRest(s, 1);
      UpperWordLength(s[1..]);
    }
  }

  lemma {:induction false} UpperWords(s: string)
    ensures Words(ToUpper(s)) == AllUpper(Words(s))
    decreases |s|
  {
    if s == [] {
    } else if IsSpace(s[0]) {
      UpperRest(s, 1);
      UpperWords(s[1..]);
    } else {
      var n := WordLength(s);
      UpperWordLength(s);
      UpperRest(s, n);
      UpperWords(s[n..]);
    }
  }

  lemma UpperKeyword(word: string, keyword: string)
    ensures IsKeyword(ToUpper(word), keyword) <==> IsKeyword(word, keyword)
  {
    UpperTwice(word);
  }

  lemma UpperSemicolon(word: string)
    ensures DropSemicolon(ToUpper(word)) == ToUpper(DropSemicolon(word))
  {
  }

  lemma UpperAfterTable(words: seq<string>)
    ensures ParseAfterTable(AllUpper(words)) == UpperParsed(ParseAfterTable(words))
  {
    forall i | 0 <= i < |words| ensures AllUpper(words)[i] == ToUpper(words[i]) {
    }
    forall w, k ensures IsKeyword(ToUpper(w), k) <==> IsKeyword(w, k) {
      UpperKeyword(w, k);
    }
    if 3 <= |words| {
      UpperSemicolon(words[2]);
    }
  }

  lemma UpperParseTarget(words: seq<string>)
    ensures ParseTarget(AllUpper(words)) == UpperParsed(ParseTarget(words))
  {
    UpperAfterTable(words);
    if words != [] {
      UpperKeyword(words[0], "TABLE");
      UpperAfterTable(words[1..]);
      assert AllUpper(words)[1..] == AllUpper(words[1..]);
    }
  }

  lemma UpperOn(s: string, p: nat)
    ensures IsOn(ToUpper(s), p) <==> IsOn(s, p)
  {
    if 0 < p && p + 2 < |s| {
      UpperSlice(s, p, p + 2);
      UpperKeyword(s[p..p + 2], "ON");
    }
  }

  lemma UpperTargetAt(s: string, p: nat)
    requires p + 2 <= |s|
    ensures ParseTarget(Words(ToUpper(s)[p + 2..])) == UpperParsed(ParseTarget(Words(s[p + 2..])))
  {
    UpperRest(s, p + 2);
    UpperWords(s[p + 2..]);
    UpperParseTarget(Words(s[p + 2..]));
  }

  lemma UpperOneLine(s: string)
    ensures OnOneLine(ToUpper(s)) <==> OnOneLine(s)
  {
    assert forall i | 0 <= i < |s| :: IsLineEnd(ToUpper(s)[i]) <==> IsLineEnd(s[i]);
  }

  lemma {:induction false} UpperFindTarget(s: string, start: nat, p: nat)
    requires start <= p
    ensures FindTarget(ToUpper(s), start, p) == UpperFound(FindTarget(s, start, p))
    decreases |s| - p
  {
    if p < |s| {
      UpperOn(s, p);
      UpperFindTarget(s, start, p + 1);
      if IsOn(s, p) {
        UpperTargetAt(s, p);
        UpperSlice(s, start, p);
        UpperTrimEnd(s[start..p]);
        UpperOneLine(TrimEnd(s[start..p]));
      }
    }
  }

  lemma UpperBlankTarget(s: string, q: nat)
    ensures FindBlankTarget(ToUpper(s), q) == UpperFound(FindBlankTarget(s, q))
  {
    UpperOn(s, q);
    if IsOn(s, q) {
      UpperTargetAt(s, q);
      assert forall i | 0 <= i < |s| :: !IsLineEnd(ToUpper(s)[i]) <==> !IsLineEnd(s[i]);
      if i :| 6 <= i < q - 1 && !IsLineEnd(s[i]) {
        assert !IsLineEnd(ToUpper(s)[i]);
      }
      assert ToUpper("") == "";
    }
  }

  lemma {:induction false} UpperSkip(s: string, i: nat)
    requires i <= |s|
    ensures SkipSpaces(ToUpper(s), i) == SkipSpaces(s, i)
    decreases |s| - i
  {
    if i < |s| && IsSpace(s[i]) {
      UpperSkip(s, i + 1);
    }
  }

  lemma {:induction false} UpperStrip(s: string)
    ensures StripQuotes(ToUpper(s)) == ToUpper(StripQuotes(s))
  {
    if s != [] {
      UpperRest(s, 1);
      UpperStrip(s[1..]);
    }
  }

  lemma {:induction false} UpperSplit(s: string)
    ensures Split(ToUpper(s), ',') == AllUpper(Split(s, ','))
  {
    if s != [] {
      var rest := Split(s[1..], ',');
      UpperRest(s, 1);
      UpperSplit(s[1..]);
      assert ToUpper([s[0]] + rest[0]) == [Upper(s[0])] + ToUpper(rest[0]);
      assert AllUpper([[s[0]] + rest[0]] + rest[1..]) == [ToUpper([s[0]] + rest[0])] + AllUpper(rest)[1..];
    }
  }

  lemma UpperPrivileges(text: string)
    ensures PrivilegeNames(Split(ToUpper(text), ',')) == PrivilegeNames(Split(text, ','))
  {
    var pieces := Split(text, ',');
    UpperSplit(text);
    forall i | 0 <= i < |pieces| ensures ToUpper(Trim(AllUpper(pieces)[i])) == ToUpper(Trim(pieces[i])) {
      UpperTrim(pieces[i]);
      UpperTwice(Trim(pieces[i]));
    }
  }

  /** A line in capitals reads like the line itself: it is a table grant if that one is, with the same
      privileges, and with table and role in capitals. */
  lemma CaseDoesNotMatter(line: string)
    ensures ParseGrantLine(ToUpper(line)) ==
      match ParseGrantLine(line)
      case None => None
      case Some(g) => Some(ParsedGrant(ToUpper(g.table), ToUpper(g.role), g.privileges))
  {
    var s := Trim(line);
    UpperTrim(line);
    if 6 <= |s| {
      UpperRest(s, 5);
      UpperKeyword(s[..5], "GRANT");
      var q := SkipSpaces(s, 5);
      UpperSkip(s, 5);
      UpperFindTarget(s, q, q + 1);
      UpperBlankTarget(s, q);
      match FindGrant(s, q) {
        case None =>
        case Some((privileges, target)) =>
          UpperPrivileges(privileges);
          UpperStrip(target.table);
          UpperStrip(target.role);
      }
    }
  }

  // ---------------------------------------------------------------------------------------------
  // Optional words and quotes
  // ---------------------------------------------------------------------------------------------

  /** The words behind `ON`, with or without the keyword `TABLE` and the semicolon. */
  function TargetTail(table: string, role: string, keyword: bool, semicolon: bool): seq<string>
  {
    (if keyword then ["TABLE"] else []) + [table, "TO", role + if semicolon then ";" else ""]
  }

  lemma TailReadsBack(table: string, role: string, keyword: bool, semicolon: bool)
    requires IsWord(table) && IsWord(role) && role[|role| - 1] != ';'
    ensures ParseTarget(TargetTail(table, role, keyword, semicolon)) == Some(Target(table, role, false))
  {
    var words := TargetTail(table, role, keyword, semicolon);
    assert ToUpper("TABLE") == "TABLE" && ToUpper("TO") == "TO";
    var last := role + if semicolon then ";" else "";
    assert DropSemicolon(last) == role by {
      assert semicolon ==> last[..|last| - 1] == role;
      assert !semicolon ==> last == role;
    }
    if keyword {
      assert words[1..] == [table, "TO", last];
    } else {
      assert words == [table, "TO", last];
    }
  }

  lemma LineWithTail(ps: seq<Privilege>, tail: string, target: Target)
    requires ps != [] && tail != [] && IsSpace(tail[0]) && !IsSpace(tail[|tail| - 1])
    requires ParseTarget(Words(tail)) == Some(target)
    ensures ParseGrantLine("GRANT " + PrintPrivileges(ps) + " ON" + tail) ==
      Some(GrantOf(PrintPrivileges(ps), target))
  {
    var line := "GRANT " + PrintPrivileges(ps) + " ON" + tail;
    var q := SkipSpaces(line, 5);
    PrintedPrivileges(ps);
    LineStarts(PrintPrivileges(ps), tail);
    PrivilegesAreFound(PrintPrivileges(ps), tail, target, q);
  }

  /** The same grant reads the same with or without `TABLE` and the semicolon, and with quotes around names or
      parts of names. */
  lemma StyleDoesNotMatter(ps: seq<Privilege>, table: string, role: string, keyword: bool, semicolon: bool)
    requires ps != [] && IsWord(table) && IsWord(role) && role[|role| - 1] != ';'
    ensures ParseGrantLine("GRANT " + PrintPrivileges(ps) + " ON" + Spaced(TargetTail(table, role, keyword, semicolon)))
      == Some(ParsedGrant(StripQuotes(table), StripQuotes(role), Sqls(ps)))
  {
    var words := TargetTail(table, role, keyword, semicolon);
    TailIsWords(table, role, keyword, semicolon);
    WordsOfSpaced(words);
    TailReadsBack(table, role, keyword, semicolon);
    SpacedEnds(words);
    LineWithTail(ps, Spaced(words), Target(table, role, false));
    GrantOfStyled(ps, table, role);
  }

  lemma GrantOfStyled(ps: seq<Privilege>, table: string, role: string)
    requires ps != []
    ensures GrantOf(PrintPrivileges(ps), Target(table, role, false)) ==
      ParsedGrant(StripQuotes(table), StripQuotes(role), Sqls(ps))
  {
    PrintedPieces(ps);
    PiecesGiveNames(ps, Split(PrintPrivileges(ps), ','));
  }

  lemma TailIsWords(table: string, role: string, keyword: bool, semicolon: bool)
    requires IsWord(table) && IsWord(role)
    ensures var words := TargetTail(table, role, keyword, semicolon); forall i | 0 <= i < |words| :: IsWord(words[i])
  {
    assert IsWord("TABLE") && IsWord("TO");
  }

  lemma {:induction false} SpacedEnds(words: seq<string>)
    requires words != [] && forall i | 0 <= i < |words| :: IsWord(words[i])
    ensures Spaced(words) != [] && Spaced(words)[0] == ' ' && !IsSpace(Spaced(words)[|Spaced(words)| - 1])
  {
    assert IsWord(words[0]);
    if 1 < |words| {
      SpacedEnds(words[1..]);
      var last := Spaced(words[1..]);
      assert Spaced(words)[|Spaced(words)| - 1] == last[|last| - 1];
    } else {
      assert Spaced(words) == " " + words[0];
    }
  }

  lemma SqlTellsPrivilege(p: Privilege, q: Privilege)
    ensures PrivilegeSql(p) == PrivilegeSql(q) ==> p == q
  {
    assert PrivilegeSql(p)[0] == PrivilegeSql(q)[0] ==> p == q;
  }

  lemma SqlIffListed(ps: seq<Privilege>, q: Privilege)
    ensures PrivilegeSql(q) in Sqls(ps) <==> q in ps
  {
    forall p ensures PrivilegeSql(p) == PrivilegeSql(q) ==> p == q {
      SqlTellsPrivilege(p, q);
    }
  }

  lemma SqlWords(ps: seq<Privilege>)
    ensures Sqls(ps) <= {"SELECT", "INSERT", "UPDATE", "DELETE"}
    ensures ("SELECT" in Sqls(ps) <==> Select in ps) && ("INSERT" in Sqls(ps) <==> Insert in ps)
    ensures ("UPDATE" in Sqls(ps) <==> Update in ps) && ("DELETE" in Sqls(ps) <==> Delete in ps)
  {
    SqlIffListed(ps, Select);
    SqlIffListed(ps, Insert);
    SqlIffListed(ps, Update);
    SqlIffListed(ps, Delete);
  }

  /** Which privileges the printed line gives, told by the words of SQL that it holds. */
  lemma WordsTellPrivileges(ps: seq<Privilege>, table: string, role: string)
    requires ps != [] && IsBareWord(table) && IsBareWord(role)
    ensures var read := ParseGrantLine(PrintGrant(ps, table, role));
      && read.Some? && read.value.privileges <= {"SELECT", "INSERT", "UPDATE", "DELETE"}
      && ("SELECT" in read.value.privileges <==> Select in ps)
      && ("INSERT" in read.value.privileges <==> Insert in ps)
      && ("UPDATE" in read.value.privileges <==> Update in ps)
      && ("DELETE" in read.value.privileges <==> Delete in ps)
  {
    GrantReadsBack(ps, table, role);
    SqlWords(ps);
  }

  lemma {:induction false} StripJoins(a: string, b: string)
    ensures StripQuotes(a + b) == StripQuotes(a) + StripQuotes(b)
  {
    if a == [] {
      assert a + b == b;
    } else {
      assert (a + b)[1..] == a[1..] + b;
      StripJoins(a[1..], b);
    }
  }

  /** A quoted name is the name between the quotes, part by part. */
  lemma QuotedNamesReadBack(schema: string, table: string)
    requires IsBareWord(schema) && IsBareWord(table)
    ensures StripQuotes("\"" + schema + "\".\"" + table + "\"") == schema + "." + table
  {
    BareWordStays(schema);
    BareWordStays(table);
    StripJoins("\"" + schema + "\".\"" + table, "\"");
    StripJoins("\"" + schema + "\".\"", table);
    StripJoins("\"" + schema, "\".\"");
    StripJoins("\"", schema);
  }
}
