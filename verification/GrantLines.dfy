/** The one line of SQL text that is read back: a table GRANT. */
module GrantLines {
  import opened PolicySchema
  import opened Strings
  import opened Wrappers

  datatype ParsedGrant = ParsedGrant(table: string, role: string, privileges: set<string>)

  predicate IsKeyword(word: string, keyword: string)
  {
    ToUpper(word) == keyword
  }

  /** Removes every double quote. */
  function StripQuotes(s: string): string
  {
    if s == [] then [] else (if s[0] == '"' then [] else [s[0]]) + StripQuotes(s[1..])
  }

  // ---------------------------------------------------------------------------------------------
  // Words
  // ---------------------------------------------------------------------------------------------

  /** Length of the run of non-space characters at the start. */
  function WordLength(s: string): (n: nat)
    ensures n <= |s| && forall i | 0 <= i < n :: !IsSpace(s[i])
    ensures n < |s| ==> IsSpace(s[n])
  {
    if s == [] || IsSpace(s[0]) then 0 else 1 + WordLength(s[1..])
  }

  function Words(s: string): seq<string>
    decreases |s|
  {
    if s == [] then []
    else if IsSpace(s[0]) then Words(s[1..])
    else [s[..WordLength(s)]] + Words(s[WordLength(s)..])
  }

  // ---------------------------------------------------------------------------------------------
  // Parsing
  // ---------------------------------------------------------------------------------------------

  datatype Target = Target(table: string, role: string, grantOption: bool)

  /** A statement end that may follow the last word. */
  function DropSemicolon(word: string): string
  {
    if 1 < |word| && word[|word| - 1] == ';' then word[..|word| - 1] else word
  }

  /** `table TO role`, or the same with the grant option, the last word possibly with a semicolon. */
  function ParseAfterTable(words: seq<string>): Option<Target>
  {
    if |words| == 3 && IsKeyword(words[1], "TO") then Some(Target(words[0], DropSemicolon(words[2]), false))
    else if |words| == 6 && IsKeyword(words[1], "TO") && IsKeyword(words[3], "WITH") && IsKeyword(words[4], "GRANT")
            && (IsKeyword(words[5], "OPTION") || IsKeyword(words[5], "OPTION;")) then
      Some(Target(words[0], words[2], true))
    else None
  }

  /** What follows `ON`; the keyword `TABLE` is optional. */
  function ParseTarget(words: seq<string>): Option<Target>
  {
    if words != [] && IsKeyword(words[0], "TABLE") && ParseAfterTable(words[1..]).Some? then ParseAfterTable(words[1..])
    else ParseAfterTable(words)
  }

  /** The word `ON` stands alone at this position. */
  predicate IsOn(s: string, p: nat)
  {
    0 < p && p + 2 < |s| && IsSpace(s[p - 1]) && IsKeyword(s[p..p + 2], "ON") && IsSpace(s[p + 2])
  }

  /** The first `ON` at or behind `p` whose target parses; the privileges before it stay on one line. */
  function FindTarget(s: string, start: nat, p: nat): Option<(string, Target)>
    requires start <= p
    decreases |s| - p
  {
    if p >= |s| then None
    else if IsOn(s, p) && ParseTarget(Words(s[p + 2..])).Some? && OnOneLine(TrimEnd(s[start..p])) then
      Some((TrimEnd(s[start..p]), ParseTarget(Words(s[p + 2..])).value))
    else FindTarget(s, start, p + 1)
  }

  predicate OnOneLine(s: string)
  {
    forall i | 0 <= i < |s| :: !IsLineEnd(s[i])
  }

  /** With nothing but blanks before `ON`, one of them passes for the privileges if there are three. */
  function FindBlankTarget(s: string, q: nat): Option<(string, Target)>
  {
    if 8 <= q && IsOn(s, q) && ParseTarget(Words(s[q + 2..])).Some?
      && (exists i :: 6 <= i < q - 1 && !IsLineEnd(s[i])) then
      Some(("", ParseTarget(Words(s[q + 2..])).value))
    else None
  }

  function SkipSpaces(s: string, i: nat): (q: nat)
    requires i <= |s|
    ensures i <= q <= |s|
    decreases |s| - i
  {
    if i < |s| && IsSpace(s[i]) then SkipSpaces(s, i + 1) else i
  }

  function PrivilegeNames(pieces: seq<string>): set<string>
  {
    set i | 0 <= i < |pieces| && ToUpper(Trim(pieces[i])) != "" :: ToUpper(Trim(pieces[i]))
  }

  /** The privilege text and the target, the blanks behind `GRANT` ending at `q`. */
  function FindGrant(s: string, q: nat): Option<(string, Target)>
  {
    match FindTarget(s, q, q + 1)
    case Some(found) => Some(found)
    case None => FindBlankTarget(s, q)
  }

  function GrantOf(privileges: string, target: Target): ParsedGrant
  {
    ParsedGrant(StripQuotes(target.table), StripQuotes(target.role),
                PrivilegeNames(Split(privileges, ',')) + if target.grantOption then {"GRANT OPTION"} else {})
  }

  predicate StartsGrant(s: string)
  {
    6 <= |s| && IsKeyword(s[..5], "GRANT") && IsSpace(s[5])
  }

  /** One GRANT line taken apart, or nothing if it is not a table grant. */
  function ParseGrantLine(line: string): Option<ParsedGrant>
  {
    var s := Trim(line);
    if !StartsGrant(s) then None
    else
      match FindGrant(s, SkipSpaces(s, 5))
      case None => None
      case Some((privileges, target)) => Some(GrantOf(privileges, target))
  }

  // ---------------------------------------------------------------------------------------------
  // Printing
  // ---------------------------------------------------------------------------------------------

  function PrivilegeSql(p: Privilege): string
  {
    match p case Select => "SELECT" case Insert => "INSERT" case Update => "UPDATE" case Delete => "DELETE"
  }

  function PrintPrivileges(ps: seq<Privilege>): string
    requires ps != []
  {
    if |ps| == 1 then PrivilegeSql(ps[0]) else PrivilegeSql(ps[0]) + ", " + PrintPrivileges(ps[1..])
  }

  function PrintTarget(table: string, role: string): string
  {
    " TABLE " + table + " TO " + role + ";"
  }

  /** The line the PostgreSQL compiler prints for a table grant. */
  function PrintGrant(ps: seq<Privilege>, table: string, role: string): string
    requires ps != []
  {
    "GRANT " + PrintPrivileges(ps) + " ON" + PrintTarget(table, role)
  }

  // ---------------------------------------------------------------------------------------------
  // Reading back what is printed
  // ---------------------------------------------------------------------------------------------

  predicate IsInitial(c: char)
  {
    c in {'S', 'I', 'U', 'D'}
  }

  /** No blank stands last or in front of anything but the initial of a privilege. */
  lemma {:induction false} PrintedPrivileges(ps: seq<Privilege>)
    requires ps != []
    ensures var t := PrintPrivileges(ps);
            && t != [] && IsInitial(t[0]) && !IsSpace(t[|t| - 1]) && OnOneLine(t)
            && forall i | 0 <= i < |t| && IsSpace(t[i]) :: i + 1 < |t| && IsInitial(t[i + 1])
  {
    var name := PrivilegeSql(ps[0]);
    assert forall i | 0 <= i < |name| :: !IsSpace(name[i]) && !IsLineEnd(name[i]);
    if 1 < |ps| {
      PrintedPrivileges(ps[1..]);
      var back := PrintPrivileges(ps[1..]);
      var t := name + ", " + back;
      forall i | 0 <= i < |t| ensures !IsLineEnd(t[i]) && (IsSpace(t[i]) ==> i + 1 < |t| && IsInitial(t[i + 1])) {
        if i < |name| {
          assert t[i] == name[i];
        } else if i >= |name| + 2 {
          assert t[i] == back[i - |name| - 2];
        }
      }
    }
  }

  function Sqls(ps: seq<Privilege>): set<string>
  {
    set p | p in ps :: PrivilegeSql(p)
  }

  lemma NameTrims(p: Privilege)
    ensures ToUpper(Trim(PrivilegeSql(p))) == PrivilegeSql(p) && ToUpper(Trim(" " + PrivilegeSql(p))) == PrivilegeSql(p)
  {
    var name := PrivilegeSql(p);
    assert TrimStart(name) == name && TrimEnd(name) == name;
    assert (" " + name)[1..] == name && TrimStart(" " + name) == TrimStart(name);
    assert ToUpper(name) == name;
  }

  lemma SqlHasNoComma(p: Privilege)
    ensures ',' !in PrivilegeSql(p)
  {
  }

  /** Splitting behind a name and a comma leaves the rest with its blank. */
  lemma SplitFirstName(name: string, back: string)
    requires ',' !in name
    ensures var rest := Split(back, ','); Split(name + ", " + back, ',') == [name] + ([" " + rest[0]] + rest[1..])
  {
    assert name + ", " + back == name + [','] + (" " + back);
    SplitJoined(name, " " + back, ',');
    assert (" " + back)[1..] == back && (" " + back)[0] == ' ';
  }

  lemma {:induction false} PrintedPieces(ps: seq<Privilege>)
    requires ps != []
    ensures var pieces := Split(PrintPrivileges(ps), ',');
            |pieces| == |ps| && pieces[0] == PrivilegeSql(ps[0]) && forall i | 1 <= i < |ps| ::
              pieces[i] == " " + PrivilegeSql(ps[i])
  {
    SqlHasNoComma(ps[0]);
    if |ps| == 1 {
      SplitNone(PrivilegeSql(ps[0]), ',');
    } else {
      PrintedPieces(ps[1..]);
      var name, back := PrivilegeSql(ps[0]), PrintPrivileges(ps[1..]);
      SplitFirstName(name, back);
      assert PrintPrivileges(ps) == name + ", " + back;
      var rest := Split(back, ',');
      assert Split(PrintPrivileges(ps), ',') == [name] + ([" " + rest[0]] + rest[1..]);
    }
  }

  /** The pieces are the names, all but the first behind a blank. */
  predicate ArePieces(ps: seq<Privilege>, pieces: seq<string>)
  {
    |pieces| == |ps| && forall i | 0 <= i < |ps| ::
      pieces[i] == PrivilegeSql(ps[i]) || pieces[i] == " " + PrivilegeSql(ps[i])
  }

  lemma PiecesGiveNames(ps: seq<Privilege>, pieces: seq<string>)
    requires ArePieces(ps, pieces)
    ensures PrivilegeNames(pieces) == Sqls(ps)
  {
    forall i | 0 <= i < |ps| ensures ToUpper(Trim(pieces[i])) == PrivilegeSql(ps[i]) {
      NameTrims(ps[i]);
    }
    forall x ensures x in PrivilegeNames(pieces) <==> x in Sqls(ps) {
      if x in Sqls(ps) {
        var p :| p in ps && x == PrivilegeSql(p);
        var i :| 0 <= i < |ps| && ps[i] == p;
        assert ToUpper(Trim(pieces[i])) == x;
      }
    }
  }

  lemma GrantOfPrinted(ps: seq<Privilege>, target: Target)
    requires ps != [] && IsBareWord(target.table) && IsBareWord(target.role)
    ensures GrantOf(PrintPrivileges(ps), target) ==
              ParsedGrant(target.table, target.role, if target.grantOption then Sqls(ps) + {"GRANT OPTION"}
                else Sqls(ps))
  {
    PrintedPieces(ps);
    PiecesGiveNames(ps, Split(PrintPrivileges(ps), ','));
    BareWordStays(target.table);
    BareWordStays(target.role);
  }

  /** A name without blanks and quotes. */
  predicate IsBareWord(w: string)
  {
    w != [] && forall i | 0 <= i < |w| :: !IsSpace(w[i]) && w[i] != '"'
  }

  lemma {:induction false} BareWordStays(w: string)
    requires forall i | 0 <= i < |w| :: w[i] != '"'
    ensures StripQuotes(w) == w
  {
    if w != [] {
      BareWordStays(w[1..]);
    }
  }

  lemma {:induction false} WordEnds(w: string, rest: string)
    requires (forall i | 0 <= i < |w| :: !IsSpace(w[i])) && (rest != [] ==> IsSpace(rest[0]))
    ensures WordLength(w + rest) == |w|
  {
    if w == [] {
      assert w + rest == rest;
    } else {
      assert (w + rest)[1..] == w[1..] + rest;
      WordEnds(w[1..], rest);
    }
  }

  lemma FirstWord(w: string, rest: string)
    requires w != [] && (forall i | 0 <= i < |w| :: !IsSpace(w[i])) && (rest != [] ==> IsSpace(rest[0]))
    ensures Words(" " + w + rest) == [w] + Words(rest)
  {
    var s := w + rest;
    assert (" " + w + rest)[1..] == s;
    WordEnds(w, rest);
    assert s[..|w|] == w && s[|w|..] == rest;
  }

  predicate IsWord(w: string)
  {
    w != [] && forall i | 0 <= i < |w| :: !IsSpace(w[i])
  }

  /** The words in a row, each behind a blank. */
  function Spaced(words: seq<string>): string
  {
    if words == [] then "" else " " + words[0] + Spaced(words[1..])
  }

  lemma {:induction false} WordsOfSpaced(words: seq<string>)
    requires forall i | 0 <= i < |words| :: IsWord(words[i])
    ensures Words(Spaced(words)) == words
  {
    if words != [] {
      WordsOfSpaced(words[1..]);
      FirstWord(words[0], Spaced(words[1..]));
      assert words == [words[0]] + words[1..];
    }
  }

  lemma SpacedThree(a: string, b: string, c: string)
    ensures Spaced([a, b, c]) == " " + a + (" " + b + (" " + c))
  {
    assert [a, b, c][1..] == [b, c] && [b, c][1..] == [c] && [c][1..] == [];
    assert Spaced([c]) == " " + c;
  }

  lemma SpacedFour(a: string, b: string, c: string, d: string)
    ensures Spaced([a, b, c, d]) == " " + a + (" " + b + (" " + c + (" " + d)))
  {
    SpacedThree(b, c, d);
    assert [a, b, c, d][1..] == [b, c, d];
  }

  lemma {:induction false} SpacedJoin(x: seq<string>, y: seq<string>)
    ensures Spaced(x + y) == Spaced(x) + Spaced(y)
  {
    if x == [] {
      assert x + y == y;
    } else {
      assert (x + y)[1..] == x[1..] + y;
      SpacedJoin(x[1..], y);
    }
  }

  lemma TargetWords(table: string, role: string)
    requires IsBareWord(table) && IsBareWord(role)
    ensures Words(PrintTarget(table, role)) == ["TABLE", table, "TO", role + ";"]
  {
    var words := ["TABLE", table, "TO", role + ";"];
    assert IsWord("TABLE") && IsWord("TO") && IsWord(table) && IsWord(role + ";");
    WordsOfSpaced(words);
    PrintedTargetShape(table, role);
  }

  lemma PrintedTargetShape(table: string, role: string)
    ensures PrintTarget(table, role) == Spaced(["TABLE", table, "TO", role + ";"])
  {
    SpacedFour("TABLE", table, "TO", role + ";");
  }

  lemma TargetReadsBack(table: string, role: string)
    requires IsBareWord(table) && IsBareWord(role)
    ensures ParseTarget(Words(PrintTarget(table, role))) == Some(Target(table, role, false))
  {
    TargetWords(table, role);
    var words := ["TABLE", table, "TO", role + ";"];
    assert words[1..] == [table, "TO", role + ";"];
    assert (role + ";")[..|role|] == role;
    assert ToUpper("TABLE") == "TABLE" && ToUpper("TO") == "TO";
    assert ParseAfterTable(words[1..]) == Some(Target(table, role, false));
  }

  /** Nothing in front of the printed `ON` passes for one. */
  lemma {:induction false} SearchReachesOn(s: string, start: nat, p: nat, on: nat)
    requires start <= p <= on < |s| && forall i | p <= i < on :: !IsOn(s, i)
    ensures FindTarget(s, start, p) == FindTarget(s, start, on)
    decreases on - p
  {
    if p < on {
      SearchReachesOn(s, start, p + 1, on);
    }
  }

  lemma TrimEndStops(t: string)
    requires t != [] && !IsSpace(t[|t| - 1])
    ensures TrimEnd(t + " ") == t
  {
    assert (t + " ")[..|t|] == t;
    assert TrimEnd(t) == t;
  }

  lemma InitialIsNoOn(s: string, p: nat)
    requires p < |s| && IsInitial(s[p])
    ensures !IsOn(s, p)
  {
    assert p + 2 < |s| ==> ToUpper(s[p..p + 2])[0] == Upper(s[p]);
  }

  /** Where the pieces of a line lie. */
  lemma LineShape(t: string, target: string)
    ensures var s := "GRANT " + t + " ON" + target;
            && |s| == 9 + |t| + |target| && s[..5] == "GRANT" && s[5] == ' '
            && (forall i | 0 <= i < |t| :: s[6 + i] == t[i])
            && s[6 + |t|] == ' ' && s[7 + |t|..9 + |t|] == "ON" && s[9 + |t|..] == target
            && s[6..7 + |t|] == t + " "
            && (target != [] ==> s[9 + |t|] == target[0] && s[|s| - 1] == target[|target| - 1])
  {
  }

  lemma NoEarlierOn(s: string, t: string, i: nat)
    requires 7 + |t| <= |s| && forall k | 0 <= k < |t| :: s[6 + k] == t[k]
    requires forall k | 0 <= k < |t| && IsSpace(t[k]) :: k + 1 < |t| && IsInitial(t[k + 1])
    requires 7 <= i < 7 + |t|
    ensures !IsOn(s, i)
  {
    assert s[i - 1] == t[i - 7];
    if IsSpace(t[i - 7]) {
      assert s[i] == t[i - 6];
      InitialIsNoOn(s, i);
    }
  }

  /** In a line with such a privilege text the search finds the `ON` right behind it. */
  lemma PrivilegesAreFound(t: string, target: string, parsed: Target, q: nat)
    requires t != [] && !IsSpace(t[|t| - 1]) && OnOneLine(t)
    requires forall i | 0 <= i < |t| && IsSpace(t[i]) :: i + 1 < |t| && IsInitial(t[i + 1])
    requires target != [] && IsSpace(target[0]) && ParseTarget(Words(target)) == Some(parsed)
    requires q == 6
    ensures FindTarget("GRANT " + t + " ON" + target, q, q + 1) == Some((t, parsed))
  {
    var s := "GRANT " + t + " ON" + target;
    var on := 7 + |t|;
    LineShape(t, target);
    forall i | 7 <= i < on ensures !IsOn(s, i) {
      NoEarlierOn(s, t, i);
    }
    SearchReachesOn(s, q, q + 1, on);
    assert ToUpper("ON") == "ON";
    assert IsOn(s, on);
    TrimEndStops(t);
  }

  /** The line is trimmed already, and its privileges start behind the one blank that follows `GRANT`. */
  lemma LineStarts(t: string, target: string)
    requires t != [] && !IsSpace(t[0]) && target != [] && !IsSpace(target[|target| - 1])
    ensures var s := "GRANT " + t + " ON" + target; Trim(s) == s && StartsGrant(s) && SkipSpaces(s, 5) == 6
  {
    LineShape(t, target);
    var s := "GRANT " + t + " ON" + target;
    assert s[0] == s[..5][0] && s[6 + 0] == t[0];
    assert ToUpper("GRANT") == "GRANT";
    assert SkipSpaces(s, 6) == 6;
  }

  /** Parsing the line printed for a table grant gives its table, its role and its privileges. */
  lemma GrantReadsBack(ps: seq<Privilege>, table: string, role: string)
    requires ps != [] && IsBareWord(table) && IsBareWord(role)
    ensures ParseGrantLine(PrintGrant(ps, table, role)) == Some(ParsedGrant(table, role, Sqls(ps)))
  {
    var target := Target(table, role, false);
    var line := PrintGrant(ps, table, role);
    var q := SkipSpaces(line, 5);
    PrintedPrivileges(ps);
    LineStarts(PrintPrivileges(ps), PrintTarget(table, role));
    TargetReadsBack(table, role);
    PrivilegesAreFound(PrintPrivileges(ps), PrintTarget(table, role), target, q);
    GrantOfPrinted(ps, target);
  }

  // ---------------------------------------------------------------------------------------------
  // The grant option
  // ---------------------------------------------------------------------------------------------

  function PrintOptionTarget(table: string, role: string): string
  {
    " TABLE " + table + " TO " + role + " WITH GRANT OPTION;"
  }

  lemma OptionTargetWords(table: string, role: string)
    requires IsBareWord(table) && IsBareWord(role)
    ensures Words(PrintOptionTarget(table, role)) == ["TABLE", table, "TO", role] + ["WITH", "GRANT", "OPTION;"]
  {
    var front, back := ["TABLE", table, "TO", role], ["WITH", "GRANT", "OPTION;"];
    assert IsWord("TABLE") && IsWord("TO") && IsWord(table) && IsWord(role);
    assert IsWord("WITH") && IsWord("GRANT") && IsWord("OPTION;");
    WordsOfSpaced(front + back);
    SpacedJoin(front, back);
    OptionTargetShape(table, role);
  }

  lemma OptionTargetShape(table: string, role: string)
    ensures PrintOptionTarget(table, role) == Spaced(["TABLE", table, "TO", role])
        + Spaced(["WITH", "GRANT", "OPTION;"])
  {
    SpacedFour("TABLE", table, "TO", role);
    SpacedThree("WITH", "GRANT", "OPTION;");
    assert Spaced(["WITH", "GRANT", "OPTION;"]) == " WITH GRANT OPTION;";
    assert Spaced(["TABLE", table, "TO", role]) == " TABLE " + table + " TO " + role;
  }

  lemma OptionTargetReadsBack(table: string, role: string)
    requires IsBareWord(table) && IsBareWord(role)
    ensures ParseTarget(Words(PrintOptionTarget(table, role))) == Some(Target(table, role, true))
  {
    OptionTargetWords(table, role);
    var words := ["TABLE", table, "TO", role, "WITH", "GRANT", "OPTION;"];
    assert ["TABLE", table, "TO", role] + ["WITH", "GRANT", "OPTION;"] == words;
    assert words[1..] == [table, "TO", role, "WITH", "GRANT", "OPTION;"];
    assert ToUpper("TABLE") == "TABLE" && ToUpper("TO") == "TO" && ToUpper("WITH") == "WITH"
        && ToUpper("GRANT") == "GRANT" && ToUpper("OPTION;") == "OPTION;";
  }

  /** A grant with the grant option reads back with the extra privilege `GRANT OPTION`, which no declared
      grant has: it always differs from what is declared. */
  lemma GrantOptionShows(ps: seq<Privilege>, table: string, role: string, declared: seq<Privilege>)
    requires ps != [] && IsBareWord(table) && IsBareWord(role)
    ensures var parsed := ParseGrantLine("GRANT " + PrintPrivileges(ps) + " ON" + PrintOptionTarget(table, role));
            && parsed == Some(ParsedGrant(table, role, Sqls(ps) + {"GRANT OPTION"}))
            && parsed.value.privileges != Sqls(declared)
  {
    var target := Target(table, role, true);
    var line := "GRANT " + PrintPrivileges(ps) + " ON" + PrintOptionTarget(table, role);
    var q := SkipSpaces(line, 5);
    PrintedPrivileges(ps);
    LineStarts(PrintPrivileges(ps), PrintOptionTarget(table, role));
    OptionTargetReadsBack(table, role);
    PrivilegesAreFound(PrintPrivileges(ps), PrintOptionTarget(table, role), target, q);
    GrantOfPrinted(ps, target);
    NoSuchPrivilege(declared);
  }

  lemma NoSuchPrivilege(ps: seq<Privilege>)
    ensures "GRANT OPTION" !in Sqls(ps)
  {
    assert forall p: Privilege :: |PrivilegeSql(p)| == 6;
    assert |"GRANT OPTION"| == 12;
  }

  /** Validated table names and renamed roles are such words. */
  lemma ValidNamesAreBare(schema: string, table: string, role: string)
    requires IsIdentifier(schema) && IsIdentifier(table) && IsRoleName(role)
    ensures IsBareWord(schema + "." + table) && IsBareWord(ToPgRole(role))
    ensures '/' !in schema + "." + table
  {
    var name := schema + "." + table;
    forall i | 0 <= i < |name| ensures !IsSpace(name[i]) && name[i] != '"' && name[i] != '/' {
      assert IsNameChar(name[i]) || name[i] == '.';
    }
  }
}
