/** Redaction of literals and comments in SQL text. */
module SqlRedaction {
  import opened Strings

  /** Characters after which a digit belongs to an identifier. */
  predicate IsIdent(c: char) { IsLetter(c) || IsDigit(c) || c == '_' || c == '$' }

  /** Characters a number swallows. */
  predicate IsNumberPart(c: char) { IsLetter(c) || IsDigit(c) || c == '_' || c == '.' }

  // ---------------------------------------------------------------------------------------------
  // Lengths of the constructs, from behind their opening characters
  // ---------------------------------------------------------------------------------------------

  /** Up to and including the closing quote; a doubled quote does not close. */
  function QuoteLength(s: string, quote: char): (n: nat)
    ensures n <= |s| && (s != [] ==> 0 < n)
  {
    if s == [] then 0
    else if s[0] != quote then 1 + QuoteLength(s[1..], quote)
    else if 1 < |s| && s[1] == quote then 2 + QuoteLength(s[2..], quote)
    else 1
  }

  /** Up to the line end, which is not included. */
  function LineLength(s: string): (n: nat)
    ensures n <= |s|
  {
    if s == [] || s[0] == '\n' then 0 else 1 + LineLength(s[1..])
  }

  /** Up to and including the first comment end. */
  function BlockLength(s: string): (n: nat)
    ensures n <= |s|
  {
    if |s| < 2 then |s| else if s[0] == '*' && s[1] == '/' then 2 else 1 + BlockLength(s[1..])
  }

  function NumberLength(s: string): (n: nat)
    ensures n <= |s|
  {
    if s == [] || !IsNumberPart(s[0]) then 0 else 1 + NumberLength(s[1..])
  }

  // ---------------------------------------------------------------------------------------------
  // The scanner
  // ---------------------------------------------------------------------------------------------

  predicate StartsLineComment(s: string) { 1 < |s| && s[0] == '-' && s[1] == '-' }
  predicate StartsBlockComment(s: string) { 1 < |s| && s[0] == '/' && s[1] == '*' }
  predicate StartsNumber(s: string, afterIdent: bool) { s != [] && IsDigit(s[0]) && !afterIdent }

  /** How much the construct at the start of the text takes. */
  function TokenLength(s: string, afterIdent: bool): (n: nat)
    requires s != []
    ensures 0 < n <= |s|
  {
    if s[0] == '\'' || s[0] == '"' then 1 + QuoteLength(s[1..], s[0])
    else if StartsLineComment(s) then LineLength(s)
    else if StartsBlockComment(s) then 2 + BlockLength(s[2..])
    else if StartsNumber(s, afterIdent) then NumberLength(s)
    else 1
  }

  /** What the construct becomes: literals a question mark, comments a blank, all else itself. */
  function TokenText(s: string, afterIdent: bool): (t: string)
    requires s != []
    ensures t != []
  {
    if s[0] == '\'' then "?"
    else if s[0] == '"' then s[..TokenLength(s, afterIdent)]
    else if StartsLineComment(s) || StartsBlockComment(s) then " "
    else if StartsNumber(s, afterIdent) then "?"
    else [s[0]]
  }

  predicate IsPlain(s: string, afterIdent: bool)
    requires s != []
  {
    s[0] != '\'' && s[0] != '"' && !StartsLineComment(s) && !StartsBlockComment(s) && !StartsNumber(s, afterIdent)
  }

  /** Does an identifier character end the text so far? Only a plain character can be one. */
  predicate EndsIdent(s: string, afterIdent: bool)
    requires s != []
  {
    IsPlain(s, afterIdent) && IsIdent(s[0])
  }

  function Scan(s: string, afterIdent: bool): string
    decreases |s|
  {
    if s == [] then [] else TokenText(s, afterIdent) + Scan(s[TokenLength(s, afterIdent)..], EndsIdent(s, afterIdent))
  }

  function Redacted(sql: string): string
  {
    Trim(Scan(sql, false))
  }

  // ---------------------------------------------------------------------------------------------
  // Clean text
  // ---------------------------------------------------------------------------------------------

  /** Outside double-quoted spans: no single quote, no comment start, and digits only behind an
      identifier character. */
  predicate Clean(s: string, afterIdent: bool)
    decreases |s|
  {
    s == [] || (
      if s[0] == '"' then Clean(s[1 + QuoteLength(s[1..], '"')..], false)
      else
        && s[0] != '\'' && !StartsLineComment(s) && !StartsBlockComment(s)
        && (IsDigit(s[0]) ==> afterIdent)
        && Clean(s[1..], IsIdent(s[0])))
  }

  /** The scanner leaves clean text as it is. */
  lemma {:induction false} CleanIsKept(s: string, afterIdent: bool)
    requires Clean(s, afterIdent)
    ensures Scan(s, afterIdent) == s
    decreases |s|
  {
    if s != [] {
      CleanIsKept(s[TokenLength(s, afterIdent)..], EndsIdent(s, afterIdent));
    }
  }

  lemma DropFromJoined(s: string, n: nat, rest: string, k: nat)
    requires k <= n <= |s|
    ensures (s[..n] + rest)[k..] == s[k..][..n - k] + rest
  {
  }

  lemma DropFront(front: string, rest: string)
    ensures (front + rest)[|front|..] == rest
  {
  }

  /** A closing quote stays one in front of any text that does not start with the quote. */
  lemma {:induction false} QuoteStaysClosed(s: string, quote: char, rest: string)
    requires rest != [] ==> QuoteLength(s, quote) < |s| && rest[0] != quote
    ensures QuoteLength(s[..QuoteLength(s, quote)] + rest, quote) == QuoteLength(s, quote)
    decreases |s|
  {
    var n := QuoteLength(s, quote);
    if s == [] {
    } else if s[0] != quote {
      QuoteStaysClosed(s[1..], quote, rest);
      DropFromJoined(s, n, rest, 1);
    } else if 1 < |s| && s[1] == quote {
      QuoteStaysClosed(s[2..], quote, rest);
      DropFromJoined(s, n, rest, 2);
    }
  }

  /** A quote of this kind does not follow a closed span of it. */
  lemma {:induction false} NoQuoteFollows(s: string, quote: char)
    ensures var n := QuoteLength(s, quote); n < |s| ==> s[n] != quote
    decreases |s|
  {
    if s != [] {
      if s[0] != quote {
        NoQuoteFollows(s[1..], quote);
      } else if 1 < |s| && s[1] == quote {
        NoQuoteFollows(s[2..], quote);
      }
    }
  }

  /** A double-quoted span in front of clean text that does not start with a quote is clean. */
  lemma SpanIsClean(s: string, rest: string, afterIdent: bool)
    requires s != [] && s[0] == '"' && Clean(rest, false)
    requires rest != [] ==> QuoteLength(s[1..], '"') < |s| - 1 && rest[0] != '"'
    ensures Clean(s[..1 + QuoteLength(s[1..], '"')] + rest, afterIdent)
  {
    var n := 1 + QuoteLength(s[1..], '"');
    var out := s[..n] + rest;
    QuoteStaysClosed(s[1..], '"', rest);
    DropFromJoined(s, n, rest, 1);
    DropFront(s[..n], rest);
  }

  lemma OtherTokenIsClean(s: string, rest: string, afterIdent: bool)
    requires s != [] && s[0] != '"' && Clean(rest, EndsIdent(s, afterIdent))
    requires rest != [] ==> rest[0] in {'?', ' '} || (1 < |s| && rest[0] == s[1]) || !IsPlain(s, afterIdent)
    ensures Clean(TokenText(s, afterIdent) + rest, afterIdent)
  {
    DropFront(TokenText(s, afterIdent), rest);
  }

  /** Whatever is scanned, the output is clean. */
  lemma {:induction false} ScanIsClean(s: string, afterIdent: bool)
    ensures Clean(Scan(s, afterIdent), afterIdent)
    decreases |s|
  {
    if s != [] {
      var n := TokenLength(s, afterIdent);
      var rest := Scan(s[n..], EndsIdent(s, afterIdent));
      ScanIsClean(s[n..], EndsIdent(s, afterIdent));
      if s[0] == '"' {
        NoQuoteFollows(s[1..], '"');
        assert s[1..][n - 1..] == s[n..];
        SpanIsClean(s, rest, afterIdent);
      } else {
        OtherTokenIsClean(s, rest, afterIdent);
      }
    }
  }

  lemma {:induction false} CleanSkipsSpaces(s: string)
    requires Clean(s, false)
    ensures Clean(TrimStart(s), false)
  {
    if s != [] && IsSpace(s[0]) {
      CleanSkipsSpaces(s[1..]);
    }
  }

  /** A span cut off stays open, or closes at the cut. */
  lemma {:induction false} QuoteCutShort(s: string, quote: char, k: nat)
    requires k <= |s|
    ensures k <= QuoteLength(s, quote) ==> QuoteLength(s[..k], quote) == k
    ensures QuoteLength(s, quote) < k ==> QuoteLength(s[..k], quote) == QuoteLength(s, quote)
    decreases |s|
  {
    if s != [] && 0 < k {
      if s[0] != quote {
        QuoteCutShort(s[1..], quote, k - 1);
        assert s[..k][1..] == s[1..][..k - 1];
      } else if 1 < |s| && s[1] == quote && 1 < k {
        QuoteCutShort(s[2..], quote, k - 2);
        assert s[..k][2..] == s[2..][..k - 2];
      }
    }
  }

  lemma {:induction false} CleanPrefix(s: string, afterIdent: bool, k: nat)
    requires Clean(s, afterIdent) && k <= |s|
    ensures Clean(s[..k], afterIdent)
    decreases |s|
  {
    if s != [] && 0 < k {
      if s[0] == '"' {
        var n := 1 + QuoteLength(s[1..], '"');
        QuoteCutShort(s[1..], '"', k - 1);
        assert s[..k][1..] == s[1..][..k - 1];
        if n < k {
          CleanPrefix(s[n..], false, k - n);
          assert s[..k][n..] == s[n..][..k - n];
        }
      } else {
        CleanPrefix(s[1..], IsIdent(s[0]), k - 1);
        assert s[..k][1..] == s[1..][..k - 1];
      }
    }
  }

  /** Redacted text is clean. */
  lemma RedactedIsClean(sql: string)
    ensures Clean(Redacted(sql), false)
  {
    var out := Scan(sql, false);
    ScanIsClean(sql, false);
    CleanSkipsSpaces(out);
    TrimEndIsPrefix(TrimStart(out));
    CleanPrefix(TrimStart(out), false, |Trim(out)|);
  }

  /** A text is its own redaction exactly when it is clean and trimmed. */
  lemma UnchangedIffClean(sql: string)
    ensures Redacted(sql) == sql <==> Clean(sql, false) && Trim(sql) == sql
  {
    if Redacted(sql) == sql {
      RedactedIsClean(sql);
      TrimTwice(Scan(sql, false));
    }
    if Clean(sql, false) && Trim(sql) == sql {
      CleanIsKept(sql, false);
    }
  }

  /** Redacting twice is redacting once. */
  lemma RedactionIsIdempotent(sql: string)
    ensures Redacted(Redacted(sql)) == Redacted(sql)
  {
    RedactedIsClean(sql);
    TrimTwice(Scan(sql, false));
    UnchangedIffClean(Redacted(sql));
  }

  /** The position lies outside all double-quoted spans. */
  predicate Outside(s: string, i: nat)
    decreases |s|
  {
    && i < |s|
    && if s[0] == '"' then
         var n := 1 + QuoteLength(s[1..], '"');
         n <= i && Outside(s[n..], i - n)
       else i == 0 || Outside(s[1..], i - 1)
  }

  /** No single quote, no comment start, and a digit only right behind an identifier character. */
  predicate CleanAt(s: string, i: nat, afterIdent: bool)
    requires i < |s|
  {
    && s[i] != '\'' && !StartsLineComment(s[i..]) && !StartsBlockComment(s[i..])
    && (IsDigit(s[i]) ==> if i == 0 then afterIdent else Outside(s, i - 1) && IsIdent(s[i - 1]))
  }

  ghost predicate CleanThroughout(s: string, afterIdent: bool)
  {
    forall i: nat | Outside(s, i) :: CleanAt(s, i, afterIdent)
  }

  /** Behind a span or a character the positions outside spans are those of the rest. */
  lemma CleanAtRest(s: string, n: nat, afterIdent: bool, restAfter: bool)
    requires 0 < n <= |s| && forall i: nat :: Outside(s, n + i) <==> Outside(s[n..], i)
    requires restAfter <==> Outside(s, n - 1) && IsIdent(s[n - 1])
    ensures CleanThroughout(s[n..], restAfter) <==> forall i: nat | n <= i && Outside(s, i) :: CleanAt(s, i, afterIdent)
  {
    forall i: nat | Outside(s[n..], i) ensures CleanAt(s[n..], i, restAfter) <==> CleanAt(s, n + i, afterIdent) {
      assert s[n..][i..] == s[n + i..];
      if 0 < i {
        assert Outside(s, n + (i - 1)) <==> Outside(s[n..], i - 1);
      }
    }
    if CleanThroughout(s[n..], restAfter) {
      forall i: nat | n <= i && Outside(s, i) ensures CleanAt(s, i, afterIdent) {
        assert Outside(s, n + (i - n)) <==> Outside(s[n..], i - n);
      }
    }
  }

  /** Clean text is clean at every position outside double-quoted spans, and the other way round. */
  lemma {:induction false} CleanByCharacter(s: string, afterIdent: bool)
    ensures Clean(s, afterIdent) <==> CleanThroughout(s, afterIdent)
    decreases |s|
  {
    if s == [] {
    } else if s[0] == '"' {
      var n := 1 + QuoteLength(s[1..], '"');
      CleanByCharacter(s[n..], false);
      CleanAtRest(s, n, afterIdent, false);
    } else {
      CleanByCharacter(s[1..], IsIdent(s[0]));
      CleanAtRest(s, 1, afterIdent, IsIdent(s[0]));
      assert s[0..] == s && Outside(s, 0);
      assert CleanThroughout(s, afterIdent) <==>
        CleanAt(s, 0, afterIdent) && forall i: nat | 1 <= i && Outside(s, i) :: CleanAt(s, i, afterIdent);
    }
  }

  // ---------------------------------------------------------------------------------------------
  // The contents of a literal do not show
  // ---------------------------------------------------------------------------------------------

  /** The text with its quotes of this kind doubled. */
  function Doubled(s: string, quote: char): string
  {
    if s == [] then [] else (if s[0] == quote then [quote, quote] else [s[0]]) + Doubled(s[1..], quote)
  }

  function Literal(contents: string): string
  {
    "'" + Doubled(contents, '\'') + "'"
  }

  /** The scanner starts a construct at position `k`. */
  predicate Boundary(s: string, afterIdent: bool, k: nat)
    decreases |s|
  {
    k == 0 || (s != [] && TokenLength(s, afterIdent) <= k
      && Boundary(s[TokenLength(s, afterIdent)..], EndsIdent(s, afterIdent), k - TokenLength(s, afterIdent)))
  }

  /** The two texts agree on the first `m` characters. */
  predicate Agree(s: string, t: string, m: nat)
  {
    m <= |s| && m <= |t| && s[..m] == t[..m]
  }

  lemma AgreeDrop(s: string, t: string, m: nat, k: nat)
    requires Agree(s, t, m) && k <= m
    ensures Agree(s[k..], t[k..], m - k)
  {
    assert s[k..][..m - k] == s[..m][k..] && t[k..][..m - k] == t[..m][k..];
  }

  lemma {:induction false} QuoteLengthIsLocal(s: string, t: string, quote: char, m: nat)
    requires Agree(s, t, m) && QuoteLength(s, quote) < m
    ensures QuoteLength(t, quote) == QuoteLength(s, quote)
    decreases |s|
  {
    if s[0] != quote {
      AgreeDrop(s, t, m, 1);
      QuoteLengthIsLocal(s[1..], t[1..], quote, m - 1);
    } else {
      if s[1] == quote {
        AgreeDrop(s, t, m, 2);
        QuoteLengthIsLocal(s[2..], t[2..], quote, m - 2);
      }
    }
  }

  lemma {:induction false} LineLengthIsLocal(s: string, t: string, m: nat)
    requires Agree(s, t, m) && LineLength(s) < m
    ensures LineLength(t) == LineLength(s)
    decreases |s|
  {
    if s[0] != '\n' {
      AgreeDrop(s, t, m, 1);
      LineLengthIsLocal(s[1..], t[1..], m - 1);
    }
  }

  lemma {:induction false} BlockLengthIsLocal(s: string, t: string, m: nat)
    requires Agree(s, t, m) && BlockLength(s) < m
    ensures BlockLength(t) == BlockLength(s)
    decreases |s|
  {
    if |s| < 2 {
    } else {
      if !(s[0] == '*' && s[1] == '/') {
        AgreeDrop(s, t, m, 1);
        BlockLengthIsLocal(s[1..], t[1..], m - 1);
      }
    }
  }

  lemma {:induction false} NumberLengthIsLocal(s: string, t: string, m: nat)
    requires Agree(s, t, m) && NumberLength(s) < m
    ensures NumberLength(t) == NumberLength(s)
    decreases |s|
  {
    if IsNumberPart(s[0]) {
      AgreeDrop(s, t, m, 1);
      NumberLengthIsLocal(s[1..], t[1..], m - 1);
    }
  }

  /** A construct is decided by its own characters and the one behind it. */
  lemma TokenIsLocal(s: string, t: string, afterIdent: bool, m: nat)
    requires s != [] && t != [] && Agree(s, t, m) && TokenLength(s, afterIdent) < m
    ensures TokenLength(t, afterIdent) == TokenLength(s, afterIdent)
        && TokenText(t, afterIdent) == TokenText(s, afterIdent)
    ensures EndsIdent(t, afterIdent) == EndsIdent(s, afterIdent)
  {
    if s[0] == '\'' || s[0] == '"' {
      AgreeDrop(s, t, m, 1);
      QuoteLengthIsLocal(s[1..], t[1..], s[0], m - 1);
      assert s[..TokenLength(s, afterIdent)] == s[..m][..TokenLength(s, afterIdent)];
      assert t[..TokenLength(s, afterIdent)] == t[..m][..TokenLength(s, afterIdent)];
    } else if StartsLineComment(s) {
      LineLengthIsLocal(s, t, m);
    } else if StartsBlockComment(s) {
      AgreeDrop(s, t, m, 2);
      BlockLengthIsLocal(s[2..], t[2..], m - 2);
    } else if StartsNumber(s, afterIdent) {
      NumberLengthIsLocal(s, t, m);
    }
  }

  /** The span closes where its last quote stands, whatever is inside. */
  lemma {:induction false} SpanLength(contents: string, quote: char, rest: string)
    ensures QuoteLength(Doubled(contents, quote) + rest, quote) ==
        |Doubled(contents, quote)| + QuoteLength(rest, quote)
  {
    var s := Doubled(contents, quote) + rest;
    if contents == [] {
      assert s == rest;
    } else {
      SpanLength(contents[1..], quote, rest);
      if contents[0] == quote {
        assert s[2..] == Doubled(contents[1..], quote) + rest;
      } else {
        assert s[1..] == Doubled(contents[1..], quote) + rest;
      }
    }
  }

  lemma LiteralTokenLength(contents: string, suffix: string, afterIdent: bool)
    ensures TokenLength(Literal(contents) + suffix, afterIdent) == 1 + |Doubled(contents, '\'')|
        + QuoteLength("'" + suffix, '\'')
  {
    assert (Literal(contents) + suffix)[1..] == Doubled(contents, '\'') + ("'" + suffix);
    SpanLength(contents, '\'', "'" + suffix);
  }

  lemma QuoteScans(front: string, rest: string, n: nat, afterIdent: bool)
    requires front != [] && front[0] == '\'' && n <= |rest| && TokenLength(front + rest, afterIdent) == |front| + n
    ensures Scan(front + rest, afterIdent) == "?" + Scan(rest[n..], false)
  {
    var s := front + rest;
    assert s[|front| + n..] == rest[n..];
    assert Scan(s, afterIdent) == "?" + Scan(s[TokenLength(s, afterIdent)..], false);
  }

  lemma LiteralScans(contents: string, suffix: string, afterIdent: bool)
    ensures var n := QuoteLength("'" + suffix, '\'');
            Scan(Literal(contents) + suffix, afterIdent) == "?" + Scan(("'" + suffix)[n..], false)
  {
    var s := Literal(contents) + suffix;
    var front := "'" + Doubled(contents, '\'');
    var n := QuoteLength("'" + suffix, '\'');
    LiteralTokenLength(contents, suffix, afterIdent);
    assert s == front + ("'" + suffix);
    QuoteScans(front, "'" + suffix, n, afterIdent);
  }

  /** Two continuations that start with a quote and scan alike make the whole texts scan alike. */
  lemma {:induction false} ScansAlike(prefix: string, x: string, y: string, afterIdent: bool)
    requires x != [] && y != [] && x[0] == y[0] == '\'' && Scan(x, true) == Scan(y, true)
        && Scan(x, false) == Scan(y, false)
    requires Boundary(prefix + x, afterIdent, |prefix|)
    ensures Scan(prefix + x, afterIdent) == Scan(prefix + y, afterIdent)
    decreases |prefix|
  {
    var s, t := prefix + x, prefix + y;
    if prefix == [] {
      assert s == x && t == y;
    } else {
      var m := |prefix| + 1;
      assert s[..m] == prefix + "'" && t[..m] == prefix + "'";
      var n := TokenLength(s, afterIdent);
      TokenIsLocal(s, t, afterIdent, m);
      assert s[n..] == prefix[n..] + x && t[n..] == prefix[n..] + y;
      ScansAlike(prefix[n..], x, y, EndsIdent(s, afterIdent));
    }
  }

  /** Changing the contents of a string literal that the scanner meets as one never changes the result. */
  lemma LiteralsAreHidden(prefix: string, a: string, b: string, suffix: string)
    requires Boundary(prefix + (Literal(a) + suffix), false, |prefix|)
    ensures Redacted(prefix + (Literal(a) + suffix)) == Redacted(prefix + (Literal(b) + suffix))
  {
    LiteralScans(a, suffix, true);
    LiteralScans(a, suffix, false);
    LiteralScans(b, suffix, true);
    LiteralScans(b, suffix, false);
    ScansAlike(prefix, Literal(a) + suffix, Literal(b) + suffix, false);
  }

  // ---------------------------------------------------------------------------------------------
  // The implementation
  // ---------------------------------------------------------------------------------------------

  /** Moves past a quoted span, from behind its opening quote. */
  method SkipQuoted(sql: string, quote: char, start: nat) returns (i: nat)
    requires start <= |sql|
    ensures i == start + QuoteLength(sql[start..], quote)
  {
    i := start;
    while i < |sql|
      invariant start <= i <= |sql|
      invariant start + QuoteLength(sql[start..], quote) == i + QuoteLength(sql[i..], quote)
    {
      if sql[i] == quote {
        if i + 1 < |sql| && sql[i + 1] == quote {
          assert sql[i..][2..] == sql[i + 2..];
          i := i + 2;
          continue;
        }
        i := i + 1;
        break;
      }
      assert sql[i..][1..] == sql[i + 1..];
      i := i + 1;
    }
  }

  method SkipLine(sql: string, start: nat) returns (i: nat)
    requires start <= |sql|
    ensures i == start + LineLength(sql[start..])
  {
    i := start;
    while i < |sql| && sql[i] != '\n'
      invariant start <= i <= |sql|
      invariant start + LineLength(sql[start..]) == i + LineLength(sql[i..])
    {
      assert sql[i..][1..] == sql[i + 1..];
      i := i + 1;
    }
  }

  /** The position behind the first comment end, or the end of the text. */
  method FindBlockEnd(sql: string, start: nat) returns (i: nat)
    requires start <= |sql|
    ensures i == start + BlockLength(sql[start..])
  {
    i := start;
    while i + 1 < |sql| && !(sql[i] == '*' && sql[i + 1] == '/')
      invariant start <= i <= |sql|
      invariant start + BlockLength(sql[start..]) == i + BlockLength(sql[i..])
    {
      assert sql[i..][1..] == sql[i + 1..];
      i := i + 1;
    }
    i := if i + 1 < |sql| then i + 2 else |sql|;
  }

  method SkipNumber(sql: string, start: nat) returns (i: nat)
    requires start <= |sql|
    ensures i == start + NumberLength(sql[start..])
  {
    i := start;
    while i < |sql| && IsNumberPart(sql[i])
      invariant start <= i <= |sql|
      invariant start + NumberLength(sql[start..]) == i + NumberLength(sql[i..])
    {
      assert sql[i..][1..] == sql[i + 1..];
      i := i + 1;
    }
  }

  predicate LastIsIdent(out: string)
  {
    out != [] && IsIdent(out[|out| - 1])
  }

  /** One construct: its text, and the position behind it. */
  method ScanToken(sql: string, start: nat, out: string) returns (text: string, i: nat)
    requires start < |sql|
    ensures i == start + TokenLength(sql[start..], LastIsIdent(out))
        && text == TokenText(sql[start..], LastIsIdent(out))
  {
    var ch := sql[start];
    if ch == '\'' {
      i := SkipQuoted(sql, '\'', start + 1);
      text := "?";
    } else if ch == '"' {
      i := SkipQuoted(sql, '"', start + 1);
      text := sql[start..i];
    } else if ch == '-' && start + 1 < |sql| && sql[start + 1] == '-' {
      i := SkipLine(sql, start);
      text := " ";
    } else if ch == '/' && start + 1 < |sql| && sql[start + 1] == '*' {
      i := FindBlockEnd(sql, start + 2);
      text := " ";
    } else if IsDigit(ch) && !LastIsIdent(out) {
      i := SkipNumber(sql, start);
      text := "?";
    } else {
      text, i := [ch], start + 1;
    }
    assert sql[start..][1..] == sql[start + 1..];
    assert start + 1 < |sql| ==> sql[start..][2..] == sql[start + 2..];
  }

  method RedactSqlLiterals(sql: string) returns (redacted: string)
    ensures redacted == Redacted(sql)
  {
    var out, i := "", 0;
    while i < |sql|
      invariant i <= |sql|
      invariant Scan(sql, false) == out + Scan(sql[i..], LastIsIdent(out))
      decreases |sql| - i
    {
      var text, next := ScanToken(sql, i, out);
      ScanStep(sql, i, out, text, next);
      out := out + text;
      i := next;
    }
    assert sql[i..] == [] && out + [] == out;
    redacted := Trim(out);
  }

  /** The scanner may go by the last character of the output instead of what the construct was. */
  lemma ScanByOutput(s: string, afterIdent: bool)
    requires s != []
    ensures var text := TokenText(s, afterIdent);
            Scan(s, afterIdent) == text + Scan(s[TokenLength(s, afterIdent)..], LastIsIdent(text))
  {
    var n := TokenLength(s, afterIdent);
    if n < |s| {
      LastOfToken(s, afterIdent);
    } else {
      assert s[n..] == [];
    }
  }

  lemma Regroup(out: string, text: string, tail: string)
    ensures out + (text + tail) == (out + text) + tail
  {
  }

  lemma ScanStep(sql: string, i: nat, out: string, text: string, next: nat)
    requires i < |sql| && Scan(sql, false) == out + Scan(sql[i..], LastIsIdent(out))
    requires next == i + TokenLength(sql[i..], LastIsIdent(out)) && text == TokenText(sql[i..], LastIsIdent(out))
    ensures Scan(sql, false) == (out + text) + Scan(sql[next..], LastIsIdent(out + text))
  {
    ScanByOutput(sql[i..], LastIsIdent(out));
    assert sql[i..][next - i..] == sql[next..];
    Regroup(out, text, Scan(sql[next..], LastIsIdent(text)));
  }

  /** Unless it runs to the end of the text, a construct ends in an identifier character only if it is one. */
  lemma LastOfToken(s: string, afterIdent: bool)
    requires s != [] && TokenLength(s, afterIdent) < |s|
    ensures LastIsIdent(TokenText(s, afterIdent)) == EndsIdent(s, afterIdent)
  {
    if s[0] == '"' {
      QuotedEndsInQuote(s[1..], '"');
    }
  }

  lemma {:induction false} QuotedEndsInQuote(s: string, quote: char)
    requires QuoteLength(s, quote) < |s|
    ensures 0 < QuoteLength(s, quote) && s[QuoteLength(s, quote) - 1] == quote
    decreases |s|
  {
    if s[0] != quote {
      QuotedEndsInQuote(s[1..], quote);
    } else if 1 < |s| && s[1] == quote {
      QuotedEndsInQuote(s[2..], quote);
    }
  }
}
