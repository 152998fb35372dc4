/** The constructs of SQL text that redaction tells apart, as a grammar, and what becomes of each. */
module RedactionGrammar {
  import opened SqlRedaction
  import opened Strings

  /** Quoted spans and block comments are closed, or run to the end of the text. */
  datatype Piece =
    | Quoted(quote: char, contents: string, closed: bool)
    | LineComment(text: string)
    | BlockComment(text: string, closed: bool)
    | Number(text: string)
    | Other(c: char)

  function Text(p: Piece): (t: string)
    ensures p.Number? || t != []
  {
    match p
    case Quoted(quote, contents, closed) => [quote] + (Doubled(contents, quote) + if closed then [quote] else [])
    case LineComment(text) => "--" + text
    case BlockComment(text, closed) => "/*" + (text + if closed then "*/" else "")
    case Number(text) => text
    case Other(c) => [c]
  }

  /** String literals and numbers become question marks, comments blanks; quoted names and all else stay. */
  function Shown(p: Piece): string
  {
    match p
    case Quoted(quote, _, _) => if quote == '"' then Text(p) else "?"
    case LineComment(_) => " "
    case BlockComment(_, _) => " "
    case Number(_) => "?"
    case Other(c) => [c]
  }

  predicate StartsWithChar(s: string, c: char)
  {
    s != [] && s[0] == c
  }

  predicate EndsComment(s: string, i: nat)
  {
    i + 1 < |s| && s[i] == '*' && s[i + 1] == '/'
  }

  predicate HasCommentEnd(s: string, before: nat)
  {
    exists i: nat :: i < before && EndsComment(s, i)
  }

  /** The piece is well formed and ends in front of this text. Behind an identifier character a digit
      belongs to the identifier. */
  predicate Fits(p: Piece, afterIdent: bool, rest: string)
  {
    match p
    case Quoted(quote, _, closed) =>
      quote in {'\'', '"'} && if closed then !StartsWithChar(rest, quote) else rest == []
    case LineComment(text) => '\n' !in text && (rest == [] || rest[0] == '\n')
    case BlockComment(text, closed) =>
      if closed then !HasCommentEnd(text + "*/", |text|) else rest == [] && !HasCommentEnd(text, |text|)
    case Number(text) =>
      && !afterIdent && text != [] && IsDigit(text[0])
      && (forall c | c in text :: IsLetter(c) || IsDigit(c) || c in {'_', '.'})
      && (rest != [] ==> !(IsLetter(rest[0]) || IsDigit(rest[0]) || rest[0] in {'_', '.'}))
    case Other(c) =>
      && c !in {'\'', '"'} && (IsDigit(c) ==> afterIdent)
      && !(c == '-' && StartsWithChar(rest, '-')) && !(c == '/' && StartsWithChar(rest, '*'))
  }

  predicate EndsInIdent(p: Piece)
  {
    p.Other? && (IsLetter(p.c) || IsDigit(p.c) || p.c in {'_', '$'})
  }

  function Written(pieces: seq<Piece>): string
  {
    if pieces == [] then [] else Text(pieces[0]) + Written(pieces[1..])
  }

  function Redaction(pieces: seq<Piece>): string
  {
    if pieces == [] then [] else Shown(pieces[0]) + Redaction(pieces[1..])
  }

  /** Every piece fits in front of what is written behind it. */
  predicate Reads(pieces: seq<Piece>, afterIdent: bool)
  {
    pieces == [] || (
      && Fits(pieces[0], afterIdent, Written(pieces[1..]))
      && Reads(pieces[1..], EndsInIdent(pieces[0])))
  }

  // ---------------------------------------------------------------------------------------------
  // The scanner meets the pieces
  // ---------------------------------------------------------------------------------------------

  lemma {:induction false} LineEnds(text: string, rest: string)
    requires '\n' !in text && (rest == [] || rest[0] == '\n')
    ensures LineLength(text + rest) == |text|
  {
    if text == [] {
      assert text + rest == rest;
    } else {
      assert text[0] in text && (text + rest)[1..] == text[1..] + rest;
      LineEnds(text[1..], rest);
    }
  }

  lemma {:induction false} NumberEnds(text: string, rest: string)
    requires forall c | c in text :: IsNumberPart(c)
    requires rest != [] ==> !IsNumberPart(rest[0])
    ensures NumberLength(text + rest) == |text|
  {
    if text == [] {
      assert text + rest == rest;
    } else {
      assert text[0] in text && (text + rest)[1..] == text[1..] + rest;
      NumberEnds(text[1..], rest);
    }
  }

  lemma {:induction false} BlockEnds(s: string, n: nat)
    requires !HasCommentEnd(s, n) && EndsComment(s, n)
    ensures BlockLength(s) == n + 2
  {
    if 0 < n {
      assert !EndsComment(s, 0);
      assert forall i: nat :: EndsComment(s[1..], i) <==> EndsComment(s, i + 1);
      BlockEnds(s[1..], n - 1);
    }
  }

  lemma {:induction false} BlockStaysOpen(s: string)
    requires !HasCommentEnd(s, |s|)
    ensures BlockLength(s) == |s|
  {
    if 2 <= |s| {
      assert !EndsComment(s, 0);
      assert forall i: nat :: EndsComment(s[1..], i) <==> EndsComment(s, i + 1);
      BlockStaysOpen(s[1..]);
    }
  }

  lemma QuotedLength(p: Piece, afterIdent: bool, rest: string)
    requires p.Quoted? && Fits(p, afterIdent, rest)
    ensures QuoteLength((Text(p) + rest)[1..], p.quote) == |Text(p)| - 1
  {
    var tail := (if p.closed then [p.quote] else []) + rest;
    assert (Text(p) + rest)[1..] == Doubled(p.contents, p.quote) + tail;
    SpanLength(p.contents, p.quote, tail);
    assert p.closed ==> tail[1..] == rest;
    assert QuoteLength(tail, p.quote) == if p.closed then 1 else 0;
  }

  lemma QuotedToken(p: Piece, afterIdent: bool, rest: string)
    requires p.Quoted? && Fits(p, afterIdent, rest)
    ensures TokenLength(Text(p) + rest, afterIdent) == |Text(p)| && TokenText(Text(p) + rest, afterIdent) == Shown(p)
  {
    var s := Text(p) + rest;
    QuotedLength(p, afterIdent, rest);
    assert s[0] == p.quote && s[..|Text(p)|] == Text(p);
  }

  lemma BlockToken(p: Piece, afterIdent: bool, rest: string)
    requires p.BlockComment? && Fits(p, afterIdent, rest)
    ensures TokenLength(Text(p) + rest, afterIdent) == |Text(p)|
  {
    var s := Text(p) + rest;
    if p.closed {
      var t := p.text + "*/" + rest;
      assert s[2..] == t;
      assert forall i: nat | i < |p.text| :: EndsComment(t, i) <==> EndsComment(p.text + "*/", i);
      BlockEnds(t, |p.text|);
    } else {
      assert s[2..] == p.text;
      BlockStaysOpen(p.text);
    }
  }

  /** In front of a piece the scanner takes the whole piece and nothing else, and shows what it becomes. */
  lemma TokenOfPiece(p: Piece, afterIdent: bool, rest: string)
    requires Fits(p, afterIdent, rest)
    ensures var s := Text(p) + rest;
      && s != [] && TokenLength(s, afterIdent) == |Text(p)| && TokenText(s, afterIdent) == Shown(p)
      && EndsIdent(s, afterIdent) == EndsInIdent(p)
  {
    var s := Text(p) + rest;
    match p
    case Quoted(_, _, _) => QuotedToken(p, afterIdent, rest);
    case LineComment(text) =>
      assert forall c | c in "--" + text :: c in "--" || c in text;
      LineEnds("--" + text, rest);
    case BlockComment(_, _) => BlockToken(p, afterIdent, rest);
    case Number(text) => NumberEnds(text, rest);
    case Other(_) =>
  }

  /** Text that reads as a list of pieces is redacted piece by piece. */
  lemma {:induction false} PiecesAreRedacted(pieces: seq<Piece>, afterIdent: bool)
    requires Reads(pieces, afterIdent)
    ensures Scan(Written(pieces), afterIdent) == Redaction(pieces)
    decreases |pieces|
  {
    if pieces != [] {
      var p, rest := pieces[0], Written(pieces[1..]);
      TokenOfPiece(p, afterIdent, rest);
      DropFront(Text(p), rest);
      PiecesAreRedacted(pieces[1..], EndsInIdent(p));
    }
  }

  // ---------------------------------------------------------------------------------------------
  // Every text reads as pieces
  // ---------------------------------------------------------------------------------------------

  /** What stands in a quoted span, from behind its opening quote. */
  lemma {:induction false} ContentsOf(s: string, quote: char) returns (contents: string, closed: bool)
    ensures var n := QuoteLength(s, quote);
      && s[..n] == Doubled(contents, quote) + (if closed then [quote] else [])
      && if closed then !StartsWithChar(s[n..], quote) else n == |s|
    decreases |s|
  {
    if s == [] {
      contents, closed := [], false;
    } else if s[0] != quote {
      var more;
      more, closed := ContentsOf(s[1..], quote);
      contents := [s[0]] + more;
      assert s[..QuoteLength(s, quote)] == [s[0]] + s[1..][..QuoteLength(s[1..], quote)];
    } else if 1 < |s| && s[1] == quote {
      var more;
      more, closed := ContentsOf(s[2..], quote);
      contents := [quote] + more;
      assert s[..QuoteLength(s, quote)] == [quote, quote] + s[2..][..QuoteLength(s[2..], quote)];
    } else {
      contents, closed := [], true;
    }
  }

  /** What stands in a block comment, from behind its start. */
  lemma {:induction false} CommentOf(s: string) returns (text: string, closed: bool)
    ensures s[..BlockLength(s)] == text + (if closed then "*/" else "")
    ensures !HasCommentEnd(s[..BlockLength(s)], |text|) && (closed || BlockLength(s) == |s|)
  {
    if |s| < 2 {
      text, closed := s, false;
    } else if EndsComment(s, 0) {
      text, closed := [], true;
    } else {
      var more;
      more, closed := CommentOf(s[1..]);
      text := [s[0]] + more;
      CommentGrows(s, |more|);
      assert s[..BlockLength(s)] == [s[0]] + s[1..][..BlockLength(s[1..])];
    }
  }

  lemma CommentGrows(s: string, before: nat)
    requires 2 <= |s| && !EndsComment(s, 0) && !HasCommentEnd(s[1..][..BlockLength(s[1..])], before)
    ensures !HasCommentEnd(s[..BlockLength(s)], before + 1)
  {
    var whole, rest := s[..BlockLength(s)], s[1..][..BlockLength(s[1..])];
    forall i: nat | i < before + 1 ensures !EndsComment(whole, i) {
      if 0 < i {
        assert EndsComment(whole, i) <==> EndsComment(rest, i - 1);
      }
    }
  }

  lemma {:induction false} LineStops(s: string)
    ensures '\n' !in s[..LineLength(s)]
    ensures LineLength(s) < |s| ==> s[LineLength(s)] == '\n'
  {
    if s != [] && s[0] != '\n' {
      LineStops(s[1..]);
      assert s[..LineLength(s)] == [s[0]] + s[1..][..LineLength(s[1..])];
    }
  }

  lemma {:induction false} NumberStops(s: string)
    ensures forall c | c in s[..NumberLength(s)] :: IsNumberPart(c)
    ensures NumberLength(s) < |s| ==> !IsNumberPart(s[NumberLength(s)])
  {
    if s != [] && IsNumberPart(s[0]) {
      NumberStops(s[1..]);
      assert s[..NumberLength(s)] == [s[0]] + s[1..][..NumberLength(s[1..])];
    }
  }

  lemma QuotedPiece(s: string) returns (p: Piece)
    requires s != [] && s[0] in {'\'', '"'}
    ensures var n := 1 + QuoteLength(s[1..], s[0]);
      p.Quoted? && Text(p) == s[..n] && forall afterIdent :: Fits(p, afterIdent, s[n..])
  {
    var n := 1 + QuoteLength(s[1..], s[0]);
    var contents, closed := ContentsOf(s[1..], s[0]);
    p := Quoted(s[0], contents, closed);
    assert s[..n] == [s[0]] + s[1..][..n - 1] && s[n..] == s[1..][n - 1..];
  }

  lemma LinePiece(s: string) returns (p: Piece)
    requires StartsLineComment(s)
    ensures var n := LineLength(s);
      p.LineComment? && Text(p) == s[..n] && forall afterIdent :: Fits(p, afterIdent, s[n..])
  {
    var n := LineLength(s);
    LineStops(s);
    assert n == 1 + LineLength(s[1..]) && s[1..][0] == '-';
    p := LineComment(s[2..n]);
    assert s[..n] == "--" + s[2..n];
    assert forall c | c in s[2..n] :: c in s[..n];
  }

  lemma BlockPiece(s: string) returns (p: Piece)
    requires StartsBlockComment(s)
    ensures var n := 2 + BlockLength(s[2..]);
      p.BlockComment? && Text(p) == s[..n] && forall afterIdent :: Fits(p, afterIdent, s[n..])
  {
    var n := 2 + BlockLength(s[2..]);
    var text, closed := CommentOf(s[2..]);
    p := BlockComment(text, closed);
    assert text + [] == text;
    assert s[..n] == "/*" + s[2..][..n - 2] && s[n..] == s[2..][n - 2..];
  }

  lemma NumberPiece(s: string) returns (p: Piece)
    requires StartsNumber(s, false)
    ensures p == Number(s[..NumberLength(s)]) && Fits(p, false, s[NumberLength(s)..])
  {
    NumberStops(s);
    p := Number(s[..NumberLength(s)]);
  }

  /** The construct the scanner meets is a piece. */
  lemma PieceOf(s: string, afterIdent: bool) returns (p: Piece)
    requires s != []
    ensures var n := TokenLength(s, afterIdent);
      Text(p) == s[..n] && Fits(p, afterIdent, s[n..])
  {
    if s[0] == '\'' || s[0] == '"' {
      p := QuotedPiece(s);
    } else if StartsLineComment(s) {
      p := LinePiece(s);
    } else if StartsBlockComment(s) {
      p := BlockPiece(s);
    } else if StartsNumber(s, afterIdent) {
      p := NumberPiece(s);
    } else {
      p := Other(s[0]);
    }
  }

  /** Every text is written in pieces in this way, so the grammar says what every text becomes. */
  lemma {:induction false} EveryTextReads(s: string, afterIdent: bool) returns (pieces: seq<Piece>)
    ensures Written(pieces) == s && Reads(pieces, afterIdent)
    decreases |s|
  {
    if s == [] {
      pieces := [];
    } else {
      var n := TokenLength(s, afterIdent);
      var p := PieceOf(s, afterIdent);
      assert s == Text(p) + s[n..];
      TokenOfPiece(p, afterIdent, s[n..]);
      var more := EveryTextReads(s[n..], EndsInIdent(p));
      pieces := [p] + more;
    }
  }

  /** The redaction of a text is that of its pieces, without the white space around. */
  lemma RedactedByPieces(sql: string) returns (pieces: seq<Piece>)
    ensures Written(pieces) == sql && Reads(pieces, false) && Redacted(sql) == Trim(Redaction(pieces))
  {
    pieces := EveryTextReads(sql, false);
    PiecesAreRedacted(pieces, false);
  }
}
