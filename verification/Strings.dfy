/** Characters and strings: letters, white space, letter case, trimming, splitting and joining. */
module Strings {

  predicate IsLetter(c: char) { 'A' <= c <= 'Z' || 'a' <= c <= 'z' }
  predicate IsDigit(c: char) { '0' <= c <= '9' }

  /** What trimming removes: ASCII white space and the Unicode spaces and line ends of the ECMAScript standard. */
  predicate IsSpace(c: char)
  {
    c in {'\t', '\n', '\U{0B}', '\U{0C}', '\r', ' ', '\U{A0}', '\U{1680}', '\U{2028}', '\U{2029}', '\U{202F}',
      '\U{205F}', '\U{3000}', '\U{FEFF}'}
      || '\U{2000}' <= c <= '\U{200A}'
  }

  /** Characters that a dot in a regular expression does not match. */
  predicate IsLineEnd(c: char)
  {
    c in {'\n', '\r', '\U{2028}', '\U{2029}'}
  }

  function Lower(c: char): char
  {
    if 'A' <= c <= 'Z' then c - 'A' + 'a' else c
  }

  function ToLower(s: string): string
  {
    seq(|s|, i requires 0 <= i < |s| => Lower(s[i]))
  }

  lemma LowerJoins(a: string, b: string)
    ensures ToLower(a + b) == ToLower(a) + ToLower(b)
  {
  }

  lemma LowerTwice(s: string)
    ensures ToLower(ToLower(s)) == ToLower(s)
  {
  }

  function Upper(c: char): char
  {
    if 'a' <= c <= 'z' then c - 'a' + 'A' else c
  }

  function ToUpper(s: string): string
  {
    seq(|s|, i requires 0 <= i < |s| => Upper(s[i]))
  }

  function TrimStart(s: string): string
  {
    if s != [] && IsSpace(s[0]) then TrimStart(s[1..]) else s
  }

  function TrimEnd(s: string): string
  {
    if s != [] && IsSpace(s[|s| - 1]) then TrimEnd(s[..|s| - 1]) else s
  }

  function Trim(s: string): string
  {
    TrimEnd(TrimStart(s))
  }

  lemma {:induction false} TrimEndIsPrefix(s: string)
    ensures |TrimEnd(s)| <= |s| && TrimEnd(s) == s[..|TrimEnd(s)|]
    ensures TrimEnd(s) == [] || !IsSpace(TrimEnd(s)[|TrimEnd(s)| - 1])
  {
    if s != [] && IsSpace(s[|s| - 1]) {
      TrimEndIsPrefix(s[..|s| - 1]);
    }
  }

  lemma {:induction false} TrimStartStarts(s: string)
    ensures TrimStart(s) == [] || !IsSpace(TrimStart(s)[0])
  {
    if s != [] && IsSpace(s[0]) {
      TrimStartStarts(s[1..]);
    }
  }

  lemma TrimTwice(s: string)
    ensures Trim(Trim(s)) == Trim(s)
  {
    TrimStartStarts(s);
    TrimEndIsPrefix(TrimStart(s));
  }

  predicate AllSpaces(s: string)
  {
    forall i | 0 <= i < |s| :: IsSpace(s[i])
  }

  /** Trimming takes the white space off both ends and nothing else. */
  lemma TrimTakesSpaces(s: string) returns (front: string, back: string)
    ensures s == front + Trim(s) + back && AllSpaces(front) && AllSpaces(back)
    ensures Trim(s) != [] ==> !IsSpace(Trim(s)[0]) && !IsSpace(Trim(s)[|Trim(s)| - 1])
  {
    front := TrimStartTakesSpaces(s);
    back := TrimEndTakesSpaces(TrimStart(s));
    TrimStartStarts(s);
    TrimEndIsPrefix(TrimStart(s));
  }

  lemma {:induction false} TrimStartTakesSpaces(s: string) returns (front: string)
    ensures s == front + TrimStart(s) && AllSpaces(front)
  {
    front := [];
    if s != [] && IsSpace(s[0]) {
      var rest := TrimStartTakesSpaces(s[1..]);
      front := [s[0]] + rest;
    }
  }

  lemma {:induction false} TrimEndTakesSpaces(s: string) returns (back: string)
    ensures s == TrimEnd(s) + back && AllSpaces(back)
  {
    back := [];
    if s != [] && IsSpace(s[|s| - 1]) {
      var rest := TrimEndTakesSpaces(s[..|s| - 1]);
      back := rest + [s[|s| - 1]];
    }
  }

  /** Pieces of `s` between occurrences of `separator`. */
  function Split(s: string, separator: char): (parts: seq<string>)
    ensures parts != []
  {
    if s == [] then [[]]
    else
      var rest := Split(s[1..], separator);
      if s[0] == separator then [[]] + rest else [[s[0]] + rest[0]] + rest[1..]
  }

  lemma {:induction false} SplitNone(s: string, separator: char)
    requires separator !in s
    ensures Split(s, separator) == [s]
  {
    if s != [] {
      assert s[0] in s && s == [s[0]] + s[1..];
      SplitNone(s[1..], separator);
    }
  }

  /** Splitting around a separator splits what is on either side. */
  lemma {:induction false} SplitAround(front: string, back: string, separator: char)
    ensures Split(front + [separator] + back, separator) == Split(front, separator) + Split(back, separator)
  {
    var s := front + [separator] + back;
    if front == [] {
      assert s[1..] == back;
    } else {
      assert s[1..] == front[1..] + [separator] + back;
      SplitAround(front[1..], back, separator);
    }
  }

  /** Splitting what a separator joins gives the pieces back. */
  lemma SplitJoined(front: string, back: string, separator: char)
    requires separator !in front
    ensures Split(front + [separator] + back, separator) == [front] + Split(back, separator)
  {
    SplitAround(front, back, separator);
    SplitNone(front, separator);
  }

  /** A text that splits in two is the two pieces around the separator. */
  lemma {:induction false} SplitPieces(s: string, separator: char)
    ensures |Split(s, separator)| == 1 ==> s == Split(s, separator)[0]
    ensures |Split(s, separator)| == 2 ==> s == Split(s, separator)[0] + [separator] + Split(s, separator)[1]
  {
    if s != [] {
      SplitPieces(s[1..], separator);
      assert s == [s[0]] + s[1..];
    }
  }

  function Join(parts: seq<string>, separator: char): string
  {
    if parts == [] then [] else if |parts| == 1 then parts[0] else parts[0] + [separator] + Join(parts[1..], separator)
  }

  /** The pieces of all parts, one part after the other. */
  function Pieces(parts: seq<string>, separator: char): seq<string>
  {
    if parts == [] then [] else Split(parts[0], separator) + Pieces(parts[1..], separator)
  }

  lemma {:induction false} JoinedPieces(parts: seq<string>, separator: char)
    requires parts != []
    ensures Split(Join(parts, separator), separator) == Pieces(parts, separator)
  {
    if 1 < |parts| {
      JoinedPieces(parts[1..], separator);
      SplitAround(parts[0], Join(parts[1..], separator), separator);
    }
  }

  /** Parts without the separator are their own pieces. */
  lemma {:induction false} PlainPieces(parts: seq<string>, separator: char)
    requires forall i | 0 <= i < |parts| :: separator !in parts[i]
    ensures Pieces(parts, separator) == parts
  {
    if parts != [] {
      SplitNone(parts[0], separator);
      PlainPieces(parts[1..], separator);
      assert parts == [parts[0]] + parts[1..];
    }
  }

  /** Joining the pieces of a text gives it back. */
  lemma {:induction false} JoinUndoesSplit(s: string, separator: char)
    ensures Join(Split(s, separator), separator) == s
  {
    if s != [] {
      var rest := Split(s[1..], separator);
      JoinUndoesSplit(s[1..], separator);
      if s[0] != separator {
        assert ([[s[0]] + rest[0]] + rest[1..])[1..] == rest[1..];
      }
    }
  }

  /** Joined parts without the separator split into themselves. */
  lemma JoinSplits(parts: seq<string>, separator: char)
    requires parts != [] && forall i | 0 <= i < |parts| :: separator !in parts[i]
    ensures Split(Join(parts, separator), separator) == parts
  {
    JoinedPieces(parts, separator);
    PlainPieces(parts, separator);
  }
}
