/** Asset ids: segments escaped and joined with dots, and read back. */
module AssetId {
  import opened Strings
  import opened Wrappers

  datatype AssetKind = CatalogAsset | SchemaAsset | TableAsset | TopicAsset

  function KindText(k: AssetKind): string
  {
    match k case CatalogAsset => "catalog" case SchemaAsset => "schema" case TableAsset => "table"
      case TopicAsset => "topic"
  }

  // ---------------------------------------------------------------------------------------------
  // Escaping
  // ---------------------------------------------------------------------------------------------

  /** Replaces every occurrence of a character. */
  function ReplaceChar(s: string, c: char, replacement: string): string
  {
    if s == [] then [] else (if s[0] == c then replacement else [s[0]]) + ReplaceChar(s[1..], c, replacement)
  }

  /** Replaces every occurrence of a three-letter escape, left to right. */
  function ReplaceEscape(s: string, escape: string, replacement: char): string
    requires |escape| == 3
    decreases |s|
  {
    if s == [] then []
    else if 3 <= |s| && s[..3] == escape then [replacement] + ReplaceEscape(s[3..], escape, replacement)
    else [s[0]] + ReplaceEscape(s[1..], escape, replacement)
  }

  function EncodeIdSegment(segment: string): string
  {
    ReplaceChar(ReplaceChar(segment, '%', "%25"), '.', "%2E")
  }

  function DecodeIdSegment(segment: string): string
  {
    ReplaceEscape(ReplaceEscape(segment, "%2E", '.'), "%25", '%')
  }

  lemma {:induction false} ReplaceCharJoins(a: string, b: string, c: char, replacement: string)
    ensures ReplaceChar(a + b, c, replacement) == ReplaceChar(a, c, replacement) + ReplaceChar(b, c, replacement)
  {
    if a == [] {
      assert a + b == b;
    } else {
      assert (a + b)[1..] == a[1..] + b;
      ReplaceCharJoins(a[1..], b, c, replacement);
    }
  }

  /** Encoding goes character by character. */
  lemma EncodeStep(s: string)
    requires s != []
    ensures EncodeIdSegment(s) == (if s[0] == '%' then "%25" else if s[0] == '.' then "%2E" else [s[0]])
        + EncodeIdSegment(s[1..])
  {
    var head := if s[0] == '%' then "%25" else [s[0]];
    ReplaceCharJoins(head, ReplaceChar(s[1..], '%', "%25"), '.', "%2E");
    if s[0] == '%' {
      assert ReplaceChar("%25", '.', "%2E") == "%25" by {
        assert "%25"[1..] == "25" && "25"[1..] == "5" && "5"[1..] == "";
      }
    } else {
      assert [s[0]][1..] == [];
    }
  }

  lemma EscapeReplaced(escape: string, rest: string, replacement: char)
    requires |escape| == 3
    ensures ReplaceEscape(escape + rest, escape, replacement) == [replacement]
        + ReplaceEscape(rest, escape, replacement)
  {
    assert (escape + rest)[..3] == escape && (escape + rest)[3..] == rest;
  }

  lemma CharacterKept(c: char, rest: string, escape: string, replacement: char)
    requires |escape| == 3 && c != escape[0]
    ensures ReplaceEscape([c] + rest, escape, replacement) == [c] + ReplaceEscape(rest, escape, replacement)
  {
    assert ([c] + rest)[1..] == rest;
    assert 2 <= |rest| ==> ([c] + rest)[..3][0] == c;
  }

  /** The first pass of decoding undoes the second pass of encoding. */
  lemma {:induction false} DotsComeBack(s: string)
    ensures ReplaceEscape(EncodeIdSegment(s), "%2E", '.') == ReplaceChar(s, '%', "%25")
  {
    if s != [] {
      EncodeStep(s);
      DotsComeBack(s[1..]);
      var rest := EncodeIdSegment(s[1..]);
      if s[0] == '.' {
        EscapeReplaced("%2E", rest, '.');
      } else if s[0] == '%' {
        var t := "%25" + rest;
        assert t[..3] == "%25" && "%25"[2] != "%2E"[2];
        assert t[1..] == ['2'] + (['5'] + rest);
        CharacterKept('2', ['5'] + rest, "%2E", '.');
        CharacterKept('5', rest, "%2E", '.');
        assert "%25" == ['%'] + (['2'] + ['5']);
      } else {
        CharacterKept(s[0], rest, "%2E", '.');
      }
    }
  }

  lemma {:induction false} PercentsComeBack(s: string)
    ensures ReplaceEscape(ReplaceChar(s, '%', "%25"), "%25", '%') == s
  {
    if s != [] {
      PercentsComeBack(s[1..]);
      var rest := ReplaceChar(s[1..], '%', "%25");
      assert s == [s[0]] + s[1..];
      if s[0] == '%' {
        EscapeReplaced("%25", rest, '%');
      } else {
        CharacterKept(s[0], rest, "%25", '%');
      }
    }
  }

  /** Decoding undoes encoding, for every string. */
  lemma DecodeUndoesEncode(s: string)
    ensures DecodeIdSegment(EncodeIdSegment(s)) == s
  {
    DotsComeBack(s);
    PercentsComeBack(s);
  }

  lemma {:induction false} PlainTextIsKept(s: string)
    requires '%' !in s && '.' !in s
    ensures EncodeIdSegment(s) == s
  {
    if s != [] {
      EncodeStep(s);
      PlainTextIsKept(s[1..]);
      assert s == [s[0]] + s[1..];
    }
  }

  lemma EncodingJoins(a: string, b: string)
    ensures EncodeIdSegment(a + b) == EncodeIdSegment(a) + EncodeIdSegment(b)
  {
    ReplaceCharJoins(a, b, '%', "%25");
    ReplaceCharJoins(ReplaceChar(a, '%', "%25"), ReplaceChar(b, '%', "%25"), '.', "%2E");
  }

  /** Encoding escapes percent signs and dots and keeps all other text. */
  lemma EncodingEscapes(a: string, b: string)
    ensures EncodeIdSegment(a + "." + b) == EncodeIdSegment(a) + "%2E" + EncodeIdSegment(b)
    ensures EncodeIdSegment(a + "%" + b) == EncodeIdSegment(a) + "%25" + EncodeIdSegment(b)
    ensures '%' !in a && '.' !in a ==> EncodeIdSegment(a) == a
  {
    EncodeStep(".");
    EncodeStep("%");
    EncodingJoins(a + ".", b);
    EncodingJoins(a, ".");
    EncodingJoins(a + "%", b);
    EncodingJoins(a, "%");
    if '%' !in a && '.' !in a {
      PlainTextIsKept(a);
    }
  }

  // ---------------------------------------------------------------------------------------------
  // Ids
  // ---------------------------------------------------------------------------------------------

  function EncodeAll(segments: seq<string>): seq<string>
  {
    seq(|segments|, i requires 0 <= i < |segments| => EncodeIdSegment(segments[i]))
  }

  function DeriveAssetId(kind: AssetKind, segments: seq<string>): string
  {
    Prefix(kind) + Join(EncodeAll(segments), '.')
  }

  function Prefix(kind: AssetKind): string
  {
    "asset-" + KindText(kind) + "-"
  }

  lemma PrefixReads(kind: AssetKind)
    ensures kind == CatalogAsset ==> Prefix(kind) == "asset-catalog-"
    ensures kind == SchemaAsset ==> Prefix(kind) == "asset-schema-"
    ensures kind == TableAsset ==> Prefix(kind) == "asset-table-"
    ensures kind == TopicAsset ==> Prefix(kind) == "asset-topic-"
  {
  }

  lemma NamesAreJoined(kind: AssetKind, segments: seq<string>)
    requires forall i | 0 <= i < |segments| :: '%' !in segments[i] && '.' !in segments[i]
    ensures DeriveAssetId(kind, segments) == Prefix(kind) + Join(segments, '.')
  {
    forall i | 0 <= i < |segments| ensures EncodeIdSegment(segments[i]) == segments[i] {
      PlainTextIsKept(segments[i]);
    }
    assert EncodeAll(segments) == segments;
  }

  /** The id of an asset reads as its kind and its names. */
  lemma IdReads(kind: AssetKind, segments: seq<string>)
    requires forall i | 0 <= i < |segments| :: '%' !in segments[i] && '.' !in segments[i]
    ensures var id, names := DeriveAssetId(kind, segments), Join(segments, '.');
      && (kind == CatalogAsset ==> id == "asset-catalog-" + names)
      && (kind == SchemaAsset ==> id == "asset-schema-" + names)
      && (kind == TableAsset ==> id == "asset-table-" + names)
      && (kind == TopicAsset ==> id == "asset-topic-" + names)
  {
    PrefixReads(kind);
    NamesAreJoined(kind, segments);
  }

  lemma {:induction false} EncodedHasNoDot(s: string)
    ensures '.' !in EncodeIdSegment(s) && (EncodeIdSegment(s) == "" <==> s == "")
  {
    if s != [] {
      EncodeStep(s);
      EncodedHasNoDot(s[1..]);
    }
  }

  lemma SegmentsComeBack(segments: seq<string>)
    requires segments != []
    ensures var raw := Split(Join(EncodeAll(segments), '.'), '.');
            |raw| == |segments| && forall i | 0 <= i < |raw| ::
              raw[i] == EncodeIdSegment(segments[i]) && DecodeIdSegment(raw[i]) == segments[i]
  {
    forall i | 0 <= i < |segments|
        ensures '.' !in EncodeAll(segments)[i] && DecodeIdSegment(EncodeAll(segments)[i]) == segments[i] {
      EncodedHasNoDot(segments[i]);
      DecodeUndoesEncode(segments[i]);
    }
    JoinSplits(EncodeAll(segments), '.');
  }

  predicate StartsWith(s: string, prefix: string)
  {
    |prefix| <= |s| && s[..|prefix|] == prefix
  }

  lemma PrefixTellsKind(a: AssetKind, b: AssetKind, rest: string)
    ensures StartsWith(Prefix(a) + rest, Prefix(b)) <==> a == b
    ensures (Prefix(a) + rest)[|Prefix(a)|..] == rest
  {
    var id := Prefix(a) + rest;
    assert id[6] == KindText(a)[0] && id[7] == KindText(a)[1];
    if StartsWith(id, Prefix(b)) {
      assert id[6] == id[..|Prefix(b)|][6] == KindText(b)[0] && id[7] == id[..|Prefix(b)|][7] == KindText(b)[1];
    }
    assert id[..|Prefix(a)|] == Prefix(a);
  }

  lemma IdTellsKind(a: AssetKind, b: AssetKind, s: string, t: string)
    requires Prefix(a) + s == Prefix(b) + t
    ensures a == b && s == t
  {
    PrefixTellsKind(a, b, s);
    PrefixTellsKind(b, b, t);
  }

  /** Ids of different kinds or different non-empty segment lists are different. */
  lemma DeriveIsInjective(a: AssetKind, s: seq<string>, b: AssetKind, t: seq<string>)
    requires s != [] && t != [] && DeriveAssetId(a, s) == DeriveAssetId(b, t)
    ensures a == b && s == t
  {
    IdTellsKind(a, b, Join(EncodeAll(s), '.'), Join(EncodeAll(t), '.'));
    SegmentsComeBack(s);
    SegmentsComeBack(t);
    assert |s| == |t| && forall i | 0 <= i < |s| :: s[i] == t[i];
  }

  /** Why the list must not be empty: no segment and one empty segment give the same id. */
  lemma EmptyListsCollide(kind: AssetKind)
    ensures DeriveAssetId(kind, []) == DeriveAssetId(kind, [""])
  {
    assert EncodeAll([""])[0] == "";
  }

  // ---------------------------------------------------------------------------------------------
  // Reading ids
  // ---------------------------------------------------------------------------------------------

  const MAX_ASSET_ID_LENGTH: nat := 256

  /** A plain name: not empty, no dot segment, no control characters, no path separators. */
  predicate IsSafeUpstreamSegment(s: string)
  {
    && s != "" && s != "." && s != ".."
    && forall i | 0 <= i < |s| :: !(s[i] <= '\U{1F}' || s[i] == '\U{7F}' || s[i] == '/' || s[i] == '\\')
  }

  predicate HasLineEnd(s: string)
  {
    exists j :: 0 <= j < |s| && IsLineEnd(s[j])
  }

  /** The kind an id states and the rest of it. */
  function MatchId(id: string): Option<(AssetKind, string)>
  {
    var found :=
      if StartsWith(id, Prefix(CatalogAsset)) then Some((CatalogAsset, id[|Prefix(CatalogAsset)|..]))
      else if StartsWith(id, Prefix(SchemaAsset)) then Some((SchemaAsset, id[|Prefix(SchemaAsset)|..]))
      else if StartsWith(id, Prefix(TableAsset)) then Some((TableAsset, id[|Prefix(TableAsset)|..]))
      else None;
    if found.Some? && found.value.1 != "" && !HasLineEnd(found.value.1) then found else None
  }

  predicate HasRightCount(kind: AssetKind, count: nat)
  {
    match kind case CatalogAsset => count == 1 case SchemaAsset => 2 <= count case TableAsset => 3 <= count
      case TopicAsset => false
  }

  function ParseAssetId(id: string): Option<(AssetKind, seq<string>)>
  {
    if |id| > MAX_ASSET_ID_LENGTH || MatchId(id).None? then None
    else
      var (kind, raw) := MatchId(id).value;
      var segments := Split(raw, '.');
      if exists i :: 0 <= i < |segments| && segments[i] == "" then None
      else
        var decoded := seq(|segments|, i requires 0 <= i < |segments| => DecodeIdSegment(segments[i]));
        if exists i :: 0 <= i < |decoded| && !IsSafeUpstreamSegment(decoded[i]) then None
        else if !HasRightCount(kind, |segments|) then None
        else Some((kind, decoded))
  }

  /** No segment holds a character that ends a line. */
  predicate OnOneLine(segments: seq<string>)
  {
    forall i, j | 0 <= i < |segments| && 0 <= j < |segments[i]| ::
      segments[i][j] !in {'\n', '\r', '\U{2028}', '\U{2029}'}
  }

  /** Segment lists that ids of the kind are meant for: one name for a catalog, two or more for a schema, three
      or more for a table, and every name a plain one. */
  predicate IsAddress(kind: AssetKind, segments: seq<string>)
  {
    && (|| (kind == CatalogAsset && |segments| == 1)
        || (kind == SchemaAsset && 2 <= |segments|)
        || (kind == TableAsset && 3 <= |segments|))
    && (forall s | s in segments :: IsPlainName(s))
  }

  predicate IsPlainName(s: string)
  {
    s !in {"", ".", ".."} && forall c | c in s :: '\U{1F}' < c && c !in {'\U{7F}', '/', '\\'}
  }

  lemma AddressMeaning(kind: AssetKind, segments: seq<string>)
    ensures IsAddress(kind, segments) <==>
      HasRightCount(kind, |segments|) && forall i | 0 <= i < |segments| :: IsSafeUpstreamSegment(segments[i])
  {
    forall s ensures IsSafeUpstreamSegment(s) <==> IsPlainName(s) {
      forall i | IsPlainName(s) && 0 <= i < |s|
        ensures '\U{1F}' < s[i] && s[i] !in {'\U{7F}', '/', '\\'}
      {
        var c := s[i];
        assert c in s;
      }
    }
  }

  /** Whatever id is read, only an address comes out, of the kind that the id states. */
  lemma ParsedIsAddress(id: string)
    requires ParseAssetId(id).Some?
    ensures var (kind, segments) := ParseAssetId(id).value;
      && IsAddress(kind, segments) && |id| <= 256
      && (kind == CatalogAsset ==> StartsWith(id, "asset-catalog-"))
      && (kind == SchemaAsset ==> StartsWith(id, "asset-schema-"))
      && (kind == TableAsset ==> StartsWith(id, "asset-table-"))
  {
    var (kind, segments) := ParseAssetId(id).value;
    AddressMeaning(kind, segments);
  }

  lemma {:induction false} EncodeKeepsLine(s: string)
    ensures HasLineEnd(EncodeIdSegment(s)) <==> HasLineEnd(s)
  {
    if s != [] {
      EncodeStep(s);
      EncodeKeepsLine(s[1..]);
      var head := if s[0] == '%' then "%25" else if s[0] == '.' then "%2E" else [s[0]];
      var rest := EncodeIdSegment(s[1..]);
      assert EncodeIdSegment(s) == head + rest;
      HasLineEndJoins(head, rest);
      assert s == [s[0]] + s[1..];
      HasLineEndJoins([s[0]], s[1..]);
    }
  }

  lemma HasLineEndJoins(a: string, b: string)
    ensures HasLineEnd(a + b) <==> HasLineEnd(a) || HasLineEnd(b)
  {
    if j :| 0 <= j < |a| && IsLineEnd(a[j]) {
      assert IsLineEnd((a + b)[j]);
    }
    if j :| 0 <= j < |b| && IsLineEnd(b[j]) {
      assert IsLineEnd((a + b)[|a| + j]);
    }
  }

  lemma {:induction false} JoinKeepsLine(parts: seq<string>)
    ensures HasLineEnd(Join(parts, '.')) <==> exists i :: 0 <= i < |parts| && HasLineEnd(parts[i])
  {
    if 1 < |parts| {
      JoinKeepsLine(parts[1..]);
      HasLineEndJoins(parts[0] + ".", Join(parts[1..], '.'));
      HasLineEndJoins(parts[0], ".");
      assert forall i | 1 <= i < |parts| :: parts[i] == parts[1..][i - 1];
    }
  }

  lemma IdOnOneLine(segments: seq<string>)
    ensures HasLineEnd(Join(EncodeAll(segments), '.')) <==> !OnOneLine(segments)
  {
    JoinKeepsLine(EncodeAll(segments));
    forall i | 0 <= i < |segments| ensures HasLineEnd(EncodeAll(segments)[i]) <==> HasLineEnd(segments[i]) {
      EncodeKeepsLine(segments[i]);
    }
  }

  lemma DerivedMatches(kind: AssetKind, raw: string)
    ensures MatchId(Prefix(kind) + raw) == if kind != TopicAsset && raw != "" && !HasLineEnd(raw) then
        Some((kind, raw)) else None
  {
    PrefixTellsKind(kind, CatalogAsset, raw);
    PrefixTellsKind(kind, SchemaAsset, raw);
    PrefixTellsKind(kind, TableAsset, raw);
  }

  /** Parsing a derived id gives back its kind and segments exactly when they are an address, the id is
      short enough, and no segment holds a line end; otherwise it gives nothing, never something else. */
  lemma ParseUndoesDerive(kind: AssetKind, segments: seq<string>)
    ensures var id := DeriveAssetId(kind, segments);
            ParseAssetId(id) == if IsAddress(kind, segments) && |id| <= 256 && OnOneLine(segments) then
              Some((kind, segments)) else None
  {
    AddressMeaning(kind, segments);
    var raw := Join(EncodeAll(segments), '.');
    DerivedMatches(kind, raw);
    IdOnOneLine(segments);
    if segments != [] {
      SegmentsComeBack(segments);
      var parts := Split(raw, '.');
      forall i | 0 <= i < |segments| ensures parts[i] == "" <==> segments[i] == "" {
        EncodedHasNoDot(segments[i]);
      }
      var decoded := seq(|parts|, i requires 0 <= i < |parts| => DecodeIdSegment(parts[i]));
      assert decoded == segments;
      if raw == "" {
        assert parts[0] == "";
        assert segments[0] == "";
      }
    }
  }
}
