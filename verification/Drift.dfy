/** Drift between what is declared and what the systems report. */
module Drift {
  import opened GrantLines
  import opened PolicySchema
  import opened Sorting
  import opened Strings
  import opened Wrappers

  datatype Kind = Unapplied | Manual | Mismatch
  datatype Item = Item(kind: Kind, target: string, detail: string)

  function KindName(k: Kind): string
  {
    match k case Unapplied => "unapplied" case Manual => "manual" case Mismatch => "mismatch"
  }

  function SortKey(i: Item): string
  {
    KindName(i.kind) + "|" + i.target
  }

  /** Items go by kind and target, then by detail. */
  predicate ItemLe(a: Item, b: Item)
  {
    if SortKey(a) == SortKey(b) then StringLe(a.detail, b.detail) else StringLe(SortKey(a), SortKey(b))
  }

  lemma SortKeyTellsItems(a: Item, b: Item)
    requires SortKey(a) == SortKey(b)
    ensures a.kind == b.kind && a.target == b.target
  {
    assert SortKey(a)[1] == KindName(a.kind)[1] && SortKey(b)[1] == KindName(b.kind)[1];
    assert a.target == SortKey(a)[|KindName(a.kind)| + 1..] && b.target == SortKey(b)[|KindName(b.kind)| + 1..];
  }

  lemma ItemLeIsOrder()
    ensures IsTotalPreorder(ItemLe) && TiesAreEqual(ItemLe)
  {
    forall a, b ensures ItemLe(a, b) || ItemLe(b, a) {
      StringLeTotal(SortKey(a), SortKey(b));
      StringLeTotal(a.detail, b.detail);
    }
    forall a, b, c | ItemLe(a, b) && ItemLe(b, c) ensures ItemLe(a, c) {
      ItemLeIsTransitive(a, b, c);
    }
    forall a, b | ItemLe(a, b) && ItemLe(b, a) ensures a == b {
      if SortKey(a) != SortKey(b) {
        StringLeTies(SortKey(a), SortKey(b));
      }
      SortKeyTellsItems(a, b);
      StringLeTies(a.detail, b.detail);
    }
  }

  lemma ItemLeIsTransitive(a: Item, b: Item, c: Item)
    requires ItemLe(a, b) && ItemLe(b, c)
    ensures ItemLe(a, c)
  {
    if SortKey(a) == SortKey(b) == SortKey(c) {
      StringLeTransitive(a.detail, b.detail, c.detail);
    } else if SortKey(a) != SortKey(b) && SortKey(b) != SortKey(c) {
      StringLeTransitive(SortKey(a), SortKey(b), SortKey(c));
      if SortKey(a) == SortKey(c) {
        StringLeTies(SortKey(a), SortKey(b));
      }
    }
  }

  // ---------------------------------------------------------------------------------------------
  // Merging grant lines
  // ---------------------------------------------------------------------------------------------

  /** Maps a line to the grant it states, if it states one. */
  type Parser = string -> Option<ParsedGrant>

  function KeyOf(g: ParsedGrant): string
  {
    g.table + "/" + g.role
  }

  predicate Covers(parse: Parser, line: string, key: string)
  {
    parse(line).Some? && KeyOf(parse(line).value) == key
  }

  function Keys(parse: Parser, lines: seq<string>): set<string>
  {
    set l | l in lines && parse(l).Some? :: KeyOf(parse(l).value)
  }

  /** The privileges of all lines of a key together. */
  function Rows(parse: Parser, lines: seq<string>, key: string): set<string>
  {
    set l, p | l in lines && Covers(parse, l, key) && p in parse(l).value.privileges :: p
  }

  ghost function Merged(parse: Parser, lines: seq<string>): map<string, set<string>>
  {
    map k | k in Keys(parse, lines) :: Rows(parse, lines, k)
  }

  function Unparsed(parse: Parser, lines: seq<string>): seq<string>
  {
    if lines == [] then []
    else Unparsed(parse, lines[..|lines| - 1]) + if parse(lines[|lines| - 1]).None? then [lines[|lines| - 1]] else []
  }

  /** Keys and rows of joined lists are the unions. */
  lemma LinesJoin(parse: Parser, a: seq<string>, b: seq<string>)
    ensures Keys(parse, a + b) == Keys(parse, a) + Keys(parse, b)
    ensures forall k {:trigger Rows(parse, a + b, k)} :: Rows(parse, a + b, k) == Rows(parse, a, k) + Rows(parse, b, k)
  {
    assert forall l :: l in a + b <==> l in a || l in b;
    forall k ensures Rows(parse, a + b, k) == Rows(parse, a, k) + Rows(parse, b, k) {
      forall p ensures p in Rows(parse, a + b, k) <==> p in Rows(parse, a, k) || p in Rows(parse, b, k) {
      }
    }
  }

  lemma MergedFromRows(parse: Parser, lines: seq<string>, byKey: map<string, set<string>>)
    requires forall k :: k in byKey <==> k in Keys(parse, lines)
    requires forall k | k in byKey :: byKey[k] == Rows(parse, lines, k)
    ensures byKey == Merged(parse, lines)
  {
  }

  /** Adds a grant to what its key has so far. */
  function Put(byKey: map<string, set<string>>, g: ParsedGrant): map<string, set<string>>
  {
    byKey[KeyOf(g) := (if KeyOf(g) in byKey then byKey[KeyOf(g)] else {}) + g.privileges]
  }

  lemma MergeStep(parse: Parser, front: seq<string>, line: string)
    ensures Merged(parse, front + [line]) ==
      if parse(line).None? then Merged(parse, front) else Put(Merged(parse, front), parse(line).value)
  {
    LinesJoin(parse, front, [line]);
    if parse(line).None? {
      MergedFromRows(parse, front + [line], Merged(parse, front));
    } else {
      UncoveredIsEmpty(parse, front, KeyOf(parse(line).value));
      MergedFromRows(parse, front + [line], Put(Merged(parse, front), parse(line).value));
    }
  }

  /** Merges the lines by table and role, and sets aside those that cannot be read. */
  method MergeGrantLines(parse: Parser, lines: seq<string>)
        returns (byKey: map<string, set<string>>, unparsed: seq<string>)
    ensures byKey == Merged(parse, lines) && unparsed == Unparsed(parse, lines)
  {
    byKey, unparsed := map[], [];
    for i := 0 to |lines|
      invariant byKey == Merged(parse, lines[..i]) && unparsed == Unparsed(parse, lines[..i])
    {
      assert lines[..i + 1] == lines[..i] + [lines[i]] && lines[..i + 1][..i] == lines[..i];
      MergeStep(parse, lines[..i], lines[i]);
      if parse(lines[i]).None? {
        unparsed := unparsed + [lines[i]];
      } else {
        byKey := Put(byKey, parse(lines[i]).value);
      }
    }
    assert lines[..|lines|] == lines;
  }

  lemma UncoveredIsEmpty(parse: Parser, lines: seq<string>, key: string)
    ensures key !in Keys(parse, lines) ==> Rows(parse, lines, key) == {}
  {
  }

  // ---------------------------------------------------------------------------------------------
  // PostgreSQL grants
  // ---------------------------------------------------------------------------------------------

  /** Text of a privilege set; any function of the set. */
  type Format = set<string> -> string

  type Grants = map<string, set<string>>

  /** What is reported about one key. */
  function KeyItem(desired: Grants, actual: Grants, format: Format, key: string): Option<Item>
  {
    var target := "pg.grant/" + key;
    if key in desired && key !in actual then
      Some(Item(Unapplied, target, "declared, not present: " + format(desired[key])))
    else if key in desired && key in actual && desired[key] != actual[key] then
      Some(Item(Mismatch, target, "declared: [" + format(desired[key]) + "], actual: [" + format(actual[key]) + "]"))
    else if key !in desired && key in actual then
      Some(Item(Manual, target, "present, not declared: " + format(actual[key])))
    else None
  }

  ghost function KeyItems(desired: Grants, actual: Grants, format: Format): set<Item>
  {
    set k | k in desired.Keys + actual.Keys && KeyItem(desired, actual, format, k).Some? ::
      KeyItem(desired, actual, format, k).value
  }

  function UnparsedItem(line: string): Item
  {
    Item(Manual, "pg.grant/unparsed", "unreadable, review by hand: " + Trim(line))
  }

  function UnparsedItems(lines: seq<string>): seq<Item>
  {
    seq(|lines|, i requires 0 <= i < |lines| => UnparsedItem(lines[i]))
  }

  /** What is reported about grants: an item for every key that differs, one for every unreadable line. */
  ghost function PgItems(parse: Parser, format: Format, desired: seq<string>, actual: seq<string>): multiset<Item>
  {
    multiset(KeyItems(Merged(parse, desired), Merged(parse, actual), format))
      + multiset(UnparsedItems(Unparsed(parse, actual)))
  }

  lemma TargetTellsKey(desired: Grants, actual: Grants, format: Format, a: string, b: string)
    requires KeyItem(desired, actual, format, a).Some?
        && KeyItem(desired, actual, format, a) == KeyItem(desired, actual, format, b)
    ensures a == b
  {
    assert a == ("pg.grant/" + a)[9..] && b == ("pg.grant/" + b)[9..];
  }

  method DiffPgGrants(parse: Parser, format: Format, desired: seq<string>, actual: seq<string>)
        returns (items: seq<Item>)
    ensures multiset(items) == PgItems(parse, format, desired, actual)
  {
    var desiredByKey, _ := MergeGrantLines(parse, desired);
    var actualByKey, unparsed := MergeGrantLines(parse, actual);
    items := UnparsedItems(unparsed);
    var fromDesired := DiffKeys(desiredByKey, actualByKey, format, desiredByKey.Keys);
    var fromActual := DiffKeys(desiredByKey, actualByKey, format, actualByKey.Keys - desiredByKey.Keys);
    TwoPasses(desiredByKey, actualByKey, format, fromDesired, fromActual);
    items := items + fromDesired + fromActual;
  }

  /** One pass over keys of one side. */
  method DiffKeys(desired: Grants, actual: Grants, format: Format, keys: set<string>) returns (items: seq<Item>)
    ensures multiset(items) == multiset(ItemsOf(desired, actual, format, keys))
  {
    items := [];
    var rest := keys;
    while rest != {}
      invariant rest <= keys
      invariant multiset(items) == multiset(ItemsOf(desired, actual, format, keys - rest))
    {
      var k :| k in rest;
      ItemsOfGrow(desired, actual, format, keys - rest, k);
      assert keys - (rest - {k}) == (keys - rest) + {k};
      rest := rest - {k};
      if KeyItem(desired, actual, format, k).Some? {
        items := items + [KeyItem(desired, actual, format, k).value];
      }
    }
    assert keys - rest == keys;
  }

  ghost function ItemsOf(desired: Grants, actual: Grants, format: Format, keys: set<string>): set<Item>
  {
    set k | k in keys && KeyItem(desired, actual, format, k).Some? :: KeyItem(desired, actual, format, k).value
  }

  lemma ItemsOfGrow(desired: Grants, actual: Grants, format: Format, keys: set<string>, k: string)
    requires k !in keys
    ensures KeyItem(desired, actual, format, k).None? ==>
        ItemsOf(desired, actual, format, keys + {k}) == ItemsOf(desired, actual, format, keys)
    ensures KeyItem(desired, actual, format, k).Some? ==>
              var item := KeyItem(desired, actual, format, k).value;
              && item !in ItemsOf(desired, actual, format, keys)
              && ItemsOf(desired, actual, format, keys + {k}) == ItemsOf(desired, actual, format, keys) + {item}
  {
    if KeyItem(desired, actual, format, k).Some? {
      var item := KeyItem(desired, actual, format, k).value;
      if item in ItemsOf(desired, actual, format, keys) {
        var j :| j in keys && KeyItem(desired, actual, format, j) == Some(item);
        TargetTellsKey(desired, actual, format, j, k);
      }
    }
  }

  lemma PassesAreApart(desired: Grants, actual: Grants, format: Format, x: set<string>, y: set<string>)
    requires x !! y
    ensures ItemsOf(desired, actual, format, x) !! ItemsOf(desired, actual, format, y)
  {
    forall i | i in ItemsOf(desired, actual, format, x) ensures i !in ItemsOf(desired, actual, format, y) {
      var j :| j in x && KeyItem(desired, actual, format, j) == Some(i);
      forall k | k in y ensures KeyItem(desired, actual, format, k) != Some(i) {
        if KeyItem(desired, actual, format, k) == Some(i) {
          TargetTellsKey(desired, actual, format, j, k);
        }
      }
    }
  }

  lemma TwoPasses(desired: Grants, actual: Grants, format: Format, a: seq<Item>, b: seq<Item>)
    requires multiset(a) == multiset(ItemsOf(desired, actual, format, desired.Keys))
    requires multiset(b) == multiset(ItemsOf(desired, actual, format, actual.Keys - desired.Keys))
    ensures multiset(a + b) == multiset(KeyItems(desired, actual, format))
  {
    var x, y := ItemsOf(desired, actual, format, desired.Keys),
      ItemsOf(desired, actual, format, actual.Keys - desired.Keys);
    PassesAreApart(desired, actual, format, desired.Keys, actual.Keys - desired.Keys);
    assert KeyItems(desired, actual, format) == x + y;
  }

  // ---------------------------------------------------------------------------------------------
  // What a clean report means
  // ---------------------------------------------------------------------------------------------

  lemma ItemIsListed(desired: Grants, actual: Grants, format: Format, k: string)
    ensures KeyItem(desired, actual, format, k).Some? ==>
        KeyItem(desired, actual, format, k).value in KeyItems(desired, actual, format)
  {
  }

  lemma NoItemMeansAgreement(desired: Grants, actual: Grants, format: Format)
    requires KeyItems(desired, actual, format) == {}
    ensures desired == actual
  {
    forall k ensures KeyItem(desired, actual, format, k).None? && (k in desired <==> k in actual)
        && (k in desired ==> desired[k] == actual[k]) {
      ItemIsListed(desired, actual, format, k);
    }
    assert desired.Keys == actual.Keys;
  }

  /** No item exactly when all actual lines can be read and both sides agree key by key. */
  lemma PgCleanIffAgree(parse: Parser, format: Format, desired: seq<string>, actual: seq<string>)
    ensures PgItems(parse, format, desired, actual) == multiset{} <==>
        Unparsed(parse, actual) == [] && Merged(parse, desired) == Merged(parse, actual)
  {
    var d, a := Merged(parse, desired), Merged(parse, actual);
    var items, lines := KeyItems(d, a, format), UnparsedItems(Unparsed(parse, actual));
    assert |lines| == |Unparsed(parse, actual)|;
    if items == {} {
      NoItemMeansAgreement(d, a, format);
    } else {
      var i :| i in items;
      assert d != a;
    }
  }

  /** A line grants the role something on the table. */
  predicate Names(parse: Parser, line: string, table: string, role: string)
  {
    parse(line).Some? && parse(line).value.table == table && parse(line).value.role == role
  }

  ghost predicate IsNamed(parse: Parser, lines: seq<string>, table: string, role: string)
  {
    exists i :: 0 <= i < |lines| && Names(parse, lines[i], table, role)
  }

  ghost function GrantedTo(parse: Parser, lines: seq<string>, table: string, role: string): set<string>
  {
    set i, p | 0 <= i < |lines| && Names(parse, lines[i], table, role) && p in parse(lines[i]).value.privileges :: p
  }

  /** Both sides name the same pairs of table and role and grant each the same privileges together. */
  ghost predicate SameGrants(parse: Parser, desired: seq<string>, actual: seq<string>)
  {
    forall table, role ::
      && (IsNamed(parse, desired, table, role) <==> IsNamed(parse, actual, table, role))
      && GrantedTo(parse, desired, table, role) == GrantedTo(parse, actual, table, role)
  }

  ghost predicate TablesWithoutSlash(parse: Parser, lines: seq<string>)
  {
    forall i | 0 <= i < |lines| && parse(lines[i]).Some? :: '/' !in parse(lines[i]).value.table
  }

  lemma KeyTellsNames(a: ParsedGrant, b: ParsedGrant)
    requires '/' !in a.table && '/' !in b.table && KeyOf(a) == KeyOf(b)
    ensures a.table == b.table && a.role == b.role
  {
    var s := KeyOf(a);
    assert s[|a.table|] == '/' && s[|b.table|] == '/';
    assert forall i | 0 <= i < |a.table| :: s[i] == a.table[i] && s[i] in a.table;
    assert forall i | 0 <= i < |b.table| :: s[i] == b.table[i] && s[i] in b.table;
    assert |a.table| == |b.table|;
    assert a.table == s[..|a.table|] && b.table == s[..|b.table|];
    assert a.role == s[|a.table| + 1..] && b.role == s[|b.table| + 1..];
  }

  lemma KeyStandsForNames(parse: Parser, lines: seq<string>, table: string, role: string)
    requires TablesWithoutSlash(parse, lines) && '/' !in table
    ensures KeyOf(ParsedGrant(table, role, {})) in Keys(parse, lines) <==> IsNamed(parse, lines, table, role)
    ensures Rows(parse, lines, KeyOf(ParsedGrant(table, role, {}))) == GrantedTo(parse, lines, table, role)
  {
    var key := KeyOf(ParsedGrant(table, role, {}));
    forall i | 0 <= i < |lines| ensures Covers(parse, lines[i], key) <==> Names(parse, lines[i], table, role) {
      if Covers(parse, lines[i], key) {
        KeyTellsNames(parse(lines[i]).value, ParsedGrant(table, role, {}));
      }
    }
  }

  lemma AgreementByNames(parse: Parser, desired: seq<string>, actual: seq<string>)
    requires TablesWithoutSlash(parse, desired) && TablesWithoutSlash(parse, actual)
    ensures Merged(parse, desired) == Merged(parse, actual) <==> SameGrants(parse, desired, actual)
  {
    var d, a := Merged(parse, desired), Merged(parse, actual);
    if d == a {
      forall table, role
        ensures (IsNamed(parse, desired, table, role) <==> IsNamed(parse, actual, table, role))
                && GrantedTo(parse, desired, table, role) == GrantedTo(parse, actual, table, role)
      {
        if '/' !in table {
          KeyStandsForNames(parse, desired, table, role);
          KeyStandsForNames(parse, actual, table, role);
          var key := KeyOf(ParsedGrant(table, role, {}));
          assert key in d.Keys <==> key in a.Keys;
          UncoveredIsEmpty(parse, desired, key);
          UncoveredIsEmpty(parse, actual, key);
        }
      }
    }
    if SameGrants(parse, desired, actual) {
      forall k | k in d.Keys + a.Keys ensures k in d && k in a && d[k] == a[k] {
        var g := GrantOfKey(parse, if k in d then desired else actual, k);
        KeyStandsForNames(parse, desired, g.table, g.role);
        KeyStandsForNames(parse, actual, g.table, g.role);
      }
      assert d == a;
    }
  }

  lemma GrantOfKey(parse: Parser, lines: seq<string>, key: string) returns (g: ParsedGrant)
    requires key in Keys(parse, lines) && TablesWithoutSlash(parse, lines)
    ensures KeyOf(g) == key && '/' !in g.table
  {
    var i :| 0 <= i < |lines| && parse(lines[i]).Some? && KeyOf(parse(lines[i]).value) == key;
    g := parse(lines[i]).value;
  }

  ghost predicate NamesWithoutSlash(parse: Parser, lines: seq<string>)
  {
    forall i | 0 <= i < |lines| && parse(lines[i]).Some? ::
      '/' !in parse(lines[i]).value.table && '/' !in parse(lines[i]).value.role
  }

  /** The key of two names without slash has one way only to be taken apart. */
  lemma PlainKeyTellsNames(a: ParsedGrant, b: ParsedGrant)
    requires '/' !in a.table && '/' !in a.role && KeyOf(a) == KeyOf(b)
    ensures a.table == b.table && a.role == b.role
  {
    var s := KeyOf(a);
    forall j | 0 <= j < |s| && j != |a.table| ensures s[j] != '/' {
      if j < |a.table| {
        assert s[j] == a.table[j] && s[j] in a.table;
      } else {
        assert s[j] == a.role[j - |a.table| - 1] && s[j] in a.role;
      }
    }
    assert s[|b.table|] == '/';
    assert a.table == s[..|a.table|] && b.table == s[..|b.table|];
    assert a.role == s[|a.table| + 1..] && b.role == s[|b.table| + 1..];
  }

  /** Lines that agree with lines of plain names, key by key or name by name, have plain names too. */
  lemma AgreeingNamesArePlain(parse: Parser, desired: seq<string>, actual: seq<string>)
    requires NamesWithoutSlash(parse, desired)
    requires Merged(parse, desired) == Merged(parse, actual) || SameGrants(parse, desired, actual)
    ensures TablesWithoutSlash(parse, actual)
  {
    forall i | 0 <= i < |actual| && parse(actual[i]).Some? ensures '/' !in parse(actual[i]).value.table {
      var g := parse(actual[i]).value;
      if SameGrants(parse, desired, actual) {
        assert Names(parse, actual[i], g.table, g.role);
        assert IsNamed(parse, desired, g.table, g.role);
      } else {
        assert KeyOf(g) in Merged(parse, actual) && KeyOf(g) in Merged(parse, desired);
        var l :| l in desired && parse(l).Some? && KeyOf(parse(l).value) == KeyOf(g);
        PlainKeyTellsNames(parse(l).value, g);
      }
    }
  }

  /** With declared names free of slashes, the grants are reported clean exactly when every actual line can
      be read and both sides give every role the same privileges on every table, whatever names the actual
      lines hold. */
  lemma PgCleanIffSameGrants(parse: Parser, format: Format, desired: seq<string>, actual: seq<string>)
    requires NamesWithoutSlash(parse, desired)
    ensures PgItems(parse, format, desired, actual) == multiset{} <==>
              Unparsed(parse, actual) == [] && SameGrants(parse, desired, actual)
  {
    PgCleanIffAgree(parse, format, desired, actual);
    if Merged(parse, desired) == Merged(parse, actual) || SameGrants(parse, desired, actual) {
      AgreeingNamesArePlain(parse, desired, actual);
      AgreementByNames(parse, desired, actual);
    }
  }

  lemma OneLineMerged(parse: Parser, line: string)
    requires parse(line).Some?
    ensures Merged(parse, [line]) == map[KeyOf(parse(line).value) := parse(line).value.privileges]
        && Unparsed(parse, [line]) == []
  {
    assert [line][..0] == [];
    MergedFromRows(parse, [line], map[KeyOf(parse(line).value) := parse(line).value.privileges]);
  }

  /** Why slashes matter: a declaration that was not validated, granting on a table `a` to a role `b/c`,
      shows no drift when the server has a grant on a table `a/b` to a role `c` instead. */
  lemma SlashHidesDrift(format: Format, a: string, b: string, c: string)
    requires IsBareWord(a) && IsBareWord(b) && IsBareWord(c)
    ensures var declared, actual := [PrintGrant([Select], a, b + "/" + c)], [PrintGrant([Select], a + "/" + b, c)];
            PgItems(ParseGrantLine, format, declared, actual) == multiset{}
              && !SameGrants(ParseGrantLine, declared, actual)
  {
    var declared, manual := PrintGrant([Select], a, b + "/" + c), PrintGrant([Select], a + "/" + b, c);
    GrantReadsBack([Select], a, b + "/" + c);
    GrantReadsBack([Select], a + "/" + b, c);
    assert a + "/" + (b + "/" + c) == (a + "/" + b) + "/" + c;
    OneLineMerged(ParseGrantLine, declared);
    OneLineMerged(ParseGrantLine, manual);
    PgCleanIffAgree(ParseGrantLine, format, [declared], [manual]);
    assert Names(ParseGrantLine, [declared][0], a, b + "/" + c) && |a + "/" + b| > |a|;
    assert IsNamed(ParseGrantLine, [declared], a, b + "/" + c) && !IsNamed(ParseGrantLine, [manual], a, b + "/" + c);
  }

  // ---------------------------------------------------------------------------------------------
  // The report does not depend on how the rows come
  // ---------------------------------------------------------------------------------------------

  lemma SameLinesSameMerge(parse: Parser, a: seq<string>, b: seq<string>)
    requires forall l :: l in a <==> l in b
    ensures Merged(parse, a) == Merged(parse, b)
  {
    forall k ensures Rows(parse, a, k) == Rows(parse, b, k) {
      forall p ensures p in Rows(parse, a, k) <==> p in Rows(parse, b, k) {
      }
    }
    forall k ensures k in Keys(parse, a) <==> k in Keys(parse, b) {
    }
    MergedFromRows(parse, b, Merged(parse, a));
  }

  lemma {:induction false} UnparsedAreCounted(parse: Parser, lines: seq<string>)
    ensures forall l :: multiset(Unparsed(parse, lines))[l] == if parse(l).None? then multiset(lines)[l] else 0
  {
    if lines != [] {
      var front, last := lines[..|lines| - 1], lines[|lines| - 1];
      assert lines == front + [last];
      UnparsedAreCounted(parse, front);
    }
  }

  lemma UnparsedItemsJoin(a: seq<string>, b: seq<string>)
    ensures UnparsedItems(a + b) == UnparsedItems(a) + UnparsedItems(b)
  {
  }

  lemma {:induction false} UnparsedItemsPermute(a: seq<string>, b: seq<string>)
    requires multiset(a) == multiset(b)
    ensures multiset(UnparsedItems(a)) == multiset(UnparsedItems(b))
    decreases |a|
  {
    assert |multiset(a)| == |multiset(b)|;
    if a != [] {
      assert a[0] in multiset(b);
      var k :| 0 <= k < |b| && b[k] == a[0];
      RemoveOne(a, b, k);
      UnparsedItemsPermute(a[1..], b[..k] + b[k + 1..]);
      assert a == [a[0]] + a[1..] && b == b[..k] + ([b[k]] + b[k + 1..]);
      UnparsedItemsJoin([a[0]], a[1..]);
      UnparsedItemsJoin(b[..k], b[k + 1..]);
      UnparsedItemsJoin(b[..k], [b[k]] + b[k + 1..]);
      UnparsedItemsJoin([b[k]], b[k + 1..]);
    }
  }

  lemma RemoveOne(a: seq<string>, b: seq<string>, k: nat)
    requires multiset(a) == multiset(b) && a != [] && k < |b| && b[k] == a[0]
    ensures multiset(a[1..]) == multiset(b[..k] + b[k + 1..])
  {
    assert a == [a[0]] + a[1..] && b == b[..k] + ([b[k]] + b[k + 1..]);
    assert multiset(b) == multiset(b[..k]) + (multiset{b[k]} + multiset(b[k + 1..]));
    assert multiset(a) == multiset{a[0]} + multiset(a[1..]);
    assert multiset(b[..k] + b[k + 1..]) == multiset(b[..k]) + multiset(b[k + 1..]);
    assert multiset(a[1..]) == multiset(a) - multiset{a[0]};
  }

  /** The items are the same for any order of the actual rows. */
  lemma ItemsIgnoreOrder(parse: Parser, format: Format, desired: seq<string>, a: seq<string>, b: seq<string>)
    requires multiset(a) == multiset(b)
    ensures PgItems(parse, format, desired, a) == PgItems(parse, format, desired, b)
  {
    forall l ensures l in a <==> l in b {
      assert l in a <==> l in multiset(a);
      assert l in b <==> l in multiset(b);
    }
    SameLinesSameMerge(parse, a, b);
    UnparsedAreCounted(parse, a);
    UnparsedAreCounted(parse, b);
    assert multiset(Unparsed(parse, a)) == multiset(Unparsed(parse, b));
    UnparsedItemsPermute(Unparsed(parse, a), Unparsed(parse, b));
  }

  /** Several rows for one table and role say what one row says with all their privileges. */
  ghost predicate SplitsInto(parse: Parser, row: string, parts: seq<string>)
  {
    && parse(row).Some? && parts != []
    && (forall l | l in parts :: Covers(parse, l, KeyOf(parse(row).value)))
    && Rows(parse, parts, KeyOf(parse(row).value)) == parse(row).value.privileges
  }

  lemma SplitMeansTheSame(parse: Parser, row: string, parts: seq<string>)
    requires SplitsInto(parse, row, parts)
    ensures Keys(parse, [row]) == Keys(parse, parts) && forall k :: Rows(parse, [row], k) == Rows(parse, parts, k)
  {
    assert parts[0] in parts;
    forall k ensures k in Keys(parse, parts) <==> Covers(parse, row, k) {
      assert Covers(parse, parts[0], k) ==> k in Keys(parse, parts);
    }
    forall k ensures Rows(parse, [row], k) == Rows(parse, parts, k) {
      if !Covers(parse, row, k) {
        assert Rows(parse, parts, k) == {};
      }
    }
  }

  lemma SplittingKeepsMerge(parse: Parser, before: seq<string>, row: string, parts: seq<string>, after: seq<string>)
    requires SplitsInto(parse, row, parts)
    ensures Merged(parse, before + [row] + after) == Merged(parse, before + parts + after)
  {
    SplitMeansTheSame(parse, row, parts);
    LinesJoin(parse, before + [row], after);
    LinesJoin(parse, before, [row]);
    LinesJoin(parse, before + parts, after);
    LinesJoin(parse, before, parts);
    MergedFromRows(parse, before + parts + after, Merged(parse, before + [row] + after));
  }

  lemma UnparsedThree(parse: Parser, a: seq<string>, b: seq<string>, c: seq<string>)
    requires Unparsed(parse, b) == []
    ensures Unparsed(parse, a + b + c) == Unparsed(parse, a) + Unparsed(parse, c)
  {
    UnparsedJoin(parse, a + b, c);
    UnparsedJoin(parse, a, b);
  }

  lemma SplittingKeepsUnparsed(parse: Parser, before: seq<string>, row: string, parts: seq<string>, after: seq<string>)
    requires SplitsInto(parse, row, parts)
    ensures Unparsed(parse, before + [row] + after) == Unparsed(parse, before + parts + after)
  {
    AllParsed(parse, [row]);
    assert forall i | 0 <= i < |parts| :: parts[i] in parts;
    AllParsed(parse, parts);
    UnparsedThree(parse, before, [row], after);
    UnparsedThree(parse, before, parts, after);
  }

  /** The items are the same when a row is split into several, single-privilege rows for example. */
  lemma ItemsIgnoreSplitting(parse: Parser, format: Format, desired: seq<string>, before: seq<string>, row: string,
        parts: seq<string>, after: seq<string>)
    requires SplitsInto(parse, row, parts)
    ensures PgItems(parse, format, desired, before + [row] + after) ==
        PgItems(parse, format, desired, before + parts + after)
  {
    SplittingKeepsMerge(parse, before, row, parts, after);
    SplittingKeepsUnparsed(parse, before, row, parts, after);
  }

  lemma {:induction false} UnparsedJoin(parse: Parser, a: seq<string>, b: seq<string>)
    ensures Unparsed(parse, a + b) == Unparsed(parse, a) + Unparsed(parse, b)
    decreases |b|
  {
    if b == [] {
      assert a + b == a;
    } else {
      assert (a + b)[..|a + b| - 1] == a + b[..|b| - 1];
      UnparsedJoin(parse, a, b[..|b| - 1]);
    }
  }

  lemma {:induction false} AllParsed(parse: Parser, lines: seq<string>)
    requires forall i | 0 <= i < |lines| :: parse(lines[i]).Some?
    ensures Unparsed(parse, lines) == []
  {
    if lines != [] {
      AllParsed(parse, lines[..|lines| - 1]);
    }
  }
}
