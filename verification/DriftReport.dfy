/** The drift report over Keycloak roles, Keycloak groups and PostgreSQL grants. */
module DriftReport {
  import opened Drift
  import opened GrantLines
  import opened Keycloak
  import opened PolicySchema
  import opened PolicyValidation
  import opened RoleGraph
  import opened Sorting
  import opened Strings
  import opened Wrappers

  // ---------------------------------------------------------------------------------------------
  // Keycloak roles
  // ---------------------------------------------------------------------------------------------

  /** An item for every name that is not among the others. */
  function Missing(names: seq<string>, others: seq<string>, kind: Kind): seq<Item>
  {
    if names == [] then []
    else
      var last := names[|names| - 1];
      Missing(names[..|names| - 1], others, kind)
      + if last in others then []
        else [Item(kind, "keycloak.role/" + last, if kind == Unapplied then "declared, not present"
        else "present, not declared")]
  }

  function RoleItems(desired: seq<string>, actual: seq<string>): seq<Item>
  {
    Missing(desired, actual, Unapplied) + Missing(actual, desired, Manual)
  }

  method DiffKeycloakRoles(desired: seq<string>, actual: seq<string>) returns (items: seq<Item>)
    ensures items == RoleItems(desired, actual)
  {
    items := [];
    for i := 0 to |desired|
      invariant items == Missing(desired[..i], actual, Unapplied)
    {
      assert desired[..i + 1][..i] == desired[..i];
      if desired[i] !in actual {
        items := items + [Item(Unapplied, "keycloak.role/" + desired[i], "declared, not present")];
      }
    }
    assert desired[..|desired|] == desired && actual[..|actual|] == actual;
    for i := 0 to |actual|
      invariant items == Missing(desired, actual, Unapplied) + Missing(actual[..i], desired, Manual)
    {
      assert actual[..i + 1][..i] == actual[..i];
      if actual[i] !in desired {
        items := items + [Item(Manual, "keycloak.role/" + actual[i], "present, not declared")];
      }
    }
  }

  lemma {:induction false} NothingMissing(names: seq<string>, others: seq<string>, kind: Kind)
    ensures Missing(names, others, kind) == [] <==> forall n | n in names :: n in others
  {
    if names != [] {
      var front, last := names[..|names| - 1], names[|names| - 1];
      NothingMissing(front, others, kind);
      assert names == front + [last];
    }
  }

  /** Roles are clean exactly when both sides have the same names. */
  lemma RolesCleanIffSameNames(desired: seq<string>, actual: seq<string>)
    ensures RoleItems(desired, actual) == [] <==> forall n :: n in desired <==> n in actual
  {
    NothingMissing(desired, actual, Unapplied);
    NothingMissing(actual, desired, Manual);
  }

  // ---------------------------------------------------------------------------------------------
  // Keycloak groups
  // ---------------------------------------------------------------------------------------------

  /** The roles of a group as compared: sorted and joined with commas. */
  function Composition(roles: seq<string>): string
  {
    Join(SortBy(roles, StringLe), ',')
  }

  function GroupItem(g: RealmGroup, actual: map<string, seq<string>>): Option<Item>
  {
    var target := "keycloak.group/" + g.name;
    if g.name !in actual then Some(Item(Unapplied, target, "declared, not present"))
    else if Composition(g.realmRoles) != Composition(actual[g.name]) then
      Some(Item(Mismatch, target, "declared: [" + Composition(g.realmRoles) + "], actual: ["
        + Composition(actual[g.name]) + "]"))
    else None
  }

  function GroupItems(desired: seq<RealmGroup>, actual: map<string, seq<string>>): seq<Item>
  {
    if desired == [] then []
    else
      GroupItems(desired[..|desired| - 1], actual)
      + match GroupItem(desired[|desired| - 1], actual) case Some(i) => [i] case None => []
  }

  function ExtraGroup(name: string): Item
  {
    Item(Manual, "keycloak.group/" + name, "present, not declared")
  }

  predicate IsDeclared(desired: seq<RealmGroup>, name: string)
  {
    exists i :: 0 <= i < |desired| && desired[i].name == name
  }

  ghost function ExtraGroups(desired: seq<RealmGroup>, names: set<string>): set<Item>
  {
    set n | n in names && !IsDeclared(desired, n) :: ExtraGroup(n)
  }

  /** The actual groups by name, as a plain object: asked for a name it does not have itself, it may answer
      with an inherited property, none of which is a list. */
  datatype Groups = Groups(own: map<string, seq<string>>, inherited: set<string>)

  /** A declared group is absent, and its name is that of an inherited property. */
  predicate ReadsInherited(desired: seq<RealmGroup>, actual: Groups)
  {
    exists i :: 0 <= i < |desired| && desired[i].name !in actual.own && desired[i].name in actual.inherited
  }

  /** Compares the groups, or throws (`None`): an inherited property cannot be spread as a list of roles. */
  method DiffKeycloakGroups(desired: seq<RealmGroup>, actual: Groups) returns (items: Option<seq<Item>>)
    ensures items.None? <==> ReadsInherited(desired, actual)
    ensures items.Some? ==>
              multiset(items.value) ==
                multiset(GroupItems(desired, actual.own)) + multiset(ExtraGroups(desired, actual.own.Keys))
  {
    var found: seq<Item> := [];
    for i := 0 to |desired|
      invariant found == GroupItems(desired[..i], actual.own)
      invariant forall k | 0 <= k < i :: desired[k].name in actual.own || desired[k].name !in actual.inherited
    {
      assert desired[..i + 1][..i] == desired[..i];
      if desired[i].name !in actual.own && desired[i].name in actual.inherited {
        return None;
      }
      match GroupItem(desired[i], actual.own) {
        case Some(item) => found := found + [item];
        case None =>
      }
    }
    assert desired[..|desired|] == desired;
    var extra := FindExtraGroups(desired, actual.own);
    items := Some(found + extra);
  }

  method FindExtraGroups(desired: seq<RealmGroup>, actual: map<string, seq<string>>) returns (items: seq<Item>)
    ensures multiset(items) == multiset(ExtraGroups(desired, actual.Keys))
  {
    items := [];
    var rest := actual.Keys;
    while rest != {}
      invariant rest <= actual.Keys
      invariant multiset(items) == multiset(ExtraGroups(desired, actual.Keys - rest))
    {
      var n :| n in rest;
      ExtraGroupsGrow(desired, actual.Keys - rest, n);
      assert actual.Keys - (rest - {n}) == (actual.Keys - rest) + {n};
      rest := rest - {n};
      if !IsDeclared(desired, n) {
        items := items + [ExtraGroup(n)];
      }
    }
    assert actual.Keys - rest == actual.Keys;
  }

  lemma ExtraGroupsGrow(desired: seq<RealmGroup>, names: set<string>, n: string)
    requires n !in names
    ensures IsDeclared(desired, n) ==> ExtraGroups(desired, names + {n}) == ExtraGroups(desired, names)
    ensures !IsDeclared(desired, n) ==>
              ExtraGroup(n) !in ExtraGroups(desired, names)
                && ExtraGroups(desired, names + {n}) == ExtraGroups(desired, names) + {ExtraGroup(n)}
  {
    forall m | ExtraGroup(m) == ExtraGroup(n) ensures m == n {
      assert m == ("keycloak.group/" + m)[15..] && n == ("keycloak.group/" + n)[15..];
    }
  }

  /** A list of non-empty names without commas. */
  predicate ArePlainNames(names: seq<string>)
  {
    forall i | 0 <= i < |names| :: names[i] != "" && ',' !in names[i]
  }

  /** Compositions of plain names are equal exactly when the groups have the same roles, each as often. */
  lemma CompositionTellsRoles(a: seq<string>, b: seq<string>)
    requires ArePlainNames(a) && ArePlainNames(b)
    ensures Composition(a) == Composition(b) <==> multiset(a) == multiset(b)
  {
    StringLeIsOrder();
    SortStaysPlain(a);
    SortStaysPlain(b);
    SortPermutes(a, StringLe);
    SortPermutes(b, StringLe);
    if a != [] {
      JoinSplits(SortBy(a, StringLe), ',');
    }
    if b != [] {
      JoinSplits(SortBy(b, StringLe), ',');
    }
    if multiset(a) == multiset(b) {
      SortCanonical(a, b, StringLe);
    }
  }

  lemma SortStaysPlain(names: seq<string>)
    requires ArePlainNames(names)
    ensures ArePlainNames(SortBy(names, StringLe))
  {
    SortMembers(names, StringLe);
    var sorted := SortBy(names, StringLe);
    forall i | 0 <= i < |sorted| ensures sorted[i] != "" && ',' !in sorted[i] {
      assert sorted[i] in sorted;
      assert sorted[i] in names;
    }
  }

  /** What an actual role list must be like to compare equal: its comma-separated pieces, name by name in
      sorted order, are the declared names. */
  predicate LooksAlike(declared: seq<string>, actual: seq<string>)
  {
    if declared == [] then actual == [] || actual == [""]
    else Pieces(SortBy(actual, StringLe), ',') == SortBy(declared, StringLe)
  }

  lemma CompositionsMeetIff(declared: seq<string>, actual: seq<string>)
    requires ArePlainNames(declared)
    ensures Composition(declared) == Composition(actual) <==> LooksAlike(declared, actual)
  {
    var want, have := SortBy(declared, StringLe), SortBy(actual, StringLe);
    SortStaysPlain(declared);
    SortPermutes(declared, StringLe);
    SortPermutes(actual, StringLe);
    if declared == [] {
      assert |have| == 1 ==> have == actual;
    } else {
      JoinSplits(want, ',');
      JoinUndoesSplit(Join(have, ','), ',');
      if actual != [] {
        JoinedPieces(have, ',');
      } else {
        assert Split("", ',') == [""] && want[0] != "";
      }
    }
  }

  /** Different roles that compare equal: exactly those where an actual name is empty or holds a comma. */
  lemma HiddenIffNotPlain(declared: seq<string>, actual: seq<string>)
    requires ArePlainNames(declared) && LooksAlike(declared, actual)
    ensures multiset(declared) != multiset(actual) <==> !ArePlainNames(actual)
  {
    CompositionsMeetIff(declared, actual);
    if ArePlainNames(actual) {
      CompositionTellsRoles(declared, actual);
    } else {
      var i :| 0 <= i < |actual| && (actual[i] == "" || ',' in actual[i]);
      assert actual[i] !in declared;
      assert actual[i] in multiset(actual) && actual[i] !in multiset(declared);
    }
  }

  /** Two declared roles, and one actual role whose name is both of theirs joined by a comma: no drift. */
  lemma CommaHidesDrift(group: string, a: string, b: string)
    requires ArePlainNames([a, b]) && StringLe(a, b)
    ensures GroupItem(RealmGroup(group, [a, b]), map[group := [a + "," + b]]).None?
    ensures multiset([a, b]) != multiset([a + "," + b])
  {
    var declared, actual := [a, b], [a + "," + b];
    assert [b][1..] == [] && declared[1..] == [b] && actual[1..] == [];
    assert SortBy([b], StringLe) == InsertBy(b, [], StringLe) == [b];
    assert SortBy(declared, StringLe) == InsertBy(a, [b], StringLe) == declared;
    assert SortBy(actual, StringLe) == InsertBy(a + "," + b, [], StringLe) == actual;
    assert declared[0] == a && declared[1] == b;
    SplitJoined(a, b, ',');
    SplitNone(b, ',');
    assert Pieces(actual, ',') == Split(a + "," + b, ',') + [] == declared;
    CompositionsMeetIff(declared, actual);
    assert |multiset(declared)| == 2 && |multiset(actual)| == 1;
  }

  lemma {:induction false} NoGroupItem(desired: seq<RealmGroup>, actual: map<string, seq<string>>)
    ensures GroupItems(desired, actual) == [] <==> forall i | 0 <= i < |desired| :: GroupItem(desired[i], actual).None?
  {
    if desired != [] {
      NoGroupItem(desired[..|desired| - 1], actual);
    }
  }

  ghost predicate HavePlainRoles(groups: seq<RealmGroup>)
  {
    forall i | 0 <= i < |groups| :: ArePlainNames(groups[i].realmRoles)
  }

  /** No item about groups. */
  ghost predicate GroupsAreClean(desired: seq<RealmGroup>, actual: map<string, seq<string>>)
  {
    multiset(GroupItems(desired, actual)) + multiset(ExtraGroups(desired, actual.Keys)) == multiset{}
  }

  /** Groups are clean exactly when both sides have the same groups with role lists that look alike. */
  lemma GroupsCleanIffLookAlike(desired: seq<RealmGroup>, actual: map<string, seq<string>>)
    requires HavePlainRoles(desired)
    ensures GroupsAreClean(desired, actual) <==>
      && (forall n | n in actual :: IsDeclared(desired, n))
      && (forall i | 0 <= i < |desired| ::
            desired[i].name in actual && LooksAlike(desired[i].realmRoles, actual[desired[i].name]))
  {
    var items, extra := GroupItems(desired, actual), ExtraGroups(desired, actual.Keys);
    NoGroupItem(desired, actual);
    assert multiset(items) == multiset{} <==> items == [] by {
      assert |multiset(items)| == |items|;
    }
    assert multiset(extra) == multiset{} <==> extra == {} by {
      assert |multiset(extra)| == |extra|;
    }
    forall i | 0 <= i < |desired|
      ensures GroupItem(desired[i], actual).None? <==>
                desired[i].name in actual && LooksAlike(desired[i].realmRoles, actual[desired[i].name])
    {
      if desired[i].name in actual {
        CompositionsMeetIff(desired[i].realmRoles, actual[desired[i].name]);
      }
    }
    assert extra == {} <==> forall n | n in actual :: IsDeclared(desired, n) by {
      forall n | n in actual && !IsDeclared(desired, n) ensures ExtraGroup(n) in extra {
      }
    }
  }

  /** So a clean report means the same roles, each as often, exactly for groups whose actual names are plain. */
  lemma CleanMeansSameRolesIffPlain(desired: seq<RealmGroup>, actual: map<string, seq<string>>, i: nat)
    requires HavePlainRoles(desired) && GroupsAreClean(desired, actual) && i < |desired|
    ensures desired[i].name in actual
    ensures multiset(desired[i].realmRoles) == multiset(actual[desired[i].name]) <==>
        ArePlainNames(actual[desired[i].name])
  {
    GroupsCleanIffLookAlike(desired, actual);
    HiddenIffNotPlain(desired[i].realmRoles, actual[desired[i].name]);
  }

  /** The compiled groups of a valid declaration list plain names. */
  lemma ValidGroupsArePlain(d: Declaration, accepts: string -> bool)
    requires IsValid(d, accepts)
    ensures HavePlainRoles(CompileKeycloak(d).groups)
  {
    var listed := seq(|d.groups|, i requires 0 <= i < |d.groups| => RealmGroupOf(d.groups[i]));
    var groups := CompileKeycloak(d).groups;
    SortMembers(listed, GroupLe);
    forall j | 0 <= j < |groups| ensures ArePlainNames(groups[j].realmRoles) {
      assert groups[j] in listed;
      var i :| 0 <= i < |listed| && listed[i] == groups[j];
      assert !Offends(d, accepts, InvalidIdentifier);
      assert !NamedReferencesOffend(RoleNames(d), d.groups[i].name, d.groups[i].roles, InvalidIdentifier);
      forall k | 0 <= k < |d.groups[i].roles| ensures d.groups[i].roles[k] != "" && ',' !in d.groups[i].roles[k] {
        assert IsRoleName(d.groups[i].roles[k]);
      }
      SortStaysPlain(d.groups[i].roles);
    }
  }

  // ---------------------------------------------------------------------------------------------
  // The whole report
  // ---------------------------------------------------------------------------------------------

  datatype Category = KeycloakRoles | KeycloakGroups | PgGrants

  datatype Desired = Desired(roles: seq<string>, groups: seq<RealmGroup>, grantLines: seq<string>)

  /** What could be read of the systems; `None` was not read. */
  datatype Actual = Actual(roles: Option<seq<string>>, groups: Option<Groups>, grants: Option<seq<string>>)

  ghost function RolePart(desired: seq<string>, actual: Option<seq<string>>): multiset<Item>
  {
    match actual case None => multiset{} case Some(roles) => multiset(RoleItems(desired, roles))
  }

  ghost function GroupPart(desired: seq<RealmGroup>, actual: Option<Groups>): multiset<Item>
  {
    match actual
    case None => multiset{}
    case Some(groups) => multiset(GroupItems(desired, groups.own)) + multiset(ExtraGroups(desired, groups.own.Keys))
  }

  ghost function GrantPart(desired: seq<string>, actual: Option<seq<string>>, format: Format): multiset<Item>
  {
    match actual case None => multiset{} case Some(rows) => PgItems(ParseGrantLine, format, desired, rows)
  }

  /** The items of the categories that were read. */
  ghost function ExpectedItems(desired: Desired, actual: Actual, format: Format): multiset<Item>
  {
    RolePart(desired.roles, actual.roles) + GroupPart(desired.groups, actual.groups)
      + GrantPart(desired.grantLines, actual.grants, format)
  }

  /** The comparison throws: the groups were read, and an absent declared one has an inherited name. */
  predicate Throws(desired: Desired, actual: Actual)
  {
    actual.groups.Some? && ReadsInherited(desired.groups, actual.groups.value)
  }

  /** The items of each category that was read; nothing for one that was not. */
  method CompareRead(desired: Desired, actual: Actual, format: Format)
        returns (done: bool, roles: seq<Item>, groups: seq<Item>, grants: seq<Item>)
    ensures done <==> !Throws(desired, actual)
    ensures done ==> multiset(roles) == RolePart(desired.roles, actual.roles)
    ensures done ==> multiset(groups) == GroupPart(desired.groups, actual.groups)
    ensures done ==> multiset(grants) == GrantPart(desired.grantLines, actual.grants, format)
  {
    done, roles, groups, grants := true, [], [], [];
    if actual.roles.Some? {
      roles := DiffKeycloakRoles(desired.roles, actual.roles.value);
    }
    if actual.groups.Some? {
      var found := DiffKeycloakGroups(desired.groups, actual.groups.value);
      if found.None? {
        done := false;
        return;
      }
      groups := found.value;
    }
    if actual.grants.Some? {
      grants := DiffPgGrants(ParseGrantLine, format, desired.grantLines, actual.grants.value);
    }
  }

  /** The categories that were read. */
  function Compared(actual: Actual): (c: seq<Category>)
    ensures KeycloakRoles in c <==> actual.roles.Some?
    ensures KeycloakGroups in c <==> actual.groups.Some?
    ensures PgGrants in c <==> actual.grants.Some?
  {
    var roles := if actual.roles.Some? then [KeycloakRoles] else [];
    var groups := if actual.groups.Some? then [KeycloakGroups] else [];
    var grants := if actual.grants.Some? then [PgGrants] else [];
    roles + groups + grants
  }

  datatype Report = Report(items: seq<Item>, compared: seq<Category>)

  /** The report names the categories that were read, and lists their items in sorted order. There is none if
      the comparison throws. */
  method DiffState(desired: Desired, actual: Actual, format: Format) returns (report: Option<Report>)
    ensures report.None? <==> Throws(desired, actual)
    ensures report.Some? ==>
              && multiset(report.value.items) == ExpectedItems(desired, actual, format)
              && SortedBy(report.value.items, ItemLe) && report.value.compared == Compared(actual)
  {
    var done, roles, groups, grants := CompareRead(desired, actual, format);
    if !done {
      return None;
    }
    var found := roles + groups + grants;
    SortedReport(found);
    report := Some(Report(SortBy(found, ItemLe), Compared(actual)));
  }

  /** One role, and one group of this name that holds it. */
  function OneGroup(role: string, group: string): Declaration
  {
    Declaration([Role(role, [])], [Group(group, [role])], [], [], [])
  }

  lemma OneGroupNamesAreFine(role: string, group: string, c: ErrorCode)
    requires IsRoleName(role) && IsRoleName(group)
    ensures !NamesOffend(OneGroup(role, group), c)
  {
    var d := OneGroup(role, group);
    FlatClosure(d, role);
    assert d.roles[0].name == role && role in RoleNames(d);
    assert |PgRoles(d.roles)| == 1 && |TableKeys(d.resources)| == 0;
    assert !NamedReferencesOffend(RoleNames(d), role, [], c) && !NamedReferencesOffend(RoleNames(d), group, [role], c);
  }

  lemma OneGroupIsValid(role: string, group: string, accepts: string -> bool)
    requires IsRoleName(role) && IsRoleName(group)
    ensures IsValid(OneGroup(role, group), accepts)
  {
    forall c ensures !Offends(OneGroup(role, group), accepts, c) {
      OneGroupNamesAreFine(role, group, c);
      assert OperationKeys(OneGroup(role, group).catalogGrants) == [];
    }
  }

  /** Valid declarations whose comparison with a server that has no groups throws: those with a group named
      like an inherited property, `constructor` for example. */
  lemma InheritedNameThrows(role: string, group: string, accepts: string -> bool, actual: Groups)
    requires IsRoleName(role) && IsRoleName(group) && actual.own == map[] && group in actual.inherited
    ensures IsValid(OneGroup(role, group), accepts)
        && ReadsInherited(CompileKeycloak(OneGroup(role, group)).groups, actual)
    ensures IsRoleName("constructor")
  {
    var d := OneGroup(role, group);
    OneGroupIsValid(role, group, accepts);
    var listed := seq(|d.groups|, i requires 0 <= i < |d.groups| => RealmGroupOf(d.groups[i]));
    SortMembers(listed, GroupLe);
    assert listed[0] in CompileKeycloak(d).groups && listed[0].name == group;
    var i :| 0 <= i < |CompileKeycloak(d).groups| && CompileKeycloak(d).groups[i] == listed[0];
  }

  lemma SortedReport(found: seq<Item>)
    ensures multiset(SortBy(found, ItemLe)) == multiset(found) && SortedBy(SortBy(found, ItemLe), ItemLe)
  {
    ItemLeIsOrder();
    SortPermutes(found, ItemLe);
    SortSorts(found, ItemLe);
  }

  /** Two reports over the same items are the same report. */
  lemma SameItemsSameReport(a: seq<Item>, b: seq<Item>)
    requires multiset(a) == multiset(b) && SortedBy(a, ItemLe) && SortedBy(b, ItemLe)
    ensures a == b
  {
    ItemLeIsOrder();
    SortedUnique(a, b, ItemLe);
  }

  /** The report on PostgreSQL grants is the same for permuted rows. */
  lemma ReportIgnoresRowOrder(desired: Desired, a: Actual, b: Actual, format: Format, reportA: seq<Item>,
        reportB: seq<Item>)
    requires a.grants.Some? && b.grants.Some? && b == a.(grants := b.grants)
        && multiset(a.grants.value) == multiset(b.grants.value)
    requires multiset(reportA) == ExpectedItems(desired, a, format) && SortedBy(reportA, ItemLe)
    requires multiset(reportB) == ExpectedItems(desired, b, format) && SortedBy(reportB, ItemLe)
    ensures reportA == reportB
  {
    ItemsIgnoreOrder(ParseGrantLine, format, desired.grantLines, a.grants.value, b.grants.value);
    SameItemsSameReport(reportA, reportB);
  }

  /** The report is the same when a row is split into several for the same table and role. */
  lemma ReportIgnoresSplitting(desired: Desired, a: Actual, b: Actual, format: Format, before: seq<string>,
        row: string, parts: seq<string>, after: seq<string>, reportA: seq<Item>, reportB: seq<Item>)
    requires SplitsInto(ParseGrantLine, row, parts)
    requires a.grants == Some(before + [row] + after) && b == a.(grants := Some(before + parts + after))
    requires multiset(reportA) == ExpectedItems(desired, a, format) && SortedBy(reportA, ItemLe)
    requires multiset(reportB) == ExpectedItems(desired, b, format) && SortedBy(reportB, ItemLe)
    ensures reportA == reportB
  {
    ItemsIgnoreSplitting(ParseGrantLine, format, desired.grantLines, before, row, parts, after);
    SameItemsSameReport(reportA, reportB);
  }
}
