/** What the items of a drift report say: which kind is reported about what, and in which order. */
module DriftKinds {
  import opened Drift
  import opened DriftReport
  import opened GrantLines
  import opened Keycloak
  import opened Sorting
  import opened Wrappers

  /** Some item of this kind is about the target. */
  ghost predicate Reports(items: multiset<Item>, kind: Kind, target: string)
  {
    exists i :: i in items && i.kind == kind && i.target == target
  }

  lemma ReportsJoin(a: multiset<Item>, b: multiset<Item>, kind: Kind, target: string)
    ensures Reports(a + b, kind, target) <==> Reports(a, kind, target) || Reports(b, kind, target)
  {
    if i :| i in a && i.kind == kind && i.target == target {
      assert i in a + b;
    }
    if i :| i in b && i.kind == kind && i.target == target {
      assert i in a + b;
    }
  }

  // ---------------------------------------------------------------------------------------------
  // PostgreSQL grants
  // ---------------------------------------------------------------------------------------------

  lemma KeyItemsTell(desired: Grants, actual: Grants, format: Format, key: string, kind: Kind)
    ensures Reports(multiset(KeyItems(desired, actual, format)), kind, "pg.grant/" + key) <==>
      match kind
      case Unapplied => key in desired && key !in actual
      case Manual => key !in desired && key in actual
      case Mismatch => key in desired && key in actual && desired[key] != actual[key]
  {
    var target := "pg.grant/" + key;
    if Reports(multiset(KeyItems(desired, actual, format)), kind, target) {
      var i :| i in multiset(KeyItems(desired, actual, format)) && i.kind == kind && i.target == target;
      var k :| k in desired.Keys + actual.Keys && KeyItem(desired, actual, format, k) == Some(i);
      assert key == target[9..] && k == ("pg.grant/" + k)[9..];
    }
    if KeyItem(desired, actual, format, key).Some? && KeyItem(desired, actual, format, key).value.kind == kind {
      ItemIsListed(desired, actual, format, key);
      assert KeyItem(desired, actual, format, key).value in multiset(KeyItems(desired, actual, format));
    }
  }

  lemma {:induction false} UnparsedMembers(parse: Parser, lines: seq<string>, l: string)
    ensures l in Unparsed(parse, lines) <==> l in lines && parse(l).None?
  {
    if lines != [] {
      UnparsedMembers(parse, lines[..|lines| - 1], l);
    }
  }

  lemma UnparsedItemsTell(lines: seq<string>, kind: Kind, target: string)
    ensures Reports(multiset(UnparsedItems(lines)), kind, target) <==>
      kind == Manual && target == "pg.grant/unparsed" && lines != []
  {
    var items := UnparsedItems(lines);
    if Reports(multiset(items), kind, target) {
      var i: Item :| i in multiset(items) && i.kind == kind && i.target == target;
      assert i in items;
    }
    if lines != [] {
      assert items[0] in items && items[0] in multiset(items);
    }
  }

  /** A grant is reported as unapplied exactly if only the declaration names the table and the role, as manual
      exactly if only the server does, and as a mismatch exactly if both do with different privileges. */
  lemma GrantItemsTell(parse: Parser, format: Format, desired: seq<string>, actual: seq<string>, table: string,
        role: string)
    requires TablesWithoutSlash(parse, desired) && TablesWithoutSlash(parse, actual) && '/' !in table
    ensures var items, target := PgItems(parse, format, desired, actual), "pg.grant/" + (table + "/" + role);
      && (Reports(items, Unapplied, target) <==>
            IsNamed(parse, desired, table, role) && !IsNamed(parse, actual, table, role))
      && (Reports(items, Manual, target) <==>
            !IsNamed(parse, desired, table, role) && IsNamed(parse, actual, table, role))
      && (Reports(items, Mismatch, target) <==>
            && IsNamed(parse, desired, table, role) && IsNamed(parse, actual, table, role)
            && GrantedTo(parse, desired, table, role) != GrantedTo(parse, actual, table, role))
  {
    var key := KeyOf(ParsedGrant(table, role, {}));
    var target := "pg.grant/" + key;
    assert key[|table|] == '/' && target[9 + |table|] == '/';
    assert target != "pg.grant/unparsed";
    KeyStandsForNames(parse, desired, table, role);
    KeyStandsForNames(parse, actual, table, role);
    forall kind ensures Reports(PgItems(parse, format, desired, actual), kind, target) <==>
      Reports(multiset(KeyItems(Merged(parse, desired), Merged(parse, actual), format)), kind, target)
    {
      ReportsJoin(multiset(KeyItems(Merged(parse, desired), Merged(parse, actual), format)),
                  multiset(UnparsedItems(Unparsed(parse, actual))), kind, target);
      UnparsedItemsTell(Unparsed(parse, actual), kind, target);
    }
    KeyItemsTell(Merged(parse, desired), Merged(parse, actual), format, key, Unapplied);
    KeyItemsTell(Merged(parse, desired), Merged(parse, actual), format, key, Manual);
    KeyItemsTell(Merged(parse, desired), Merged(parse, actual), format, key, Mismatch);
  }

  lemma NoKeyWithoutSlash(parse: Parser, lines: seq<string>, key: string)
    requires '/' !in key
    ensures key !in Keys(parse, lines)
  {
    forall l | l in lines && parse(l).Some? ensures KeyOf(parse(l).value) != key {
      assert KeyOf(parse(l).value)[|parse(l).value.table|] == '/';
    }
  }

  lemma NoGrantIsUnparsed(parse: Parser, format: Format, desired: Grants, lines: seq<string>)
    ensures !Reports(multiset(KeyItems(desired, Merged(parse, lines), format)), Manual, "pg.grant/unparsed")
  {
    NoKeyWithoutSlash(parse, lines, "unparsed");
    KeyItemsTell(desired, Merged(parse, lines), format, "unparsed", Manual);
    assert "pg.grant/" + "unparsed" == "pg.grant/unparsed";
  }

  lemma SomeUnreadable(parse: Parser, lines: seq<string>)
    ensures Unparsed(parse, lines) != [] <==> exists l :: l in lines && parse(l).None?
  {
    forall l ensures l in Unparsed(parse, lines) <==> l in lines && parse(l).None? {
      UnparsedMembers(parse, lines, l);
    }
    if Unparsed(parse, lines) != [] {
      assert Unparsed(parse, lines)[0] in Unparsed(parse, lines);
    }
  }

  /** A line of the server that cannot be read is never passed over: it is reported for review. */
  lemma UnreadableIsReported(parse: Parser, format: Format, desired: seq<string>, actual: seq<string>)
    ensures Reports(PgItems(parse, format, desired, actual), Manual, "pg.grant/unparsed") <==>
      exists l :: l in actual && parse(l).None?
  {
    var d, a := Merged(parse, desired), Merged(parse, actual);
    NoGrantIsUnparsed(parse, format, d, actual);
    ReportsJoin(multiset(KeyItems(d, a, format)), multiset(UnparsedItems(Unparsed(parse, actual))), Manual,
                "pg.grant/unparsed");
    UnparsedItemsTell(Unparsed(parse, actual), Manual, "pg.grant/unparsed");
    SomeUnreadable(parse, actual);
  }

  // ---------------------------------------------------------------------------------------------
  // Keycloak roles and groups
  // ---------------------------------------------------------------------------------------------

  lemma {:induction false} MissingTells(names: seq<string>, others: seq<string>, kind: Kind, n: string, k: Kind)
    ensures Reports(multiset(Missing(names, others, kind)), k, "keycloak.role/" + n) <==>
      k == kind && n in names && n !in others
  {
    var target := "keycloak.role/" + n;
    if names != [] {
      var front, last := names[..|names| - 1], names[|names| - 1];
      assert names == front + [last];
      MissingTells(front, others, kind, n, k);
      var item := Missing(names, others, kind)[|Missing(front, others, kind)|..];
      assert Missing(names, others, kind) == Missing(front, others, kind) + item;
      ReportsJoin(multiset(Missing(front, others, kind)), multiset(item), k, target);
      assert n == target[14..] && last == ("keycloak.role/" + last)[14..];
      assert item != [] ==> item == [item[0]] && item[0] in multiset(item);
    }
  }

  /** A role is reported as unapplied exactly if it is declared only, as manual exactly if it is present only. */
  lemma RoleItemsTell(desired: seq<string>, actual: seq<string>, n: string)
    ensures var items, target := multiset(RoleItems(desired, actual)), "keycloak.role/" + n;
      && (Reports(items, Unapplied, target) <==> n in desired && n !in actual)
      && (Reports(items, Manual, target) <==> n !in desired && n in actual)
      && !Reports(items, Mismatch, target)
  {
    var unapplied, manual := Missing(desired, actual, Unapplied), Missing(actual, desired, Manual);
    forall k ensures Reports(multiset(RoleItems(desired, actual)), k, "keycloak.role/" + n) <==>
      (k == Unapplied && n in desired && n !in actual) || (k == Manual && n in actual && n !in desired)
    {
      ReportsJoin(multiset(unapplied), multiset(manual), k, "keycloak.role/" + n);
      MissingTells(desired, actual, Unapplied, n, k);
      MissingTells(actual, desired, Manual, n, k);
    }
  }

  lemma {:induction false} GroupItemsMembers(desired: seq<RealmGroup>, actual: map<string, seq<string>>, item: Item)
    ensures item in GroupItems(desired, actual) <==>
      exists i :: 0 <= i < |desired| && GroupItem(desired[i], actual) == Some(item)
  {
    if desired != [] {
      var front, last := desired[..|desired| - 1], desired[|desired| - 1];
      GroupItemsMembers(front, actual, item);
      assert desired == front + [last];
      assert item in GroupItems(desired, actual) <==>
        item in GroupItems(front, actual) || GroupItem(last, actual) == Some(item);
      if i :| 0 <= i < |front| && GroupItem(front[i], actual) == Some(item) {
        assert GroupItem(desired[i], actual) == Some(item);
      }
      assert desired[|front|] == last;
    }
  }

  lemma GroupTargetTellsName(a: string, b: string)
    ensures "keycloak.group/" + a == "keycloak.group/" + b ==> a == b
  {
    assert a == ("keycloak.group/" + a)[15..] && b == ("keycloak.group/" + b)[15..];
  }

  /** The group of this name is reported with this kind. */
  predicate IsReportedAs(g: RealmGroup, actual: map<string, seq<string>>, n: string, kind: Kind)
  {
    g.name == n && GroupItem(g, actual).Some? && GroupItem(g, actual).value.kind == kind
  }

  lemma GroupOfItem(desired: seq<RealmGroup>, actual: map<string, seq<string>>, n: string, kind: Kind)
        returns (k: nat)
    requires Reports(multiset(GroupItems(desired, actual)), kind, "keycloak.group/" + n)
    ensures k < |desired| && IsReportedAs(desired[k], actual, n, kind)
  {
    var i: Item :| i in multiset(GroupItems(desired, actual)) && i.kind == kind && i.target == "keycloak.group/" + n;
    assert i in GroupItems(desired, actual);
    GroupItemsMembers(desired, actual, i);
    k :| 0 <= k < |desired| && GroupItem(desired[k], actual) == Some(i);
    GroupTargetTellsName(desired[k].name, n);
  }

  lemma ItemOfGroup(desired: seq<RealmGroup>, actual: map<string, seq<string>>, k: nat, kind: Kind)
    requires k < |desired| && IsReportedAs(desired[k], actual, desired[k].name, kind)
    ensures Reports(multiset(GroupItems(desired, actual)), kind, "keycloak.group/" + desired[k].name)
  {
    var item := GroupItem(desired[k], actual).value;
    GroupItemsMembers(desired, actual, item);
    assert item in multiset(GroupItems(desired, actual));
  }

  lemma DeclaredGroupTells(desired: seq<RealmGroup>, actual: map<string, seq<string>>, n: string, kind: Kind)
    ensures Reports(multiset(GroupItems(desired, actual)), kind, "keycloak.group/" + n) <==>
      exists i :: 0 <= i < |desired| && IsReportedAs(desired[i], actual, n, kind)
  {
    if Reports(multiset(GroupItems(desired, actual)), kind, "keycloak.group/" + n) {
      var k := GroupOfItem(desired, actual, n, kind);
    }
    if i :| 0 <= i < |desired| && IsReportedAs(desired[i], actual, n, kind) {
      ItemOfGroup(desired, actual, i, kind);
    }
  }

  lemma ExtraGroupTells(desired: seq<RealmGroup>, names: set<string>, n: string, kind: Kind)
    ensures Reports(multiset(ExtraGroups(desired, names)), kind, "keycloak.group/" + n) <==>
      kind == Manual && n in names && !IsDeclared(desired, n)
  {
    var items := ExtraGroups(desired, names);
    if i: Item :| i in multiset(items) && i.kind == kind && i.target == "keycloak.group/" + n {
      var m :| m in names && !IsDeclared(desired, m) && ExtraGroup(m) == i;
      GroupTargetTellsName(m, n);
    }
    if n in names && !IsDeclared(desired, n) {
      assert ExtraGroup(n) in items && ExtraGroup(n) in multiset(items);
    }
  }

  /** A group is reported as unapplied exactly if it is declared only, as manual exactly if it is present only, and
      as a mismatch exactly if both have it with role lists that do not look alike. */
  lemma GroupItemsTell(desired: seq<RealmGroup>, actual: map<string, seq<string>>, n: string)
    requires HavePlainRoles(desired)
    ensures var target := "keycloak.group/" + n;
      var items := multiset(GroupItems(desired, actual)) + multiset(ExtraGroups(desired, actual.Keys));
      && (Reports(items, Unapplied, target) <==> IsDeclared(desired, n) && n !in actual)
      && (Reports(items, Manual, target) <==> !IsDeclared(desired, n) && n in actual)
      && (Reports(items, Mismatch, target) <==>
            n in actual && exists i :: 0 <= i < |desired| && desired[i].name == n
                                       && !LooksAlike(desired[i].realmRoles, actual[n]))
  {
    forall kind ensures Reports(multiset(GroupItems(desired, actual)) + multiset(ExtraGroups(desired, actual.Keys)),
        kind, "keycloak.group/" + n) <==>
      || (kind == Manual && n in actual && !IsDeclared(desired, n))
      || exists i :: 0 <= i < |desired| && IsReportedAs(desired[i], actual, n, kind)
    {
      ReportsJoin(multiset(GroupItems(desired, actual)), multiset(ExtraGroups(desired, actual.Keys)), kind,
                  "keycloak.group/" + n);
      DeclaredGroupTells(desired, actual, n, kind);
      ExtraGroupTells(desired, actual.Keys, n, kind);
    }
    forall i | 0 <= i < |desired| && desired[i].name == n
      ensures IsReportedAs(desired[i], actual, n, Unapplied) <==> n !in actual
      ensures IsReportedAs(desired[i], actual, n, Mismatch) <==>
        n in actual && !LooksAlike(desired[i].realmRoles, actual[n])
      ensures !IsReportedAs(desired[i], actual, n, Manual)
    {
      if n in actual {
        CompositionsMeetIff(desired[i].realmRoles, actual[n]);
      }
    }
  }

  // ---------------------------------------------------------------------------------------------
  // The whole report
  // ---------------------------------------------------------------------------------------------

  /** The category that a target belongs to, told by its letters. */
  predicate IsIn(target: string, c: Category)
  {
    9 < |target| && match c
                    case KeycloakRoles => target[0] == 'k' && target[9] == 'r'
                    case KeycloakGroups => target[0] == 'k' && target[9] == 'g'
                    case PgGrants => target[0] == 'p'
  }

  ghost predicate AllIn(items: multiset<Item>, c: Category)
  {
    forall i | i in items :: IsIn(i.target, c)
  }

  lemma ListedIn(items: seq<Item>, c: Category)
    requires forall k | 0 <= k < |items| :: IsIn(items[k].target, c)
    ensures AllIn(multiset(items), c)
  {
    forall i: Item | i in multiset(items) ensures IsIn(i.target, c) {
      assert i in items;
    }
  }

  lemma RoleTargets(n: string)
    ensures IsIn("keycloak.role/" + n, KeycloakRoles)
  {
  }

  lemma GroupTargets(n: string)
    ensures IsIn("keycloak.group/" + n, KeycloakGroups)
  {
  }

  lemma GrantTargets(key: string)
    requires key != ""
    ensures IsIn("pg.grant/" + key, PgGrants)
  {
  }

  lemma {:induction false} MissingAreRoles(names: seq<string>, others: seq<string>, kind: Kind)
    ensures forall k | 0 <= k < |Missing(names, others, kind)| ::
      IsIn(Missing(names, others, kind)[k].target, KeycloakRoles)
  {
    if names != [] {
      MissingAreRoles(names[..|names| - 1], others, kind);
      RoleTargets(names[|names| - 1]);
    }
  }

  lemma {:induction false} GroupItemsAreGroups(desired: seq<RealmGroup>, actual: map<string, seq<string>>)
    ensures forall k | 0 <= k < |GroupItems(desired, actual)| ::
      IsIn(GroupItems(desired, actual)[k].target, KeycloakGroups)
  {
    if desired != [] {
      GroupItemsAreGroups(desired[..|desired| - 1], actual);
      GroupTargets(desired[|desired| - 1].name);
    }
  }

  lemma RolesAreRoles(desired: seq<string>, actual: seq<string>)
    ensures AllIn(multiset(RoleItems(desired, actual)), KeycloakRoles)
  {
    MissingAreRoles(desired, actual, Unapplied);
    MissingAreRoles(actual, desired, Manual);
    ListedIn(RoleItems(desired, actual), KeycloakRoles);
  }

  lemma GroupsAreGroups(desired: seq<RealmGroup>, own: map<string, seq<string>>)
    ensures AllIn(multiset(GroupItems(desired, own)) + multiset(ExtraGroups(desired, own.Keys)), KeycloakGroups)
  {
    GroupItemsAreGroups(desired, own);
    ListedIn(GroupItems(desired, own), KeycloakGroups);
    forall i | i in ExtraGroups(desired, own.Keys) ensures IsIn(i.target, KeycloakGroups) {
      var n :| n in own.Keys && i == ExtraGroup(n);
      GroupTargets(n);
    }
  }

  lemma GrantsAreGrants(parse: Parser, format: Format, desired: seq<string>, actual: seq<string>)
    ensures AllIn(PgItems(parse, format, desired, actual), PgGrants)
  {
    var d, a := Merged(parse, desired), Merged(parse, actual);
    ListedIn(UnparsedItems(Unparsed(parse, actual)), PgGrants);
    NoKeyWithoutSlash(parse, desired, "");
    NoKeyWithoutSlash(parse, actual, "");
    forall i | i in KeyItems(d, a, format) ensures IsIn(i.target, PgGrants) {
      var k :| k in d.Keys + a.Keys && KeyItem(d, a, format, k) == Some(i);
      GrantTargets(k);
    }
  }

  lemma PartsAreInCategories(desired: Desired, actual: Actual, format: Format)
    ensures AllIn(RolePart(desired.roles, actual.roles), KeycloakRoles)
    ensures AllIn(GroupPart(desired.groups, actual.groups), KeycloakGroups)
    ensures AllIn(GrantPart(desired.grantLines, actual.grants, format), PgGrants)
  {
    if actual.roles.Some? {
      RolesAreRoles(desired.roles, actual.roles.value);
    }
    if actual.groups.Some? {
      GroupsAreGroups(desired.groups, actual.groups.value.own);
    }
    if actual.grants.Some? {
      GrantsAreGrants(ParseGrantLine, format, desired.grantLines, actual.grants.value);
    }
  }

  lemma OthersAreSilent(items: multiset<Item>, c: Category, other: Category, kind: Kind, target: string)
    requires AllIn(items, c) && IsIn(target, other) && c != other
    ensures !Reports(items, kind, target)
  {
  }

  ghost function PartOf(desired: Desired, actual: Actual, format: Format, c: Category): multiset<Item>
  {
    match c
    case KeycloakRoles => RolePart(desired.roles, actual.roles)
    case KeycloakGroups => GroupPart(desired.groups, actual.groups)
    case PgGrants => GrantPart(desired.grantLines, actual.grants, format)
  }

  lemma ReportsByCategory(desired: Desired, actual: Actual, format: Format, c: Category, kind: Kind, target: string)
    requires IsIn(target, c)
    ensures Reports(ExpectedItems(desired, actual, format), kind, target) <==>
      Reports(PartOf(desired, actual, format, c), kind, target)
  {
    var roles, groups := RolePart(desired.roles, actual.roles), GroupPart(desired.groups, actual.groups);
    var grants := GrantPart(desired.grantLines, actual.grants, format);
    PartsAreInCategories(desired, actual, format);
    ReportsJoin(roles, groups, kind, target);
    ReportsJoin(roles + groups, grants, kind, target);
    if c != KeycloakRoles {
      OthersAreSilent(roles, KeycloakRoles, c, kind, target);
    }
    if c != KeycloakGroups {
      OthersAreSilent(groups, KeycloakGroups, c, kind, target);
    }
    if c != PgGrants {
      OthersAreSilent(grants, PgGrants, c, kind, target);
    }
  }

  /** What the report says about a role, if the roles were read; otherwise it says nothing. */
  lemma ReportOnRole(desired: Desired, actual: Actual, format: Format, n: string)
    ensures var items, target := ExpectedItems(desired, actual, format), "keycloak.role/" + n;
      && (Reports(items, Unapplied, target) <==>
            actual.roles.Some? && n in desired.roles && n !in actual.roles.value)
      && (Reports(items, Manual, target) <==>
            actual.roles.Some? && n !in desired.roles && n in actual.roles.value)
      && !Reports(items, Mismatch, target)
  {
    var target := "keycloak.role/" + n;
    RoleTargets(n);
    ReportsByCategory(desired, actual, format, KeycloakRoles, Unapplied, target);
    ReportsByCategory(desired, actual, format, KeycloakRoles, Manual, target);
    ReportsByCategory(desired, actual, format, KeycloakRoles, Mismatch, target);
    if actual.roles.Some? {
      RoleItemsTell(desired.roles, actual.roles.value, n);
    }
  }

  /** What it says about a group, if the groups were read. */
  lemma ReportOnGroup(desired: Desired, actual: Actual, format: Format, n: string)
    requires HavePlainRoles(desired.groups)
    ensures var items, target := ExpectedItems(desired, actual, format), "keycloak.group/" + n;
      && (Reports(items, Unapplied, target) <==>
            actual.groups.Some? && IsDeclared(desired.groups, n) && n !in actual.groups.value.own)
      && (Reports(items, Manual, target) <==>
            actual.groups.Some? && !IsDeclared(desired.groups, n) && n in actual.groups.value.own)
      && (Reports(items, Mismatch, target) <==>
            actual.groups.Some? && n in actual.groups.value.own
            && exists i :: 0 <= i < |desired.groups| && desired.groups[i].name == n
                           && !LooksAlike(desired.groups[i].realmRoles, actual.groups.value.own[n]))
  {
    var target := "keycloak.group/" + n;
    GroupTargets(n);
    ReportsByCategory(desired, actual, format, KeycloakGroups, Unapplied, target);
    ReportsByCategory(desired, actual, format, KeycloakGroups, Manual, target);
    ReportsByCategory(desired, actual, format, KeycloakGroups, Mismatch, target);
    if actual.groups.Some? {
      GroupItemsTell(desired.groups, actual.groups.value.own, n);
    }
  }

  /** What it says about the grants of a role on a table, if the grants were read. */
  lemma ReportOnGrant(desired: Desired, actual: Actual, format: Format, table: string, role: string)
    requires actual.grants.Some? && TablesWithoutSlash(ParseGrantLine, desired.grantLines)
    requires TablesWithoutSlash(ParseGrantLine, actual.grants.value) && '/' !in table
    ensures var items, target := ExpectedItems(desired, actual, format), "pg.grant/" + (table + "/" + role);
      var declared := IsNamed(ParseGrantLine, desired.grantLines, table, role);
      var present := IsNamed(ParseGrantLine, actual.grants.value, table, role);
      && (Reports(items, Unapplied, target) <==> declared && !present)
      && (Reports(items, Manual, target) <==> !declared && present)
      && (Reports(items, Mismatch, target) <==>
            declared && present && GrantedTo(ParseGrantLine, desired.grantLines, table, role)
                                   != GrantedTo(ParseGrantLine, actual.grants.value, table, role))
  {
    var target := "pg.grant/" + (table + "/" + role);
    GrantTargets(table + "/" + role);
    ReportsByCategory(desired, actual, format, PgGrants, Unapplied, target);
    ReportsByCategory(desired, actual, format, PgGrants, Manual, target);
    ReportsByCategory(desired, actual, format, PgGrants, Mismatch, target);
    GrantItemsTell(ParseGrantLine, format, desired.grantLines, actual.grants.value, table, role);
  }

  /** And a line of the server that cannot be read is reported for review. */
  lemma ReportOnUnreadable(desired: Desired, actual: Actual, format: Format)
    ensures Reports(ExpectedItems(desired, actual, format), Manual, "pg.grant/unparsed") <==>
      actual.grants.Some? && exists l :: l in actual.grants.value && ParseGrantLine(l).None?
  {
    ReportsByCategory(desired, actual, format, PgGrants, Manual, "pg.grant/unparsed");
    if actual.grants.Some? {
      UnreadableIsReported(ParseGrantLine, format, desired.grantLines, actual.grants.value);
    }
  }

  // ---------------------------------------------------------------------------------------------
  // The order of the report
  // ---------------------------------------------------------------------------------------------

  lemma KindsCompare(a: Item, b: Item)
    ensures a.kind == Manual && b.kind != Manual ==> !StringLe(SortKey(b), SortKey(a))
    ensures b.kind == Unapplied && a.kind != Unapplied ==> !StringLe(SortKey(b), SortKey(a))
  {
    assert KindName(Manual)[0] == 'm' && KindName(Manual)[1] == 'a';
    assert KindName(Mismatch)[0] == 'm' && KindName(Mismatch)[1] == 'i';
    assert KindName(Unapplied)[0] == 'u' && KindName(Unapplied)[1] == 'n';
    assert SortKey(a)[0] == KindName(a.kind)[0] && SortKey(a)[1] == KindName(a.kind)[1];
    assert SortKey(b)[0] == KindName(b.kind)[0] && SortKey(b)[1] == KindName(b.kind)[1];
    assert SortKey(a)[1..][0] == SortKey(a)[1] && SortKey(b)[1..][0] == SortKey(b)[1];
  }

  lemma {:induction false} PrefixKeepsOrder(prefix: string, a: string, b: string)
    ensures StringLe(prefix + a, prefix + b) <==> StringLe(a, b)
  {
    if prefix == [] {
      assert prefix + a == a && prefix + b == b;
    } else {
      assert (prefix + a)[1..] == prefix[1..] + a && (prefix + b)[1..] == prefix[1..] + b;
      PrefixKeepsOrder(prefix[1..], a, b);
    }
  }

  /** A sorted report lists what is manual first, then mismatches, then what is unapplied; items of one kind by
      target, and those about one target by detail. */
  lemma ReportIsGrouped(items: seq<Item>, i: nat, j: nat)
    requires SortedBy(items, ItemLe) && i < j < |items|
    ensures items[j].kind == Manual ==> items[i].kind == Manual
    ensures items[i].kind == Unapplied ==> items[j].kind == Unapplied
    ensures items[i].kind == items[j].kind ==> StringLe(items[i].target, items[j].target)
    ensures items[i].kind == items[j].kind && items[i].target == items[j].target ==>
      StringLe(items[i].detail, items[j].detail)
  {
    var a, b := items[i], items[j];
    assert ItemLe(a, b);
    KindsCompare(b, a);
    KindsCompare(a, b);
    StringLeTotal(SortKey(a), SortKey(b));
    if a.kind == b.kind {
      assert SortKey(a) == (KindName(a.kind) + "|") + a.target && SortKey(b) == (KindName(a.kind) + "|") + b.target;
      PrefixKeepsOrder(KindName(a.kind) + "|", a.target, b.target);
      StringLeTotal(a.target, b.target);
    }
  }
}
