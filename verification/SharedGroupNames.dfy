/** Why the tokens of groups are told apart by distinct names only: two groups of one name hide a conflict. */
module SharedGroupNames {
  import opened Holders
  import opened MaskGuarantees
  import opened PolicySchema
  import opened PolicyValidation
  import opened RegoCompiler
  import opened RegoRules
  import opened RoleGraph
  import opened Strings
  import opened Wrappers

  /** Names for the example: three roles, a group name used twice, a table and one of its columns. */
  datatype Names = Names(hashed: string, nulled: string, exempt: string, group: string, table: string, column: string)
  {
    predicate Fine()
    {
      && IsRoleName(hashed) && IsRoleName(nulled) && IsRoleName(exempt) && IsRoleName(group)
      && IsTableName(table) && IsIdentifier(column)
      && ToPgRole(hashed) != ToPgRole(nulled) && ToPgRole(hashed) != ToPgRole(exempt)
        && ToPgRole(nulled) != ToPgRole(exempt)
    }

    function Table(): Resource
    {
      Resource(table, Public,
               [Grant([hashed], [Select], Some([(column, HashMask)]), None, None),
                Grant([nulled], [Select], Some([(column, NullMask)]), None, None),
                Grant([exempt], [Select], None, None, Some(true))],
               [], None)
    }

    /** One group holds both masking roles, the other of the same name holds the exempt role. */
    function Policy(): Declaration
    {
      Declaration([Role(hashed, []), Role(nulled, []), Role(exempt, [])],
                  [Group(group, [hashed, nulled]), Group(group, [exempt])], [Table()], [], [])
    }
  }

  /** There are such names. */
  lemma FineNamesExist()
    ensures Names("h", "n", "e", "g", "s.t", "c").Fine()
  {
    assert "s.t" == "s" + ['.'] + "t";
    SplitJoined("s", "t", '.');
    SplitNone("t", '.');
    assert ToPgRole("h")[0] == 'h' && ToPgRole("n")[0] == 'n' && ToPgRole("e")[0] == 'e';
  }

  lemma AllRolesDeclared(n: Names)
    ensures n.hashed in RoleNames(n.Policy()) && n.nulled in RoleNames(n.Policy()) && n.exempt in RoleNames(n.Policy())
  {
    var d := n.Policy();
    assert d.roles[0].name == n.hashed && d.roles[1].name == n.nulled && d.roles[2].name == n.exempt;
  }

  lemma RolesAreFine(n: Names, c: ErrorCode)
    requires n.Fine()
    ensures !RolesOffend(n.Policy(), c)
  {
    var d := n.Policy();
    forall i | 0 <= i < |d.roles|
        ensures !NamedReferencesOffend(RoleNames(d), d.roles[i].name, d.roles[i].includes, c) {
      assert d.roles[i].name in [n.hashed, n.nulled, n.exempt] && d.roles[i].includes == [];
    }
  }

  lemma GroupsAreFine(n: Names, c: ErrorCode)
    requires n.Fine()
    ensures !GroupsOffend(n.Policy(), c)
  {
    var d := n.Policy();
    AllRolesDeclared(n);
    assert !ReferencesOffend(RoleNames(d), [n.hashed, n.nulled], c) && !ReferencesOffend(RoleNames(d), [n.exempt], c);
  }

  lemma PgRolesDiffer(n: Names)
    requires n.Fine()
    ensures !HasRepeat(PgRoles(n.Policy().roles))
  {
    var keys := PgRoles(n.Policy().roles);
    assert keys == [ToPgRole(n.hashed), ToPgRole(n.nulled), ToPgRole(n.exempt)];
  }

  lemma NamesAreFine(n: Names, c: ErrorCode)
    requires n.Fine()
    ensures !NamesOffend(n.Policy(), c)
  {
    FlatClosure(n.Policy(), n.hashed);
    RolesAreFine(n, c);
    GroupsAreFine(n, c);
    PgRolesDiffer(n);
    assert |TableKeys(n.Policy().resources)| == 1;
  }

  lemma TagIsExempt(n: Names)
    ensures GroupTag(n.group) in HoldersWithGroups(n.Policy(), [n.exempt])
  {
    var d := n.Policy();
    var token := GroupToken(d, d.groups[1]);
    FlatClosure(d, n.exempt);
    assert d.groups[1].roles[0] == n.exempt;
    assert n.exempt in token && [n.exempt][0] in token;
    assert MeetsAny(token, [n.exempt]);
    assert GroupTag(d.groups[1].name) in GroupHolders(d, [n.exempt]);
  }

  /** Without inheritance, the declared role that holds a role is that role. */
  lemma FlatHolder(d: Declaration, h: string, role: string)
    requires forall i | 0 <= i < |d.roles| :: d.roles[i].includes == []
    requires h in EffectiveHolders(d, [role])
    ensures h == role
  {
    FlatClosure(d, h);
  }

  lemma GroupHolderIsTag(n: Names, h: string, roles: seq<string>)
    requires h in GroupHolders(n.Policy(), roles)
    ensures h == GroupTag(n.group)
  {
  }

  /** The holder the two masking grants share is the tag, and the second group of that name exempts it. */
  lemma OverlapIsExempt(n: Names, h: string)
    requires n.Fine()
    requires h in HoldersWithGroups(n.Policy(), [n.hashed]) && h in HoldersWithGroups(n.Policy(), [n.nulled])
    ensures h in HoldersWithGroups(n.Policy(), [n.exempt])
  {
    var d := n.Policy();
    if h in EffectiveHolders(d, [n.hashed]) && h in EffectiveHolders(d, [n.nulled]) {
      FlatHolder(d, h, n.hashed);
      FlatHolder(d, h, n.nulled);
      assert false;
    } else if h in GroupHolders(d, [n.hashed]) {
      GroupHolderIsTag(n, h, [n.hashed]);
      TagIsExempt(n);
    } else {
      GroupHolderIsTag(n, h, [n.nulled]);
      TagIsExempt(n);
    }
  }

  lemma ExemptIsUnmasked(n: Names, h: string)
    requires h in HoldersWithGroups(n.Policy(), [n.exempt])
    ensures h in UnmaskedHolders(n.Policy(), n.Table().grants)
  {
    var grants := n.Table().grants;
    assert grants[2].OptedOut() && grants[2].roles == [n.exempt];
  }

  lemma NoConflictIsReported(n: Names)
    requires n.Fine()
    ensures !MasksConflict(n.Policy(), n.Table())
  {
    var d, res := n.Policy(), n.Table();
    forall h ensures !HolderConflicts(d, res, h) {
      forall k: nat, l: nat | k < 3 && l < 3 && MaskDifferently(res.grants[k], res.grants[l])
          ensures !HeldApart(d, res, h, k, l) {
        assert {res.grants[k].roles, res.grants[l].roles} == {[n.hashed], [n.nulled]};
        if h in HoldersWithGroups(d, [n.hashed]) && h in HoldersWithGroups(d, [n.nulled]) {
          OverlapIsExempt(n, h);
          ExemptIsUnmasked(n, h);
        }
      }
    }
    if MasksConflict(d, res) {
      var h := ReportHasHolder(d, res);
      assert false;
    }
  }

  lemma TableIsFine(n: Names, accepts: string -> bool, c: ErrorCode)
    requires n.Fine()
    ensures !ResourceOffends(n.Policy(), accepts, n.Table(), c)
  {
    var d, res := n.Policy(), n.Table();
    NoConflictIsReported(n);
    AllRolesDeclared(n);
    var known := RoleNames(d);
    assert !ReferencesOffend(known, [n.hashed], c) && !ReferencesOffend(known, [n.nulled], c)
        && !ReferencesOffend(known, [n.exempt], c);
    forall k | 0 <= k < |res.grants| ensures !GrantOffends(known, accepts, res, res.grants[k], c) {
    }
  }

  lemma PolicyIsValid(n: Names, accepts: string -> bool)
    requires n.Fine()
    ensures IsValid(n.Policy(), accepts)
  {
    var d := n.Policy();
    forall c ensures !Offends(d, accepts, c) {
      NamesAreFine(n, c);
      TableIsFine(n, accepts, c);
      assert !ResourceOffends(d, accepts, d.resources[0], c);
      assert d.catalogGrants == [] && d.logins == [];
    }
  }

  lemma FirstGroupToken(n: Names)
    ensures GroupToken(n.Policy(), n.Policy().groups[0]) == {n.hashed, n.nulled}
  {
    var d := n.Policy();
    FlatClosure(d, n.hashed);
    FlatClosure(d, n.nulled);
    assert d.groups[0].roles[0] == n.hashed && d.groups[0].roles[1] == n.nulled;
  }

  lemma MaskersApply(n: Names)
    requires n.Fine()
    ensures ApplyApart({n.hashed, n.nulled}, n.Table(), 0, 1)
  {
    var token, grants := {n.hashed, n.nulled}, n.Table().grants;
    assert grants[0].roles[0] in token && grants[1].roles[0] in token;
    assert !HoldsOptedOut(token, n.Table());
    assert grants[0].Masks()[0] == (n.column, HashMask) && grants[1].Masks()[0] == (n.column, NullMask);
    assert MaskDifferently(grants[0], grants[1]);
  }

  /** Validation passes, and yet the members of the first group run into conflicting masks. */
  lemma SharedNameHidesConflict(n: Names, accepts: string -> bool, rules: seq<Rule>)
    requires n.Fine() && IsCompiled(n.Policy(), rules)
    ensures IsValid(n.Policy(), accepts) && MaskConflict(rules, GroupToken(n.Policy(), n.Policy().groups[0]))
  {
    var d := n.Policy();
    PolicyIsValid(n, accepts);
    GroupTokenIsClosed(d, d.groups[0]);
    FirstGroupToken(n);
    MaskersApply(n);
    assert d.resources[0].OnTrino() && TokenConflicts(GroupToken(d, d.groups[0]), d.resources[0]);
    RulesConflictIffGrantsDo(d, accepts, rules, GroupToken(d, d.groups[0]));
  }
}
