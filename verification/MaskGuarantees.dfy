/** Column masks: the conflicts validation reports are the conflicts the compiled rules run into. */
module MaskGuarantees {
  import opened Holders
  import opened PolicySchema
  import opened PolicyValidation
  import opened RegoCompiler
  import opened RegoRules
  import opened RoleGraph
  import opened Strings
  import opened Wrappers

  ghost predicate NoOtherError(d: Declaration, accepts: string -> bool)
  {
    forall c :: Offends(d, accepts, c) ==> c == ConflictingMask
  }

  ghost predicate DistinctGroupNames(d: Declaration)
  {
    forall i, j | 0 <= i < j < |d.groups| :: d.groups[i].name != d.groups[j].name
  }

  /** What validation establishes about a resource entry, mask conflicts aside. */
  ghost predicate SoundResource(d: Declaration, res: Resource)
  {
    && '.' in res.resource
    && (forall k | 0 <= k < |res.grants| :: AllDeclared(d, res.grants[k].roles))
    && (!res.OnTrino() ==> forall k | 0 <= k < |res.grants| :: res.grants[k].Masks() == [])
  }

  lemma ResourcesAreSound(d: Declaration, accepts: string -> bool, i: nat)
    requires NoOtherError(d, accepts) && i < |d.resources|
    ensures SoundResource(d, d.resources[i])
  {
    var res := d.resources[i];
    assert !Offends(d, accepts, InvalidIdentifier) && !Offends(d, accepts, UnknownRole)
        && !Offends(d, accepts, PostgresUnsupportedMask);
    assert !ResourceOffends(d, accepts, res, InvalidIdentifier);
    if '.' !in res.resource {
      SplitNone(res.resource, '.');
    }
    forall k | 0 <= k < |res.grants| ensures AllDeclared(d, res.grants[k].roles) {
      assert !GrantOffends(RoleNames(d), accepts, res, res.grants[k], UnknownRole);
    }
    forall k | !res.OnTrino() && 0 <= k < |res.grants| ensures res.grants[k].Masks() == [] {
      assert !GrantOffends(RoleNames(d), accepts, res, res.grants[k], PostgresUnsupportedMask);
    }
  }

  lemma TrinoTablesAreDistinct(d: Declaration, i: nat, j: nat)
    requires !HasRepeat(TableKeys(d.resources)) && i < |d.resources| && j < |d.resources|
    requires d.resources[i].OnTrino() && d.resources[j].OnTrino() && d.resources[i].resource == d.resources[j].resource
    ensures i == j
  {
    var keys := TableKeys(d.resources);
    assert keys[i] == keys[j];
  }

  // ---------------------------------------------------------------------------------------------
  // When the masks of a grant apply
  // ---------------------------------------------------------------------------------------------

  ghost predicate HoldsOptedOut(token: set<string>, res: Resource)
  {
    exists k :: 0 <= k < |res.grants| && res.grants[k].OptedOut() && MeetsAny(token, res.grants[k].roles)
  }

  /** The token holds a role of the grant, and no opted-out grant lifts its masks. */
  ghost predicate GrantApplies(token: set<string>, res: Resource, g: Grant)
  {
    MeetsAny(token, g.roles) && (g.OptedOut() || !HoldsOptedOut(token, res))
  }

  /** A grant with this row filter applies to the token. */
  ghost predicate HasFilter(token: set<string>, res: Resource, expression: string)
  {
    exists k :: 0 <= k < |res.grants| && res.grants[k].rowFilter == Some(expression) && expression != ""
                && GrantApplies(token, res, res.grants[k])
  }

  /** Guards over expanded holders and plain role tests agree on closed tokens. */
  lemma MaskGuardMeans(d: Declaration, token: set<string>, res: Resource, g: Grant)
    requires ClosedToken(d, token) && SoundResource(d, res)
    ensures Passes(token, SetOf(g.roles), Spared(d, res, g)) <==> GrantApplies(token, res, g)
  {
    assert token * SetOf(g.roles) != {} <==> MeetsAny(token, g.roles) by {
      if r :| r in g.roles && r in token {
        assert r in token * SetOf(g.roles);
      }
    }
    forall k | 0 <= k < |res.grants| ensures token * EffectiveHolders(d, res.grants[k].roles) != {} <==>
        MeetsAny(token, res.grants[k].roles) {
      HoldersMatchRoles(d, token, res.grants[k].roles);
    }
    var spared := OptedOutHolders(d, res.grants);
    if h :| h in token * spared {
      var k :| 0 <= k < |res.grants| && res.grants[k].OptedOut() && h in EffectiveHolders(d, res.grants[k].roles);
      assert h in token * EffectiveHolders(d, res.grants[k].roles);
    }
    if HoldsOptedOut(token, res) {
      var k :| 0 <= k < |res.grants| && res.grants[k].OptedOut() && MeetsAny(token, res.grants[k].roles);
      var h :| h in token * EffectiveHolders(d, res.grants[k].roles);
      assert h in token * spared;
    }
  }

  /** A grant that opted out and one that did not never apply together. */
  lemma OptedOutExcludesOthers(token: set<string>, res: Resource, k: nat, l: nat)
    requires k < |res.grants| && l < |res.grants| && res.grants[k].OptedOut() != res.grants[l].OptedOut()
    ensures !(GrantApplies(token, res, res.grants[k]) && GrantApplies(token, res, res.grants[l]))
  {
  }

  /** An opted-out grant and another one of the same table never mask for the same closed token. */
  lemma MixedMasksNeverConflict(d: Declaration, token: set<string>, res: Resource, k: nat, l: nat)
    requires ClosedToken(d, token) && SoundResource(d, res)
    requires k < |res.grants| && l < |res.grants| && res.grants[k].OptedOut() != res.grants[l].OptedOut()
    ensures !(Passes(token, SetOf(res.grants[k].roles), Spared(d, res, res.grants[k]))
              && Passes(token, SetOf(res.grants[l].roles), Spared(d, res, res.grants[l])))
  {
    MaskGuardMeans(d, token, res, res.grants[k]);
    MaskGuardMeans(d, token, res, res.grants[l]);
    OptedOutExcludesOthers(token, res, k, l);
  }

  /** The compiled row filters a token gets on a table are those of the grants that apply to it. */
  lemma FilteredIffGrantApplies(d: Declaration, accepts: string -> bool, rules: seq<Rule>, token: set<string>, i: nat,
        expression: string)
    requires NoOtherError(d, accepts) && IsCompiled(d, rules) && ClosedToken(d, token)
    requires i < |d.resources| && d.resources[i].OnTrino() && '.' in d.resources[i].resource
    ensures var (schema, table) := SplitLast(d.resources[i].resource).value;
            (exists rule :: rule in rules && Filters(rule, token, TableTarget(DEPLOYED_CATALOG, schema, table))
                            && rule.expression == expression)
            <==> HasFilter(token, d.resources[i], expression)
  {
    var res := d.resources[i];
    var (schema, table) := SplitLast(res.resource).value;
    var target := TableTarget(DEPLOYED_CATALOG, schema, table);
    ResourcesAreSound(d, accepts, i);
    if rule :| rule in rules && Filters(rule, token, target) && rule.expression == expression {
      assert IsCompiledRule(d, rule);
      var j :| 0 <= j < |d.resources| && IsResourceRule(d, d.resources[j], rule);
      var k :| 0 <= k < |d.resources[j].grants| && IsGrantRule(d, d.resources[j], d.resources[j].grants[k], rule);
      assert IsFilterRule(d, d.resources[j], d.resources[j].grants[k], rule);
      assert !Offends(d, accepts, DuplicateResource);
      TrinoTablesAreDistinct(d, i, j);
      MaskGuardMeans(d, token, res, res.grants[k]);
    }
    if k :| 0 <= k < |res.grants| && res.grants[k].rowFilter == Some(expression) && expression != ""
            && GrantApplies(token, res, res.grants[k]) {
      var rule := RowFilter(DEPLOYED_CATALOG, schema, table, expression, SetOf(res.grants[k].roles),
        Spared(d, res, res.grants[k]));
      assert IsFilterRule(d, res, res.grants[k], rule);
      assert IsGrantRule(d, res, res.grants[k], rule);
      assert IsResourceRule(d, d.resources[i], rule);
      MaskGuardMeans(d, token, res, res.grants[k]);
    }
  }

  lemma ExpressionsTellKinds(a: MaskKind, b: MaskKind, col: string)
    ensures MaskExpression(a, col) == MaskExpression(b, col) <==> a == b
  {
    assert MaskExpression(HashMask, col)[0] == 't';
    assert MaskExpression(PartialMask, col)[0] == 'c';
    assert MaskExpression(NullMask, col)[0] == 'n';
  }

  // ---------------------------------------------------------------------------------------------
  // Conflicts, in terms of tokens and in terms of holders
  // ---------------------------------------------------------------------------------------------

  predicate MaskDifferently(g: Grant, h: Grant)
  {
    exists m, n :: 0 <= m < |g.Masks()| && 0 <= n < |h.Masks()| && g.Masks()[m].0 == h.Masks()[n].0
                   && g.Masks()[m].1 != h.Masks()[n].1
  }

  /** Two grants apply to the token and mask one column in different ways. */
  ghost predicate ApplyApart(token: set<string>, res: Resource, k: nat, l: nat)
  {
    && k < |res.grants| && l < |res.grants| && MaskDifferently(res.grants[k], res.grants[l])
    && GrantApplies(token, res, res.grants[k]) && GrantApplies(token, res, res.grants[l])
  }

  ghost predicate TokenConflicts(token: set<string>, res: Resource)
  {
    exists k, l :: ApplyApart(token, res, k, l)
  }

  lemma RuleOfMask(d: Declaration, rules: seq<Rule>, i: nat, k: nat, m: nat)
    requires IsCompiled(d, rules) && i < |d.resources| && d.resources[i].OnTrino() && '.' in d.resources[i].resource
    requires k < |d.resources[i].grants| && m < |d.resources[i].grants[k].Masks()|
    ensures var res := d.resources[i]; var g := res.grants[k]; var (schema, table) := SplitLast(res.resource).value;
            MaskRule(schema, table, g.Masks()[m], SetOf(g.roles), Spared(d, res, g)) in rules
  {
    var res := d.resources[i];
    var g := res.grants[k];
    var (schema, table) := SplitLast(res.resource).value;
    var rule := MaskRule(schema, table, g.Masks()[m], SetOf(g.roles), Spared(d, res, g));
    assert IsMaskRule(d, res, g, rule);
    assert IsGrantRule(d, res, res.grants[k], rule);
    assert IsResourceRule(d, d.resources[i], rule);
  }

  lemma MaskOfRule(d: Declaration, rules: seq<Rule>, rule: Rule) returns (i: nat, k: nat, m: nat)
    requires IsCompiled(d, rules) && rule in rules && rule.ColumnMask?
    ensures i < |d.resources| && k < |d.resources[i].grants| && m < |d.resources[i].grants[k].Masks()|
    ensures d.resources[i].OnTrino() && SplitLast(d.resources[i].resource).Some?
    ensures var res := d.resources[i]; var g := res.grants[k]; var (schema, table) := SplitLast(res.resource).value;
            rule == MaskRule(schema, table, g.Masks()[m], SetOf(g.roles), Spared(d, res, g))
  {
    assert IsCompiledRule(d, rule);
    i :| 0 <= i < |d.resources| && IsResourceRule(d, d.resources[i], rule);
    var res := d.resources[i];
    k :| 0 <= k < |res.grants| && IsGrantRule(d, res, res.grants[k], rule);
    var g := res.grants[k];
    assert IsMaskRule(d, res, g, rule);
    var (schema, table) := SplitLast(res.resource).value;
    m :| 0 <= m < |g.Masks()| && rule == MaskRule(schema, table, g.Masks()[m], SetOf(g.roles), Spared(d, res, g));
  }

  /** A grant that applies to the token masks the column with this expression: the hash of the value, its first
      two characters and three stars, or nothing at all. */
  ghost predicate HasMask(token: set<string>, res: Resource, col: string, expression: string)
  {
    exists k :: 0 <= k < |res.grants| && GrantApplies(token, res, res.grants[k])
                && GivesMask(res.grants[k], col, expression)
  }

  ghost predicate GivesMask(g: Grant, col: string, expression: string)
  {
    || ((col, HashMask) in g.Masks() && expression == "to_hex(sha256(cast(" + col + " as varbinary)))")
    || ((col, PartialMask) in g.Masks() && expression == "concat(substr(" + col + ", 1, 2), '***')")
    || ((col, NullMask) in g.Masks() && expression == "null")
  }

  lemma MaskGivesExpression(g: Grant, col: string, expression: string)
    ensures GivesMask(g, col, expression) <==>
      exists m :: 0 <= m < |g.Masks()| && g.Masks()[m].0 == col
                  && MaskExpression(g.Masks()[m].1, col) == expression
  {
    if GivesMask(g, col, expression) {
      var kind := if (col, HashMask) in g.Masks() && expression == MaskExpression(HashMask, col) then HashMask
        else if (col, PartialMask) in g.Masks() && expression == MaskExpression(PartialMask, col) then PartialMask
        else NullMask;
      var m :| 0 <= m < |g.Masks()| && g.Masks()[m] == (col, kind);
      assert MaskExpression(g.Masks()[m].1, col) == expression;
    }
    if m :| 0 <= m < |g.Masks()| && g.Masks()[m].0 == col && MaskExpression(g.Masks()[m].1, col) == expression {
      assert (col, g.Masks()[m].1) in g.Masks();
    }
  }

  /** The expressions that a token sees a column through are those of the grants that apply to it. */
  lemma MaskedIffGrantApplies(d: Declaration, accepts: string -> bool, rules: seq<Rule>, token: set<string>, i: nat,
        col: string, expression: string)
    requires NoOtherError(d, accepts) && IsCompiled(d, rules) && ClosedToken(d, token)
    requires i < |d.resources| && d.resources[i].OnTrino() && '.' in d.resources[i].resource
    ensures var (schema, table) := SplitLast(d.resources[i].resource).value;
            (exists rule :: rule in rules && Masks(rule, token, Column("iceberg", schema, table, col))
                            && rule.expression == expression)
            <==> HasMask(token, d.resources[i], col, expression)
  {
    var res := d.resources[i];
    var (schema, table) := SplitLast(res.resource).value;
    var column := Column("iceberg", schema, table, col);
    ResourcesAreSound(d, accepts, i);
    if rule :| rule in rules && Masks(rule, token, column) && rule.expression == expression {
      var j, k, m := MaskOfRule(d, rules, rule);
      assert !Offends(d, accepts, DuplicateResource);
      TrinoTablesAreDistinct(d, i, j);
      MaskGuardMeans(d, token, res, res.grants[k]);
      MaskGivesExpression(res.grants[k], col, expression);
      assert GivesMask(res.grants[k], col, expression);
    }
    if k :| 0 <= k < |res.grants| && GrantApplies(token, res, res.grants[k])
            && GivesMask(res.grants[k], col, expression) {
      var g := res.grants[k];
      MaskGivesExpression(g, col, expression);
      var m :| 0 <= m < |g.Masks()| && g.Masks()[m].0 == col && MaskExpression(g.Masks()[m].1, col) == expression;
      RuleOfMask(d, rules, i, k, m);
      MaskGuardMeans(d, token, res, g);
      assert Masks(MaskRule(schema, table, g.Masks()[m], SetOf(g.roles), Spared(d, res, g)), token, column);
    }
  }

  /** The compiled rules conflict on a closed token exactly when two grants of one table do. */
  lemma RulesConflictIffGrantsDo(d: Declaration, accepts: string -> bool, rules: seq<Rule>, token: set<string>)
    requires NoOtherError(d, accepts) && IsCompiled(d, rules) && ClosedToken(d, token)
    ensures MaskConflict(rules, token) <==>
        exists i :: 0 <= i < |d.resources| && d.resources[i].OnTrino() && TokenConflicts(token, d.resources[i])
  {
    if MaskConflict(rules, token) {
      var a, b :| a in rules && b in rules && FireApart(a, b, token);
      var i, k, m := MaskOfRule(d, rules, a);
      var j, l, n := MaskOfRule(d, rules, b);
      assert !Offends(d, accepts, DuplicateResource);
      TrinoTablesAreDistinct(d, i, j);
      ResourcesAreSound(d, accepts, i);
      var res := d.resources[i];
      MaskGuardMeans(d, token, res, res.grants[k]);
      MaskGuardMeans(d, token, res, res.grants[l]);
      assert MaskDifferently(res.grants[k], res.grants[l]);
      assert ApplyApart(token, res, k, l);
      assert TokenConflicts(token, d.resources[i]);
    }
    if i :| 0 <= i < |d.resources| && d.resources[i].OnTrino() && TokenConflicts(token, d.resources[i]) {
      var res := d.resources[i];
      var k: nat, l: nat :| ApplyApart(token, res, k, l);
      var g, h := res.grants[k], res.grants[l];
      var m, n :| 0 <= m < |g.Masks()| && 0 <= n < |h.Masks()| && g.Masks()[m].0 == h.Masks()[n].0
                  && g.Masks()[m].1 != h.Masks()[n].1;
      ResourcesAreSound(d, accepts, i);
      RuleOfMask(d, rules, i, k, m);
      RuleOfMask(d, rules, i, l, n);
      MaskGuardMeans(d, token, res, g);
      MaskGuardMeans(d, token, res, h);
      ExpressionsTellKinds(g.Masks()[m].1, h.Masks()[n].1, g.Masks()[m].0);
      var (schema, table) := SplitLast(res.resource).value;
      var a := MaskRule(schema, table, g.Masks()[m], SetOf(g.roles), Spared(d, res, g));
      var b := MaskRule(schema, table, h.Masks()[n], SetOf(h.roles), Spared(d, res, h));
      assert FireApart(a, b, token);
    }
  }

  /** The holder's name stands for the token in every holder computation. */
  ghost predicate StandsFor(d: Declaration, holder: string, token: set<string>)
  {
    forall roles {:trigger HoldersWithGroups(d, roles)} ::
      holder in HoldersWithGroups(d, roles) <==> MeetsAny(token, roles)
  }

  lemma RoleStandsForItsToken(d: Declaration, name: string)
    requires name in RoleNames(d) && IsRoleName(name)
    ensures StandsFor(d, name, Closure(d, name))
  {
    forall roles ensures name in HoldersWithGroups(d, roles) <==> MeetsAny(Closure(d, name), roles) {
      assert name !in GroupHolders(d, roles) by {
        forall i | 0 <= i < |d.groups| ensures name != GroupTag(d.groups[i].name) {
          RoleNameIsNoTag(name, d.groups[i].name);
        }
      }
      assert HoldsAny(d, name, roles) <==> MeetsAny(Closure(d, name), roles);
    }
  }

  /** What the tag of a group name stands for: the tokens of all groups of that name together. */
  ghost function NameToken(d: Declaration, name: string): set<string>
  {
    set i, r | 0 <= i < |d.groups| && d.groups[i].name == name && r in GroupToken(d, d.groups[i]) :: r
  }

  lemma TagStandsForNameToken(d: Declaration, name: string)
    requires forall n | n in RoleNames(d) :: IsRoleName(n)
    ensures StandsFor(d, GroupTag(name), NameToken(d, name))
  {
    var tag := GroupTag(name);
    forall roles ensures tag in HoldersWithGroups(d, roles) <==> MeetsAny(NameToken(d, name), roles) {
      forall n | n in RoleNames(d) ensures n != tag {
        RoleNameIsNoTag(n, name);
      }
      if tag in GroupHolders(d, roles) {
        var j :| 0 <= j < |d.groups| && MeetsAny(GroupToken(d, d.groups[j]), roles)
                 && GroupTag(d.groups[j].name) == tag;
        TagsAreInjective(name, d.groups[j].name);
      }
    }
  }

  /** The holder is one of those a reported conflict of the two grants names. */
  ghost predicate HeldApart(d: Declaration, res: Resource, holder: string, k: nat, l: nat)
  {
    && k < |res.grants| && l < |res.grants| && MaskDifferently(res.grants[k], res.grants[l])
    && res.grants[k].OptedOut() == res.grants[l].OptedOut()
    && holder in HoldersWithGroups(d, res.grants[k].roles) && holder in HoldersWithGroups(d, res.grants[l].roles)
    && (res.grants[k].OptedOut() || holder !in UnmaskedHolders(d, res.grants))
  }

  ghost predicate HolderConflicts(d: Declaration, res: Resource, holder: string)
  {
    exists k, l :: HeldApart(d, res, holder, k, l)
  }

  lemma ReportHasHolder(d: Declaration, res: Resource) returns (h: string)
    requires MasksConflict(d, res)
    ensures HolderConflicts(d, res, h)
  {
    var unmasked := UnmaskedHolders(d, res.grants);
    var col, a, b :| IsEntry(d, res.grants, col, a) && IsEntry(d, res.grants, col, b)
                     && EntriesConflict(a, b, unmasked);
    var k :| 0 <= k < |res.grants| && EntryOf(d, res.grants[k], col, a);
    var l :| 0 <= l < |res.grants| && EntryOf(d, res.grants[l], col, b);
    h :| h in (if a.optedOut then a.holders * b.holders else a.holders * b.holders - unmasked);
    assert MaskDifferently(res.grants[k], res.grants[l]);
    assert HeldApart(d, res, h, k, l);
  }

  lemma SharedHolderConflicts(a: MaskEntry, b: MaskEntry, unmasked: set<string>, h: string)
    requires a.kind != b.kind && a.optedOut == b.optedOut && h in a.holders && h in b.holders
        && (a.optedOut || h !in unmasked)
    ensures EntriesConflict(a, b, unmasked)
  {
    assert h in a.holders * b.holders;
    assert !a.optedOut ==> h in a.holders * b.holders - unmasked;
  }

  lemma GrantHasEntry(d: Declaration, grants: seq<Grant>, k: nat, m: nat)
    requires k < |grants| && m < |grants[k].Masks()|
    ensures IsEntry(d, grants, grants[k].Masks()[m].0,
        MaskEntry(grants[k].OptedOut(), HoldersWithGroups(d, grants[k].roles), grants[k].Masks()[m].1))
  {
    var g := grants[k];
    assert g.Masks()[m] in g.Masks();
    assert EntryOf(d, grants[k], g.Masks()[m].0, MaskEntry(g.OptedOut(), HoldersWithGroups(d, g.roles),
        g.Masks()[m].1));
  }

  lemma HolderIsReported(d: Declaration, res: Resource, h: string)
    requires HolderConflicts(d, res, h)
    ensures MasksConflict(d, res)
  {
    var k: nat, l: nat :| HeldApart(d, res, h, k, l);
    var g, g' := res.grants[k], res.grants[l];
    var m, n :| 0 <= m < |g.Masks()| && 0 <= n < |g'.Masks()| && g.Masks()[m].0 == g'.Masks()[n].0
                && g.Masks()[m].1 != g'.Masks()[n].1;
    GrantHasEntry(d, res.grants, k, m);
    GrantHasEntry(d, res.grants, l, n);
    SharedHolderConflicts(MaskEntry(g.OptedOut(), HoldersWithGroups(d, g.roles), g.Masks()[m].1),
                          MaskEntry(g'.OptedOut(), HoldersWithGroups(d, g'.roles), g'.Masks()[n].1),
                            UnmaskedHolders(d, res.grants), h);
  }

  lemma UnmaskedHolderIffOptedOut(d: Declaration, res: Resource, holder: string, token: set<string>)
    requires StandsFor(d, holder, token)
    ensures holder in UnmaskedHolders(d, res.grants) <==> HoldsOptedOut(token, res)
  {
    if holder in UnmaskedHolders(d, res.grants) {
      var k :| 0 <= k < |res.grants| && res.grants[k].OptedOut() && holder in HoldersWithGroups(d, res.grants[k].roles);
      assert MeetsAny(token, res.grants[k].roles);
    }
    if HoldsOptedOut(token, res) {
      var k :| 0 <= k < |res.grants| && res.grants[k].OptedOut() && MeetsAny(token, res.grants[k].roles);
      assert holder in HoldersWithGroups(d, res.grants[k].roles);
    }
  }

  /** A holder is in a conflict exactly when the token it stands for is. */
  lemma HolderConflictsIffTokenDoes(d: Declaration, res: Resource, holder: string, token: set<string>)
    requires StandsFor(d, holder, token)
    ensures HolderConflicts(d, res, holder) <==> TokenConflicts(token, res)
  {
    UnmaskedHolderIffOptedOut(d, res, holder, token);
    if k: nat, l: nat :| ApplyApart(token, res, k, l) {
      if res.grants[k].OptedOut() != res.grants[l].OptedOut() {
        OptedOutExcludesOthers(token, res, k, l);
      }
      assert holder in HoldersWithGroups(d, res.grants[k].roles) && holder in HoldersWithGroups(d, res.grants[l].roles);
      assert HeldApart(d, res, holder, k, l);
    }
    if k: nat, l: nat :| HeldApart(d, res, holder, k, l) {
      assert HoldersWithGroups(d, res.grants[k].roles) == HoldersWithGroups(d, res.grants[k].roles);
      assert MeetsAny(token, res.grants[k].roles) && MeetsAny(token, res.grants[l].roles);
      assert ApplyApart(token, res, k, l);
    }
  }

  // ---------------------------------------------------------------------------------------------
  // The theorem
  // ---------------------------------------------------------------------------------------------

  /** Tokens that validation looks at: a role expanded, or the tokens of all groups of one name together. */
  ghost predicate IsHolderToken(d: Declaration, token: set<string>)
  {
    || (exists i :: 0 <= i < |d.roles| && token == Closure(d, d.roles[i].name))
    || (exists i :: 0 <= i < |d.groups| && token == NameToken(d, d.groups[i].name))
  }

  lemma NameTokenIsClosed(d: Declaration, name: string)
    ensures ClosedToken(d, NameToken(d, name))
  {
    forall x, y | x in NameToken(d, name) && y in Closure(d, x) ensures y in NameToken(d, name) {
      var i :| 0 <= i < |d.groups| && d.groups[i].name == name && x in GroupToken(d, d.groups[i]);
      GroupTokenIsClosed(d, d.groups[i]);
      assert y in GroupToken(d, d.groups[i]);
    }
  }

  lemma HolderTokenIsClosed(d: Declaration, token: set<string>)
    requires IsHolderToken(d, token)
    ensures ClosedToken(d, token)
  {
    if i :| 0 <= i < |d.roles| && token == Closure(d, d.roles[i].name) {
      ExpandedTokenIsClosed(d, d.roles[i].name);
    } else {
      var i :| 0 <= i < |d.groups| && token == NameToken(d, d.groups[i].name);
      NameTokenIsClosed(d, d.groups[i].name);
    }
  }

  lemma RoleNamesAreWellFormed(d: Declaration, accepts: string -> bool)
    requires !Offends(d, accepts, InvalidIdentifier)
    ensures forall n | n in RoleNames(d) :: IsRoleName(n)
  {
    forall i | 0 <= i < |d.roles| ensures IsRoleName(d.roles[i].name) {
      assert !NamedReferencesOffend(RoleNames(d), d.roles[i].name, d.roles[i].includes, InvalidIdentifier);
    }
  }

  /** Every such token has a holder that stands for it. */
  lemma TokenHasHolder(d: Declaration, token: set<string>) returns (holder: string)
    requires IsHolderToken(d, token) && forall n | n in RoleNames(d) :: IsRoleName(n)
    ensures StandsFor(d, holder, token)
  {
    if i :| 0 <= i < |d.roles| && token == Closure(d, d.roles[i].name) {
      holder := d.roles[i].name;
      RoleStandsForItsToken(d, holder);
    } else {
      var i :| 0 <= i < |d.groups| && token == NameToken(d, d.groups[i].name);
      holder := GroupTag(d.groups[i].name);
      TagStandsForNameToken(d, d.groups[i].name);
    }
  }

  /** Every holder that is reported stands for such a token. */
  lemma HolderHasToken(d: Declaration, roles: seq<string>, holder: string) returns (token: set<string>)
    requires holder in HoldersWithGroups(d, roles) && forall n | n in RoleNames(d) :: IsRoleName(n)
    ensures IsHolderToken(d, token) && StandsFor(d, holder, token)
  {
    if holder in RoleNames(d) {
      token := Closure(d, holder);
      RoleStandsForItsToken(d, holder);
    } else {
      var i :| 0 <= i < |d.groups| && holder == GroupTag(d.groups[i].name);
      token := NameToken(d, d.groups[i].name);
      TagStandsForNameToken(d, d.groups[i].name);
    }
  }

  lemma ReportedConflictHasToken(d: Declaration, accepts: string -> bool, rules: seq<Rule>) returns (token: set<string>)
    requires NoOtherError(d, accepts) && IsCompiled(d, rules) && Offends(d, accepts, ConflictingMask)
    ensures IsHolderToken(d, token) && MaskConflict(rules, token)
  {
    RoleNamesAreWellFormed(d, accepts);
    var i :| 0 <= i < |d.resources| && ResourceOffends(d, accepts, d.resources[i], ConflictingMask);
    var res := d.resources[i];
    assert MasksConflict(d, res);
    var holder := ReportHasHolder(d, res);
    var k: nat, l: nat :| HeldApart(d, res, holder, k, l);
    token := HolderHasToken(d, res.grants[k].roles, holder);
    HolderConflictsIffTokenDoes(d, res, holder, token);
    HolderTokenIsClosed(d, token);
    ResourcesAreSound(d, accepts, i);
    assert d.resources[i].OnTrino() && TokenConflicts(token, d.resources[i]);
    RulesConflictIffGrantsDo(d, accepts, rules, token);
  }

  lemma ConflictingTokenIsReported(d: Declaration, accepts: string -> bool, rules: seq<Rule>, token: set<string>)
    requires NoOtherError(d, accepts) && IsCompiled(d, rules) && IsHolderToken(d, token) && MaskConflict(rules, token)
    ensures Offends(d, accepts, ConflictingMask)
  {
    RoleNamesAreWellFormed(d, accepts);
    HolderTokenIsClosed(d, token);
    RulesConflictIffGrantsDo(d, accepts, rules, token);
    var i :| 0 <= i < |d.resources| && d.resources[i].OnTrino() && TokenConflicts(token, d.resources[i]);
    var holder := TokenHasHolder(d, token);
    HolderConflictsIffTokenDoes(d, d.resources[i], holder, token);
    HolderIsReported(d, d.resources[i], holder);
    assert ResourceOffends(d, accepts, d.resources[i], ConflictingMask);
  }

  /** With no other error, a mask conflict is reported exactly when the expansion of some declared role, or
      the union of the tokens of all groups of some name, makes two compiled rules mask one column with
      different expressions. */
  lemma ConflictIsReportedIffHolderTokenConflicts(d: Declaration, accepts: string -> bool, rules: seq<Rule>)
    requires NoOtherError(d, accepts) && IsCompiled(d, rules)
    ensures Offends(d, accepts, ConflictingMask) <==>
        exists token :: IsHolderToken(d, token) && MaskConflict(rules, token)
  {
    if Offends(d, accepts, ConflictingMask) {
      var token := ReportedConflictHasToken(d, accepts, rules);
      assert IsHolderToken(d, token) && MaskConflict(rules, token);
    }
    if token :| IsHolderToken(d, token) && MaskConflict(rules, token) {
      ConflictingTokenIsReported(d, accepts, rules, token);
    }
  }

  /** Tokens that somebody the declaration names can carry: a role expanded, or all roles of a group. */
  ghost predicate IsDeclaredToken(d: Declaration, token: set<string>)
  {
    || (exists i :: 0 <= i < |d.roles| && token == Closure(d, d.roles[i].name))
    || (exists i :: 0 <= i < |d.groups| && token == GroupToken(d, d.groups[i]))
  }

  lemma OwnNameToken(d: Declaration, i: nat)
    requires i < |d.groups| && forall j | 0 <= j < |d.groups| && d.groups[j].name == d.groups[i].name :: j == i
    ensures NameToken(d, d.groups[i].name) == GroupToken(d, d.groups[i])
  {
  }

  lemma HolderTokensAreDeclared(d: Declaration, token: set<string>)
    requires DistinctGroupNames(d)
    ensures IsHolderToken(d, token) <==> IsDeclaredToken(d, token)
  {
    forall i | 0 <= i < |d.groups| ensures NameToken(d, d.groups[i].name) == GroupToken(d, d.groups[i]) {
      OwnNameToken(d, i);
    }
  }

  /** With distinct group names these are the tokens of the declared roles and groups. */
  lemma ConflictIsReportedIffTokenConflicts(d: Declaration, accepts: string -> bool, rules: seq<Rule>)
    requires NoOtherError(d, accepts) && DistinctGroupNames(d) && IsCompiled(d, rules)
    ensures Offends(d, accepts, ConflictingMask) <==>
        exists token :: IsDeclaredToken(d, token) && MaskConflict(rules, token)
  {
    ConflictIsReportedIffHolderTokenConflicts(d, accepts, rules);
    forall token ensures IsHolderToken(d, token) <==> IsDeclaredToken(d, token) {
      HolderTokensAreDeclared(d, token);
    }
  }
}
