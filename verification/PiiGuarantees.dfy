/** Reading a PII table masks its sensitive columns: where that holds, and the one schema where it may not. */
module PiiGuarantees {
  import opened AccessGuarantees
  import opened Digraph
  import opened Holders
  import opened MaskGuarantees
  import opened PolicySchema
  import opened PolicyValidation
  import opened RegoCompiler
  import opened RegoRules
  import opened RoleGraph
  import opened Strings
  import opened Wrappers

  ghost predicate MayRead(rules: seq<Rule>, token: set<string>, res: Resource)
    requires '.' in res.resource
  {
    var (schema, table) := SplitLast(res.resource).value;
    Allowed(rules, token, SelectFromColumns, TableTarget(DEPLOYED_CATALOG, schema, table))
  }

  /** Every sensitive column is masked for the token. */
  ghost predicate AllMasked(rules: seq<Rule>, token: set<string>, res: Resource)
    requires '.' in res.resource
  {
    var (schema, table) := SplitLast(res.resource).value;
    forall col | col in res.sensitiveColumns :: Masked(rules, token, Column(DEPLOYED_CATALOG, schema, table, col))
  }

  /** The token holds a grant that masks the column. */
  ghost predicate HoldsMask(token: set<string>, res: Resource, col: string)
  {
    exists k :: 0 <= k < |res.grants| && MasksColumn(res.grants[k], col) && MeetsAny(token, res.grants[k].roles)
  }

  /** For a closed token without an opted-out grant, a column is masked exactly when a held grant masks it. */
  lemma MaskedIffHeld(d: Declaration, accepts: string -> bool, rules: seq<Rule>, token: set<string>, i: nat,
        col: string)
    requires IsValid(d, accepts) && IsCompiled(d, rules) && ClosedToken(d, token)
    requires i < |d.resources| && d.resources[i].OnTrino() && '.' in d.resources[i].resource
        && !HoldsOptedOut(token, d.resources[i])
    ensures var (schema, table) := SplitLast(d.resources[i].resource).value;
            Masked(rules, token, Column(DEPLOYED_CATALOG, schema, table, col)) <==>
              HoldsMask(token, d.resources[i], col)
  {
    var res := d.resources[i];
    var (schema, table) := SplitLast(res.resource).value;
    var column := Column(DEPLOYED_CATALOG, schema, table, col);
    ResourcesAreSound(d, accepts, i);
    if rule :| rule in rules && Masks(rule, token, column) {
      var j, k, m := MaskOfRule(d, rules, rule);
      assert !Offends(d, accepts, DuplicateResource);
      TrinoTablesAreDistinct(d, i, j);
      MaskGuardMeans(d, token, res, res.grants[k]);
      assert MasksColumn(res.grants[k], col);
    }
    if k :| 0 <= k < |res.grants| && MasksColumn(res.grants[k], col) && MeetsAny(token, res.grants[k].roles) {
      var g := res.grants[k];
      var m :| 0 <= m < |g.Masks()| && g.Masks()[m].0 == col;
      RuleOfMask(d, rules, i, k, m);
      MaskGuardMeans(d, token, res, g);
      assert Masks(MaskRule(schema, table, g.Masks()[m], SetOf(g.roles), Spared(d, res, g)), token, column);
    }
  }

  /** A select grant on PII that is valid and did not opt out masks every sensitive column itself. */
  lemma SelectGrantMasks(d: Declaration, accepts: string -> bool, i: nat, k: nat, token: set<string>, col: string)
    requires IsValid(d, accepts) && i < |d.resources| && k < |d.resources[i].grants|
        && d.resources[i].classification == Pii
    requires Select in d.resources[i].grants[k].privileges && MeetsAny(token, d.resources[i].grants[k].roles)
    requires !HoldsOptedOut(token, d.resources[i]) && col in d.resources[i].sensitiveColumns
    ensures HoldsMask(token, d.resources[i], col)
  {
    var res := d.resources[i];
    assert !Offends(d, accepts, PiiUnmasked);
    assert !ResourceOffends(d, accepts, res, PiiUnmasked);
    assert !GrantOffends(RoleNames(d), accepts, res, res.grants[k], PiiUnmasked);
    var n :| 0 <= n < |res.sensitiveColumns| && res.sensitiveColumns[n] == col;
    assert MasksColumn(res.grants[k], res.sensitiveColumns[n]);
  }

  /** What a role that may browse the catalog needs for a PII table in the information schema: an
      opted-out grant, or masks on all sensitive columns. */
  ghost predicate BrowserIsCovered(d: Declaration, res: Resource, role: string)
  {
    HoldsOptedOut(Closure(d, role), res) || forall col | col in res.sensitiveColumns ::
      HoldsMask(Closure(d, role), res, col)
  }

  ghost predicate BrowsersAreCovered(d: Declaration, res: Resource)
  {
    forall i, role | 0 <= i < |d.catalogGrants| && role in d.catalogGrants[i].roles :: BrowserIsCovered(d, res, role)
  }

  /** Whenever a closed token without an opted-out grant may read the table, the table is masked for it. */
  ghost predicate ReadsAreMasked(d: Declaration, rules: seq<Rule>, res: Resource)
    requires '.' in res.resource
  {
    forall token | ClosedToken(d, token) && !HoldsOptedOut(token, res) && MayRead(rules, token, res) ::
        AllMasked(rules, token, res)
  }

  lemma MeetingIsMonotone(small: set<string>, large: set<string>, roles: seq<string>)
    requires small <= large
    ensures MeetsAny(small, roles) ==> MeetsAny(large, roles)
  {
  }

  lemma CoveredReadIsMasked(d: Declaration, accepts: string -> bool, rules: seq<Rule>, i: nat, token: set<string>)
    requires IsValid(d, accepts) && IsCompiled(d, rules)
    requires i < |d.resources| && d.resources[i].OnTrino() && d.resources[i].classification == Pii
        && '.' in d.resources[i].resource
    requires SplitLast(d.resources[i].resource).value.0 != INFORMATION_SCHEMA || BrowsersAreCovered(d, d.resources[i])
    requires ClosedToken(d, token) && !HoldsOptedOut(token, d.resources[i]) && MayRead(rules, token, d.resources[i])
    ensures AllMasked(rules, token, d.resources[i])
  {
    var res := d.resources[i];
    var (schema, table) := SplitLast(res.resource).value;
    TableAccessIffGranted(d, accepts, rules, token, schema, table);
    forall col | col in res.sensitiveColumns
        ensures Masked(rules, token, Column(DEPLOYED_CATALOG, schema, table, col)) {
      MaskedIffHeld(d, accepts, rules, token, i, col);
      if GrantsTable(d, token, Select, schema, table) {
        var j, k :| 0 <= j < |d.resources| && 0 <= k < |d.resources[j].grants|
                    && GrantAllows(d.resources[j], d.resources[j].grants[k], token, Select, schema, table);
        assert !Offends(d, accepts, DuplicateResource);
        TrinoTablesAreDistinct(d, i, j);
        SelectGrantMasks(d, accepts, i, k, token, col);
      } else {
        var n :| 0 <= n < |d.catalogGrants| && MeetsAny(token, d.catalogGrants[n].roles);
        var role :| role in d.catalogGrants[n].roles && role in token;
        CoverCarriesOver(d, res, token, role, col);
      }
    }
  }

  lemma CoverCarriesOver(d: Declaration, res: Resource, token: set<string>, role: string, col: string)
    requires ClosedToken(d, token) && role in token && !HoldsOptedOut(token, res) && BrowserIsCovered(d, res, role)
        && col in res.sensitiveColumns
    ensures HoldsMask(token, res, col)
  {
    var own := Closure(d, role);
    assert own <= token;
    forall k | 0 <= k < |res.grants| {
      MeetingIsMonotone(own, token, res.grants[k].roles);
    }
    assert HoldsMask(own, res, col);
  }

  lemma MaskedBrowserIsCovered(d: Declaration, accepts: string -> bool, rules: seq<Rule>, i: nat, n: nat, role: string)
    requires IsValid(d, accepts) && IsCompiled(d, rules)
    requires i < |d.resources| && d.resources[i].OnTrino() && '.' in d.resources[i].resource
    requires SplitLast(d.resources[i].resource).value.0 == INFORMATION_SCHEMA
        && ReadsAreMasked(d, rules, d.resources[i])
    requires n < |d.catalogGrants| && role in d.catalogGrants[n].roles
    ensures BrowserIsCovered(d, d.resources[i], role)
  {
    var res := d.resources[i];
    var (schema, table) := SplitLast(res.resource).value;
    var token := Closure(d, role);
    ExpandedTokenIsClosed(d, role);
    ClosureSelf(d, role);
    TableAccessIffGranted(d, accepts, rules, token, schema, table);
    assert MeetsAny(token, d.catalogGrants[n].roles);
    assert MayRead(rules, token, res);
    if !HoldsOptedOut(token, res) {
      assert AllMasked(rules, token, res);
      forall col | col in res.sensitiveColumns ensures HoldsMask(token, res, col) {
        MaskedIffHeld(d, accepts, rules, token, i, col);
      }
    }
  }

  /** Reads of a PII table are masked for every closed token without an opted-out grant, if and only if
      the table lies outside the information schema, or every role with a catalog grant either opted out
      or holds masks for all sensitive columns. */
  lemma PiiReadsAreMaskedIff(d: Declaration, accepts: string -> bool, rules: seq<Rule>, i: nat)
    requires IsValid(d, accepts) && IsCompiled(d, rules)
    requires i < |d.resources| && d.resources[i].OnTrino() && d.resources[i].classification == Pii
    ensures '.' in d.resources[i].resource
    ensures ReadsAreMasked(d, rules, d.resources[i]) <==>
      SplitLast(d.resources[i].resource).value.0 != INFORMATION_SCHEMA || BrowsersAreCovered(d, d.resources[i])
  {
    ResourcesAreSound(d, accepts, i);
    var res := d.resources[i];
    if SplitLast(res.resource).value.0 != INFORMATION_SCHEMA || BrowsersAreCovered(d, res) {
      forall token | ClosedToken(d, token) && !HoldsOptedOut(token, res) && MayRead(rules, token, res)
          ensures AllMasked(rules, token, res) {
        CoveredReadIsMasked(d, accepts, rules, i, token);
      }
    } else if ReadsAreMasked(d, rules, res) {
      forall n, role | 0 <= n < |d.catalogGrants| && role in d.catalogGrants[n].roles
          ensures BrowserIsCovered(d, res, role) {
        MaskedBrowserIsCovered(d, accepts, rules, i, n, role);
      }
    }
  }

  // ---------------------------------------------------------------------------------------------
  // A valid declaration that shows PII unmasked
  // ---------------------------------------------------------------------------------------------

  /** A PII table in the information schema without any grant, next to a catalog grant for one role. */
  function Exposed(table: string, column: string): Resource
  {
    Resource(INFORMATION_SCHEMA + "." + table, Pii, [], [column], None)
  }

  function Exposing(role: string, table: string, column: string): Declaration
  {
    Declaration([Role(role, [])], [], [Exposed(table, column)],
      [CatalogGrant(DEPLOYED_CATALOG, [role], [ExecuteQuery])], [])
  }

  lemma IdentifiersMakeTableName(schema: string, table: string)
    requires IsIdentifier(schema) && IsIdentifier(table)
    ensures IsTableName(schema + "." + table)
  {
    SplitNone(table, '.');
    SplitJoined(schema, table, '.');
    assert schema + ['.'] + table == schema + "." + table;
  }

  lemma LoneRoleIsAcyclic(d: Declaration)
    requires |d.roles| == 1 && d.roles[0].includes == []
    ensures Acyclic(RoleEdges(d))
  {
    forall n, p ensures (n, p) !in RoleEdges(d) {
      EdgeIffIncluded(d, n, p);
      RoleNamedDeclared(d.roles, n);
    }
    RankedIsAcyclic(RoleEdges(d), map[]);
  }

  lemma ExposingNamesAreFine(d: Declaration, role: string, table: string, column: string, c: ErrorCode)
    requires IsRoleName(role) && d == Exposing(role, table, column)
    ensures !NamesOffend(d, c)
  {
    LoneRoleIsAcyclic(d);
    assert |PgRoles(d.roles)| == 1 && |TableKeys(d.resources)| == 1;
    assert !NamedReferencesOffend(RoleNames(d), role, [], c);
  }

  lemma ExposedTableIsFine(d: Declaration, accepts: string -> bool, table: string, column: string, c: ErrorCode)
    requires IsIdentifier(table) && IsIdentifier(column)
    ensures !ResourceOffends(d, accepts, Exposed(table, column), c)
  {
    assert IsIdentifier(INFORMATION_SCHEMA);
    IdentifiersMakeTableName(INFORMATION_SCHEMA, table);
    assert !MasksConflict(d, Exposed(table, column));
  }

  lemma ExposingGrantIsFine(d: Declaration, role: string, table: string, column: string, c: ErrorCode)
    requires IsRoleName(role) && d == Exposing(role, table, column)
    ensures !CatalogGrantsOffend(d, c) && !HasRepeat(OperationKeys(d.catalogGrants))
  {
    assert d.roles[0].name in RoleNames(d);
    assert !ReferencesOffend(RoleNames(d), [role], c);
    assert OperationKeys(d.catalogGrants[..0]) == [];
    assert OperationKeys(d.catalogGrants) == OperationKeys(d.catalogGrants[..0]) + [(DEPLOYED_CATALOG, ExecuteQuery)];
  }

  lemma ExposingIsValid(accepts: string -> bool, role: string, table: string, column: string)
    requires IsRoleName(role) && IsIdentifier(table) && IsIdentifier(column)
    ensures IsValid(Exposing(role, table, column), accepts)
  {
    var d := Exposing(role, table, column);
    forall c ensures !Offends(d, accepts, c) {
      ExposingNamesAreFine(d, role, table, column, c);
      ExposedTableIsFine(d, accepts, table, column, c);
      ExposingGrantIsFine(d, role, table, column, c);
      assert !ResourceOffends(d, accepts, d.resources[0], c);
    }
  }

  /** The role, given no more than a catalog grant, reads the sensitive column unmasked. */
  lemma PiiShowsInInformationSchema(accepts: string -> bool, role: string, table: string, column: string,
        rules: seq<Rule>)
    requires IsRoleName(role) && IsIdentifier(table) && IsIdentifier(column)
        && IsCompiled(Exposing(role, table, column), rules)
    ensures var d := Exposing(role, table, column); var token := Closure(d, role);
            && IsValid(d, accepts) && ClosedToken(d, token)
            && MayRead(rules, token, d.resources[0]) && !AllMasked(rules, token, d.resources[0])
  {
    var d := Exposing(role, table, column);
    ExposingIsValid(accepts, role, table, column);
    var token := Closure(d, role);
    ExpandedTokenIsClosed(d, role);
    ClosureSelf(d, role);
    var (schema, name) := SplitLast(d.resources[0].resource).value;
    LastDotIsUnique(INFORMATION_SCHEMA, table, schema, name);
    assert MeetsAny(token, d.catalogGrants[0].roles);
    TableAccessIffGranted(d, accepts, rules, token, schema, name);
    MaskedIffHeld(d, accepts, rules, token, 0, column);
    assert column in d.resources[0].sensitiveColumns;
  }
}
