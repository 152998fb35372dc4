/** What the compiled allow rules let a token do, and when PII is masked. */
module AccessGuarantees {
  import opened Holders
  import opened MaskGuarantees
  import opened PolicySchema
  import opened PolicyValidation
  import opened RegoCompiler
  import opened RegoRules
  import opened RoleGraph
  import opened Strings
  import opened Wrappers

  const INFORMATION_SCHEMA: string := "information_schema"

  /** The declaration grants the privilege on the Trino table to a role in the token. */
  ghost predicate GrantsTable(d: Declaration, token: set<string>, p: Privilege, schema: string, table: string)
  {
    exists i, k :: 0 <= i < |d.resources| && 0 <= k < |d.resources[i].grants|
                   && GrantAllows(d.resources[i], d.resources[i].grants[k], token, p, schema, table)
  }

  ghost predicate GrantAllows(res: Resource, g: Grant, token: set<string>, p: Privilege, schema: string, table: string)
  {
    res.OnTrino() && res.resource == schema + "." + table && p in g.privileges && MeetsAny(token, g.roles)
  }

  /** The token holds a role of a catalog grant that includes the operation. */
  ghost predicate GrantsOperation(d: Declaration, token: set<string>, op: QueryOperation)
  {
    exists i :: 0 <= i < |d.catalogGrants| && op in d.catalogGrants[i].operations
                && MeetsAny(token, d.catalogGrants[i].roles)
  }

  ghost predicate HoldsCatalogGrant(d: Declaration, token: set<string>)
  {
    exists i :: 0 <= i < |d.catalogGrants| && MeetsAny(token, d.catalogGrants[i].roles)
  }

  lemma ValidCatalogGrant(d: Declaration, accepts: string -> bool, i: nat)
    requires IsValid(d, accepts) && i < |d.catalogGrants|
    ensures d.catalogGrants[i].catalog == DEPLOYED_CATALOG && AllDeclared(d, d.catalogGrants[i].roles)
  {
    assert !Offends(d, accepts, UnsupportedCatalog) && !Offends(d, accepts, UnknownRole);
    assert !CatalogGrantOffends(RoleNames(d), d.catalogGrants[i], UnsupportedCatalog);
    assert !CatalogGrantOffends(RoleNames(d), d.catalogGrants[i], UnknownRole);
  }

  lemma LastDotIsUnique(front: string, back: string, front': string, back': string)
    requires front + "." + back == front' + "." + back' && '.' !in back && '.' !in back'
    ensures front == front' && back == back'
  {
    var s := front + "." + back;
    assert s[|front|] == '.' && s[|front'|] == '.';
    assert forall i | |front| < i < |s| :: s[i] == back[i - |front| - 1] && s[i] in back;
    assert forall i | |front'| < i < |s| :: s[i] == back'[i - |front'| - 1] && s[i] in back';
    assert |front| == |front'|;
    assert front == s[..|front|] && front' == s[..|front'|];
    assert back == s[|front| + 1..] && back' == s[|front'| + 1..];
  }

  // ---------------------------------------------------------------------------------------------
  // Allow rules refine the declaration
  // ---------------------------------------------------------------------------------------------

  /** The allow rules that stem from catalog grants, for a closed token. */
  ghost predicate CatalogAllows(d: Declaration, token: set<string>, op: Operation, target: Target)
  {
    exists i :: 0 <= i < |d.catalogGrants| && CatalogGrantAllows(d.catalogGrants[i], token, op, target)
  }

  ghost predicate CatalogGrantAllows(cg: CatalogGrant, token: set<string>, op: Operation, target: Target)
  {
    && MeetsAny(token, cg.roles)
    && (|| (op.Query? && op.operation in cg.operations && CatalogGuardOf(op.operation, cg.catalog).Admits(target))
        || (op == SelectFromColumns && TableGuard(cg.catalog, Some({INFORMATION_SCHEMA}), None).Admits(target))
        || (AccessCatalog in cg.operations && exists k ::
          0 <= k < |SYSTEM_RULES| && SYSTEM_RULES[k].0 == op && SYSTEM_RULES[k].1.Admits(target)))
  }

  ghost predicate ResourceAllows(res: Resource, token: set<string>, op: Operation, target: Target)
  {
    exists k, p :: 0 <= k < |res.grants| && p in res.grants[k].privileges && op == OperationOf(p)
      && target.TableTarget? && target.catalog == DEPLOYED_CATALOG
        && GrantAllows(res, res.grants[k], token, p, target.schema, target.table)
  }

  lemma HolderTest(d: Declaration, token: set<string>, roles: seq<string>)
    requires ClosedToken(d, token) && AllDeclared(d, roles)
    ensures Passes(token, EffectiveHolders(d, roles), {}) <==> MeetsAny(token, roles)
  {
    HoldersMatchRoles(d, token, roles);
    assert token * {} == {};
  }

  lemma CatalogRulesAllow(d: Declaration, cg: CatalogGrant, token: set<string>, op: Operation, target: Target)
    requires ClosedToken(d, token) && AllDeclared(d, cg.roles)
    ensures (exists rule :: IsCatalogRule(d, cg, rule) && Allows(rule, token, op, target)) <==>
        CatalogGrantAllows(cg, token, op, target)
  {
    HolderTest(d, token, cg.roles);
    var anyOf := EffectiveHolders(d, cg.roles);
    if CatalogGrantAllows(cg, token, op, target) {
      if op.Query? && op.operation in cg.operations && CatalogGuardOf(op.operation, cg.catalog).Admits(target) {
        var rule := Allow(op, CatalogGuardOf(op.operation, cg.catalog), anyOf);
        assert IsCatalogRule(d, cg, rule) && Allows(rule, token, op, target);
      } else if op == SelectFromColumns && TableGuard(cg.catalog, Some({INFORMATION_SCHEMA}), None).Admits(target) {
        var rule := Allow(op, TableGuard(cg.catalog, Some({INFORMATION_SCHEMA}), None), anyOf);
        assert IsCatalogRule(d, cg, rule) && Allows(rule, token, op, target);
      } else {
        var k :| 0 <= k < |SYSTEM_RULES| && SYSTEM_RULES[k].0 == op && SYSTEM_RULES[k].1.Admits(target);
        var rule := Allow(SYSTEM_RULES[k].0, SYSTEM_RULES[k].1, anyOf);
        assert IsCatalogRule(d, cg, rule) && Allows(rule, token, op, target);
      }
    }
  }

  lemma ResourceRuleIsGranted(d: Declaration, res: Resource, token: set<string>, op: Operation, target: Target,
        rule: Rule)
    requires ClosedToken(d, token) && SoundResource(d, res)
    requires IsResourceRule(d, res, rule) && Allows(rule, token, op, target)
    ensures ResourceAllows(res, token, op, target)
  {
    var (schema, table) := SplitLast(res.resource).value;
    var k :| 0 <= k < |res.grants| && IsGrantRule(d, res, res.grants[k], rule);
    HolderTest(d, token, res.grants[k].roles);
    assert IsAllowRule(d, res, res.grants[k], rule);
    var n :| 0 <= n < |res.grants[k].privileges| && rule ==
             AllowRule(schema, table, res.grants[k].privileges[n], EffectiveHolders(d, res.grants[k].roles));
    assert GrantAllows(res, res.grants[k], token, res.grants[k].privileges[n], target.schema, target.table);
  }

  /** A valid table name holds one dot only. */
  lemma TableNameHasOneDot(name: string, schema: string, table: string)
    requires IsTableName(name) && name == schema + "." + table
    ensures '.' !in table
  {
    var parts := Split(name, '.');
    SplitPieces(name, '.');
    var n := |parts[0]|;
    forall j | 0 <= j < |name| && j != n ensures name[j] != '.' {
      if j < n {
        assert name[j] == parts[0][j] && IsNameChar(parts[0][j]);
      } else {
        assert name[j] == parts[1][j - n - 1] && IsNameChar(parts[1][j - n - 1]);
      }
    }
    assert name[|schema|] == '.';
    forall j | 0 <= j < |table| ensures table[j] != '.' {
      assert table[j] == name[|schema| + 1 + j];
    }
  }

  lemma GrantedResourceHasRule(d: Declaration, res: Resource, token: set<string>, op: Operation, target: Target)
        returns (rule: Rule)
    requires ClosedToken(d, token) && SoundResource(d, res) && IsTableName(res.resource)
    requires ResourceAllows(res, token, op, target)
    ensures IsResourceRule(d, res, rule) && Allows(rule, token, op, target)
  {
    var (schema, table) := SplitLast(res.resource).value;
    var k, p :| 0 <= k < |res.grants| && p in res.grants[k].privileges && op == OperationOf(p)
      && target.TableTarget? && target.catalog == DEPLOYED_CATALOG
        && GrantAllows(res, res.grants[k], token, p, target.schema, target.table);
    HolderTest(d, token, res.grants[k].roles);
    TableNameHasOneDot(res.resource, target.schema, target.table);
    LastDotIsUnique(schema, table, target.schema, target.table);
    rule := AllowRule(schema, table, p, EffectiveHolders(d, res.grants[k].roles));
    assert IsAllowRule(d, res, res.grants[k], rule);
    assert IsGrantRule(d, res, res.grants[k], rule);
  }

  lemma AllowedIsDeclared(d: Declaration, accepts: string -> bool, rules: seq<Rule>, token: set<string>, op: Operation,
        target: Target)
    requires IsValid(d, accepts) && IsCompiled(d, rules) && ClosedToken(d, token)
    requires Allowed(rules, token, op, target)
    ensures CatalogAllows(d, token, op, target) || exists i ::
        0 <= i < |d.resources| && ResourceAllows(d.resources[i], token, op, target)
  {
    var rule :| rule in rules && Allows(rule, token, op, target);
    assert IsCompiledRule(d, rule);
    if i :| 0 <= i < |d.resources| && IsResourceRule(d, d.resources[i], rule) {
      ResourcesAreSound(d, accepts, i);
      ResourceRuleIsGranted(d, d.resources[i], token, op, target, rule);
    } else {
      var i :| 0 <= i < |d.catalogGrants| && IsCatalogRule(d, d.catalogGrants[i], rule);
      ValidCatalogGrant(d, accepts, i);
      CatalogRulesAllow(d, d.catalogGrants[i], token, op, target);
      assert CatalogGrantAllows(d.catalogGrants[i], token, op, target);
    }
  }

  lemma DeclaredIsAllowed(d: Declaration, accepts: string -> bool, rules: seq<Rule>, token: set<string>, op: Operation,
        target: Target)
    requires IsValid(d, accepts) && IsCompiled(d, rules) && ClosedToken(d, token)
    requires CatalogAllows(d, token, op, target) || exists i ::
        0 <= i < |d.resources| && ResourceAllows(d.resources[i], token, op, target)
    ensures Allowed(rules, token, op, target)
  {
    if i :| 0 <= i < |d.resources| && ResourceAllows(d.resources[i], token, op, target) {
      ResourcesAreSound(d, accepts, i);
      assert !Offends(d, accepts, InvalidIdentifier);
      assert !ResourceOffends(d, accepts, d.resources[i], InvalidIdentifier);
      var rule := GrantedResourceHasRule(d, d.resources[i], token, op, target);
      assert IsCompiledRule(d, rule);
    } else {
      var i :| 0 <= i < |d.catalogGrants| && CatalogGrantAllows(d.catalogGrants[i], token, op, target);
      ValidCatalogGrant(d, accepts, i);
      CatalogRulesAllow(d, d.catalogGrants[i], token, op, target);
      var rule :| IsCatalogRule(d, d.catalogGrants[i], rule) && Allows(rule, token, op, target);
      assert IsCompiledRule(d, rule);
    }
  }

  /** Every allow decision for a closed token, traced to what the declaration grants. */
  lemma AllowedIffDeclared(d: Declaration, accepts: string -> bool, rules: seq<Rule>, token: set<string>,
        op: Operation, target: Target)
    requires IsValid(d, accepts) && IsCompiled(d, rules) && ClosedToken(d, token)
    ensures Allowed(rules, token, op, target) <==>
      CatalogAllows(d, token, op, target) || exists i ::
        0 <= i < |d.resources| && ResourceAllows(d.resources[i], token, op, target)
  {
    if Allowed(rules, token, op, target) {
      AllowedIsDeclared(d, accepts, rules, token, op, target);
    } else if CatalogAllows(d, token, op, target) || exists i ::
      0 <= i < |d.resources| && ResourceAllows(d.resources[i], token, op, target) {
      DeclaredIsAllowed(d, accepts, rules, token, op, target);
    }
  }

  // ---------------------------------------------------------------------------------------------
  // Every request, decided by the declaration
  // ---------------------------------------------------------------------------------------------

  /** The request asks for the operation on the catalog, in the form in which Trino sends it. */
  ghost predicate AsksFor(q: QueryOperation, target: Target, catalog: string)
  {
    match q
    case ExecuteQuery => true
    case AccessCatalog | ShowSchemas | FilterCatalogs => target == CatalogTarget(catalog)
    case ShowTables | FilterSchemas | ShowFunctions => target.SchemaTarget? && target.catalog == catalog
    case ShowColumns | ShowCreateTable | FilterTables | FilterColumns =>
      target.TableTarget? && target.catalog == catalog
    case SetCatalogSessionProperty => target.SessionPropertyTarget? && target.catalog == catalog
  }

  /** What access to a catalog opens in the built-in `system` catalog: its schemas by name, and inside
      `jdbc` and `metadata` the metadata of tables and their rows. */
  ghost predicate OpensSystem(op: Operation, target: Target)
  {
    match target
    case CatalogTarget(c) => c == "system" && op in {Query(AccessCatalog), Query(FilterCatalogs), Query(ShowSchemas)}
    case SchemaTarget(c, s) =>
      c == "system" && (op == Query(FilterSchemas) || (op == Query(ShowTables) && s in {"jdbc", "metadata"}))
    case TableTarget(c, s, _) =>
      && c == "system" && s in {"jdbc", "metadata"}
      && op in {Query(FilterTables), Query(ShowColumns), Query(FilterColumns), SelectFromColumns}
    case _ => false
  }

  ghost predicate CatalogGrantPermits(cg: CatalogGrant, op: Operation, target: Target)
  {
    || (op.Query? && op.operation in cg.operations && AsksFor(op.operation, target, "iceberg"))
    || (op == SelectFromColumns && target.TableTarget? && target.catalog == "iceberg"
        && target.schema == "information_schema")
    || (AccessCatalog in cg.operations && OpensSystem(op, target))
  }

  ghost predicate TableGrantPermits(d: Declaration, token: set<string>, op: Operation, target: Target)
  {
    && target.TableTarget? && target.catalog == "iceberg"
    && match op
       case SelectFromColumns => GrantsTable(d, token, Select, target.schema, target.table)
       case InsertIntoTable => GrantsTable(d, token, Insert, target.schema, target.table)
       case UpdateTableColumns => GrantsTable(d, token, Update, target.schema, target.table)
       case DeleteFromTable => GrantsTable(d, token, Delete, target.schema, target.table)
       case Query(_) => false
  }

  lemma SystemRulesOpen(op: Operation, target: Target)
    ensures (exists k :: 0 <= k < |SYSTEM_RULES| && SYSTEM_RULES[k].0 == op && SYSTEM_RULES[k].1.Admits(target))
      <==> OpensSystem(op, target)
  {
    if OpensSystem(op, target) {
      var k := match target {
        case CatalogTarget(_) => if op == Query(AccessCatalog) then 0 else if op == Query(FilterCatalogs) then 1 else 2
        case SchemaTarget(_, _) => if op == Query(FilterSchemas) then 3 else 4
        case TableTarget(_, _, _) =>
          if op == Query(FilterTables) then 5 else if op == Query(ShowColumns) then 6
          else if op == Query(FilterColumns) then 7 else 8
      };
      assert SYSTEM_RULES[k].0 == op && SYSTEM_RULES[k].1.Admits(target);
    }
  }

  lemma CatalogGrantMeaning(cg: CatalogGrant, token: set<string>, op: Operation, target: Target)
    requires cg.catalog == DEPLOYED_CATALOG
    ensures CatalogGrantAllows(cg, token, op, target) <==>
      MeetsAny(token, cg.roles) && CatalogGrantPermits(cg, op, target)
  {
    SystemRulesOpen(op, target);
    if op.Query? {
      assert CatalogGuardOf(op.operation, DEPLOYED_CATALOG).Admits(target)
        <==> AsksFor(op.operation, target, DEPLOYED_CATALOG);
    }
  }

  lemma ResourceAllowsMeaning(d: Declaration, token: set<string>, op: Operation, target: Target)
    ensures (exists i :: 0 <= i < |d.resources| && ResourceAllows(d.resources[i], token, op, target))
      <==> TableGrantPermits(d, token, op, target)
  {
    if TableGrantPermits(d, token, op, target) {
      var p := match op {
        case SelectFromColumns => Select
        case InsertIntoTable => Insert
        case UpdateTableColumns => Update
        case DeleteFromTable => Delete
      };
      var i, k :| 0 <= i < |d.resources| && 0 <= k < |d.resources[i].grants|
                  && GrantAllows(d.resources[i], d.resources[i].grants[k], token, p, target.schema, target.table);
      assert op == OperationOf(p);
      assert ResourceAllows(d.resources[i], token, op, target);
    }
    if i :| 0 <= i < |d.resources| && ResourceAllows(d.resources[i], token, op, target) {
      var k, p :| 0 <= k < |d.resources[i].grants| && p in d.resources[i].grants[k].privileges && op == OperationOf(p)
        && GrantAllows(d.resources[i], d.resources[i].grants[k], token, p, target.schema, target.table);
      assert GrantsTable(d, token, p, target.schema, target.table);
    }
  }

  /** Every request of a closed token is decided by the declaration: it is allowed exactly if a table grant
      or a catalog grant of the token's roles permits the operation on what it asks for. */
  lemma AllowedIffPermitted(d: Declaration, accepts: string -> bool, rules: seq<Rule>, token: set<string>,
        op: Operation, target: Target)
    requires IsValid(d, accepts) && IsCompiled(d, rules) && ClosedToken(d, token)
    ensures Allowed(rules, token, op, target) <==>
      || TableGrantPermits(d, token, op, target)
      || exists i :: 0 <= i < |d.catalogGrants| && MeetsAny(token, d.catalogGrants[i].roles)
                     && CatalogGrantPermits(d.catalogGrants[i], op, target)
  {
    AllowedIffDeclared(d, accepts, rules, token, op, target);
    ResourceAllowsMeaning(d, token, op, target);
    forall i | 0 <= i < |d.catalogGrants|
      ensures CatalogGrantAllows(d.catalogGrants[i], token, op, target) <==>
        MeetsAny(token, d.catalogGrants[i].roles) && CatalogGrantPermits(d.catalogGrants[i], op, target)
    {
      ValidCatalogGrant(d, accepts, i);
      CatalogGrantMeaning(d.catalogGrants[i], token, op, target);
    }
  }

  /** On the deployed catalog a closed token may use a table as its grants say, privilege by privilege, and
      may read the information schema besides if it holds a catalog grant. */
  lemma TableAccessIffGranted(d: Declaration, accepts: string -> bool, rules: seq<Rule>, token: set<string>,
        schema: string, table: string)
    requires IsValid(d, accepts) && IsCompiled(d, rules) && ClosedToken(d, token)
    ensures Allowed(rules, token, SelectFromColumns, TableTarget("iceberg", schema, table)) <==>
      GrantsTable(d, token, Select, schema, table)
      || (schema == "information_schema" && HoldsCatalogGrant(d, token))
    ensures Allowed(rules, token, InsertIntoTable, TableTarget("iceberg", schema, table)) <==>
      GrantsTable(d, token, Insert, schema, table)
    ensures Allowed(rules, token, UpdateTableColumns, TableTarget("iceberg", schema, table)) <==>
      GrantsTable(d, token, Update, schema, table)
    ensures Allowed(rules, token, DeleteFromTable, TableTarget("iceberg", schema, table)) <==>
      GrantsTable(d, token, Delete, schema, table)
  {
    var target := TableTarget("iceberg", schema, table);
    forall op ensures Allowed(rules, token, op, target) <==>
      || TableGrantPermits(d, token, op, target)
      || exists i :: 0 <= i < |d.catalogGrants| && MeetsAny(token, d.catalogGrants[i].roles)
                     && CatalogGrantPermits(d.catalogGrants[i], op, target)
    {
      AllowedIffPermitted(d, accepts, rules, token, op, target);
    }
  }

  /** On a table of the built-in `system` catalog: running queries aside, only the metadata operations,
      only in the schemas `jdbc` and `metadata`, and only for holders of catalog access. */
  lemma SystemTableAccess(d: Declaration, accepts: string -> bool, rules: seq<Rule>, token: set<string>, op: Operation,
        schema: string, table: string)
    requires IsValid(d, accepts) && IsCompiled(d, rules) && ClosedToken(d, token)
    ensures Allowed(rules, token, op, TableTarget("system", schema, table)) <==>
      || (op == Query(ExecuteQuery) && GrantsOperation(d, token, ExecuteQuery))
      || (op in {Query(FilterTables), Query(ShowColumns), Query(FilterColumns), SelectFromColumns}
          && schema in {"jdbc", "metadata"} && GrantsOperation(d, token, AccessCatalog))
  {
    AllowedIffPermitted(d, accepts, rules, token, op, TableTarget("system", schema, table));
  }
}
