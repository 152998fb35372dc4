/** Access rules as Open Policy Agent evaluates them: which rules fire for a token. */
module RegoRules {
  import opened PolicySchema
  import opened Wrappers

  datatype Operation =
    | Query(operation: QueryOperation)
    | SelectFromColumns | InsertIntoTable | UpdateTableColumns | DeleteFromTable

  /** The resource of a request, by the shape in which Trino sends it. */
  datatype Target =
    | NoTarget
    | CatalogTarget(catalog: string)
    | SchemaTarget(catalog: string, schema: string)
    | TableTarget(catalog: string, schema: string, table: string)
    | SessionPropertyTarget(catalog: string, property: string)

  datatype Column = Column(catalog: string, schema: string, table: string, name: string)

  /** Conditions on the target. A guard on a field that the target's shape lacks fails. */
  datatype Guard =
    | Unguarded
    | CatalogGuard(catalog: string)
    | SchemaGuard(catalog: string, schemas: Option<set<string>>)
    | TableGuard(catalog: string, schemas: Option<set<string>>, table: Option<string>)
    | SessionPropertyGuard(catalog: string)
  {
    predicate Admits(target: Target)
    {
      match this
      case Unguarded => true
      case CatalogGuard(c) => target.CatalogTarget? && target.catalog == c
      case SchemaGuard(c, ss) => target.SchemaTarget? && target.catalog == c && (ss.Some? ==> target.schema in ss.value)
      case TableGuard(c, ss, t) =>
        target.TableTarget? && target.catalog == c && (ss.Some? ==> target.schema in ss.value)
          && (t.Some? ==> target.table == t.value)
      case SessionPropertyGuard(c) => target.SessionPropertyTarget? && target.catalog == c
    }
  }

  /** `anyOf`: the token must hold one of them. `noneOf`: it must hold none of them. */
  datatype Rule =
    | Allow(op: Operation, guard: Guard, anyOf: set<string>)
    | RowFilter(catalog: string, schema: string, table: string, expression: string, anyOf: set<string>,
      noneOf: set<string>)
    | ColumnMask(column: Column, expression: string, anyOf: set<string>, noneOf: set<string>)

  predicate Passes(token: set<string>, anyOf: set<string>, noneOf: set<string>)
  {
    token * anyOf != {} && token * noneOf == {}
  }

  predicate Allows(rule: Rule, token: set<string>, op: Operation, target: Target)
  {
    rule.Allow? && rule.op == op && rule.guard.Admits(target) && Passes(token, rule.anyOf, {})
  }

  predicate Masks(rule: Rule, token: set<string>, column: Column)
  {
    rule.ColumnMask? && rule.column == column && Passes(token, rule.anyOf, rule.noneOf)
  }

  predicate Filters(rule: Rule, token: set<string>, target: Target)
  {
    && rule.RowFilter? && target == TableTarget(rule.catalog, rule.schema, rule.table)
    && Passes(token, rule.anyOf, rule.noneOf)
  }

  /** Denied unless some rule allows. */
  ghost predicate Allowed(rules: seq<Rule>, token: set<string>, op: Operation, target: Target)
  {
    exists rule :: rule in rules && Allows(rule, token, op, target)
  }

  ghost predicate Masked(rules: seq<Rule>, token: set<string>, column: Column)
  {
    exists rule :: rule in rules && Masks(rule, token, column)
  }

  /** `columnMask` is a complete rule: two rules that fire with different values are an evaluation error. */
  ghost predicate MaskConflict(rules: seq<Rule>, token: set<string>)
  {
    exists a, b :: a in rules && b in rules && FireApart(a, b, token)
  }

  ghost predicate FireApart(a: Rule, b: Rule, token: set<string>)
  {
    a.ColumnMask? && Masks(a, token, a.column) && Masks(b, token, a.column) && a.expression != b.expression
  }
}

/** Compilation of a declaration to access rules. */
module RegoCompiler {
  import opened Holders
  import opened PolicySchema
  import opened RegoRules
  import opened Wrappers

  function MaskExpression(kind: MaskKind, col: string): string
  {
    match kind
    case HashMask => "to_hex(sha256(cast(" + col + " as varbinary)))"
    case PartialMask => "concat(substr(" + col + ", 1, 2), '***')"
    case NullMask => "null"
  }

  function OperationOf(p: Privilege): Operation
  {
    match p
    case Select => SelectFromColumns
    case Insert => InsertIntoTable
    case Update => UpdateTableColumns
    case Delete => DeleteFromTable
  }

  /** Where the catalog is named in the request of each operation. */
  function CatalogGuardOf(op: QueryOperation, catalog: string): Guard
  {
    match op
    case ExecuteQuery => Unguarded
    case AccessCatalog | ShowSchemas | FilterCatalogs => CatalogGuard(catalog)
    case ShowTables | FilterSchemas | ShowFunctions => SchemaGuard(catalog, None)
    case ShowColumns | ShowCreateTable | FilterTables | FilterColumns => TableGuard(catalog, None, None)
    case SetCatalogSessionProperty => SessionPropertyGuard(catalog)
  }

  /** The part before and the part after the last dot. */
  function SplitLast(s: string): (parts: Option<(string, string)>)
    ensures parts.Some? <==> '.' in s
    ensures parts.Some? ==> s == parts.value.0 + "." + parts.value.1 && '.' !in parts.value.1
  {
    if s == [] then None
    else if s[|s| - 1] == '.' then
      assert s == s[..|s| - 1] + "." + "";
      Some((s[..|s| - 1], ""))
    else
      assert s == s[..|s| - 1] + [s[|s| - 1]];
      match SplitLast(s[..|s| - 1])
      case None => None
      case Some((front, back)) => Some((front, back + [s[|s| - 1]]))
  }

  // ---------------------------------------------------------------------------------------------
  // The rules a declaration stands for
  // ---------------------------------------------------------------------------------------------

  function SetOf(names: seq<string>): set<string>
  {
    set n | n in names
  }

  function AllowRule(schema: string, table: string, p: Privilege, anyOf: set<string>): Rule
  {
    Allow(OperationOf(p), TableGuard(DEPLOYED_CATALOG, Some({schema}), Some(table)), anyOf)
  }

  function MaskRule(schema: string, table: string, mask: (string, MaskKind), anyOf: set<string>,
        noneOf: set<string>): Rule
  {
    ColumnMask(Column(DEPLOYED_CATALOG, schema, table, mask.0), MaskExpression(mask.1, mask.0), anyOf, noneOf)
  }

  /** The roles that hold a grant which opted out of masking. */
  ghost function OptedOutHolders(d: Declaration, grants: seq<Grant>): set<string>
  {
    set k, h | 0 <= k < |grants| && grants[k].OptedOut() && h in EffectiveHolders(d, grants[k].roles) :: h
  }

  /** A grant that opted out of masking gets its own masks and filters unconditionally; the others
      spare the opted-out holders. */
  ghost function Spared(d: Declaration, res: Resource, g: Grant): set<string>
  {
    if g.OptedOut() then {} else OptedOutHolders(d, res.grants)
  }

  ghost predicate IsAllowRule(d: Declaration, res: Resource, g: Grant, rule: Rule)
  {
    match SplitLast(res.resource)
    case None => false
    case Some((schema, table)) =>
      exists k :: 0 <= k < |g.privileges| && rule ==
                  AllowRule(schema, table, g.privileges[k], EffectiveHolders(d, g.roles))
  }

  ghost predicate IsFilterRule(d: Declaration, res: Resource, g: Grant, rule: Rule)
  {
    match SplitLast(res.resource)
    case None => false
    case Some((schema, table)) =>
      && g.rowFilter.Some? && g.rowFilter.value != ""
      && rule == RowFilter(DEPLOYED_CATALOG, schema, table, g.rowFilter.value, SetOf(g.roles), Spared(d, res, g))
  }

  ghost predicate IsMaskRule(d: Declaration, res: Resource, g: Grant, rule: Rule)
  {
    match SplitLast(res.resource)
    case None => false
    case Some((schema, table)) =>
      exists k :: 0 <= k < |g.Masks()| && rule == MaskRule(schema, table, g.Masks()[k], SetOf(g.roles),
                  Spared(d, res, g))
  }

  ghost predicate IsGrantRule(d: Declaration, res: Resource, g: Grant, rule: Rule)
  {
    IsAllowRule(d, res, g, rule) || IsFilterRule(d, res, g, rule) || IsMaskRule(d, res, g, rule)
  }

  ghost predicate IsResourceRule(d: Declaration, res: Resource, rule: Rule)
  {
    res.OnTrino() && exists k :: 0 <= k < |res.grants| && IsGrantRule(d, res, res.grants[k], rule)
  }

  const SYSTEM_SCHEMAS: set<string> := {"jdbc", "metadata"}

  /** Operations on the built-in `system` catalog that come with access to a catalog, as guarded. */
  const SYSTEM_RULES: seq<(Operation, Guard)> := [
    (Query(AccessCatalog), CatalogGuard("system")),
    (Query(FilterCatalogs), CatalogGuard("system")),
    (Query(ShowSchemas), CatalogGuard("system")),
    (Query(FilterSchemas), SchemaGuard("system", None)),
    (Query(ShowTables), SchemaGuard("system", Some(SYSTEM_SCHEMAS))),
    (Query(FilterTables), TableGuard("system", Some(SYSTEM_SCHEMAS), None)),
    (Query(ShowColumns), TableGuard("system", Some(SYSTEM_SCHEMAS), None)),
    (Query(FilterColumns), TableGuard("system", Some(SYSTEM_SCHEMAS), None)),
    (SelectFromColumns, TableGuard("system", Some(SYSTEM_SCHEMAS), None))]

  ghost predicate IsCatalogRule(d: Declaration, cg: CatalogGrant, rule: Rule)
  {
    var anyOf := EffectiveHolders(d, cg.roles);
    || (exists k :: 0 <= k < |cg.operations| && rule ==
                    Allow(Query(cg.operations[k]), CatalogGuardOf(cg.operations[k], cg.catalog), anyOf))
    || rule == Allow(SelectFromColumns, TableGuard(cg.catalog, Some({"information_schema"}), None), anyOf)
    || (AccessCatalog in cg.operations && exists k ::
      0 <= k < |SYSTEM_RULES| && rule == Allow(SYSTEM_RULES[k].0, SYSTEM_RULES[k].1, anyOf))
  }

  ghost predicate IsCompiledRule(d: Declaration, rule: Rule)
  {
    || (exists i :: 0 <= i < |d.resources| && IsResourceRule(d, d.resources[i], rule))
    || (exists i :: 0 <= i < |d.catalogGrants| && IsCatalogRule(d, d.catalogGrants[i], rule))
  }

  /** The rules are those the declaration stands for. */
  ghost predicate IsCompiled(d: Declaration, rules: seq<Rule>)
  {
    forall rule :: rule in rules <==> IsCompiledRule(d, rule)
  }

  // ---------------------------------------------------------------------------------------------
  // Compilation
  // ---------------------------------------------------------------------------------------------

  /** The rules of one grant: allow rules, the row filter, the column masks. */
  method CompileGrant(d: Declaration, res: Resource, schema: string, table: string, unmasked: set<string>, g: Grant)
    returns (rules: seq<Rule>)
    requires SplitLast(res.resource) == Some((schema, table)) && unmasked == OptedOutHolders(d, res.grants)
    ensures forall rule :: rule in rules <==> IsGrantRule(d, res, g, rule)
  {
    var effective := FindHolders(d, g.roles);
    var noneOf := if g.OptedOut() then {} else unmasked;
    rules := [];
    for i := 0 to |g.privileges|
      invariant forall rule :: rule in rules <==>
                               exists k :: 0 <= k < i && rule == AllowRule(schema, table, g.privileges[k], effective)
    {
      rules := rules + [AllowRule(schema, table, g.privileges[i], effective)];
    }
    assert forall rule :: rule in rules <==> IsAllowRule(d, res, g, rule);
    if g.rowFilter.Some? && g.rowFilter.value != "" {
      rules := rules + [RowFilter(DEPLOYED_CATALOG, schema, table, g.rowFilter.value, SetOf(g.roles), noneOf)];
    }
    ghost var before := rules;
    for i := 0 to |g.Masks()|
      invariant forall rule :: rule in rules <==>
        rule in before || exists k ::
          0 <= k < i && rule == MaskRule(schema, table, g.Masks()[k], SetOf(g.roles), noneOf)
    {
      rules := rules + [MaskRule(schema, table, g.Masks()[i], SetOf(g.roles), noneOf)];
    }
  }

  /** The roles that hold an opted-out grant of the resource. */
  method CollectOptedOut(d: Declaration, grants: seq<Grant>) returns (holders: set<string>)
    ensures holders == OptedOutHolders(d, grants)
  {
    holders := {};
    for i := 0 to |grants|
      invariant forall h :: h in holders <==>
                            exists k :: 0 <= k < i && grants[k].OptedOut() && h in EffectiveHolders(d, grants[k].roles)
    {
      if grants[i].OptedOut() {
        var effective := FindHolders(d, grants[i].roles);
        holders := holders + effective;
      }
    }
  }

  method CompileResource(d: Declaration, res: Resource) returns (rules: seq<Rule>)
    requires res.OnTrino() && '.' in res.resource
    ensures forall rule :: rule in rules <==> IsResourceRule(d, res, rule)
  {
    var (schema, table) := SplitLast(res.resource).value;
    var unmasked := CollectOptedOut(d, res.grants);
    rules := [];
    for i := 0 to |res.grants|
      invariant forall rule :: rule in rules <==> exists k :: 0 <= k < i && IsGrantRule(d, res, res.grants[k], rule)
    {
      var more := CompileGrant(d, res, schema, table, unmasked, res.grants[i]);
      rules := rules + more;
    }
  }

  /** The rules of one catalog grant: its operations, the information schema, the `system` catalog. */
  method CompileCatalogGrant(d: Declaration, cg: CatalogGrant) returns (rules: seq<Rule>)
    ensures forall rule :: rule in rules <==> IsCatalogRule(d, cg, rule)
  {
    var effective := FindHolders(d, cg.roles);
    rules := [];
    for i := 0 to |cg.operations|
      invariant forall rule :: rule in rules <==>
        exists k :: 0 <= k < i && rule == Allow(Query(cg.operations[k]), CatalogGuardOf(cg.operations[k], cg.catalog),
                    effective)
    {
      rules := rules + [Allow(Query(cg.operations[i]), CatalogGuardOf(cg.operations[i], cg.catalog), effective)];
    }
    rules := rules + [Allow(SelectFromColumns, TableGuard(cg.catalog, Some({"information_schema"}), None), effective)];
    if AccessCatalog in cg.operations {
      ghost var before := rules;
      for i := 0 to |SYSTEM_RULES|
        invariant forall rule :: rule in rules <==>
          rule in before || exists k :: 0 <= k < i && rule == Allow(SYSTEM_RULES[k].0, SYSTEM_RULES[k].1, effective)
      {
        rules := rules + [Allow(SYSTEM_RULES[i].0, SYSTEM_RULES[i].1, effective)];
      }
    }
  }

  /** Compilation yields the rules the declaration stands for. It fails only on a Trino resource
      whose name has no dot. */
  method CompileRego(d: Declaration) returns (rules: Option<seq<Rule>>)
    ensures rules.None? <==>
        exists i :: 0 <= i < |d.resources| && d.resources[i].OnTrino() && '.' !in d.resources[i].resource
    ensures rules.Some? ==> IsCompiled(d, rules.value)
  {
    var emitted: seq<Rule> := [];
    for i := 0 to |d.resources|
      invariant forall k | 0 <= k < i :: d.resources[k].OnTrino() ==> '.' in d.resources[k].resource
      invariant forall rule :: rule in emitted <==> exists k :: 0 <= k < i && IsResourceRule(d, d.resources[k], rule)
    {
      if d.resources[i].OnTrino() {
        if SplitLast(d.resources[i].resource).None? {
          return None;
        }
        var more := CompileResource(d, d.resources[i]);
        emitted := emitted + more;
      }
    }
    ghost var before := emitted;
    for i := 0 to |d.catalogGrants|
      invariant forall rule :: rule in emitted <==>
                               rule in before || exists k :: 0 <= k < i && IsCatalogRule(d, d.catalogGrants[k], rule)
    {
      var more := CompileCatalogGrant(d, d.catalogGrants[i]);
      emitted := emitted + more;
    }
    return Some(emitted);
  }
}
