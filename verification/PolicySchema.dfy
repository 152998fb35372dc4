/** The policy declaration: roles, groups, resources with grants, catalog grants and logins. */
module PolicySchema {
  import opened Strings
  import opened Wrappers

  datatype Privilege = Select | Insert | Update | Delete
  datatype MaskKind = HashMask | PartialMask | NullMask
  datatype Engine = Trino | Postgres
  datatype Classification = Public | Internal | Pii

  datatype QueryOperation =
    | ExecuteQuery | AccessCatalog | ShowSchemas | ShowTables | ShowColumns | ShowCreateTable | ShowFunctions
    | SetCatalogSessionProperty | FilterCatalogs | FilterSchemas | FilterTables | FilterColumns

  /** `columnMask` lists column and mask kind in declaration order. */
  datatype Grant = Grant(roles: seq<string>, privileges: seq<Privilege>, columnMask: Option<seq<(string, MaskKind)>>,
                         rowFilter: Option<string>, allowUnmasked: Option<bool>)
  {
    /** Absent masks read as no masks. */
    function Masks(): seq<(string, MaskKind)>
    {
      match columnMask case Some(m) => m case None => []
    }

    predicate OptedOut()
    {
      allowUnmasked == Some(true)
    }
  }

  datatype Resource = Resource(resource: string, classification: Classification, grants: seq<Grant>,
                               sensitiveColumns: seq<string>, engine: Option<Engine>)
  {
    /** Trino is the default engine. */
    predicate OnTrino()
    {
      engine != Some(Postgres)
    }
  }

  datatype Role = Role(name: string, includes: seq<string>)
  datatype Group = Group(name: string, roles: seq<string>)
  datatype CatalogGrant = CatalogGrant(catalog: string, roles: seq<string>, operations: seq<QueryOperation>)
  datatype Login = Login(name: string, memberOf: seq<string>, database: string)

  datatype Declaration = Declaration(roles: seq<Role>, groups: seq<Group>, resources: seq<Resource>,
                                     catalogGrants: seq<CatalogGrant>, logins: seq<Login>)

  const DEPLOYED_CATALOG: string := "iceberg"

  // Names

  predicate IsNameStart(c: char) { IsLetter(c) || c == '_' }
  predicate IsNameChar(c: char) { IsNameStart(c) || IsDigit(c) }

  /** Table, column, schema and database names. */
  predicate IsIdentifier(s: string)
  {
    s != [] && IsNameStart(s[0]) && forall i | 0 <= i < |s| :: IsNameChar(s[i])
  }

  /** Role, group and login names: identifiers that may also hold hyphens. */
  predicate IsRoleName(s: string)
  {
    s != [] && IsNameStart(s[0]) && forall i | 0 <= i < |s| :: IsNameChar(s[i]) || s[i] == '-'
  }

  /** The PostgreSQL role a policy role becomes: hyphens turn into underscores, letters into lower case. */
  function ToPgRole(name: string): string
  {
    seq(|name|, i requires 0 <= i < |name| => Lower(if name[i] == '-' then '_' else name[i]))
  }
}
