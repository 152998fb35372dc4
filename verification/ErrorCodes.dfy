/** What each error code says about a declaration as a whole. */
module ErrorCodes {
  import opened Digraph
  import opened PolicySchema
  import opened PolicyValidation
  import opened RoleGraph
  import opened Wrappers

  /** Every place where a declaration refers to roles by name, logins aside. */
  ghost predicate RefersTo(d: Declaration, name: string)
  {
    || (exists i :: 0 <= i < |d.roles| && name in d.roles[i].includes)
    || (exists i :: 0 <= i < |d.groups| && name in d.groups[i].roles)
    || (exists i, k :: 0 <= i < |d.resources| && 0 <= k < |d.resources[i].grants|
                       && name in d.resources[i].grants[k].roles)
    || (exists i :: 0 <= i < |d.catalogGrants| && name in d.catalogGrants[i].roles)
  }

  /** Every name of a role, a group or a login. */
  ghost predicate NamesPrincipal(d: Declaration, name: string)
  {
    || (exists i :: 0 <= i < |d.roles| && name == d.roles[i].name)
    || (exists i :: 0 <= i < |d.groups| && name == d.groups[i].name)
    || (exists i :: 0 <= i < |d.logins| && name == d.logins[i].name)
  }

  /** Every name of a sensitive column, a masked column or a database. */
  ghost predicate NamesObject(d: Declaration, name: string)
  {
    || (exists i :: 0 <= i < |d.resources| && name in d.resources[i].sensitiveColumns)
    || (exists i, k :: 0 <= i < |d.resources| && 0 <= k < |d.resources[i].grants|
                       && MasksColumn(d.resources[i].grants[k], name))
    || (exists i :: 0 <= i < |d.logins| && name == d.logins[i].database)
  }

  /** Roles that are referred to are not declared. */
  lemma UnknownRoleMeans(d: Declaration, accepts: string -> bool)
    ensures Offends(d, accepts, UnknownRole) <==>
      exists n :: n !in RoleNames(d)
                  && (RefersTo(d, n) || exists i :: 0 <= i < |d.logins| && n in d.logins[i].memberOf)
  {
  }

  /** Names are malformed: those of roles, groups and logins, columns and databases, or tables. */
  lemma InvalidIdentifierMeans(d: Declaration, accepts: string -> bool)
    ensures Offends(d, accepts, InvalidIdentifier) <==>
      || (exists n :: (NamesPrincipal(d, n) || RefersTo(d, n)) && !IsRoleName(n))
      || (exists n :: NamesObject(d, n) && !IsIdentifier(n))
      || (exists i :: 0 <= i < |d.resources| && !IsTableName(d.resources[i].resource))
  {
  }

  predicate IsLetterOrDigit(c: char)
  {
    'A' <= c <= 'Z' || 'a' <= c <= 'z' || '0' <= c <= '9'
  }

  /** Well-formed names are letters, digits and underscores, those of principals hyphens too, and begin with a
      letter or an underscore. */
  lemma NameShapes(s: string)
    ensures IsIdentifier(s) <==>
      s != "" && !('0' <= s[0] <= '9') && forall c | c in s :: IsLetterOrDigit(c) || c == '_'
    ensures IsRoleName(s) <==>
      s != "" && !('0' <= s[0] <= '9') && s[0] != '-' && forall c | c in s :: IsLetterOrDigit(c) || c in {'_', '-'}
  {
    assert forall i | 0 <= i < |s| :: s[i] in s;
  }

  /** Two roles become one in the database. */
  lemma RoleNameCollisionMeans(d: Declaration, accepts: string -> bool)
    ensures Offends(d, accepts, RoleNameCollision) <==>
      exists i, j :: 0 <= i < j < |d.roles| && ToPgRole(d.roles[i].name) == ToPgRole(d.roles[j].name)
  {
    var keys := PgRoles(d.roles);
    if i, j :| 0 <= i < j < |d.roles| && ToPgRole(d.roles[i].name) == ToPgRole(d.roles[j].name) {
      assert keys[i] == keys[j];
    }
  }

  /** A login has the name that a role becomes. */
  lemma LoginNameCollisionMeans(d: Declaration, accepts: string -> bool)
    ensures Offends(d, accepts, LoginNameCollision) <==>
      exists i, j :: 0 <= i < |d.roles| && 0 <= j < |d.logins| && ToPgRole(d.roles[i].name) == d.logins[j].name
  {
  }

  /** Inheritance runs in a circle. */
  lemma CyclicInheritanceMeans(d: Declaration, accepts: string -> bool)
    ensures Offends(d, accepts, CyclicInheritance) <==> !Acyclic(RoleEdges(d))
  {
  }

  /** A table is listed twice for one engine. */
  lemma DuplicateResourceMeans(d: Declaration, accepts: string -> bool)
    ensures Offends(d, accepts, DuplicateResource) <==>
      exists i, j :: 0 <= i < j < |d.resources| && d.resources[i].resource == d.resources[j].resource
                     && (d.resources[i].engine == Some(Postgres) <==> d.resources[j].engine == Some(Postgres))
  {
    var keys := TableKeys(d.resources);
    if i, j :| 0 <= i < j < |d.resources| && d.resources[i].resource == d.resources[j].resource
               && (d.resources[i].engine == Some(Postgres) <==> d.resources[j].engine == Some(Postgres)) {
      assert keys[i] == keys[j];
    }
  }

  /** The grant lets the column be read as it is, without saying so. */
  predicate ShowsColumn(res: Resource, g: Grant, col: string)
  {
    && col in res.sensitiveColumns && Select in g.privileges && g.allowUnmasked != Some(true)
    && forall m | m in g.Masks() :: m.0 != col
  }

  /** Personal data without sensitive columns, or with a grant that shows one. */
  lemma PiiCodesMean(d: Declaration, accepts: string -> bool)
    ensures Offends(d, accepts, PiiNoSensitiveColumns) <==>
      exists i :: 0 <= i < |d.resources| && d.resources[i].classification == Pii
                  && d.resources[i].sensitiveColumns == []
    ensures Offends(d, accepts, PiiUnmasked) <==>
      exists i, k, col :: 0 <= i < |d.resources| && 0 <= k < |d.resources[i].grants|
                          && d.resources[i].classification == Pii
                          && ShowsColumn(d.resources[i], d.resources[i].grants[k], col)
  {
    UnmaskedGrant(d, accepts);
    if i, k :| 0 <= i < |d.resources| && 0 <= k < |d.resources[i].grants|
               && LeavesPiiUnmasked(d.resources[i], d.resources[i].grants[k]) {
      ShownColumns(d.resources[i], d.resources[i].grants[k]);
    }
    if i, k, col :| 0 <= i < |d.resources| && 0 <= k < |d.resources[i].grants|
                    && d.resources[i].classification == Pii
                    && ShowsColumn(d.resources[i], d.resources[i].grants[k], col) {
      ShownColumns(d.resources[i], d.resources[i].grants[k]);
    }
  }

  lemma UnmaskedGrant(d: Declaration, accepts: string -> bool)
    ensures Offends(d, accepts, PiiUnmasked) <==>
      exists i, k :: 0 <= i < |d.resources| && 0 <= k < |d.resources[i].grants|
                     && LeavesPiiUnmasked(d.resources[i], d.resources[i].grants[k])
  {
  }

  lemma ShownColumns(res: Resource, g: Grant)
    ensures LeavesPiiUnmasked(res, g) <==> res.classification == Pii && exists col :: ShowsColumn(res, g, col)
  {
    if LeavesPiiUnmasked(res, g) {
      var k :| 0 <= k < |res.sensitiveColumns| && !MasksColumn(g, res.sensitiveColumns[k]);
      assert ShowsColumn(res, g, res.sensitiveColumns[k]);
    }
    if col :| res.classification == Pii && ShowsColumn(res, g, col) {
      var k :| 0 <= k < |res.sensitiveColumns| && res.sensitiveColumns[k] == col;
      assert forall m | 0 <= m < |g.Masks()| :: g.Masks()[m] in g.Masks();
    }
  }

  /** Grants that PostgreSQL cannot carry out, and row filters outside the grammar. */
  lemma GrantCodesMean(d: Declaration, accepts: string -> bool)
    ensures Offends(d, accepts, PostgresUnsupportedMask) <==>
      exists i, k :: 0 <= i < |d.resources| && 0 <= k < |d.resources[i].grants|
                     && d.resources[i].engine == Some(Postgres) && d.resources[i].grants[k].columnMask.Some?
    ensures Offends(d, accepts, PostgresUnsupportedRowFilter) <==>
      exists i, k :: 0 <= i < |d.resources| && 0 <= k < |d.resources[i].grants|
                     && d.resources[i].engine == Some(Postgres) && d.resources[i].grants[k].rowFilter.Some?
    ensures Offends(d, accepts, RowFilterRejected) <==>
      exists i, k :: 0 <= i < |d.resources| && 0 <= k < |d.resources[i].grants|
                     && d.resources[i].grants[k].rowFilter.Some? && !accepts(d.resources[i].grants[k].rowFilter.value)
  {
  }

  /** The place of each operation of each catalog grant in the list of all of them. */
  function Places(grants: seq<CatalogGrant>): seq<(nat, nat)>
  {
    if grants == [] then []
    else
      var last := |grants| - 1;
      var count := |grants[last].operations|;
      Places(grants[..last]) + seq(count, m requires 0 <= m < count => (last, m))
  }

  predicate IsPlace(grants: seq<CatalogGrant>, p: (nat, nat))
  {
    p.0 < |grants| && p.1 < |grants[p.0].operations|
  }

  predicate IsKeyAt(grants: seq<CatalogGrant>, p: (nat, nat), key: (string, QueryOperation))
  {
    IsPlace(grants, p) && key == (grants[p.0].catalog, grants[p.0].operations[p.1])
  }

  /** The keys stand in the order of the places, and every place has one. */
  lemma {:induction false} KeysAtPlaces(grants: seq<CatalogGrant>)
    ensures |Places(grants)| == |OperationKeys(grants)|
    ensures forall x | 0 <= x < |Places(grants)| :: IsKeyAt(grants, Places(grants)[x], OperationKeys(grants)[x])
    ensures forall p: (nat, nat) | IsPlace(grants, p) :: p in Places(grants)
    ensures forall x, y | 0 <= x < y < |Places(grants)| :: Places(grants)[x] != Places(grants)[y]
  {
    if grants != [] {
      var last := |grants| - 1;
      var front := grants[..last];
      KeysAtPlaces(front);
      forall x | 0 <= x < |Places(grants)| ensures IsKeyAt(grants, Places(grants)[x], OperationKeys(grants)[x]) {
        assert x < |Places(front)| ==> IsKeyAt(front, Places(front)[x], OperationKeys(front)[x]);
      }
      forall p: (nat, nat) | IsPlace(grants, p) ensures p in Places(grants) {
        if p.0 < last {
          assert IsPlace(front, p);
        } else {
          assert Places(grants)[|Places(front)| + p.1] == p;
        }
      }
      forall x, y | 0 <= x < y < |Places(grants)| ensures Places(grants)[x] != Places(grants)[y] {
        assert x < |Places(front)| ==> IsKeyAt(front, Places(front)[x], OperationKeys(front)[x]);
      }
    }
  }

  /** The same operation is granted twice on one catalog, in one grant or in two. */
  ghost predicate IsGrantedTwice(grants: seq<CatalogGrant>, p: (nat, nat), q: (nat, nat))
  {
    && IsPlace(grants, p) && IsPlace(grants, q) && p != q && grants[p.0].catalog == grants[q.0].catalog
    && grants[p.0].operations[p.1] == grants[q.0].operations[q.1]
  }

  lemma RepeatedOperations(grants: seq<CatalogGrant>)
    ensures HasRepeat(OperationKeys(grants)) <==> exists p, q :: IsGrantedTwice(grants, p, q)
  {
    var keys, places := OperationKeys(grants), Places(grants);
    KeysAtPlaces(grants);
    if x, y :| 0 <= x < y < |keys| && keys[x] == keys[y] {
      assert IsKeyAt(grants, places[x], keys[x]) && IsKeyAt(grants, places[y], keys[y]);
      assert IsGrantedTwice(grants, places[x], places[y]);
    }
    if p, q :| IsGrantedTwice(grants, p, q) {
      assert p in places && q in places;
      var x :| 0 <= x < |places| && places[x] == p;
      var y :| 0 <= y < |places| && places[y] == q;
      assert IsKeyAt(grants, places[x], keys[x]) && IsKeyAt(grants, places[y], keys[y]);
      assert keys[x] == keys[y];
    }
  }

  /** Another catalog than the deployed one, or an operation granted twice on one. */
  lemma CatalogCodesMean(d: Declaration, accepts: string -> bool)
    ensures Offends(d, accepts, UnsupportedCatalog) <==>
      exists i :: 0 <= i < |d.catalogGrants| && d.catalogGrants[i].catalog != "iceberg"
    ensures Offends(d, accepts, DuplicateCatalogGrant) <==> exists p, q :: IsGrantedTwice(d.catalogGrants, p, q)
  {
    RepeatedOperations(d.catalogGrants);
  }
}
