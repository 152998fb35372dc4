/** The checks a declaration must pass before it is compiled. */
module PolicyValidation {
  import opened Digraph
  import opened Holders
  import opened PolicySchema
  import opened RoleGraph
  import opened Strings

  datatype ErrorCode =
    | CyclicInheritance | InvalidIdentifier | UnknownRole | RoleNameCollision | DuplicateResource
    | PiiNoSensitiveColumns | PostgresUnsupportedMask | PostgresUnsupportedRowFilter | RowFilterRejected
    | PiiUnmasked | ConflictingMask | UnsupportedCatalog | DuplicateCatalogGrant | LoginNameCollision

  // ---------------------------------------------------------------------------------------------
  // What each error code stands for
  // ---------------------------------------------------------------------------------------------

  /** References to roles must name declared, well-formed roles. */
  ghost predicate ReferencesOffend(known: set<string>, names: seq<string>, c: ErrorCode)
  {
    || (c == UnknownRole && exists k :: 0 <= k < |names| && names[k] !in known)
    || (c == InvalidIdentifier && exists k :: 0 <= k < |names| && !IsRoleName(names[k]))
  }

  ghost predicate NamedReferencesOffend(known: set<string>, name: string, names: seq<string>, c: ErrorCode)
  {
    (c == InvalidIdentifier && !IsRoleName(name)) || ReferencesOffend(known, names, c)
  }

  ghost predicate HasRepeat<K>(keys: seq<K>)
  {
    exists i, j :: 0 <= i < j < |keys| && keys[i] == keys[j]
  }

  function PgRoles(roles: seq<Role>): seq<string>
  {
    seq(|roles|, i requires 0 <= i < |roles| => ToPgRole(roles[i].name))
  }

  /** Engine and table of each resource entry. */
  function TableKeys(resources: seq<Resource>): seq<(bool, string)>
  {
    seq(|resources|, i requires 0 <= i < |resources| => (resources[i].OnTrino(), resources[i].resource))
  }

  /** Catalog and operation of each operation of each catalog grant. */
  function OperationKeys(grants: seq<CatalogGrant>): seq<(string, QueryOperation)>
  {
    if grants == [] then []
    else
      var cg := grants[|grants| - 1];
      OperationKeys(grants[..|grants| - 1]) + seq(|cg.operations|,
        k requires 0 <= k < |cg.operations| => (cg.catalog, cg.operations[k]))
  }

  /** `schema.table`, both parts identifiers. */
  predicate IsTableName(s: string)
  {
    var parts := Split(s, '.');
    |parts| == 2 && IsIdentifier(parts[0]) && IsIdentifier(parts[1])
  }

  predicate MasksColumn(g: Grant, col: string)
  {
    exists k :: 0 <= k < |g.Masks()| && g.Masks()[k].0 == col
  }

  /** A grant that lets PII be read without masking every sensitive column, without saying so. */
  predicate LeavesPiiUnmasked(res: Resource, g: Grant)
  {
    && res.classification == Pii && Select in g.privileges && !g.OptedOut()
    && exists k :: 0 <= k < |res.sensitiveColumns| && !MasksColumn(g, res.sensitiveColumns[k])
  }

  ghost predicate GrantOffends(known: set<string>, accepts: string -> bool, res: Resource, g: Grant, c: ErrorCode)
  {
    || (c == PostgresUnsupportedMask && !res.OnTrino() && g.columnMask.Some?)
    || (c == PostgresUnsupportedRowFilter && !res.OnTrino() && g.rowFilter.Some?)
    || ReferencesOffend(known, g.roles, c)
    || (c == InvalidIdentifier && exists k :: 0 <= k < |g.Masks()| && !IsIdentifier(g.Masks()[k].0))
    || (c == RowFilterRejected && g.rowFilter.Some? && !accepts(g.rowFilter.value))
    || (c == PiiUnmasked && LeavesPiiUnmasked(res, g))
  }

  /** A mask that a grant puts on a column, with those it applies to. */
  datatype MaskEntry = MaskEntry(optedOut: bool, holders: set<string>, kind: MaskKind)

  ghost predicate IsEntry(d: Declaration, grants: seq<Grant>, col: string, e: MaskEntry)
  {
    exists k :: 0 <= k < |grants| && EntryOf(d, grants[k], col, e)
  }

  ghost predicate EntryOf(d: Declaration, g: Grant, col: string, e: MaskEntry)
  {
    (col, e.kind) in g.Masks() && e.optedOut == g.OptedOut() && e.holders == HoldersWithGroups(d, g.roles)
  }

  /** Masks of different kinds whose holders overlap, those a guard already excludes aside. */
  predicate EntriesConflict(a: MaskEntry, b: MaskEntry, unmasked: set<string>)
  {
    && a.kind != b.kind && a.optedOut == b.optedOut
    && (if a.optedOut then a.holders * b.holders else a.holders * b.holders - unmasked) != {}
  }

  ghost function UnmaskedHolders(d: Declaration, grants: seq<Grant>): set<string>
  {
    set k, h | 0 <= k < |grants| && grants[k].OptedOut() && h in HoldersWithGroups(d, grants[k].roles) :: h
  }

  ghost predicate MasksConflict(d: Declaration, res: Resource)
  {
    exists col, a, b :: IsEntry(d, res.grants, col, a) && IsEntry(d, res.grants, col, b)
                        && EntriesConflict(a, b, UnmaskedHolders(d, res.grants))
  }

  ghost predicate ResourceOffends(d: Declaration, accepts: string -> bool, res: Resource, c: ErrorCode)
  {
    || (c == InvalidIdentifier && !IsTableName(res.resource))
    || (c == InvalidIdentifier && exists k :: 0 <= k < |res.sensitiveColumns| && !IsIdentifier(res.sensitiveColumns[k]))
    || (c == PiiNoSensitiveColumns && res.classification == Pii && res.sensitiveColumns == [])
    || (exists k :: 0 <= k < |res.grants| && GrantOffends(RoleNames(d), accepts, res, res.grants[k], c))
    || (c == ConflictingMask && MasksConflict(d, res))
  }

  ghost predicate CatalogGrantOffends(known: set<string>, cg: CatalogGrant, c: ErrorCode)
  {
    (c == UnsupportedCatalog && cg.catalog != DEPLOYED_CATALOG) || ReferencesOffend(known, cg.roles, c)
  }

  ghost predicate LoginOffends(d: Declaration, login: Login, c: ErrorCode)
  {
    || (c == InvalidIdentifier && (!IsRoleName(login.name) || !IsIdentifier(login.database)))
    || (c == LoginNameCollision && exists i :: 0 <= i < |d.roles| && ToPgRole(d.roles[i].name) == login.name)
    || (c == UnknownRole && exists k :: 0 <= k < |login.memberOf| && login.memberOf[k] !in RoleNames(d))
  }

  ghost predicate RolesOffend(d: Declaration, c: ErrorCode)
  {
    exists i :: 0 <= i < |d.roles| && NamedReferencesOffend(RoleNames(d), d.roles[i].name, d.roles[i].includes, c)
  }

  ghost predicate GroupsOffend(d: Declaration, c: ErrorCode)
  {
    exists i :: 0 <= i < |d.groups| && NamedReferencesOffend(RoleNames(d), d.groups[i].name, d.groups[i].roles, c)
  }

  ghost predicate ResourcesOffend(d: Declaration, accepts: string -> bool, c: ErrorCode)
  {
    exists i :: 0 <= i < |d.resources| && ResourceOffends(d, accepts, d.resources[i], c)
  }

  ghost predicate CatalogGrantsOffend(d: Declaration, c: ErrorCode)
  {
    exists i :: 0 <= i < |d.catalogGrants| && CatalogGrantOffends(RoleNames(d), d.catalogGrants[i], c)
  }

  ghost predicate LoginsOffend(d: Declaration, c: ErrorCode)
  {
    exists i :: 0 <= i < |d.logins| && LoginOffends(d, d.logins[i], c)
  }

  ghost predicate NamesOffend(d: Declaration, c: ErrorCode)
  {
    || (c == CyclicInheritance && !Acyclic(RoleEdges(d)))
    || RolesOffend(d, c)
    || (c == RoleNameCollision && HasRepeat(PgRoles(d.roles)))
    || GroupsOffend(d, c)
    || (c == DuplicateResource && HasRepeat(TableKeys(d.resources)))
  }

  ghost predicate AccessOffends(d: Declaration, accepts: string -> bool, c: ErrorCode)
  {
    || ResourcesOffend(d, accepts, c)
    || CatalogGrantsOffend(d, c)
    || (c == DuplicateCatalogGrant && HasRepeat(OperationKeys(d.catalogGrants)))
    || LoginsOffend(d, c)
  }

  /** The declaration breaks the rule the code stands for. `accepts` is the row-filter grammar. */
  ghost predicate Offends(d: Declaration, accepts: string -> bool, c: ErrorCode)
  {
    NamesOffend(d, c) || AccessOffends(d, accepts, c)
  }

  ghost predicate IsValid(d: Declaration, accepts: string -> bool)
  {
    forall c :: !Offends(d, accepts, c)
  }

  // ---------------------------------------------------------------------------------------------
  // The checks
  // ---------------------------------------------------------------------------------------------

  method CheckReferences(known: set<string>, names: seq<string>) returns (errors: seq<ErrorCode>)
    ensures forall c :: c in errors <==> ReferencesOffend(known, names, c)
  {
    errors := [];
    for i := 0 to |names|
      invariant forall c :: c in errors <==>
        || (c == UnknownRole && exists k :: 0 <= k < i && names[k] !in known)
        || (c == InvalidIdentifier && exists k :: 0 <= k < i && !IsRoleName(names[k]))
    {
      if names[i] !in known {
        errors := errors + [UnknownRole];
      }
      if !IsRoleName(names[i]) {
        errors := errors + [InvalidIdentifier];
      }
    }
  }

  method CheckNamed(known: set<string>, name: string, names: seq<string>) returns (errors: seq<ErrorCode>)
    ensures forall c :: c in errors <==> NamedReferencesOffend(known, name, names, c)
  {
    errors := if IsRoleName(name) then [] else [InvalidIdentifier];
    var references := CheckReferences(known, names);
    errors := errors + references;
  }

  /** Counts how often each key occurs. */
  method CountOccurrences<K(==)>(keys: seq<K>) returns (counts: map<K, nat>)
    ensures forall x :: x in counts <==> x in keys
    ensures forall x | x in counts :: counts[x] == multiset(keys)[x]
  {
    counts := map[];
    for i := 0 to |keys|
      invariant forall x :: x in counts <==> x in keys[..i]
      invariant forall x | x in counts :: counts[x] == multiset(keys[..i])[x]
    {
      var x := keys[i];
      assert keys[..i + 1] == keys[..i] + [x];
      assert x !in counts ==> multiset(keys[..i])[x] == 0;
      counts := counts[x := (if x in counts then counts[x] else 0) + 1];
    }
    assert keys[..|keys|] == keys;
  }

  lemma {:induction false} RepeatsAreCounted<K>(keys: seq<K>)
    ensures HasRepeat(keys) <==> exists x :: x in keys && 1 < multiset(keys)[x]
  {
    if keys != [] {
      var front, last := keys[..|keys| - 1], keys[|keys| - 1];
      assert keys == front + [last];
      RepeatsAreCounted(front);
      if i, j :| 0 <= i < j < |keys| && keys[i] == keys[j] {
        if j < |front| {
          assert front[i] == front[j];
          var x :| x in front && 1 < multiset(front)[x];
          assert x in keys && 1 < multiset(keys)[x];
        } else {
          assert front[i] == last && last in multiset(front);
          assert last in keys && 1 < multiset(keys)[last];
        }
      }
      if x :| x in keys && 1 < multiset(keys)[x] {
        if x == last {
          assert x in multiset(front) && x in front;
          var i :| 0 <= i < |front| && front[i] == x;
          assert keys[i] == keys[|front|];
        } else {
          assert x in multiset(front) && x in front && 1 < multiset(front)[x];
          var i, j :| 0 <= i < j < |front| && front[i] == front[j];
          assert keys[i] == keys[j];
        }
      }
    }
  }

  /** The keys that occur more than once. */
  ghost function Repeated<K>(keys: seq<K>): set<K>
  {
    set x | x in keys && 1 < multiset(keys)[x]
  }

  lemma RepeatedIffRepeat<K>(keys: seq<K>)
    ensures HasRepeat(keys) <==> 0 < |Repeated(keys)|
  {
    RepeatsAreCounted(keys);
    if HasRepeat(keys) {
      var x :| x in keys && 1 < multiset(keys)[x];
      assert x in Repeated(keys);
    }
  }

  lemma OneLessLeft<K>(repeated: set<K>, rest: set<K>, x: K)
    requires x in rest
    ensures |repeated - (rest - {x})| == |repeated - rest| + if x in repeated then 1 else 0
  {
    assert repeated - (rest - {x}) == (repeated - rest) + if x in repeated then {x} else {};
  }

  ghost function CountedTwice<K>(counts: map<K, nat>): set<K>
  {
    set x | x in counts && 1 < counts[x]
  }

  method ReportCounts<K(==)>(counts: map<K, nat>, code: ErrorCode) returns (errors: seq<ErrorCode>)
    ensures |errors| == |CountedTwice(counts)| && forall k | 0 <= k < |errors| :: errors[k] == code
  {
    errors := [];
    var rest := counts.Keys;
    assert CountedTwice(counts) - rest == {};
    while rest != {}
      invariant rest <= counts.Keys
      invariant |errors| == |CountedTwice(counts) - rest|
      invariant forall k | 0 <= k < |errors| :: errors[k] == code
    {
      var x :| x in rest;
      OneLessLeft(CountedTwice(counts), rest, x);
      rest := rest - {x};
      if 1 < counts[x] {
        errors := errors + [code];
      }
    }
    assert CountedTwice(counts) - rest == CountedTwice(counts);
  }

  /** Reports the code once for every key that occurs more than once. */
  method CheckRepeats<K(==)>(keys: seq<K>, code: ErrorCode) returns (errors: seq<ErrorCode>)
    ensures |errors| == |Repeated(keys)| && forall k | 0 <= k < |errors| :: errors[k] == code
    ensures forall c :: c in errors <==> c == code && HasRepeat(keys)
  {
    var counts := CountOccurrences(keys);
    errors := ReportCounts(counts, code);
    assert CountedTwice(counts) == Repeated(keys);
    RepeatedIffRepeat(keys);
    assert HasRepeat(keys) ==> errors[0] == code;
  }

  method CheckGrant(known: set<string>, accepts: string -> bool, res: Resource, g: Grant)
        returns (errors: seq<ErrorCode>)
    ensures forall c :: c in errors <==> GrantOffends(known, accepts, res, g, c)
  {
    errors := [];
    if !res.OnTrino() && g.columnMask.Some? {
      errors := errors + [PostgresUnsupportedMask];
    }
    if !res.OnTrino() && g.rowFilter.Some? {
      errors := errors + [PostgresUnsupportedRowFilter];
    }
    var references := CheckReferences(known, g.roles);
    errors := errors + references;
    ghost var before := errors;
    for k := 0 to |g.Masks()|
      invariant forall c :: c in errors <==>
        || c in before
        || (c == InvalidIdentifier && exists j :: 0 <= j < k && !IsIdentifier(g.Masks()[j].0))
    {
      if !IsIdentifier(g.Masks()[k].0) {
        errors := errors + [InvalidIdentifier];
      }
    }
    if g.rowFilter.Some? && !accepts(g.rowFilter.value) {
      errors := errors + [RowFilterRejected];
    }
    if LeavesPiiUnmasked(res, g) {
      errors := errors + [PiiUnmasked];
    }
  }

  predicate Listed(maskedBy: map<string, seq<MaskEntry>>, col: string, e: MaskEntry)
  {
    col in maskedBy && e in maskedBy[col]
  }

  /** Collects, column by column, the masks the grants put on it. */
  method CollectMasks(d: Declaration, grants: seq<Grant>) returns (maskedBy: map<string, seq<MaskEntry>>)
    ensures forall col, e :: Listed(maskedBy, col, e) <==> IsEntry(d, grants, col, e)
  {
    maskedBy := map[];
    for i := 0 to |grants|
      invariant forall col, e :: Listed(maskedBy, col, e) <==> IsEntry(d, grants[..i], col, e)
    {
      var g := grants[i];
      var holders := FindHoldersWithGroups(d, g.roles);
      ghost var before := maskedBy;
      for k := 0 to |g.Masks()|
        invariant forall col, e :: Listed(maskedBy, col, e) <==>
          || Listed(before, col, e)
          || (e.optedOut == g.OptedOut() && e.holders == holders && (col, e.kind) in g.Masks()[..k])
      {
        var col, kind := g.Masks()[k].0, g.Masks()[k].1;
        var entry := MaskEntry(g.OptedOut(), holders, kind);
        assert g.Masks()[..k + 1] == g.Masks()[..k] + [(col, kind)];
        maskedBy := maskedBy[col := (if col in maskedBy then maskedBy[col] else []) + [entry]];
      }
      assert g.Masks()[..|g.Masks()|] == g.Masks();
      assert forall col, e :: Listed(maskedBy, col, e) <==> Listed(before, col, e) || EntryOf(d, g, col, e);
    }
    assert grants[..|grants|] == grants;
  }

  /** Holders of the opted-out grants, role and group holders alike. */
  method CollectUnmasked(d: Declaration, grants: seq<Grant>) returns (unmasked: set<string>)
    ensures unmasked == UnmaskedHolders(d, grants)
  {
    unmasked := {};
    for i := 0 to |grants|
      invariant forall h :: h in unmasked <==>
                            exists k :: 0 <= k < i && grants[k].OptedOut() && h in HoldersWithGroups(d, grants[k].roles)
    {
      if grants[i].OptedOut() {
        var holders := FindHoldersWithGroups(d, grants[i].roles);
        unmasked := unmasked + holders;
      }
    }
  }

  /** Some pair among the masks of one column conflicts. */
  ghost predicate PairConflicts(entries: seq<MaskEntry>, unmasked: set<string>)
  {
    exists a, b :: a in entries && b in entries && EntriesConflict(a, b, unmasked)
  }

  /** Compares every mask of a column with every later one. */
  method ComparePairs(entries: seq<MaskEntry>, unmasked: set<string>) returns (errors: seq<ErrorCode>)
    ensures forall c :: c in errors <==> c == ConflictingMask && PairConflicts(entries, unmasked)
  {
    errors := [];
    for i := 0 to |entries|
      invariant forall c :: c in errors <==>
                            c == ConflictingMask && exists k, l ::
                            0 <= k < i && k < l < |entries| && EntriesConflict(entries[k], entries[l], unmasked)
    {
      for j := i + 1 to |entries|
        invariant forall c :: c in errors <==> (
          && c == ConflictingMask
          && ((exists k, l :: 0 <= k < i && k < l < |entries| && EntriesConflict(entries[k], entries[l], unmasked))
              || exists l :: i < l < j && EntriesConflict(entries[i], entries[l], unmasked)))
      {
        if EntriesConflict(entries[i], entries[j], unmasked) {
          errors := errors + [ConflictingMask];
        }
      }
    }
    if PairConflicts(entries, unmasked) {
      var a, b :| a in entries && b in entries && EntriesConflict(a, b, unmasked);
      var k :| 0 <= k < |entries| && entries[k] == a;
      var l :| 0 <= l < |entries| && entries[l] == b;
      assert k < l || l < k;
    }
  }

  method CheckMasks(d: Declaration, res: Resource) returns (errors: seq<ErrorCode>)
    ensures forall c :: c in errors <==> c == ConflictingMask && MasksConflict(d, res)
  {
    var unmasked := CollectUnmasked(d, res.grants);
    var maskedBy := CollectMasks(d, res.grants);
    errors := [];
    var rest := maskedBy.Keys;
    while rest != {}
      invariant rest <= maskedBy.Keys
      invariant forall c :: c in errors <==>
                            c == ConflictingMask && exists col ::
                            col in maskedBy && col !in rest && PairConflicts(maskedBy[col], unmasked)
    {
      var col :| col in rest;
      rest := rest - {col};
      var pairs := ComparePairs(maskedBy[col], unmasked);
      errors := errors + pairs;
    }
    if MasksConflict(d, res) {
      var col, a, b :| IsEntry(d, res.grants, col, a) && IsEntry(d, res.grants, col, b)
                       && EntriesConflict(a, b, UnmaskedHolders(d, res.grants));
      assert Listed(maskedBy, col, a) && Listed(maskedBy, col, b);
      assert PairConflicts(maskedBy[col], unmasked);
    }
    if col :| col in maskedBy && PairConflicts(maskedBy[col], unmasked) {
      var a, b :| a in maskedBy[col] && b in maskedBy[col] && EntriesConflict(a, b, unmasked);
      assert Listed(maskedBy, col, a) && Listed(maskedBy, col, b);
      assert IsEntry(d, res.grants, col, a) && IsEntry(d, res.grants, col, b);
    }
  }

  method CheckResource(d: Declaration, known: set<string>, accepts: string -> bool, res: Resource)
        returns (errors: seq<ErrorCode>)
    requires known == RoleNames(d)
    ensures forall c :: c in errors <==> ResourceOffends(d, accepts, res, c)
  {
    errors := if IsTableName(res.resource) then [] else [InvalidIdentifier];
    ghost var before := errors;
    for k := 0 to |res.sensitiveColumns|
      invariant forall c :: c in errors <==>
        || c in before
        || (c == InvalidIdentifier && exists j :: 0 <= j < k && !IsIdentifier(res.sensitiveColumns[j]))
    {
      if !IsIdentifier(res.sensitiveColumns[k]) {
        errors := errors + [InvalidIdentifier];
      }
    }
    if res.classification == Pii && res.sensitiveColumns == [] {
      errors := errors + [PiiNoSensitiveColumns];
    }
    before := errors;
    for k := 0 to |res.grants|
      invariant forall c :: c in errors <==>
                            c in before || exists j :: 0 <= j < k && GrantOffends(known, accepts, res, res.grants[j], c)
    {
      var found := CheckGrant(known, accepts, res, res.grants[k]);
      errors := errors + found;
    }
    var conflicts := CheckMasks(d, res);
    errors := errors + conflicts;
  }

  method CheckLogin(d: Declaration, known: set<string>, login: Login) returns (errors: seq<ErrorCode>)
    requires known == RoleNames(d)
    ensures forall c :: c in errors <==> LoginOffends(d, login, c)
  {
    errors := [];
    if !IsRoleName(login.name) {
      errors := errors + [InvalidIdentifier];
    }
    if !IsIdentifier(login.database) {
      errors := errors + [InvalidIdentifier];
    }
    if exists i :: 0 <= i < |d.roles| && ToPgRole(d.roles[i].name) == login.name {
      errors := errors + [LoginNameCollision];
    }
    ghost var before := errors;
    for k := 0 to |login.memberOf|
      invariant forall c :: c in errors <==>
                            c in before || (c == UnknownRole && exists j :: 0 <= j < k && login.memberOf[j] !in known)
    {
      if login.memberOf[k] !in known {
        errors := errors + [UnknownRole];
      }
    }
  }

  method CheckRoles(d: Declaration, known: set<string>) returns (errors: seq<ErrorCode>)
    requires known == RoleNames(d)
    ensures forall c :: c in errors <==> RolesOffend(d, c)
  {
    errors := [];
    for i := 0 to |d.roles|
      invariant forall c :: c in errors <==>
                            exists k :: 0 <= k < i
                                        && NamedReferencesOffend(known, d.roles[k].name, d.roles[k].includes, c)
    {
      var found := CheckNamed(known, d.roles[i].name, d.roles[i].includes);
      errors := errors + found;
    }
  }

  method CheckGroups(d: Declaration, known: set<string>) returns (errors: seq<ErrorCode>)
    requires known == RoleNames(d)
    ensures forall c :: c in errors <==> GroupsOffend(d, c)
  {
    errors := [];
    for i := 0 to |d.groups|
      invariant forall c :: c in errors <==>
                            exists k :: 0 <= k < i
                                        && NamedReferencesOffend(known, d.groups[k].name, d.groups[k].roles, c)
    {
      var found := CheckNamed(known, d.groups[i].name, d.groups[i].roles);
      errors := errors + found;
    }
  }

  method CheckResources(d: Declaration, known: set<string>, accepts: string -> bool) returns (errors: seq<ErrorCode>)
    requires known == RoleNames(d)
    ensures forall c :: c in errors <==> ResourcesOffend(d, accepts, c)
  {
    errors := [];
    for i := 0 to |d.resources|
      invariant forall c :: c in errors <==> exists k :: 0 <= k < i && ResourceOffends(d, accepts, d.resources[k], c)
    {
      var found := CheckResource(d, known, accepts, d.resources[i]);
      errors := errors + found;
    }
  }

  method CheckCatalogGrants(d: Declaration, known: set<string>) returns (errors: seq<ErrorCode>)
    requires known == RoleNames(d)
    ensures forall c :: c in errors <==> CatalogGrantsOffend(d, c)
  {
    errors := [];
    for i := 0 to |d.catalogGrants|
      invariant forall c :: c in errors <==> exists k :: 0 <= k < i && CatalogGrantOffends(known, d.catalogGrants[k], c)
    {
      if d.catalogGrants[i].catalog != DEPLOYED_CATALOG {
        errors := errors + [UnsupportedCatalog];
      }
      var found := CheckReferences(known, d.catalogGrants[i].roles);
      errors := errors + found;
    }
  }

  method CheckLogins(d: Declaration, known: set<string>) returns (errors: seq<ErrorCode>)
    requires known == RoleNames(d)
    ensures forall c :: c in errors <==> LoginsOffend(d, c)
  {
    errors := [];
    for i := 0 to |d.logins|
      invariant forall c :: c in errors <==> exists k :: 0 <= k < i && LoginOffends(d, d.logins[k], c)
    {
      var found := CheckLogin(d, known, d.logins[i]);
      errors := errors + found;
    }
  }

  /** Roles, groups and repeated names, in the order they are reported. */
  method CheckNames(d: Declaration, known: set<string>) returns (errors: seq<ErrorCode>)
    requires known == RoleNames(d)
    ensures forall c :: c in errors <==> NamesOffend(d, c)
  {
    var cycle := FindCycle(d);
    errors := if cycle.Some? then [CyclicInheritance] else [];
    var roles := CheckRoles(d, known);
    var collisions := CheckRepeats(PgRoles(d.roles), RoleNameCollision);
    var groups := CheckGroups(d, known);
    var repeats := CheckRepeats(TableKeys(d.resources), DuplicateResource);
    errors := errors + roles + collisions + groups + repeats;
  }

  /** Resources, catalog grants and logins, in the order they are reported. */
  method CheckAccess(d: Declaration, known: set<string>, accepts: string -> bool) returns (errors: seq<ErrorCode>)
    requires known == RoleNames(d)
    ensures forall c :: c in errors <==> AccessOffends(d, accepts, c)
  {
    errors := CheckResources(d, known, accepts);
    var catalogs := CheckCatalogGrants(d, known);
    var duplicates := CheckRepeats(OperationKeys(d.catalogGrants), DuplicateCatalogGrant);
    var logins := CheckLogins(d, known);
    errors := errors + catalogs + duplicates + logins;
  }

  /** Validation reports a code exactly when the declaration breaks the rule it stands for. */
  method ValidateDeclaration(d: Declaration, accepts: string -> bool) returns (errors: seq<ErrorCode>)
    ensures forall c :: c in errors <==> Offends(d, accepts, c)
    ensures errors == [] <==> IsValid(d, accepts)
  {
    var known := set i | 0 <= i < |d.roles| :: d.roles[i].name;
    var names := CheckNames(d, known);
    var access := CheckAccess(d, known, accepts);
    errors := names + access;
    assert errors != [] ==> errors[0] in errors;
  }
}
