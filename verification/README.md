# Verified model of Beluga's policy compiler, graph layout and service adapters

This project models the parts of Beluga whose correctness is easy to get wrong and proves what they are meant
to guarantee. `dafny verify dfyconfig.toml` checks all of it.

**Policy compiler.** A declaration names roles that include other roles, groups of roles, resources with grants,
column masks and opt-outs, catalog grants and database logins. It is validated and compiled to Keycloak composite
roles, to Open Policy Agent rules for Trino, and to PostgreSQL statements. Each back end's output is modelled as
rules or statements with a small evaluator (which rules fire for a token; which privileges a login holds through
role membership), and the theorems compare those evaluators with what the declaration grants.

- `PolicySchema`, `RoleGraph`, `Holders`: the declaration, role expansion, cycle search, and who effectively holds a
  role. The central fact is that a Keycloak token is closed under inheritance, so expanded holder lists and plain
  role tests select the same requesters.
- `PolicyValidation`, `ErrorCodes`: each error code is reported exactly when the declaration breaks the rule it stands
  for, and what that rule says.
- `RegoCompiler`, `MaskGuarantees`, `SharedGroupNames`, `AccessGuarantees`, `PiiGuarantees`: the compiled access rules;
  when masks conflict, what a token is allowed, and when PII is masked.
- `PgCompiler`, `PgGuarantees`, `LentPrivileges`, `Keycloak`: the compiled SQL and Keycloak realm.
- `GrantLines`, `GrantStyles`, `ScriptText`, `ScriptLines`: the lines of the script, what each of them says, and reading
  GRANT lines back in every style.
- `Drift`, `DriftReport`, `DriftKinds`, `DeclarationDrift`: comparing the declaration and its whole script with what the
  systems report.

**Graph layout.** `Digraph`, `Adjacency`, `RecursiveSearch`, `BackEdges`, `Layering`, `GraphLayout`: the iterative
depth-first search that drops back edges and keeps what a recursive one keeps, the longest-path layering over arrays,
and the placement of nodes from left to right.

**Service adapters.** Concurrency is modelled as atomic steps of unboundedly many callers in any interleaving. Each
state machine has a specification in functions over values, theorems about all its runs, and a class whose methods
take the same steps on fields. `Memo`, `MemoLifetimes`, `Slots`, `FlinkCache`, `Bulkhead`. `SqlRedaction`,
`RedactionGrammar`, `AssetId`, `Correlation`, `LinkGuarantees`, `LinkRelations` and `LinkIds` are the string and matching
cores.

## What the model found

- **PII can show unmasked in the schema `information_schema`.** A catalog grant lets its roles select from every table
  of that schema, also from a PII table declared there, without any of that table's masks.
  `PiiGuarantees.PiiReadsAreMaskedIff` says exactly when PII reads are masked, and
  `PiiGuarantees.PiiShowsInInformationSchema` gives valid declarations that fail.
- **Two groups of the same name can hide a mask conflict.** Validation does not reject shared group names, and the tag
  `group:<name>` merges such groups. `MaskGuarantees.ConflictIsReportedIffHolderTokenConflicts` says for all
  declarations what is reported: conflicts of a role's token, or of the tokens of all groups of one name together.
  `SharedGroupNames.SharedNameHidesConflict` gives valid declarations in which a group's own token conflicts unreported.
- **Tables that differ in letter case only share their grants in PostgreSQL**, because their names are printed unquoted.
  `LentPrivileges.CaseTwinLendsPrivilege` gives valid declarations in which a login may read a table that no grant of that
  table lets it read; `PgGuarantees.PrivilegesFollowTheResource` says exactly when this does not happen.
- **A table declared with upper-case letters always shows as drift** once a server reports its folded name
  (`DeclarationDrift.FoldedReportIsCleanIffLowerCase`); role names are folded before they are printed, table names not.
- **A comma in the name of an actual Keycloak role can hide drift**, because role lists are compared joined by commas.
  `DriftReport.CommaHidesDrift` gives the input, `DriftReport.GroupsCleanIffLookAlike` and
  `DriftReport.CleanMeansSameRolesIffPlain` the exact condition.
- **Slashes in names can hide grant drift, but only if the declaration was not validated**: `Drift.SlashHidesDrift` gives
  the lines, `DeclarationDrift.ScriptIsCleanIffRowsMatch` shows that it cannot happen for valid declarations, whatever
  rows a server reports.
- **Comparing groups throws if an absent declared group is named like an inherited object property**, `constructor` for
  example: the lookup answers with that property, which is no list of roles, and there is no report at all.
  `DriftReport.DiffKeycloakGroups` and `DriftReport.DiffState` say exactly when, `DriftReport.InheritedNameThrows` gives
  valid declarations.
- **A role named `public` gives its privileges to everybody**, since PostgreSQL reads the name so.
  `LentPrivileges.PublicLendsPrivilege` gives valid declarations, and `PgGuarantees.PrivilegesSurvivePublicIff` says exactly when logins still hold what is declared.
- **Entities that share an id can be linked twice by one relation** (`LinkGuarantees.SharedIdRepeatsLinks`). They arise: the id
  of a sink table is its name with every separator replaced (`packages/domain-api/src/adapters/flink/mapping.ts`, line 141).
  `LinkGuarantees.LinksAreUniqueIff` is the exact condition, told from the entities.
- **An arrow inside an entity id can make two link ids equal**: `LinkIds.LinkIdsCanMeet` gives entities whose links clash,
  `LinkIds.LinkIdsDifferIffJoinsDo` the exact condition, told from the entities.
- **The isolation boundary can throw, although its comment promises never to.** It does if a provider rejects with an error
  that has no text (an object without prototype, for example), if the provider's id has none, or if the clock goes back
  behind the start of a call at the readings it takes. `Bulkhead.ThrowsIffNoTextOrClockBack` is exact for one answer,
  `Bulkhead.ExceptionIffNoText` for all runs with an honest clock.
- The bounded map would return an array of holes for a limit below 1 (`LimitedMap.AllDoneIffSomeWorker`). This cannot
  occur: its only caller passes a limit that the configuration restricts to 1 to 32 (`packages/domain-api/src/config.ts`,
  line 68).

## Preconditions the code does not enforce

- Group names are pairwise distinct, and login names are pairwise distinct: only where a corollary says so; the mask and
  CONNECT theorems are stated without.
- The clock does not go back, where a theorem says so.
- A load does not call the same memo again before it returns its promise.
- Segments of asset ids hold no U+2028 or U+2029.
- No entity is listed twice (correlation theorems). That ids are pairwise distinct is asked only where a corollary says so.

## Model

| member | source | states |
|---|---|---|
| GraphLayout.Deduplicate | packages/web/src/components/graph/layout.ts:29-35 | the first node of every id is kept, in order, and the index finds each of them |
| GraphLayout.BuildAdjacency | packages/web/src/components/graph/layout.ts:42-51 | the lists hold the targets of the edges between two different known nodes, in edge order and as often as given; in-degrees count them |
| GraphLayout.TargetsKeepEdgeOrder | packages/web/src/components/graph/layout.ts:44-51 | the targets of a node stand in the order in which its edges are given |
| GraphLayout.SearchRoots | packages/web/src/components/graph/layout.ts:57-59 | every node is a root once: sources first, then the others, each part ascending |
| BackEdges.ExamineTop | packages/web/src/components/graph/layout.ts:66-80 | one loop iteration is one enabled move of the depth-first search |
| BackEdges.Explore | packages/web/src/components/graph/layout.ts:61-82 | exploring a root finishes it and all it discovers, in as many iterations as the work measure grows |
| BackEdges.RemoveBackEdges | packages/web/src/components/graph/layout.ts:53-82 | the kept edges are acyclic by finish order, each dropped edge closes a cycle through kept edges, parallel edges survive together, the inner loop runs exactly V + E times, and the kept lists are those of a recursive depth-first search that takes roots and edges in the given order |
| BackEdges.MoveUnwinds | packages/web/src/components/graph/layout.ts:63-81 | no iteration of the inner loop changes what the recursive search makes of the open nodes in the end |
| RecursiveSearch.EdgeUnwinds | packages/web/src/components/graph/layout.ts:72-80 | examining one edge of the last open node and going on from the stack is the recursion: open targets are skipped, others kept, unvisited ones visited at once |
| RecursiveSearch.FirstListedKeepsItsEdge | packages/web/src/components/graph/layout.ts:70-76 | of two nodes with edges to each other the one whose edge from the root is given first keeps its edge, and the other loses it |
| BackEdges.KeptPlusDropped | packages/web/src/components/graph/layout.ts:74-76 | every edge is either kept or dropped, none is both |
| BackEdges.AcyclicLosesNoEdge | packages/web/src/components/graph/layout.ts:14-19 | an acyclic graph loses no edge |
| Layering.LongestPathLayers | packages/web/src/components/graph/layout.ts:84-95 | every node is queued exactly once and its layer is the length of the longest path that ends at it |
| Digraph.LayeringIsLongestWalk | packages/web/src/components/graph/layout.ts:90-94 | the local equations the layering reaches determine the longest path lengths |
| Digraph.LongestWalkIsUnique | packages/web/src/components/graph/layout.ts:84-95 | the length of the longest path to a node is one number |
| GraphLayout.PlaceRows | packages/web/src/components/graph/layout.ts:97-110 | explicit positions are kept; every other node gets the x of its layer and the y of the next free row of that layer, in input order |
| GraphLayout.PlacementRunsToTheRight | packages/web/src/components/graph/layout.ts:97-110 | a node without position in layer l lies at x = 310 l and y = 124 r, where r counts the earlier nodes of its layer without position |
| GraphLayout.DistinctCoordinates | packages/web/src/components/graph/layout.ts:103-109 | different nodes without explicit position get different coordinates |
| GraphLayout.ContiguousRows | packages/web/src/components/graph/layout.ts:103-109 | the rows of a layer are 0, 1, 2, ... without gaps |
| GraphLayout.ComputeLayers | packages/web/src/components/graph/layout.ts:53-95 | layers by longest path over the kept edges; no edge is kept that leads back to a root the search starts from; the kept edges are those of the recursive search in input order |
| GraphLayout.ComputeGraphLayout | packages/web/src/components/graph/layout.ts:22-113 | every node id is placed, by its own position or 310 to the right per layer and 124 down per row; layers are longest paths over an acyclic part of the graph whose missing edges close cycles, and which part that is, is decided by the depth-first search in input order |
| GraphLayout.AcyclicGraphKeepsEverything | packages/web/src/components/graph/layout.ts:14-19 | for an acyclic graph the layering is over all its edges |
| GraphLayout.KeptEdgesPointRight | packages/web/src/components/graph/layout.ts:91 | every kept edge leads to a strictly higher layer |
| GraphLayout.KeptEdgesRunRight | packages/web/src/components/graph/layout.ts:91-109 | a kept edge between two nodes without positions leads at least 310 to the right |
| GraphLayout.LayersAreDetermined | packages/web/src/components/graph/layout.ts:8-21 | nodes and edges determine the kept edges and the layers: the layout is deterministic |
| GraphLayout.RingIsCutAtFirst | packages/web/src/components/graph/layout.ts:14-18 | of a ring only the edge that closes it is dropped |
| GraphLayout.RingRunsInOrder | packages/web/src/components/graph/layout.ts:14-18 | a cycle a, b, c and so on back to a yields columns a, b, c and so on, for any length |
| RoleGraph.CollectIncluded | packages/policy-compiler/src/validate.ts:38-42 | the recursive walk ends on every graph, adds only reachable roles, and leaves no included role of a new one unseen |
| RoleGraph.ExpandRoles | packages/policy-compiler/src/validate.ts:35-45 | expansion is the reflexive-transitive closure of inclusion, cyclic graphs included, sorted and without repetition |
| RoleGraph.ClosureTransitive | packages/policy-compiler/src/validate.ts:34-45 | what an inherited role inherits is inherited |
| RoleGraph.CycleFinder.Walk | packages/policy-compiler/src/validate.ts:103-113 | one visit of the search: it reports a real cycle or finishes the role with all its parents finished below it |
| RoleGraph.FindCycle | packages/policy-compiler/src/validate.ts:98-117 | no cycle is reported exactly when inclusion is acyclic; a report is a walk whose last role occurs earlier in it |
| RoleGraph.CycleReportRefutesAcyclic | packages/policy-compiler/src/validate.ts:105-108 | a report proves that inclusion is cyclic |
| Holders.FindHolders | packages/policy-compiler/src/validate.ts:52-54 | the declared roles that are or inherit one of the roles |
| Holders.ExpandGroup | packages/policy-compiler/src/validate.ts:60-62 | all roles a member of the group carries, inheritance included |
| Holders.FindHoldersWithGroups | packages/policy-compiler/src/validate.ts:82-90 | role holders and tagged group holders together |
| Holders.HoldersMatchRoles | packages/policy-compiler/src/compiler/rego.ts:125-128 | for closed tokens, meeting the expanded holders of roles is meeting the roles themselves |
| Holders.RoleNameIsNoTag | packages/policy-compiler/src/validate.ts:74-84 | a role name is never taken for a group tag |
| PolicyValidation.CheckReferences | packages/policy-compiler/src/validate.ts:253-263 | unknown and malformed role references are reported, and nothing else |
| PolicyValidation.CheckRepeats | packages/policy-compiler/src/validate.ts:156-211 | a repetition code is reported once for every key that occurs more than once |
| PolicyValidation.CheckGrant | packages/policy-compiler/src/validate.ts:240-299 | the errors of one grant, among them PII left unmasked without opt-out |
| PolicyValidation.CollectMasks | packages/policy-compiler/src/validate.ts:340-348 | per column exactly the masks the grants put on it, with their holders |
| PolicyValidation.ComparePairs | packages/policy-compiler/src/validate.ts:349-372 | comparing each mask with the later ones finds a conflict exactly when some two masks conflict |
| PolicyValidation.CheckMasks | packages/policy-compiler/src/validate.ts:335-372 | a mask conflict is reported exactly when two masks of one column differ in kind and share a holder no guard excludes |
| PolicyValidation.CheckLogin | packages/policy-compiler/src/validate.ts:439-477 | the errors of one login |
| PolicyValidation.ValidateDeclaration | packages/policy-compiler/src/validate.ts:119-480 | a code is reported exactly when the declaration breaks its rule; no error means valid |
| ErrorCodes.UnknownRoleMeans | packages/policy-compiler/src/validate.ts:119-480 | reported exactly if a role, group, grant, catalog grant or login refers to a role that is not declared |
| ErrorCodes.InvalidIdentifierMeans | packages/policy-compiler/src/validate.ts:119-480 | reported exactly if a name of a role, group, login, database, table or column is malformed |
| ErrorCodes.NameShapes | packages/policy-compiler/src/validate.ts:28-32 | which names are well-formed, character by character |
| ErrorCodes.RoleNameCollisionMeans | packages/policy-compiler/src/validate.ts:156-169 | reported exactly if two roles become one in the database |
| ErrorCodes.LoginNameCollisionMeans | packages/policy-compiler/src/validate.ts:437-476 | reported exactly if a login has the name that a role becomes |
| ErrorCodes.CyclicInheritanceMeans | packages/policy-compiler/src/validate.ts:98-128 | reported exactly if inclusion is cyclic |
| ErrorCodes.DuplicateResourceMeans | packages/policy-compiler/src/validate.ts:190-211 | reported exactly if a table is listed twice for one engine |
| ErrorCodes.PiiCodesMean | packages/policy-compiler/src/validate.ts:232-298 | reported exactly if personal data has no sensitive columns, or a grant shows one unmasked without saying so |
| ErrorCodes.GrantCodesMean | packages/policy-compiler/src/validate.ts:240-283 | reported exactly if PostgreSQL is asked for masks or row filters, or a row filter is rejected |
| ErrorCodes.CatalogCodesMean | packages/policy-compiler/src/validate.ts:383-430 | reported exactly if a catalog is not the deployed one, or an operation is granted twice on one |
| RegoCompiler.SplitLast | packages/policy-compiler/src/compiler/rego.ts:73-77 | splits at the last dot, and fails exactly without a dot |
| RegoCompiler.CompileGrant | packages/policy-compiler/src/compiler/rego.ts:116-188 | exactly the allow, row-filter and mask rules of a grant, opted-out grants unguarded and others guarded |
| RegoCompiler.CompileCatalogGrant | packages/policy-compiler/src/compiler/rego.ts:202-297 | exactly the rules of a catalog grant: operations by resource shape, the information schema, the system catalog |
| RegoCompiler.CompileRego | packages/policy-compiler/src/compiler/rego.ts:83-300 | exactly the rules the declaration stands for; fails exactly on a Trino resource without a dot |
| MaskGuarantees.MaskGuardMeans | packages/policy-compiler/src/compiler/rego.ts:125-136 | for closed tokens a mask rule's conditions say: a role of the grant is held, and no opted-out grant unless the grant itself opted out |
| MaskGuarantees.MixedMasksNeverConflict | packages/policy-compiler/src/validate.ts:307-311 | an opted-out grant and another one never mask for the same token |
| MaskGuarantees.RulesConflictIffGrantsDo | packages/policy-compiler/src/compiler/rego.ts:171-188 | compiled rules conflict on a token exactly when two grants of one table apply and mask a column differently |
| MaskGuarantees.FilteredIffGrantApplies | packages/policy-compiler/src/compiler/rego.ts:153-169 | the row filters a closed token gets on a table are those of the grants that apply to it |
| MaskGuarantees.MaskedIffGrantApplies | packages/policy-compiler/src/compiler/rego.ts:6-10 | the expressions a closed token sees a column through are those of the masks of the grants that apply to it, with the SQL of each kind of mask written out |
| MaskGuarantees.ConflictIsReportedIffHolderTokenConflicts | packages/policy-compiler/src/validate.ts:300-372 | without other errors, a conflict is reported exactly when the token of a declared role, or the tokens of all groups of one name together, make two rules mask one column with different expressions |
| MaskGuarantees.ConflictIsReportedIffTokenConflicts | packages/policy-compiler/src/validate.ts:300-372 | with distinct group names these are the tokens of the declared roles and groups |
| SharedGroupNames.SharedNameHidesConflict | packages/policy-compiler/src/validate.ts:82-90 | two groups of one name: a valid declaration whose rules conflict for the first group's members |
| AccessGuarantees.AllowedIffDeclared | packages/policy-compiler/src/compiler/rego.ts:138-151 | every allow decision for a closed token is traced to grants and back |
| AccessGuarantees.AllowedIffPermitted | packages/policy-compiler/src/compiler/rego.ts:83-299 | every request of a closed token is allowed exactly if a table grant or catalog grant of its roles permits the operation on what it asks for, operation by operation |
| AccessGuarantees.TableAccessIffGranted | packages/policy-compiler/src/compiler/rego.ts:138-245 | on the deployed catalog a closed token may select, insert, update and delete exactly as its grants name these privileges, and may read the information schema besides with a catalog grant |
| AccessGuarantees.SystemTableAccess | packages/policy-compiler/src/compiler/rego.ts:246-297 | on tables of the system catalog: metadata operations only, schemas jdbc and metadata only, catalog access required; query execution aside |
| PiiGuarantees.MaskedIffHeld | packages/policy-compiler/src/compiler/rego.ts:171-188 | a column is masked for a closed token without opt-out exactly when a held grant masks it |
| PiiGuarantees.PiiReadsAreMaskedIff | packages/policy-compiler/src/validate.ts:285-298 | PII reads are masked for all closed tokens without opt-out exactly if the table is outside the information schema, or every role with a catalog grant opted out or holds all masks |
| PiiGuarantees.PiiShowsInInformationSchema | packages/policy-compiler/src/compiler/rego.ts:236-245 | valid declarations in which a catalog grant alone shows a sensitive column |
| Keycloak.ExpansionMatches | packages/policy-compiler/src/compiler/keycloak.ts:13-20 | the closure of the composites is the expansion of the role |
| Keycloak.GroupTokensMatch | packages/policy-compiler/src/compiler/keycloak.ts:22-24 | members of a compiled group carry the token the mask checks assume |
| Keycloak.EveryGroupIsCompiled | packages/policy-compiler/src/compiler/keycloak.ts:22-24 | every declared group becomes a realm group of its name with its token, and there are no others |
| Keycloak.EveryRoleIsCompiled | packages/policy-compiler/src/compiler/keycloak.ts:13-20 | one realm role for each declared role and no other, with its parents in order and composite exactly if it has any, sorted by name and no name twice |
| PgCompiler.CollectSchemaRoles | packages/policy-compiler/src/compiler/pgddl.ts:55-70 | per schema exactly the roles with a table grant, and those that may insert |
| PgCompiler.CompileTableGrant | packages/policy-compiler/src/compiler/pgddl.ts:79-87 | one GRANT per role, privileges in canonical order |
| PgCompiler.CollectDatabaseRoles | packages/policy-compiler/src/compiler/pgddl.ts:142-150 | per database exactly the roles its logins are or inherit |
| PgCompiler.CompilePgDdl | packages/policy-compiler/src/compiler/pgddl.ts:25-164 | exactly the statements the declaration stands for, each principal created before it is granted anything |
| PgGuarantees.RenamingIsInjective | packages/policy-compiler/src/pgrole.ts:17-19 | in a valid declaration two declared roles become the same database role exactly if they are the same |
| PgGuarantees.PgRolesAreFoldedIdentifiers | packages/policy-compiler/src/pgrole.ts:17-19 | what a declared role becomes needs no quotes and is left alone by the folding of the server |
| PgGuarantees.HyphensBecomeUnderscores | packages/policy-compiler/src/pgrole.ts:17-19 | renaming turns each hyphen into an underscore and works part by part |
| PgGuarantees.LogsInIffLogin | packages/policy-compiler/src/compiler/pgddl.ts:34-43 | exactly the declared logins can log in, and no policy role can |
| PgGuarantees.PrivilegesAreInOrder | packages/policy-compiler/src/compiler/pgddl.ts:80-83 | a grant lists select, insert, update, delete in this order, each as often as declared |
| PgGuarantees.RoleInheritance | packages/policy-compiler/src/compiler/pgddl.ts:45-50 | a role inherits in the database exactly the renamed roles it inherits in the declaration |
| PgGuarantees.LoginInheritance | packages/policy-compiler/src/compiler/pgddl.ts:113-118 | a login inherits exactly the roles its entries reach |
| PgGuarantees.TablePrivilegesMatch | packages/policy-compiler/src/compiler/pgddl.ts:78-88 | a login holds a privilege on a table exactly when an entry of its name reaches a role with that grant, tables told apart by folded name |
| PgGuarantees.PrivilegesSurvivePublicIff | packages/policy-compiler/src/compiler/pgddl.ts:78-88 | with grants to a role named public reaching everybody, logins hold what is declared exactly if these grants add nothing |
| LentPrivileges.PublicLendsPrivilege | packages/policy-compiler/src/compiler/pgddl.ts:78-88 | a valid declaration in which a login may read a table only because its role is named public |
| PgGuarantees.PrivilegesComeFromTwins | packages/policy-compiler/src/compiler/pgddl.ts:78-88 | a login holds on a resource what the grants of the resource or of a case twin give it |
| PgGuarantees.PrivilegesFollowTheResource | packages/policy-compiler/src/compiler/pgddl.ts:78-88 | the privileges on a resource are those of its own grants exactly if its case twins add nothing |
| LentPrivileges.CaseTwinLendsPrivilege | packages/policy-compiler/src/compiler/pgddl.ts:78-88 | a valid declaration in which a login may read a table that only the grant of its case twin lets it read |
| PgGuarantees.TablePrivilegeBringsSchema | packages/policy-compiler/src/compiler/pgddl.ts:55-94 | any privilege on a table comes with USAGE on its schema, INSERT also with the sequences |
| PgGuarantees.SchemaUsageNeedsTable | packages/policy-compiler/src/compiler/pgddl.ts:72-76 | who may use a schema holds a privilege on one of its tables |
| PgGuarantees.SequencesNeedInsert | packages/policy-compiler/src/compiler/pgddl.ts:90-94 | a login may use the sequences of a schema exactly if it may insert into one of its tables |
| PgGuarantees.SchemaIsBeforeTheDot | packages/policy-compiler/src/compiler/pgddl.ts:54-59 | the schema of a table is what stands before the dot |
| PgGuarantees.ConnectMatches | packages/policy-compiler/src/compiler/pgddl.ts:120-158 | a principal can connect to a database exactly if it is a login, which can log in, and shares a role with a table grant with some login of that database |
| PgGuarantees.LoginConnectsIff | packages/policy-compiler/src/compiler/pgddl.ts:120-158 | a login can connect to the database of its entry exactly when the entry reaches a role with a table grant, or another entry of its name reaches one that the database shares |
| PgGuarantees.LoginConnectsIffItHasTables | packages/policy-compiler/src/compiler/pgddl.ts:120-158 | with distinct login names it is the entry alone that counts |
| GrantLines.GrantReadsBack | packages/policy-compiler/src/drift.ts:144-162 | parsing the printed GRANT line gives its table, role and privileges |
| GrantLines.GrantOptionShows | packages/policy-compiler/src/drift.ts:144-162 | a grant with the grant option reads back with an extra privilege no declared grant has |
| GrantLines.ValidNamesAreBare | packages/policy-compiler/src/compiler/pgddl.ts:78-88 | validated names need no quoting in such a line |
| GrantStyles.CaseDoesNotMatter | packages/policy-compiler/src/drift.ts:127-161 | a line in capitals reads as the line does, with table and role in capitals |
| GrantStyles.StyleDoesNotMatter | packages/policy-compiler/src/drift.ts:127-161 | a grant reads the same with or without the keyword TABLE, the semicolon and quotes |
| GrantStyles.QuotedNamesReadBack | packages/policy-compiler/src/drift.ts:116-125 | a table name with both parts in quotes is the name without them |
| GrantStyles.WordsTellPrivileges | packages/policy-compiler/src/drift.ts:152-157 | which of the four privileges a printed line gives, told by the words of SQL in it |
| Drift.MergeGrantLines | packages/policy-compiler/src/drift.ts:174-191 | privileges per table and role are united over all lines; unreadable lines are handed over in order |
| Drift.DiffPgGrants | packages/policy-compiler/src/drift.ts:214-252 | one item for every key that is missing, extra or different, one for every unreadable actual line |
| Drift.PgCleanIffSameGrants | packages/policy-compiler/src/drift.ts:174-252 | with declared names free of slashes: clean exactly when all actual lines can be read and both sides grant every role the same on every table, whatever the actual names are |
| Drift.SlashHidesDrift | packages/policy-compiler/src/drift.ts:182 | grants of an unvalidated declaration and different actual ones that share a key and are reported clean |
| Drift.ItemsIgnoreOrder | packages/policy-compiler/src/drift.ts:164-173 | permuting actual rows changes no item |
| Drift.ItemsIgnoreSplitting | packages/policy-compiler/src/drift.ts:164-173 | splitting a row into several for the same table and role changes no item |
| DriftReport.DiffKeycloakRoles | packages/policy-compiler/src/drift.ts:65-80 | one item for every declared role that is absent and every present role that is not declared |
| DriftReport.RolesCleanIffSameNames | packages/policy-compiler/src/drift.ts:65-80 | clean exactly when both sides have the same role names |
| DriftReport.DiffKeycloakGroups | packages/policy-compiler/src/drift.ts:82-107 | one item for every group that is absent, extra or composed differently; throws exactly if an absent declared group is named like an inherited property |
| DriftReport.InheritedNameThrows | packages/policy-compiler/src/drift.ts:86-92 | valid declarations for which it throws |
| DriftReport.CompositionsMeetIff | packages/policy-compiler/src/drift.ts:91-93 | which actual role lists compare equal to a declared one |
| DriftReport.GroupsCleanIffLookAlike | packages/policy-compiler/src/drift.ts:82-107 | clean exactly when both sides have the same groups with role lists that compare equal |
| DriftReport.CleanMeansSameRolesIffPlain | packages/policy-compiler/src/drift.ts:82-107 | in a clean report a group has the declared roles exactly if no actual role name is empty or holds a comma |
| DriftReport.CommaHidesDrift | packages/policy-compiler/src/drift.ts:91-93 | two declared roles and one actual role with a comma compare equal |
| DriftReport.ValidGroupsArePlain | packages/policy-compiler/src/drift.ts:91-93 | the groups of a valid declaration list plain names |
| DriftReport.DiffState | packages/policy-compiler/src/drift.ts:32-63 | the sorted items of exactly the categories that were read, unless the comparison of groups throws |
| DriftReport.ReportIgnoresRowOrder | packages/policy-compiler/src/drift.ts:47-60 | the sorted report is the same for permuted rows |
| DriftReport.ReportIgnoresSplitting | packages/policy-compiler/src/drift.ts:47-60 | the sorted report is the same when a row is split into several |
| DriftKinds.ReportOnRole | packages/policy-compiler/src/drift.ts:65-80 | a role is reported as unapplied exactly if only the declaration has it, and as manual exactly if only the server has |
| DriftKinds.ReportOnGroup | packages/policy-compiler/src/drift.ts:82-107 | the same for a group, and as a mismatch exactly if both have it with role lists that do not compare equal |
| DriftKinds.ReportOnGrant | packages/policy-compiler/src/drift.ts:214-252 | the same for the grants of a role on a table |
| DriftKinds.ReportOnUnreadable | packages/policy-compiler/src/drift.ts:217-225 | a line of the server that cannot be read is always reported for review |
| DriftKinds.ReportIsGrouped | packages/policy-compiler/src/drift.ts:49-60 | a report lists manual items first, then mismatches, then unapplied ones, and each group by target and detail |
| ScriptText.ParsedEndsInTarget | packages/policy-compiler/src/drift.ts:146-152 | a line that reads back as a table grant ends in the words of a target behind the keyword ON |
| ScriptText.SentenceIsNoTableGrant | packages/policy-compiler/src/drift.ts:146-152 | words that do not end so make a line that does not read back |
| ScriptLines.LoginLinesTell | packages/policy-compiler/src/compiler/pgddl.ts:34-43 | the script makes exactly the declared logins accounts that can log in, and exactly the declared roles, renamed, roles that cannot |
| ScriptLines.RoleMembershipTells | packages/policy-compiler/src/compiler/pgddl.ts:45-50 | it makes a role a member of another exactly for the declared inclusions |
| ScriptLines.LoginMembershipTells | packages/policy-compiler/src/compiler/pgddl.ts:113-118 | it makes a login a member, its name in quotes, exactly of the roles its entries list |
| ScriptLines.UsageLineTells | packages/policy-compiler/src/compiler/pgddl.ts:72-76 | it gives USAGE on a schema exactly to the roles with a grant on one of its tables |
| ScriptLines.SequencesLineTells | packages/policy-compiler/src/compiler/pgddl.ts:90-94 | it gives the sequences of a schema exactly to the roles that may insert into one of its tables |
| ScriptLines.ConnectLineTells | packages/policy-compiler/src/compiler/pgddl.ts:142-158 | it gives CONNECT on a database exactly to the roles with a table grant that its logins are or inherit |
| DeclarationDrift.OtherStatementsDoNotParse | packages/policy-compiler/src/drift.ts:195-204 | of the script of a valid declaration only table grants print lines that read back |
| DeclarationDrift.ScriptGrantsDeclared | packages/policy-compiler/src/drift.ts:202-204 | the script, read back line by line, grants exactly what is declared |
| DeclarationDrift.EveryScriptHasText | packages/policy-compiler/src/compiler/pgddl.ts:25-164 | the script of every valid declaration can be printed, each grant with at least one privilege |
| DeclarationDrift.ScriptIsCleanIffRowsMatch | packages/policy-compiler/src/drift.ts:202-252 | for a valid declaration and its script there is no grant item exactly when all rows can be read and grant what is declared |
| DeclarationDrift.AppliedScriptIsClean | packages/policy-compiler/src/drift.ts:202-252 | a server with exactly the grants of the script, listed privilege by privilege, shows no drift |
| DeclarationDrift.FoldedReportIsCleanIffLowerCase | packages/policy-compiler/src/compiler/pgddl.ts:78-88 | against a server that folds table names the report is clean exactly if all granted tables are declared in lower case |
| DeclarationDrift.ValidGrantsArePrintable | packages/policy-compiler/src/compiler/pgddl.ts:78-88 | the table grants of a valid declaration can be read back |
| MemoSpec.NormalizeWeight | packages/domain-api/src/adapters/upstream/memo.ts:27-30 | at least 1, fractions rounded up, anything that is no usable number 1, infinity kept apart |
| MemoSpec.EvictionIsMinimal | packages/domain-api/src/adapters/upstream/memo.ts:60-66 | eviction removes exactly the shortest oldest part that restores both bounds |
| MemoSpec.RunsAreSafe | packages/domain-api/src/adapters/upstream/memo.ts:10-12 | in every run and after every step: distinct keys, weights at least 1 and exactly 1 while pending, both bounds hold |
| MemoSpec.CallStartsLoadIffUnservable | packages/domain-api/src/adapters/upstream/memo.ts:69-76 | a call starts a load exactly when its key has no pending or timely entry, and joins that entry's load otherwise |
| MemoSpec.StaleSettleChangesNothing | packages/domain-api/src/adapters/upstream/memo.ts:78-97 | settling an evicted or replaced load leaves the cache as it is |
| MemoSpec.RunsKeepUseOrder | packages/domain-api/src/adapters/upstream/memo.ts:42-74 | in every run the cache is in the order of last use |
| MemoSpec.ServedOutcomesAreInTime | packages/domain-api/src/adapters/upstream/memo.ts:69-97 | a settled outcome is served only before its settlement plus its time to live, and failures of our own making never |
| MemoLifetimes.SurvivesIff | packages/domain-api/src/adapters/upstream/memo.ts:60-66 | an entry survives eviction exactly if it fits together with those behind it |
| MemoLifetimes.JoinedWhileUnderWay | packages/domain-api/src/adapters/upstream/memo.ts:69-76 | in every run, calls of a key join its load under way exactly if nothing invalidated the key or pushed the entry out since it started |
| MemoLifetimes.KeptUntilItsTime | packages/domain-api/src/adapters/upstream/memo.ts:78-97 | in every run, a call of a key gets the settled outcome of a load and starts none exactly if the outcome may be kept, this call and all before it come before its time is up, and nothing invalidated the key or pushed the entry out |
| MemoLifetimes.InvalidatedIsLoadedAgain | packages/domain-api/src/adapters/upstream/memo.ts:101-104 | after an invalidation the next call starts a load |
| MemoCache.Memo.Link | packages/domain-api/src/adapters/upstream/memo.ts:46-49 | appends an entry and keeps the total exact |
| MemoCache.Memo.Unlink | packages/domain-api/src/adapters/upstream/memo.ts:50-54 | removes the live entry only and keeps the total exact |
| MemoCache.Memo.Reweigh | packages/domain-api/src/adapters/upstream/memo.ts:55-59 | changes the weight of the live entry only and keeps the total exact |
| MemoCache.Memo.Evict | packages/domain-api/src/adapters/upstream/memo.ts:60-66 | the loop drops what the specification drops |
| MemoCache.Memo.Call | packages/domain-api/src/adapters/upstream/memo.ts:69-99 | one call is one step of the specification |
| MemoCache.Memo.SettleValue | packages/domain-api/src/adapters/upstream/memo.ts:79-89 | a value settles as the specification says |
| MemoCache.Memo.SettleError | packages/domain-api/src/adapters/upstream/memo.ts:90-96 | a failure settles as the specification says |
| MemoCache.Memo.InvalidateKey | packages/domain-api/src/adapters/upstream/memo.ts:101-104 | removes the entry of the key |
| MemoCache.Memo.Stats | packages/domain-api/src/adapters/upstream/memo.ts:106-110 | the recomputed sum is the running total |
| SlotProtocol.RunsAreSafe | packages/domain-api/src/adapters/flink/client.ts:105-133 | in every interleaving the counter counts the holders, both bounds hold, and nobody waits while a slot is free |
| SlotProtocol.WaiterIsServed | packages/domain-api/src/adapters/flink/client.ts:129-133 | a waiter at place i gives up or is granted a slot after at most i + 1 releases |
| SlotProtocol.ServedInOrder | packages/domain-api/src/adapters/flink/client.ts:125-133 | first come, first served among those who stay |
| SlotProtocol.NewCallerIsServed | packages/domain-api/src/adapters/flink/client.ts:105-133 | a new caller gets a slot at once exactly if one is free, waits exactly if all are busy and the queue has room, and then gets one unless it gives up; any other never does |
| SlotProtocol.GivenUpIsNeverGranted | packages/domain-api/src/adapters/flink/client.ts:119-124 | a caller that gives up is never granted a slot, and nobody else loses the place |
| SlotClients.FlinkSlots.Acquire | packages/domain-api/src/adapters/flink/client.ts:105-127 | an aborted caller is turned away; otherwise granted exactly if a slot is free, queued at the end exactly if all are busy and the queue has room, and overloaded otherwise |
| SlotClients.FlinkSlots.Abort | packages/domain-api/src/adapters/flink/client.ts:119-124 | a waiting caller leaves the queue |
| SlotClients.FlinkSlots.Release | packages/domain-api/src/adapters/flink/client.ts:129-133 | the slot goes to the first waiter, or is freed |
| SlotClients.UpstreamSlots.constructor | packages/domain-api/src/adapters/upstream/httpClient.ts:55-56 | limits are clamped to at least one slot and no negative queue |
| SlotClients.UpstreamSlots.Acquire | packages/domain-api/src/adapters/upstream/httpClient.ts:60-73 | granted exactly if a slot is free, queued at the end exactly if all are busy and the queue has room, and overloaded otherwise |
| SlotClients.UpstreamSlots.Expire | packages/domain-api/src/adapters/upstream/httpClient.ts:64-68 | a waiting caller whose timer runs out leaves the queue |
| SlotClients.UpstreamSlots.Release | packages/domain-api/src/adapters/upstream/httpClient.ts:75-78 | the slot goes to the first waiter, or is freed |
| SingleFlight.OneLoadAtATime | packages/domain-api/src/adapters/flink/adapter.ts:30-44 | never two loads at once, in any run |
| SingleFlight.NoLoadBeforeExpiry | packages/domain-api/src/adapters/flink/adapter.ts:30-36 | after a success no load starts and the value stays until its time is up |
| SingleFlight.FailureIsNotKept | packages/domain-api/src/adapters/flink/adapter.ts:37-42 | after a failure, whatever happens next, calls have started a new load exactly if the failed one has been let go |
| SingleFlight.UncachedSuccessIsNotKept | packages/domain-api/src/adapters/flink/adapter.ts:33-41 | after a success with no time to live, calls have started a new load exactly if the finished one has been let go |
| SingleFlight.SingleFlightCache.Fetch | packages/domain-api/src/adapters/flink/adapter.ts:30-44 | serves the fresh value, or joins or starts the one load |
| SingleFlight.SingleFlightCache.Store | packages/domain-api/src/adapters/flink/adapter.ts:33-36 | a success is kept for the time its load allows |
| SingleFlight.SingleFlightCache.LetGo | packages/domain-api/src/adapters/flink/adapter.ts:38-41 | a settled load makes room for the next, and only if it is still the one in flight |
| LimitedMap.RunsAreOrderly | packages/domain-api/src/adapters/flink/adapter.ts:262-273 | in every interleaving an item is with exactly one worker, done, or not yet taken |
| LimitedMap.InFlightIsLimited | packages/domain-api/src/adapters/flink/adapter.ts:271 | at most `limit` items are processed at once |
| LimitedMap.ResultsAreWrittenOnce | packages/domain-api/src/adapters/flink/adapter.ts:268 | a result is written once, by the worker that holds the item |
| LimitedMap.AllDoneIffSomeWorker | packages/domain-api/src/adapters/flink/adapter.ts:271-272 | once all workers stopped, every item is done exactly if the limit is at least 1 or there are no items |
| LimitedMap.LimitIsReached | packages/domain-api/src/adapters/flink/adapter.ts:262-273 | some interleaving processes as many items at once as limit and items allow |
| FlinkSnapshot.BuildSnapshot | packages/domain-api/src/adapters/flink/adapter.ts:139-221 | lists each usable job once, names the incomplete ones in order, gives the warnings in order, and is never cached after a transient failure, a second at most after a genuine one |
| FlinkSnapshot.SnapshotCountsJobs | packages/domain-api/src/adapters/flink/adapter.ts:160-221 | of the first hundred jobs each that fits is one pipeline, and each without detail one incomplete id in order |
| FlinkSnapshot.WarningsMean | packages/domain-api/src/adapters/flink/adapter.ts:160-221 | which warnings a snapshot carries and in which order |
| FlinkSnapshot.FailuresMean | packages/domain-api/src/adapters/flink/adapter.ts:139-221 | which failures keep a snapshot from being cached and which shorten its life |
| FlinkSnapshot.LookupIsComplete | packages/domain-api/src/adapters/flink/adapter.ts:226-239 | a lookup gives a pipeline exactly when its job is listed and its detail was fetched, and says unavailable exactly when it cannot know |
| FlinkSnapshot.OtherIdsAreUnknown | packages/domain-api/src/adapters/flink/adapter.ts:226-228 | an id that is not the prefix and 32 hexadecimal digits finds nothing and is not called unavailable |
| SqlRedaction.RedactSqlLiterals | packages/domain-api/src/adapters/upstream/sqlRedaction.ts:5-50 | the index loops compute the scanner's result |
| SqlRedaction.ScanIsClean | packages/domain-api/src/adapters/upstream/sqlRedaction.ts:9-48 | outside double-quoted spans the output has no quote, no comment start, and digits only behind identifier characters |
| SqlRedaction.UnchangedIffClean | packages/domain-api/src/adapters/upstream/sqlRedaction.ts:1-4 | a text is its own redaction exactly when it is clean and trimmed |
| SqlRedaction.RedactionIsIdempotent | packages/domain-api/src/adapters/upstream/sqlRedaction.ts:5-50 | redacting twice is redacting once |
| SqlRedaction.CleanByCharacter | packages/domain-api/src/adapters/upstream/sqlRedaction.ts:1-4 | clean means clean at every position outside double-quoted spans: no quote, no comment start, digits right behind identifier characters only |
| SqlRedaction.LiteralsAreHidden | packages/domain-api/src/adapters/upstream/sqlRedaction.ts:12-22 | changing the contents of a string literal never changes the result, for any surrounding text |
| RedactionGrammar.EveryTextReads | packages/domain-api/src/adapters/upstream/sqlRedaction.ts:9-48 | every text is written in pieces: literals, quoted names, comments, numbers and single characters |
| RedactionGrammar.PiecesAreRedacted | packages/domain-api/src/adapters/upstream/sqlRedaction.ts:9-48 | a text is redacted piece by piece: literals and numbers to a question mark, comments to a blank, all else as it is |
| RedactionGrammar.RedactedByPieces | packages/domain-api/src/adapters/upstream/sqlRedaction.ts:5-50 | the result is the redaction of the pieces without the white space around |
| Strings.TrimTakesSpaces | packages/domain-api/src/adapters/upstream/sqlRedaction.ts:49 | trimming takes the white space off both ends and nothing else |
| Bulkhead.IsolationAbstain | packages/domain-api/src/decision/isolatedProvider.ts:39-59 | which fields an abstention has, and that it passes the result schema exactly when the clock did not go back |
| Bulkhead.ThrowsIffNoTextOrClockBack | packages/domain-api/src/decision/isolatedProvider.ts:61-168 | an answer is an exception exactly if a text it needs cannot be had or the clock went back |
| Bulkhead.TextlessErrorThrows | packages/domain-api/src/decision/isolatedProvider.ts:61-66 | a rejection with an error without text makes the boundary throw under any clock |
| Bulkhead.AnswerIsValid | packages/domain-api/src/decision/isolatedProvider.ts:128-168 | with an honest clock: the provider's decision, an exception exactly for want of a text, or else a schema-valid abstention naming the cause |
| Bulkhead.RunsAreSafe | packages/domain-api/src/decision/isolatedProvider.ts:102-126 | in every run the counter counts the unsettled provider calls within the limit, and each admitted call gives back one slot |
| Bulkhead.AnswersStay | packages/domain-api/src/decision/isolatedProvider.ts:131-146 | a late settlement never alters an answer |
| Bulkhead.ExceptionIffNoText | packages/domain-api/src/decision/isolatedProvider.ts:94-170 | in every run whose clock does not go back, a caller gets an exception exactly if its answer is an abstention that lacks a text |
| Bulkhead.NobodyGetsAnException | packages/domain-api/src/decision/isolatedProvider.ts:94-170 | nobody does if the provider's id and all its errors have a text |
| Bulkhead.SlotIsHeldIffUnsettled | packages/domain-api/src/decision/isolatedProvider.ts:121-126 | in every run a slot is held exactly until the provider call settles, timeouts of its caller notwithstanding |
| Bulkhead.NewCallIsAnswered | packages/domain-api/src/decision/isolatedProvider.ts:94-168 | a new call takes a slot exactly if fewer calls than the limit are unsettled, is then answered by its settlement or its budget, whichever comes first, and is otherwise told at once that the boundary is overloaded |
| Bulkhead.IsolatedProvider.Begin | packages/domain-api/src/decision/isolatedProvider.ts:94-105 | admission is one step of the state machine |
| Bulkhead.IsolatedProvider.ProviderSettles | packages/domain-api/src/decision/isolatedProvider.ts:123-168 | a settlement gives the slot back and answers a waiting caller |
| Bulkhead.IsolatedProvider.BudgetExpires | packages/domain-api/src/decision/isolatedProvider.ts:131-146 | an expired budget answers the caller only |
| AssetId.DecodeUndoesEncode | packages/domain-api/src/lib/assetId.ts:6-14 | decoding undoes encoding for every string |
| AssetId.EncodingEscapes | packages/domain-api/src/lib/assetId.ts:6-10 | encoding turns dots into %2E and percent signs into %25 and keeps all other text |
| AssetId.DeriveIsInjective | packages/domain-api/src/lib/assetId.ts:16-18 | ids tell kinds and non-empty segment lists apart |
| AssetId.IdReads | packages/domain-api/src/lib/assetId.ts:16-18 | the id of names without dots and percent signs reads as the kind and the names, joined with dots |
| AssetId.EmptyListsCollide | packages/domain-api/src/lib/assetId.ts:16-18 | no segment and one empty segment give the same id |
| AssetId.ParseUndoesDerive | packages/domain-api/src/lib/assetId.ts:25-45 | parsing a derived id gives back kind and segments exactly when they are safe, of the right number, short enough and free of line ends, and nothing otherwise |
| AssetId.ParsedIsAddress | packages/domain-api/src/lib/assetId.ts:20-45 | whatever id is read, only plain names come out, of the right number and the stated kind |
| Correlation.Correlate | packages/domain-api/src/correlation/rules.ts:112-169 | the loops compute the links of the specification, sorted by id |
| Correlation.CountPairs | packages/domain-api/src/correlation/rules.ts:147-152 | the two maps count the pairs of each source and each target |
| Correlation.FirstSignificant | packages/domain-api/src/correlation/rules.ts:38-50 | the first token that is neither empty nor generic, and none only if there is none |
| Correlation.CorrelateIgnoresOrder | packages/domain-api/src/correlation/rules.ts:112-169 | the same entities in any order give the same links in the same order, if ids tell them apart |
| LinkGuarantees.LinksIgnoreOrder | packages/domain-api/src/correlation/rules.ts:112-169 | and the same links in some order, whatever ids they have |
| LinkGuarantees.LinkedIffJoined | packages/domain-api/src/correlation/rules.ts:112-169 | which entities are linked, told from the entities alone |
| LinkGuarantees.LinksAreFor | packages/domain-api/src/correlation/rules.ts:112-169 | and which link they get, with its confidence and method |
| LinkRelations.RelationLinksIff | packages/domain-api/src/correlation/rules.ts:58-169 | which entities each of the four relations links, with kinds, labels and name keys written out |
| LinkRelations.NameIsComparedByToken | packages/domain-api/src/correlation/rules.ts:38-50 | a name is compared by its first token that says something, in lower case |
| LinkRelations.NameSaysNothing | packages/domain-api/src/correlation/rules.ts:38-50 | a name without such a token is not compared |
| LinkRelations.TableIsComparedByLastSegment | packages/domain-api/src/correlation/rules.ts:52-56 | a sink table is compared by what stands behind its last dot |
| LinkRelations.CatalogIsFirstSegment | packages/domain-api/src/correlation/rules.ts:82-84 | and its catalog by what stands before its first dot |
| LinkRelations.LinkIdReads | packages/domain-api/src/correlation/rules.ts:96-106 | the id of a link spells its relation and both ends |
| Correlation.EntitiesAreJoinedOnce | packages/domain-api/src/correlation/rules.ts:112-169 | each relation links two entities at most once |
| LinkGuarantees.LinksAreUniqueIff | packages/domain-api/src/correlation/rules.ts:112-169 | each relation links a source id and a target id at most once exactly if its rule never joins two different pairs of entities with the same ids |
| LinkGuarantees.LinksAreUnique | packages/domain-api/src/correlation/rules.ts:112-169 | in particular if ids are distinct |
| LinkGuarantees.SharedIdRepeatsLinks | packages/domain-api/src/correlation/rules.ts:112-169 | a job and two tables with one id that are linked twice |
| Correlation.InferredIffNamesAgree | packages/domain-api/src/correlation/rules.ts:135-146 | two entities are linked by name exactly when their keys agree and are not empty and nobody with the id of the declaring side declares anything |
| Correlation.ConfidenceMarksAmbiguity | packages/domain-api/src/correlation/rules.ts:147-165 | an inferred link has 0.3 if another inferred link of its relation shares an end, and 0.6 otherwise |
| Correlation.DeclaringIsLinkedIffOneMatch | packages/domain-api/src/correlation/rules.ts:117-133 | a declaring entity is linked exactly when its label names exactly one entity, and then to that entity |
| Correlation.DeclaringIsNeverInferred | packages/domain-api/src/correlation/rules.ts:135-137 | a declaring entity gets declared links only |
| LinkIds.LinkIdsMeetIff | packages/domain-api/src/correlation/rules.ts:96-106 | two link ids are equal exactly if the links join the same entities or their entity ids overlap around an arrow |
| LinkIds.LinkIdsDifferIffJoinsDo | packages/domain-api/src/correlation/rules.ts:96-169 | the ids of all links are different exactly if no rule joins two pairs of entities that have the same ids or whose ids overlap around an arrow |
| LinkIds.LinkIdsDifferIffNoOverlap | packages/domain-api/src/correlation/rules.ts:96-169 | with distinct entity ids only the arrows matter |
| LinkIds.NoArrowsNoClash | packages/domain-api/src/correlation/rules.ts:96-169 | they are different if entity ids are distinct and hold no arrow |
| LinkIds.ReportIgnoresOrder | packages/domain-api/src/correlation/rules.ts:112-169 | if the ids of the links differ, any order of the entities gives the same links in the same order |
| LinkIds.LinkIdsCanMeet | packages/domain-api/src/correlation/rules.ts:96-169 | four entities whose correlation has two different links with the same id |

## Left out

- Error messages, comments in the output, evidence texts and the Korean wording of drift items: only codes, rules,
  statements and the variable parts of texts are modelled. Of the SQL script the lines of the statements are modelled;
  headings and block frames count as any lines of their kind.
- PolicyValidation.ValidateDeclaration: states which codes are reported, not how many errors carry a code or in which
  order. The row-filter grammar is a parameter that accepts or rejects a string.
- The server's view of a script folds letter case and knows what `public` means for table grants. That it refuses to
  create roles with reserved names, and cuts names behind 63 bytes, is not modelled.
- RegoCompiler.CompileRego: states the set of rules. Their order, which the source sorts to make the text reproducible,
  has no meaning to the policy engine.
- PgCompiler.CompilePgDdl: states the set of statements and that principals are created first; the sorted order inside a
  section is not stated. Sections are separate methods joined at the end.
- The masks of a grant are a list of column and kind; that the source's record cannot repeat a column is not needed.
- User tokens that combine several unrelated groups, for the mask theorem: the source disclaims them. The access and PII
  theorems cover every closed token.
- Letter case is folded for ASCII letters only, and strings are sequences of Unicode scalar values instead of UTF-16
  code units.
- Memo weights and limits are integers; an unlimited maximum weight is not modelled. Freezing of values, a load that
  throws before it returns a promise, and a load that calls the same memo synchronously are not modelled.
- SlotProtocol: the request between grant and release is one event; that a client releases exactly what it was granted
  is the meaning of the release event.
- LimitedMap: a worker's processing function does not throw, as at its only use.
- FlinkSnapshot.BuildSnapshot: the mapping of a job to a pipeline is a job id with a flag for passing the schema; the time
  budget shows only in the outcomes of the detail fetches.
- Bulkhead: of the result schema only the conditions that can fail for an abstention are modelled.
- HTTP, token files, YAML and schema parsing, URL handling, React views, translations, Lakekeeper listing and Iceberg type
  rendering: input and output around the cores, or easy.
- Table sorting by locale, graph sanitising, pagination and environment parsing: they would only add easy members.
