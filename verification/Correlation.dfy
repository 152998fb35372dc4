/** Links between resources of different services, declared by labels or inferred from names. */
module Correlation {
  import opened Sorting
  import opened Strings
  import opened Wrappers

  datatype EntityKind = KafkaTopic | FlinkJob | IcebergTable | TrinoCatalog | AirflowDag
  datatype Entity = Entity(kind: EntityKind, id: string, name: string, labels: map<string, string>)

  datatype Relation = TopicFeedsJob | JobWritesTable | TableServedByCatalog | DagTriggersJob
  datatype Method = DeclaredLabel | NameConvention | AmbiguousNameConvention

  datatype Link = Link(relation: Relation, source: Entity, target: Entity, confidence: real, method_: Method)

  /** `onSource`: the source carries the label, and it names the target; otherwise the other way round. */
  datatype Rule = Rule(relation: Relation, sourceKind: EntityKind, targetKind: EntityKind, onSource: bool,
        labelKey: string)

  const RULES: seq<Rule> := [
    Rule(TopicFeedsJob, KafkaTopic, FlinkJob, false, "beluga.io/source-topic"),
    Rule(JobWritesTable, FlinkJob, IcebergTable, true, "beluga.io/sink-table"),
    Rule(TableServedByCatalog, IcebergTable, TrinoCatalog, true, "beluga.io/trino-catalog"),
    Rule(DagTriggersJob, AirflowDag, FlinkJob, true, "beluga.io/triggers-job")]

  const DECLARED_CONFIDENCE: real := 0.95
  const NAME_CONVENTION_CONFIDENCE: real := 0.6
  const AMBIGUOUS_CONFIDENCE: real := 0.3

  // ---------------------------------------------------------------------------------------------
  // Name keys
  // ---------------------------------------------------------------------------------------------

  const GENERIC_TOKENS: set<string> := {
    "dag", "job", "sync", "cdc", "daily", "report", "v1", "v2",
    "prod", "production", "dev", "test", "stg", "stage", "staging", "raw", "tmp", "temp", "default", "main", "new",
      "old", "data"}

  /** Pieces between hyphens, underscores and dots. */
  function SplitTokens(s: string): (parts: seq<string>)
    ensures parts != []
  {
    if s == [] then [[]]
    else
      var rest := SplitTokens(s[1..]);
      if s[0] in {'-', '_', '.'} then [[]] + rest else [[s[0]] + rest[0]] + rest[1..]
  }

  /** The first token that is neither empty nor generic. */
  function FirstSignificant(tokens: seq<string>): (token: string)
    ensures token !in GENERIC_TOKENS
    ensures token == "" ==> forall k | 0 <= k < |tokens| :: tokens[k] == "" || tokens[k] in GENERIC_TOKENS
    ensures token != "" ==>
              exists k :: 0 <= k < |tokens| && tokens[k] == token
                          && forall j | 0 <= j < k :: tokens[j] == "" || tokens[j] in GENERIC_TOKENS
  {
    if tokens == [] then ""
    else if tokens[0] != "" && tokens[0] !in GENERIC_TOKENS then tokens[0]
    else FirstSignificant(tokens[1..])
  }

  function FirstSignificantToken(name: string): string
  {
    FirstSignificant(SplitTokens(ToLower(name)))
  }

  function LastSegmentKey(name: string): string
  {
    var segments := Split(ToLower(name), '.');
    FirstSignificantToken(segments[|segments| - 1])
  }

  /** What two entities must share to be linked by name; empty if the name says nothing. */
  function KeyOf(rule: Rule, e: Entity): string
  {
    if e.kind == IcebergTable && rule.relation == JobWritesTable then LastSegmentKey(e.name)
    else if e.kind == IcebergTable && rule.relation == TableServedByCatalog then
      FirstSignificantToken(Split(e.name, '.')[0])
    else FirstSignificantToken(e.name)
  }

  // ---------------------------------------------------------------------------------------------
  // The links of one rule
  // ---------------------------------------------------------------------------------------------

  function OfKind(entities: seq<Entity>, kind: EntityKind): seq<Entity>
  {
    if entities == [] then []
    else
      var last := entities[|entities| - 1];
      OfKind(entities[..|entities| - 1], kind) + if last.kind == kind then [last] else []
  }

  /** Entities with the name, letter case aside. */
  function Named(entities: seq<Entity>, name: string): seq<Entity>
  {
    if entities == [] then []
    else
      var last := entities[|entities| - 1];
      Named(entities[..|entities| - 1], name) + if ToLower(last.name) == ToLower(name) then [last] else []
  }

  predicate Declares(rule: Rule, e: Entity)
  {
    rule.labelKey in e.labels
  }

  /** The link a declaring entity gets: none unless its label names exactly one entity. */
  function DeclaredLink(rule: Rule, owner: Entity, others: seq<Entity>): Option<Link>
  {
    if !Declares(rule, owner) then None
    else
      var matches := Named(others, owner.labels[rule.labelKey]);
      if |matches| != 1 then None
      else if rule.onSource then Some(Link(rule.relation, owner, matches[0], DECLARED_CONFIDENCE, DeclaredLabel))
      else Some(Link(rule.relation, matches[0], owner, DECLARED_CONFIDENCE, DeclaredLabel))
  }

  function DeclaredLinks(rule: Rule, owners: seq<Entity>, others: seq<Entity>): seq<Link>
  {
    if owners == [] then []
    else
      DeclaredLinks(rule, owners[..|owners| - 1], others)
      + match DeclaredLink(rule, owners[|owners| - 1], others) case Some(l) => [l] case None => []
  }

  /** The ids of the owners that declare something. */
  function DeclaredIds(rule: Rule, owners: seq<Entity>): set<string>
  {
    set o | o in owners && Declares(rule, o) :: o.id
  }

  function Excluding(entities: seq<Entity>, ids: set<string>): seq<Entity>
  {
    if entities == [] then []
    else
      var last := entities[|entities| - 1];
      Excluding(entities[..|entities| - 1], ids) + if last.id in ids then [] else [last]
  }

  predicate NamesAgree(rule: Rule, s: Entity, t: Entity)
  {
    KeyOf(rule, s) != "" && KeyOf(rule, t) == KeyOf(rule, s)
  }

  function PairsOf(rule: Rule, s: Entity, targets: seq<Entity>): seq<(Entity, Entity)>
  {
    if targets == [] then []
    else
      var last := targets[|targets| - 1];
      PairsOf(rule, s, targets[..|targets| - 1]) + if NamesAgree(rule, s, last) then [(s, last)] else []
  }

  function Pairs(rule: Rule, sources: seq<Entity>, targets: seq<Entity>): seq<(Entity, Entity)>
  {
    if sources == [] then []
    else Pairs(rule, sources[..|sources| - 1], targets) + PairsOf(rule, sources[|sources| - 1], targets)
  }

  function CountSource(pairs: seq<(Entity, Entity)>, id: string): nat
  {
    if pairs == [] then 0
    else CountSource(pairs[..|pairs| - 1], id) + if pairs[|pairs| - 1].0.id == id then 1 else 0
  }

  function CountTarget(pairs: seq<(Entity, Entity)>, id: string): nat
  {
    if pairs == [] then 0
    else CountTarget(pairs[..|pairs| - 1], id) + if pairs[|pairs| - 1].1.id == id then 1 else 0
  }

  function InferredLink(rule: Rule, all: seq<(Entity, Entity)>, pair: (Entity, Entity)): Link
  {
    var ambiguous := CountSource(all, pair.0.id) > 1 || CountTarget(all, pair.1.id) > 1;
    Link(rule.relation, pair.0, pair.1, if ambiguous then AMBIGUOUS_CONFIDENCE else NAME_CONVENTION_CONFIDENCE,
         if ambiguous then AmbiguousNameConvention else NameConvention)
  }

  function InferredLinks(rule: Rule, all: seq<(Entity, Entity)>): seq<Link>
  {
    seq(|all|, i requires 0 <= i < |all| => InferredLink(rule, all, all[i]))
  }

  function OwnersOf(rule: Rule, sorted: seq<Entity>): seq<Entity>
  {
    OfKind(sorted, if rule.onSource then rule.sourceKind else rule.targetKind)
  }

  function OthersOf(rule: Rule, sorted: seq<Entity>): seq<Entity>
  {
    OfKind(sorted, if rule.onSource then rule.targetKind else rule.sourceKind)
  }

  /** Sources that may be linked by name: those that declared nothing, where sources declare. */
  function EligibleSources(rule: Rule, sorted: seq<Entity>): seq<Entity>
  {
    Excluding(OfKind(sorted, rule.sourceKind), if rule.onSource then DeclaredIds(rule, OwnersOf(rule, sorted)) else {})
  }

  function EligibleTargets(rule: Rule, sorted: seq<Entity>): seq<Entity>
  {
    Excluding(OfKind(sorted, rule.targetKind), if rule.onSource then {} else DeclaredIds(rule, OwnersOf(rule, sorted)))
  }

  function EligiblePairs(rule: Rule, sorted: seq<Entity>): seq<(Entity, Entity)>
  {
    Pairs(rule, EligibleSources(rule, sorted), EligibleTargets(rule, sorted))
  }

  function RuleLinks(rule: Rule, sorted: seq<Entity>): seq<Link>
  {
    DeclaredLinks(rule, OwnersOf(rule, sorted), OthersOf(rule, sorted))
      + InferredLinks(rule, EligiblePairs(rule, sorted))
  }

  function AllLinks(rules: seq<Rule>, sorted: seq<Entity>): seq<Link>
  {
    if rules == [] then [] else AllLinks(rules[..|rules| - 1], sorted) + RuleLinks(rules[|rules| - 1], sorted)
  }

  // ---------------------------------------------------------------------------------------------
  // The links of a set of entities
  // ---------------------------------------------------------------------------------------------

  predicate EntityLe(a: Entity, b: Entity)
  {
    StringLe(a.id, b.id)
  }

  function RelationText(r: Relation): string
  {
    match r
    case TopicFeedsJob => "topic-feeds-job"
    case JobWritesTable => "job-writes-table"
    case TableServedByCatalog => "table-served-by-catalog"
    case DagTriggersJob => "dag-triggers-job"
  }

  function LinkId(l: Link): string
  {
    RelationText(l.relation) + ":" + l.source.id + "->" + l.target.id
  }

  predicate LinkLe(a: Link, b: Link)
  {
    StringLe(LinkId(a), LinkId(b))
  }

  function Correlated(entities: seq<Entity>): seq<Link>
  {
    SortBy(AllLinks(RULES, SortBy(entities, EntityLe)), LinkLe)
  }

  method CountPairs(pairs: seq<(Entity, Entity)>) returns (perSource: map<string, nat>, perTarget: map<string, nat>)
    ensures forall i | 0 <= i < |pairs| ::
        pairs[i].0.id in perSource && perSource[pairs[i].0.id] == CountSource(pairs, pairs[i].0.id)
    ensures forall i | 0 <= i < |pairs| ::
        pairs[i].1.id in perTarget && perTarget[pairs[i].1.id] == CountTarget(pairs, pairs[i].1.id)
  {
    perSource, perTarget := map[], map[];
    for i := 0 to |pairs|
      invariant forall id :: (if id in perSource then perSource[id] else 0) == CountSource(pairs[..i], id)
      invariant forall id :: (if id in perTarget then perTarget[id] else 0) == CountTarget(pairs[..i], id)
      invariant forall k | 0 <= k < i :: pairs[k].0.id in perSource && pairs[k].1.id in perTarget
    {
      assert pairs[..i + 1][..i] == pairs[..i];
      var (s, t) := pairs[i];
      perSource := perSource[s.id := (if s.id in perSource then perSource[s.id] else 0) + 1];
      perTarget := perTarget[t.id := (if t.id in perTarget then perTarget[t.id] else 0) + 1];
    }
    assert pairs[..|pairs|] == pairs;
  }

  method FindPairs(rule: Rule, sources: seq<Entity>, targets: seq<Entity>) returns (pairs: seq<(Entity, Entity)>)
    ensures pairs == Pairs(rule, sources, targets)
  {
    pairs := [];
    for i := 0 to |sources|
      invariant pairs == Pairs(rule, sources[..i], targets)
    {
      assert sources[..i + 1][..i] == sources[..i];
      var found: seq<(Entity, Entity)> := [];
      if KeyOf(rule, sources[i]) != "" {
        for j := 0 to |targets|
          invariant found == PairsOf(rule, sources[i], targets[..j])
        {
          assert targets[..j + 1][..j] == targets[..j];
          if KeyOf(rule, targets[j]) == KeyOf(rule, sources[i]) {
            found := found + [(sources[i], targets[j])];
          }
        }
        assert targets[..|targets|] == targets;
      } else {
        NoPairsWithoutKey(rule, sources[i], targets);
      }
      pairs := pairs + found;
    }
    assert sources[..|sources|] == sources;
  }

  lemma {:induction false} NoPairsWithoutKey(rule: Rule, s: Entity, targets: seq<Entity>)
    requires KeyOf(rule, s) == ""
    ensures PairsOf(rule, s, targets) == []
  {
    if targets != [] {
      NoPairsWithoutKey(rule, s, targets[..|targets| - 1]);
    }
  }

  /** The links the owners declare, and the ids of those that declare something. */
  method DeclareLinks(rule: Rule, owners: seq<Entity>, others: seq<Entity>)
        returns (links: seq<Link>, declaredIds: set<string>)
    ensures links == DeclaredLinks(rule, owners, others) && declaredIds == DeclaredIds(rule, owners)
  {
    declaredIds := {};
    links := [];
    for i := 0 to |owners|
      invariant links == DeclaredLinks(rule, owners[..i], others)
      invariant declaredIds == DeclaredIds(rule, owners[..i])
    {
      assert owners[..i + 1][..i] == owners[..i];
      DeclaredIdsGrow(rule, owners, i);
      if Declares(rule, owners[i]) {
        declaredIds := declaredIds + {owners[i].id};
      }
      match DeclaredLink(rule, owners[i], others) {
        case Some(l) => links := links + [l];
        case None =>
      }
    }
    assert owners[..|owners|] == owners;
  }

  lemma DeclaredIdsGrow(rule: Rule, owners: seq<Entity>, i: nat)
    requires i < |owners|
    ensures DeclaredIds(rule, owners[..i + 1]) == DeclaredIds(rule, owners[..i]) + if Declares(rule, owners[i]) then
        {owners[i].id} else {}
  {
    assert owners[..i + 1] == owners[..i] + [owners[i]];
  }

  /** The links of one rule: first the declared ones, then those inferred among the rest. */
  method CorrelateRule(rule: Rule, sorted: seq<Entity>) returns (links: seq<Link>)
    ensures links == RuleLinks(rule, sorted)
  {
    var declared, declaredIds := DeclareLinks(rule, OwnersOf(rule, sorted), OthersOf(rule, sorted));
    var pairs := FindPairs(rule, Excluding(OfKind(sorted, rule.sourceKind), if rule.onSource then declaredIds else {}),
                           Excluding(OfKind(sorted, rule.targetKind), if rule.onSource then {} else declaredIds));
    var inferred := InferLinks(rule, pairs);
    links := declared + inferred;
  }

  method InferLinks(rule: Rule, pairs: seq<(Entity, Entity)>) returns (links: seq<Link>)
    ensures links == InferredLinks(rule, pairs)
  {
    var perSource, perTarget := CountPairs(pairs);
    links := [];
    for i := 0 to |pairs|
      invariant |links| == i && forall k | 0 <= k < i :: links[k] == InferredLink(rule, pairs, pairs[k])
    {
      var (s, t) := pairs[i];
      var ambiguous := perSource[s.id] > 1 || perTarget[t.id] > 1;
      links := links + [Link(rule.relation, s, t, if ambiguous then AMBIGUOUS_CONFIDENCE
        else NAME_CONVENTION_CONFIDENCE,
                             if ambiguous then AmbiguousNameConvention else NameConvention)];
    }
  }

  method CorrelateRules(rules: seq<Rule>, sorted: seq<Entity>) returns (links: seq<Link>)
    ensures links == AllLinks(rules, sorted)
  {
    links := [];
    for i := 0 to |rules|
      invariant links == AllLinks(rules[..i], sorted)
    {
      assert rules[..i + 1][..i] == rules[..i];
      var more := CorrelateRule(rules[i], sorted);
      links := links + more;
    }
    assert rules[..|rules|] == rules;
  }

  method Correlate(entities: seq<Entity>) returns (links: seq<Link>)
    ensures links == Correlated(entities)
  {
    var found := CorrelateRules(RULES, SortBy(entities, EntityLe));
    links := SortBy(found, LinkLe);
  }

  // ---------------------------------------------------------------------------------------------
  // Order does not matter
  // ---------------------------------------------------------------------------------------------

  ghost predicate DistinctIds(entities: seq<Entity>)
  {
    forall i, j | 0 <= i < j < |entities| :: entities[i].id != entities[j].id
  }

  /** No entity is listed twice; different entities may share an id. */
  ghost predicate Distinct(entities: seq<Entity>)
  {
    forall i, j | 0 <= i < j < |entities| :: entities[i] != entities[j]
  }

  /** Entities of one id are one entity. */
  ghost predicate IdsTellEntities(entities: seq<Entity>)
  {
    forall x, y | x in entities && y in entities && x.id == y.id :: x == y
  }

  lemma EntityLeIsOrder()
    ensures IsTotalPreorder(EntityLe)
  {
    StringLeIsOrder();
  }

  /** The same entities in any order give the same links in the same order, if ids tell them apart. */
  lemma CorrelateIgnoresOrder(a: seq<Entity>, b: seq<Entity>)
    requires IdsTellEntities(a) && multiset(a) == multiset(b)
    ensures Correlated(a) == Correlated(b)
  {
    EntityLeIsOrder();
    SortPermutes(a, EntityLe);
    SortPermutes(b, EntityLe);
    SortSorts(a, EntityLe);
    SortSorts(b, EntityLe);
    SortMembers(a, EntityLe);
    forall x, y | x in SortBy(a, EntityLe) && y in SortBy(a, EntityLe) && EntityLe(x, y) && EntityLe(y, x)
        ensures x == y {
      StringLeTies(x.id, y.id);
    }
    SortedUniqueIn(SortBy(a, EntityLe), SortBy(b, EntityLe), EntityLe);
  }

  // ---------------------------------------------------------------------------------------------
  // Which links there are
  // ---------------------------------------------------------------------------------------------

  lemma {:induction false} OfKindMembers(entities: seq<Entity>, kind: EntityKind)
    ensures forall e :: e in OfKind(entities, kind) <==> e in entities && e.kind == kind
    ensures Distinct(entities) ==> Distinct(OfKind(entities, kind))
  {
    if entities != [] {
      var front, last := entities[..|entities| - 1], entities[|entities| - 1];
      assert entities == front + [last];
      OfKindMembers(front, kind);
      assert Distinct(entities) ==> forall e | e in front :: e != last;
      assert forall i | 0 <= i < |OfKind(front, kind)| :: OfKind(front, kind)[i] in front;
    }
  }

  lemma {:induction false} ExcludingMembers(entities: seq<Entity>, ids: set<string>)
    ensures forall e :: e in Excluding(entities, ids) <==> e in entities && e.id !in ids
    ensures Distinct(entities) ==> Distinct(Excluding(entities, ids))
  {
    if entities != [] {
      var front, last := entities[..|entities| - 1], entities[|entities| - 1];
      assert entities == front + [last];
      ExcludingMembers(front, ids);
      assert Distinct(entities) ==> forall e | e in front :: e != last;
      assert forall i | 0 <= i < |Excluding(front, ids)| :: Excluding(front, ids)[i] in front;
    }
  }

  lemma {:induction false} NamedMembers(entities: seq<Entity>, name: string)
    ensures forall e :: e in Named(entities, name) <==> e in entities && ToLower(e.name) == ToLower(name)
    ensures Distinct(entities) ==> Distinct(Named(entities, name))
  {
    if entities != [] {
      var front, last := entities[..|entities| - 1], entities[|entities| - 1];
      assert entities == front + [last];
      NamedMembers(front, name);
      assert Distinct(entities) ==> forall e | e in front :: e != last;
      assert forall i | 0 <= i < |Named(front, name)| :: Named(front, name)[i] in front;
    }
  }

  lemma {:induction false} DeclaredMembers(rule: Rule, owners: seq<Entity>, others: seq<Entity>)
    ensures forall l :: l in DeclaredLinks(rule, owners, others) <==>
                        exists o :: o in owners && DeclaredLink(rule, o, others) == Some(l)
  {
    if owners != [] {
      var front, last := owners[..|owners| - 1], owners[|owners| - 1];
      assert owners == front + [last];
      DeclaredMembers(rule, front, others);
      forall l ensures l in DeclaredLinks(rule, owners, others) <==>
          exists o :: o in owners && DeclaredLink(rule, o, others) == Some(l) {
        if o :| o in owners && DeclaredLink(rule, o, others) == Some(l) {
          assert o in front || o == last;
        }
      }
    }
  }

  lemma {:induction false} PairsOfMembers(rule: Rule, s: Entity, targets: seq<Entity>)
    ensures forall p :: p in PairsOf(rule, s, targets) <==> p.0 == s && p.1 in targets && NamesAgree(rule, s, p.1)
  {
    if targets != [] {
      PairsOfMembers(rule, s, targets[..|targets| - 1]);
      assert targets == targets[..|targets| - 1] + [targets[|targets| - 1]];
    }
  }

  lemma {:induction false} PairsMembers(rule: Rule, sources: seq<Entity>, targets: seq<Entity>)
    ensures forall p :: p in Pairs(rule, sources, targets) <==>
                        p.0 in sources && p.1 in targets && NamesAgree(rule, p.0, p.1)
  {
    if sources != [] {
      PairsMembers(rule, sources[..|sources| - 1], targets);
      PairsOfMembers(rule, sources[|sources| - 1], targets);
      assert sources == sources[..|sources| - 1] + [sources[|sources| - 1]];
    }
  }

  lemma {:induction false} AllMembers(rules: seq<Rule>, sorted: seq<Entity>)
    ensures forall l :: l in AllLinks(rules, sorted) <==> exists r :: r in rules && l in RuleLinks(r, sorted)
  {
    if rules != [] {
      var front, last := rules[..|rules| - 1], rules[|rules| - 1];
      assert rules == front + [last];
      AllMembers(front, sorted);
      forall l ensures l in AllLinks(rules, sorted) <==> exists r :: r in rules && l in RuleLinks(r, sorted) {
        if r :| r in rules && l in RuleLinks(r, sorted) {
          assert r in front || r == last;
        }
      }
    }
  }

  lemma InferredMembers(rule: Rule, all: seq<(Entity, Entity)>)
    ensures forall l :: l in InferredLinks(rule, all) <==> exists p :: p in all && l == InferredLink(rule, all, p)
  {
    forall l ensures l in InferredLinks(rule, all) <==> exists p :: p in all && l == InferredLink(rule, all, p) {
      if p :| p in all && l == InferredLink(rule, all, p) {
        var i :| 0 <= i < |all| && all[i] == p;
        assert InferredLinks(rule, all)[i] == l;
      }
    }
  }

  // ---------------------------------------------------------------------------------------------
  // Every link once
  // ---------------------------------------------------------------------------------------------

  function LinkKey(l: Link): (Relation, string, string)
  {
    (l.relation, l.source.id, l.target.id)
  }

  ghost predicate NoRepeats(links: seq<Link>)
  {
    forall i, j | 0 <= i < j < |links| :: LinkKey(links[i]) != LinkKey(links[j])
  }

  /** What a link joins, entity by entity. */
  function EndsOf(l: Link): (Relation, Entity, Entity)
  {
    (l.relation, l.source, l.target)
  }

  ghost predicate JoinsOnce(links: seq<Link>)
  {
    forall i, j | 0 <= i < j < |links| :: EndsOf(links[i]) != EndsOf(links[j])
  }

  lemma JoinWithoutRepeats(a: seq<Link>, b: seq<Link>)
    requires JoinsOnce(a) && JoinsOnce(b) && forall x, y | x in a && y in b :: EndsOf(x) != EndsOf(y)
    ensures JoinsOnce(a + b)
  {
    forall i, j | 0 <= i < j < |a + b| ensures EndsOf((a + b)[i]) != EndsOf((a + b)[j]) {
      if i < |a| <= j {
        assert a[i] in a && b[j - |a|] in b;
      }
    }
  }

  function OwnerOf(rule: Rule, l: Link): Entity
  {
    if rule.onSource then l.source else l.target
  }

  lemma {:induction false} DeclaredOnce(rule: Rule, owners: seq<Entity>, others: seq<Entity>)
    requires Distinct(owners)
    ensures JoinsOnce(DeclaredLinks(rule, owners, others))
  {
    if owners != [] {
      var front, last := owners[..|owners| - 1], owners[|owners| - 1];
      assert owners == front + [last];
      DeclaredOnce(rule, front, others);
      DeclaredMembers(rule, front, others);
      match DeclaredLink(rule, last, others) {
        case None =>
        case Some(l) =>
          assert forall x | x in DeclaredLinks(rule, front, others) :: OwnerOf(rule, x) in front;
          assert forall e | e in front :: e != last;
          JoinWithoutRepeats(DeclaredLinks(rule, front, others), [l]);
      }
    }
  }

  ghost predicate PairsDiffer(pairs: seq<(Entity, Entity)>)
  {
    forall i, j | 0 <= i < j < |pairs| :: pairs[i] != pairs[j]
  }

  lemma JoinedPairsDiffer(a: seq<(Entity, Entity)>, b: seq<(Entity, Entity)>)
    requires PairsDiffer(a) && PairsDiffer(b) && forall x, y | x in a && y in b :: x != y
    ensures PairsDiffer(a + b)
  {
    forall i, j | 0 <= i < j < |a + b| ensures (a + b)[i] != (a + b)[j] {
      if i < |a| <= j {
        assert a[i] in a && b[j - |a|] in b;
      }
    }
  }

  lemma {:induction false} PairsOfDiffer(rule: Rule, s: Entity, targets: seq<Entity>)
    requires Distinct(targets)
    ensures PairsDiffer(PairsOf(rule, s, targets))
  {
    if targets != [] {
      var front, last := targets[..|targets| - 1], targets[|targets| - 1];
      assert targets == front + [last];
      PairsOfDiffer(rule, s, front);
      PairsOfMembers(rule, s, front);
      assert forall e | e in front :: e != last;
      if NamesAgree(rule, s, last) {
        JoinedPairsDiffer(PairsOf(rule, s, front), [(s, last)]);
      }
    }
  }

  lemma {:induction false} AllPairsDiffer(rule: Rule, sources: seq<Entity>, targets: seq<Entity>)
    requires Distinct(sources) && Distinct(targets)
    ensures PairsDiffer(Pairs(rule, sources, targets))
  {
    if sources != [] {
      var front, last := sources[..|sources| - 1], sources[|sources| - 1];
      assert sources == front + [last];
      AllPairsDiffer(rule, front, targets);
      PairsOfDiffer(rule, last, targets);
      PairsMembers(rule, front, targets);
      PairsOfMembers(rule, last, targets);
      assert forall e | e in front :: e != last;
      JoinedPairsDiffer(Pairs(rule, front, targets), PairsOf(rule, last, targets));
    }
  }

  lemma EligiblePairsDiffer(rule: Rule, sorted: seq<Entity>)
    requires Distinct(sorted)
    ensures PairsDiffer(EligiblePairs(rule, sorted))
  {
    OfKindMembers(sorted, rule.sourceKind);
    OfKindMembers(sorted, rule.targetKind);
    var ids := DeclaredIds(rule, OwnersOf(rule, sorted));
    ExcludingMembers(OfKind(sorted, rule.sourceKind), if rule.onSource then ids else {});
    ExcludingMembers(OfKind(sorted, rule.targetKind), if rule.onSource then {} else ids);
    AllPairsDiffer(rule, EligibleSources(rule, sorted), EligibleTargets(rule, sorted));
  }

  /** Declared links belong to owners that declare, inferred ones to owners whose id none of those has. */
  lemma OwnersOfLinks(rule: Rule, sorted: seq<Entity>, l: Link)
    ensures var ids := DeclaredIds(rule, OwnersOf(rule, sorted));
            && (l in DeclaredLinks(rule, OwnersOf(rule, sorted), OthersOf(rule, sorted)) ==>
              OwnerOf(rule, l).id in ids && l.method_ == DeclaredLabel)
            && (l in InferredLinks(rule, EligiblePairs(rule, sorted)) ==>
              OwnerOf(rule, l).id !in ids && l.method_ != DeclaredLabel)
    ensures l in RuleLinks(rule, sorted) ==> l.relation == rule.relation
  {
    var pairs := EligiblePairs(rule, sorted);
    var ids := DeclaredIds(rule, OwnersOf(rule, sorted));
    DeclaredMembers(rule, OwnersOf(rule, sorted), OthersOf(rule, sorted));
    InferredMembers(rule, pairs);
    PairsMembers(rule, EligibleSources(rule, sorted), EligibleTargets(rule, sorted));
    ExcludingMembers(OfKind(sorted, rule.sourceKind), if rule.onSource then ids else {});
    ExcludingMembers(OfKind(sorted, rule.targetKind), if rule.onSource then {} else ids);
  }

  lemma RuleLinksOnce(rule: Rule, sorted: seq<Entity>)
    requires Distinct(sorted)
    ensures JoinsOnce(RuleLinks(rule, sorted))
  {
    var declared := DeclaredLinks(rule, OwnersOf(rule, sorted), OthersOf(rule, sorted));
    var inferred := InferredLinks(rule, EligiblePairs(rule, sorted));
    OfKindMembers(sorted, if rule.onSource then rule.sourceKind else rule.targetKind);
    DeclaredOnce(rule, OwnersOf(rule, sorted), OthersOf(rule, sorted));
    EligiblePairsDiffer(rule, sorted);
    assert JoinsOnce(inferred);
    forall x, y | x in declared && y in inferred ensures EndsOf(x) != EndsOf(y) {
      OwnersOfLinks(rule, sorted, x);
      OwnersOfLinks(rule, sorted, y);
    }
    JoinWithoutRepeats(declared, inferred);
  }

  lemma {:induction false} AllLinksOnce(rules: seq<Rule>, sorted: seq<Entity>)
    requires Distinct(sorted) && forall i, j | 0 <= i < j < |rules| :: rules[i].relation != rules[j].relation
    ensures JoinsOnce(AllLinks(rules, sorted))
  {
    if rules != [] {
      var front, last := rules[..|rules| - 1], rules[|rules| - 1];
      AllLinksOnce(front, sorted);
      RuleLinksOnce(last, sorted);
      AllMembers(front, sorted);
      forall x, y | x in AllLinks(front, sorted) && y in RuleLinks(last, sorted) ensures EndsOf(x) != EndsOf(y) {
        var r :| r in front && x in RuleLinks(r, sorted);
        OwnersOfLinks(r, sorted, x);
        OwnersOfLinks(last, sorted, y);
        var i :| 0 <= i < |front| && front[i] == r;
        assert rules[i].relation != rules[|rules| - 1].relation;
      }
      JoinWithoutRepeats(AllLinks(front, sorted), RuleLinks(last, sorted));
    }
  }

  lemma DistinctAfterSort(entities: seq<Entity>)
    requires Distinct(entities)
    ensures Distinct(SortBy(entities, EntityLe)) && forall e :: e in SortBy(entities, EntityLe) <==> e in entities
  {
    SortMembers(entities, EntityLe);
    SortPermutes(entities, EntityLe);
    DistinctIsPermuted(entities, SortBy(entities, EntityLe), (e: Entity) => e);
  }

  /** Each relation joins two entities at most once. */
  lemma EntitiesAreJoinedOnce(entities: seq<Entity>)
    requires Distinct(entities)
    ensures JoinsOnce(Correlated(entities))
  {
    DistinctAfterSort(entities);
    var all := AllLinks(RULES, SortBy(entities, EntityLe));
    AllLinksOnce(RULES, SortBy(entities, EntityLe));
    SortPermutes(all, LinkLe);
    DistinctIsPermuted(all, Correlated(entities), EndsOf);
  }

  // ---------------------------------------------------------------------------------------------
  // Declared links, and the confidence of inferred ones
  // ---------------------------------------------------------------------------------------------

  lemma CorrelatedMembers(entities: seq<Entity>, l: Link)
    ensures l in Correlated(entities) <==> exists r :: r in RULES && l in RuleLinks(r, SortBy(entities, EntityLe))
  {
    var all := AllLinks(RULES, SortBy(entities, EntityLe));
    SortMembers(all, LinkLe);
    AllMembers(RULES, SortBy(entities, EntityLe));
  }

  lemma RelationTellsRule(a: Rule, b: Rule)
    requires a in RULES && b in RULES && a.relation == b.relation
    ensures a == b
  {
  }

  /** A link of a relation comes from the rule of that relation. */
  lemma LinkOfRule(entities: seq<Entity>, rule: Rule, l: Link)
    requires rule in RULES && l.relation == rule.relation
    ensures l in Correlated(entities) <==> l in RuleLinks(rule, SortBy(entities, EntityLe))
  {
    CorrelatedMembers(entities, l);
    if r :| r in RULES && l in RuleLinks(r, SortBy(entities, EntityLe)) {
      OwnersOfLinks(r, SortBy(entities, EntityLe), l);
      RelationTellsRule(r, rule);
    }
  }

  function OwnerKind(rule: Rule): EntityKind
  {
    if rule.onSource then rule.sourceKind else rule.targetKind
  }

  function OtherKind(rule: Rule): EntityKind
  {
    if rule.onSource then rule.targetKind else rule.sourceKind
  }

  predicate Matches(rule: Rule, owner: Entity, e: Entity)
    requires Declares(rule, owner)
  {
    e.kind == OtherKind(rule) && ToLower(e.name) == ToLower(owner.labels[rule.labelKey])
  }

  /** Exactly one entity of the other kind has the name the label gives. */
  ghost predicate MatchesOne(entities: seq<Entity>, rule: Rule, owner: Entity)
    requires Declares(rule, owner)
  {
    exists e :: e in entities && Matches(rule, owner, e) && forall x | x in entities && Matches(rule, owner, x) ::
                x == e
  }

  lemma OneElement(named: seq<Entity>)
    requires Distinct(named)
    ensures |named| == 1 <==> exists e :: e in named && forall x | x in named :: x == e
  {
    if |named| == 1 {
      assert named[0] in named;
    }
    assert 1 < |named| ==> named[0] in named && named[1] in named && named[0] != named[1];
  }

  lemma OneMatch(entities: seq<Entity>, rule: Rule, owner: Entity)
    requires Distinct(entities) && Declares(rule, owner)
    ensures |Named(OthersOf(rule, SortBy(entities, EntityLe)), owner.labels[rule.labelKey])| == 1 <==>
        MatchesOne(entities, rule, owner)
  {
    var sorted := SortBy(entities, EntityLe);
    var named := Named(OthersOf(rule, sorted), owner.labels[rule.labelKey]);
    DistinctAfterSort(entities);
    OfKindMembers(sorted, OtherKind(rule));
    NamedMembers(OthersOf(rule, sorted), owner.labels[rule.labelKey]);
    assert forall e :: e in named <==> e in entities && Matches(rule, owner, e);
    OneElement(named);
  }

  lemma IsOwner(entities: seq<Entity>, rule: Rule, owner: Entity)
    ensures owner in OwnersOf(rule, SortBy(entities, EntityLe)) <==> owner in entities && owner.kind == OwnerKind(rule)
  {
    SortMembers(entities, EntityLe);
    OfKindMembers(SortBy(entities, EntityLe), OwnerKind(rule));
  }

  /** Only the declaration of an owner gives it a declared link. */
  lemma DeclaredByOwner(rule: Rule, owners: seq<Entity>, others: seq<Entity>, owner: Entity, l: Link)
    requires OwnerOf(rule, l) == owner && owner in owners
    ensures l in DeclaredLinks(rule, owners, others) <==> DeclaredLink(rule, owner, others) == Some(l)
  {
    DeclaredMembers(rule, owners, others);
    if o :| o in owners && DeclaredLink(rule, o, others) == Some(l) {
      assert o == owner;
    }
  }

  /** The links of a declaring entity on its side of the rule are what its declaration gives. */
  lemma OwnLinkIsDeclared(entities: seq<Entity>, rule: Rule, owner: Entity, l: Link)
    requires rule in RULES && owner in entities && owner.kind == OwnerKind(rule) && Declares(rule, owner)
    requires l.relation == rule.relation && OwnerOf(rule, l) == owner
    ensures var others := OthersOf(rule, SortBy(entities, EntityLe));
            l in Correlated(entities) <==> DeclaredLink(rule, owner, others) == Some(l)
  {
    var sorted := SortBy(entities, EntityLe);
    IsOwner(entities, rule, owner);
    LinkOfRule(entities, rule, l);
    DeclaredByOwner(rule, OwnersOf(rule, sorted), OthersOf(rule, sorted), owner, l);
    if l in InferredLinks(rule, EligiblePairs(rule, sorted)) {
      InferredOwnerDeclaresNothing(rule, sorted, l);
    }
  }

  function PartnerOf(rule: Rule, l: Link): Entity
  {
    if rule.onSource then l.target else l.source
  }

  lemma PartnerMatches(rule: Rule, owner: Entity, sorted: seq<Entity>, l: Link)
    requires DeclaredLink(rule, owner, OthersOf(rule, sorted)) == Some(l)
    ensures Matches(rule, owner, PartnerOf(rule, l))
  {
    var matches := Named(OthersOf(rule, sorted), owner.labels[rule.labelKey]);
    NamedMembers(OthersOf(rule, sorted), owner.labels[rule.labelKey]);
    OfKindMembers(sorted, OtherKind(rule));
    assert matches[0] in matches;
  }

  /** An entity that declares a partner has a link of that rule on its side exactly when its label names
      exactly one entity of the other kind. */
  lemma DeclaringIsLinkedIffOneMatch(entities: seq<Entity>, rule: Rule, owner: Entity)
    requires Distinct(entities) && rule in RULES && owner in entities && owner.kind == OwnerKind(rule)
        && Declares(rule, owner)
    ensures (exists l :: l in Correlated(entities) && l.relation == rule.relation && OwnerOf(rule, l) == owner) <==>
        MatchesOne(entities, rule, owner)
    ensures forall l | l in Correlated(entities) && l.relation == rule.relation && OwnerOf(rule, l) == owner ::
        Matches(rule, owner, PartnerOf(rule, l))
  {
    OneMatch(entities, rule, owner);
    forall l | l in Correlated(entities) && l.relation == rule.relation && OwnerOf(rule, l) == owner
        ensures Matches(rule, owner, PartnerOf(rule, l)) {
      OwnLinkIsDeclared(entities, rule, owner, l);
      PartnerMatches(rule, owner, SortBy(entities, EntityLe), l);
    }
    if l :| l in Correlated(entities) && l.relation == rule.relation && OwnerOf(rule, l) == owner {
      OwnLinkIsDeclared(entities, rule, owner, l);
    }
    if MatchesOne(entities, rule, owner) {
      var l := DeclaredLink(rule, owner, OthersOf(rule, SortBy(entities, EntityLe))).value;
      OwnLinkIsDeclared(entities, rule, owner, l);
    }
  }

  /** Who is linked by name on the declaring side has declared nothing. */
  lemma InferredOwnerDeclaresNothing(rule: Rule, sorted: seq<Entity>, l: Link)
    requires l in InferredLinks(rule, EligiblePairs(rule, sorted))
    ensures !Declares(rule, OwnerOf(rule, l))
  {
    var ids := DeclaredIds(rule, OwnersOf(rule, sorted));
    OwnersOfLinks(rule, sorted, l);
    InferredMembers(rule, EligiblePairs(rule, sorted));
    PairsMembers(rule, EligibleSources(rule, sorted), EligibleTargets(rule, sorted));
    ExcludingMembers(OwnersOf(rule, sorted), ids);
    assert OwnerOf(rule, l) in OwnersOf(rule, sorted);
  }

  lemma DeclaredHasItsConfidence(rule: Rule, owners: seq<Entity>, others: seq<Entity>, l: Link)
    requires l in DeclaredLinks(rule, owners, others)
    ensures l.method_ == DeclaredLabel && l.confidence == DECLARED_CONFIDENCE
  {
    DeclaredMembers(rule, owners, others);
  }

  /** The links of an entity that declares a partner are declared ones, never inferred. */
  lemma DeclaringIsNeverInferred(entities: seq<Entity>, rule: Rule, l: Link)
    requires rule in RULES && l in Correlated(entities) && l.relation == rule.relation
        && Declares(rule, OwnerOf(rule, l))
    ensures l.method_ == DeclaredLabel && l.confidence == DECLARED_CONFIDENCE
  {
    var sorted := SortBy(entities, EntityLe);
    LinkOfRule(entities, rule, l);
    if l in DeclaredLinks(rule, OwnersOf(rule, sorted), OthersOf(rule, sorted)) {
      DeclaredHasItsConfidence(rule, OwnersOf(rule, sorted), OthersOf(rule, sorted), l);
    } else {
      InferredOwnerDeclaresNothing(rule, sorted, l);
    }
  }

  /** Some entity of the declaring side with this id declares a partner. */
  ghost predicate DeclaredById(entities: seq<Entity>, rule: Rule, id: string)
  {
    exists o :: o in entities && o.kind == OwnerKind(rule) && o.id == id && Declares(rule, o)
  }

  lemma ExcludedIffDeclared(entities: seq<Entity>, rule: Rule, id: string)
    ensures id in DeclaredIds(rule, OwnersOf(rule, SortBy(entities, EntityLe))) <==> DeclaredById(entities, rule, id)
  {
    forall o ensures o in OwnersOf(rule, SortBy(entities, EntityLe)) <==> o in entities && o.kind == OwnerKind(rule) {
      IsOwner(entities, rule, o);
    }
  }

  /** Who may be linked by name: an entity with whose id nobody on its side has declared anything. */
  lemma SourceIffEligible(entities: seq<Entity>, rule: Rule, s: Entity)
    ensures s in EligibleSources(rule, SortBy(entities, EntityLe)) <==>
              s in entities && s.kind == rule.sourceKind && !(rule.onSource && DeclaredById(entities, rule, s.id))
  {
    var sorted := SortBy(entities, EntityLe);
    ExcludedIffDeclared(entities, rule, s.id);
    SortMembers(entities, EntityLe);
    OfKindMembers(sorted, rule.sourceKind);
    ExcludingMembers(OfKind(sorted, rule.sourceKind),
      if rule.onSource then DeclaredIds(rule, OwnersOf(rule, sorted)) else {});
  }

  lemma TargetIffEligible(entities: seq<Entity>, rule: Rule, t: Entity)
    ensures t in EligibleTargets(rule, SortBy(entities, EntityLe)) <==>
              t in entities && t.kind == rule.targetKind && (rule.onSource || !DeclaredById(entities, rule, t.id))
  {
    var sorted := SortBy(entities, EntityLe);
    ExcludedIffDeclared(entities, rule, t.id);
    SortMembers(entities, EntityLe);
    OfKindMembers(sorted, rule.targetKind);
    ExcludingMembers(OfKind(sorted, rule.targetKind),
      if rule.onSource then {} else DeclaredIds(rule, OwnersOf(rule, sorted)));
  }

  ghost predicate MayBeNamed(entities: seq<Entity>, rule: Rule, s: Entity, t: Entity)
  {
    && s in entities && t in entities && s.kind == rule.sourceKind && t.kind == rule.targetKind
    && NamesAgree(rule, s, t) && !DeclaredById(entities, rule, if rule.onSource then s.id else t.id)
  }

  lemma PairIffEligible(entities: seq<Entity>, rule: Rule, s: Entity, t: Entity)
    ensures (s, t) in EligiblePairs(rule, SortBy(entities, EntityLe)) <==> MayBeNamed(entities, rule, s, t)
  {
    var sorted := SortBy(entities, EntityLe);
    SourceIffEligible(entities, rule, s);
    TargetIffEligible(entities, rule, t);
    PairsMembers(rule, EligibleSources(rule, sorted), EligibleTargets(rule, sorted));
  }

  ghost predicate LinkedByName(entities: seq<Entity>, rule: Rule, s: Entity, t: Entity)
  {
    exists l :: l in Correlated(entities) && l.relation == rule.relation && l.source == s && l.target == t
                && l.method_ != DeclaredLabel
  }

  lemma LinkedPair(entities: seq<Entity>, rule: Rule, l: Link)
    requires rule in RULES && l in Correlated(entities) && l.relation == rule.relation && l.method_ != DeclaredLabel
    ensures (l.source, l.target) in EligiblePairs(rule, SortBy(entities, EntityLe))
  {
    var sorted := SortBy(entities, EntityLe);
    LinkOfRule(entities, rule, l);
    OwnersOfLinks(rule, sorted, l);
    InferredMembers(rule, EligiblePairs(rule, sorted));
  }

  lemma PairIsLinked(entities: seq<Entity>, rule: Rule, s: Entity, t: Entity)
    requires rule in RULES && (s, t) in EligiblePairs(rule, SortBy(entities, EntityLe))
    ensures LinkedByName(entities, rule, s, t)
  {
    var pairs := EligiblePairs(rule, SortBy(entities, EntityLe));
    var l := InferredLink(rule, pairs, (s, t));
    InferredMembers(rule, pairs);
    LinkOfRule(entities, rule, l);
    assert l in Correlated(entities);
  }

  /** Which entities a link by name joins: exactly those of the right kinds whose keys agree and say
      something, as long as nobody with the id of the side that could declare a partner has done so. */
  lemma InferredIffNamesAgree(entities: seq<Entity>, rule: Rule, s: Entity, t: Entity)
    requires rule in RULES
    ensures LinkedByName(entities, rule, s, t) <==> MayBeNamed(entities, rule, s, t)
  {
    PairIffEligible(entities, rule, s, t);
    if LinkedByName(entities, rule, s, t) {
      var l :| l in Correlated(entities) && l.relation == rule.relation && l.source == s && l.target == t
               && l.method_ != DeclaredLabel;
      LinkedPair(entities, rule, l);
    }
    if (s, t) in EligiblePairs(rule, SortBy(entities, EntityLe)) {
      PairIsLinked(entities, rule, s, t);
    }
  }

  lemma {:induction false} CountSourceIs(pairs: seq<(Entity, Entity)>, id: string)
    ensures 0 < CountSource(pairs, id) <==> exists i :: 0 <= i < |pairs| && pairs[i].0.id == id
    ensures 1 < CountSource(pairs, id) <==> exists i, j :: 0 <= i < j < |pairs| && pairs[i].0.id == pairs[j].0.id == id
  {
    if pairs != [] {
      var front, last := pairs[..|pairs| - 1], pairs[|pairs| - 1];
      CountSourceIs(front, id);
      assert forall i | 0 <= i < |front| :: front[i] == pairs[i];
      if i, j :| 0 <= i < j < |pairs| && pairs[i].0.id == pairs[j].0.id == id {
        assert front[i].0.id == id;
      }
    }
  }

  lemma {:induction false} CountTargetIs(pairs: seq<(Entity, Entity)>, id: string)
    ensures 0 < CountTarget(pairs, id) <==> exists i :: 0 <= i < |pairs| && pairs[i].1.id == id
    ensures 1 < CountTarget(pairs, id) <==> exists i, j :: 0 <= i < j < |pairs| && pairs[i].1.id == pairs[j].1.id == id
  {
    if pairs != [] {
      var front, last := pairs[..|pairs| - 1], pairs[|pairs| - 1];
      CountTargetIs(front, id);
      assert forall i | 0 <= i < |front| :: front[i] == pairs[i];
      if i, j :| 0 <= i < j < |pairs| && pairs[i].1.id == pairs[j].1.id == id {
        assert front[i].1.id == id;
      }
    }
  }

  /** Another pair has the same source or the same target. */
  ghost predicate SharesEnd(pairs: seq<(Entity, Entity)>, p: (Entity, Entity))
  {
    exists q :: q in pairs && q != p && (q.0.id == p.0.id || q.1.id == p.1.id)
  }

  lemma AmbiguousIsShared(pairs: seq<(Entity, Entity)>, p: (Entity, Entity))
    requires PairsDiffer(pairs) && p in pairs && (1 < CountSource(pairs, p.0.id) || 1 < CountTarget(pairs, p.1.id))
    ensures SharesEnd(pairs, p)
  {
    CountSourceIs(pairs, p.0.id);
    CountTargetIs(pairs, p.1.id);
    var k :| 0 <= k < |pairs| && pairs[k] == p;
    var i, j :| 0 <= i < j < |pairs| && (pairs[i].0.id == pairs[j].0.id == p.0.id || pairs[i].1.id == pairs[j].1.id ==
                p.1.id);
    var other := if i == k then j else i;
    assert pairs[other] in pairs && pairs[other] != p;
  }

  lemma SharedIsAmbiguous(pairs: seq<(Entity, Entity)>, p: (Entity, Entity))
    requires p in pairs && SharesEnd(pairs, p)
    ensures 1 < CountSource(pairs, p.0.id) || 1 < CountTarget(pairs, p.1.id)
  {
    CountSourceIs(pairs, p.0.id);
    CountTargetIs(pairs, p.1.id);
    var k :| 0 <= k < |pairs| && pairs[k] == p;
    var q :| q in pairs && q != p && (q.0.id == p.0.id || q.1.id == p.1.id);
    var m :| 0 <= m < |pairs| && pairs[m] == q;
    assert if m < k then pairs[m].0.id == pairs[k].0.id || pairs[m].1.id == pairs[k].1.id
           else pairs[k].0.id == pairs[m].0.id || pairs[k].1.id == pairs[m].1.id;
  }

  lemma AmbiguousIffShared(pairs: seq<(Entity, Entity)>, p: (Entity, Entity))
    requires PairsDiffer(pairs) && p in pairs
    ensures (1 < CountSource(pairs, p.0.id) || 1 < CountTarget(pairs, p.1.id)) <==> SharesEnd(pairs, p)
  {
    if SharesEnd(pairs, p) {
      SharedIsAmbiguous(pairs, p);
    } else if 1 < CountSource(pairs, p.0.id) || 1 < CountTarget(pairs, p.1.id) {
      AmbiguousIsShared(pairs, p);
    }
  }

  /** Another inferred link of the relation shares the source or the target. */
  ghost predicate IsShared(links: seq<Link>, l: Link)
  {
    exists m :: m in links && m != l && m.relation == l.relation && m.method_ != DeclaredLabel
                && (m.source.id == l.source.id || m.target.id == l.target.id)
  }

  /** The confidence of an inferred link is 0.3 if another inferred link of its relation shares its source
      or its target, and 0.6 otherwise. */
  lemma ConfidenceMarksAmbiguity(entities: seq<Entity>, l: Link)
    requires Distinct(entities) && l in Correlated(entities) && l.method_ != DeclaredLabel
    ensures l.confidence == if IsShared(Correlated(entities), l) then 0.3 else 0.6
  {
    var sorted := SortBy(entities, EntityLe);
    DistinctAfterSort(entities);
    CorrelatedMembers(entities, l);
    var rule :| rule in RULES && l in RuleLinks(rule, sorted);
    OwnersOfLinks(rule, sorted, l);
    var pairs := EligiblePairs(rule, sorted);
    EligiblePairsDiffer(rule, sorted);
    InferredMembers(rule, pairs);
    var p :| p in pairs && l == InferredLink(rule, pairs, p);
    AmbiguousIffShared(pairs, p);
    if SharesEnd(pairs, p) {
      var q :| q in pairs && q != p && (q.0.id == p.0.id || q.1.id == p.1.id);
      var m := InferredLink(rule, pairs, q);
      assert m in InferredLinks(rule, pairs);
      LinkOfRule(entities, rule, m);
      assert m != l;
    }
    if m :| m in Correlated(entities) && m != l && m.relation == l.relation && m.method_ != DeclaredLabel
            && (m.source.id == l.source.id || m.target.id == l.target.id) {
      LinkOfRule(entities, rule, m);
      OwnersOfLinks(rule, sorted, m);
      var q :| q in pairs && m == InferredLink(rule, pairs, q);
      assert q != p;
    }
  }
}
