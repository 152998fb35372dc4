/** The four relations written out: which labels and which parts of names link which resources. */
module LinkRelations {
  import opened Correlation
  import opened LinkGuarantees
  import opened Strings

  // ---------------------------------------------------------------------------------------------
  // What a name is compared by
  // ---------------------------------------------------------------------------------------------

  function Glue(tokens: seq<string>, separators: seq<char>): string
    requires |tokens| == |separators| + 1
  {
    if separators == [] then tokens[0] else tokens[0] + [separators[0]] + Glue(tokens[1..], separators[1..])
  }

  predicate IsToken(token: string)
  {
    '-' !in token && '_' !in token && '.' !in token
  }

  /** Tokens with a hyphen, an underscore or a dot between any two. */
  predicate AreGlued(tokens: seq<string>, separators: seq<char>)
  {
    && |tokens| == |separators| + 1
    && (forall i | 0 <= i < |separators| :: separators[i] in {'-', '_', '.'})
    && (forall i | 0 <= i < |tokens| :: IsToken(tokens[i]))
  }

  lemma {:induction false} OneToken(token: string)
    requires IsToken(token)
    ensures SplitTokens(token) == [token]
  {
    if token != [] {
      assert token[0] in token && token == [token[0]] + token[1..];
      OneToken(token[1..]);
    }
  }

  lemma {:induction false} TokenAndRest(token: string, separator: char, rest: string)
    requires IsToken(token) && separator in {'-', '_', '.'}
    ensures SplitTokens(token + [separator] + rest) == [token] + SplitTokens(rest)
  {
    var s := token + [separator] + rest;
    if token == [] {
      assert s[1..] == rest;
    } else {
      assert token[0] in token && token == [token[0]] + token[1..];
      assert s[1..] == token[1..] + [separator] + rest;
      TokenAndRest(token[1..], separator, rest);
    }
  }

  lemma {:induction false} TokensComeBack(tokens: seq<string>, separators: seq<char>)
    requires AreGlued(tokens, separators)
    ensures SplitTokens(Glue(tokens, separators)) == tokens
  {
    if separators == [] {
      OneToken(tokens[0]);
    } else {
      TokensComeBack(tokens[1..], separators[1..]);
      TokenAndRest(tokens[0], separators[0], Glue(tokens[1..], separators[1..]));
    }
  }

  function AllLower(tokens: seq<string>): seq<string>
  {
    seq(|tokens|, i requires 0 <= i < |tokens| => ToLower(tokens[i]))
  }

  lemma {:induction false} GlueLower(tokens: seq<string>, separators: seq<char>)
    requires AreGlued(tokens, separators)
    ensures ToLower(Glue(tokens, separators)) == Glue(AllLower(tokens), separators)
    ensures AreGlued(AllLower(tokens), separators)
  {
    forall i | 0 <= i < |tokens| ensures IsToken(ToLower(tokens[i])) {
      assert forall k | 0 <= k < |tokens[i]| :: tokens[i][k] in tokens[i];
    }
    if separators != [] {
      GlueLower(tokens[1..], separators[1..]);
      LowerJoins(tokens[0] + [separators[0]], Glue(tokens[1..], separators[1..]));
      LowerJoins(tokens[0], [separators[0]]);
      assert AllLower(tokens)[1..] == AllLower(tokens[1..]);
    }
  }

  /** Tokens that say nothing about what a resource holds: what it does, its version, its environment. */
  predicate SaysNothing(token: string)
  {
    var t := ToLower(token);
    || t in {"", "dag", "job", "sync", "cdc", "daily", "report", "v1", "v2"}
    || t in {"prod", "production", "dev", "test", "stg", "stage", "staging"}
    || t in {"raw", "tmp", "temp", "default", "main", "new", "old", "data"}
  }

  lemma SaysNothingIffGeneric(token: string)
    ensures SaysNothing(token) <==> ToLower(token) == "" || ToLower(token) in GENERIC_TOKENS
  {
  }

  lemma PrefixSaysNothing(tokens: seq<string>, k: nat)
    requires k <= |tokens| && forall j | 0 <= j < k :: SaysNothing(tokens[j])
    ensures forall j | 0 <= j < k :: AllLower(tokens)[j] == "" || AllLower(tokens)[j] in GENERIC_TOKENS
  {
    forall j | 0 <= j < k ensures AllLower(tokens)[j] == "" || AllLower(tokens)[j] in GENERIC_TOKENS {
      SaysNothingIffGeneric(tokens[j]);
    }
  }

  /** A name of any tokens is compared by the first of them that says something, in lower case. */
  lemma NameIsComparedByToken(tokens: seq<string>, separators: seq<char>, k: nat)
    requires AreGlued(tokens, separators) && k < |tokens| && !SaysNothing(tokens[k])
    requires forall j | 0 <= j < k :: SaysNothing(tokens[j])
    ensures FirstSignificantToken(Glue(tokens, separators)) == ToLower(tokens[k])
  {
    GlueLower(tokens, separators);
    TokensComeBack(AllLower(tokens), separators);
    SaysNothingIffGeneric(tokens[k]);
    PrefixSaysNothing(tokens, k);
    FirstIs(AllLower(tokens), k);
  }

  /** A name whose tokens all say nothing is not compared at all. */
  lemma NameSaysNothing(tokens: seq<string>, separators: seq<char>)
    requires AreGlued(tokens, separators) && forall j | 0 <= j < |tokens| :: SaysNothing(tokens[j])
    ensures FirstSignificantToken(Glue(tokens, separators)) == ""
  {
    GlueLower(tokens, separators);
    TokensComeBack(AllLower(tokens), separators);
    PrefixSaysNothing(tokens, |tokens|);
    NoneIs(AllLower(tokens));
  }

  lemma {:induction false} NoneIs(tokens: seq<string>)
    requires forall j | 0 <= j < |tokens| :: tokens[j] == "" || tokens[j] in GENERIC_TOKENS
    ensures FirstSignificant(tokens) == ""
  {
    if tokens != [] {
      NoneIs(tokens[1..]);
    }
  }

  lemma {:induction false} FirstIs(tokens: seq<string>, k: nat)
    requires k < |tokens| && tokens[k] != "" && tokens[k] !in GENERIC_TOKENS
    requires forall j | 0 <= j < k :: tokens[j] == "" || tokens[j] in GENERIC_TOKENS
    ensures FirstSignificant(tokens) == tokens[k]
  {
    if 0 < k {
      FirstIs(tokens[1..], k - 1);
    }
  }

  /** The sink table of a job is compared by what stands behind its last dot. */
  lemma TableIsComparedByLastSegment(front: string, last: string)
    requires '.' !in last
    ensures LastSegmentKey(front + "." + last) == FirstSignificantToken(last)
    ensures LastSegmentKey(last) == FirstSignificantToken(last)
  {
    assert '.' !in ToLower(last) by {
      assert forall k | 0 <= k < |last| :: last[k] in last;
    }
    LowerJoins(front + ".", last);
    LowerJoins(front, ".");
    assert ToLower(".") == ['.'];
    SplitNone(ToLower(last), '.');
    SplitAround(ToLower(front), ToLower(last), '.');
    assert ToLower(front + "." + last) == ToLower(front) + ['.'] + ToLower(last);
    LowerTwice(last);
  }

  /** The catalog of a table is compared by what stands before its first dot. */
  lemma CatalogIsFirstSegment(first: string, rest: string)
    requires '.' !in first
    ensures Split(first + "." + rest, '.')[0] == first && Split(first, '.')[0] == first
  {
    SplitJoined(first, rest, '.');
    SplitNone(first, '.');
  }

  // ---------------------------------------------------------------------------------------------
  // The relations
  // ---------------------------------------------------------------------------------------------

  /** If the owner carries the label, it names the other entity and no further one of its kind, letter case
      aside; if not, the keys agree and say something, and nobody with the owner's kind and id carries it. */
  ghost predicate AreJoined(entities: seq<Entity>, owner: Entity, other: Entity, labelKey: string, ownKey: string,
        otherKey: string)
  {
    if labelKey in owner.labels then
      forall x | x in entities && x.kind == other.kind ::
        ToLower(x.name) == ToLower(owner.labels[labelKey]) <==> x == other
    else
      && ownKey != "" && otherKey == ownKey
      && forall x | x in entities && x.kind == owner.kind && x.id == owner.id :: labelKey !in x.labels
  }

  ghost predicate RelationJoins(entities: seq<Entity>, relation: Relation, s: Entity, t: Entity)
  {
    && s in entities && t in entities
    && match relation
       case TopicFeedsJob =>
         && s.kind == KafkaTopic && t.kind == FlinkJob
         && AreJoined(entities, t, s, "beluga.io/source-topic", FirstSignificantToken(t.name),
              FirstSignificantToken(s.name))
       case JobWritesTable =>
         && s.kind == FlinkJob && t.kind == IcebergTable
         && AreJoined(entities, s, t, "beluga.io/sink-table", FirstSignificantToken(s.name), LastSegmentKey(t.name))
       case TableServedByCatalog =>
         && s.kind == IcebergTable && t.kind == TrinoCatalog
         && AreJoined(entities, s, t, "beluga.io/trino-catalog", FirstSignificantToken(Split(s.name, '.')[0]),
              FirstSignificantToken(t.name))
       case DagTriggersJob =>
         && s.kind == AirflowDag && t.kind == FlinkJob
         && AreJoined(entities, s, t, "beluga.io/triggers-job", FirstSignificantToken(s.name),
              FirstSignificantToken(t.name))
  }

  /** The id of a link names the relation and both ends. */
  lemma LinkIdReads(l: Link)
    ensures var ends := ":" + l.source.id + "->" + l.target.id;
      && (l.relation == TopicFeedsJob ==> LinkId(l) == "topic-feeds-job" + ends)
      && (l.relation == JobWritesTable ==> LinkId(l) == "job-writes-table" + ends)
      && (l.relation == TableServedByCatalog ==> LinkId(l) == "table-served-by-catalog" + ends)
      && (l.relation == DagTriggersJob ==> LinkId(l) == "dag-triggers-job" + ends)
  {
    var text := RelationText(l.relation);
    assert text + ":" + l.source.id + "->" + l.target.id == text + (":" + l.source.id + "->" + l.target.id);
  }

  lemma JoinsByKeys(entities: seq<Entity>, rule: Rule, s: Entity, t: Entity)
    ensures Joins(entities, rule, s, t) <==>
      && s in entities && t in entities && s.kind == rule.sourceKind && t.kind == rule.targetKind
      && if rule.onSource then AreJoined(entities, s, t, rule.labelKey, KeyOf(rule, s), KeyOf(rule, t))
         else AreJoined(entities, t, s, rule.labelKey, KeyOf(rule, t), KeyOf(rule, s))
  {
  }

  lemma JoinsAsWritten(entities: seq<Entity>, rule: Rule, s: Entity, t: Entity)
    requires rule in RULES
    ensures Joins(entities, rule, s, t) <==> RelationJoins(entities, rule.relation, s, t)
  {
    JoinsByKeys(entities, rule, s, t);
    assert rule == RULES[0] || rule == RULES[1] || rule == RULES[2] || rule == RULES[3];
  }

  /** Two resources are linked by a relation exactly if the relation, as written out, joins them. */
  lemma RelationLinksIff(entities: seq<Entity>, relation: Relation, s: Entity, t: Entity)
    requires Distinct(entities)
    ensures (exists l :: l in Correlated(entities) && l.relation == relation && l.source == s && l.target == t)
      <==> RelationJoins(entities, relation, s, t)
  {
    var rule := match relation {
      case TopicFeedsJob => RULES[0]
      case JobWritesTable => RULES[1]
      case TableServedByCatalog => RULES[2]
      case DagTriggersJob => RULES[3]
    };
    assert rule in RULES && rule.relation == relation;
    LinkedIffJoined(entities, rule, s, t);
    JoinsAsWritten(entities, rule, s, t);
    assert IsLinked(entities, rule, s, t) <==>
      exists l :: l in Correlated(entities) && l.relation == relation && l.source == s && l.target == t by {
      if l :| l in Correlated(entities) && l.relation == relation && l.source == s && l.target == t {
        assert IsLinkOf(l, rule, s, t);
      }
    }
  }
}
