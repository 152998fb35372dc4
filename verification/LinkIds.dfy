/** When the ids of the links tell them apart. */
module LinkIds {
  import opened Correlation
  import opened LinkGuarantees
  import opened Sorting
  import opened Strings

  const ARROW: string := "->"

  /** The part of a link id behind the relation. */
  function Ends(source: string, target: string): string
  {
    source + ARROW + target
  }

  /** The source of `a` is that of `b`, an arrow and some text, which in turn leads on to the target of `a`
      in the target of `b`. */
  ghost predicate Overlaps(a: Link, b: Link)
  {
    a.relation == b.relation
    && exists m :: a.source.id == Ends(b.source.id, m) && b.target.id == Ends(m, a.target.id)
  }

  lemma TextTellsRelation(r: Relation, q: Relation)
    requires RelationText(r)[..2] == RelationText(q)[..2]
    ensures r == q
  {
    assert RelationText(r)[..2][0] == RelationText(r)[0] && RelationText(r)[..2][1] == RelationText(r)[1];
    assert RelationText(q)[..2][0] == RelationText(q)[0] && RelationText(q)[..2][1] == RelationText(q)[1];
  }

  lemma IdParts(l: Link)
    ensures 2 <= |RelationText(l.relation)| && LinkId(l) == RelationText(l.relation)
        + (":" + Ends(l.source.id, l.target.id))
  {
  }

  lemma IdTellsRelation(a: Link, b: Link)
    requires LinkId(a) == LinkId(b)
    ensures a.relation == b.relation && Ends(a.source.id, a.target.id) == Ends(b.source.id, b.target.id)
  {
    IdParts(a);
    IdParts(b);
    assert LinkId(a)[..2] == RelationText(a.relation)[..2] && LinkId(b)[..2] == RelationText(b.relation)[..2];
    TextTellsRelation(a.relation, b.relation);
    var n := |RelationText(a.relation)|;
    assert LinkId(a)[n..] == ":" + Ends(a.source.id, a.target.id)
        && LinkId(b)[n..] == ":" + Ends(b.source.id, b.target.id);
    assert (":" + Ends(a.source.id, a.target.id))[1..] == Ends(a.source.id, a.target.id);
    assert (":" + Ends(b.source.id, b.target.id))[1..] == Ends(b.source.id, b.target.id);
  }

  /** Cutting one text at two arrows. */
  lemma TwoCuts(s1: string, t1: string, s2: string, t2: string)
    requires Ends(s1, t1) == Ends(s2, t2) && |s2| < |s1|
    ensures exists m :: s1 == Ends(s2, m) && t2 == Ends(m, t1)
  {
    var x, n := Ends(s1, t1), |s2|;
    assert x[n] == '-' && x[n + 1] == '>' && x[|s1|] == '-' && x[|s1| + 1] == '>';
    assert |s1| != n + 1;
    var m := s1[n + 2..];
    assert s2 == x[..n] == s1[..n];
    assert s1[n] == x[n] && s1[n + 1] == x[n + 1];
    assert s1 == Ends(s2, m);
    assert x[n + 2..] == t2 && x[n + 2..] == m + ARROW + t1;
  }

  lemma OverlappingIdsMeet(a: Link, b: Link)
    requires Overlaps(a, b)
    ensures LinkId(a) == LinkId(b) && |b.source.id| < |a.source.id|
  {
    var m :| a.source.id == Ends(b.source.id, m) && b.target.id == Ends(m, a.target.id);
    assert b.source.id + ARROW + m + ARROW + a.target.id == b.source.id + ARROW + (m + ARROW + a.target.id);
  }

  /** Two link ids are equal exactly if the links join the same entities, or their entity ids overlap around
      an arrow. */
  lemma LinkIdsMeetIff(a: Link, b: Link)
    ensures LinkId(a) == LinkId(b) <==> LinkKey(a) == LinkKey(b) || Overlaps(a, b) || Overlaps(b, a)
  {
    if LinkId(a) == LinkId(b) {
      IdTellsRelation(a, b);
      var s1, t1, s2, t2 := a.source.id, a.target.id, b.source.id, b.target.id;
      if |s1| == |s2| {
        assert Ends(s1, t1)[..|s1|] == s1 && Ends(s2, t2)[..|s2|] == s2;
        assert Ends(s1, t1)[|s1| + 2..] == t1 && Ends(s2, t2)[|s2| + 2..] == t2;
      } else if |s2| < |s1| {
        TwoCuts(s1, t1, s2, t2);
      } else {
        TwoCuts(s2, t2, s1, t1);
      }
    }
    if Overlaps(a, b) {
      OverlappingIdsMeet(a, b);
    } else if Overlaps(b, a) {
      OverlappingIdsMeet(b, a);
    }
  }

  ghost predicate LinkIdsDiffer(links: seq<Link>)
  {
    forall i, j | 0 <= i < j < |links| :: LinkId(links[i]) != LinkId(links[j])
  }

  lemma OverlapClashes(links: seq<Link>, a: Link, b: Link)
    requires a in links && b in links && Overlaps(a, b)
    ensures !LinkIdsDiffer(links)
  {
    OverlappingIdsMeet(a, b);
    var i :| 0 <= i < |links| && links[i] == a;
    var j :| 0 <= j < |links| && links[j] == b;
    assert if i < j then LinkId(links[i]) == LinkId(links[j]) else LinkId(links[j]) == LinkId(links[i]);
  }

  ghost predicate NoOverlap(links: seq<Link>)
  {
    forall a, b | a in links && b in links :: !Overlaps(a, b)
  }

  lemma DifferIfNoOverlap(links: seq<Link>)
    requires NoRepeats(links) && NoOverlap(links)
    ensures LinkIdsDiffer(links)
  {
    forall i, j | 0 <= i < j < |links| ensures LinkId(links[i]) != LinkId(links[j]) {
      LinkIdsMeetIff(links[i], links[j]);
      assert links[i] in links && links[j] in links;
    }
  }

  /** The ids of the links are different exactly if no key occurs twice and no two links overlap. */
  lemma LinkIdsDifferIff(links: seq<Link>)
    ensures LinkIdsDiffer(links) <==> NoRepeats(links) && NoOverlap(links)
  {
    if NoRepeats(links) && NoOverlap(links) {
      DifferIfNoOverlap(links);
    } else if NoRepeats(links) {
      var a, b :| a in links && b in links && Overlaps(a, b);
      OverlapClashes(links, a, b);
    } else {
      var i, j :| 0 <= i < j < |links| && LinkKey(links[i]) == LinkKey(links[j]);
      LinkIdsMeetIff(links[i], links[j]);
    }
  }

  /** The ids of two pairs of entities overlap around an arrow. */
  ghost predicate EndsOverlap(s: Entity, t: Entity, s': Entity, t': Entity)
  {
    exists m :: s.id == Ends(s'.id, m) && t'.id == Ends(m, t.id)
  }

  /** No rule joins two pairs of entities whose ids overlap around an arrow. */
  ghost predicate NoJoinsOverlap(entities: seq<Entity>)
  {
    forall rule, s, t, s', t' | rule in RULES && Joins(entities, rule, s, t) && Joins(entities, rule, s', t') ::
      !EndsOverlap(s, t, s', t')
  }

  lemma OverlapOfJoins(entities: seq<Entity>, rule: Rule, s: Entity, t: Entity, s': Entity, t': Entity)
    requires Distinct(entities) && rule in RULES && Joins(entities, rule, s, t) && Joins(entities, rule, s', t')
    requires EndsOverlap(s, t, s', t')
    ensures !NoOverlap(Correlated(entities))
  {
    LinkedIffJoined(entities, rule, s, t);
    LinkedIffJoined(entities, rule, s', t');
    var a :| a in Correlated(entities) && IsLinkOf(a, rule, s, t);
    var b :| b in Correlated(entities) && IsLinkOf(b, rule, s', t');
    assert Overlaps(a, b);
  }

  lemma OverlapIffJoinsDo(entities: seq<Entity>)
    requires Distinct(entities)
    ensures NoOverlap(Correlated(entities)) <==> NoJoinsOverlap(entities)
  {
    if a, b :| a in Correlated(entities) && b in Correlated(entities) && Overlaps(a, b) {
      var rule := RuleOf(entities, a);
      LinkJoins(entities, rule, a);
      LinkJoins(entities, rule, b);
      assert EndsOverlap(a.source, a.target, b.source, b.target);
    }
    if rule, s, t, s', t' :| rule in RULES && Joins(entities, rule, s, t) && Joins(entities, rule, s', t')
                             && EndsOverlap(s, t, s', t') {
      OverlapOfJoins(entities, rule, s, t, s', t');
    }
  }

  /** The ids of all links are different exactly if no rule joins two pairs of entities that have the same
      ids, or whose ids overlap around an arrow. */
  lemma LinkIdsDifferIffJoinsDo(entities: seq<Entity>)
    requires Distinct(entities)
    ensures LinkIdsDiffer(Correlated(entities)) <==> IdsTellJoins(entities) && NoJoinsOverlap(entities)
  {
    LinkIdsDifferIff(Correlated(entities));
    LinksAreUniqueIff(entities);
    OverlapIffJoinsDo(entities);
  }

  /** With distinct entity ids only the arrows matter. */
  lemma LinkIdsDifferIffNoOverlap(entities: seq<Entity>)
    requires DistinctIds(entities)
    ensures LinkIdsDiffer(Correlated(entities)) <==> NoJoinsOverlap(entities)
  {
    LinkIdsDifferIff(Correlated(entities));
    LinksAreUnique(entities);
    OverlapIffJoinsDo(entities);
  }

  predicate HasArrow(id: string)
  {
    exists k :: 0 <= k < |id| && ARROW <= id[k..]
  }

  lemma EndsHaveArrow(s: string, t: string)
    ensures HasArrow(Ends(s, t))
  {
    assert Ends(s, t)[|s|..] == ARROW + t;
  }

  /** If no entity id holds an arrow, the ids of the links tell them apart. */
  lemma NoArrowsNoClash(entities: seq<Entity>)
    requires DistinctIds(entities) && forall e | e in entities :: !HasArrow(e.id)
    ensures LinkIdsDiffer(Correlated(entities))
  {
    forall rule, s, t, s', t' | rule in RULES && Joins(entities, rule, s, t) && Joins(entities, rule, s', t')
      ensures !EndsOverlap(s, t, s', t')
    {
      if m :| s.id == Ends(s'.id, m) && t'.id == Ends(m, t.id) {
        EndsHaveArrow(s'.id, m);
      }
    }
    LinkIdsDifferIffNoOverlap(entities);
  }

  /** If the ids of the links differ, any order of the entities gives the same links in the same order. */
  lemma ReportIgnoresOrder(a: seq<Entity>, b: seq<Entity>)
    requires Distinct(a) && multiset(a) == multiset(b) && LinkIdsDiffer(Correlated(a))
    ensures Correlated(a) == Correlated(b)
  {
    LinksIgnoreOrder(a, b);
    var x, y := Correlated(a), Correlated(b);
    LinkLeIsOrder();
    SortSorts(AllLinks(RULES, SortBy(a, EntityLe)), LinkLe);
    SortSorts(AllLinks(RULES, SortBy(b, EntityLe)), LinkLe);
    forall l, m | l in x && m in x && LinkLe(l, m) && LinkLe(m, l) ensures l == m {
      StringLeTies(LinkId(l), LinkId(m));
      var i :| 0 <= i < |x| && x[i] == l;
      var j :| 0 <= j < |x| && x[j] == m;
      assert i == j;
    }
    SortedUniqueIn(x, y, LinkLe);
  }

  lemma LinkLeIsOrder()
    ensures IsTotalPreorder(LinkLe)
  {
    StringLeIsOrder();
  }

  // ---------------------------------------------------------------------------------------------
  // Entities whose links clash
  // ---------------------------------------------------------------------------------------------

  function Topic(id: string, name: string): Entity
  {
    Entity(KafkaTopic, id, name, map[])
  }

  function JobOf(id: string, topic: string): Entity
  {
    Entity(FlinkJob, id, "", map["beluga.io/source-topic" := topic])
  }

  /** Two topics, and two jobs that declare one of them each. */
  function Clashing(): seq<Entity>
  {
    [Topic("a->b", "x"), Topic("a", "y"), JobOf("c", "x"), JobOf("b->c", "y")]
  }

  lemma ClashingIdsDiffer()
    ensures DistinctIds(Clashing())
  {
    assert |"a->b"| == 4 && |"b->c"| == 4 && "a->b"[0] != "b->c"[0] && "a"[0] != "c"[0];
  }

  lemma FirstClash() returns (l: Link)
    ensures l in Correlated(Clashing()) && l.relation == TopicFeedsJob && l.source.id == "a->b" && l.target.id == "c"
  {
    var entities := Clashing();
    ClashingIdsDiffer();
    assert ToLower("x")[0] == 'x' && ToLower("y")[0] == 'y';
    assert entities[2] in entities && entities[0] in entities;
    l := LabelLinks(entities, RULES[0], entities[2], entities[0]);
  }

  lemma SecondClash() returns (l: Link)
    ensures l in Correlated(Clashing()) && l.relation == TopicFeedsJob && l.source.id == "a" && l.target.id == "b->c"
  {
    var entities := Clashing();
    ClashingIdsDiffer();
    assert ToLower("x")[0] == 'x' && ToLower("y")[0] == 'y';
    assert entities[3] in entities && entities[1] in entities;
    l := LabelLinks(entities, RULES[0], entities[3], entities[1]);
  }

  lemma ClashMeets(a: Link, b: Link)
    requires a.relation == b.relation && a.source.id == "a->b" && a.target.id == "c" && b.source.id == "a"
        && b.target.id == "b->c"
    ensures LinkKey(a) != LinkKey(b) && LinkId(a) == LinkId(b)
  {
    assert a.source.id == Ends(b.source.id, "b") && b.target.id == Ends("b", a.target.id);
    OverlappingIdsMeet(a, b);
  }

  /** Both links are found, and they have the same id although they join different entities. */
  lemma LinkIdsCanMeet()
    ensures DistinctIds(Clashing())
    ensures exists a, b :: a in Correlated(Clashing()) && b in Correlated(Clashing())
                           && LinkKey(a) != LinkKey(b) && LinkId(a) == LinkId(b)
  {
    ClashingIdsDiffer();
    var a := FirstClash();
    var b := SecondClash();
    ClashMeets(a, b);
  }
}
