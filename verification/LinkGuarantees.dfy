/** Which entities are linked, told from the entities alone. */
module LinkGuarantees {
  import opened Correlation
  import opened Sorting
  import opened Strings
  import opened Wrappers

  /** The owner's label names this entity, and no other. */
  ghost predicate IsOnlyMatch(entities: seq<Entity>, rule: Rule, owner: Entity, other: Entity)
    requires Declares(rule, owner)
  {
    other in entities && Matches(rule, owner, other) && forall x | x in entities && Matches(rule, owner, x) ::
      x == other
  }

  /** The rule links the two: by the label of the declaring side if there is one, and otherwise by name, if
      nobody with the id of that side has declared anything. */
  ghost predicate Joins(entities: seq<Entity>, rule: Rule, s: Entity, t: Entity)
  {
    var owner, other := if rule.onSource then s else t, if rule.onSource then t else s;
    && s in entities && t in entities && s.kind == rule.sourceKind && t.kind == rule.targetKind
    && if Declares(rule, owner) then IsOnlyMatch(entities, rule, owner, other) else MayBeNamed(entities, rule, s, t)
  }

  predicate IsLinkOf(l: Link, rule: Rule, s: Entity, t: Entity)
  {
    l.relation == rule.relation && l.source == s && l.target == t
  }

  ghost predicate IsLinked(entities: seq<Entity>, rule: Rule, s: Entity, t: Entity)
  {
    exists l :: l in Correlated(entities) && IsLinkOf(l, rule, s, t)
  }

  /** The label of an owner that names one entity only links the two. */
  lemma LabelLinks(entities: seq<Entity>, rule: Rule, owner: Entity, e: Entity) returns (l: Link)
    requires Distinct(entities) && rule in RULES && owner in entities && owner.kind == OwnerKind(rule)
    requires Declares(rule, owner) && IsOnlyMatch(entities, rule, owner, e)
    ensures l in Correlated(entities) && l.relation == rule.relation && OwnerOf(rule, l) == owner
        && PartnerOf(rule, l) == e
  {
    var sorted := SortBy(entities, EntityLe);
    var named := Named(OthersOf(rule, sorted), owner.labels[rule.labelKey]);
    OneMatch(entities, rule, owner);
    SortMembers(entities, EntityLe);
    OfKindMembers(sorted, OtherKind(rule));
    NamedMembers(OthersOf(rule, sorted), owner.labels[rule.labelKey]);
    assert named[0] in named;
    l := DeclaredLink(rule, owner, OthersOf(rule, sorted)).value;
    OwnLinkIsDeclared(entities, rule, owner, l);
  }

  /** A declared link joins an owner that declares with an entity of the other kind. */
  lemma DeclaredEnds(entities: seq<Entity>, rule: Rule, l: Link)
    requires l in DeclaredLinks(rule, OwnersOf(rule, SortBy(entities, EntityLe)),
        OthersOf(rule, SortBy(entities, EntityLe)))
    ensures OwnerOf(rule, l) in entities && OwnerOf(rule, l).kind == OwnerKind(rule) && Declares(rule, OwnerOf(rule, l))
    ensures PartnerOf(rule, l) in entities && PartnerOf(rule, l).kind == OtherKind(rule)
  {
    var sorted := SortBy(entities, EntityLe);
    SortMembers(entities, EntityLe);
    OfKindMembers(sorted, OwnerKind(rule));
    OfKindMembers(sorted, OtherKind(rule));
    DeclaredMembers(rule, OwnersOf(rule, sorted), OthersOf(rule, sorted));
    var o :| o in OwnersOf(rule, sorted) && DeclaredLink(rule, o, OthersOf(rule, sorted)) == Some(l);
    NamedMembers(OthersOf(rule, sorted), o.labels[rule.labelKey]);
    assert Named(OthersOf(rule, sorted), o.labels[rule.labelKey])[0] in OthersOf(rule, sorted);
  }

  lemma DeclaredLinkJoins(entities: seq<Entity>, rule: Rule, l: Link)
    requires Distinct(entities) && rule in RULES && l in Correlated(entities) && l.relation == rule.relation
    requires l.method_ == DeclaredLabel
    ensures Joins(entities, rule, l.source, l.target) && Declares(rule, OwnerOf(rule, l))
  {
    var sorted := SortBy(entities, EntityLe);
    LinkOfRule(entities, rule, l);
    OwnersOfLinks(rule, sorted, l);
    DeclaredEnds(entities, rule, l);
    var owner := OwnerOf(rule, l);
    OwnLinkIsDeclared(entities, rule, owner, l);
    PartnerMatches(rule, owner, sorted, l);
    OneMatch(entities, rule, owner);
  }

  lemma LinkJoins(entities: seq<Entity>, rule: Rule, l: Link)
    requires Distinct(entities) && rule in RULES && l in Correlated(entities) && l.relation == rule.relation
    ensures Joins(entities, rule, l.source, l.target)
    ensures l.method_ == DeclaredLabel <==> Declares(rule, OwnerOf(rule, l))
  {
    if l.method_ == DeclaredLabel {
      DeclaredLinkJoins(entities, rule, l);
    } else {
      InferredIffNamesAgree(entities, rule, l.source, l.target);
      if Declares(rule, OwnerOf(rule, l)) {
        DeclaringIsNeverInferred(entities, rule, l);
      }
    }
  }

  /** There is a link of the rule between two entities exactly if the rule joins them. */
  lemma LinkedIffJoined(entities: seq<Entity>, rule: Rule, s: Entity, t: Entity)
    requires Distinct(entities) && rule in RULES
    ensures IsLinked(entities, rule, s, t) <==> Joins(entities, rule, s, t)
  {
    if l :| l in Correlated(entities) && IsLinkOf(l, rule, s, t) {
      LinkJoins(entities, rule, l);
    }
    if Joins(entities, rule, s, t) {
      var owner, other := if rule.onSource then s else t, if rule.onSource then t else s;
      if Declares(rule, owner) {
        var l := LabelLinks(entities, rule, owner, other);
        assert IsLinkOf(l, rule, s, t);
      } else {
        InferredIffNamesAgree(entities, rule, s, t);
        var l :| l in Correlated(entities) && l.relation == rule.relation && l.source == s && l.target == t;
        assert IsLinkOf(l, rule, s, t);
      }
    }
  }

  lemma RuleOf(entities: seq<Entity>, l: Link) returns (rule: Rule)
    requires l in Correlated(entities)
    ensures rule in RULES && l.relation == rule.relation
  {
    var sorted := SortBy(entities, EntityLe);
    CorrelatedMembers(entities, l);
    rule :| rule in RULES && l in RuleLinks(rule, sorted);
    OwnersOfLinks(rule, sorted, l);
  }

  // ---------------------------------------------------------------------------------------------
  // At most one link for a relation and two ids
  // ---------------------------------------------------------------------------------------------

  predicate SameIds(s: Entity, t: Entity, s': Entity, t': Entity)
  {
    s.id == s'.id && t.id == t'.id
  }

  /** No rule joins two different pairs of entities with the same ids. */
  ghost predicate IdsTellJoins(entities: seq<Entity>)
  {
    forall rule, s, t, s', t' | rule in RULES && Joins(entities, rule, s, t) && Joins(entities, rule, s', t')
        && SameIds(s, t, s', t') ::
      s == s' && t == t'
  }

  lemma RepeatedKeyIsShared(entities: seq<Entity>, rule: Rule, s: Entity, t: Entity, s': Entity, t': Entity)
    requires Distinct(entities) && rule in RULES && Joins(entities, rule, s, t) && Joins(entities, rule, s', t')
    requires SameIds(s, t, s', t') && (s != s' || t != t')
    ensures !NoRepeats(Correlated(entities))
  {
    var links := Correlated(entities);
    LinkedIffJoined(entities, rule, s, t);
    LinkedIffJoined(entities, rule, s', t');
    var l :| l in links && IsLinkOf(l, rule, s, t);
    var m :| m in links && IsLinkOf(m, rule, s', t');
    var i :| 0 <= i < |links| && links[i] == l;
    var j :| 0 <= j < |links| && links[j] == m;
    assert LinkKey(links[i]) == LinkKey(links[j]) && i != j;
  }

  lemma RepeatIsSharedJoin(entities: seq<Entity>, i: nat, j: nat)
    requires Distinct(entities) && i < j < |Correlated(entities)|
    requires LinkKey(Correlated(entities)[i]) == LinkKey(Correlated(entities)[j])
    ensures !IdsTellJoins(entities)
  {
    var l, m := Correlated(entities)[i], Correlated(entities)[j];
    EntitiesAreJoinedOnce(entities);
    var rule := RuleOf(entities, l);
    LinkJoins(entities, rule, l);
    LinkJoins(entities, rule, m);
    assert SameIds(l.source, l.target, m.source, m.target);
  }

  /** Each relation links two ids at most once, exactly if its rule never joins two different pairs of
      entities with these ids; in particular if ids tell the entities apart. */
  lemma LinksAreUniqueIff(entities: seq<Entity>)
    requires Distinct(entities)
    ensures NoRepeats(Correlated(entities)) <==> IdsTellJoins(entities)
  {
    var links := Correlated(entities);
    if i, j :| 0 <= i < j < |links| && LinkKey(links[i]) == LinkKey(links[j]) {
      RepeatIsSharedJoin(entities, i, j);
    }
    if rule, s, t, s', t' :| rule in RULES && Joins(entities, rule, s, t) && Joins(entities, rule, s', t')
                             && SameIds(s, t, s', t') && !(s == s' && t == t') {
      RepeatedKeyIsShared(entities, rule, s, t, s', t');
    }
  }

  /** With distinct ids each relation links two ids at most once. */
  lemma LinksAreUnique(entities: seq<Entity>)
    requires DistinctIds(entities)
    ensures NoRepeats(Correlated(entities))
  {
    LinksAreUniqueIff(entities);
    assert forall x, y | x in entities && y in entities && x.id == y.id :: x == y;
  }

  /** The id of a sink table is made of its name with every separator replaced by a hyphen. */
  function SinkTable(name: string): Entity
  {
    Entity(IcebergTable, "table-b-c", name, map[])
  }

  /** A job and two sink tables whose names differ in a separator only, with the id both get. */
  function SharingId(): seq<Entity>
  {
    [Entity(FlinkJob, "job", "b", map[]), SinkTable("b-c"), SinkTable("b_c")]
  }

  lemma SingleToken(c: char)
    requires c !in {'-', '_', '.'}
    ensures SplitTokens([c]) == [[c]]
  {
    var rest: seq<string> := [[]];
    assert [c][1..] == [] && SplitTokens([]) == rest;
    assert [c] + rest[0] == [c] && rest[1..] == [];
  }

  lemma TwoTokens(c: char, separator: char, d: char)
    requires c !in {'-', '_', '.'} && separator in {'-', '_', '.'} && d !in {'-', '_', '.'}
    ensures SplitTokens([c, separator, d]) == [[c], [d]]
  {
    SingleToken(d);
    assert [c, separator, d][1..] == [separator, d] && [separator, d][1..] == [d];
    var rest: seq<string> := [[], [d]];
    assert SplitTokens([separator, d]) == rest;
    assert [c] + rest[0] == [c] && rest[1..] == [[d]];
  }

  lemma KeysAgree()
    ensures NamesAgree(RULES[1], SharingId()[0], SharingId()[1]) && NamesAgree(RULES[1], SharingId()[0], SharingId()[2])
  {
    assert ToLower("b") == "b" && ToLower("b-c") == "b-c" && ToLower("b_c") == "b_c";
    SingleToken('b');
    TwoTokens('b', '-', 'c');
    TwoTokens('b', '_', 'c');
    SplitNone("b-c", '.');
    SplitNone("b_c", '.');
    assert "b" !in GENERIC_TOKENS;
  }

  /** Entities that share an id: two links of one relation between the same ids. */
  lemma SharedIdRepeatsLinks()
    ensures Distinct(SharingId()) && !NoRepeats(Correlated(SharingId()))
  {
    var entities, rule := SharingId(), RULES[1];
    assert "b-c"[1] != "b_c"[1];
    KeysAgree();
    assert entities[0] in entities && entities[1] in entities && entities[2] in entities;
    assert Joins(entities, rule, entities[0], entities[1]) && Joins(entities, rule, entities[0], entities[2]);
    RepeatedKeyIsShared(entities, rule, entities[0], entities[1], entities[0], entities[2]);
  }

  // ---------------------------------------------------------------------------------------------
  // Order does not matter
  // ---------------------------------------------------------------------------------------------

  /** Another pair the rule joins by name shares an id with this one. */
  ghost predicate SharesName(entities: seq<Entity>, rule: Rule, s: Entity, t: Entity)
  {
    exists s', t' :: MayBeNamed(entities, rule, s', t') && (s' != s || t' != t) && (s'.id == s.id || t'.id == t.id)
  }

  lemma EndsTellLinks(links: seq<Link>, l: Link, m: Link)
    requires JoinsOnce(links) && l in links && m in links
    ensures EndsOf(l) == EndsOf(m) <==> l == m
  {
    var i :| 0 <= i < |links| && links[i] == l;
    var j :| 0 <= j < |links| && links[j] == m;
  }

  lemma SharedSharesName(entities: seq<Entity>, rule: Rule, l: Link, m: Link)
    requires Distinct(entities) && rule in RULES && l in Correlated(entities) && l.relation == rule.relation
    requires m in Correlated(entities) && m != l && m.relation == l.relation && m.method_ != DeclaredLabel
    requires m.source.id == l.source.id || m.target.id == l.target.id
    ensures SharesName(entities, rule, l.source, l.target)
  {
    EntitiesAreJoinedOnce(entities);
    EndsTellLinks(Correlated(entities), l, m);
    InferredIffNamesAgree(entities, rule, m.source, m.target);
    assert LinkedByName(entities, rule, m.source, m.target);
  }

  lemma NamedIsShared(entities: seq<Entity>, rule: Rule, l: Link, s: Entity, t: Entity)
    requires rule in RULES && l.relation == rule.relation && MayBeNamed(entities, rule, s, t)
    requires (s != l.source || t != l.target) && (s.id == l.source.id || t.id == l.target.id)
    ensures IsShared(Correlated(entities), l)
  {
    InferredIffNamesAgree(entities, rule, s, t);
    var m :| m in Correlated(entities) && m.relation == rule.relation && m.source == s && m.target == t
             && m.method_ != DeclaredLabel;
    assert m != l;
  }

  lemma SharedIffSharesName(entities: seq<Entity>, rule: Rule, l: Link)
    requires Distinct(entities) && rule in RULES && l in Correlated(entities) && l.relation == rule.relation
    ensures IsShared(Correlated(entities), l) <==> SharesName(entities, rule, l.source, l.target)
  {
    if m :| m in Correlated(entities) && m != l && m.relation == l.relation && m.method_ != DeclaredLabel
            && (m.source.id == l.source.id || m.target.id == l.target.id) {
      SharedSharesName(entities, rule, l, m);
    }
    if SharesName(entities, rule, l.source, l.target) {
      var s, t :| MayBeNamed(entities, rule, s, t) && (s != l.source || t != l.target)
                  && (s.id == l.source.id || t.id == l.target.id);
      NamedIsShared(entities, rule, l, s, t);
    }
  }

  /** What a link between two entities says. */
  ghost function LinkFor(entities: seq<Entity>, rule: Rule, s: Entity, t: Entity): Link
  {
    if Declares(rule, if rule.onSource then s else t) then Link(rule.relation, s, t, 0.95, DeclaredLabel)
    else if SharesName(entities, rule, s, t) then Link(rule.relation, s, t, 0.3, AmbiguousNameConvention)
    else Link(rule.relation, s, t, 0.6, NameConvention)
  }

  lemma InferredMethod(entities: seq<Entity>, rule: Rule, l: Link)
    requires rule in RULES && l in Correlated(entities) && l.relation == rule.relation && l.method_ != DeclaredLabel
    ensures l.method_ == if l.confidence == AMBIGUOUS_CONFIDENCE then AmbiguousNameConvention else NameConvention
  {
    var sorted := SortBy(entities, EntityLe);
    LinkOfRule(entities, rule, l);
    OwnersOfLinks(rule, sorted, l);
    InferredMembers(rule, EligiblePairs(rule, sorted));
  }

  /** The links are exactly those the joined pairs call for. */
  lemma LinksAreFor(entities: seq<Entity>, rule: Rule, l: Link)
    requires Distinct(entities) && rule in RULES && l.relation == rule.relation
    ensures l in Correlated(entities) <==>
              Joins(entities, rule, l.source, l.target) && l == LinkFor(entities, rule, l.source, l.target)
  {
    if l in Correlated(entities) {
      LinkIsFor(entities, rule, l);
    }
    if Joins(entities, rule, l.source, l.target) {
      LinkedIffJoined(entities, rule, l.source, l.target);
      var m :| m in Correlated(entities) && IsLinkOf(m, rule, l.source, l.target);
      LinkIsFor(entities, rule, m);
    }
  }

  lemma LinkIsFor(entities: seq<Entity>, rule: Rule, l: Link)
    requires Distinct(entities) && rule in RULES && l.relation == rule.relation && l in Correlated(entities)
    ensures Joins(entities, rule, l.source, l.target) && l == LinkFor(entities, rule, l.source, l.target)
  {
    LinkJoins(entities, rule, l);
    if l.method_ == DeclaredLabel {
      DeclaringIsNeverInferred(entities, rule, l);
    } else {
      ConfidenceMarksAmbiguity(entities, l);
      SharedIffSharesName(entities, rule, l);
      InferredMethod(entities, rule, l);
    }
  }

  /** Neither joins nor what they call for depend on the order of the entities. */
  lemma JoinsIgnoreOrder(a: seq<Entity>, b: seq<Entity>, rule: Rule, s: Entity, t: Entity)
    requires forall e :: e in a <==> e in b
    ensures Joins(a, rule, s, t) <==> Joins(b, rule, s, t)
    ensures LinkFor(a, rule, s, t) == LinkFor(b, rule, s, t)
  {
    forall x, y ensures MayBeNamed(a, rule, x, y) <==> MayBeNamed(b, rule, x, y) {
    }
  }

  lemma SameMultiset(a: seq<Link>, b: seq<Link>)
    requires JoinsOnce(a) && JoinsOnce(b) && forall l :: l in a <==> l in b
    ensures multiset(a) == multiset(b)
  {
    forall l ensures multiset(a)[l] == multiset(b)[l] {
      DistinctCounts(a, EndsOf, l);
      DistinctCounts(b, EndsOf, l);
      assert (l in a <==> l in multiset(a)) && (l in b <==> l in multiset(b));
    }
  }

  /** The same entities in any order give the same links, whatever ids they have. */
  lemma LinksIgnoreOrder(a: seq<Entity>, b: seq<Entity>)
    requires Distinct(a) && multiset(a) == multiset(b)
    ensures multiset(Correlated(a)) == multiset(Correlated(b))
  {
    DistinctIsPermuted(a, b, (e: Entity) => e);
    EntitiesAreJoinedOnce(a);
    EntitiesAreJoinedOnce(b);
    assert forall e :: (e in a <==> e in multiset(a)) && (e in b <==> e in multiset(b));
    forall l ensures l in Correlated(a) <==> l in Correlated(b) {
      LinkIgnoresOrder(a, b, l);
    }
    SameMultiset(Correlated(a), Correlated(b));
  }

  lemma LinkIgnoresOrder(a: seq<Entity>, b: seq<Entity>, l: Link)
    requires Distinct(a) && Distinct(b) && forall e :: e in a <==> e in b
    ensures l in Correlated(a) <==> l in Correlated(b)
  {
    var rule :| rule in RULES && rule.relation == l.relation;
    JoinsIgnoreOrder(a, b, rule, l.source, l.target);
    LinksAreFor(a, rule, l);
    LinksAreFor(b, rule, l);
  }
}
