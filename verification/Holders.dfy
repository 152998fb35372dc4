/** Who effectively holds a role: through inheritance, and through declared groups. */
module Holders {
  import opened PolicySchema
  import opened RoleGraph

  /** The role, expanded, contains one of `roles`. */
  ghost predicate HoldsAny(d: Declaration, holder: string, roles: seq<string>)
  {
    exists r :: r in roles && r in Closure(d, holder)
  }

  /** The declared roles that hold one of `roles`, directly or by inheritance. */
  ghost function EffectiveHolders(d: Declaration, roles: seq<string>): set<string>
  {
    set n | n in RoleNames(d) && HoldsAny(d, n, roles)
  }

  /** Every role a member of the group carries in the token. */
  ghost function GroupToken(d: Declaration, g: Group): set<string>
  {
    set r, x | r in g.roles && x in Closure(d, r) :: x
  }

  ghost predicate MeetsAny(token: set<string>, roles: seq<string>)
  {
    exists r :: r in roles && r in token
  }

  /** How a group is named among holders, apart from the role names. */
  function GroupTag(name: string): string
  {
    "group:" + name
  }

  /** The declared groups whose members hold one of `roles`, by their tags. */
  ghost function GroupHolders(d: Declaration, roles: seq<string>): set<string>
  {
    set i | 0 <= i < |d.groups| && MeetsAny(GroupToken(d, d.groups[i]), roles) :: GroupTag(d.groups[i].name)
  }

  ghost function HoldersWithGroups(d: Declaration, roles: seq<string>): set<string>
  {
    EffectiveHolders(d, roles) + GroupHolders(d, roles)
  }

  /** A token that contains everything its roles inherit, as Keycloak issues them. */
  ghost predicate ClosedToken(d: Declaration, token: set<string>)
  {
    forall x, y | x in token && y in Closure(d, x) :: y in token
  }

  ghost predicate AllDeclared(d: Declaration, roles: seq<string>)
  {
    forall r | r in roles :: r in RoleNames(d)
  }

  lemma ExpandedTokenIsClosed(d: Declaration, role: string)
    ensures ClosedToken(d, Closure(d, role))
  {
    forall x, y | x in Closure(d, role) && y in Closure(d, x) ensures y in Closure(d, role) {
      ClosureTransitive(d, role, x, y);
    }
  }

  lemma GroupTokenIsClosed(d: Declaration, g: Group)
    ensures ClosedToken(d, GroupToken(d, g))
  {
    forall x, y | x in GroupToken(d, g) && y in Closure(d, x) ensures y in GroupToken(d, g) {
      var r :| r in g.roles && x in Closure(d, r);
      ClosureTransitive(d, r, x, y);
    }
  }

  /** For closed tokens, meeting the effective holders of roles and meeting the roles themselves is one
      and the same: holder expansion and direct role tests select the same requesters. */
  lemma HoldersMatchRoles(d: Declaration, token: set<string>, roles: seq<string>)
    requires ClosedToken(d, token) && AllDeclared(d, roles)
    ensures token * EffectiveHolders(d, roles) != {} <==> MeetsAny(token, roles)
  {
    if n :| n in token * EffectiveHolders(d, roles) {
      var r :| r in roles && r in Closure(d, n);
      assert r in token;
    }
    if r :| r in roles && r in token {
      ClosureSelf(d, r);
      assert HoldsAny(d, r, roles);
      assert r in token * EffectiveHolders(d, roles);
    }
  }

  /** The declared roles that effectively hold one of `roles`. */
  method FindHolders(d: Declaration, roles: seq<string>) returns (holders: set<string>)
    ensures holders == EffectiveHolders(d, roles)
  {
    holders := {};
    for i := 0 to |d.roles|
      invariant forall n :: n in holders <==> HoldsAny(d, n, roles) && exists k :: 0 <= k < i && d.roles[k].name == n
    {
      var expanded := ExpandRoles(d, d.roles[i].name);
      if exists k :: 0 <= k < |roles| && roles[k] in expanded {
        assert HoldsAny(d, d.roles[i].name, roles);
        holders := holders + {d.roles[i].name};
      }
    }
  }

  /** The roles a group carries, expanded. */
  method ExpandGroup(d: Declaration, g: Group) returns (token: set<string>)
    ensures token == GroupToken(d, g)
  {
    token := {};
    for i := 0 to |g.roles|
      invariant forall x :: x in token <==> exists k :: 0 <= k < i && x in Closure(d, g.roles[k])
    {
      var expanded := ExpandRoles(d, g.roles[i]);
      token := token + set x | x in expanded;
    }
    forall x ensures x in token <==> x in GroupToken(d, g) {
      if x in GroupToken(d, g) {
        var r :| r in g.roles && x in Closure(d, r);
        var k :| 0 <= k < |g.roles| && g.roles[k] == r;
      }
    }
  }

  /** Role holders and tagged group holders together. */
  method FindHoldersWithGroups(d: Declaration, roles: seq<string>) returns (holders: set<string>)
    ensures holders == HoldersWithGroups(d, roles)
  {
    var direct := FindHolders(d, roles);
    var tags: set<string> := {};
    for i := 0 to |d.groups|
      invariant tags == set k | 0 <= k < i && MeetsAny(GroupToken(d, d.groups[k]), roles) :: GroupTag(d.groups[k].name)
    {
      var token := ExpandGroup(d, d.groups[i]);
      if exists k :: 0 <= k < |roles| && roles[k] in token {
        assert MeetsAny(token, roles);
        tags := tags + {GroupTag(d.groups[i].name)};
      }
    }
    holders := direct + tags;
  }

  /** Role names cannot be mistaken for group tags. */
  lemma RoleNameIsNoTag(name: string, group: string)
    requires IsRoleName(name)
    ensures name != GroupTag(group)
  {
    assert GroupTag(group)[5] == ':';
  }

  lemma TagsAreInjective(a: string, b: string)
    requires GroupTag(a) == GroupTag(b)
    ensures a == b
  {
    assert a == GroupTag(a)[6..] && b == GroupTag(b)[6..];
  }
}
