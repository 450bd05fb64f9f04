/** The rewriter that turns column equalities over a product into joins of its connected relations. */
module BuildJoins {
  import opened Model
  import opened Bags
  import opened Plans
  import opened RowCounts
  import opened Links

  // ---------------------------------------------------------------- connected aliases

  function Alias(c: Column): string {
    c.source.alias
  }

  predicate Touches(eq: Equality, alias: string) {
    Alias(eq.0) == alias || Alias(eq.1) == alias
  }

  /** No equality leaves the set. */
  ghost predicate Closed(eqs: seq<Equality>, s: set<string>) {
    forall i :: 0 <= i < |eqs| ==> (Alias(eqs[i].0) in s <==> Alias(eqs[i].1) in s)
  }

  /** The aliases connected with `first`: the least closed set around it. */
  ghost predicate Component(eqs: seq<Equality>, first: string, s: set<string>) {
    first in s && Closed(eqs, s) && forall c :: Closed(eqs, c) && first in c ==> s <= c
  }

  function Aliases(eqs: seq<Equality>): set<string> {
    (set i | 0 <= i < |eqs| :: Alias(eqs[i].0)) + (set i | 0 <= i < |eqs| :: Alias(eqs[i].1))
  }

  /** An equality with an end at `a` was followed. */
  ghost predicate Followed(eqs: seq<Equality>, joined: set<string>, a: string, n: int) {
    forall i :: 0 <= i < n && i < |eqs| && Touches(eqs[i], a) ==> Alias(eqs[i].0) in joined && Alias(eqs[i].1) in joined
  }

  /** Everything found is connected with `first`, and what is not pending was explored. */
  ghost predicate Frontier(eqs: seq<Equality>, first: string, joined: set<string>, pending: seq<string>,
                           current: Option<string>) {
    && first in joined && joined <= Aliases(eqs) + {first} && Distinct(pending)
    && (forall a :: a in pending ==> a in joined)
    && (forall c :: Closed(eqs, c) && first in c ==> joined <= c)
    && (forall a :: a in joined && a !in pending && Some(a) != current ==> Followed(eqs, joined, a, |eqs|))
  }

  lemma FollowOne(eqs: seq<Equality>, first: string, joined: set<string>, pending: seq<string>, current: string, i: nat)
    requires Frontier(eqs, first, joined, pending, Some(current))
    requires i < |eqs| && current in joined && Touches(eqs[i], current)
    requires Followed(eqs, joined, current, i)
    ensures var other := if Alias(eqs[i].0) == current then Alias(eqs[i].1) else Alias(eqs[i].0);
      var joined' := joined + {other}; var pending' := if other in joined then pending else pending + [other];
      Frontier(eqs, first, joined', pending', Some(current)) && Followed(eqs, joined', current, i + 1)
  {
    var other := if Alias(eqs[i].0) == current then Alias(eqs[i].1) else Alias(eqs[i].0);
    assert Followed(eqs, joined + {other}, current, i + 1);
    if other in joined {
      assert joined + {other} == joined;
    } else {
      hide Followed;
      assert forall c :: Closed(eqs, c) && first in c ==> joined <= c;
      forall c | Closed(eqs, c) && first in c ensures other in c { assert current in c; }
      FoundOne(eqs, first, joined, pending, current, other);
    }
  }

  lemma FoundOne(eqs: seq<Equality>, first: string, joined: set<string>, pending: seq<string>, current: string,
                 other: string)
    requires Frontier(eqs, first, joined, pending, Some(current)) && other !in joined && other in Aliases(eqs) + {first}
    requires forall c :: Closed(eqs, c) && first in c ==> other in c
    ensures Frontier(eqs, first, joined + {other}, pending + [other], Some(current))
  {
    hide Closed, Aliases;
    var pending' := pending + [other];
    forall a | a in joined && a !in pending' && Some(a) != Some(current)
      ensures Followed(eqs, joined + {other}, a, |eqs|) {
      assert a !in pending;
      assert Followed(eqs, joined, a, |eqs|);
    }
    assert pending'[|pending|] == other;
  }

  /** One turn of the queue: all neighbours of `current` are found. */
  method Neighbours(eqs: seq<Equality>, ghost first: string, joined0: set<string>, pending0: seq<string>,
                    current: string)
    returns (joined: set<string>, pending: seq<string>)
    requires Frontier(eqs, first, joined0, pending0, Some(current)) && current in joined0
    ensures Frontier(eqs, first, joined, pending, None) && joined0 <= joined
    ensures joined == joined0 ==> pending == pending0
  {
    hide Frontier, Closed, Aliases;
    joined, pending := joined0, pending0;
    for i := 0 to |eqs|
      invariant joined0 <= joined && (joined == joined0 ==> pending == pending0)
      invariant Frontier(eqs, first, joined, pending, Some(current)) && Followed(eqs, joined, current, i)
    {
      if Touches(eqs[i], current) { FollowOne(eqs, first, joined, pending, current, i); }
      if Alias(eqs[i].0) == current {
        if Alias(eqs[i].1) !in joined { pending := pending + [Alias(eqs[i].1)]; }
        joined := joined + {Alias(eqs[i].1)};
      } else if Alias(eqs[i].1) == current {
        if Alias(eqs[i].0) !in joined { pending := pending + [Alias(eqs[i].0)]; }
        joined := joined + {Alias(eqs[i].0)};
      }
    }
    CurrentDone(eqs, first, joined, pending, current);
  }

  lemma CurrentDone(eqs: seq<Equality>, first: string, joined: set<string>, pending: seq<string>, current: string)
    requires Frontier(eqs, first, joined, pending, Some(current)) && Followed(eqs, joined, current, |eqs|)
    ensures Frontier(eqs, first, joined, pending, None)
  {
  }

  lemma TakeNext(eqs: seq<Equality>, first: string, joined: set<string>, pending: seq<string>)
    requires Frontier(eqs, first, joined, pending, None) && pending != []
    ensures Frontier(eqs, first, joined, pending[1..], Some(pending[0])) && pending[0] in joined
  {
  }

  lemma ExploredIsClosed(eqs: seq<Equality>, first: string, joined: set<string>)
    requires Frontier(eqs, first, joined, [], None)
    ensures Component(eqs, first, joined)
  {
    forall i | 0 <= i < |eqs| ensures Alias(eqs[i].0) in joined <==> Alias(eqs[i].1) in joined {
      if Alias(eqs[i].0) in joined { assert Followed(eqs, joined, Alias(eqs[i].0), |eqs|); }
      if Alias(eqs[i].1) in joined { assert Followed(eqs, joined, Alias(eqs[i].1), |eqs|); }
    }
  }

  lemma SearchBegins(eqs: seq<Equality>, first: string)
    ensures Frontier(eqs, first, {first}, [first], None)
  {
  }

  lemma Bounded(eqs: seq<Equality>, first: string, joined: set<string>, pending: seq<string>, current: Option<string>)
    requires Frontier(eqs, first, joined, pending, current)
    ensures joined <= Aliases(eqs) + {first}
  {
  }

  /** The breadth-first search finds exactly the connected aliases. */
  method ConnectedAliases(eqs: seq<Equality>, first: string) returns (joined: set<string>)
    ensures Component(eqs, first, joined)
  {
    hide Frontier, Component, Aliases;
    ghost var universe := Aliases(eqs) + {first};
    joined := {first};
    var pending := [first];
    SearchBegins(eqs, first);
    while pending != []
      invariant Frontier(eqs, first, joined, pending, None)
      decreases universe - joined, |pending|
    {
      TakeNext(eqs, first, joined, pending);
      ghost var before := joined;
      Bounded(eqs, first, joined, pending, None);
      joined, pending := Neighbours(eqs, first, joined, pending[1..], pending[0]);
      Bounded(eqs, first, joined, pending, None);
      if joined != before {
        var x :| x in joined && x !in before;
        assert x in universe - before;
      }
    }
    ExploredIsClosed(eqs, first, joined);
  }

  // ---------------------------------------------------------------- grouping

  /** No equality links the alias to another one. */
  ghost predicate Lonely(eqs: seq<Equality>, alias: string) {
    forall i :: 0 <= i < |eqs| && Touches(eqs[i], alias) ==> Alias(eqs[i].0) == Alias(eqs[i].1)
  }

  ghost predicate Relations(ps: seq<Plan>) {
    forall i :: 0 <= i < |ps| ==> ps[i].Relation?
  }

  /** Children whose alias is in the set, or is not. */
  function Members(ps: seq<Plan>, s: set<string>, inside: bool): (qs: seq<Plan>)
    requires Relations(ps)
    ensures Relations(qs) && |qs| <= |ps|
    ensures forall i :: 0 <= i < |qs| ==> qs[i] in ps && (qs[i].source.alias in s <==> inside)
    ensures forall i :: 0 <= i < |ps| && (ps[i].source.alias in s <==> inside) ==> ps[i] in qs
  {
    if ps == [] then []
    else
      var rest := Members(ps[..|ps| - 1], s, inside);
      if (ps[|ps| - 1].source.alias in s) == inside then rest + [ps[|ps| - 1]] else rest
  }

  function Within(eqs: seq<Equality>, s: set<string>): (r: seq<Equality>)
    ensures forall i :: 0 <= i < |r| ==> r[i] in eqs && (Alias(r[i].0) in s || Alias(r[i].1) in s)
  {
    if eqs == [] then []
    else
      var rest, eq := Within(eqs[..|eqs| - 1], s), eqs[|eqs| - 1];
      if Alias(eq.0) in s || Alias(eq.1) in s then rest + [eq] else rest
  }

  /** The equalities of these aliases that some join carries. */
  ghost function Carried(eqs: seq<Equality>, all: seq<Equality>, s: set<string>): seq<Equality> {
    if eqs == [] then []
    else
      var rest, eq := Carried(eqs[..|eqs| - 1], all, s), eqs[|eqs| - 1];
      if Alias(eq.0) in s && !Lonely(all, Alias(eq.0)) then rest + [eq] else rest
  }

  /** FROM: at least two relations under different aliases; conditions about these relations. */
  ghost predicate FromClause(ps: seq<Plan>, eqs: seq<Equality>) {
    && |ps| >= 2 && Relations(ps)
    && (forall i, j :: 0 <= i < j < |ps| ==> ps[i].source.alias != ps[j].source.alias)
    && (forall i :: 0 <= i < |eqs| ==> Relation(eqs[i].0.source) in ps && Relation(eqs[i].1.source) in ps)
  }

  function AliasesOf(ps: seq<Plan>): set<string>
    requires Relations(ps)
  {
    set i | 0 <= i < |ps| :: ps[i].source.alias
  }

  /** Exactly the relations of one component, under exactly its equalities. */
  ghost predicate JoinsComponent(children: seq<Plan>, on: seq<Equality>, eqs: seq<Equality>) {
    && Relations(children)
    && exists first, s :: Component(eqs, first, s) && AliasesOf(children) == s && on == Within(eqs, s)
  }

  /** A relation that no equality links to another, or a join of at least two connected relations. */
  ghost predicate IsGroup(p: Plan, eqs: seq<Equality>) {
    match p
    case Relation(src) => Lonely(eqs, src.alias)
    case Join(children, on) => |children| >= 2 && on != [] && JoinsComponent(children, on, eqs)
    case _ => false
  }

  /** The children that are left are the relations whose aliases are not in `s`. */
  ghost predicate LeftOver(ps: seq<Plan>, eqs: seq<Equality>, children: seq<Plan>, s: set<string>) {
    && Relations(ps) && Closed(eqs, s) && Relations(children) && Distinct(children)
    && (forall i :: 0 <= i < |children| ==> children[i].source.alias !in s && children[i] in ps)
    && (forall i :: 0 <= i < |ps| && ps[i].source.alias !in s ==> ps[i] in children)
  }

  ghost predicate AllGroups(eqs: seq<Equality>, groups: seq<Plan>) {
    forall i :: 0 <= i < |groups| ==> IsGroup(groups[i], eqs)
  }

  /** Groups that carry every equality of the aliases in `s`, each once, unless it is of a lonely alias. */
  ghost predicate GroupsFor(eqs: seq<Equality>, groups: seq<Plan>, s: set<string>) {
    && AllGroups(eqs, groups) && AllInner(groups)
    && multiset(AllConditions(groups)) == multiset(AsExprs(Carried(eqs, eqs, s)))
  }

  ghost predicate Grouped(ps: seq<Plan>, eqs: seq<Equality>, groups: seq<Plan>, children: seq<Plan>, s: set<string>) {
    && LeftOver(ps, eqs, children, s) && GroupsFor(eqs, groups, s)
    && multiset(AllLeaves(groups)) + multiset(AllLeaves(children)) == multiset(AllLeaves(ps))
  }

  /** A component avoids every closed set that does not have its first alias, and stays closed with it. */
  lemma ComponentApart(eqs: seq<Equality>, first: string, joined: set<string>, s: set<string>)
    requires Component(eqs, first, joined) && Closed(eqs, s) && first !in s
    ensures joined !! s && Closed(eqs, s + joined) && joined <= Aliases(eqs) + {first}
  {
    var rest := Aliases(eqs) + {first} - s;
    assert Closed(eqs, rest) by {
      forall i | 0 <= i < |eqs| ensures Alias(eqs[i].0) in rest <==> Alias(eqs[i].1) in rest {}
    }
    assert joined <= rest;
  }

  /** Either the component is one lonely alias, or it has no lonely alias. */
  lemma ComponentLonely(eqs: seq<Equality>, first: string, joined: set<string>, a: string)
    requires Component(eqs, first, joined) && a in joined
    ensures Lonely(eqs, first) ==> joined == {first}
    ensures Lonely(eqs, a) ==> Lonely(eqs, first) && joined == {first}
  {
    if Lonely(eqs, first) { assert Closed(eqs, {first}); }
    if Lonely(eqs, a) && a != first {
      assert Closed(eqs, {a});
      ComponentApart(eqs, first, joined, {a});
    }
  }

  lemma {:induction false} CarriedUnion(eqs: seq<Equality>, all: seq<Equality>, s: set<string>, t: set<string>)
    requires s !! t
    ensures multiset(Carried(eqs, all, s + t)) == multiset(Carried(eqs, all, s)) + multiset(Carried(eqs, all, t))
  {
    hide Lonely;
    if eqs != [] { CarriedUnion(eqs[..|eqs| - 1], all, s, t); }
  }

  /** A component with several aliases carries all its equalities, one with a single alias none. */
  lemma {:induction false} CarriedByComponent(eqs: seq<Equality>, all: seq<Equality>, first: string,
                                              joined: set<string>)
    requires Component(all, first, joined) && forall i :: 0 <= i < |eqs| ==> eqs[i] in all
    ensures Carried(eqs, all, joined) == if Lonely(all, first) then [] else Within(eqs, joined)
  {
    if eqs != [] {
      var n := |eqs| - 1;
      CarriedByComponent(eqs[..n], all, first, joined);
      var i :| 0 <= i < |all| && all[i] == eqs[n];
      if Alias(eqs[n].0) in joined { ComponentLonely(all, first, joined, Alias(eqs[n].0)); }
      hide Lonely;
    }
  }

  lemma {:induction false} RelationLeaves(ps: seq<Plan>)
    requires Relations(ps)
    ensures AllConditions(ps) == [] && AllInner(ps) && |AllLeaves(ps)| == |ps|
    ensures forall i :: 0 <= i < |ps| ==> AllLeaves(ps)[i] == ps[i].source
  {
    if ps != [] { RelationLeaves(ps[1..]); }
  }

  lemma {:induction false} AllLeavesAppend(ps: seq<Plan>, qs: seq<Plan>)
    ensures AllLeaves(ps + qs) == AllLeaves(ps) + AllLeaves(qs)
  {
    hide Leaves;
    if ps == [] {
      assert ps + qs == qs;
    } else {
      AllLeavesAppend(ps[1..], qs);
      Bags.Associate(Leaves(ps[0]), AllLeaves(ps[1..]), AllLeaves(qs));
      assert (ps + qs)[0] == ps[0] && (ps + qs)[1..] == ps[1..] + qs;
    }
  }

  lemma {:induction false} AllConditionsAppend(ps: seq<Plan>, qs: seq<Plan>)
    ensures AllConditions(ps + qs) == AllConditions(ps) + AllConditions(qs)
  {
    hide Conditions;
    if ps == [] {
      assert ps + qs == qs;
    } else {
      AllConditionsAppend(ps[1..], qs);
      Bags.Associate(Conditions(ps[0]), AllConditions(ps[1..]), AllConditions(qs));
      assert (ps + qs)[0] == ps[0] && (ps + qs)[1..] == ps[1..] + qs;
    }
  }

  lemma {:induction false} AllInnerAppend(ps: seq<Plan>, qs: seq<Plan>)
    ensures AllInner(ps + qs) <==> AllInner(ps) && AllInner(qs)
  {
    hide Inner;
    if ps == [] {
      assert ps + qs == qs;
    } else {
      AllInnerAppend(ps[1..], qs);
      assert (ps + qs)[0] == ps[0] && (ps + qs)[1..] == ps[1..] + qs;
    }
  }

  lemma OneMore(ps: seq<Plan>, p: Plan)
    ensures AllLeaves(ps + [p]) == AllLeaves(ps) + Leaves(p)
    ensures AllConditions(ps + [p]) == AllConditions(ps) + Conditions(p)
    ensures AllInner(ps + [p]) <==> AllInner(ps) && Inner(p)
  {
    AllLeavesAppend(ps, [p]);
    AllConditionsAppend(ps, [p]);
    AllInnerAppend(ps, [p]);
    var one := [p];
    assert one[1..] == [];
    assert AllLeaves(one) == Leaves(p) + AllLeaves(one[1..]) == Leaves(p);
    assert AllConditions(one) == Conditions(p) + AllConditions(one[1..]) == Conditions(p);
    assert AllInner(one) == (Inner(p) && AllInner(one[1..]));
  }

  lemma {:induction false} MembersSplit(ps: seq<Plan>, s: set<string>)
    requires Relations(ps)
    ensures multiset(AllLeaves(ps)) == multiset(AllLeaves(Members(ps, s, true))) +
      multiset(AllLeaves(Members(ps, s, false)))
  {
    hide AllLeaves, Leaves, AllConditions, AllInner;
    if ps == [] {
      NoLeaves();
    } else {
      var n := |ps| - 1;
      MembersSplit(ps[..n], s);
      OneMore(ps[..n], ps[n]);
      OneMore(Members(ps[..n], s, true), ps[n]);
      OneMore(Members(ps[..n], s, false), ps[n]);
      assert ps[..n] + [ps[n]] == ps;
    }
  }

  lemma NoLeaves()
    ensures AllLeaves([]) == []
  {
  }

  lemma {:induction false} MembersDistinct(ps: seq<Plan>, s: set<string>, inside: bool)
    requires Relations(ps) && Distinct(ps)
    ensures Distinct(Members(ps, s, inside))
  {
    if ps != [] { MembersDistinct(ps[..|ps| - 1], s, inside); }
  }

  /** The group of the first remaining child. */
  function GroupOf(children: seq<Plan>, on: seq<Equality>): Plan
    requires children != []
  {
    if |children| > 1 then Join(children, on) else children[0]
  }

  lemma GroupMembers(ps: seq<Plan>, eqs: seq<Equality>, children: seq<Plan>, s: set<string>, joined: set<string>)
    requires FromClause(ps, eqs) && LeftOver(ps, eqs, children, s) && children != []
    requires Component(eqs, children[0].source.alias, joined)
    ensures var inside := Members(children, joined, true);
      && inside != [] && children[0] in inside && joined !! s
      && (forall p :: p in ps && p.Relation? && p.source.alias in joined ==> p in inside)
      && (|inside| == 1 <==> Lonely(eqs, children[0].source.alias))
  {
    var first := children[0].source.alias;
    ComponentApart(eqs, first, joined, s);
    hide Lonely, Closed, Members;
    assert children[0] in Members(children, joined, true);
    if Lonely(eqs, first) {
      LonelyGroup(ps, eqs, children, s, joined);
    } else {
      LinkedGroup(ps, eqs, children, s, joined);
    }
  }

  lemma LonelyGroup(ps: seq<Plan>, eqs: seq<Equality>, children: seq<Plan>, s: set<string>, joined: set<string>)
    requires FromClause(ps, eqs) && LeftOver(ps, eqs, children, s) && children != []
    requires Component(eqs, children[0].source.alias, joined) && Lonely(eqs, children[0].source.alias)
    ensures |Members(children, joined, true)| <= 1
  {
    var inside := Members(children, joined, true);
    MembersDistinct(children, joined, true);
    assert |inside| > 1 ==> inside[0] != inside[1];
    ComponentLonely(eqs, children[0].source.alias, joined, children[0].source.alias);
    hide Lonely, Closed, Component, Members;
    forall i | 0 <= i < |inside| ensures inside[i] == children[0] { SameAlias(ps, eqs, inside[i], children[0]); }
  }

  lemma LinkedGroup(ps: seq<Plan>, eqs: seq<Equality>, children: seq<Plan>, s: set<string>, joined: set<string>)
    requires FromClause(ps, eqs) && LeftOver(ps, eqs, children, s) && children != [] && joined !! s
    requires Component(eqs, children[0].source.alias, joined) && !Lonely(eqs, children[0].source.alias)
    ensures |Members(children, joined, true)| > 1
  {
    var i :| 0 <= i < |eqs| && Touches(eqs[i], children[0].source.alias) && Alias(eqs[i].0) != Alias(eqs[i].1);
    var p, q := Relation(eqs[i].0.source), Relation(eqs[i].1.source);
    assert Alias(eqs[i].0) in joined && Alias(eqs[i].1) in joined && p in ps && q in ps;
    hide Lonely, Closed, Component, FromClause;
    TwoMembers(Members(children, joined, true), p, q);
  }

  lemma TwoMembers(ps: seq<Plan>, p: Plan, q: Plan)
    requires p in ps && q in ps && p != q
    ensures |ps| > 1
  {
  }

  lemma SameAlias(ps: seq<Plan>, eqs: seq<Equality>, p: Plan, q: Plan)
    requires FromClause(ps, eqs) && p in ps && q in ps && p.source.alias == q.source.alias
    ensures p == q
  {
  }

  lemma JoinConditionsLocal(inside: seq<Plan>, on: seq<Equality>)
    requires Relations(inside)
    requires forall i :: 0 <= i < |on| ==> Relation(on[i].0.source) in inside && Relation(on[i].1.source) in inside
    ensures Local(AsExprs(on), SetOf(AllLeaves(inside)))
  {
    RelationLeaves(inside);
    forall i, c | 0 <= i < |on| && c in Columns(AsExprs(on)[i]) ensures c.source in SetOf(AllLeaves(inside)) {
      var j :| 0 <= j < |inside| && inside[j] == Relation(c.source);
      assert AllLeaves(inside)[j] == c.source;
    }
  }

  lemma {:induction false} WithinEnds(eqs: seq<Equality>, s: set<string>)
    ensures Closed(eqs, s) ==> forall i :: 0 <= i < |Within(eqs, s)| ==>
      Alias(Within(eqs, s)[i].0) in s && Alias(Within(eqs, s)[i].1) in s
    ensures Within(eqs, s) == [] ==> forall i :: 0 <= i < |eqs| ==> Alias(eqs[i].0) !in s && Alias(eqs[i].1) !in s
  {
    if eqs != [] {
      WithinEnds(eqs[..|eqs| - 1], s);
      assert Closed(eqs, s) ==> Closed(eqs[..|eqs| - 1], s);
    }
  }

  /** The new group: its relations, its equalities, and what makes it a group. */
  lemma GroupFacts(ps: seq<Plan>, eqs: seq<Equality>, children: seq<Plan>, s: set<string>, joined: set<string>)
    requires FromClause(ps, eqs) && LeftOver(ps, eqs, children, s) && children != []
    requires Component(eqs, children[0].source.alias, joined)
    ensures var inside := Members(children, joined, true);
      && inside != [] && (|inside| > 1 ==> Within(eqs, joined) != [])
      && (var g := GroupOf(inside, Within(eqs, joined));
          && IsGroup(g, eqs) && Inner(g) && Leaves(g) == AllLeaves(inside)
          && Conditions(g) == AsExprs(Carried(eqs, eqs, joined)))
  {
    LeftOverFacts(ps, eqs, children, s);
    var first, inside := children[0].source.alias, Members(children, joined, true);
    hide LeftOver, Component, Lonely, Closed, Within, Members, IsGroup, Inner, Leaves, Conditions;
    GroupMembers(ps, eqs, children, s, joined);
    CarriedByComponent(eqs, eqs, first, joined);
    if |inside| > 1 {
      JoinGroup(ps, eqs, inside, first, joined);
    } else {
      OnlyMember(children, joined);
      SingleGroup(children[0], eqs);
    }
  }

  lemma SingleGroup(p: Plan, eqs: seq<Equality>)
    requires p.Relation? && Lonely(eqs, p.source.alias)
    ensures IsGroup(p, eqs) && Inner(p) && Conditions(p) == AsExprs([]) && Leaves(p) == AllLeaves([p])
  {
    OneLeaf([p]);
  }

  lemma JoinGroup(ps: seq<Plan>, eqs: seq<Equality>, inside: seq<Plan>, first: string, joined: set<string>)
    requires FromClause(ps, eqs) && Relations(inside) && |inside| > 1
    requires Component(eqs, first, joined) && !Lonely(eqs, first)
    requires first in AliasesOf(inside) && forall i :: 0 <= i < |inside| ==> inside[i].source.alias in joined
    requires forall p :: p in ps && p.Relation? && p.source.alias in joined ==> p in inside
    ensures Within(eqs, joined) != []
    ensures var g := Join(inside, Within(eqs, joined));
      IsGroup(g, eqs) && Inner(g) && Leaves(g) == AllLeaves(inside) && Conditions(g) == AsExprs(Within(eqs, joined))
  {
    hide Component, Lonely, Closed, JoinsComponent, Within, FromClause;
    var on := Within(eqs, joined);
    RelationLeaves(inside);
    LinkedWithin(eqs, first, joined);
    JoinedConditions(ps, eqs, inside, on, joined);
    JoinIsGroup(ps, eqs, inside, first, joined);
    assert [] + AsExprs(on) == AsExprs(on);
  }

  lemma OnlyMember(children: seq<Plan>, joined: set<string>)
    requires Relations(children) && children != [] && children[0].source.alias in joined
    requires |Members(children, joined, true)| == 1
    ensures Members(children, joined, true) == [children[0]]
  {
    assert children[0] in Members(children, joined, true);
  }

  lemma LinkedWithin(eqs: seq<Equality>, first: string, joined: set<string>)
    requires Component(eqs, first, joined) && !Lonely(eqs, first)
    ensures Within(eqs, joined) != []
    ensures forall i :: 0 <= i < |Within(eqs, joined)| ==>
      Alias(Within(eqs, joined)[i].0) in joined && Alias(Within(eqs, joined)[i].1) in joined
  {
    WithinEnds(eqs, joined);
  }

  lemma OneLeaf(inside: seq<Plan>)
    requires Relations(inside) && |inside| == 1
    ensures AllLeaves(inside) == [inside[0].source] && inside[0] in inside
  {
    RelationLeaves(inside);
  }

  lemma JoinedConditions(ps: seq<Plan>, eqs: seq<Equality>, inside: seq<Plan>, on: seq<Equality>, joined: set<string>)
    requires FromClause(ps, eqs) && Relations(inside)
    requires forall p :: p in ps && p.Relation? && p.source.alias in joined ==> p in inside
    requires forall i :: 0 <= i < |on| ==> on[i] in eqs && Alias(on[i].0) in joined && Alias(on[i].1) in joined
    ensures Local(AsExprs(on), SetOf(AllLeaves(inside)))
  {
    forall i | 0 <= i < |on| ensures Relation(on[i].0.source) in inside && Relation(on[i].1.source) in inside {
      var j :| 0 <= j < |eqs| && eqs[j] == on[i];
    }
    JoinConditionsLocal(inside, on);
  }

  lemma JoinIsGroup(ps: seq<Plan>, eqs: seq<Equality>, inside: seq<Plan>, first: string, joined: set<string>)
    requires FromClause(ps, eqs) && Relations(inside) && Component(eqs, first, joined) && first in AliasesOf(inside)
    requires forall i :: 0 <= i < |inside| ==> inside[i].source.alias in joined
    requires forall p :: p in ps && p.Relation? && p.source.alias in joined ==> p in inside
    ensures JoinsComponent(inside, Within(eqs, joined), eqs)
  {
    ComponentApart(eqs, first, joined, {});
    forall a | a in joined ensures a in AliasesOf(inside) {
      if a != first {
        var i :| 0 <= i < |eqs| && (Alias(eqs[i].0) == a || Alias(eqs[i].1) == a);
        var p := Relation(if Alias(eqs[i].0) == a then eqs[i].0.source else eqs[i].1.source);
        assert p in ps && p in inside;
      }
    }
  }

  /** One turn of the outer loop. */
  lemma GroupTurn(ps: seq<Plan>, eqs: seq<Equality>, groups: seq<Plan>, children: seq<Plan>, s: set<string>,
                  joined: set<string>)
    requires FromClause(ps, eqs) && Grouped(ps, eqs, groups, children, s) && children != []
    requires Component(eqs, children[0].source.alias, joined)
    ensures var inside, rest := Members(children, joined, true), Members(children, joined, false);
      && inside != [] && |rest| < |children| && (|inside| > 1 ==> Within(eqs, joined) != [])
      && Grouped(ps, eqs, groups + [GroupOf(inside, Within(eqs, joined))], rest, s + joined)
  {
    var inside, rest := Members(children, joined, true), Members(children, joined, false);
    LeftOverFacts(ps, eqs, children, s);
    LeftOverTurn(ps, eqs, children, s, joined);
    GroupFacts(ps, eqs, children, s, joined);
    FewerMembers(children, joined);
    MembersSplit(children, joined);
    hide LeftOver, GroupsFor, IsGroup, Within, Members, AllLeaves, Conditions, Leaves, Inner, Closed, Component,
      Carried, FromClause;
    GroupsForTurn(eqs, groups, GroupOf(inside, Within(eqs, joined)), s, joined);
    LeavesTurn(ps, groups, children, inside, rest, GroupOf(inside, Within(eqs, joined)));
  }

  lemma LeavesTurn(ps: seq<Plan>, groups: seq<Plan>, children: seq<Plan>, inside: seq<Plan>, rest: seq<Plan>, g: Plan)
    requires multiset(AllLeaves(groups)) + multiset(AllLeaves(children)) == multiset(AllLeaves(ps))
    requires Leaves(g) == AllLeaves(inside)
    requires multiset(AllLeaves(children)) == multiset(AllLeaves(inside)) + multiset(AllLeaves(rest))
    ensures multiset(AllLeaves(groups + [g])) + multiset(AllLeaves(rest)) == multiset(AllLeaves(ps))
  {
    hide AllLeaves, Leaves;
    OneMore(groups, g);
  }

  lemma GroupsForTurn(eqs: seq<Equality>, groups: seq<Plan>, g: Plan, s: set<string>, joined: set<string>)
    requires GroupsFor(eqs, groups, s) && IsGroup(g, eqs) && Inner(g) && joined !! s
    requires Conditions(g) == AsExprs(Carried(eqs, eqs, joined))
    ensures GroupsFor(eqs, groups + [g], s + joined)
  {
    hide IsGroup, AllConditions, Conditions, Inner, AllInner, Carried, AsExprs;
    GroupShapes(eqs, groups, g);
    OneMore(groups, g);
    CarriedUnion(eqs, eqs, s, joined);
    ConditionsTurn(AllConditions(groups), Conditions(g), Carried(eqs, eqs, s), Carried(eqs, eqs, joined),
                   Carried(eqs, eqs, s + joined));
    GroupsForIs(eqs, groups + [g], s + joined);
  }

  lemma GroupsForIs(eqs: seq<Equality>, groups: seq<Plan>, s: set<string>)
    requires AllGroups(eqs, groups) && AllInner(groups)
    requires multiset(AllConditions(groups)) == multiset(AsExprs(Carried(eqs, eqs, s)))
    ensures GroupsFor(eqs, groups, s)
  {
  }

  lemma GroupShapes(eqs: seq<Equality>, groups: seq<Plan>, g: Plan)
    requires AllGroups(eqs, groups) && IsGroup(g, eqs)
    ensures AllGroups(eqs, groups + [g])
  {
    hide IsGroup;
  }

  lemma ConditionsTurn(all: seq<Expr>, more: seq<Expr>, a: seq<Equality>, b: seq<Equality>, c: seq<Equality>)
    requires multiset(all) == multiset(AsExprs(a)) && more == AsExprs(b) && multiset(c) == multiset(a) + multiset(b)
    ensures multiset(all + more) == multiset(AsExprs(c))
  {
    AsExprsBag(a, b, c);
  }

  lemma LeftOverFacts(ps: seq<Plan>, eqs: seq<Equality>, children: seq<Plan>, s: set<string>)
    requires LeftOver(ps, eqs, children, s)
    ensures Relations(ps) && Relations(children) && Closed(eqs, s)
  {
  }

  lemma LeftOverTurn(ps: seq<Plan>, eqs: seq<Equality>, children: seq<Plan>, s: set<string>, joined: set<string>)
    requires FromClause(ps, eqs) && LeftOver(ps, eqs, children, s) && children != []
    requires Component(eqs, children[0].source.alias, joined)
    ensures Relations(children) && joined !! s && children[0].source.alias in joined
    ensures LeftOver(ps, eqs, Members(children, joined, false), s + joined)
  {
    ComponentApart(eqs, children[0].source.alias, joined, s);
    MembersDistinct(children, joined, false);
  }

  lemma FewerMembers(ps: seq<Plan>, s: set<string>)
    requires Relations(ps) && ps != [] && ps[0].source.alias in s
    ensures |Members(ps, s, false)| < |ps|
  {
    if |ps| > 1 { FewerMembers(ps[..|ps| - 1], s); }
  }

  lemma {:induction false} AsExprsAppend(a: seq<Equality>, b: seq<Equality>)
    ensures AsExprs(a + b) == AsExprs(a) + AsExprs(b)
  {
    var both := a + b;
    assert forall i :: 0 <= i < |both| ==> AsExprs(both)[i] == (AsExprs(a) + AsExprs(b))[i];
  }

  lemma {:induction false} AsExprsPermute(a: seq<Equality>, b: seq<Equality>)
    requires multiset(a) == multiset(b)
    ensures multiset(AsExprs(a)) == multiset(AsExprs(b))
  {
    if a == [] {
      EmptyBag(b);
    } else {
      var j := TakeOut(a, 0, b);
      assert a[..0] + a[1..] == a[1..];
      AsExprsPermute(a[1..], b[..j] + b[j + 1..]);
      AsExprsAppend([a[0]], a[1..]);
      AsExprsAppend(b[..j], [b[j]] + b[j + 1..]);
      AsExprsAppend([b[j]], b[j + 1..]);
      AsExprsAppend(b[..j], b[j + 1..]);
      assert a == [a[0]] + a[1..];
    }
  }

  lemma AsExprsBag(a: seq<Equality>, b: seq<Equality>, c: seq<Equality>)
    requires multiset(c) == multiset(a) + multiset(b)
    ensures multiset(AsExprs(c)) == multiset(AsExprs(a)) + multiset(AsExprs(b))
  {
    AsExprsAppend(a, b);
    AsExprsPermute(c, a + b);
  }

  // ---------------------------------------------------------------- the visitor

  function Equalities(es: seq<Expr>): (eqs: seq<Equality>)
    ensures forall i :: 0 <= i < |eqs| ==> Equals(eqs[i].0, eqs[i].1) in es
    ensures forall i :: 0 <= i < |es| && es[i].Equals? ==> (es[i].left, es[i].right) in eqs
  {
    if es == [] then []
    else
      var e := es[|es| - 1];
      Equalities(es[..|es| - 1]) + if e.Equals? then [(e.left, e.right)] else []
  }

  function Tests(es: seq<Expr>): (ts: seq<Expr>)
    ensures forall i :: 0 <= i < |ts| ==> ts[i] in es && ts[i].Test?
    ensures forall i :: 0 <= i < |es| && es[i].Test? ==> es[i] in ts
  {
    if es == [] then []
    else
      var e := es[|es| - 1];
      Tests(es[..|es| - 1]) + if e.Test? then [e] else []
  }

  /** The equalities that link two relations, or belong to a relation that is linked. */
  ghost function Linked(eqs: seq<Equality>, all: seq<Equality>): (r: seq<Equality>)
    ensures forall i :: 0 <= i < |r| ==> r[i] in eqs && !Lonely(all, Alias(r[i].0))
    ensures forall i :: 0 <= i < |eqs| && !Lonely(all, Alias(eqs[i].0)) ==> eqs[i] in r
  {
    if eqs == [] then []
    else
      var rest, eq := Linked(eqs[..|eqs| - 1], all), eqs[|eqs| - 1];
      if Lonely(all, Alias(eq.0)) then rest else rest + [eq]
  }

  lemma {:induction false} CarriedAll(eqs: seq<Equality>, all: seq<Equality>, s: set<string>)
    requires forall i :: 0 <= i < |eqs| ==> Alias(eqs[i].0) in s
    ensures Carried(eqs, all, s) == Linked(eqs, all)
  {
    hide Lonely;
    if eqs != [] { CarriedAll(eqs[..|eqs| - 1], all, s); }
  }

  /** The product regrouped: the same relations, every linked equality in exactly one join. */
  ghost predicate Regrouped(ps: seq<Plan>, eqs: seq<Equality>, p: Plan) {
    && Inner(p) && multiset(Leaves(p)) == multiset(AllLeaves(ps))
    && multiset(Conditions(p)) == multiset(AsExprs(Linked(eqs, eqs)))
    && (IsGroup(p, eqs) || (p.Product? && |p.children| >= 2 && AllGroups(eqs, p.children)))
  }

  lemma GroupingBegins(ps: seq<Plan>, eqs: seq<Equality>)
    requires FromClause(ps, eqs)
    ensures Grouped(ps, eqs, [], ps, {})
  {
    NoLeaves();
    assert Carried(eqs, eqs, {}) == [] by { CarriedNone(eqs, eqs); }
  }

  lemma {:induction false} CarriedNone(eqs: seq<Equality>, all: seq<Equality>)
    ensures Carried(eqs, all, {}) == []
  {
    if eqs != [] { CarriedNone(eqs[..|eqs| - 1], all); }
  }

  lemma GroupingEnds(ps: seq<Plan>, eqs: seq<Equality>, groups: seq<Plan>, s: set<string>)
    requires FromClause(ps, eqs) && Grouped(ps, eqs, groups, [], s)
    ensures groups != [] && Regrouped(ps, eqs, if |groups| > 1 then Product(groups) else groups[0])
  {
    AllCovered(ps, eqs, s);
    CarriedAll(eqs, eqs, s);
    SomeGroup(ps, groups);
    var p := if |groups| > 1 then Product(groups) else groups[0];
    hide FromClause, LeftOver, Carried, Leaves, Conditions, AllLeaves, AllConditions, Inner, IsGroup, Relations;
    GroupsTogether(groups);
    NoLeaves();
  }

  lemma AllCovered(ps: seq<Plan>, eqs: seq<Equality>, s: set<string>)
    requires FromClause(ps, eqs) && LeftOver(ps, eqs, [], s)
    ensures forall i :: 0 <= i < |eqs| ==> Alias(eqs[i].0) in s
  {
    forall i | 0 <= i < |eqs| ensures Alias(eqs[i].0) in s {
      var j :| 0 <= j < |ps| && ps[j] == Relation(eqs[i].0.source);
      assert ps[j].source.alias in s;
    }
  }

  lemma SomeGroup(ps: seq<Plan>, groups: seq<Plan>)
    requires Relations(ps) && ps != []
    requires multiset(AllLeaves(groups)) + multiset(AllLeaves([])) == multiset(AllLeaves(ps))
    ensures groups != []
  {
    NoLeaves();
    RelationLeaves(ps);
    assert AllLeaves(ps)[0] in multiset(AllLeaves(ps));
  }

  lemma GroupsTogether(groups: seq<Plan>)
    requires groups != [] && AllInner(groups)
    ensures var p := if |groups| > 1 then Product(groups) else groups[0];
      Inner(p) && Leaves(p) == AllLeaves(groups) && Conditions(p) == AllConditions(groups)
  {
    if |groups| == 1 {
      OneMore([], groups[0]);
      assert [] + [groups[0]] == groups;
    }
  }

  class BuildJoins {
    var currentPlan: Plan
    var columnEqualities: seq<Equality>

    constructor ()
      ensures columnEqualities == []
    {
      columnEqualities := [];
      currentPlan := Product([]);
    }

    /** The children of the group with the aliases in `joined`, and the others. */
    static method TakeChildren(children: seq<Plan>, joined: set<string>) returns (inside: seq<Plan>, rest: seq<Plan>)
      requires Relations(children)
      ensures inside == Members(children, joined, true) && rest == Members(children, joined, false)
    {
      inside, rest := [], [];
      for i := 0 to |children|
        invariant inside == Members(children[..i], joined, true) && rest == Members(children[..i], joined, false)
      {
        assert children[..i + 1][..i] == children[..i];
        if children[i].source.alias in joined {
          inside := inside + [children[i]];
        } else {
          rest := rest + [children[i]];
        }
      }
      assert children[..|children|] == children;
    }

    method JoinColumns(joined: set<string>) returns (on: seq<Equality>)
      ensures on == Within(columnEqualities, joined)
    {
      on := [];
      for i := 0 to |columnEqualities|
        invariant on == Within(columnEqualities[..i], joined)
      {
        var eq := columnEqualities[i];
        assert columnEqualities[..i + 1][..i] == columnEqualities[..i];
        if Alias(eq.0) in joined || Alias(eq.1) in joined { on := on + [eq]; }
      }
      assert columnEqualities[..|columnEqualities|] == columnEqualities;
    }

    /** The product of a FROM clause becomes a product of groups, or one group. */
    method VisitProduct(relations: seq<Plan>)
      requires FromClause(relations, columnEqualities)
      modifies this`currentPlan
      ensures Regrouped(relations, columnEqualities, currentPlan)
    {
      hide FromClause, Grouped, Regrouped, Component, Closed, LeftOver, Members, Within;
      var eqs := columnEqualities;
      var groups: seq<Plan> := [];
      var children := relations;
      ghost var done: set<string> := {};
      GroupingBegins(relations, eqs);
      while children != []
        invariant Grouped(relations, eqs, groups, children, done)
        decreases |children|
      {
        GroupedFacts(relations, eqs, groups, children, done);
        var joined := ConnectedAliases(eqs, children[0].source.alias);
        GroupTurn(relations, eqs, groups, children, done, joined);
        var on := JoinColumns(joined);
        var inside, rest := TakeChildren(children, joined);
        if |inside| > 1 {
          groups := groups + [Join(inside, on)];
        } else {
          groups := groups + [inside[0]];
        }
        children, done := rest, done + joined;
      }
      GroupingEnds(relations, eqs, groups, done);
      currentPlan := if |groups| > 1 then Product(groups) else groups[0];
    }

    /** Equalities of two columns are collected, the child is rewritten, and the other conditions stay above it. */
    method VisitSelection(child: Plan, es: seq<Expr>)
      requires columnEqualities == [] && !child.Select? && !child.Join?
      requires child.Product? ==> FromClause(child.children, Equalities(es))
      modifies this
      ensures Rewritten(child, es, currentPlan)
    {
      hide FromClause, Regrouped;
      var remaining: seq<Expr> := [];
      for i := 0 to |es|
        invariant columnEqualities == Equalities(es[..i]) && remaining == Tests(es[..i])
      {
        assert es[..i + 1][..i] == es[..i];
        match es[i] {
          case Equals(a, b) => columnEqualities := columnEqualities + [(a, b)];
          case Test(_, _) => remaining := remaining + [es[i]];
        }
      }
      assert es[..|es|] == es;
      if child.Product? {
        VisitProduct(child.children);
      } else {
        currentPlan := child;
      }
      RewrittenFrom(child, es, currentPlan);
      if remaining != [] {
        currentPlan := Select(currentPlan, remaining);
      }
    }
  }

  lemma GroupedFacts(ps: seq<Plan>, eqs: seq<Equality>, groups: seq<Plan>, children: seq<Plan>, s: set<string>)
    requires Grouped(ps, eqs, groups, children, s)
    ensures Relations(children)
  {
  }

  /** What the rewriter makes of a selection; a FROM clause of one item keeps none of its column equalities. */
  ghost predicate Rewritten(child: Plan, es: seq<Expr>, p: Plan) {
    exists from :: RewrittenChild(child, es, from) && p == if Tests(es) == [] then from else Select(from, Tests(es))
  }

  ghost predicate RewrittenChild(child: Plan, es: seq<Expr>, from: Plan) {
    if child.Product? then Regrouped(child.children, Equalities(es), from) else from == child
  }

  lemma RewrittenFrom(child: Plan, es: seq<Expr>, from: Plan)
    requires RewrittenChild(child, es, from)
    ensures Rewritten(child, es, if Tests(es) == [] then from else Select(from, Tests(es)))
  {
  }

  // ---------------------------------------------------------------- meaning

  /** A selection over one relation, or over several under different aliases. */
  ghost predicate InnerQuery(child: Plan, es: seq<Expr>) {
    && (child.Relation? || (child.Product? && FromClause(child.children, Equalities(es))))
    && Local(es, SetOf(Leaves(child)))
  }

  ghost predicate OuterQuery(child: Plan, es: seq<Expr>) {
    IsOuterJoin(child) && Local(es, SetOf(Leaves(child))) && Local(AsExprs(child.on), SetOf(Leaves(child)))
  }

  /** A selection over any FROM clause for which the rewriter does not fail. */
  ghost predicate Query(child: Plan, es: seq<Expr>) {
    InnerQuery(child, es) || OuterQuery(child, es)
  }

  /** The conditions that are still there after the rewriting. */
  ghost function Survivors(child: Plan, es: seq<Expr>): seq<Expr> {
    (if child.Product? then AsExprs(Linked(Equalities(es), Equalities(es))) else []) + Tests(es)
  }

  lemma QueryLeaves(child: Plan, es: seq<Expr>)
    requires InnerQuery(child, es)
    ensures Distinct(Leaves(child)) && Inner(child) && Conditions(child) == []
  {
    if child.Product? { RelationLeaves(child.children); }
  }

  lemma MembersLocal(es: seq<Expr>, es': seq<Expr>, srcs: set<Source>)
    requires Local(es, srcs) && forall i :: 0 <= i < |es'| ==> es'[i] in es
    ensures Local(es', srcs)
  {
    forall i, c | 0 <= i < |es'| && c in Columns(es'[i]) ensures c.source in srcs {
      var j :| 0 <= j < |es| && es[j] == es'[i];
    }
  }

  lemma SurvivorsAreOld(child: Plan, es: seq<Expr>)
    ensures forall i :: 0 <= i < |Survivors(child, es)| ==> Survivors(child, es)[i] in es
  {
    var eqs := Equalities(es);
    var linked := Linked(eqs, eqs);
    forall i | 0 <= i < |linked| ensures AsExprs(linked)[i] in es {
      var j :| 0 <= j < |eqs| && eqs[j] == linked[i];
    }
  }

  /** The rewritten child: the same relations, under the surviving equalities. */
  lemma ChildRewritten(child: Plan, es: seq<Expr>, from: Plan)
    requires InnerQuery(child, es) && RewrittenChild(child, es, from)
    ensures Inner(from) && multiset(Leaves(from)) == multiset(Leaves(child))
    ensures multiset(Conditions(from) + Tests(es)) == multiset(Survivors(child, es))
  {
    QueryLeaves(child, es);
  }

  /** The rewritten query: the same relations, the surviving conditions, each as often as it was given. */
  lemma RewrittenShape(child: Plan, es: seq<Expr>, p: Plan)
    requires InnerQuery(child, es) && Rewritten(child, es, p)
    ensures Inner(p) && multiset(Leaves(p)) == multiset(Leaves(child))
    ensures multiset(Conditions(p)) == multiset(Survivors(child, es))
  {
    var from :| RewrittenChild(child, es, from) && p == if Tests(es) == [] then from else Select(from, Tests(es));
    QueryLocal(child, es);
    ChildRewritten(child, es, from);
    hide *;
    MembersLocal(es, Tests(es), SetOf(Leaves(child)));
    WithTests(from, Tests(es), Leaves(child));
  }

  lemma WithTests(from: Plan, ts: seq<Expr>, srcs: seq<Source>)
    requires Inner(from) && multiset(Leaves(from)) == multiset(srcs) && Local(ts, SetOf(srcs))
    ensures var p := if ts == [] then from else Select(from, ts);
      Inner(p) && Leaves(p) == Leaves(from) && Conditions(p) == Conditions(from) + ts
  {
    hide Inner, Leaves, Conditions, Local;
    if ts == [] {
      assert Conditions(from) + ts == Conditions(from);
    } else {
      EqualBags(srcs, Leaves(from));
      assert SetOf(Leaves(from)) == SetOf(srcs);
      SelectFacts(from, ts);
    }
  }

  /** The rewritten query has the rows that meet the surviving conditions. */
  lemma RewrittenBag(env: Env, child: Plan, es: seq<Expr>, p: Plan)
    requires Query(child, es) && Rewritten(child, es, p)
    ensures multiset(Rows(env, p)) == multiset(Rows(env, Select(child, Survivors(child, es))))
  {
    if InnerQuery(child, es) { InnerBag(env, child, es, p); } else { OuterRows(env, child, es, p); }
  }

  /** Over an outer join no equality of two columns survives. */
  lemma OuterRows(env: Env, child: Plan, es: seq<Expr>, p: Plan)
    requires OuterQuery(child, es) && Rewritten(child, es, p)
    ensures Survivors(child, es) == Tests(es) && Rows(env, p) == Filter(env, Tests(es), Rows(env, child))
  {
    assert [] + Tests(es) == Tests(es);
    FilterNothing(env, Rows(env, child));
  }

  lemma InnerBag(env: Env, child: Plan, es: seq<Expr>, p: Plan)
    requires InnerQuery(child, es) && Rewritten(child, es, p)
    ensures multiset(Rows(env, p)) == multiset(Rows(env, Select(child, Survivors(child, es))))
  {
    RewrittenShape(child, es, p);
    QueryLeaves(child, es);
    QueryLocal(child, es);
    SurvivorsAreOld(child, es);
    hide InnerQuery, Survivors, Inner, Leaves, Conditions, Rows, AllHold, Rewritten, Local;
    MembersLocal(es, Survivors(child, es), SetOf(Leaves(child)));
    SelectAlone(child, Survivors(child, es));
    EqualBags(Leaves(child), Leaves(p));
    SameBagOf(env, p, Select(child, Survivors(child, es)));
  }

  lemma SameBagOf(env: Env, p: Plan, q: Plan)
    requires Inner(p) && Inner(q) && Distinct(Leaves(p)) && multiset(Leaves(p)) == multiset(Leaves(q))
    requires multiset(Conditions(p)) == multiset(Conditions(q))
    ensures multiset(Rows(env, p)) == multiset(Rows(env, q))
  {
    hide *;
    EqualBags(Conditions(p), Conditions(q));
    forall r ensures AllHold(env, Conditions(p), r) == AllHold(env, Conditions(q), r) {
      SameConditions(env, Conditions(p), Conditions(q), r);
    }
    SameBag(env, p, q);
  }

  lemma SelectFacts(child: Plan, es: seq<Expr>)
    requires Inner(child) && Local(es, SetOf(Leaves(child)))
    ensures Inner(Select(child, es)) && Leaves(Select(child, es)) == Leaves(child)
    ensures Conditions(Select(child, es)) == Conditions(child) + es
  {
  }

  lemma SelectAlone(child: Plan, es: seq<Expr>)
    requires Inner(child) && Local(es, SetOf(Leaves(child))) && Conditions(child) == []
    ensures Inner(Select(child, es)) && Leaves(Select(child, es)) == Leaves(child)
    ensures Conditions(Select(child, es)) == es
  {
    hide Inner, Local, Leaves;
    SelectFacts(child, es);
  }

  /** Over a left outer join: both columns are of the right relation, and ON makes them equal or both missing. */
  ghost predicate ImpliedByOn(child: Plan, e: Expr) {
    && child.LeftOuter? && child.right.Relation? && e.Equals?
    && e.left.source == e.right.source == child.right.source && Chained(child.on, e.left, e.right)
  }

  /** An equality of two different columns that the rewriting drops, and that nothing else implies. */
  ghost predicate Lost(child: Plan, es: seq<Expr>, e: Expr) {
    && e in es && e.Equals? && e.left != e.right
    && (if child.Product? then Lonely(Equalities(es), Alias(e.left)) else !ImpliedByOn(child, e))
  }

  /** The preprocessor compares columns of one type only. */
  ghost predicate TypedQuery(schemas: Schemas, child: Plan, es: seq<Expr>) {
    Typed(schemas, es) && (IsOuterJoin(child) ==> Typed(schemas, AsExprs(child.on)))
  }

  /**
   * Exactly when BuildJoins keeps the rows of a query, for all tables of the given schemas and all meanings of
   * the tests: when no equality of two columns is lost. Inside a relation, one is lost when no other equality
   * links the relation to a second one; over an outer join, when it is not between columns of the right side of
   * a left join that ON links.
   */
  lemma BuildJoinsExact(schemas: Schemas, child: Plan, es: seq<Expr>, p: Plan)
    requires Query(child, es) && TypedQuery(schemas, child, es) && Rewritten(child, es, p)
    ensures (forall env | Filled(env, schemas) :: multiset(Rows(env, p)) == multiset(Rows(env, Select(child, es)))) <==>
      !exists e :: Lost(child, es, e)
  {
    if e :| Lost(child, es, e) {
      var env := LostIsMissed(schemas, child, es, p, e);
    } else {
      forall env | Filled(env, schemas) ensures multiset(Rows(env, p)) == multiset(Rows(env, Select(child, es))) {
        RewrittenBag(env, child, es, p);
        NothingLost(env, schemas, child, es);
      }
    }
  }

  lemma NothingLost(env: Env, schemas: Schemas, child: Plan, es: seq<Expr>)
    requires Query(child, es) && TypedQuery(schemas, child, es) && env.schemas == schemas
    requires !exists e :: Lost(child, es, e)
    ensures Rows(env, Select(child, Survivors(child, es))) == Rows(env, Select(child, es))
  {
    var rows := Rows(env, child);
    forall i | 0 <= i < |rows| ensures AllHold(env, Survivors(child, es), rows[i]) == AllHold(env, es, rows[i]) {
      SurvivorsSuffice(env, schemas, child, es, i);
    }
    FilterSame(env, Survivors(child, es), es, rows);
  }

  lemma SurvivorsSuffice(env: Env, schemas: Schemas, child: Plan, es: seq<Expr>, k: nat)
    requires Query(child, es) && TypedQuery(schemas, child, es) && env.schemas == schemas && k < |Rows(env, child)|
    requires !exists e :: Lost(child, es, e)
    ensures AllHold(env, Survivors(child, es), Rows(env, child)[k]) == AllHold(env, es, Rows(env, child)[k])
  {
    var s, r := Survivors(child, es), Rows(env, child)[k];
    SurvivorsAreOld(child, es);
    if AllHold(env, es, r) {
      forall i | 0 <= i < |s| ensures Holds(env, s[i], r) { var j :| 0 <= j < |es| && es[j] == s[i]; }
    }
    if AllHold(env, s, r) {
      forall i | 0 <= i < |es| ensures Holds(env, es[i], r) {
        assert !Lost(child, es, es[i]);
        if es[i].Equals? && es[i].left != es[i].right && !child.Product? {
          ImpliedHolds(env, schemas, child, es, es[i], k);
        } else if es[i].Test? || es[i].left != es[i].right {
          SurvivorIsThere(child, es, es[i]);
          var j :| 0 <= j < |s| && s[j] == es[i];
        }
      }
    }
  }

  lemma SurvivorIsThere(child: Plan, es: seq<Expr>, e: Expr)
    requires Query(child, es) && e in es && (e.Test? || (child.Product? && !Lonely(Equalities(es), Alias(e.left))))
    ensures e in Survivors(child, es)
  {
    var eqs := Equalities(es);
    if e.Test? {
      InEither(if child.Product? then AsExprs(Linked(eqs, eqs)) else [], Tests(es), e);
    } else {
      assert (e.left, e.right) in Linked(eqs, eqs);
      var j :| 0 <= j < |Linked(eqs, eqs)| && Linked(eqs, eqs)[j] == (e.left, e.right);
      assert AsExprs(Linked(eqs, eqs))[j] == e;
      InEither(AsExprs(Linked(eqs, eqs)), Tests(es), e);
    }
  }

  // ---------------------------------------------------------------- a lost equality is missed

  /** A lost equality has both columns in one relation, which survivors do not mention. */
  lemma LostFacts(child: Plan, es: seq<Expr>, e: Expr)
    requires InnerQuery(child, es) && Lost(child, es, e)
    ensures e.left.source == e.right.source && e.left.name != e.right.name && e.left.source in SetOf(Leaves(child))
    ensures forall i :: 0 <= i < |Survivors(child, es)| && Survivors(child, es)[i].Equals? ==>
      Survivors(child, es)[i].left.source != e.left.source && Survivors(child, es)[i].right.source != e.left.source
  {
    var i :| 0 <= i < |es| && es[i] == e;
    assert e.left in Columns(es[i]) && e.right in Columns(es[i]);
    hide Survivors;
    if child.Product? {
      LostInProduct(child, es, e);
    } else {
      assert SetOf([child.source]) == {child.source};
    }
    SurvivorsElsewhere(child, es, e);
  }

  lemma LostInProduct(child: Plan, es: seq<Expr>, e: Expr)
    requires InnerQuery(child, es) && child.Product? && Lost(child, es, e)
    ensures e.left.source == e.right.source
  {
    var eqs := Equalities(es);
    var j :| 0 <= j < |eqs| && eqs[j] == (e.left, e.right);
    assert Touches(eqs[j], Alias(e.left));
    SameAlias(child.children, eqs, Relation(e.left.source), Relation(e.right.source));
  }

  lemma SurvivorsElsewhere(child: Plan, es: seq<Expr>, e: Expr)
    requires InnerQuery(child, es) && Lost(child, es, e)
    ensures forall i :: 0 <= i < |Survivors(child, es)| && Survivors(child, es)[i].Equals? ==>
      Survivors(child, es)[i].left.source != e.left.source && Survivors(child, es)[i].right.source != e.left.source
  {
    var eqs := Equalities(es);
    if child.Product? {
      LostIsLonely(child, es, e);
      LinkedElsewhere(eqs, e.left.source);
    }
    hide *;
    SurvivingEqualities(child, es);
  }

  lemma LostIsLonely(child: Plan, es: seq<Expr>, e: Expr)
    requires child.Product? && Lost(child, es, e)
    ensures Lonely(Equalities(es), e.left.source.alias)
  {
  }

  /** The surviving equalities are the linked ones. */
  lemma SurvivingEqualities(child: Plan, es: seq<Expr>)
    ensures forall i :: 0 <= i < |Survivors(child, es)| && Survivors(child, es)[i].Equals? ==>
      child.Product?
        && (Survivors(child, es)[i].left, Survivors(child, es)[i].right) in Linked(Equalities(es), Equalities(es))
  {
    var eqs := Equalities(es);
    hide Linked, Equalities, Tests;
    if child.Product? {
      var a := AsExprs(Linked(eqs, eqs));
      assert Survivors(child, es) == a + Tests(es);
    }
  }

  lemma LinkedElsewhere(eqs: seq<Equality>, src: Source)
    requires Lonely(eqs, src.alias)
    ensures forall i :: 0 <= i < |Linked(eqs, eqs)| ==>
      Linked(eqs, eqs)[i].0.source != src && Linked(eqs, eqs)[i].1.source != src
  {
    var linked := Linked(eqs, eqs);
    forall i | 0 <= i < |linked| ensures linked[i].0.source != src && linked[i].1.source != src {
      var m :| 0 <= m < |eqs| && eqs[m] == linked[i];
      assert Touches(eqs[m], Alias(linked[i].1));
    }
  }

  lemma LostIn(child: Plan, es: seq<Expr>, e: Expr)
    requires Lost(child, es, e)
    ensures e in es && e.Equals? && e.left != e.right
  {
  }

  lemma LostIsMissed(schemas: Schemas, child: Plan, es: seq<Expr>, p: Plan, e: Expr) returns (env: Env)
    requires Query(child, es) && TypedQuery(schemas, child, es) && Rewritten(child, es, p) && Lost(child, es, e)
    ensures Filled(env, schemas) && multiset(Rows(env, p)) != multiset(Rows(env, Select(child, es)))
  {
    if InnerQuery(child, es) {
      env := InnerMissed(schemas, child, es, p, e);
    } else {
      env := OuterMissed(schemas, child, es, p, e);
    }
  }

  /** With a tuple that differs in the lost column only. */
  lemma InnerMissed(schemas: Schemas, child: Plan, es: seq<Expr>, p: Plan, e: Expr) returns (env: Env)
    requires InnerQuery(child, es) && Typed(schemas, es) && Rewritten(child, es, p) && Lost(child, es, e)
    ensures Filled(env, schemas) && multiset(Rows(env, p)) != multiset(Rows(env, Select(child, es)))
  {
    hide *;
    LostIn(child, es, e);
    var srcs, marked, s := Leaves(child), {e.left}, Survivors(child, es);
    env := MarkedTables(schemas, marked, srcs);
    LostFacts(child, es, e);
    SurvivorsAreOld(child, es);
    QueryLocal(child, es);
    MembersLocal(es, s, SetOf(srcs));
    MembersTyped(schemas, es, s);
    MarkedIsFilled(schemas, marked, srcs);
    MarkedRowOccurs(schemas, marked, srcs);
    MarkedRowMeets(schemas, marked, srcs, s);
    MarkedRowFails(env, schemas, marked, srcs, es, e);
    QueryLeaves(child, es);
    SelectAlone(child, es);
    RewrittenShape(child, es, p);
    CountApart(env, p, Select(child, es), s, MarkedRow(schemas, marked, srcs));
  }

  lemma MembersTyped(schemas: Schemas, es: seq<Expr>, es': seq<Expr>)
    requires Typed(schemas, es) && forall i :: 0 <= i < |es'| ==> es'[i] in es
    ensures Typed(schemas, es')
  {
    forall i | 0 <= i < |es'| && es'[i].Equals? ensures Comparable(schemas, es'[i].left, es'[i].right) {
      var j :| 0 <= j < |es| && es[j] == es'[i];
    }
  }

  /** A row that occurs in one plan and meets not all conditions of another. */
  lemma CountApart(env: Env, p: Plan, q: Plan, es: seq<Expr>, r: Row)
    requires Inner(p) && Inner(q) && Distinct(Leaves(q))
    requires multiset(Leaves(p)) == multiset(Leaves(q)) && r.Keys == SetOf(Leaves(q))
    requires multiset(Conditions(p)) == multiset(es) && AllHold(env, es, r) && !AllHold(env, Conditions(q), r)
    requires Weight(env, Leaves(q), r) >= 1
    ensures multiset(Rows(env, p)) != multiset(Rows(env, q))
  {
    hide Inner, Leaves, Conditions, Rows, Weight, AllHold, Count;
    EqualBags(Conditions(p), es);
    SameConditions(env, Conditions(p), es, r);
    EqualBags(Leaves(q), Leaves(p));
    assert SetOf(Leaves(p)) == SetOf(Leaves(q));
    WeightPermute(env, Leaves(p), Leaves(q), r);
    RowsCount(env, p, r);
    RowsCount(env, q, r);
    CountIsMultiplicity(Rows(env, p), r);
    CountIsMultiplicity(Rows(env, q), r);
  }

  lemma QueryLocal(child: Plan, es: seq<Expr>)
    requires InnerQuery(child, es)
    ensures Local(es, SetOf(Leaves(child)))
  {
  }

  // ---------------------------------------------------------------- equalities over an outer join

  /** A tuple, or its stand-in. */
  function TupleOrPad(schemas: Schemas, marked: set<Column>, src: Source, present: bool): Tuple {
    if present then MarkedTuple(schemas, marked, src) else PadTuple(SchemaOf(schemas, src.table))
  }

  function OuterRow(schemas: Schemas, marked: set<Column>, l: Source, r: Source, left: bool, right: bool): Row {
    map[l := TupleOrPad(schemas, marked, l, left), r := TupleOrPad(schemas, marked, r, right)]
  }

  /** One tuple on the left or none, one on the right or none; every test succeeds. */
  function OuterTables(schemas: Schemas, marked: set<Column>, l: Source, r: Source, left: bool, right: bool): Env {
    Env(map[l.table := if left then [MarkedTuple(schemas, marked, l)] else [],
            r.table := if right then [MarkedTuple(schemas, marked, r)] else []], schemas, (_, _) => true)
  }

  lemma OuterLookup(schemas: Schemas, marked: set<Column>, l: Source, r: Source, left: bool, right: bool, c: Column)
    requires l != r && c.source in {l, r} && TypeOf(schemas, c).Some?
    ensures var t := TypeOf(schemas, c).value;
      Lookup(OuterRow(schemas, marked, l, r, left, right), c) ==
        Some(if (if c.source == l then left else right) then Mark(t, c in marked) else StandIn(t))
  {
    assert c == Column(c.source, c.name);
  }

  lemma OneSide(env: Env, src: Source, ts: seq<Tuple>)
    requires TableOf(env, src.table) == ts && |ts| <= 1
    ensures Rows(env, Relation(src)) == if ts == [] then [] else [map[src := ts[0]]]
    ensures Pad(env, Leaves(Relation(src))) == map[src := PadTuple(SchemaOf(env.schemas, src.table))]
  {
    if ts != [] {
      ScanOne(src, ts[0]);
      assert ts == [ts[0]];
    }
    var nobody: seq<Source> := [];
    assert Leaves(Relation(src)) == [src] && [src][1..] == nobody;
  }

  /** The outer join of these tables has one row. */
  lemma OneOuterRow(schemas: Schemas, marked: set<Column>, child: Plan, left: bool, right: bool)
    requires IsOuterJoin(child) && (left || (right && child.FullOuter?)) && (left && right ==> child.LeftOuter?)
    requires var l, r := child.left.source, child.right.source;
      left && right ==>
        AllHold(OuterTables(schemas, marked, l, r, left, right), AsExprs(child.on),
                OuterRow(schemas, marked, l, r, left, right))
    ensures var l, r := child.left.source, child.right.source;
      Rows(OuterTables(schemas, marked, l, r, left, right), child) == [OuterRow(schemas, marked, l, r, left, right)]
  {
    var l, r := child.left.source, child.right.source;
    var env, row := OuterTables(schemas, marked, l, r, left, right), OuterRow(schemas, marked, l, r, left, right);
    var a, b, padl, padr := SideRows(schemas, marked, child, left, right);
    hide OuterTables, OuterRow, Pad, Leaves, AllHold;
    OneLeftRow(env, child.on, a, b, padr);
    if child.FullOuter? { OneUnmatchedRow(env, child.on, a, b, padl); }
  }

  lemma SideRows(schemas: Schemas, marked: set<Column>, child: Plan, left: bool, right: bool)
    returns (a: seq<Row>, b: seq<Row>, padl: Row, padr: Row)
    requires IsOuterJoin(child) && (left || right)
    ensures var l, r := child.left.source, child.right.source;
      var env, row := OuterTables(schemas, marked, l, r, left, right), OuterRow(schemas, marked, l, r, left, right);
      && a == Rows(env, child.left) && b == Rows(env, child.right)
      && padl == Pad(env, Leaves(child.left)) && padr == Pad(env, Leaves(child.right))
      && |a| == (if left then 1 else 0) && |b| == (if right then 1 else 0)
      && (left ==> row == a[0] + if right then b[0] else padr) && (!left ==> row == padl + b[0])
  {
    var l, r := child.left.source, child.right.source;
    var env := OuterTables(schemas, marked, l, r, left, right);
    assert child.left == Relation(l) && child.right == Relation(r);
    SideTables(schemas, marked, l, r, left, right);
    RowOfSides(schemas, marked, l, r, left, right);
    hide *;
    OneSide(env, l, if left then [MarkedTuple(schemas, marked, l)] else []);
    OneSide(env, r, if right then [MarkedTuple(schemas, marked, r)] else []);
    a, b := Rows(env, child.left), Rows(env, child.right);
    padl, padr := Pad(env, Leaves(child.left)), Pad(env, Leaves(child.right));
  }

  lemma SideTables(schemas: Schemas, marked: set<Column>, l: Source, r: Source, left: bool, right: bool)
    requires l.table != r.table
    ensures var env := OuterTables(schemas, marked, l, r, left, right);
      && env.schemas == schemas
      && TableOf(env, l.table) == (if left then [MarkedTuple(schemas, marked, l)] else [])
      && TableOf(env, r.table) == (if right then [MarkedTuple(schemas, marked, r)] else [])
  {
  }

  lemma RowOfSides(schemas: Schemas, marked: set<Column>, l: Source, r: Source, left: bool, right: bool)
    requires l != r
    ensures OuterRow(schemas, marked, l, r, left, right) ==
      map[l := if left then MarkedTuple(schemas, marked, l) else PadTuple(SchemaOf(schemas, l.table))]
      + map[r := if right then MarkedTuple(schemas, marked, r) else PadTuple(SchemaOf(schemas, r.table))]
  {
  }

  lemma OneLeftRow(env: Env, on: seq<Equality>, a: seq<Row>, b: seq<Row>, pad: Row)
    requires |a| <= 1 && |b| <= 1 && (|a| == |b| == 1 ==> AllHold(env, AsExprs(on), a[0] + b[0]))
    ensures LeftRows(env, on, a, b, pad) == if a == [] then [] else [a[0] + if b == [] then pad else b[0]]
  {
    var none: seq<Row> := [];
    if a != [] {
      assert a[1..] == none;
      if b != [] {
        assert Extend(a[0], b) == [a[0] + b[0]];
        FilterOne(env, AsExprs(on), a[0] + b[0]);
      }
    }
  }

  lemma OneUnmatchedRow(env: Env, on: seq<Equality>, a: seq<Row>, b: seq<Row>, pad: Row)
    requires |b| <= 1 && (a == [] || b == [])
    ensures UnmatchedRows(env, on, a, b, pad) == if b == [] then [] else [pad + b[0]]
  {
    var none: seq<Row> := [];
    assert b != [] ==> b[1..] == none;
  }

  /**
   * Witnesses: nothing on the right when an end lies on the left; one tuple on each side, with the values of
   * the classes of ON, for columns on the right of a left join; nothing on the left for a full join.
   */
  lemma OuterMissed(schemas: Schemas, child: Plan, es: seq<Expr>, p: Plan, e: Expr) returns (env: Env)
    requires OuterQuery(child, es) && TypedQuery(schemas, child, es) && Rewritten(child, es, p) && Lost(child, es, e)
    ensures Filled(env, schemas) && multiset(Rows(env, p)) != multiset(Rows(env, Select(child, es)))
  {
    var l, r := child.left.source, child.right.source;
    LostIn(child, es, e);
    var inRight := e.left.source == e.right.source == r;
    var left, right := child.LeftOuter? || !inRight, inRight;
    var marked := if left && right then ClassOf(child.on, e.left) else {e.left};
    var row := OuterRow(schemas, marked, l, r, left, right);
    env := OuterTables(schemas, marked, l, r, left, right);
    ClassIsClosed(child.on, e.left);
    OuterIsFilled(schemas, marked, l, r, left, right);
    hide Typed, OuterTables, OuterRow, ClassOf, Rows, NoneLeaves, Chained, Rewritten, Filled;
    if left && right { OnHolds(env, schemas, marked, child, es); }
    OneOuterRow(schemas, marked, child, left, right);
    OuterRows(env, child, es, p);
    OuterFails(env, schemas, marked, child, es, e, left, right);
    FilterOne(env, Tests(es), row);
    FilterOne(env, es, row);
    SelectIsFilter(env, child, es);
  }

  lemma OuterIsFilled(schemas: Schemas, marked: set<Column>, l: Source, r: Source, left: bool, right: bool)
    ensures var env := OuterTables(schemas, marked, l, r, left, right);
      Filled(env, schemas) && forall id, vs :: env.test(id, vs)
  {
  }

  /** The row of both tuples meets ON when no equality of ON leaves the marked columns. */
  lemma OnHolds(env: Env, schemas: Schemas, marked: set<Column>, child: Plan, es: seq<Expr>)
    requires OuterQuery(child, es) && TypedQuery(schemas, child, es) && NoneLeaves(child.on, marked)
    ensures AllHold(env, AsExprs(child.on),
                    OuterRow(schemas, marked, child.left.source, child.right.source, true, true))
  {
    var l, r, on := child.left.source, child.right.source, AsExprs(child.on);
    OuterLeaves(child);
    forall i | 0 <= i < |on| ensures Holds(env, on[i], OuterRow(schemas, marked, l, r, true, true)) {
      assert on[i].left in Columns(on[i]) && on[i].right in Columns(on[i]);
      OuterLookup(schemas, marked, l, r, true, true, on[i].left);
      OuterLookup(schemas, marked, l, r, true, true, on[i].right);
    }
  }

  lemma OuterFails(env: Env, schemas: Schemas, marked: set<Column>, child: Plan, es: seq<Expr>, e: Expr,
                   left: bool, right: bool)
    requires OuterQuery(child, es) && TypedQuery(schemas, child, es) && e in es && e.Equals?
    requires e.left in marked && e.right !in marked && right == (e.left.source == e.right.source == child.right.source)
    requires right || left
    requires forall id, vs :: env.test(id, vs)
    ensures AllHold(env, Tests(es), OuterRow(schemas, marked, child.left.source, child.right.source, left, right))
    ensures !AllHold(env, es, OuterRow(schemas, marked, child.left.source, child.right.source, left, right))
  {
    var l, r := child.left.source, child.right.source;
    var i :| 0 <= i < |es| && es[i] == e;
    OuterLeaves(child);
    assert e.left in Columns(es[i]) && e.right in Columns(es[i]);
    OuterLookup(schemas, marked, l, r, left, right, e.left);
    OuterLookup(schemas, marked, l, r, left, right, e.right);
    hide OuterRow, Lookup, TypeOf;
    assert !Holds(env, es[i], OuterRow(schemas, marked, l, r, left, right));
  }

  lemma SelectIsFilter(env: Env, child: Plan, es: seq<Expr>)
    ensures Rows(env, Select(child, es)) == Filter(env, es, Rows(env, child))
  {
  }

  lemma OuterLeaves(child: Plan)
    requires IsOuterJoin(child)
    ensures SetOf(Leaves(child)) == {child.left.source, child.right.source}
  {
    assert Leaves(child) == [child.left.source] + [child.right.source];
  }

  /** Every row of a left join meets ON, or has the stand-ins on its right. */
  lemma {:induction false} MatchedOrPadded(env: Env, on: seq<Equality>, a: seq<Row>, b: seq<Row>, pad: Row)
    ensures forall i :: 0 <= i < |LeftRows(env, on, a, b, pad)| ==>
      var r := LeftRows(env, on, a, b, pad)[i];
      AllHold(env, AsExprs(on), r) || exists k :: 0 <= k < |a| && r == a[k] + pad
  {
    if a != [] {
      var matches, rest := Filter(env, AsExprs(on), Extend(a[0], b)), LeftRows(env, on, a[1..], b, pad);
      var all := LeftRows(env, on, a, b, pad);
      FilterHolds(env, AsExprs(on), Extend(a[0], b));
      MatchedOrPadded(env, on, a[1..], b, pad);
      hide AllHold, LeftRows;
      var n := if matches == [] then 1 else |matches|;
      forall i | 0 <= i < |all|
        ensures AllHold(env, AsExprs(on), all[i]) || exists k :: 0 <= k < |a| && all[i] == a[k] + pad
      {
        if i >= n && !AllHold(env, AsExprs(on), all[i]) {
          assert all[i] == rest[i - n];
          var k :| 0 <= k < |a[1..]| && rest[i - n] == a[1..][k] + pad;
          assert a[1..][k] == a[k + 1];
        }
      }
    }
  }

  lemma {:induction false} FilterHolds(env: Env, es: seq<Expr>, rows: seq<Row>)
    ensures forall i :: 0 <= i < |Filter(env, es, rows)| ==> AllHold(env, es, Filter(env, es, rows)[i])
  {
    hide AllHold;
    if rows != [] { FilterHolds(env, es, rows[1..]); }
  }

  /** What ON implies holds in matched rows by ON and in padded ones because stand-ins depend on the type only. */
  lemma ImpliedHolds(env: Env, schemas: Schemas, child: Plan, es: seq<Expr>, e: Expr, k: nat)
    requires Query(child, es) && TypedQuery(schemas, child, es) && env.schemas == schemas && e in es
    requires ImpliedByOn(child, e) && k < |Rows(env, child)|
    ensures Holds(env, e, Rows(env, child)[k])
  {
    var src, row := child.right.source, Rows(env, child)[k];
    var a, pad := Rows(env, child.left), Pad(env, Leaves(child.right));
    var i :| 0 <= i < |es| && es[i] == e;
    assert Comparable(schemas, e.left, e.right);
    MatchedOrPadded(env, child.on, a, Rows(env, child.right), pad);
    if AllHold(env, AsExprs(child.on), row) {
      ChainHolds(env, child.on, row, e.left, e.right);
    } else {
      var m :| 0 <= m < |a| && row == a[m] + pad;
      OneRelationPad(env, child.right);
      PadLookup(env, src, a[m], e.left);
      PadLookup(env, src, a[m], e.right);
    }
  }

  lemma OneRelationPad(env: Env, p: Plan)
    requires p.Relation?
    ensures Pad(env, Leaves(p)) == map[p.source := PadTuple(SchemaOf(env.schemas, p.source.table))]
  {
    var nobody: seq<Source> := [];
    assert Leaves(p) == [p.source] && [p.source][1..] == nobody;
  }

  lemma PadLookup(env: Env, src: Source, r: Row, c: Column)
    requires c.source == src && TypeOf(env.schemas, c).Some?
    ensures Lookup(r + map[src := PadTuple(SchemaOf(env.schemas, src.table))], c) ==
      Some(StandIn(TypeOf(env.schemas, c).value))
  {
  }

  /** (A outer join B ON A.x == B.y AND A.x == B.z) AS j. */
  function TwoOnOne(full: bool): Plan {
    var a, b := Source("j", "A"), Source("j", "B");
    var on := [(Column(a, "x"), Column(b, "y")), (Column(a, "x"), Column(b, "z"))];
    if full then FullOuter("j", Relation(a), Relation(b), on) else LeftOuter("j", Relation(a), Relation(b), on)
  }

  /** WHERE j.y == j.z */
  function SameOnRight(): seq<Expr> {
    [Equals(Column(Source("j", "B"), "y"), Column(Source("j", "B"), "z"))]
  }

  lemma TwoOnOneFacts(full: bool)
    ensures Query(TwoOnOne(full), SameOnRight()) && Rewritten(TwoOnOne(full), SameOnRight(), TwoOnOne(full))
    ensures (exists e :: Lost(TwoOnOne(full), SameOnRight(), e)) <==> full
  {
    var a, b, child, es := Source("j", "A"), Source("j", "B"), TwoOnOne(full), SameOnRight();
    var x, y, z := Column(a, "x"), Column(b, "y"), Column(b, "z");
    assert child.left == Relation(a) && child.right == Relation(b) && child.on == [(x, y), (x, z)];
    OuterLeaves(child);
    assert Tests(es) == [];
    RewrittenFrom(child, es, child);
    assert IsPath(child.on, [y, x, z]) by { assert child.on[0] == (x, y) && child.on[1] == (x, z); }
    assert es[0] in es && (full ==> Lost(child, es, es[0]));
  }

  /** The equality is dropped. For a left join nothing is lost, since ON implies it; for a full join it is. */
  lemma DroppedButImplied(schemas: Schemas, full: bool)
    requires TypedQuery(schemas, TwoOnOne(full), SameOnRight())
    ensures Rewritten(TwoOnOne(full), SameOnRight(), TwoOnOne(full))
    ensures
      (forall env | Filled(env, schemas) ::
         multiset(Rows(env, TwoOnOne(full))) == multiset(Rows(env, Select(TwoOnOne(full), SameOnRight()))))
      <==> !full
  {
    TwoOnOneFacts(full);
    hide *;
    BuildJoinsExact(schemas, TwoOnOne(full), SameOnRight(), TwoOnOne(full));
  }
}
