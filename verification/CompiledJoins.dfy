/** What the compiled chain makes of a join plan: which equalities it applies, and when that changes the rows. */
module CompiledJoins {
  import opened Model
  import opened Bags
  import opened Plans
  import opened RowCounts
  import opened Links
  import opened BuildJoins
  import opened Optimizer

  // ---------------------------------------------------------------- products associate

  lemma {:induction false} ExtendCross(a: Row, b: seq<Row>, c: seq<Row>)
    ensures Cross(Extend(a, b), c) == Extend(a, Cross(b, c))
  {
    if b != [] {
      ExtendCross(a, b[1..], c);
      ExtendTwice(a, b[0], c);
      ExtendAppend(a, Extend(b[0], c), Cross(b[1..], c));
      assert Extend(a, b)[0] == a + b[0] && Extend(a, b)[1..] == Extend(a, b[1..]);
    }
  }

  lemma ExtendTwice(a: Row, b: Row, c: seq<Row>)
    ensures Extend(a + b, c) == Extend(a, Extend(b, c))
  {
    forall i | 0 <= i < |c| ensures Extend(a + b, c)[i] == Extend(a, Extend(b, c))[i] { UnionAssociates(a, b, c[i]); }
  }

  lemma UnionAssociates(a: Row, b: Row, c: Row)
    ensures (a + b) + c == a + (b + c)
  {
    var l, r := (a + b) + c, a + (b + c);
    assert l.Keys == r.Keys;
    forall s | s in l ensures l[s] == r[s] {}
  }

  lemma ExtendAppend(a: Row, b: seq<Row>, c: seq<Row>)
    ensures Extend(a, b + c) == Extend(a, b) + Extend(a, c)
  {
  }

  lemma {:induction false} CrossAppend(a: seq<Row>, a': seq<Row>, b: seq<Row>)
    ensures Cross(a + a', b) == Cross(a, b) + Cross(a', b)
  {
    hide Extend;
    if a == [] {
      assert a + a' == a';
    } else {
      CrossAppend(a[1..], a', b);
      Bags.Associate(Extend(a[0], b), Cross(a[1..], b), Cross(a', b));
      assert (a + a')[0] == a[0] && (a + a')[1..] == a[1..] + a';
    }
  }

  /** Nested loops associate, in order. */
  lemma {:induction false} CrossAssociates(a: seq<Row>, b: seq<Row>, c: seq<Row>)
    ensures Cross(Cross(a, b), c) == Cross(a, Cross(b, c))
  {
    if a != [] {
      CrossAssociates(a[1..], b, c);
      CrossAppend(Extend(a[0], b), Cross(a[1..], b), c);
      ExtendCross(a[0], b, c);
    }
  }

  lemma {:induction false} CrossUnit(a: seq<Row>)
    ensures Cross(a, [map[]]) == a
  {
    if a != [] {
      CrossUnit(a[1..]);
      assert a[0] + map[] == a[0];
      assert Extend(a[0], [map[]]) == [a[0]];
      assert a == [a[0]] + a[1..];
    }
  }

  ghost predicate RowsOf(env: Env, ps: seq<Plan>, ms: seq<seq<Row>>) {
    |ps| == |ms| && forall i :: 0 <= i < |ps| ==> ms[i] == Rows(env, ps[i])
  }

  /** The left-deep product of some children and then the others is the product of all. */
  lemma {:induction false} ProductSplit(env: Env, ps: seq<Plan>, ms: seq<seq<Row>>, k: nat)
    requires RowsOf(env, ps, ms) && 0 < k <= |ps|
    ensures Cross(LeftProduct(ms[..k]), ProductRows(env, ps[k..])) == ProductRows(env, ps)
    decreases k
  {
    if k == 1 {
      assert ms[..1] == [ms[0]];
    } else {
      ProductSplit(env, ps, ms, k - 1);
      assert ms[..k][..k - 1] == ms[..k - 1] && ps[k - 1..][1..] == ps[k..];
      CrossAssociates(LeftProduct(ms[..k - 1]), ms[k - 1], ProductRows(env, ps[k..]));
    }
  }

  lemma LeftProductIsProduct(env: Env, ps: seq<Plan>, ms: seq<seq<Row>>)
    requires RowsOf(env, ps, ms) && ps != []
    ensures LeftProduct(ms) == ProductRows(env, ps)
  {
    ProductSplit(env, ps, ms, |ps|);
    assert ms[..|ps|] == ms && ps[|ps|..] == [];
    CrossUnit(LeftProduct(ms));
  }

  // ---------------------------------------------------------------- the rows of the chain

  /** The chain over the children in this order is a join under the equalities between two relations. */
  lemma {:induction false} JoinedIsJoin(env: Env, ps: seq<Plan>, ms: seq<seq<Row>>, srcs: seq<Source>,
                                        eqs: seq<Equality>)
    requires RowsOf(env, ps, ms) && |ps| == |srcs| > 0 && Local(AsExprs(eqs), SetOf(srcs))
    ensures JoinedRows(env, eqs, ms, srcs) == Rows(env, Join(ps, Crossing(eqs)))
  {
    LeftProductIsProduct(env, ps, ms);
    BetweenIsCrossing(eqs, SetOf(srcs));
    hide LeftProduct, ProductRows, Between, Crossing, Filter, AsExprs, SetOf, Local, RowsOf;
  }

  lemma {:induction false} BetweenIsCrossing(eqs: seq<Equality>, srcs: set<Source>)
    requires Local(AsExprs(eqs), srcs)
    ensures Between(eqs, srcs) == Crossing(eqs)
  {
    if eqs != [] {
      var n, es := |eqs| - 1, AsExprs(eqs);
      assert eqs[n].0 in Columns(es[n]) && eqs[n].1 in Columns(es[n]);
      LocalFront(eqs, n, srcs);
      BetweenIsCrossing(eqs[..n], srcs);
    }
  }

  lemma {:induction false} LocalFront(eqs: seq<Equality>, n: nat, srcs: set<Source>)
    requires Local(AsExprs(eqs), srcs) && n <= |eqs|
    ensures Local(AsExprs(eqs[..n]), srcs)
  {
    assert forall i :: 0 <= i < n ==> AsExprs(eqs[..n])[i] == AsExprs(eqs)[i];
  }

  /** Children in another order: the same rows, in another order. */
  lemma JoinInAnyOrder(env: Env, ps: seq<Plan>, qs: seq<Plan>, eqs: seq<Equality>)
    requires multiset(ps) == multiset(qs) && Inner(Join(ps, eqs)) && Distinct(AllLeaves(ps))
    ensures multiset(Rows(env, Join(qs, eqs))) == multiset(Rows(env, Join(ps, eqs)))
  {
    ChildrenPermute(ps, qs);
    var p, q := Join(ps, eqs), Join(qs, eqs);
    EqualBags(AllLeaves(ps), AllLeaves(qs));
    assert SetOf(AllLeaves(qs)) == SetOf(AllLeaves(ps));
    assert Inner(q);
    EqualBags(Conditions(q), Conditions(p));
    EqualBags(Leaves(p), Leaves(q));
    hide Inner, Conditions, Leaves, Rows, AllHold;
    forall r ensures AllHold(env, Conditions(q), r) == AllHold(env, Conditions(p), r) {
      SameConditions(env, Conditions(q), Conditions(p), r);
    }
    SameBag(env, q, p);
  }

  lemma {:induction false} ChildrenPermute(ps: seq<Plan>, qs: seq<Plan>)
    requires multiset(ps) == multiset(qs)
    ensures multiset(AllLeaves(ps)) == multiset(AllLeaves(qs))
    ensures multiset(AllConditions(ps)) == multiset(AllConditions(qs))
    ensures AllInner(ps) ==> AllInner(qs)
  {
    if ps == [] {
      EmptyBag(qs);
    } else {
      var j := TakeOut(ps, 0, qs);
      assert ps[..0] + ps[1..] == ps[1..];
      ChildrenPermute(ps[1..], qs[..j] + qs[j + 1..]);
      LeavesMoved(qs[..j], qs[j], qs[j + 1..]);
      ConditionsMoved(qs[..j], qs[j], qs[j + 1..]);
      InnerMoved(qs[..j], qs[j], qs[j + 1..]);
    }
  }

  lemma {:induction false} LeavesMoved(front: seq<Plan>, p: Plan, back: seq<Plan>)
    ensures multiset(AllLeaves(front + ([p] + back))) == multiset(Leaves(p)) + multiset(AllLeaves(front + back))
  {
    hide Leaves;
    if front == [] {
      assert front + ([p] + back) == [p] + back && front + back == back;
      assert ([p] + back)[1..] == back;
    } else {
      LeavesMoved(front[1..], p, back);
      assert (front + ([p] + back))[1..] == front[1..] + ([p] + back) && (front + back)[1..] == front[1..] + back;
    }
  }

  lemma {:induction false} ConditionsMoved(front: seq<Plan>, p: Plan, back: seq<Plan>)
    ensures multiset(AllConditions(front + ([p] + back))) == multiset(Conditions(p)) +
      multiset(AllConditions(front + back))
  {
    hide Conditions;
    if front == [] {
      assert front + ([p] + back) == [p] + back && front + back == back;
      assert ([p] + back)[1..] == back;
    } else {
      ConditionsMoved(front[1..], p, back);
      assert (front + ([p] + back))[1..] == front[1..] + ([p] + back) && (front + back)[1..] == front[1..] + back;
    }
  }

  lemma {:induction false} InnerMoved(front: seq<Plan>, p: Plan, back: seq<Plan>)
    ensures AllInner(front + ([p] + back)) <==> Inner(p) && AllInner(front + back)
  {
    hide Inner;
    if front == [] {
      assert front + ([p] + back) == [p] + back && front + back == back;
      assert ([p] + back)[1..] == back;
    } else {
      InnerMoved(front[1..], p, back);
      assert (front + ([p] + back))[1..] == front[1..] + ([p] + back) && (front + back)[1..] == front[1..] + back;
    }
  }

  /** Relations under different aliases, some of them below filters, in two orders. */
  ghost predicate Reordered(ps: seq<Plan>, qs: seq<Plan>, eqs: seq<Equality>, srcs: seq<Source>) {
    && multiset(ps) == multiset(qs) && Inner(Join(ps, eqs)) && Distinct(AllLeaves(ps))
    && |qs| == |srcs| > 0 && AllLeaves(qs) == srcs
  }

  lemma ReorderedFacts(ps: seq<Plan>, qs: seq<Plan>, eqs: seq<Equality>, srcs: seq<Source>)
    requires Reordered(ps, qs, eqs, srcs)
    ensures multiset(AllLeaves(ps)) == multiset(srcs) && SetOf(AllLeaves(ps)) == SetOf(srcs)
    ensures Inner(Join(ps, eqs)) && Inner(Join(ps, Crossing(eqs))) && Distinct(AllLeaves(ps))
    ensures Local(AsExprs(eqs), SetOf(srcs)) && Local(AsExprs(Crossing(eqs)), SetOf(srcs))
  {
    ChildrenPermute(ps, qs);
    EqualBags(AllLeaves(ps), srcs);
    CrossingIsLocal(eqs, SetOf(srcs));
  }

  lemma CrossingIsLocal(eqs: seq<Equality>, srcs: set<Source>)
    requires Local(AsExprs(eqs), srcs)
    ensures Local(AsExprs(Crossing(eqs)), srcs)
  {
    BetweenIsCrossing(eqs, srcs);
    BetweenLocal(eqs, srcs);
  }

  /**
   * For every order of the children, the chain hands out the rows of the join under the equalities between two
   * relations, each as often.
   */
  lemma CompiledJoin(env: Env, ps: seq<Plan>, qs: seq<Plan>, eqs: seq<Equality>, ms: seq<seq<Row>>, srcs: seq<Source>)
    requires Reordered(ps, qs, eqs, srcs) && RowsOf(env, qs, ms)
    ensures multiset(JoinedRows(env, eqs, ms, srcs)) == multiset(Rows(env, Join(ps, Crossing(eqs))))
  {
    ReorderedFacts(ps, qs, eqs, srcs);
    JoinedIsJoin(env, qs, ms, srcs, eqs);
    JoinInAnyOrder(env, ps, qs, Crossing(eqs));
  }

  // ---------------------------------------------------------------- the exact condition

  /** The conditions that the rewriters leave below a join concern one column each. */
  ghost predicate OneColumnEach(es: seq<Expr>) {
    forall i :: 0 <= i < |es| && es[i].Equals? ==> es[i].left == es[i].right
  }

  /**
   * For every order of the children: the chain has the rows of the join plan, for all tables of the given
   * schemas and all meanings of the tests, exactly when the columns of each equality inside one relation are
   * linked by a chain of equalities between relations.
   */
  lemma CompiledJoinExact(schemas: Schemas, ps: seq<Plan>, qs: seq<Plan>, eqs: seq<Equality>, srcs: seq<Source>)
    requires Reordered(ps, qs, eqs, srcs) && OneColumnEach(AllConditions(ps)) && Typed(schemas, AsExprs(eqs))
    ensures
      (forall env, ms | Filled(env, schemas) && RowsOf(env, qs, ms) ::
         multiset(JoinedRows(env, eqs, ms, srcs)) == multiset(Rows(env, Join(ps, eqs))))
      <==> InsideChained(eqs)
  {
    if InsideChained(eqs) {
      forall env, ms | Filled(env, schemas) && RowsOf(env, qs, ms)
        ensures multiset(JoinedRows(env, eqs, ms, srcs)) == multiset(Rows(env, Join(ps, eqs)))
      {
        CompiledJoin(env, ps, qs, eqs, ms, srcs);
        CrossingRows(env, ps, eqs);
      }
    } else {
      var i :| 0 <= i < |eqs| && eqs[i].0.source == eqs[i].1.source && !Chained(Crossing(eqs), eqs[i].0, eqs[i].1);
      var env := MissedInside(schemas, ps, qs, eqs, srcs, eqs[i]);
      var ms := RowsOfAll(env, qs);
      CompiledJoin(env, ps, qs, eqs, ms, srcs);
    }
  }

  lemma CrossingRows(env: Env, ps: seq<Plan>, eqs: seq<Equality>)
    requires InsideChained(eqs)
    ensures Rows(env, Join(ps, Crossing(eqs))) == Rows(env, Join(ps, eqs))
  {
    var rows := ProductRows(env, ps);
    forall i | 0 <= i < |rows|
      ensures AllHold(env, AsExprs(Crossing(eqs)), rows[i]) == AllHold(env, AsExprs(eqs), rows[i])
    {
      CrossingSuffices(env, eqs, rows[i]);
    }
    FilterSame(env, AsExprs(Crossing(eqs)), AsExprs(eqs), rows);
  }

  lemma RowsOfAll(env: Env, ps: seq<Plan>) returns (ms: seq<seq<Row>>)
    ensures RowsOf(env, ps, ms)
  {
    ms := seq(|ps|, i requires 0 <= i < |ps| => Rows(env, ps[i]));
  }

  /** Tables for which the chain hands out a row that an unlinked inside equality forbids. */
  lemma MissedInside(schemas: Schemas, ps: seq<Plan>, qs: seq<Plan>, eqs: seq<Equality>, srcs: seq<Source>,
                     eq: Equality) returns (env: Env)
    requires Reordered(ps, qs, eqs, srcs) && OneColumnEach(AllConditions(ps)) && Typed(schemas, AsExprs(eqs))
    requires eq in eqs && !Chained(Crossing(eqs), eq.0, eq.1)
    ensures Filled(env, schemas)
    ensures multiset(Rows(env, Join(ps, Crossing(eqs)))) != multiset(Rows(env, Join(ps, eqs)))
  {
    hide *;
    var marked, e := ClassOf(Crossing(eqs), eq.0), Equals(eq.0, eq.1);
    env := MarkedTables(schemas, marked, srcs);
    var r := MarkedRow(schemas, marked, srcs);
    ReorderedFacts(ps, qs, eqs, srcs);
    AsExprIn(eq, eqs);
    UnlinkedFails(env, schemas, srcs, AsExprs(eqs), eqs, e);
    CrossingMeets(schemas, marked, srcs, eqs);
    MarkedIsFilled(schemas, marked, srcs);
    MarkedRowOccurs(schemas, marked, srcs);
    FiltersPass(schemas, marked, srcs, AllConditions(ps), r);
    WeightPermute(env, srcs, AllLeaves(ps), r);
    JoinCount(env, ps, Crossing(eqs), r);
    JoinCount(env, ps, eqs, r);
  }

  lemma CrossingMeets(schemas: Schemas, marked: set<Column>, srcs: seq<Source>, eqs: seq<Equality>)
    requires Typed(schemas, AsExprs(eqs)) && Local(AsExprs(Crossing(eqs)), SetOf(srcs))
    requires NoneLeaves(Crossing(eqs), marked)
    ensures AllHold(MarkedTables(schemas, marked, srcs), AsExprs(Crossing(eqs)), MarkedRow(schemas, marked, srcs))
  {
    var crossing := AsExprs(Crossing(eqs));
    forall i | 0 <= i < |crossing| ensures crossing[i] in AsExprs(eqs) { AsExprIn(Crossing(eqs)[i], eqs); }
    MembersTyped(schemas, AsExprs(eqs), crossing);
    MarkedRowMeets(schemas, marked, srcs, crossing);
  }

  lemma FiltersPass(schemas: Schemas, marked: set<Column>, srcs: seq<Source>, es: seq<Expr>, r: Row)
    requires OneColumnEach(es)
    ensures AllHold(MarkedTables(schemas, marked, srcs), es, r)
  {
  }

  lemma JoinCount(env: Env, ps: seq<Plan>, eqs: seq<Equality>, r: Row)
    requires Inner(Join(ps, eqs)) && Distinct(AllLeaves(ps))
    requires r.Keys == SetOf(AllLeaves(ps)) && AllHold(env, AllConditions(ps), r)
    ensures multiset(Rows(env, Join(ps, eqs)))[r] == if AllHold(env, AsExprs(eqs), r) then Weight(env, AllLeaves(ps), r)
      else 0
  {
    var p := Join(ps, eqs);
    RowsCount(env, p, r);
    CountIsMultiplicity(Rows(env, p), r);
    HoldBoth(env, AllConditions(ps), AsExprs(eqs), r);
  }

  // ---------------------------------------------------------------- rewriting and compilation together

  /** What the execution of a rewritten FROM clause applies: of each join, the equalities between two relations. */
  ghost function Applied(p: Plan): Plan {
    match p
    case Join(ps, eqs) => Join(ps, Crossing(eqs))
    case Product(groups) => Product(AllApplied(groups))
    case Select(child, es) => Select(Applied(child), es)
    case _ => p
  }

  ghost function AllApplied(ps: seq<Plan>): seq<Plan> {
    if ps == [] then [] else [Applied(ps[0])] + AllApplied(ps[1..])
  }

  /** A test, or an equality between two relations. */
  predicate Crosses(e: Expr) {
    e.Test? || e.left.source != e.right.source
  }

  ghost predicate OnlyCrossing(all: seq<Expr>, es: seq<Expr>) {
    (forall e :: e in es <==> e in all && Crosses(e))
  }

  lemma AppliedGroup(g: Plan, eqs: seq<Equality>)
    requires IsGroup(g, eqs) && Inner(g)
    ensures Inner(Applied(g)) && Leaves(Applied(g)) == Leaves(g) && OnlyCrossing(Conditions(g), Conditions(Applied(g)))
  {
    if g.Join? {
      RelationLeaves(g.joined);
      CrossingIsLocal(g.equalities, SetOf(AllLeaves(g.joined)));
      AppliedJoin(g.equalities);
      var none: seq<Expr> := [];
      assert none + AsExprs(Crossing(g.equalities)) == AsExprs(Crossing(g.equalities));
      assert none + AsExprs(g.equalities) == AsExprs(g.equalities);
    }
  }

  lemma AppliedJoin(eqs: seq<Equality>)
    ensures OnlyCrossing(AsExprs(eqs), AsExprs(Crossing(eqs)))
  {
    var crossing := Crossing(eqs);
    forall e | e in AsExprs(crossing) ensures e in AsExprs(eqs) && Crosses(e) {
      var i :| 0 <= i < |crossing| && AsExprs(crossing)[i] == e;
      AsExprIn(crossing[i], eqs);
    }
    forall e | e in AsExprs(eqs) && Crosses(e) ensures e in AsExprs(crossing) {
      var i :| 0 <= i < |eqs| && AsExprs(eqs)[i] == e;
      AsExprIn(eqs[i], crossing);
    }
  }

  lemma {:induction false} AppliedGroups(groups: seq<Plan>, eqs: seq<Equality>)
    requires AllGroups(eqs, groups) && AllInner(groups)
    ensures AllInner(AllApplied(groups)) && AllLeaves(AllApplied(groups)) == AllLeaves(groups)
    ensures OnlyCrossing(AllConditions(groups), AllConditions(AllApplied(groups)))
  {
    if groups != [] {
      hide IsGroup, Inner, Leaves, Conditions, Applied;
      AppliedGroup(groups[0], eqs);
      AppliedGroups(groups[1..], eqs);
      var applied := AllApplied(groups);
      assert applied[0] == Applied(groups[0]) && applied[1..] == AllApplied(groups[1..]);
    }
  }

  /** The rewritten FROM clause loses the equalities inside relations when it is executed. */
  lemma AppliedFrom(child: Plan, es: seq<Expr>, from: Plan)
    requires InnerQuery(child, es) && RewrittenChild(child, es, from)
    ensures Inner(from) && Inner(Applied(from)) && Leaves(Applied(from)) == Leaves(from)
    ensures OnlyCrossing(Conditions(from), Conditions(Applied(from)))
  {
    ChildRewritten(child, es, from);
    if from.Product? && child.Product? {
      AppliedGroups(from.children, Equalities(es));
    } else if child.Product? {
      AppliedGroup(from, Equalities(es));
    }
  }

  /** The conditions under which a query's rows come out of the execution. */
  lemma AppliedQuery(child: Plan, es: seq<Expr>, p: Plan)
    requires InnerQuery(child, es) && Rewritten(child, es, p)
    ensures Inner(Applied(p)) && multiset(Leaves(Applied(p))) == multiset(Leaves(child))
    ensures OnlyCrossing(es, Conditions(Applied(p)))
  {
    var from :| RewrittenChild(child, es, from) && p == if Tests(es) == [] then from else Select(from, Tests(es));
    hide Rewritten, RewrittenChild, InnerQuery, Inner, Leaves, Conditions, Survivors, Local, Crosses;
    AppliedFrom(child, es, from);
    ChildRewritten(child, es, from);
    QueryLocal(child, es);
    MembersLocal(es, Tests(es), SetOf(Leaves(child)));
    WithTests(Applied(from), Tests(es), Leaves(child));
    CrossingSurvives(child, es);
    assert Applied(p) == if Tests(es) == [] then Applied(from) else Select(Applied(from), Tests(es));
    EqualBags(Conditions(from) + Tests(es), Survivors(child, es));
    CrossingTogether(es, Tests(es), Conditions(from), Conditions(Applied(from)), Survivors(child, es));
  }

  lemma CrossingTogether(es: seq<Expr>, ts: seq<Expr>, before: seq<Expr>, after: seq<Expr>, survivors: seq<Expr>)
    requires OnlyCrossing(before, after) && (forall e :: e in before + ts <==> e in survivors)
    requires (forall i :: 0 <= i < |ts| ==> ts[i].Test?) && forall e :: Crosses(e) ==> (e in survivors <==> e in es)
    ensures OnlyCrossing(es, after + ts)
  {
    forall e ensures e in after + ts <==> e in es && Crosses(e) {
      InEither(after, ts, e);
      InEither(before, ts, e);
    }
  }

  /** BuildJoins keeps every test and every equality between two relations. */
  lemma CrossingSurvives(child: Plan, es: seq<Expr>)
    requires InnerQuery(child, es)
    ensures forall e :: Crosses(e) ==> (e in Survivors(child, es) <==> e in es)
  {
    SurvivorsAreOld(child, es);
    forall e | Crosses(e) && e in es ensures e in Survivors(child, es) {
      if e.Equals? { CrossingIsLinked(child, es, e); }
      SurvivorIsThere(child, es, e);
    }
  }

  lemma OneSource(child: Plan, es: seq<Expr>, e: Expr)
    requires child.Relation? && Local(es, SetOf(Leaves(child))) && e in es && e.Equals?
    ensures e.left.source == e.right.source
  {
    var i :| 0 <= i < |es| && es[i] == e;
    assert e.left in Columns(es[i]) && e.right in Columns(es[i]);
    assert Leaves(child) == [child.source];
  }

  lemma CrossingIsLinked(child: Plan, es: seq<Expr>, e: Expr)
    requires InnerQuery(child, es) && e in es && e.Equals? && e.left.source != e.right.source
    ensures child.Product? && !Lonely(Equalities(es), Alias(e.left))
  {
    if child.Relation? {
      OneSource(child, es, e);
    } else {
      var eqs := Equalities(es);
      var j :| 0 <= j < |eqs| && eqs[j] == (e.left, e.right);
      assert Touches(eqs[j], Alias(e.left));
      if Alias(e.left) == Alias(e.right) {
        SameAlias(child.children, eqs, Relation(e.left.source), Relation(e.right.source));
      }
    }
  }

  /** Conditions that are the crossing ones of `es` hold when the tests and the equalities between relations do. */
  lemma {:induction false} CrossingHold(env: Env, es: seq<Expr>, crossing: seq<Expr>, r: Row)
    requires OnlyCrossing(es, crossing)
    ensures AllHold(env, crossing, r) <==>
      AllHold(env, AsExprs(Crossing(Equalities(es))), r) && AllHold(env, Tests(es), r)
  {
    var between := AsExprs(Crossing(Equalities(es)));
    AppliedJoin(Equalities(es));
    forall e ensures e in between + Tests(es) <==> e in crossing {
      InEither(between, Tests(es), e);
      EqualityIn(es, e);
    }
    hide *;
    SameConditions(env, between + Tests(es), crossing, r);
    HoldBoth(env, between, Tests(es), r);
  }

  lemma EqualityIn(es: seq<Expr>, e: Expr)
    ensures e in AsExprs(Equalities(es)) <==> e in es && e.Equals?
    ensures e in Tests(es) <==> e in es && e.Test?
  {
    var eqs := Equalities(es);
    if e in AsExprs(eqs) { var i :| 0 <= i < |eqs| && AsExprs(eqs)[i] == e; }
    if e in es && e.Equals? { AsExprIn((e.left, e.right), eqs); }
  }

  lemma EqualitiesLocal(es: seq<Expr>, srcs: set<Source>)
    requires Local(es, srcs)
    ensures Local(AsExprs(Equalities(es)), srcs)
  {
    forall i | 0 <= i < |AsExprs(Equalities(es))| ensures AsExprs(Equalities(es))[i] in es {
      EqualityIn(es, AsExprs(Equalities(es))[i]);
    }
    hide Equalities, AsExprs;
    MembersLocal(es, AsExprs(Equalities(es)), srcs);
  }

  lemma AllOfQuery(env: Env, es: seq<Expr>, r: Row)
    ensures AllHold(env, es, r) <==> AllHold(env, AsExprs(Equalities(es)), r) && AllHold(env, Tests(es), r)
  {
    var eqs := AsExprs(Equalities(es));
    forall e ensures e in eqs + Tests(es) <==> e in es {
      InEither(eqs, Tests(es), e);
      EqualityIn(es, e);
    }
    hide *;
    SameConditions(env, eqs + Tests(es), es, r);
    HoldBoth(env, eqs, Tests(es), r);
  }

  /**
   * The whole way of a query over relations, rewritten by BuildJoins and compiled: it returns its rows, for all
   * tables of the given schemas and all meanings of the tests, exactly when the columns of each equality inside
   * one relation are linked by a chain of equalities between relations. This takes in what BuildJoins drops and
   * what the compilation drops.
   */
  lemma QueryExact(schemas: Schemas, child: Plan, es: seq<Expr>, p: Plan)
    requires InnerQuery(child, es) && Typed(schemas, es) && Rewritten(child, es, p)
    ensures
      (forall env | Filled(env, schemas) ::
         multiset(Rows(env, Applied(p))) == multiset(Rows(env, Select(child, es))))
      <==> InsideChained(Equalities(es))
  {
    AppliedQuery(child, es, p);
    QueryLeaves(child, es);
    QueryLocal(child, es);
    SelectAlone(child, es);
    if InsideChained(Equalities(es)) {
      forall env | Filled(env, schemas)
        ensures multiset(Rows(env, Applied(p))) == multiset(Rows(env, Select(child, es)))
      {
        hide *;
        forall r ensures AllHold(env, Conditions(Applied(p)), r) == AllHold(env, Conditions(Select(child, es)), r) {
          CrossingHold(env, es, Conditions(Applied(p)), r);
          AllOfQuery(env, es, r);
          CrossingSuffices(env, Equalities(es), r);
        }
        EqualBags(Leaves(child), Leaves(Applied(p)));
        SameBag(env, Applied(p), Select(child, es));
      }
    } else {
      var env := MissedByQuery(schemas, child, es, p);
    }
  }

  lemma MissedByQuery(schemas: Schemas, child: Plan, es: seq<Expr>, p: Plan) returns (env: Env)
    requires InnerQuery(child, es) && Typed(schemas, es) && Rewritten(child, es, p) && !InsideChained(Equalities(es))
    ensures Filled(env, schemas) && multiset(Rows(env, Applied(p))) != multiset(Rows(env, Select(child, es)))
  {
    var eqs, srcs := Equalities(es), Leaves(child);
    var i :| 0 <= i < |eqs| && eqs[i].0.source == eqs[i].1.source && !Chained(Crossing(eqs), eqs[i].0, eqs[i].1);
    var e, marked := Equals(eqs[i].0, eqs[i].1), ClassOf(Crossing(eqs), eqs[i].0);
    hide *;
    env := MarkedTables(schemas, marked, srcs);
    var r := MarkedRow(schemas, marked, srcs);
    AppliedQuery(child, es, p);
    QueryLeaves(child, es);
    QueryLocal(child, es);
    SelectAlone(child, es);
    UnlinkedFails(env, schemas, srcs, es, eqs, e);
    QueryCrossing(schemas, es, SetOf(srcs));
    CrossingMeets(schemas, marked, srcs, eqs);
    TestsAreTests(es);
    FiltersPass(schemas, marked, srcs, Tests(es), r);
    MarkedIsFilled(schemas, marked, srcs);
    MarkedRowOccurs(schemas, marked, srcs);
    CrossingHold(env, es, Conditions(Applied(p)), r);
    CountApart(env, Applied(p), Select(child, es), Conditions(Applied(p)), r);
  }

  lemma QueryCrossing(schemas: Schemas, es: seq<Expr>, srcs: set<Source>)
    requires Typed(schemas, es) && Local(es, srcs)
    ensures Typed(schemas, AsExprs(Equalities(es))) && Local(AsExprs(Crossing(Equalities(es))), srcs)
  {
    forall i | 0 <= i < |AsExprs(Equalities(es))| ensures AsExprs(Equalities(es))[i] in es {
      EqualityIn(es, AsExprs(Equalities(es))[i]);
    }
    MembersTyped(schemas, es, AsExprs(Equalities(es)));
    EqualitiesLocal(es, srcs);
    CrossingIsLocal(Equalities(es), srcs);
  }

  lemma TestsAreTests(es: seq<Expr>)
    ensures OneColumnEach(Tests(es))
  {
  }

  // ---------------------------------------------------------------- the smallest such query

  /** a.x == b.y AND a.x == a.z, over FROM A a, B b */
  function InsideEqualities(): seq<Equality> {
    var a, b := Source("a", "A"), Source("b", "B");
    [(Column(a, "x"), Column(b, "y")), (Column(a, "x"), Column(a, "z"))]
  }

  function IntegerSchemas(): Schemas {
    map["A" := map["x" := IntColumn, "z" := IntColumn], "B" := map["y" := IntColumn]]
  }

  /** One tuple in each table, with a.z different from a.x and b.y. */
  function OneTupleEach(): Env {
    Env(map["A" := [map["x" := Int(1), "z" := Int(2)]], "B" := [map["y" := Int(1)]]], IntegerSchemas(), (_, _) => true)
  }

  /** The chain hands out a row with a.x == 1 and a.z == 2, which the plan does not have. */
  lemma InsideEqualityDropped()
    ensures var env, eqs, a, b := OneTupleEach(), InsideEqualities(), Source("a", "A"), Source("b", "B");
      && Filled(env, IntegerSchemas()) && Typed(IntegerSchemas(), AsExprs(eqs))
      && JoinedRows(env, eqs, [Rows(env, Relation(a)), Rows(env, Relation(b))], [a, b])
         == [map[a := env.tables["A"][0], b := env.tables["B"][0]]]
      && Rows(env, Join([Relation(a), Relation(b)], eqs)) == []
  {
    var env, eqs, a, b := OneTupleEach(), InsideEqualities(), Source("a", "A"), Source("b", "B");
    var s, t := env.tables["A"][0], env.tables["B"][0];
    OneTupleFacts();
    OneTupleLookups();
    assert map[a := s] + map[b := t] == map[a := s, b := t];
    hide *;
    TwoRelations(env, a, b, eqs, map[a := s], map[b := t]);
  }

  lemma OneTupleFacts()
    ensures var env, a, b := OneTupleEach(), Source("a", "A"), Source("b", "B");
      && "A" in env.tables && "B" in env.tables && |env.tables["A"]| == |env.tables["B"]| == 1
      && Rows(env, Relation(a)) == [map[a := env.tables["A"][0]]]
      && Rows(env, Relation(b)) == [map[b := env.tables["B"][0]]]
      && Filled(env, IntegerSchemas())
  {
    var env := OneTupleEach();
    ScanOne(Source("a", "A"), env.tables["A"][0]);
    ScanOne(Source("b", "B"), env.tables["B"][0]);
  }

  lemma OneTupleLookups()
    ensures var env, eqs, a, b := OneTupleEach(), InsideEqualities(), Source("a", "A"), Source("b", "B");
      var r: Row := map[a := env.tables["A"][0]] + map[b := env.tables["B"][0]];
      && |eqs| == 2 && Typed(IntegerSchemas(), AsExprs(eqs)) && Ends(eqs[0]) <= SetOf([a, b])
      && eqs[0].0.source != eqs[0].1.source && eqs[1].0.source == eqs[1].1.source
      && Lookup(r, eqs[0].0) == Lookup(r, eqs[0].1) && Lookup(r, eqs[1].0) != Lookup(r, eqs[1].1)
  {
    var env, eqs, a, b := OneTupleEach(), InsideEqualities(), Source("a", "A"), Source("b", "B");
    assert Ends(eqs[0]) <= SetOf([a, b]) by { assert [a, b][0] == a && [a, b][1] == b; }
    var r: Row := map[a := env.tables["A"][0]] + map[b := env.tables["B"][0]];
    assert Lookup(r, eqs[1].0) == Some(Int(1)) && Lookup(r, eqs[1].1) == Some(Int(2));
  }

  /** Two relations of one tuple each, under an equality between them and one inside the first. */
  lemma TwoRelations(env: Env, a: Source, b: Source, eqs: seq<Equality>, ra: Row, rb: Row)
    requires Rows(env, Relation(a)) == [ra] && Rows(env, Relation(b)) == [rb]
    requires |eqs| == 2 && Ends(eqs[0]) <= SetOf([a, b])
    requires eqs[0].0.source != eqs[0].1.source && eqs[1].0.source == eqs[1].1.source
    requires Lookup(ra + rb, eqs[0].0) == Lookup(ra + rb, eqs[0].1)
    requires Lookup(ra + rb, eqs[1].0) != Lookup(ra + rb, eqs[1].1)
    ensures JoinedRows(env, eqs, [Rows(env, Relation(a)), Rows(env, Relation(b))], [a, b]) == [ra + rb]
    ensures Rows(env, Join([Relation(a), Relation(b)], eqs)) == []
  {
    hide *;
    TwoProduct(env, a, b, ra, rb);
    BetweenFirst(eqs, SetOf([a, b]));
    OneHolds(env, eqs[0], ra + rb);
    EachHolds(env, eqs, ra + rb, 1);
    FilterOne(env, AsExprs([eqs[0]]), ra + rb);
    FilterOne(env, AsExprs(eqs), ra + rb);
    FiltersOfProduct(env, eqs, [[ra], [rb]], [a, b], [Relation(a), Relation(b)]);
  }

  lemma EachHolds(env: Env, eqs: seq<Equality>, r: Row, i: nat)
    requires i < |eqs|
    ensures AllHold(env, AsExprs(eqs), r) ==> Lookup(r, eqs[i].0) == Lookup(r, eqs[i].1)
  {
    if AllHold(env, AsExprs(eqs), r) { assert Holds(env, AsExprs(eqs)[i], r); }
  }

  lemma OneHolds(env: Env, eq: Equality, r: Row)
    requires Lookup(r, eq.0) == Lookup(r, eq.1)
    ensures AllHold(env, AsExprs([eq]), r)
  {
  }

  lemma FiltersOfProduct(env: Env, eqs: seq<Equality>, ms: seq<seq<Row>>, srcs: seq<Source>, ps: seq<Plan>)
    requires |ms| == |srcs| > 0
    ensures JoinedRows(env, eqs, ms, srcs) == Filter(env, AsExprs(Between(eqs, SetOf(srcs))), LeftProduct(ms))
    ensures Rows(env, Join(ps, eqs)) == Filter(env, AsExprs(eqs), ProductRows(env, ps))
  {
    hide Filter, AsExprs, Between, LeftProduct, ProductRows, SetOf, AllHold, Leaves;
  }

  lemma TwoProduct(env: Env, a: Source, b: Source, ra: Row, rb: Row)
    requires Rows(env, Relation(a)) == [ra] && Rows(env, Relation(b)) == [rb]
    ensures LeftProduct([[ra], [rb]]) == ProductRows(env, [Relation(a), Relation(b)]) == [ra + rb]
  {
    var ms := [[ra], [rb]];
    assert ms[..1] == [[ra]];
    OneRow(ra, rb);
    LeftProductIsProduct(env, [Relation(a), Relation(b)], ms);
  }

  lemma OneRow(a: Row, b: Row)
    ensures Cross([a], [b]) == [a + b]
  {
    var none: seq<Row> := [];
    assert [a][1..] == none && [b][1..] == none;
  }

  lemma BetweenFirst(eqs: seq<Equality>, srcs: set<Source>)
    requires |eqs| == 2 && Ends(eqs[0]) <= srcs && eqs[0].0.source != eqs[0].1.source
    requires eqs[1].0.source == eqs[1].1.source
    ensures Between(eqs, srcs) == [eqs[0]]
  {
    var none: seq<Equality> := [];
    assert eqs[..1][..0] == none && eqs[..1][0] == eqs[0];
    assert Between(eqs[..1], srcs) == [eqs[0]];
  }
}
