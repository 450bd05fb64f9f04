/** The rewriter that moves conditions on one column down to their relation. */
module PushSelection {
  import opened Model
  import opened Bags
  import opened Plans
  import opened Links

  type Simple = map<Source, seq<Expr>>

  /** A condition on a single column can be pushed. */
  predicate IsSimple(e: Expr) {
    match e
    case Equals(a, b) => a == b
    case Test(_, cs) => cs != [] && forall i :: 0 <= i < |cs| ==> cs[i] == cs[0]
  }

  function SourceOf(e: Expr): Source
    requires IsSimple(e)
  {
    match e
    case Equals(a, _) => a.source
    case Test(_, cs) => cs[0].source
  }

  lemma SimpleIsOneColumn(e: Expr)
    ensures IsSimple(e) <==> |Columns(e)| == 1
    ensures IsSimple(e) ==> forall c :: c in Columns(e) ==> c.source == SourceOf(e)
  {
    match e
    case Equals(a, b) =>
      if a == b { assert Columns(e) == {a}; } else { assert |{a, b}| == 2; }
    case Test(_, cs) =>
      if IsSimple(e) {
        assert Columns(e) == {cs[0]};
      } else if cs != [] {
        var i :| 0 <= i < |cs| && cs[i] != cs[0];
        TwoElements(Columns(e), cs[0], cs[i]);
      } else {
        assert Columns(e) == {};
      }
  }

  lemma TwoElements(s: set<Column>, a: Column, b: Column)
    requires a in s && b in s && a != b
    ensures |s| >= 2
  {
    assert {a, b} <= s;
    assert s == {a, b} + (s - {a, b});
  }

  // ---------------------------------------------------------------- what the visitor builds

  predicate SelectFree(p: Plan)
    decreases p
  {
    match p
    case Relation(_) => true
    case Product(children) => AllSelectFree(children)
    case Select(_, _) => false
    case Join(children, _) => AllSelectFree(children)
    case LeftOuter(_, l, r, _) => SelectFree(l) && SelectFree(r)
    case FullOuter(_, l, r, _) => SelectFree(l) && SelectFree(r)
  }

  predicate AllSelectFree(ps: seq<Plan>)
    decreases ps
  {
    ps == [] || (SelectFree(ps[0]) && AllSelectFree(ps[1..]))
  }

  /** The plan with the collected conditions on its relations. */
  function Pushed(p: Plan, m: Simple): Plan
    decreases p
  {
    match p
    case Relation(src) => if src in m then Select(p, m[src]) else p
    case Product(children) => Product(AllPushed(children, m))
    case Select(child, es) => Select(Pushed(child, m), es)
    case Join(children, eqs) => Join(AllPushed(children, m), eqs)
    case LeftOuter(alias, l, r, on) => LeftOuter(alias, Pushed(l, m), Pushed(r, m), on)
    case FullOuter(alias, l, r, on) => FullOuter(alias, Pushed(l, m), Pushed(r, m), on)
  }

  function AllPushed(ps: seq<Plan>, m: Simple): (qs: seq<Plan>)
    ensures |qs| == |ps|
    decreases ps
  {
    if ps == [] then [] else [Pushed(ps[0], m)] + AllPushed(ps[1..], m)
  }

  function Collected(es: seq<Expr>): Simple {
    if es == [] then map[]
    else
      var m, e := Collected(es[..|es| - 1]), es[|es| - 1];
      if IsSimple(e) then m[SourceOf(e) := (if SourceOf(e) in m then m[SourceOf(e)] else []) + [e]] else m
  }

  function Remaining(es: seq<Expr>): seq<Expr> {
    if es == [] then []
    else Remaining(es[..|es| - 1]) + if IsSimple(es[|es| - 1]) then [] else [es[|es| - 1]]
  }

  function PushedSelection(child: Plan, es: seq<Expr>): Plan {
    var p := Pushed(child, Collected(es));
    if Remaining(es) == [] then p else Select(p, Remaining(es))
  }

  class PushSelection {
    var id2simpleExpressions: Simple
    var currentPlan: Plan

    constructor ()
      ensures id2simpleExpressions == map[]
    {
      id2simpleExpressions := map[];
      currentPlan := Product([]);
    }

    /** The conditions of a relation are moved out of the map, which keeps an empty list for it. */
    method Visit(p: Plan)
      requires SelectFree(p) && Distinct(Leaves(p))
      modifies this
      ensures currentPlan == Pushed(p, old(id2simpleExpressions))
      ensures id2simpleExpressions.Keys == old(id2simpleExpressions).Keys
      ensures forall s :: s in id2simpleExpressions && s !in Leaves(p) ==>
        id2simpleExpressions[s] == old(id2simpleExpressions)[s]
      decreases p
    {
      match p {
        case Relation(src) =>
          currentPlan := p;
          if src in id2simpleExpressions {
            currentPlan := Select(currentPlan, id2simpleExpressions[src]);
            id2simpleExpressions := id2simpleExpressions[src := []];
          }
        case Product(children) =>
          var newChildren := VisitAll(children);
          currentPlan := Product(newChildren);
        case Join(children, eqs) =>
          var newChildren := VisitAll(children);
          currentPlan := Join(newChildren, eqs);
        case LeftOuter(alias, l, r, on) =>
          ghost var m := id2simpleExpressions;
          DistinctParts(Leaves(l), Leaves(r));
          Visit(l);
          PushedLocally(r, m, id2simpleExpressions);
          var newLeft := currentPlan;
          Visit(r);
          currentPlan := LeftOuter(alias, newLeft, currentPlan, on);
        case FullOuter(alias, l, r, on) =>
          ghost var m := id2simpleExpressions;
          DistinctParts(Leaves(l), Leaves(r));
          Visit(l);
          PushedLocally(r, m, id2simpleExpressions);
          var newLeft := currentPlan;
          Visit(r);
          currentPlan := FullOuter(alias, newLeft, currentPlan, on);
      }
    }

    method VisitAll(ps: seq<Plan>) returns (qs: seq<Plan>)
      requires AllSelectFree(ps) && Distinct(AllLeaves(ps))
      modifies this
      ensures qs == AllPushed(ps, old(id2simpleExpressions))
      ensures id2simpleExpressions.Keys == old(id2simpleExpressions).Keys
      ensures forall s :: s in id2simpleExpressions && s !in AllLeaves(ps) ==>
        id2simpleExpressions[s] == old(id2simpleExpressions)[s]
      decreases ps
    {
      if ps == [] { return []; }
      ghost var m := id2simpleExpressions;
      DistinctParts(Leaves(ps[0]), AllLeaves(ps[1..]));
      Visit(ps[0]);
      AllPushedLocally(ps[1..], m, id2simpleExpressions);
      var q := currentPlan;
      var rest := VisitAll(ps[1..]);
      return [q] + rest;
    }

    method VisitSelection(child: Plan, es: seq<Expr>)
      requires SelectFree(child) && Distinct(Leaves(child)) && id2simpleExpressions == map[]
      modifies this
      ensures currentPlan == PushedSelection(child, es)
    {
      var remaining: seq<Expr> := [];
      for i := 0 to |es|
        invariant id2simpleExpressions == Collected(es[..i]) && remaining == Remaining(es[..i])
      {
        assert es[..i + 1][..i] == es[..i];
        if IsSimple(es[i]) {
          var s := SourceOf(es[i]);
          var before := if s in id2simpleExpressions then id2simpleExpressions[s] else [];
          id2simpleExpressions := id2simpleExpressions[s := before + [es[i]]];
        } else {
          remaining := remaining + [es[i]];
        }
      }
      assert es[..|es|] == es;
      Visit(child);
      if remaining != [] {
        currentPlan := Select(currentPlan, remaining);
      }
    }
  }

  /** Only the conditions of a plan's own relations matter. */
  lemma {:induction false} PushedLocally(p: Plan, m: Simple, m': Simple)
    requires m.Keys == m'.Keys && forall s :: s in m && s in Leaves(p) ==> m'[s] == m[s]
    ensures Pushed(p, m') == Pushed(p, m)
    decreases p
  {
    match p
    case Relation(_) =>
    case Product(children) => AllPushedLocally(children, m, m');
    case Select(child, _) => PushedLocally(child, m, m');
    case Join(children, _) => AllPushedLocally(children, m, m');
    case LeftOuter(_, l, r, _) => PushedLocally(l, m, m'); PushedLocally(r, m, m');
    case FullOuter(_, l, r, _) => PushedLocally(l, m, m'); PushedLocally(r, m, m');
  }

  lemma {:induction false} AllPushedLocally(ps: seq<Plan>, m: Simple, m': Simple)
    requires m.Keys == m'.Keys && forall s :: s in m && s in AllLeaves(ps) ==> m'[s] == m[s]
    ensures AllPushed(ps, m') == AllPushed(ps, m)
    decreases ps
  {
    if ps != [] {
      PushedLocally(ps[0], m, m');
      AllPushedLocally(ps[1..], m, m');
    }
  }

  // ---------------------------------------------------------------- meaning

  /** Relations whose rows an outer join may replace by a pad. */
  function NullSupplied(p: Plan): set<Source>
    decreases p
  {
    match p
    case Relation(_) => {}
    case Product(children) => AllNullSupplied(children)
    case Select(child, _) => NullSupplied(child)
    case Join(children, _) => AllNullSupplied(children)
    case LeftOuter(_, l, r, _) => NullSupplied(l) + SetOf(Leaves(r))
    case FullOuter(_, l, r, _) => SetOf(Leaves(l)) + SetOf(Leaves(r))
  }

  function AllNullSupplied(ps: seq<Plan>): set<Source>
    decreases ps
  {
    if ps == [] then {} else NullSupplied(ps[0]) + AllNullSupplied(ps[1..])
  }

  /** All conditions that land on some of these relations. */
  function Landing(m: Simple, srcs: seq<Source>): seq<Expr> {
    if srcs == [] then [] else (if srcs[0] in m then m[srcs[0]] else []) + Landing(m, srcs[1..])
  }

  lemma {:induction false} LandingSplit(m: Simple, a: seq<Source>, b: seq<Source>)
    ensures Landing(m, a + b) == Landing(m, a) + Landing(m, b)
  {
    if a == [] {
      assert a + b == b;
    } else {
      LandingSplit(m, a[1..], b);
      assert (a + b)[0] == a[0] && (a + b)[1..] == a[1..] + b;
      var here := if a[0] in m then m[a[0]] else [];
      Associate(here, Landing(m, a[1..]), Landing(m, b));
      assert Landing(m, a + b) == here + Landing(m, a[1..] + b);
    }
  }

  /** Each condition in the map concerns its relation only. */
  ghost predicate OwnConditions(m: Simple) {
    forall s :: s in m ==> Local(m[s], {s})
  }

  lemma {:induction false} LandingIsLocal(m: Simple, srcs: seq<Source>)
    requires OwnConditions(m)
    ensures Local(Landing(m, srcs), SetOf(srcs))
  {
    if srcs != [] {
      LandingIsLocal(m, srcs[1..]);
      assert SetOf(srcs) == {srcs[0]} + SetOf(srcs[1..]);
    }
  }

  lemma {:induction false} LandingNowhere(m: Simple, srcs: seq<Source>)
    requires m.Keys !! SetOf(srcs)
    ensures Landing(m, srcs) == []
  {
    if srcs != [] {
      assert srcs[0] in SetOf(srcs) && SetOf(srcs[1..]) <= SetOf(srcs);
      LandingNowhere(m, srcs[1..]);
    }
  }

  /**
   * Below products, joins and the preserved sides of outer joins, the pushed plan has the rows that meet the
   * pushed conditions, in the same order.
   */
  lemma {:induction false} PushedRows(env: Env, p: Plan, m: Simple)
    requires SelectFree(p) && Distinct(Leaves(p)) && OwnConditions(m) && m.Keys !! NullSupplied(p)
    ensures Leaves(Pushed(p, m)) == Leaves(p)
    ensures Rows(env, Pushed(p, m)) == Filter(env, Landing(m, Leaves(p)), Rows(env, p))
    decreases p
  {
    match p
    case Relation(src) =>
      assert Landing(m, [src]) == if src in m then m[src] else [];
      FilterNothing(env, Rows(env, p));
    case Product(children) => PushedProduct(env, children, m);
    case Join(children, eqs) =>
      PushedProduct(env, children, m);
      FilterSwap(env, AsExprs(eqs), Landing(m, AllLeaves(children)), ProductRows(env, children));
    case LeftOuter(_, l, r, on) =>
      DistinctSplit(Leaves(l), Leaves(r));
      PushedRows(env, l, m);
      PushedLeftOuter(env, l, r, on, m);
    case FullOuter(_, l, r, on) =>
      PushedFullOuter(l, r, m);
      FilterNothing(env, Rows(env, p));
  }

  lemma PushedLeftOuter(env: Env, l: Plan, r: Plan, on: seq<Equality>, m: Simple)
    requires Distinct(Leaves(l) + Leaves(r)) && OwnConditions(m) && m.Keys !! SetOf(Leaves(r))
    requires Rows(env, Pushed(l, m)) == Filter(env, Landing(m, Leaves(l)), Rows(env, l))
    ensures Pushed(r, m) == r
    ensures LeftRows(env, on, Rows(env, Pushed(l, m)), Rows(env, r), Pad(env, Leaves(r)))
         == Filter(env, Landing(m, Leaves(l) + Leaves(r)),
                   LeftRows(env, on, Rows(env, l), Rows(env, r), Pad(env, Leaves(r))))
  {
    DistinctSplit(Leaves(l), Leaves(r));
    PushedNowhere(r, m);
    LandingSplit(m, Leaves(l), Leaves(r));
    LandingNowhere(m, Leaves(r));
    LandingIsLocal(m, Leaves(l));
    RowsKeyed(env, l);
    RowsKeyed(env, r);
    PadKeyed(env, Leaves(r));
    LeftFilter(env, on, Landing(m, Leaves(l)), Rows(env, l), Rows(env, r), Pad(env, Leaves(r)), SetOf(Leaves(l)),
               SetOf(Leaves(r)));
    assert Landing(m, Leaves(l)) + [] == Landing(m, Leaves(l));
  }

  lemma PushedFullOuter(l: Plan, r: Plan, m: Simple)
    requires m.Keys !! SetOf(Leaves(l)) && m.Keys !! SetOf(Leaves(r))
    ensures Pushed(l, m) == l && Pushed(r, m) == r && Landing(m, Leaves(l) + Leaves(r)) == []
  {
    PushedNowhere(l, m);
    PushedNowhere(r, m);
    LandingSplit(m, Leaves(l), Leaves(r));
    LandingNowhere(m, Leaves(l));
    LandingNowhere(m, Leaves(r));
  }

  lemma {:induction false} PushedProduct(env: Env, ps: seq<Plan>, m: Simple)
    requires AllSelectFree(ps) && Distinct(AllLeaves(ps)) && OwnConditions(m) && m.Keys !! AllNullSupplied(ps)
    ensures AllLeaves(AllPushed(ps, m)) == AllLeaves(ps)
    ensures ProductRows(env, AllPushed(ps, m)) == Filter(env, Landing(m, AllLeaves(ps)), ProductRows(env, ps))
    decreases ps
  {
    if ps == [] {
      FilterNothing(env, [map[]]);
    } else {
      var a, b := Leaves(ps[0]), AllLeaves(ps[1..]);
      DistinctSplit(a, b);
      PushedRows(env, ps[0], m);
      PushedProduct(env, ps[1..], m);
      LandingSplit(m, a, b);
      LandingIsLocal(m, a);
      LandingIsLocal(m, b);
      RowsKeyed(env, ps[0]);
      ProductKeyed(env, ps[1..]);
      FilterKeyed(env, Landing(m, b), ProductRows(env, ps[1..]), SetOf(b));
      CrossLeft(env, Landing(m, a), Rows(env, ps[0]), Filter(env, Landing(m, b), ProductRows(env, ps[1..])), SetOf(a),
                SetOf(b));
      CrossRight(env, Landing(m, b), Rows(env, ps[0]), ProductRows(env, ps[1..]), SetOf(b));
      FilterTwice(env, Landing(m, b), Landing(m, a), Cross(Rows(env, ps[0]), ProductRows(env, ps[1..])));
      FilterOrder(env, Landing(m, a), Landing(m, b), Cross(Rows(env, ps[0]), ProductRows(env, ps[1..])));
    }
  }

  lemma FilterOrder(env: Env, es: seq<Expr>, es': seq<Expr>, rows: seq<Row>)
    ensures Filter(env, es' + es, rows) == Filter(env, es + es', rows)
  {
    forall i | 0 <= i < |rows| ensures AllHold(env, es' + es, rows[i]) == AllHold(env, es + es', rows[i]) {
      HoldBoth(env, es, es', rows[i]);
      HoldBoth(env, es', es, rows[i]);
    }
    FilterSame(env, es' + es, es + es', rows);
  }

  lemma FilterSwap(env: Env, es: seq<Expr>, es': seq<Expr>, rows: seq<Row>)
    ensures Filter(env, es, Filter(env, es', rows)) == Filter(env, es', Filter(env, es, rows))
  {
    FilterTwice(env, es, es', rows);
    FilterTwice(env, es', es, rows);
    FilterOrder(env, es, es', rows);
  }

  /** The rows of one left row: its matches or its padded self. */
  ghost function RowsOfLeft(env: Env, on: seq<Equality>, a: Row, b: seq<Row>, pad: Row): seq<Row> {
    var matches := Filter(env, AsExprs(on), Extend(a, b));
    if matches == [] then [a + pad] else matches
  }

  lemma RowsOfLeftFilter(env: Env, on: seq<Equality>, es: seq<Expr>, a: Row, b: seq<Row>, pad: Row, ka: set<Source>,
                         kb: set<Source>)
    requires a.Keys == ka && Keyed(b, kb) && pad.Keys == kb && ka !! kb && Local(es, ka)
    ensures Filter(env, es, RowsOfLeft(env, on, a, b, pad)) == if AllHold(env, es, a) then
      RowsOfLeft(env, on, a, b, pad) else []
  {
    LocalHold(env, es, ka, a, a + pad);
    FilterSwap(env, es, AsExprs(on), Extend(a, b));
    ExtendLeft(env, es, a, b, ka, kb);
    hide AllHold, AsExprs;
    assert Filter(env, es, [a + pad]) == if AllHold(env, es, a) then [a + pad] else [];
  }

  /** A condition on the preserved side of a left outer join. */
  lemma {:induction false} LeftFilter(env: Env, on: seq<Equality>, es: seq<Expr>, a: seq<Row>, b: seq<Row>, pad: Row,
                                      ka: set<Source>, kb: set<Source>)
    requires Keyed(a, ka) && Keyed(b, kb) && pad.Keys == kb && ka !! kb && Local(es, ka)
    ensures LeftRows(env, on, Filter(env, es, a), b, pad) == Filter(env, es, LeftRows(env, on, a, b, pad))
  {
    hide AllHold;
    if a != [] {
      LeftFilter(env, on, es, a[1..], b, pad, ka, kb);
      RowsOfLeftFilter(env, on, es, a[0], b, pad, ka, kb);
      FilterStep(env, es, a);
      assert LeftRows(env, on, a, b, pad) == RowsOfLeft(env, on, a[0], b, pad) + LeftRows(env, on, a[1..], b, pad);
      FilterAppend(env, es, RowsOfLeft(env, on, a[0], b, pad), LeftRows(env, on, a[1..], b, pad));
    }
  }

  lemma {:induction false} PushedNowhere(p: Plan, m: Simple)
    requires m.Keys !! SetOf(Leaves(p))
    ensures Pushed(p, m) == p
    decreases p
  {
    match p
    case Relation(src) => assert src in SetOf(Leaves(p));
    case Product(children) => AllPushedNowhere(children, m);
    case Select(child, _) => PushedNowhere(child, m);
    case Join(children, _) => AllPushedNowhere(children, m);
    case LeftOuter(_, l, r, _) => SetOfSplit(Leaves(l), Leaves(r)); PushedNowhere(l, m); PushedNowhere(r, m);
    case FullOuter(_, l, r, _) => SetOfSplit(Leaves(l), Leaves(r)); PushedNowhere(l, m); PushedNowhere(r, m);
  }

  lemma {:induction false} AllPushedNowhere(ps: seq<Plan>, m: Simple)
    requires m.Keys !! SetOf(AllLeaves(ps))
    ensures AllPushed(ps, m) == ps
    decreases ps
  {
    if ps != [] {
      SetOfSplit(Leaves(ps[0]), AllLeaves(ps[1..]));
      PushedNowhere(ps[0], m);
      AllPushedNowhere(ps[1..], m);
    }
  }

  // ---------------------------------------------------------------- the whole selection

  /** Only simple conditions are collected, each at its relation. */
  lemma {:induction false} CollectedAreSimple(es: seq<Expr>)
    ensures forall s, e :: s in Collected(es) && e in Collected(es)[s] ==> e in es && IsSimple(e) && SourceOf(e) == s
    ensures forall s :: s in Collected(es) ==> exists i :: 0 <= i < |es| && IsSimple(es[i]) && SourceOf(es[i]) == s
  {
    hide IsSimple, SourceOf;
    if es != [] {
      var n := |es| - 1;
      CollectedAreSimple(es[..n]);
      assert es == es[..n] + [es[n]];
    }
  }

  /** All simple conditions are collected. */
  lemma {:induction false} SimpleAreCollected(es: seq<Expr>)
    ensures forall i :: 0 <= i < |es| && IsSimple(es[i]) ==>
      SourceOf(es[i]) in Collected(es) && es[i] in Collected(es)[SourceOf(es[i])]
  {
    hide IsSimple, SourceOf;
    if es != [] { SimpleAreCollected(es[..|es| - 1]); }
  }

  lemma {:induction false} OthersRemain(es: seq<Expr>)
    ensures forall i :: 0 <= i < |es| && !IsSimple(es[i]) ==> es[i] in Remaining(es)
    ensures forall e :: e in Remaining(es) ==> e in es && !IsSimple(e)
  {
    hide IsSimple;
    if es != [] {
      OthersRemain(es[..|es| - 1]);
      assert es == es[..|es| - 1] + [es[|es| - 1]];
    }
  }

  lemma CollectedAreOwn(es: seq<Expr>)
    ensures OwnConditions(Collected(es))
  {
    CollectedAreSimple(es);
    forall s, i, c | s in Collected(es) && 0 <= i < |Collected(es)[s]| && c in Columns(Collected(es)[s][i])
      ensures c.source in {s} {
      SimpleIsOneColumn(Collected(es)[s][i]);
    }
  }

  /** The collected conditions are the simple ones, each at its relation. */
  lemma CollectedConditions(es: seq<Expr>)
    ensures OwnConditions(Collected(es))
    ensures forall i :: 0 <= i < |es| && IsSimple(es[i]) ==>
      SourceOf(es[i]) in Collected(es) && es[i] in Collected(es)[SourceOf(es[i])]
    ensures forall s, e :: s in Collected(es) && e in Collected(es)[s] ==> e in es && IsSimple(e) && SourceOf(e) == s
    ensures forall i :: 0 <= i < |es| && !IsSimple(es[i]) ==> es[i] in Remaining(es)
    ensures forall e :: e in Remaining(es) ==> e in es && !IsSimple(e)
    ensures forall s :: s in Collected(es) ==> exists i :: 0 <= i < |es| && IsSimple(es[i]) && SourceOf(es[i]) == s
  {
    hide *;
    CollectedAreOwn(es);
    CollectedAreSimple(es);
    SimpleAreCollected(es);
    OthersRemain(es);
  }

  lemma {:induction false} LandingMembers(m: Simple, srcs: seq<Source>)
    ensures forall e :: e in Landing(m, srcs) ==> exists s :: s in srcs && s in m && e in m[s]
    ensures forall s, e :: s in srcs && s in m && e in m[s] ==> e in Landing(m, srcs)
  {
    if srcs != [] { LandingMembers(m, srcs[1..]); }
  }

  /** The simple conditions belong to relations of the plan, and to none that an outer join pads. */
  ghost predicate Pushable(p: Plan, es: seq<Expr>) {
    forall i :: 0 <= i < |es| && IsSimple(es[i]) ==> SourceOf(es[i]) in Leaves(p) && SourceOf(es[i]) !in NullSupplied(p)
  }

  lemma LandedConditions(es: seq<Expr>, srcs: seq<Source>)
    requires forall i :: 0 <= i < |es| && IsSimple(es[i]) ==> SourceOf(es[i]) in srcs
    ensures var all := Landing(Collected(es), srcs) + Remaining(es);
      && (forall i :: 0 <= i < |es| ==> es[i] in all)
      && (forall i :: 0 <= i < |all| ==> all[i] in es)
  {
    var m := Collected(es);
    var all := Landing(m, srcs) + Remaining(es);
    CollectedConditions(es);
    LandingMembers(m, srcs);
    hide Landing, Collected, Remaining, IsSimple, SourceOf, OwnConditions;
    forall i | 0 <= i < |es| ensures es[i] in all {
      if IsSimple(es[i]) { assert es[i] in Landing(m, srcs); } else { assert es[i] in Remaining(es); }
    }
    forall i | 0 <= i < |all| ensures all[i] in es {
      if i < |Landing(m, srcs)| { assert all[i] in Landing(m, srcs); } else { assert all[i] in Remaining(es); }
    }
  }

  /** PushSelection keeps the rows of a query, and their order. */
  lemma SelectionKeepsRows(env: Env, child: Plan, es: seq<Expr>)
    requires SelectFree(child) && Distinct(Leaves(child)) && Pushable(child, es)
    ensures Rows(env, PushedSelection(child, es)) == Rows(env, Select(child, es))
  {
    var m, rows := Collected(es), Rows(env, child);
    var landing := Landing(m, Leaves(child));
    CollectedConditions(es);
    forall s | s in m ensures s !in NullSupplied(child) {
      var i :| 0 <= i < |es| && IsSimple(es[i]) && SourceOf(es[i]) == s;
    }
    PushedRows(env, child, m);
    FilterTwice(env, landing, Remaining(es), rows);
    assert landing + [] == landing;
    LandedConditions(es, Leaves(child));
    hide *;
    forall i | 0 <= i < |rows| ensures AllHold(env, landing + Remaining(es), rows[i]) == AllHold(env, es, rows[i]) {
      SameConditions(env, landing + Remaining(es), es, rows[i]);
    }
    FilterSame(env, landing + Remaining(es), es, rows);
    SelectionRows(env, child, es);
  }

  lemma SelectionRows(env: Env, child: Plan, es: seq<Expr>)
    ensures Rows(env, Select(child, es)) == Filter(env, es, Rows(env, child))
    ensures Rows(env, PushedSelection(child, es)) ==
      if Remaining(es) == [] then Rows(env, Pushed(child, Collected(es)))
      else Filter(env, Remaining(es), Rows(env, Pushed(child, Collected(es))))
  {
  }

  /** Each simple condition lands on one relation: the one with the alias and table of its column. */
  lemma LandsOnce(es: seq<Expr>, i: nat, src: Source)
    requires i < |es| && IsSimple(es[i])
    ensures src in Collected(es) && es[i] in Collected(es)[src] <==> src == SourceOf(es[i])
  {
    CollectedConditions(es);
  }

  // ---------------------------------------------------------------- outer joins

  /** BuildJoins has taken the equalities of columns out; an id stands for one test. */
  ghost predicate TestsOver(es: seq<Expr>, p: Plan) {
    && (forall i :: 0 <= i < |es| ==> es[i].Test? && (IsSimple(es[i]) ==> SourceOf(es[i]) in Leaves(p)))
    && (forall i, j :: 0 <= i < |es| && 0 <= j < |es| && es[i].id == es[j].id ==> es[i] == es[j])
  }

  /** A test on one column of a relation whose rows the outer join may replace by a pad. */
  ghost predicate PushedTooFar(outer: Plan, e: Expr) {
    IsOuterJoin(outer) && IsSimple(e) && (outer.FullOuter? || SourceOf(e) == outer.right.source)
  }

  /**
   * Pushing tests below an outer join of two relations is right, for all tables of the given schemas and all
   * meanings of the tests, exactly when every test on one column concerns the left relation of a left outer join.
   */
  lemma OuterPushExact(schemas: Schemas, outer: Plan, es: seq<Expr>)
    requires IsOuterJoin(outer) && TestsOver(es, outer)
    ensures
      (forall env | Filled(env, schemas) :: Rows(env, PushedSelection(outer, es)) == Rows(env, Select(outer, es)))
      <==> forall i :: 0 <= i < |es| && IsSimple(es[i]) ==> outer.LeftOuter? && SourceOf(es[i]) == outer.left.source
  {
    var l, r := outer.left.source, outer.right.source;
    assert Leaves(outer.left) == [l] && Leaves(outer.right) == [r];
    assert Leaves(outer) == [l, r];
    hide Leaves;
    if i :| 0 <= i < |es| && IsSimple(es[i]) && !(outer.LeftOuter? && SourceOf(es[i]) == l) {
      var env := PushLosesTest(schemas, outer, es, es[i]);
    } else {
      PaddedSide(outer);
      forall env | Filled(env, schemas) ensures Rows(env, PushedSelection(outer, es)) == Rows(env, Select(outer, es)) {
        hide IsSimple, SourceOf, Collected, Remaining, PushedSelection, Filled;
        SelectionKeepsRows(env, outer, es);
      }
    }
  }

  lemma PaddedSide(outer: Plan)
    requires IsOuterJoin(outer)
    ensures SelectFree(outer) && Distinct(Leaves(outer)) && Leaves(outer) == [outer.left.source, outer.right.source]
    ensures outer.LeftOuter? ==> NullSupplied(outer) == {outer.right.source}
  {
    assert Leaves(outer.left) == [outer.left.source] && Leaves(outer.right) == [outer.right.source];
  }

  /** One tuple in each table; the test `id` fails, all others succeed. */
  function OneTuple(schemas: Schemas, l: Source, r: Source, id: nat): Env {
    Env(map[l.table := [MarkedTuple(schemas, {}, l)], r.table := [MarkedTuple(schemas, {}, r)]], schemas,
        (i, _) => i != id)
  }

  /** Where the test fails a padded row comes through, although no row meets the test. */
  lemma PushLosesTest(schemas: Schemas, outer: Plan, es: seq<Expr>, e: Expr) returns (env: Env)
    requires IsOuterJoin(outer) && TestsOver(es, outer) && e in es && PushedTooFar(outer, e)
    ensures Filled(env, schemas) && Rows(env, Select(outer, es)) == [] && Rows(env, PushedSelection(outer, es)) != []
  {
    hide *;
    OuterSides(outer);
    TestIsSimple(outer, es, e);
    var l, r, m := outer.left, outer.right, Collected(es);
    env := OneTuple(schemas, l.source, r.source, e.id);
    TupleTables(schemas, l.source, r.source, e.id);
    TestsFacts(es, outer);
    SelectionRows(env, outer, es);
    CollectedConditions(es);
    CollectedAt(es, e, SourceOf(e));
    TestsFail(env, e, es, Rows(env, outer));
    SidesPushed(env, schemas, outer, es, e);
    TestsPass(env, es, e, Remaining(es), Rows(env, Pushed(outer, m)));
    SurvivorIsPadded(env, outer, Pushed(l, m), Pushed(r, m));
    PushedOuter(outer, m);
  }

  lemma OuterSides(outer: Plan)
    requires IsOuterJoin(outer)
    ensures (outer.LeftOuter? || outer.FullOuter?) && outer.left.Relation? && outer.right.Relation?
  {
  }

  lemma TupleTables(schemas: Schemas, l: Source, r: Source, id: nat)
    ensures var env := OneTuple(schemas, l, r, id);
      Filled(env, schemas) && forall i, vs :: env.test(i, vs) <==> i != id
  {
  }

  lemma PushedOuter(outer: Plan, m: Simple)
    requires IsOuterJoin(outer)
    ensures Pushed(outer, m) == outer.(left := Pushed(outer.left, m), right := Pushed(outer.right, m))
  {
  }

  /** Nothing is left of the relation under the failing test, and the one row of the other stays. */
  lemma SidesPushed(env: Env, schemas: Schemas, outer: Plan, es: seq<Expr>, e: Expr)
    requires IsOuterJoin(outer) && TestsOver(es, outer) && e in es && PushedTooFar(outer, e)
    requires env == OneTuple(schemas, outer.left.source, outer.right.source, e.id)
    ensures var a, b := Rows(env, Pushed(outer.left, Collected(es))), Rows(env, Pushed(outer.right, Collected(es)));
      if SourceOf(e) == outer.right.source then |a| == 1 && b == [] else outer.FullOuter? && a == [] && |b| == 1
  {
    TestIsSimple(outer, es, e);
    PaddedSide(outer);
    hide Leaves, IsSimple, SourceOf, Collected;
    SidePushed(env, schemas, outer, es, e, outer.left);
    SidePushed(env, schemas, outer, es, e, outer.right);
  }

  lemma TestIsSimple(outer: Plan, es: seq<Expr>, e: Expr)
    requires TestsOver(es, outer) && e in es && PushedTooFar(outer, e)
    ensures e.Test? && IsSimple(e) && SourceOf(e) in Leaves(outer)
  {
  }

  lemma SidePushed(env: Env, schemas: Schemas, outer: Plan, es: seq<Expr>, e: Expr, p: Plan)
    requires IsOuterJoin(outer) && TestsOver(es, outer) && e in es && IsSimple(e) && p in {outer.left, outer.right}
    requires env == OneTuple(schemas, outer.left.source, outer.right.source, e.id)
    ensures |Rows(env, Pushed(p, Collected(es)))| == if SourceOf(e) == p.source then 0 else 1
  {
    var m, src := Collected(es), p.source;
    TestsFacts(es, outer);
    TheTuple(env, schemas, outer, p, e.id);
    PushedRelation(env, p, m);
    CollectedAt(es, e, src);
    hide *;
    if src in m {
      if SourceOf(e) == src {
        TestsFail(env, e, m[src], Rows(env, p));
      } else {
        TestsPass(env, es, e, m[src], Rows(env, p));
      }
    }
  }

  lemma TestsFacts(es: seq<Expr>, p: Plan)
    requires TestsOver(es, p)
    ensures forall i :: 0 <= i < |es| ==> es[i].Test?
    ensures forall i, j :: 0 <= i < |es| && 0 <= j < |es| && es[i].id == es[j].id ==> es[i] == es[j]
  {
  }

  lemma CollectedAt(es: seq<Expr>, e: Expr, src: Source)
    requires e in es && IsSimple(e)
    ensures src == SourceOf(e) ==> src in Collected(es)
    ensures src in Collected(es) ==>
      (e in Collected(es)[src] <==> src == SourceOf(e)) && forall x :: x in Collected(es)[src] ==> x in es
  {
    hide Collected, Remaining, OwnConditions, IsSimple, SourceOf;
    CollectedConditions(es);
  }

  lemma TheTuple(env: Env, schemas: Schemas, outer: Plan, p: Plan, id: nat)
    requires IsOuterJoin(outer) && p in {outer.left, outer.right}
    requires env == OneTuple(schemas, outer.left.source, outer.right.source, id)
    ensures p.Relation? && |Rows(env, p)| == 1
    ensures forall i, vs :: env.test(i, vs) <==> i != id
  {
    ScanOne(p.source, MarkedTuple(schemas, {}, p.source));
    assert TableOf(env, p.source.table) == [MarkedTuple(schemas, {}, p.source)];
  }

  lemma PushedRelation(env: Env, p: Plan, m: Simple)
    requires p.Relation?
    ensures Rows(env, Pushed(p, m)) == if p.source in m then Filter(env, m[p.source], Rows(env, p)) else Rows(env, p)
  {
  }

  lemma {:induction false} TestsFail(env: Env, e: Expr, some: seq<Expr>, rows: seq<Row>)
    requires e in some && e.Test? && (forall vs :: !env.test(e.id, vs))
    ensures Filter(env, some, rows) == []
  {
    if rows != [] {
      var i :| 0 <= i < |some| && some[i] == e;
      assert !Holds(env, some[i], rows[0]);
      TestsFail(env, e, some, rows[1..]);
    }
  }

  lemma TestsPass(env: Env, es: seq<Expr>, e: Expr, some: seq<Expr>, rows: seq<Row>)
    requires (forall i :: 0 <= i < |es| ==> es[i].Test?) && e in es && e !in some
    requires forall i, j :: 0 <= i < |es| && 0 <= j < |es| && es[i].id == es[j].id ==> es[i] == es[j]
    requires (forall x :: x in some ==> x in es) && forall id, vs :: id != e.id ==> env.test(id, vs)
    ensures Filter(env, some, rows) == rows
  {
    forall r ensures AllHold(env, some, r) == AllHold(env, [], r) {
      forall i | 0 <= i < |some| ensures Holds(env, some[i], r) { assert some[i] in es; }
    }
    FilterSame(env, some, [], rows);
    FilterNothing(env, rows);
  }

  /** The outer join of one row with none has that row, padded. */
  lemma SurvivorIsPadded(env: Env, outer: Plan, l: Plan, r: Plan)
    requires IsOuterJoin(outer)
    requires (|Rows(env, l)| == 1 && Rows(env, r) == []) || (outer.FullOuter? && Rows(env, l) == []
      && |Rows(env, r)| == 1)
    ensures Rows(env, outer.(left := l, right := r)) != []
  {
    var a, b := Rows(env, l), Rows(env, r);
    hide Leaves, Pad, LeftRows, UnmatchedRows;
    if b == [] {
      LeftSurvives(env, outer.on, a, Pad(env, Leaves(r)));
    } else {
      RightSurvives(env, outer.on, b, Pad(env, Leaves(l)));
    }
  }

  lemma LeftSurvives(env: Env, on: seq<Equality>, a: seq<Row>, pad: Row)
    requires |a| == 1
    ensures LeftRows(env, on, a, [], pad) == [a[0] + pad]
  {
    assert a[1..] == [];
  }

  lemma RightSurvives(env: Env, on: seq<Equality>, b: seq<Row>, pad: Row)
    requires |b| == 1
    ensures UnmatchedRows(env, on, [], b, pad) == [pad + b[0]]
  {
    assert b[1..] == [];
  }
}
