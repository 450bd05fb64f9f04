/** How often a row occurs in a plan of products, joins and selections: the order of its relations does not matter. */
module RowCounts {
  import opened Model
  import opened Bags
  import opened Plans

  function Count(rows: seq<Row>, r: Row): nat {
    if rows == [] then 0 else (if rows[0] == r then 1 else 0) + Count(rows[1..], r)
  }

  lemma {:induction false} CountIsMultiplicity(rows: seq<Row>, r: Row)
    ensures multiset(rows)[r] == Count(rows, r)
  {
    if rows != [] {
      assert rows == [rows[0]] + rows[1..];
      CountIsMultiplicity(rows[1..], r);
    }
  }

  lemma {:induction false} CountAppend(a: seq<Row>, b: seq<Row>, r: Row)
    ensures Count(a + b, r) == Count(a, r) + Count(b, r)
  {
    if a == [] {
      assert a + b == b;
    } else {
      assert (a + b)[0] == a[0] && (a + b)[1..] == a[1..] + b;
      CountAppend(a[1..], b, r);
    }
  }

  function Restrict(r: Row, srcs: set<Source>): Row {
    map s | s in r && s in srcs :: r[s]
  }

  lemma {:induction false} ExtendCount(a: Row, b: seq<Row>, r: Row, ka: set<Source>, kb: set<Source>)
    requires a.Keys == ka && Keyed(b, kb) && ka !! kb && r.Keys == ka + kb
    ensures Count(Extend(a, b), r) == if a == Restrict(r, ka) then Count(b, Restrict(r, kb)) else 0
  {
    if b != [] {
      ExtendCount(a, b[1..], r, ka, kb);
      SplitRow(a, b[0], r, ka, kb);
    }
  }

  lemma SplitRow(a: Row, b: Row, r: Row, ka: set<Source>, kb: set<Source>)
    requires a.Keys == ka && b.Keys == kb && ka !! kb && r.Keys == ka + kb
    ensures a + b == r <==> a == Restrict(r, ka) && b == Restrict(r, kb)
  {
    if a == Restrict(r, ka) && b == Restrict(r, kb) {
      assert (a + b).Keys == r.Keys;
      forall s | s in r ensures (a + b)[s] == r[s] {}
    }
  }

  lemma {:induction false} CrossCount(a: seq<Row>, b: seq<Row>, r: Row, ka: set<Source>, kb: set<Source>)
    requires Keyed(a, ka) && Keyed(b, kb) && ka !! kb && r.Keys == ka + kb
    ensures Count(Cross(a, b), r) == Count(a, Restrict(r, ka)) * Count(b, Restrict(r, kb))
  {
    if a != [] {
      CrossCount(a[1..], b, r, ka, kb);
      ExtendCount(a[0], b, r, ka, kb);
      CountAppend(Extend(a[0], b), Cross(a[1..], b), r);
      Distribute(if a[0] == Restrict(r, ka) then 1 else 0, Count(a[1..], Restrict(r, ka)), Count(b, Restrict(r, kb)));
    }
  }

  lemma Distribute(x: nat, y: nat, z: nat)
    ensures (x + y) * z == x * z + y * z
  {
  }

  lemma {:induction false} FilterCount(env: Env, es: seq<Expr>, rows: seq<Row>, r: Row)
    ensures Count(Filter(env, es, rows), r) == if AllHold(env, es, r) then Count(rows, r) else 0
  {
    hide AllHold;
    if rows != [] {
      FilterCount(env, es, rows[1..], r);
      CountAppend(if AllHold(env, es, rows[0]) then [rows[0]] else [], Filter(env, es, rows[1..]), r);
    }
  }

  /** Occurrences of a tuple in a table. */
  function Occurrences(tuples: seq<Tuple>, t: Tuple): nat {
    if tuples == [] then 0 else (if tuples[0] == t then 1 else 0) + Occurrences(tuples[1..], t)
  }

  lemma {:induction false} ScanCount(src: Source, tuples: seq<Tuple>, r: Row)
    requires r.Keys == {src}
    ensures Count(Scan(src, tuples), r) == Occurrences(tuples, r[src])
  {
    if tuples != [] {
      ScanCount(src, tuples[1..], r);
      assert map[src := tuples[0]] == r <==> tuples[0] == r[src];
    }
  }

  /** How often a row occurs in the product of some relations. */
  function Weight(env: Env, srcs: seq<Source>, r: Row): nat {
    if srcs == [] then 1
    else (if srcs[0] in r then Occurrences(TableOf(env, srcs[0].table), r[srcs[0]]) else 0) * Weight(env, srcs[1..], r)
  }

  lemma {:induction false} WeightAppend(env: Env, a: seq<Source>, b: seq<Source>, r: Row)
    ensures Weight(env, a + b, r) == Weight(env, a, r) * Weight(env, b, r)
  {
    if a == [] {
      assert a + b == b;
    } else {
      assert (a + b)[0] == a[0] && (a + b)[1..] == a[1..] + b;
      WeightAppend(env, a[1..], b, r);
      Reassociate(if a[0] in r then Occurrences(TableOf(env, a[0].table), r[a[0]]) else 0, Weight(env, a[1..], r),
                  Weight(env, b, r));
    }
  }

  lemma Reassociate(x: nat, y: nat, z: nat)
    ensures x * (y * z) == (x * y) * z
  {
  }

  /** Relations contribute in any order. */
  lemma {:induction false} WeightPermute(env: Env, a: seq<Source>, b: seq<Source>, r: Row)
    requires multiset(a) == multiset(b)
    ensures Weight(env, a, r) == Weight(env, b, r)
  {
    hide Weight;
    if a == [] {
      EmptyBag(b);
    } else {
      var j := TakeOut(a, 0, b);
      assert a[..0] + a[1..] == a[1..];
      WeightMove(env, a, b[..j], b[j], b[j + 1..], r);
      WeightPermute(env, a[1..], b[..j] + b[j + 1..], r);
    }
  }

  lemma WeightMove(env: Env, a: seq<Source>, front: seq<Source>, s: Source, back: seq<Source>, r: Row)
    requires a != [] && a[0] == s
    ensures Weight(env, a, r) == Weight(env, [s], r) * Weight(env, a[1..], r)
    ensures Weight(env, front + ([s] + back), r) == Weight(env, [s], r) * Weight(env, front + back, r)
  {
    assert a == [s] + a[1..];
    WeightAppend(env, [s], a[1..], r);
    WeightAppend(env, front, [s] + back, r);
    WeightAppend(env, [s], back, r);
    WeightAppend(env, front, back, r);
    var x, y, z := Weight(env, front, r), Weight(env, [s], r), Weight(env, back, r);
    Reassociate(x, y, z);
    Reassociate(y, x, z);
  }

  /** Only the tuples of the relations count. */
  lemma {:induction false} WeightLocal(env: Env, srcs: seq<Source>, r: Row, r': Row)
    requires forall s :: s in srcs ==> (s in r <==> s in r') && (s in r ==> r'[s] == r[s])
    ensures Weight(env, srcs, r') == Weight(env, srcs, r)
  {
    if srcs != [] { WeightLocal(env, srcs[1..], r, r'); }
  }

  lemma {:induction false} WeightPositive(env: Env, srcs: seq<Source>, r: Row)
    requires forall s :: s in srcs ==> s in r && Occurrences(TableOf(env, s.table), r[s]) >= 1
    ensures Weight(env, srcs, r) >= 1
  {
    if srcs != [] {
      WeightPositive(env, srcs[1..], r);
      Product1(Occurrences(TableOf(env, srcs[0].table), r[srcs[0]]), Weight(env, srcs[1..], r));
    }
  }

  lemma Product1(x: nat, y: nat)
    requires x >= 1 && y >= 1
    ensures x * y >= 1
  {
  }

  // ---------------------------------------------------------------- plans of inner joins

  /** Products, joins and selections over relations, with conditions about the relations below them. */
  ghost predicate Inner(p: Plan)
    decreases p
  {
    match p
    case Relation(_) => true
    case Product(children) => AllInner(children)
    case Select(child, es) => Inner(child) && Local(es, SetOf(Leaves(child)))
    case Join(children, eqs) => AllInner(children) && Local(AsExprs(eqs), SetOf(AllLeaves(children)))
    case LeftOuter(_, _, _, _) => false
    case FullOuter(_, _, _, _) => false
  }

  ghost predicate AllInner(ps: seq<Plan>)
    decreases ps
  {
    ps == [] || (Inner(ps[0]) && AllInner(ps[1..]))
  }

  /** All conditions of a plan. */
  function Conditions(p: Plan): seq<Expr>
    decreases p
  {
    match p
    case Relation(_) => []
    case Product(children) => AllConditions(children)
    case Select(child, es) => Conditions(child) + es
    case Join(children, eqs) => AllConditions(children) + AsExprs(eqs)
    case LeftOuter(_, _, _, _) => []
    case FullOuter(_, _, _, _) => []
  }

  function AllConditions(ps: seq<Plan>): seq<Expr>
    decreases ps
  {
    if ps == [] then [] else Conditions(ps[0]) + AllConditions(ps[1..])
  }

  ghost function NormalCount(env: Env, srcs: seq<Source>, es: seq<Expr>, r: Row): nat {
    if AllHold(env, es, r) then Weight(env, srcs, r) else 0
  }

  lemma LocalAppend(es: seq<Expr>, es': seq<Expr>, srcs: set<Source>)
    requires Local(es, srcs) && Local(es', srcs)
    ensures Local(es + es', srcs)
  {
  }

  lemma LocalWider(es: seq<Expr>, srcs: set<Source>, wider: set<Source>)
    requires Local(es, srcs) && srcs <= wider
    ensures Local(es, wider)
  {
  }

  lemma {:induction false} ConditionsLocal(p: Plan)
    requires Inner(p)
    ensures Local(Conditions(p), SetOf(Leaves(p)))
    decreases p
  {
    match p
    case Relation(_) =>
    case Product(children) => AllConditionsLocal(children);
    case Select(child, es) =>
      ConditionsLocal(child);
      LocalAppend(Conditions(child), es, SetOf(Leaves(child)));
    case Join(children, eqs) =>
      AllConditionsLocal(children);
      LocalAppend(AllConditions(children), AsExprs(eqs), SetOf(AllLeaves(children)));
  }

  lemma {:induction false} AllConditionsLocal(ps: seq<Plan>)
    requires AllInner(ps)
    ensures Local(AllConditions(ps), SetOf(AllLeaves(ps)))
    decreases ps
  {
    if ps != [] {
      ConditionsLocal(ps[0]);
      AllConditionsLocal(ps[1..]);
      SetOfSplit(Leaves(ps[0]), AllLeaves(ps[1..]));
      LocalWider(Conditions(ps[0]), SetOf(Leaves(ps[0])), SetOf(AllLeaves(ps)));
      LocalWider(AllConditions(ps[1..]), SetOf(AllLeaves(ps[1..])), SetOf(AllLeaves(ps)));
      LocalAppend(Conditions(ps[0]), AllConditions(ps[1..]), SetOf(AllLeaves(ps)));
    }
  }

  /** A row of the right relations occurs as often as its tuples do, if it meets all conditions, and else never. */
  lemma {:induction false} RowsCount(env: Env, p: Plan, r: Row)
    requires Inner(p) && Distinct(Leaves(p)) && r.Keys == SetOf(Leaves(p))
    ensures Count(Rows(env, p), r) == NormalCount(env, Leaves(p), Conditions(p), r)
    decreases p
  {
    match p
    case Relation(src) =>
      assert SetOf([src]) == {src};
      ScanCount(src, TableOf(env, src.table), r);
      var none: seq<Source> := [];
      assert [src][1..] == none && Weight(env, none, r) == 1;
    case Product(children) => ProductCount(env, children, r);
    case Select(child, es) =>
      RowsCount(env, child, r);
      FilterCount(env, es, Rows(env, child), r);
      HoldBoth(env, Conditions(child), es, r);
    case Join(children, eqs) =>
      ProductCount(env, children, r);
      FilterCount(env, AsExprs(eqs), ProductRows(env, children), r);
      HoldBoth(env, AllConditions(children), AsExprs(eqs), r);
  }

  lemma {:induction false} ProductCount(env: Env, ps: seq<Plan>, r: Row)
    requires AllInner(ps) && Distinct(AllLeaves(ps)) && r.Keys == SetOf(AllLeaves(ps))
    ensures Count(ProductRows(env, ps), r) == NormalCount(env, AllLeaves(ps), AllConditions(ps), r)
    decreases ps
  {
    if ps == [] {
      assert r == map[];
      assert Count([map[]], r) == 1 + Count([], r);
    } else {
      var a, b := Leaves(ps[0]), AllLeaves(ps[1..]);
      var ra, rb := Restrict(r, SetOf(a)), Restrict(r, SetOf(b));
      DistinctSplit(a, b);
      RowsCount(env, ps[0], ra);
      ProductCount(env, ps[1..], rb);
      RowsKeyed(env, ps[0]);
      ProductKeyed(env, ps[1..]);
      CrossCount(Rows(env, ps[0]), ProductRows(env, ps[1..]), r, SetOf(a), SetOf(b));
      ConditionsLocal(ps[0]);
      AllConditionsLocal(ps[1..]);
      NormalCountSplit(env, a, b, Conditions(ps[0]), AllConditions(ps[1..]), r);
    }
  }

  lemma NormalCountSplit(env: Env, a: seq<Source>, b: seq<Source>, es: seq<Expr>, es': seq<Expr>, r: Row)
    requires r.Keys == SetOf(a + b) && Local(es, SetOf(a)) && Local(es', SetOf(b))
    ensures NormalCount(env, a + b, es + es', r)
         == NormalCount(env, a, es, Restrict(r, SetOf(a))) * NormalCount(env, b, es', Restrict(r, SetOf(b)))
  {
    hide Weight, AllHold;
    var ra, rb := Restrict(r, SetOf(a)), Restrict(r, SetOf(b));
    WeightAppend(env, a, b, r);
    WeightLocal(env, a, r, ra);
    WeightLocal(env, b, r, rb);
    HoldBoth(env, es, es', r);
    LocalHold(env, es, SetOf(a), r, ra);
    LocalHold(env, es', SetOf(b), r, rb);
  }

  /** The same relations under the same conditions: the same rows, each as often. */
  lemma SameBag(env: Env, p: Plan, q: Plan)
    requires Inner(p) && Inner(q) && Distinct(Leaves(p)) && multiset(Leaves(p)) == multiset(Leaves(q))
    requires forall r :: AllHold(env, Conditions(p), r) == AllHold(env, Conditions(q), r)
    ensures multiset(Rows(env, p)) == multiset(Rows(env, q))
  {
    hide Inner, Conditions, Rows, Leaves, AllHold, Weight, Count;
    EqualBags(Leaves(p), Leaves(q));
    assert SetOf(Leaves(p)) == SetOf(Leaves(q));
    RowsKeyed(env, p);
    RowsKeyed(env, q);
    forall r ensures multiset(Rows(env, p))[r] == multiset(Rows(env, q))[r] {
      CountIsMultiplicity(Rows(env, p), r);
      CountIsMultiplicity(Rows(env, q), r);
      if r.Keys == SetOf(Leaves(p)) {
        RowsCount(env, p, r);
        RowsCount(env, q, r);
        WeightPermute(env, Leaves(p), Leaves(q), r);
      } else {
        NoSuchRow(Rows(env, p), SetOf(Leaves(p)), r);
        NoSuchRow(Rows(env, q), SetOf(Leaves(q)), r);
      }
    }
  }

  lemma {:induction false} NoSuchRow(rows: seq<Row>, srcs: set<Source>, r: Row)
    requires Keyed(rows, srcs) && r.Keys != srcs
    ensures Count(rows, r) == 0
  {
    if rows != [] { NoSuchRow(rows[1..], srcs, r); }
  }
}
