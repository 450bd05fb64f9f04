/** The compilation of a join into a left-deep chain of nested loops, with column pruning. */
module Optimizer {
  import opened Model
  import opened Bags
  import opened Plans
  import opened RowCounts
  import opened Links
  import Operators

  // ---------------------------------------------------------------- streams and what they stand for

  /** An iterator of the executor: a leaf, or a nested loop (a product when it compares nothing). */
  datatype Iter =
    | Leaf(columns: seq<Column>, rows: seq<Record>)
    | Loop(columns: seq<Column>, lhs: Iter, rhs: Iter, spec: Operators.Spec)

  /** All records the iterator hands out. */
  ghost function Output(it: Iter): seq<Record> {
    match it
    case Leaf(_, rows) => rows
    case Loop(_, lhs, rhs, spec) =>
      if Operators.AllLeft(spec, Output(lhs)) && Operators.AllRight(spec, Output(rhs)) then
        Operators.JoinRows(spec, Output(lhs), Output(rhs))
      else []
  }

  /** The executor's demands are met: no record ends a stream early, no position is out of range. */
  ghost predicate Runs(it: Iter) {
    match it
    case Leaf(_, rows) => forall i :: 0 <= i < |rows| ==> rows[i] != []
    case Loop(_, lhs, rhs, spec) =>
      && Runs(lhs) && Runs(rhs) && spec.Wide()
      && Operators.AllLeft(spec, Output(lhs)) && Operators.AllRight(spec, Output(rhs))
  }

  /** The record has the values of these columns of the row, in this order. */
  ghost predicate Reads(r: Record, cols: seq<Column>, m: Row) {
    |r| >= |cols| && forall j :: 0 <= j < |cols| ==> Lookup(m, cols[j]) == Some(r[j])
  }

  ghost predicate AllRead(rs: seq<Record>, cols: seq<Column>, ms: seq<Row>) {
    |rs| == |ms| && forall i :: 0 <= i < |rs| ==> Reads(rs[i], cols, ms[i])
  }

  // ---------------------------------------------------------------- pruning

  /** How often each column is in use, by alias and name: the tables of an outer join share these counts. */
  type Usage = map<(string, string), nat>

  function KeyOf(c: Column): (string, string) {
    (c.source.alias, c.name)
  }

  function UsageOf(u: Usage, c: Column): nat {
    if KeyOf(c) in u then u[KeyOf(c)] else 0
  }

  /** Positions of the columns in use. */
  function UsedPositions(cols: seq<Column>, u: Usage): (ps: seq<nat>)
    ensures forall i :: 0 <= i < |ps| ==> ps[i] < |cols| && UsageOf(u, cols[ps[i]]) > 0
  {
    if cols == [] then []
    else UsedPositions(cols[..|cols| - 1], u) + if UsageOf(u, cols[|cols| - 1]) > 0 then [|cols| - 1] else []
  }

  function ColumnsAt(cols: seq<Column>, ps: seq<nat>): (cs: seq<Column>)
    requires forall i :: 0 <= i < |ps| ==> ps[i] < |cols|
    ensures |cs| == |ps| && forall i :: 0 <= i < |ps| ==> cs[i] == cols[ps[i]]
  {
    seq(|ps|, i requires 0 <= i < |ps| => cols[ps[i]])
  }

  function UsedColumns(cols: seq<Column>, u: Usage): seq<Column> {
    ColumnsAt(cols, UsedPositions(cols, u))
  }

  // ---------------------------------------------------------------- which equalities a step applies

  function Ends(eq: Equality): set<Source> {
    {eq.0.source, eq.1.source}
  }

  /** The equalities between different relations of `srcs`. */
  function Between(eqs: seq<Equality>, srcs: set<Source>): (r: seq<Equality>)
    ensures forall i :: 0 <= i < |r| ==> r[i] in eqs && Ends(r[i]) <= srcs && r[i].0.source != r[i].1.source
    ensures forall i :: 0 <= i < |eqs| && Ends(eqs[i]) <= srcs && eqs[i].0.source != eqs[i].1.source ==> eqs[i] in r
  {
    if eqs == [] then []
    else
      var eq := eqs[|eqs| - 1];
      Between(eqs[..|eqs| - 1], srcs) + if Ends(eq) <= srcs && eq.0.source != eq.1.source then [eq] else []
  }

  /** The equalities between the relations so far and the next one. */
  predicate IsStep(eq: Equality, before: set<Source>, next: Source) {
    (eq.0.source == next && eq.1.source in before) || (eq.1.source == next && eq.0.source in before)
  }

  function Step(eqs: seq<Equality>, before: set<Source>, next: Source): (r: seq<Equality>)
    ensures forall i :: 0 <= i < |r| ==> r[i] in eqs && IsStep(r[i], before, next)
    ensures forall i :: 0 <= i < |eqs| && IsStep(eqs[i], before, next) ==> eqs[i] in r
  {
    if eqs == [] then []
    else Step(eqs[..|eqs| - 1], before, next) + if IsStep(eqs[|eqs| - 1], before, next) then [eqs[|eqs| - 1]] else []
  }

  /**
   * An equality of two relations of the order is applied at exactly one step, when the later one joins; an
   * equality inside one relation is applied at none.
   */
  lemma AppliedOnce(eq: Equality, srcs: seq<Source>, i: nat, j: nat, k: nat)
    requires Distinct(srcs) && i <= j < |srcs| && 0 < k < |srcs| && Ends(eq) == {srcs[i], srcs[j]}
    ensures IsStep(eq, SetOf(srcs[..k]), srcs[k]) <==> i < j && k == j
  {
    assert forall m :: 0 <= m < k ==> srcs[..k][m] == srcs[m];
    assert srcs[i] in {eq.0.source, eq.1.source} && srcs[j] in {eq.0.source, eq.1.source};
    assert eq.0.source in {srcs[i], srcs[j]} && eq.1.source in {srcs[i], srcs[j]};
    if i < j && k == j { assert srcs[..k][i] == srcs[i]; }
  }

  // ---------------------------------------------------------------- positions of the compared columns

  /** The first position of a column, or the length of the list. */
  function Find(cols: seq<Column>, c: Column): (p: nat)
    ensures p <= |cols| && (p < |cols| ==> cols[p] == c) && (p == |cols| ==> c !in cols)
  {
    if cols == [] || cols[0] == c then 0 else 1 + Find(cols[1..], c)
  }

  /** The side of an equality is told by the alias of the right child's first column. */
  function Sides(rcols: seq<Column>, eq: Equality): Equality
    requires rcols != []
  {
    if eq.0.source.alias == rcols[0].source.alias then (eq.1, eq.0) else eq
  }

  predicate Found(lcols: seq<Column>, rcols: seq<Column>, eq: Equality) {
    rcols != [] && Sides(rcols, eq).0 in lcols && Sides(rcols, eq).1 in rcols
  }

  function PairOf(lcols: seq<Column>, rcols: seq<Column>, eq: Equality): (nat, nat)
    requires rcols != []
  {
    (Find(lcols, Sides(rcols, eq).0), Find(rcols, Sides(rcols, eq).1))
  }

  function Pairs(lcols: seq<Column>, rcols: seq<Column>, eqs: seq<Equality>): (ps: Operators.Pairs)
    requires rcols != []
    ensures forall i :: 0 <= i < |ps| ==> ps[i].0 < |lcols| && ps[i].1 < |rcols|
    ensures forall i :: 0 <= i < |ps| ==>
      exists j :: 0 <= j < |eqs| && Found(lcols, rcols, eqs[j]) && ps[i] == PairOf(lcols, rcols, eqs[j])
    ensures forall j :: 0 <= j < |eqs| && Found(lcols, rcols, eqs[j]) ==> PairOf(lcols, rcols, eqs[j]) in ps
  {
    if eqs == [] then []
    else
      var eq := eqs[|eqs| - 1];
      Pairs(lcols, rcols, eqs[..|eqs| - 1]) + if Found(lcols, rcols, eq) then [PairOf(lcols, rcols, eq)] else []
  }

  /** Columns of the relations so far on the left, and of one more relation on the right. */
  ghost predicate Placed(lcols: seq<Column>, rcols: seq<Column>, before: set<Source>, next: Source) {
    rcols != [] && next !in before && From(lcols, before) && From(rcols, {next})
  }

  /** The positions are those of the two columns of the equality. */
  ghost predicate StandsFor(lcols: seq<Column>, rcols: seq<Column>, p: (nat, nat), eq: Equality) {
    && p.0 < |lcols| && p.1 < |rcols|
    && (eq == (lcols[p.0], rcols[p.1]) || eq == (rcols[p.1], lcols[p.0]))
  }

  /** The pairs of positions stand for these equalities, and for no others. */
  ghost predicate Stand(lcols: seq<Column>, rcols: seq<Column>, ps: Operators.Pairs, step: seq<Equality>) {
    && (forall p :: p in ps ==> exists eq :: eq in step && StandsFor(lcols, rcols, p, eq))
    && (forall eq :: eq in step ==> exists p :: p in ps && StandsFor(lcols, rcols, p, eq))
  }

  /** The right child has one relation, whose alias is its own; both children offer the columns that are compared. */
  ghost predicate Joinable(lcols: seq<Column>, rcols: seq<Column>, before: set<Source>, next: Source,
                           eqs: seq<Equality>) {
    && Placed(lcols, rcols, before, next)
    && (forall i :: 0 <= i < |eqs| ==>
      Offered(eqs[i].0, lcols, rcols, before, next) && Offered(eqs[i].1, lcols, rcols, before, next))
  }

  ghost predicate Offered(c: Column, lcols: seq<Column>, rcols: seq<Column>, before: set<Source>, next: Source) {
    && (c.source in before ==> c in lcols) && (c.source == next ==> c in rcols)
    && (c.source.alias == next.alias ==> c.source == next)
  }

  /** The search finds exactly the equalities of this step. */
  lemma FoundIsStep(lcols: seq<Column>, rcols: seq<Column>, before: set<Source>, next: Source, eqs: seq<Equality>,
                    i: nat)
    requires Joinable(lcols, rcols, before, next, eqs) && i < |eqs|
    ensures Found(lcols, rcols, eqs[i]) <==> IsStep(eqs[i], before, next)
  {
    var eq := eqs[i];
    assert Offered(eq.0, lcols, rcols, before, next) && Offered(eq.1, lcols, rcols, before, next);
    assert rcols[0].source == next;
  }

  lemma FoundStands(lcols: seq<Column>, rcols: seq<Column>, eq: Equality)
    requires Found(lcols, rcols, eq)
    ensures StandsFor(lcols, rcols, PairOf(lcols, rcols, eq), eq)
  {
  }

  /** The pairs stand for exactly the equalities of the step. */
  lemma PairsStand(lcols: seq<Column>, rcols: seq<Column>, before: set<Source>, next: Source, eqs: seq<Equality>)
    requires Joinable(lcols, rcols, before, next, eqs)
    ensures Stand(lcols, rcols, Pairs(lcols, rcols, eqs), Step(eqs, before, next))
  {
    var ps, step := Pairs(lcols, rcols, eqs), Step(eqs, before, next);
    hide StandsFor, Joinable, Found, PairOf, Pairs, Step;
    forall p | p in ps ensures exists eq :: eq in step && StandsFor(lcols, rcols, p, eq) {
      var k :| 0 <= k < |eqs| && Found(lcols, rcols, eqs[k]) && p == PairOf(lcols, rcols, eqs[k]);
      FoundIsStep(lcols, rcols, before, next, eqs, k);
      FoundStands(lcols, rcols, eqs[k]);
    }
    forall eq | eq in step ensures exists p :: p in ps && StandsFor(lcols, rcols, p, eq) {
      var k :| 0 <= k < |eqs| && eqs[k] == eq;
      FoundIsStep(lcols, rcols, before, next, eqs, k);
      FoundStands(lcols, rcols, eqs[k]);
    }
  }

  /** The values at the two positions are those of the two columns. */
  lemma PairReads(lcols: seq<Column>, rcols: seq<Column>, before: set<Source>, next: Source, p: (nat, nat),
                  eq: Equality, l: Record, ml: Row, r: Record, mr: Row)
    requires Placed(lcols, rcols, before, next) && StandsFor(lcols, rcols, p, eq)
    requires Reads(l, lcols, ml) && Reads(r, rcols, mr) && ml.Keys == before && mr.Keys == {next}
    ensures p.0 < |l| && p.1 < |r| && (l[p.0] == r[p.1] <==> Lookup(ml + mr, eq.0) == Lookup(ml + mr, eq.1))
  {
    assert Lookup(ml, lcols[p.0]) == Some(l[p.0]) && Lookup(mr, rcols[p.1]) == Some(r[p.1]);
    assert Lookup(ml + mr, lcols[p.0]) == Some(l[p.0]) && Lookup(ml + mr, rcols[p.1]) == Some(r[p.1]);
  }

  /** A pair of records is compatible when the combined row meets the equalities of the step. */
  lemma CompatibleIff(env: Env, lcols: seq<Column>, rcols: seq<Column>, before: set<Source>, next: Source,
                      step: seq<Equality>, o: Operators.Spec, l: Record, ml: Row, r: Record, mr: Row)
    requires Placed(lcols, rcols, before, next) && Stand(lcols, rcols, o.equalities, step)
    requires o.LeftOk(l) && o.RightOk(r)
    requires Reads(l, lcols, ml) && Reads(r, rcols, mr) && ml.Keys == before && mr.Keys == {next}
    ensures o.Compatible(l, r) <==> AllHold(env, AsExprs(step), ml + mr)
  {
    var row, ps := ml + mr, o.equalities;
    hide Placed, Reads, Lookup, StandsFor, AllHold, AsExprs;
    if AllHold(env, AsExprs(step), row) {
      forall i | 0 <= i < |ps| ensures l[ps[i].0] == r[ps[i].1] {
        assert ps[i] in ps;
        var eq :| eq in step && StandsFor(lcols, rcols, ps[i], eq);
        PairReads(lcols, rcols, before, next, ps[i], eq, l, ml, r, mr);
        EqualityHolds(env, step, row, eq);
      }
    }
    if o.Compatible(l, r) {
      forall eq | eq in step ensures Lookup(row, eq.0) == Lookup(row, eq.1) {
        var p :| p in ps && StandsFor(lcols, rcols, p, eq);
        PairReads(lcols, rcols, before, next, p, eq, l, ml, r, mr);
      }
      EachHolds(env, step, row);
    }
  }

  lemma EachHolds(env: Env, eqs: seq<Equality>, r: Row)
    requires forall eq :: eq in eqs ==> Lookup(r, eq.0) == Lookup(r, eq.1)
    ensures AllHold(env, AsExprs(eqs), r)
  {
    var es := AsExprs(eqs);
    forall i | 0 <= i < |es| ensures Holds(env, es[i], r) { assert eqs[i] in eqs; }
  }

  // ---------------------------------------------------------------- one nested loop

  /** What the optimizer puts into a loop over two children. */
  function LoopSpec(lcols: seq<Column>, rcols: seq<Column>, u: Usage, ps: Operators.Pairs): Operators.Spec {
    Operators.Spec(UsedPositions(lcols, u), UsedPositions(rcols, u), ps)
  }

  lemma StandInRange(lcols: seq<Column>, rcols: seq<Column>, ps: Operators.Pairs, step: seq<Equality>)
    requires Stand(lcols, rcols, ps, step)
    ensures forall i :: 0 <= i < |ps| ==> ps[i].0 < |lcols| && ps[i].1 < |rcols|
  {
    forall i | 0 <= i < |ps| ensures ps[i].0 < |lcols| && ps[i].1 < |rcols| { assert ps[i] in ps; }
  }

  lemma SpecOk(lcols: seq<Column>, rcols: seq<Column>, u: Usage, ps: Operators.Pairs, step: seq<Equality>, l: Record,
               r: Record)
    requires rcols != [] && Stand(lcols, rcols, ps, step)
    ensures |l| >= |lcols| && l != [] ==> LoopSpec(lcols, rcols, u, ps).LeftOk(l)
    ensures |r| >= |rcols| ==> LoopSpec(lcols, rcols, u, ps).RightOk(r)
  {
    StandInRange(lcols, rcols, ps, step);
    hide Stand, UsedPositions;
  }

  /** A combined record has the kept columns of the combined row. */
  lemma CombineReads(lcols: seq<Column>, rcols: seq<Column>, u: Usage, ps: Operators.Pairs, step: seq<Equality>,
                     before: set<Source>, next: Source, l: Record, ml: Row, r: Record, mr: Row)
    requires Placed(lcols, rcols, before, next) && Stand(lcols, rcols, ps, step)
    requires ml.Keys == before && mr.Keys == {next} && l != [] && Reads(l, lcols, ml) && Reads(r, rcols, mr)
    ensures var o := LoopSpec(lcols, rcols, u, ps);
      o.LeftOk(l) && o.RightOk(r) && Reads(o.Combine(l, r), UsedColumns(lcols, u) + UsedColumns(rcols, u), ml + mr)
  {
    SpecOk(lcols, rcols, u, ps, step, l, r);
    hide Stand, UsedPositions;
    PartsRead(Operators.Pick(l, UsedPositions(lcols, u)), UsedColumns(lcols, u),
              Operators.Pick(r, UsedPositions(rcols, u)), UsedColumns(rcols, u), before, next, ml, mr);
  }

  /** Two records side by side have the columns of both rows. */
  lemma PartsRead(l: Record, lcols: seq<Column>, r: Record, rcols: seq<Column>, before: set<Source>, next: Source,
                  ml: Row, mr: Row)
    requires |l| == |lcols| && Reads(l, lcols, ml) && Reads(r, rcols, mr)
    requires next !in before && ml.Keys == before && mr.Keys == {next}
    ensures Reads(l + r, lcols + rcols, ml + mr)
  {
    var all, cols := l + r, lcols + rcols;
    forall j | 0 <= j < |cols| ensures Lookup(ml + mr, cols[j]) == Some(all[j]) {
      if j < |lcols| {
        assert Lookup(ml, lcols[j]) == Some(l[j]);
      } else {
        assert Lookup(mr, rcols[j - |lcols|]) == Some(r[j - |lcols|]);
      }
    }
  }

  /** The rows of one left record. */
  lemma {:induction false} MatchesRead(env: Env, lcols: seq<Column>, rcols: seq<Column>, u: Usage, ps: Operators.Pairs,
                                       step: seq<Equality>, before: set<Source>, next: Source, l: Record, ml: Row,
                                       rs: seq<Record>, b: seq<Row>)
    requires Placed(lcols, rcols, before, next) && Stand(lcols, rcols, ps, step)
    requires ml.Keys == before && Keyed(b, {next}) && l != [] && Reads(l, lcols, ml) && AllRead(rs, rcols, b)
    ensures var o := LoopSpec(lcols, rcols, u, ps);
      && o.LeftOk(l) && Operators.AllRight(o, rs)
      && AllRead(Operators.Matches(o, l, rs), UsedColumns(lcols, u) + UsedColumns(rcols, u),
                 Filter(env, AsExprs(step), Extend(ml, b)))
  {
    var o, es := LoopSpec(lcols, rcols, u, ps), AsExprs(step);
    SpecOk(lcols, rcols, u, ps, step, l, l);
    if rs != [] {
      FirstRead(rs, rcols, b, {next});
      hide AllRead, Placed, Stand, Reads, LoopSpec, UsedColumns, AllHold, AsExprs, Filter;
      MatchesRead(env, lcols, rcols, u, ps, step, before, next, l, ml, rs[1..], b[1..]);
      OneMatch(env, lcols, rcols, u, ps, step, before, next, l, ml, rs[0], b[0]);
      FilterStep(env, es, Extend(ml, b));
      MatchesFrom0(o, l, rs);
      AllReadNext(o.Compatible(l, rs[0]), o.Combine(l, rs[0]), Operators.Matches(o, l, rs[1..]),
                  Operators.Matches(o, l, rs),
                  UsedColumns(lcols, u) + UsedColumns(rcols, u),
                  ml + b[0], Filter(env, es, Extend(ml, b[1..])), Filter(env, es, Extend(ml, b)));
    } else {
      NothingRead(rs, rcols, b);
    }
  }

  lemma NothingRead(rs: seq<Record>, cols: seq<Column>, b: seq<Row>)
    requires AllRead(rs, cols, b) && rs == []
    ensures b == []
  {
  }

  lemma FirstRead(rs: seq<Record>, cols: seq<Column>, b: seq<Row>, srcs: set<Source>)
    requires AllRead(rs, cols, b) && rs != [] && Keyed(b, srcs)
    ensures b != [] && Reads(rs[0], cols, b[0]) && AllRead(rs[1..], cols, b[1..])
    ensures Keyed(b[1..], srcs) && b[0].Keys == srcs
  {
    hide Reads;
  }

  /** One record more on both sides, or on neither. */
  lemma AllReadNext(kept: bool, r: Record, rest: seq<Record>, all: seq<Record>, cols: seq<Column>, m: Row,
                    rows: seq<Row>, allRows: seq<Row>)
    requires AllRead(rest, cols, rows) && (kept ==> Reads(r, cols, m))
    requires if kept then all == [r] + rest else all == rest
    requires if kept then allRows != [] && allRows[0] == m && allRows[1..] == rows else allRows == rows
    ensures AllRead(all, cols, allRows)
  {
    hide Reads;
    if kept { assert allRows == [m] + rows; }
  }

  lemma OneMatch(env: Env, lcols: seq<Column>, rcols: seq<Column>, u: Usage, ps: Operators.Pairs, step: seq<Equality>,
                 before: set<Source>, next: Source, l: Record, ml: Row, r: Record, mr: Row)
    requires Placed(lcols, rcols, before, next) && Stand(lcols, rcols, ps, step)
    requires ml.Keys == before && mr.Keys == {next} && l != [] && Reads(l, lcols, ml) && Reads(r, rcols, mr)
    ensures var o := LoopSpec(lcols, rcols, u, ps);
      && o.LeftOk(l) && o.RightOk(r) && Reads(o.Combine(l, r), UsedColumns(lcols, u) + UsedColumns(rcols, u), ml + mr)
      && (o.Compatible(l, r) <==> AllHold(env, AsExprs(step), ml + mr))
  {
    CombineReads(lcols, rcols, u, ps, step, before, next, l, ml, r, mr);
    CompatibleIff(env, lcols, rcols, before, next, step, LoopSpec(lcols, rcols, u, ps), l, ml, r, mr);
  }

  lemma MatchesFrom0(o: Operators.Spec, l: Record, rs: seq<Record>)
    requires o.LeftOk(l) && rs != [] && o.RightOk(rs[0]) && Operators.AllRight(o, rs[1..])
    ensures Operators.AllRight(o, rs)
    ensures var all, rest := Operators.Matches(o, l, rs), Operators.Matches(o, l, rs[1..]);
      if o.Compatible(l, rs[0]) then all == [o.Combine(l, rs[0])] + rest else all == rest
  {
    assert forall i :: 1 <= i < |rs| ==> rs[i] == rs[1..][i - 1];
  }

  lemma AllReadAppend(a: seq<Record>, a': seq<Record>, cols: seq<Column>, b: seq<Row>, b': seq<Row>)
    requires AllRead(a, cols, b) && AllRead(a', cols, b')
    ensures AllRead(a + a', cols, b + b')
  {
    hide Reads;
  }

  /** A nested loop hands out the rows of the product that meet the equalities it stands for, pruned. */
  lemma {:induction false} LoopReads(env: Env, lcols: seq<Column>, rcols: seq<Column>, u: Usage, ps: Operators.Pairs,
                                     step: seq<Equality>, before: set<Source>, next: Source,
                                     ls: seq<Record>, a: seq<Row>, rs: seq<Record>, b: seq<Row>)
    requires Placed(lcols, rcols, before, next) && Stand(lcols, rcols, ps, step) && lcols != []
    requires Keyed(a, before) && Keyed(b, {next}) && AllRead(ls, lcols, a) && AllRead(rs, rcols, b)
    ensures var o := LoopSpec(lcols, rcols, u, ps);
      && Operators.AllLeft(o, ls) && Operators.AllRight(o, rs)
      && AllRead(Operators.JoinRows(o, ls, rs), UsedColumns(lcols, u) + UsedColumns(rcols, u),
                 Filter(env, AsExprs(step), Cross(a, b)))
  {
    var o, es := LoopSpec(lcols, rcols, u, ps), AsExprs(step);
    RightsOk(lcols, rcols, u, ps, step, rs, b);
    if ls != [] {
      assert Reads(ls[0], lcols, a[0]);
      LoopReads(env, lcols, rcols, u, ps, step, before, next, ls[1..], a[1..], rs, b);
      MatchesRead(env, lcols, rcols, u, ps, step, before, next, ls[0], a[0], rs, b);
      hide Placed, Stand, Reads, LoopSpec, UsedColumns, AllHold, AsExprs;
      FilterAppend(env, es, Extend(a[0], b), Cross(a[1..], b));
      LeftsOk(o, ls);
      AllReadAppend(Operators.Matches(o, ls[0], rs), Operators.JoinRows(o, ls[1..], rs),
                    UsedColumns(lcols, u) + UsedColumns(rcols, u),
                    Filter(env, es, Extend(a[0], b)), Filter(env, es, Cross(a[1..], b)));
    }
  }

  lemma RightsOk(lcols: seq<Column>, rcols: seq<Column>, u: Usage, ps: Operators.Pairs, step: seq<Equality>,
                 rs: seq<Record>, b: seq<Row>)
    requires rcols != [] && Stand(lcols, rcols, ps, step) && AllRead(rs, rcols, b)
    ensures Operators.AllRight(LoopSpec(lcols, rcols, u, ps), rs)
  {
    forall i | 0 <= i < |rs| ensures LoopSpec(lcols, rcols, u, ps).RightOk(rs[i]) {
      assert Reads(rs[i], rcols, b[i]);
      SpecOk(lcols, rcols, u, ps, step, rs[i], rs[i]);
    }
  }

  lemma LeftsOk(o: Operators.Spec, ls: seq<Record>)
    requires ls != [] && o.LeftOk(ls[0]) && Operators.AllLeft(o, ls[1..])
    ensures Operators.AllLeft(o, ls)
  {
    assert forall i :: 1 <= i < |ls| ==> ls[i] == ls[1..][i - 1];
  }

  // ---------------------------------------------------------------- the product so far

  /** The children joined from the left, under the equalities between them. */
  ghost function JoinedRows(env: Env, eqs: seq<Equality>, ms: seq<seq<Row>>, srcs: seq<Source>): seq<Row>
    requires |ms| == |srcs| > 0
  {
    Filter(env, AsExprs(Between(eqs, SetOf(srcs))), LeftProduct(ms))
  }

  function LeftProduct(ms: seq<seq<Row>>): seq<Row>
    requires ms != []
  {
    if |ms| == 1 then ms[0] else Cross(LeftProduct(ms[..|ms| - 1]), ms[|ms| - 1])
  }

  lemma {:induction false} LeftProductKeyed(ms: seq<seq<Row>>, srcs: seq<Source>)
    requires |ms| == |srcs| > 0 && forall i :: 0 <= i < |ms| ==> Keyed(ms[i], {srcs[i]})
    ensures Keyed(LeftProduct(ms), SetOf(srcs))
  {
    var n := |ms| - 1;
    if n == 0 {
      assert SetOf(srcs) == {srcs[0]};
    } else {
      LeftProductKeyed(ms[..n], srcs[..n]);
      assert srcs == srcs[..n] + [srcs[n]];
      assert SetOf(srcs) == SetOf(srcs[..n]) + {srcs[n]};
      CrossKeyed(LeftProduct(ms[..n]), ms[n], SetOf(srcs[..n]), {srcs[n]});
    }
  }

  /** Filtering at each step is filtering at the end. */
  lemma NextStep(env: Env, eqs: seq<Equality>, ms: seq<seq<Row>>, srcs: seq<Source>)
    requires |ms| == |srcs| >= 2 && Distinct(srcs) && forall i :: 0 <= i < |ms| ==> Keyed(ms[i], {srcs[i]})
    ensures var n := |ms| - 1;
      JoinedRows(env, eqs, ms, srcs) ==
        Filter(env, AsExprs(Step(eqs, SetOf(srcs[..n]), srcs[n])),
               Cross(JoinedRows(env, eqs, ms[..n], srcs[..n]), ms[n]))
  {
    hide *;
    var n := |srcs| - 1;
    var before, step, all := AsExprs(Between(eqs, SetOf(srcs[..n]))), AsExprs(Step(eqs, SetOf(srcs[..n]), srcs[n])),
      AsExprs(Between(eqs, SetOf(srcs)));
    var rows := LeftProduct(ms[..n]);
    var product := Cross(rows, ms[n]);
    StepFacts(ms, srcs);
    BetweenLocal(eqs, SetOf(srcs[..n]));
    CrossLeft(env, before, rows, ms[n], SetOf(srcs[..n]), {srcs[n]});
    FilterTwice(env, before, step, product);
    forall i | 0 <= i < |product| ensures AllHold(env, before + step, product[i]) == AllHold(env, all, product[i]) {
      BetweenStepHolds(env, eqs, srcs, product[i]);
    }
    FilterSame(env, before + step, all, product);
    JoinedUnfold(env, eqs, ms, srcs);
  }

  lemma StepFacts(ms: seq<seq<Row>>, srcs: seq<Source>)
    requires |ms| == |srcs| >= 2 && Distinct(srcs) && forall i :: 0 <= i < |ms| ==> Keyed(ms[i], {srcs[i]})
    ensures var n := |ms| - 1;
      Keyed(LeftProduct(ms[..n]), SetOf(srcs[..n])) && Keyed(ms[n], {srcs[n]}) && SetOf(srcs[..n]) !! {srcs[n]}
  {
    LeftProductKeyed(ms[..|ms| - 1], srcs[..|ms| - 1]);
  }

  lemma JoinedUnfold(env: Env, eqs: seq<Equality>, ms: seq<seq<Row>>, srcs: seq<Source>)
    requires |ms| == |srcs| >= 2
    ensures var n := |ms| - 1;
      && JoinedRows(env, eqs, ms, srcs) ==
        Filter(env, AsExprs(Between(eqs, SetOf(srcs))), Cross(LeftProduct(ms[..n]), ms[n]))
      && JoinedRows(env, eqs, ms[..n], srcs[..n]) ==
        Filter(env, AsExprs(Between(eqs, SetOf(srcs[..n]))), LeftProduct(ms[..n]))
  {
  }

  lemma BetweenLocal(eqs: seq<Equality>, srcs: set<Source>)
    ensures Local(AsExprs(Between(eqs, srcs)), srcs)
  {
    var r := Between(eqs, srcs);
    forall i, c | 0 <= i < |r| && c in Columns(AsExprs(r)[i]) ensures c.source in srcs {
      assert Ends(r[i]) <= srcs;
    }
  }

  /** The equalities of the step join those between the relations before it. */
  lemma BetweenStep(eqs: seq<Equality>, srcs: seq<Source>)
    requires |srcs| >= 2 && Distinct(srcs)
    ensures var n := |srcs| - 1;
      var s, t, u := Between(eqs, SetOf(srcs[..n])), Step(eqs, SetOf(srcs[..n]), srcs[n]), Between(eqs, SetOf(srcs));
      && (forall i :: 0 <= i < |s| ==> s[i] in u) && (forall i :: 0 <= i < |t| ==> t[i] in u)
      && (forall i :: 0 <= i < |u| ==> u[i] in s || u[i] in t)
  {
    var n := |srcs| - 1;
    var s, t, u := Between(eqs, SetOf(srcs[..n])), Step(eqs, SetOf(srcs[..n]), srcs[n]), Between(eqs, SetOf(srcs));
    assert SetOf(srcs) == SetOf(srcs[..n]) + {srcs[n]} by { assert srcs == srcs[..n] + [srcs[n]]; }
    assert srcs[n] !in SetOf(srcs[..n]);
    forall i | 0 <= i < |s| ensures s[i] in u { var j :| 0 <= j < |eqs| && eqs[j] == s[i]; }
    forall i | 0 <= i < |t| ensures t[i] in u { var j :| 0 <= j < |eqs| && eqs[j] == t[i]; }
    forall i | 0 <= i < |u| ensures u[i] in s || u[i] in t {
      var j :| 0 <= j < |eqs| && eqs[j] == u[i];
      assert eqs[j].0.source in SetOf(srcs) && eqs[j].1.source in SetOf(srcs);
    }
  }

  lemma BetweenStepHolds(env: Env, eqs: seq<Equality>, srcs: seq<Source>, r: Row)
    requires |srcs| >= 2 && Distinct(srcs)
    ensures var n := |srcs| - 1;
      AllHold(env, AsExprs(Between(eqs, SetOf(srcs[..n]))) + AsExprs(Step(eqs, SetOf(srcs[..n]), srcs[n])), r)
      == AllHold(env, AsExprs(Between(eqs, SetOf(srcs))), r)
  {
    var n := |srcs| - 1;
    var s, t, u := Between(eqs, SetOf(srcs[..n])), Step(eqs, SetOf(srcs[..n]), srcs[n]), Between(eqs, SetOf(srcs));
    BetweenStep(eqs, srcs);
    hide AsExprs, Between, Step, SetOf, AllHold;
    PartsHold(env, s, t, u, r);
  }

  lemma {:induction false} PartsHold(env: Env, s: seq<Equality>, t: seq<Equality>, u: seq<Equality>, r: Row)
    requires forall i :: 0 <= i < |s| ==> s[i] in u
    requires forall i :: 0 <= i < |t| ==> t[i] in u
    requires forall i :: 0 <= i < |u| ==> u[i] in s || u[i] in t
    ensures AllHold(env, AsExprs(s) + AsExprs(t), r) == AllHold(env, AsExprs(u), r)
  {
    var parts, all := AsExprs(s) + AsExprs(t), AsExprs(u);
    PartsInAll(s, t, u);
    AllInParts(s, t, u);
    hide *;
    SameConditions(env, parts, all, r);
  }

  lemma AsExprIn(eq: Equality, s: seq<Equality>)
    requires eq in s
    ensures Equals(eq.0, eq.1) in AsExprs(s)
  {
    var j :| 0 <= j < |s| && s[j] == eq;
    assert AsExprs(s)[j] == Equals(eq.0, eq.1);
  }

  lemma PartsInAll(s: seq<Equality>, t: seq<Equality>, u: seq<Equality>)
    requires forall i :: 0 <= i < |s| ==> s[i] in u
    requires forall i :: 0 <= i < |t| ==> t[i] in u
    ensures var parts, all := AsExprs(s) + AsExprs(t), AsExprs(u);
      forall i :: 0 <= i < |parts| ==> parts[i] in all
  {
    var parts := AsExprs(s) + AsExprs(t);
    forall i | 0 <= i < |parts| ensures parts[i] in AsExprs(u) {
      AsExprIn(if i < |s| then s[i] else t[i - |s|], u);
    }
  }

  lemma AllInParts(s: seq<Equality>, t: seq<Equality>, u: seq<Equality>)
    requires forall i :: 0 <= i < |u| ==> u[i] in s || u[i] in t
    ensures var parts, all := AsExprs(s) + AsExprs(t), AsExprs(u);
      forall i :: 0 <= i < |all| ==> all[i] in parts
  {
    var all := AsExprs(u);
    forall i | 0 <= i < |all| ensures all[i] in AsExprs(s) + AsExprs(t) {
      InEither(AsExprs(s), AsExprs(t), all[i]);
      if u[i] in s { AsExprIn(u[i], s); } else { AsExprIn(u[i], t); }
    }
  }

  // ---------------------------------------------------------------- the visitor

  /** Each end of each equality counts as one use. */
  function Counted(u: Usage, eqs: seq<Equality>): Usage {
    if eqs == [] then u
    else
      var v, eq := Counted(u, eqs[..|eqs| - 1]), eqs[|eqs| - 1];
      var w := v[KeyOf(eq.0) := UsageOf(v, eq.0) + 1];
      w[KeyOf(eq.1) := UsageOf(w, eq.1) + 1]
  }

  /** The ends of equalities are in use. */
  ghost predicate EndsUsed(u: Usage, eqs: seq<Equality>) {
    forall i :: 0 <= i < |eqs| ==> UsageOf(u, eqs[i].0) > 0 && UsageOf(u, eqs[i].1) > 0
  }

  lemma {:induction false} CountedUses(u: Usage, eqs: seq<Equality>)
    ensures EndsUsed(Counted(u, eqs), eqs) && forall c :: UsageOf(Counted(u, eqs), c) >= UsageOf(u, c)
  {
    if eqs != [] { CountedUses(u, eqs[..|eqs| - 1]); }
  }

  function AllColumns(its: seq<Iter>): seq<Column> {
    if its == [] then [] else AllColumns(its[..|its| - 1]) + its[|its| - 1].columns
  }

  lemma UsedLast(cols: seq<Column>, c: Column, u: Usage)
    ensures UsedColumns(cols + [c], u) == UsedColumns(cols, u) + if UsageOf(u, c) > 0 then [c] else []
  {
    var all := cols + [c];
    assert all[..|all| - 1] == cols;
    var ps, qs := UsedPositions(cols, u), UsedPositions(all, u);
    assert qs == ps + if UsageOf(u, c) > 0 then [|cols|] else [];
    hide UsedPositions;
    assert forall i :: 0 <= i < |ps| ==> all[ps[i]] == cols[ps[i]];
  }

  lemma NoPositions(u: Usage)
    ensures UsedPositions([], u) == []
  {
  }

  lemma NextPosition(cols: seq<Column>, i: nat, u: Usage)
    requires i < |cols|
    ensures UsedPositions(cols[..i + 1], u) == UsedPositions(cols[..i], u) + if UsageOf(u, cols[i]) > 0 then [i] else []
  {
    assert cols[..i + 1][..i] == cols[..i];
  }

  lemma UsedNothing(u: Usage)
    ensures UsedColumns([], u) == []
  {
  }

  lemma {:induction false} UsedAppend(a: seq<Column>, b: seq<Column>, u: Usage)
    ensures UsedColumns(a + b, u) == UsedColumns(a, u) + UsedColumns(b, u)
  {
    hide UsedColumns;
    if b == [] {
      UsedNothing(u);
      assert a + b == a;
    } else {
      var n := |b| - 1;
      UsedAppend(a, b[..n], u);
      UsedLast(a + b[..n], b[n], u);
      UsedLast(b[..n], b[n], u);
      assert a + b[..n] + [b[n]] == a + b && b[..n] + [b[n]] == b;
    }
  }

  lemma {:induction false} UsedTwice(cols: seq<Column>, u: Usage)
    ensures UsedColumns(UsedColumns(cols, u), u) == UsedColumns(cols, u)
  {
    hide UsedColumns;
    if cols == [] {
      UsedNothing(u);
    } else {
      var n := |cols| - 1;
      UsedTwice(cols[..n], u);
      UsedLast(cols[..n], cols[n], u);
      var used := UsedColumns(cols[..n], u);
      UsedLast(used, cols[n], u);
      assert cols[..n] + [cols[n]] == cols && used + [] == used;
    }
  }

  lemma {:induction false} UsedMembers(cols: seq<Column>, u: Usage)
    ensures forall c :: c in UsedColumns(cols, u) <==> c in cols && UsageOf(u, c) > 0
  {
    hide UsedColumns;
    if cols == [] {
      UsedNothing(u);
    } else {
      var n := |cols| - 1;
      UsedMembers(cols[..n], u);
      UsedLast(cols[..n], cols[n], u);
      assert cols == cols[..n] + [cols[n]];
    }
  }

  ghost predicate From(cols: seq<Column>, srcs: set<Source>) {
    forall i :: 0 <= i < |cols| ==> cols[i].source in srcs
  }

  /** The columns of these relations that equalities compare are all there. */
  ghost predicate Offers(cols: seq<Column>, eqs: seq<Equality>, srcs: set<Source>) {
    forall i :: 0 <= i < |eqs| ==>
      (eqs[i].0.source in srcs ==> eqs[i].0 in cols) && (eqs[i].1.source in srcs ==> eqs[i].1 in cols)
  }

  ghost predicate Mentioned(eqs: seq<Equality>, src: Source) {
    exists i :: 0 <= i < |eqs| && (eqs[i].0.source == src || eqs[i].1.source == src)
  }

  /** A compiled child: it reads the rows of one relation and offers the columns that equalities compare. */
  ghost predicate Child(it: Iter, rows: seq<Row>, src: Source, eqs: seq<Equality>) {
    && Runs(it) && AllRead(Output(it), it.columns, rows) && Keyed(rows, {src})
    && From(it.columns, {src}) && Offers(it.columns, eqs, {src}) && Mentioned(eqs, src)
  }

  /** The children of a join in the order of the compilation, under different aliases, each in some equality. */
  ghost predicate JoinInput(children: seq<Iter>, eqs: seq<Equality>, ms: seq<seq<Row>>, srcs: seq<Source>) {
    && |children| == |ms| == |srcs| >= 2
    && (forall i :: 0 <= i < |children| ==> Child(children[i], ms[i], srcs[i], eqs))
    && (forall i, j :: 0 <= i < j < |srcs| ==> srcs[i].alias != srcs[j].alias)
    && (forall i :: 0 <= i < |eqs| ==> eqs[i].0.source in srcs && eqs[i].1.source in srcs)
  }

  /** The chain over the first children: it reads their joined rows and keeps what is still compared. */
  ghost predicate Chain(env: Env, it: Iter, eqs: seq<Equality>, ms: seq<seq<Row>>, srcs: seq<Source>) {
    && |ms| == |srcs| > 0 && Runs(it) && it.columns != []
    && AllRead(Output(it), it.columns, JoinedRows(env, eqs, ms, srcs))
    && From(it.columns, SetOf(srcs)) && Offers(it.columns, eqs, SetOf(srcs))
  }

  lemma ChainBegins(env: Env, children: seq<Iter>, eqs: seq<Equality>, ms: seq<seq<Row>>, srcs: seq<Source>)
    requires JoinInput(children, eqs, ms, srcs)
    ensures Chain(env, children[0], eqs, ms[..1], srcs[..1])
  {
    assert Child(children[0], ms[0], srcs[0], eqs);
    assert srcs[..1] == [srcs[0]] && SetOf(srcs[..1]) == {srcs[0]};
    BetweenOne(eqs, srcs[0]);
    FilterNothing(env, ms[0]);
    assert AsExprs([]) == [];
  }

  lemma {:induction false} BetweenOne(eqs: seq<Equality>, src: Source)
    ensures Between(eqs, {src}) == []
  {
    if eqs != [] {
      var eq := eqs[|eqs| - 1];
      BetweenOne(eqs[..|eqs| - 1], src);
      assert eq.0.source in Ends(eq) && eq.1.source in Ends(eq);
    }
  }

  /** One more child. */
  lemma {:induction false} ChainNext(env: Env, it: Iter, children: seq<Iter>, eqs: seq<Equality>, ms: seq<seq<Row>>,
                                     srcs: seq<Source>, u: Usage, j: nat)
    requires JoinInput(children, eqs, ms, srcs) && EndsUsed(u, eqs) && 0 < j < |children|
    requires Chain(env, it, eqs, ms[..j], srcs[..j])
    ensures children[j].columns != [] && it.columns != []
    ensures var lcols, rcols := it.columns, children[j].columns;
      Chain(env, Loop(UsedColumns(lcols, u) + UsedColumns(rcols, u), it, children[j],
                      LoopSpec(lcols, rcols, u, Pairs(lcols, rcols, eqs))),
            eqs, ms[..j + 1], srcs[..j + 1])
  {
    var lcols, rcols := it.columns, children[j].columns;
    var before, next := SetOf(srcs[..j]), srcs[j];
    InputFacts(children, eqs, ms, srcs, j);
    ChainFacts(env, it, eqs, ms[..j], srcs[..j]);
    hide JoinInput, Joinable, Pairs, Placed, Stand, AllRead, JoinedRows, UsedColumns, Keyed, EndsUsed, LoopSpec, Step,
      Child, Chain, SetOf, Offers, From;
    ChainJoinable(lcols, rcols, eqs, srcs, j);
    JoinedKeyed(env, eqs, ms[..j], srcs[..j]);
    PairsStand(lcols, rcols, before, next, eqs);
    JoinablePlaced(lcols, rcols, before, next, eqs);
    LoopReads(env, lcols, rcols, u, Pairs(lcols, rcols, eqs), Step(eqs, before, next), before, next,
              Output(it), JoinedRows(env, eqs, ms[..j], srcs[..j]), Output(children[j]), ms[j]);
    NextStepAt(env, eqs, ms, srcs, j);
    ChainColumns(lcols, rcols, before, next, eqs, u);
    LoopRuns(it, children[j], u, eqs);
    ChainIs(env, Loop(UsedColumns(lcols, u) + UsedColumns(rcols, u), it, children[j],
                      LoopSpec(lcols, rcols, u, Pairs(lcols, rcols, eqs))),
            eqs, ms[..j + 1], srcs[..j + 1]);
  }

  lemma JoinablePlaced(lcols: seq<Column>, rcols: seq<Column>, before: set<Source>, next: Source, eqs: seq<Equality>)
    requires Joinable(lcols, rcols, before, next, eqs)
    ensures Placed(lcols, rcols, before, next)
  {
  }

  lemma ChainIs(env: Env, it: Iter, eqs: seq<Equality>, ms: seq<seq<Row>>, srcs: seq<Source>)
    requires |ms| == |srcs| > 0 && Runs(it) && it.columns != []
    requires AllRead(Output(it), it.columns, JoinedRows(env, eqs, ms, srcs))
    requires From(it.columns, SetOf(srcs)) && Offers(it.columns, eqs, SetOf(srcs))
    ensures Chain(env, it, eqs, ms, srcs)
  {
  }

  lemma ChainFacts(env: Env, it: Iter, eqs: seq<Equality>, ms: seq<seq<Row>>, srcs: seq<Source>)
    requires Chain(env, it, eqs, ms, srcs)
    ensures |ms| == |srcs| > 0 && Runs(it) && it.columns != []
    ensures AllRead(Output(it), it.columns, JoinedRows(env, eqs, ms, srcs))
    ensures From(it.columns, SetOf(srcs)) && Offers(it.columns, eqs, SetOf(srcs))
  {
  }

  lemma InputFacts(children: seq<Iter>, eqs: seq<Equality>, ms: seq<seq<Row>>, srcs: seq<Source>, j: nat)
    requires JoinInput(children, eqs, ms, srcs) && 0 < j < |children|
    ensures Child(children[j], ms[j], srcs[j], eqs) && children[j].columns != [] && Runs(children[j])
    ensures AllRead(Output(children[j]), children[j].columns, ms[j]) && Keyed(ms[j], {srcs[j]})
    ensures From(children[j].columns, {srcs[j]})
    ensures Offers(children[j].columns, eqs, {srcs[j]}) && Mentioned(eqs, srcs[j])
    ensures Distinct(srcs) && srcs[j] !in SetOf(srcs[..j]) && SetOf(srcs[..j + 1]) == SetOf(srcs[..j]) + {srcs[j]}
    ensures forall i :: 0 <= i < |ms| ==> Keyed(ms[i], {srcs[i]})
    ensures KnownEnds(eqs, srcs, j)
  {
    assert Child(children[j], ms[j], srcs[j], eqs);
    assert srcs[..j + 1] == srcs[..j] + [srcs[j]];
    forall i | 0 <= i < |ms| ensures Keyed(ms[i], {srcs[i]}) { assert Child(children[i], ms[i], srcs[i], eqs); }
    hide Keyed, AllRead, Runs;
    forall i, c | 0 <= i < |eqs| && c in {eqs[i].0, eqs[i].1} && c.source.alias == srcs[j].alias
      ensures c.source == srcs[j] {
      var k :| 0 <= k < |srcs| && srcs[k] == c.source;
    }
  }

  /** An end of an equality under the alias of relation `j` is a column of that relation. */
  ghost predicate KnownEnds(eqs: seq<Equality>, srcs: seq<Source>, j: nat)
    requires j < |srcs|
  {
    forall i :: 0 <= i < |eqs| ==>
      && (eqs[i].0.source.alias == srcs[j].alias ==> eqs[i].0.source == srcs[j])
      && (eqs[i].1.source.alias == srcs[j].alias ==> eqs[i].1.source == srcs[j])
  }

  lemma ChainJoinable(lcols: seq<Column>, rcols: seq<Column>, eqs: seq<Equality>, srcs: seq<Source>, j: nat)
    requires j < |srcs| && rcols != [] && srcs[j] !in SetOf(srcs[..j]) && KnownEnds(eqs, srcs, j)
    requires From(lcols, SetOf(srcs[..j])) && Offers(lcols, eqs, SetOf(srcs[..j]))
    requires From(rcols, {srcs[j]}) && Offers(rcols, eqs, {srcs[j]})
    ensures Joinable(lcols, rcols, SetOf(srcs[..j]), srcs[j], eqs)
  {
    forall i | 0 <= i < |eqs|
      ensures Offered(eqs[i].0, lcols, rcols, SetOf(srcs[..j]), srcs[j])
      ensures Offered(eqs[i].1, lcols, rcols, SetOf(srcs[..j]), srcs[j])
    {
      assert eqs[i].0.source == srcs[j] ==> eqs[i].0.source in {srcs[j]};
      assert eqs[i].1.source == srcs[j] ==> eqs[i].1.source in {srcs[j]};
    }
  }

  lemma JoinedKeyed(env: Env, eqs: seq<Equality>, ms: seq<seq<Row>>, srcs: seq<Source>)
    requires |ms| == |srcs| > 0 && forall i :: 0 <= i < |ms| ==> Keyed(ms[i], {srcs[i]})
    ensures Keyed(JoinedRows(env, eqs, ms, srcs), SetOf(srcs))
  {
    LeftProductKeyed(ms, srcs);
    FilterKeyed(env, AsExprs(Between(eqs, SetOf(srcs))), LeftProduct(ms), SetOf(srcs));
  }

  lemma NextStepAt(env: Env, eqs: seq<Equality>, ms: seq<seq<Row>>, srcs: seq<Source>, j: nat)
    requires |ms| == |srcs| && 0 < j < |ms| && Distinct(srcs) && forall i :: 0 <= i < |ms| ==> Keyed(ms[i], {srcs[i]})
    ensures JoinedRows(env, eqs, ms[..j + 1], srcs[..j + 1]) ==
      Filter(env, AsExprs(Step(eqs, SetOf(srcs[..j]), srcs[j])), Cross(JoinedRows(env, eqs, ms[..j], srcs[..j]), ms[j]))
  {
    assert ms[..j + 1][..j] == ms[..j] && srcs[..j + 1][..j] == srcs[..j];
    NextStep(env, eqs, ms[..j + 1], srcs[..j + 1]);
  }

  lemma ChainColumns(lcols: seq<Column>, rcols: seq<Column>, before: set<Source>, next: Source, eqs: seq<Equality>,
                     u: Usage)
    requires From(lcols, before) && Offers(lcols, eqs, before) && From(rcols, {next}) && Offers(rcols, eqs, {next})
    requires EndsUsed(u, eqs) && Mentioned(eqs, next)
    ensures var cols := UsedColumns(lcols, u) + UsedColumns(rcols, u);
      cols != [] && From(cols, before + {next}) && Offers(cols, eqs, before + {next})
  {
    var a, b := UsedColumns(lcols, u), UsedColumns(rcols, u);
    UsedMembers(lcols, u);
    UsedMembers(rcols, u);
    hide UsedColumns;
    assert forall c :: c in a + b <==> c in a || c in b;
    var i :| 0 <= i < |eqs| && (eqs[i].0.source == next || eqs[i].1.source == next);
    assert (if eqs[i].0.source == next then eqs[i].0 else eqs[i].1) in b;
    forall k | 0 <= k < |a + b| ensures (a + b)[k].source in before + {next} {
      assert (a + b)[k] in a + b;
    }
  }

  lemma LoopRuns(it: Iter, child: Iter, u: Usage, eqs: seq<Equality>)
    requires Runs(it) && Runs(child) && child.columns != []
    requires UsedColumns(it.columns, u) + UsedColumns(child.columns, u) != []
    requires var o := LoopSpec(it.columns, child.columns, u, Pairs(it.columns, child.columns, eqs));
      Operators.AllLeft(o, Output(it)) && Operators.AllRight(o, Output(child))
    ensures var o := LoopSpec(it.columns, child.columns, u, Pairs(it.columns, child.columns, eqs));
      var loop := Loop(UsedColumns(it.columns, u) + UsedColumns(child.columns, u), it, child, o);
      Runs(loop) && Output(loop) == Operators.JoinRows(o, Output(it), Output(child))
  {
  }

  class Optimizer {
    var columnUsage: Usage
    var currentIter: Iter

    constructor (usage: Usage)
      ensures columnUsage == usage
    {
      columnUsage := usage;
      currentIter := Leaf([], []);
    }

    method CountUses(eqs: seq<Equality>)
      modifies this`columnUsage
      ensures columnUsage == Counted(old(columnUsage), eqs)
    {
      for i := 0 to |eqs|
        invariant columnUsage == Counted(old(columnUsage), eqs[..i])
      {
        assert eqs[..i + 1][..i] == eqs[..i];
        columnUsage := columnUsage[KeyOf(eqs[i].0) := UsageOf(columnUsage, eqs[i].0) + 1];
        columnUsage := columnUsage[KeyOf(eqs[i].1) := UsageOf(columnUsage, eqs[i].1) + 1];
      }
      assert eqs[..|eqs|] == eqs;
    }

    /** Takes back what was counted: the usage is as before. */
    method UncountUses(eqs: seq<Equality>, ghost before: Usage)
      requires SameUsage(columnUsage, Counted(before, eqs))
      modifies this`columnUsage
      ensures SameUsage(columnUsage, before)
    {
      CountedMentions(before, eqs);
      assert eqs[0..] == eqs;
      for i := 0 to |eqs|
        invariant forall c :: UsageOf(columnUsage, c) == UsageOf(before, c) + Mentions(eqs[i..], c)
      {
        MentionsNext(eqs, i);
        var eq := eqs[i];
        assert UsageOf(columnUsage, eq.0) >= Mentions(eqs[i..], eq.0)
          && UsageOf(columnUsage, eq.1) >= Mentions(eqs[i..], eq.1);
        columnUsage := columnUsage[KeyOf(eq.0) := UsageOf(columnUsage, eq.0) - 1];
        columnUsage := columnUsage[KeyOf(eq.1) := UsageOf(columnUsage, eq.1) - 1];
      }
    }

    method UsedOf(cols: seq<Column>) returns (ps: seq<nat>)
      ensures ps == UsedPositions(cols, columnUsage)
    {
      hide UsedPositions;
      ps := [];
      NoPositions(columnUsage);
      for i := 0 to |cols|
        invariant ps == UsedPositions(cols[..i], columnUsage)
      {
        NextPosition(cols, i, columnUsage);
        if UsageOf(columnUsage, cols[i]) > 0 { ps := ps + [i]; }
      }
      assert cols[..|cols|] == cols;
    }

    static method FindColumn(cols: seq<Column>, c: Column) returns (p: nat)
      ensures p == Find(cols, c)
    {
      p := 0;
      while p < |cols|
        invariant p <= |cols| && c !in cols[..p] && Find(cols, c) == p + Find(cols[p..], c)
      {
        if cols[p] == c { return; }
        p := p + 1;
      }
    }

    /** The equalities of one step, as positions. */
    static method PairsOf(lcols: seq<Column>, rcols: seq<Column>, eqs: seq<Equality>) returns (ps: Operators.Pairs)
      requires rcols != []
      ensures ps == Pairs(lcols, rcols, eqs)
    {
      ps := [];
      for i := 0 to |eqs|
        invariant ps == Pairs(lcols, rcols, eqs[..i])
      {
        assert eqs[..i + 1][..i] == eqs[..i];
        var swap := eqs[i].0.source.alias == rcols[0].source.alias;
        var lhsColumn := if swap then eqs[i].1 else eqs[i].0;
        var rhsColumn := if swap then eqs[i].0 else eqs[i].1;
        var lhsPos := FindColumn(lcols, lhsColumn);
        var rhsPos := FindColumn(rcols, rhsColumn);
        if lhsPos < |lcols| && rhsPos < |rcols| { ps := ps + [(lhsPos, rhsPos)]; }
      }
      assert eqs[..|eqs|] == eqs;
    }

    /**
     * The left-deep chain over the children in the order given: it hands out the rows of their product that
     * meet every equality between two of them, in the order of nested loops, reduced to the columns in use.
     * The usage counts are as before.
     */
    method VisitJoin(children: seq<Iter>, joinColumns: seq<Equality>, ghost env: Env, ghost ms: seq<seq<Row>>,
                     ghost srcs: seq<Source>)
      requires JoinInput(children, joinColumns, ms, srcs)
      modifies this
      ensures SameUsage(columnUsage, old(columnUsage))
      ensures Runs(currentIter)
      ensures AllRead(Output(currentIter), currentIter.columns, JoinedRows(env, joinColumns, ms, srcs))
      ensures currentIter.columns == UsedColumns(AllColumns(children), Counted(old(columnUsage), joinColumns))
    {
      hide JoinInput, Chain, Counted, UsedColumns, EndsUsed, Pairs, UsedPositions, ColumnsAt;
      CountUses(joinColumns);
      ghost var u := columnUsage;
      CountedUses(old(columnUsage), joinColumns);
      SomeChildren(children, joinColumns, ms, srcs);
      ChainBegins(env, children, joinColumns, ms, srcs);
      currentIter := children[0];
      ColumnsBegin(children);
      for j := 1 to |children|
        invariant columnUsage == u && Chain(env, currentIter, joinColumns, ms[..j], srcs[..j])
        invariant UsedColumns(currentIter.columns, u) == UsedColumns(AllColumns(children[..j]), u)
        invariant j > 1 ==> currentIter.columns == UsedColumns(AllColumns(children[..j]), u)
      {
        ChainNext(env, currentIter, children, joinColumns, ms, srcs, u, j);
        ColumnsNext(children, currentIter.columns, u, j);
        var lhs, rhs := currentIter, children[j];
        var left := UsedOf(lhs.columns);
        var right := UsedOf(rhs.columns);
        var equalities := PairsOf(lhs.columns, rhs.columns, joinColumns);
        UsedAre(lhs.columns, u);
        UsedAre(rhs.columns, u);
        currentIter := Loop(ColumnsAt(lhs.columns, left) + ColumnsAt(rhs.columns, right), lhs, rhs,
                            Operators.Spec(left, right, equalities));
      }
      assert children[..|children|] == children && ms[..|ms|] == ms && srcs[..|srcs|] == srcs;
      ChainFacts(env, currentIter, joinColumns, ms, srcs);
      UncountUses(joinColumns, old(columnUsage));
    }
  }

  lemma SomeChildren(children: seq<Iter>, eqs: seq<Equality>, ms: seq<seq<Row>>, srcs: seq<Source>)
    requires JoinInput(children, eqs, ms, srcs)
    ensures |children| == |ms| == |srcs| >= 2
  {
  }

  lemma ColumnsBegin(children: seq<Iter>)
    requires children != []
    ensures AllColumns(children[..1]) == children[0].columns
  {
    assert children[..1][..0] == [];
  }

  /** The columns of the chain after one more child. */
  lemma ColumnsNext(children: seq<Iter>, cols: seq<Column>, u: Usage, j: nat)
    requires 0 < j < |children| && UsedColumns(cols, u) == UsedColumns(AllColumns(children[..j]), u)
    ensures var next := UsedColumns(cols, u) + UsedColumns(children[j].columns, u);
      next == UsedColumns(AllColumns(children[..j + 1]), u) == UsedColumns(next, u)
  {
    hide UsedColumns;
    assert children[..j + 1][..j] == children[..j];
    UsedAppend(AllColumns(children[..j]), children[j].columns, u);
    UsedTwice(AllColumns(children[..j + 1]), u);
  }

  lemma UsedAre(cols: seq<Column>, u: Usage)
    ensures UsedColumns(cols, u) == ColumnsAt(cols, UsedPositions(cols, u))
  {
  }

  ghost predicate SameUsage(u: Usage, v: Usage) {
    forall c :: UsageOf(u, c) == UsageOf(v, c)
  }

  /** How many ends of this equality count for the column. */
  function EndsAt(eq: Equality, c: Column): nat {
    (if KeyOf(eq.0) == KeyOf(c) then 1 else 0) + if KeyOf(eq.1) == KeyOf(c) then 1 else 0
  }

  function Mentions(eqs: seq<Equality>, c: Column): nat {
    if eqs == [] then 0 else EndsAt(eqs[0], c) + Mentions(eqs[1..], c)
  }

  lemma MentionsNext(eqs: seq<Equality>, i: nat)
    requires i < |eqs|
    ensures forall c :: Mentions(eqs[i..], c) == EndsAt(eqs[i], c) + Mentions(eqs[i + 1..], c)
  {
    assert eqs[i..][1..] == eqs[i + 1..];
  }

  lemma {:induction false} CountedMentions(u: Usage, eqs: seq<Equality>)
    ensures forall c :: UsageOf(Counted(u, eqs), c) == UsageOf(u, c) + Mentions(eqs, c)
  {
    if eqs != [] {
      var n := |eqs| - 1;
      CountedMentions(u, eqs[..n]);
      forall c ensures Mentions(eqs, c) == Mentions(eqs[..n], c) + EndsAt(eqs[n], c) { MentionsLast(eqs, c); }
    }
  }

  lemma {:induction false} MentionsLast(eqs: seq<Equality>, c: Column)
    requires eqs != []
    ensures var n := |eqs| - 1; Mentions(eqs, c) == Mentions(eqs[..n], c) + EndsAt(eqs[n], c)
  {
    var n := |eqs| - 1;
    if n > 0 {
      MentionsLast(eqs[1..], c);
      assert eqs[1..][..n - 1] == eqs[..n][1..];
    }
  }

  // ---------------------------------------------------------------- leaves

  /** The columns that `visit` of a relation lists: those in use, and the last one, which is the RID. */
  function ListedPositions(n: nat, schema: seq<Column>, u: Usage): (ps: seq<nat>)
    requires n <= |schema|
    ensures forall i :: 0 <= i < |ps| ==> ps[i] < n && (UsageOf(u, schema[ps[i]]) > 0 || ps[i] == |schema| - 1)
    ensures forall i, j :: 0 <= i < j < |ps| ==> ps[i] < ps[j]
    ensures forall k :: 0 <= k < n && (UsageOf(u, schema[k]) > 0 || k == |schema| - 1) ==> k in ps
  {
    if n == 0 then []
    else ListedPositions(n - 1, schema, u) + if UsageOf(u, schema[n - 1]) > 0 || n == |schema| then [n - 1] else []
  }

  /** The position in the list of every used column is its position in the record. */
  ghost predicate PositionsRight(schema: seq<Column>, u: Usage) {
    var ps := ListedPositions(|schema|, schema, u);
    forall i :: 0 <= i < |ps| && UsageOf(u, schema[ps[i]]) > 0 ==> ps[i] == i
  }

  /** The used columns come first. */
  ghost predicate UsedFirst(schema: seq<Column>, u: Usage) {
    forall a, b :: 0 <= a < b < |schema| && UsageOf(u, schema[b]) > 0 ==> UsageOf(u, schema[a]) > 0
  }

  /**
   * A relation lists the pruned columns but hands out the whole record: positions in the list are right for
   * every used column exactly when the used columns come first in the schema.
   */
  lemma PrunedRelationExact(schema: seq<Column>, u: Usage)
    requires schema != []
    ensures PositionsRight(schema, u) <==> UsedFirst(schema, u)
  {
    if PositionsRight(schema, u) { RightMeansFirst(schema, u); }
    if UsedFirst(schema, u) { FirstMeansRight(schema, u); }
  }

  lemma RightMeansFirst(schema: seq<Column>, u: Usage)
    requires schema != [] && PositionsRight(schema, u)
    ensures UsedFirst(schema, u)
  {
    var ps := ListedPositions(|schema|, schema, u);
    forall a, b | 0 <= a < b < |schema| && UsageOf(u, schema[b]) > 0 ensures UsageOf(u, schema[a]) > 0 {
      assert b in ps;
      var i :| 0 <= i < |ps| && ps[i] == b;
      assert i == b;
      Climbing(ps, a, b);
      assert ps[a] == a;
    }
  }

  lemma FirstMeansRight(schema: seq<Column>, u: Usage)
    requires schema != [] && UsedFirst(schema, u)
    ensures PositionsRight(schema, u)
  {
    var ps := ListedPositions(|schema|, schema, u);
    forall i | 0 <= i < |ps| && UsageOf(u, schema[ps[i]]) > 0 ensures ps[i] == i {
      forall k | 0 <= k <= ps[i] ensures k in ps {
        assert k < ps[i] ==> UsageOf(u, schema[k]) > 0;
      }
      Complete(ps, i);
    }
  }

  /** A climbing list of numbers that is at `b` after `b` steps has been at every number before. */
  lemma {:induction false} Climbing(ps: seq<nat>, a: nat, b: nat)
    requires Operators.Climbs(ps) && a <= b < |ps| && ps[b] == b
    ensures ps[a] == a
    decreases b - a
  {
    Operators.AtLeast(ps, a);
    if a < b {
      Climbing(ps, a + 1, b);
      assert ps[a] < ps[a + 1];
    }
  }

  /** A climbing list with every number up to its entry `i` has them at their own positions. */
  lemma {:induction false} Complete(ps: seq<nat>, i: nat)
    requires Operators.Climbs(ps) && i < |ps| && forall k :: 0 <= k <= ps[i] ==> k in ps
    ensures ps[i] == i
    decreases i
  {
    Operators.AtLeast(ps, i);
    if i > 0 {
      assert ps[i - 1] < ps[i];
      Complete(ps, i - 1);
    }
    assert i in ps;
    var j :| 0 <= j < |ps| && ps[j] == i;
    SitsAt(ps, i, j);
  }

  lemma SitsAt(ps: seq<nat>, i: nat, j: nat)
    requires Operators.Climbs(ps) && i < |ps| && j < |ps| && ps[j] == i <= ps[i] && (i > 0 ==> ps[i - 1] == i - 1)
    ensures j == i
  {
  }
}
