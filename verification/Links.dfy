/** Columns linked by equalities, and tables in which columns that are not linked differ. */
module Links {
  import opened Model
  import opened Bags
  import opened Plans
  import opened RowCounts

  // ---------------------------------------------------------------- chains of equalities

  /** An equality compares these columns. */
  ghost predicate Equates(eqs: seq<Equality>, a: Column, b: Column) {
    (a, b) in eqs || (b, a) in eqs
  }

  ghost predicate IsPath(eqs: seq<Equality>, path: seq<Column>) {
    path != [] && forall i :: 0 <= i < |path| - 1 ==> Equates(eqs, path[i], path[i + 1])
  }

  /** A chain of equalities leads from one column to the other. */
  ghost predicate Chained(eqs: seq<Equality>, a: Column, b: Column) {
    exists path :: IsPath(eqs, path) && path[0] == a && path[|path| - 1] == b
  }

  lemma ChainedSelf(eqs: seq<Equality>, a: Column)
    ensures Chained(eqs, a, a)
  {
    assert IsPath(eqs, [a]);
  }

  lemma ChainedNext(eqs: seq<Equality>, a: Column, b: Column, c: Column)
    requires Chained(eqs, a, b) && Equates(eqs, b, c)
    ensures Chained(eqs, a, c)
  {
    var path :| IsPath(eqs, path) && path[0] == a && path[|path| - 1] == b;
    assert IsPath(eqs, path + [c]);
  }

  /** A row that meets the equalities has one value all along a chain. */
  lemma ChainHolds(env: Env, eqs: seq<Equality>, r: Row, a: Column, b: Column)
    requires AllHold(env, AsExprs(eqs), r) && Chained(eqs, a, b)
    ensures Lookup(r, a) == Lookup(r, b)
  {
    var path :| IsPath(eqs, path) && path[0] == a && path[|path| - 1] == b;
    PathHolds(env, eqs, r, path);
  }

  lemma {:induction false} PathHolds(env: Env, eqs: seq<Equality>, r: Row, path: seq<Column>)
    requires AllHold(env, AsExprs(eqs), r) && IsPath(eqs, path)
    ensures Lookup(r, path[0]) == Lookup(r, path[|path| - 1])
  {
    var n := |path| - 1;
    if n > 0 {
      assert IsPath(eqs, path[..n]);
      PathHolds(env, eqs, r, path[..n]);
      assert Equates(eqs, path[n - 1], path[n]);
      EqualityHolds(env, eqs, r,
                    if (path[n - 1], path[n]) in eqs then (path[n - 1], path[n]) else (path[n], path[n - 1]));
    }
  }

  lemma EqualityHolds(env: Env, eqs: seq<Equality>, r: Row, eq: Equality)
    requires AllHold(env, AsExprs(eqs), r) && eq in eqs
    ensures Lookup(r, eq.0) == Lookup(r, eq.1)
  {
    var i :| 0 <= i < |eqs| && eqs[i] == eq;
    assert Holds(env, AsExprs(eqs)[i], r);
  }

  function ColumnsOf(eqs: seq<Equality>): (cs: set<Column>)
    ensures forall i :: 0 <= i < |eqs| ==> eqs[i].0 in cs && eqs[i].1 in cs
  {
    if eqs == [] then {} else {eqs[0].0, eqs[0].1} + ColumnsOf(eqs[1..])
  }

  /** The columns linked with `a`. */
  ghost function ClassOf(eqs: seq<Equality>, a: Column): set<Column> {
    set c | c in ColumnsOf(eqs) + {a} && Chained(eqs, a, c)
  }

  /** No equality leaves the class. */
  lemma ClassIsClosed(eqs: seq<Equality>, a: Column)
    ensures a in ClassOf(eqs, a) && NoneLeaves(eqs, ClassOf(eqs, a))
    ensures forall c :: c in ClassOf(eqs, a) ==> Chained(eqs, a, c)
  {
    ChainedSelf(eqs, a);
    forall i | 0 <= i < |eqs| ensures eqs[i].0 in ClassOf(eqs, a) <==> eqs[i].1 in ClassOf(eqs, a) {
      assert Equates(eqs, eqs[i].0, eqs[i].1) && Equates(eqs, eqs[i].1, eqs[i].0);
      if Chained(eqs, a, eqs[i].0) { ChainedNext(eqs, a, eqs[i].0, eqs[i].1); }
      if Chained(eqs, a, eqs[i].1) { ChainedNext(eqs, a, eqs[i].1, eqs[i].0); }
    }
  }

  ghost predicate NoneLeaves(eqs: seq<Equality>, marked: set<Column>) {
    forall i :: 0 <= i < |eqs| ==> (eqs[i].0 in marked <==> eqs[i].1 in marked)
  }

  /** The equalities between different relations. */
  function Crossing(eqs: seq<Equality>): (r: seq<Equality>)
    ensures forall i :: 0 <= i < |r| ==> r[i] in eqs && r[i].0.source != r[i].1.source
    ensures forall i :: 0 <= i < |eqs| && eqs[i].0.source != eqs[i].1.source ==> eqs[i] in r
  {
    if eqs == [] then []
    else
      var eq := eqs[|eqs| - 1];
      Crossing(eqs[..|eqs| - 1]) + if eq.0.source != eq.1.source then [eq] else []
  }

  /** The columns of every equality inside one relation are linked by equalities between relations. */
  ghost predicate InsideChained(eqs: seq<Equality>) {
    forall i :: 0 <= i < |eqs| && eqs[i].0.source == eqs[i].1.source ==> Chained(Crossing(eqs), eqs[i].0, eqs[i].1)
  }

  /** If the columns of inside equalities are linked, the equalities between relations say it all. */
  lemma CrossingSuffices(env: Env, eqs: seq<Equality>, r: Row)
    requires InsideChained(eqs)
    ensures AllHold(env, AsExprs(Crossing(eqs)), r) == AllHold(env, AsExprs(eqs), r)
  {
    var crossing := Crossing(eqs);
    hide Chained, Lookup;
    if AllHold(env, AsExprs(eqs), r) {
      forall i | 0 <= i < |crossing| ensures Holds(env, AsExprs(crossing)[i], r) {
        EqualityHolds(env, eqs, r, crossing[i]);
      }
    }
    if AllHold(env, AsExprs(crossing), r) {
      forall i | 0 <= i < |eqs| ensures Holds(env, AsExprs(eqs)[i], r) {
        if eqs[i].0.source != eqs[i].1.source {
          EqualityHolds(env, crossing, r, eqs[i]);
        } else {
          ChainHolds(env, crossing, r, eqs[i].0, eqs[i].1);
        }
      }
    }
  }

  /** An inside equality that is not so linked fails in a row that meets all equalities between relations. */
  lemma UnlinkedFails(env: Env, schemas: Schemas, srcs: seq<Source>, es: seq<Expr>, eqs: seq<Equality>, e: Expr)
    requires Typed(schemas, es) && Local(es, SetOf(srcs)) && e in es && e.Equals?
    requires !Chained(Crossing(eqs), e.left, e.right)
    ensures !AllHold(env, es, MarkedRow(schemas, ClassOf(Crossing(eqs), e.left), srcs))
    ensures NoneLeaves(Crossing(eqs), ClassOf(Crossing(eqs), e.left))
  {
    ClassIsClosed(Crossing(eqs), e.left);
    hide ClassOf, Chained;
    MarkedRowFails(env, schemas, ClassOf(Crossing(eqs), e.left), srcs, es, e);
  }

  // ---------------------------------------------------------------- tables that tell some columns from the others

  /** One value of the type for marked columns, another for the others. */
  function Mark(t: ColumnType, marked: bool): (v: Value)
    ensures HasType(v, t) && v != StandIn(t)
  {
    match t
    case StrColumn => Str([if marked then 49 else 50])
    case IntColumn => Int(if marked then 1 else 2)
    case RidColumn => Rid(RID(0, if marked then 1 else 2))
  }

  function MarkedTuple(schemas: Schemas, marked: set<Column>, src: Source): (t: Tuple)
    ensures TupleFits(t, SchemaOf(schemas, src.table))
  {
    var schema := SchemaOf(schemas, src.table);
    map n | n in schema :: Mark(schema[n], Column(src, n) in marked)
  }

  /** The tuples of all relations over one table. */
  function MarkedTuples(schemas: Schemas, marked: set<Column>, srcs: seq<Source>, table: string): (ts: seq<Tuple>)
    ensures forall i :: 0 <= i < |ts| ==> TupleFits(ts[i], SchemaOf(schemas, table))
  {
    if srcs == [] then []
    else
      var rest := MarkedTuples(schemas, marked, srcs[1..], table);
      if srcs[0].table == table then [MarkedTuple(schemas, marked, srcs[0])] + rest else rest
  }

  function TablesOf(srcs: seq<Source>): set<string> {
    set i | 0 <= i < |srcs| :: srcs[i].table
  }

  /** Each table has the tuples of its relations, and every test succeeds. */
  function MarkedTables(schemas: Schemas, marked: set<Column>, srcs: seq<Source>): Env {
    Env(map t | t in TablesOf(srcs) :: MarkedTuples(schemas, marked, srcs, t), schemas, (_, _) => true)
  }

  function MarkedRow(schemas: Schemas, marked: set<Column>, srcs: seq<Source>): Row {
    map s | s in SetOf(srcs) :: MarkedTuple(schemas, marked, s)
  }

  lemma MarkedIsFilled(schemas: Schemas, marked: set<Column>, srcs: seq<Source>)
    ensures Filled(MarkedTables(schemas, marked, srcs), schemas)
  {
  }

  lemma {:induction false} MarkedTupleOccurs(schemas: Schemas, marked: set<Column>, srcs: seq<Source>, s: Source)
    requires s in srcs
    ensures Occurrences(MarkedTuples(schemas, marked, srcs, s.table), MarkedTuple(schemas, marked, s)) >= 1
  {
    var ts := MarkedTuples(schemas, marked, srcs, s.table);
    if srcs[0] == s {
      assert ts[0] == MarkedTuple(schemas, marked, s);
    } else {
      MarkedTupleOccurs(schemas, marked, srcs[1..], s);
      assert srcs[0].table == s.table ==> ts[1..] == MarkedTuples(schemas, marked, srcs[1..], s.table);
    }
  }

  lemma MarkedRowOccurs(schemas: Schemas, marked: set<Column>, srcs: seq<Source>)
    ensures Weight(MarkedTables(schemas, marked, srcs), srcs, MarkedRow(schemas, marked, srcs)) >= 1
    ensures MarkedRow(schemas, marked, srcs).Keys == SetOf(srcs)
  {
    var env, r := MarkedTables(schemas, marked, srcs), MarkedRow(schemas, marked, srcs);
    forall s | s in srcs ensures s in r && Occurrences(TableOf(env, s.table), r[s]) >= 1 {
      assert s in SetOf(srcs);
      MarkedTupleOccurs(schemas, marked, srcs, s);
    }
    WeightPositive(env, srcs, r);
  }

  /** Two comparable columns of the row are equal when both are marked or none is. */
  lemma MarkedEqual(schemas: Schemas, marked: set<Column>, srcs: seq<Source>, a: Column, b: Column)
    requires Comparable(schemas, a, b) && a.source in srcs && b.source in srcs
    ensures var r := MarkedRow(schemas, marked, srcs);
      Lookup(r, a) == Lookup(r, b) <==> (a in marked <==> b in marked)
  {
    assert a == Column(a.source, a.name) && b == Column(b.source, b.name);
    assert a.source in SetOf(srcs) && b.source in SetOf(srcs);
  }

  /** The row meets the tests, and the equalities that leave the marked columns alone. */
  lemma MarkedRowMeets(schemas: Schemas, marked: set<Column>, srcs: seq<Source>, es: seq<Expr>)
    requires Typed(schemas, es) && Local(es, SetOf(srcs))
    requires forall i :: 0 <= i < |es| && es[i].Equals? ==> (es[i].left in marked <==> es[i].right in marked)
    ensures AllHold(MarkedTables(schemas, marked, srcs), es, MarkedRow(schemas, marked, srcs))
  {
    var env, r := MarkedTables(schemas, marked, srcs), MarkedRow(schemas, marked, srcs);
    forall i | 0 <= i < |es| ensures Holds(env, es[i], r) {
      if es[i].Equals? {
        assert es[i].left in Columns(es[i]) && es[i].right in Columns(es[i]);
        MarkedEqual(schemas, marked, srcs, es[i].left, es[i].right);
      }
    }
  }

  lemma MarkedRowFails(env: Env, schemas: Schemas, marked: set<Column>, srcs: seq<Source>, es: seq<Expr>, e: Expr)
    requires Typed(schemas, es) && Local(es, SetOf(srcs)) && e in es && e.Equals?
    requires e.left in marked && e.right !in marked
    ensures !AllHold(env, es, MarkedRow(schemas, marked, srcs))
  {
    var i :| 0 <= i < |es| && es[i] == e;
    assert e.left in Columns(es[i]) && e.right in Columns(es[i]);
    MarkedEqual(schemas, marked, srcs, e.left, e.right);
    hide MarkedRow, Lookup;
    assert !Holds(env, es[i], MarkedRow(schemas, marked, srcs));
  }
}
