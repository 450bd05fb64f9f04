/** Logical plans and the rows they denote. */
module Plans {
  import opened Model
  import opened Bags

  /** One relation of a FROM clause: its alias and its table. */
  datatype Source = Source(alias: string, table: string)

  datatype Column = Column(source: Source, name: string)

  type Tuple = map<string, Value>

  /** A row of a plan: one tuple for each relation below it. */
  type Row = map<Source, Tuple>

  type Equality = (Column, Column)

  /** A condition of a WHERE clause: an equality of two columns, or any other test on some columns. */
  datatype Expr = Equals(left: Column, right: Column) | Test(id: nat, columns: seq<Column>)

  datatype Plan =
    | Relation(source: Source)
    | Product(children: seq<Plan>)
    | Select(child: Plan, exprs: seq<Expr>)
    | Join(joined: seq<Plan>, equalities: seq<Equality>)
    | LeftOuter(alias: string, left: Plan, right: Plan, on: seq<Equality>)
    | FullOuter(alias: string, left: Plan, right: Plan, on: seq<Equality>)

  /** The columns of a table and their types. */
  type TableSchema = map<string, ColumnType>

  type Schemas = map<string, TableSchema>

  /** The tables, their schemas, and the meaning of the tests. */
  datatype Env = Env(tables: map<string, seq<Tuple>>, schemas: Schemas, test: (nat, seq<Option<Value>>) -> bool)

  function SchemaOf(schemas: Schemas, table: string): TableSchema {
    if table in schemas then schemas[table] else map[]
  }

  predicate TupleFits(t: Tuple, schema: TableSchema) {
    t.Keys == schema.Keys && forall n :: n in schema ==> HasType(t[n], schema[n])
  }

  /** Tables of these schemas: every tuple has the columns of its table, with values of their types. */
  ghost predicate Filled(env: Env, schemas: Schemas) {
    && env.schemas == schemas
    && forall table, i :: table in env.tables && 0 <= i < |env.tables[table]| ==>
         TupleFits(env.tables[table][i], SchemaOf(schemas, table))
  }

  function TypeOf(schemas: Schemas, c: Column): Option<ColumnType> {
    var schema := SchemaOf(schemas, c.source.table);
    if c.name in schema then Some(schema[c.name]) else None
  }

  /** Columns that exist and have the same type; a condition on a RID is not modelled. */
  predicate Comparable(schemas: Schemas, a: Column, b: Column) {
    TypeOf(schemas, a).Some? && TypeOf(schemas, a) == TypeOf(schemas, b) && TypeOf(schemas, a) != Some(RidColumn)
  }

  ghost predicate Typed(schemas: Schemas, es: seq<Expr>) {
    forall i :: 0 <= i < |es| && es[i].Equals? ==> Comparable(schemas, es[i].left, es[i].right)
  }

  // ---------------------------------------------------------------- conditions

  function Columns(e: Expr): set<Column> {
    match e
    case Equals(a, b) => {a, b}
    case Test(_, cs) => set c | c in cs
  }

  function Lookup(r: Row, c: Column): Option<Value> {
    if c.source in r && c.name in r[c.source] then Some(r[c.source][c.name]) else None
  }

  function Lookups(r: Row, cs: seq<Column>): (vs: seq<Option<Value>>)
    ensures |vs| == |cs| && forall i :: 0 <= i < |cs| ==> vs[i] == Lookup(r, cs[i])
  {
    if cs == [] then [] else [Lookup(r, cs[0])] + Lookups(r, cs[1..])
  }

  predicate Holds(env: Env, e: Expr, r: Row) {
    match e
    case Equals(a, b) => Lookup(r, a) == Lookup(r, b)
    case Test(id, cs) => env.test(id, Lookups(r, cs))
  }

  ghost predicate AllHold(env: Env, es: seq<Expr>, r: Row) {
    forall i :: 0 <= i < |es| ==> Holds(env, es[i], r)
  }

  /** A condition looks at its own relations only. */
  lemma HoldsLocally(env: Env, e: Expr, r: Row, r': Row)
    requires forall c :: c in Columns(e) ==> Lookup(r, c) == Lookup(r', c)
    ensures Holds(env, e, r) == Holds(env, e, r')
  {
    if e.Test? { assert Lookups(r, e.columns) == Lookups(r', e.columns); }
  }

  function AsExprs(eqs: seq<Equality>): (es: seq<Expr>)
    ensures |es| == |eqs| && forall i :: 0 <= i < |es| ==> es[i] == Equals(eqs[i].0, eqs[i].1)
  {
    if eqs == [] then [] else [Equals(eqs[0].0, eqs[0].1)] + AsExprs(eqs[1..])
  }

  // ---------------------------------------------------------------- rows

  ghost function Filter(env: Env, es: seq<Expr>, rows: seq<Row>): seq<Row> {
    if rows == [] then []
    else (if AllHold(env, es, rows[0]) then [rows[0]] else []) + Filter(env, es, rows[1..])
  }

  function Extend(a: Row, rows: seq<Row>): (s: seq<Row>)
    ensures |s| == |rows| && forall i :: 0 <= i < |s| ==> s[i] == a + rows[i]
  {
    if rows == [] then [] else [a + rows[0]] + Extend(a, rows[1..])
  }

  /** Two nested loops. */
  function Cross(a: seq<Row>, b: seq<Row>): seq<Row> {
    if a == [] then [] else Extend(a[0], b) + Cross(a[1..], b)
  }

  function Scan(src: Source, tuples: seq<Tuple>): seq<Row> {
    if tuples == [] then [] else [map[src := tuples[0]]] + Scan(src, tuples[1..])
  }

  function TableOf(env: Env, table: string): seq<Tuple> {
    if table in env.tables then env.tables[table] else []
  }

  /** The tuple that stands for a missing one of a table. */
  function PadTuple(schema: TableSchema): Tuple {
    map n | n in schema :: StandIn(schema[n])
  }

  /** The row with stand-ins for every relation of a plan. */
  function Pad(env: Env, srcs: seq<Source>): Row {
    if srcs == [] then map[]
    else map[srcs[0] := PadTuple(SchemaOf(env.schemas, srcs[0].table))] + Pad(env, srcs[1..])
  }

  ghost function LeftRows(env: Env, on: seq<Equality>, a: seq<Row>, b: seq<Row>, pad: Row): seq<Row> {
    if a == [] then []
    else
      var matches := Filter(env, AsExprs(on), Extend(a[0], b));
      (if matches == [] then [a[0] + pad] else matches) + LeftRows(env, on, a[1..], b, pad)
  }

  /** Right rows that match no left row, behind a pad. */
  ghost function UnmatchedRows(env: Env, on: seq<Equality>, a: seq<Row>, b: seq<Row>, pad: Row): seq<Row> {
    if b == [] then []
    else
      (if exists i :: 0 <= i < |a| && AllHold(env, AsExprs(on), a[i] + b[0]) then [] else [pad + b[0]])
      + UnmatchedRows(env, on, a, b[1..], pad)
  }

  /** The rows of a plan, in the order of nested loops. */
  ghost function Rows(env: Env, p: Plan): seq<Row>
    decreases p
  {
    match p
    case Relation(src) => Scan(src, TableOf(env, src.table))
    case Product(children) => ProductRows(env, children)
    case Select(child, es) => Filter(env, es, Rows(env, child))
    case Join(children, eqs) => Filter(env, AsExprs(eqs), ProductRows(env, children))
    case LeftOuter(_, l, r, on) => LeftRows(env, on, Rows(env, l), Rows(env, r), Pad(env, Leaves(r)))
    case FullOuter(_, l, r, on) =>
      LeftRows(env, on, Rows(env, l), Rows(env, r), Pad(env, Leaves(r)))
      + UnmatchedRows(env, on, Rows(env, l), Rows(env, r), Pad(env, Leaves(l)))
  }

  ghost function ProductRows(env: Env, ps: seq<Plan>): seq<Row>
    decreases ps
  {
    if ps == [] then [map[]] else Cross(Rows(env, ps[0]), ProductRows(env, ps[1..]))
  }

  function Leaves(p: Plan): seq<Source>
    decreases p
  {
    match p
    case Relation(src) => [src]
    case Product(children) => AllLeaves(children)
    case Select(child, _) => Leaves(child)
    case Join(children, _) => AllLeaves(children)
    case LeftOuter(_, l, r, _) => Leaves(l) + Leaves(r)
    case FullOuter(_, l, r, _) => Leaves(l) + Leaves(r)
  }

  function AllLeaves(ps: seq<Plan>): seq<Source>
    decreases ps
  {
    if ps == [] then [] else Leaves(ps[0]) + AllLeaves(ps[1..])
  }

  /** An outer join of two tables, as a FROM clause may have it. */
  predicate IsOuterJoin(p: Plan) {
    && (p.LeftOuter? || p.FullOuter?) && p.left.Relation? && p.right.Relation?
    && p.left.source.alias == p.right.source.alias == p.alias && p.left.source.table != p.right.source.table
  }

  // ---------------------------------------------------------------- laws of filters and products

  /** Conditions that look at some relations only. */
  ghost predicate Local(es: seq<Expr>, srcs: set<Source>) {
    forall i, c :: 0 <= i < |es| && c in Columns(es[i]) ==> c.source in srcs
  }

  ghost predicate Keyed(rows: seq<Row>, srcs: set<Source>) {
    forall i :: 0 <= i < |rows| ==> rows[i].Keys == srcs
  }

  function SetOf(srcs: seq<Source>): set<Source> {
    set s | s in srcs
  }

  /** Rows agree on the relations of local conditions. */
  lemma LocalHold(env: Env, es: seq<Expr>, srcs: set<Source>, r: Row, r': Row)
    requires Local(es, srcs) && forall s :: s in srcs ==> s in r && s in r' && r[s] == r'[s]
    ensures AllHold(env, es, r) == AllHold(env, es, r')
  {
    forall i | 0 <= i < |es| ensures Holds(env, es[i], r) == Holds(env, es[i], r') { HoldsLocally(env, es[i], r, r'); }
  }

  lemma InEither(a: seq<Expr>, b: seq<Expr>, e: Expr)
    ensures e in a + b <==> e in a || e in b
  {
  }

  /** Equal sets of conditions filter alike. */
  lemma SameConditions(env: Env, es: seq<Expr>, es': seq<Expr>, r: Row)
    requires forall i :: 0 <= i < |es| ==> es[i] in es'
    requires forall i :: 0 <= i < |es'| ==> es'[i] in es
    ensures AllHold(env, es, r) == AllHold(env, es', r)
  {
    if AllHold(env, es, r) {
      forall i | 0 <= i < |es'| ensures Holds(env, es'[i], r) { var j :| 0 <= j < |es| && es[j] == es'[i]; }
    }
    if AllHold(env, es', r) {
      forall i | 0 <= i < |es| ensures Holds(env, es[i], r) { var j :| 0 <= j < |es'| && es'[j] == es[i]; }
    }
  }

  lemma {:induction false} FilterSame(env: Env, es: seq<Expr>, es': seq<Expr>, rows: seq<Row>)
    requires forall i :: 0 <= i < |rows| ==> AllHold(env, es, rows[i]) == AllHold(env, es', rows[i])
    ensures Filter(env, es, rows) == Filter(env, es', rows)
  {
    hide AllHold;
    if rows != [] { FilterSame(env, es, es', rows[1..]); }
  }

  /** The first row is kept or not. */
  lemma FilterStep(env: Env, es: seq<Expr>, rows: seq<Row>)
    requires rows != []
    ensures var rest, kept := Filter(env, es, rows[1..]), Filter(env, es, rows);
      if AllHold(env, es, rows[0]) then kept != [] && kept[0] == rows[0] && kept[1..] == rest else kept == rest
  {
    hide AllHold;
    assert [] + Filter(env, es, rows[1..]) == Filter(env, es, rows[1..]);
  }

  lemma FilterOne(env: Env, es: seq<Expr>, r: Row)
    ensures Filter(env, es, [r]) == if AllHold(env, es, r) then [r] else []
  {
    var none: seq<Row> := [];
    assert [r][1..] == none;
  }

  lemma {:induction false} FilterAppend(env: Env, es: seq<Expr>, a: seq<Row>, b: seq<Row>)
    ensures Filter(env, es, a + b) == Filter(env, es, a) + Filter(env, es, b)
  {
    hide AllHold;
    if a == [] {
      assert a + b == b;
    } else {
      FilterAppend(env, es, a[1..], b);
      Associate(if AllHold(env, es, a[0]) then [a[0]] else [], Filter(env, es, a[1..]), Filter(env, es, b));
      assert (a + b)[0] == a[0] && (a + b)[1..] == a[1..] + b;
    }
  }

  lemma HoldBoth(env: Env, es: seq<Expr>, es': seq<Expr>, r: Row)
    ensures AllHold(env, es + es', r) <==> AllHold(env, es, r) && AllHold(env, es', r)
  {
    var both := es + es';
    if AllHold(env, both, r) {
      forall i | 0 <= i < |es| ensures Holds(env, es[i], r) { assert both[i] == es[i]; }
      forall i | 0 <= i < |es'| ensures Holds(env, es'[i], r) { assert both[|es| + i] == es'[i]; }
    }
  }

  lemma {:induction false} FilterTwice(env: Env, es: seq<Expr>, es': seq<Expr>, rows: seq<Row>)
    ensures Filter(env, es', Filter(env, es, rows)) == Filter(env, es + es', rows)
  {
    hide AllHold;
    if rows != [] {
      FilterTwice(env, es, es', rows[1..]);
      HoldBoth(env, es, es', rows[0]);
      FilterAppend(env, es', if AllHold(env, es, rows[0]) then [rows[0]] else [], Filter(env, es, rows[1..]));
    }
  }

  lemma {:induction false} FilterNothing(env: Env, rows: seq<Row>)
    ensures Filter(env, [], rows) == rows
  {
    if rows != [] { FilterNothing(env, rows[1..]); }
  }

  lemma {:induction false} FilterKeyed(env: Env, es: seq<Expr>, rows: seq<Row>, srcs: set<Source>)
    requires Keyed(rows, srcs)
    ensures Keyed(Filter(env, es, rows), srcs)
  {
    hide AllHold;
    if rows != [] { FilterKeyed(env, es, rows[1..], srcs); }
  }

  lemma {:induction false} ExtendLeft(env: Env, es: seq<Expr>, a: Row, b: seq<Row>, ka: set<Source>, kb: set<Source>)
    requires a.Keys == ka && Keyed(b, kb) && ka !! kb && Local(es, ka)
    ensures Filter(env, es, Extend(a, b)) == if AllHold(env, es, a) then Extend(a, b) else []
  {
    if b != [] {
      LocalHold(env, es, ka, a, a + b[0]);
      hide AllHold;
      ExtendLeft(env, es, a, b[1..], ka, kb);
    }
  }

  /** A condition on the left factor of a product can be applied to it. */
  lemma {:induction false} CrossLeft(env: Env, es: seq<Expr>, a: seq<Row>, b: seq<Row>, ka: set<Source>,
                                     kb: set<Source>)
    requires Keyed(a, ka) && Keyed(b, kb) && ka !! kb && Local(es, ka)
    ensures Cross(Filter(env, es, a), b) == Filter(env, es, Cross(a, b))
  {
    hide AllHold;
    if a != [] {
      FilterStep(env, es, a);
      CrossLeft(env, es, a[1..], b, ka, kb);
      ExtendLeft(env, es, a[0], b, ka, kb);
      FilterAppend(env, es, Extend(a[0], b), Cross(a[1..], b));
    }
  }

  lemma {:induction false} ExtendRight(env: Env, es: seq<Expr>, a: Row, b: seq<Row>, kb: set<Source>)
    requires Keyed(b, kb) && Local(es, kb)
    ensures Extend(a, Filter(env, es, b)) == Filter(env, es, Extend(a, b))
  {
    if b != [] {
      LocalHold(env, es, kb, b[0], a + b[0]);
      hide AllHold;
      ExtendRight(env, es, a, b[1..], kb);
    }
  }

  lemma {:induction false} CrossRight(env: Env, es: seq<Expr>, a: seq<Row>, b: seq<Row>, kb: set<Source>)
    requires Keyed(b, kb) && Local(es, kb)
    ensures Cross(a, Filter(env, es, b)) == Filter(env, es, Cross(a, b))
  {
    hide AllHold;
    if a != [] {
      CrossRight(env, es, a[1..], b, kb);
      ExtendRight(env, es, a[0], b, kb);
      FilterAppend(env, es, Extend(a[0], b), Cross(a[1..], b));
    }
  }

  lemma {:induction false} CrossKeyed(a: seq<Row>, b: seq<Row>, ka: set<Source>, kb: set<Source>)
    requires Keyed(a, ka) && Keyed(b, kb)
    ensures Keyed(Cross(a, b), ka + kb)
  {
    if a != [] {
      CrossKeyed(a[1..], b, ka, kb);
      forall i | 0 <= i < |b| ensures (a[0] + b[i]).Keys == ka + kb {}
    }
  }

  lemma ScanOne(src: Source, t: Tuple)
    ensures Scan(src, [t]) == [map[src := t]]
  {
    var none: seq<Tuple> := [];
    assert [t][1..] == none;
  }

  lemma {:induction false} ScanKeyed(src: Source, tuples: seq<Tuple>)
    ensures Keyed(Scan(src, tuples), {src})
  {
    if tuples != [] { ScanKeyed(src, tuples[1..]); }
  }

  lemma {:induction false} PadKeyed(env: Env, srcs: seq<Source>)
    ensures Pad(env, srcs).Keys == SetOf(srcs)
  {
    if srcs != [] {
      PadKeyed(env, srcs[1..]);
      assert SetOf(srcs) == {srcs[0]} + SetOf(srcs[1..]);
    } else {
      assert SetOf(srcs) == {};
    }
  }

  lemma SetOfSplit(a: seq<Source>, b: seq<Source>)
    ensures SetOf(a + b) == SetOf(a) + SetOf(b)
  {
  }

  lemma DistinctSplit(a: seq<Source>, b: seq<Source>)
    requires Distinct(a + b)
    ensures Distinct(a) && Distinct(b) && SetOf(a) !! SetOf(b) && SetOf(a + b) == SetOf(a) + SetOf(b)
  {
    DistinctParts(a, b);
  }

  lemma {:induction false} LeftKeyed(env: Env, on: seq<Equality>, a: seq<Row>, b: seq<Row>, pad: Row, ka: set<Source>,
                                     kb: set<Source>)
    requires Keyed(a, ka) && Keyed(b, kb) && pad.Keys == kb
    ensures Keyed(LeftRows(env, on, a, b, pad), ka + kb)
  {
    hide AllHold;
    if a != [] {
      LeftKeyed(env, on, a[1..], b, pad, ka, kb);
      forall i | 0 <= i < |b| ensures (a[0] + b[i]).Keys == ka + kb {}
      FilterKeyed(env, AsExprs(on), Extend(a[0], b), ka + kb);
    }
  }

  lemma {:induction false} UnmatchedKeyed(env: Env, on: seq<Equality>, a: seq<Row>, b: seq<Row>, pad: Row,
                                          ka: set<Source>, kb: set<Source>)
    requires Keyed(b, kb) && pad.Keys == ka
    ensures Keyed(UnmatchedRows(env, on, a, b, pad), ka + kb)
  {
    hide AllHold;
    if b != [] { UnmatchedKeyed(env, on, a, b[1..], pad, ka, kb); }
  }

  /** Each row of a plan has a tuple for each relation of the plan. */
  lemma {:induction false} RowsKeyed(env: Env, p: Plan)
    ensures Keyed(Rows(env, p), SetOf(Leaves(p)))
    decreases p
  {
    match p
    case Relation(src) => ScanKeyed(src, TableOf(env, src.table)); assert SetOf([src]) == {src};
    case Product(children) => ProductKeyed(env, children);
    case Select(child, es) =>
      RowsKeyed(env, child);
      FilterKeyed(env, es, Rows(env, child), SetOf(Leaves(child)));
    case Join(children, eqs) =>
      ProductKeyed(env, children);
      FilterKeyed(env, AsExprs(eqs), ProductRows(env, children), SetOf(AllLeaves(children)));
    case LeftOuter(_, l, r, on) =>
      RowsKeyed(env, l);
      RowsKeyed(env, r);
      OuterKeyed(env, l, r, on);
    case FullOuter(_, l, r, on) =>
      RowsKeyed(env, l);
      RowsKeyed(env, r);
      OuterKeyed(env, l, r, on);
  }

  lemma OuterKeyed(env: Env, l: Plan, r: Plan, on: seq<Equality>)
    requires Keyed(Rows(env, l), SetOf(Leaves(l))) && Keyed(Rows(env, r), SetOf(Leaves(r)))
    ensures Keyed(LeftRows(env, on, Rows(env, l), Rows(env, r), Pad(env, Leaves(r))), SetOf(Leaves(l) + Leaves(r)))
    ensures Keyed(UnmatchedRows(env, on, Rows(env, l), Rows(env, r), Pad(env, Leaves(l))), SetOf(Leaves(l) + Leaves(r)))
  {
    PadKeyed(env, Leaves(l));
    PadKeyed(env, Leaves(r));
    SetOfSplit(Leaves(l), Leaves(r));
    LeftKeyed(env, on, Rows(env, l), Rows(env, r), Pad(env, Leaves(r)), SetOf(Leaves(l)), SetOf(Leaves(r)));
    UnmatchedKeyed(env, on, Rows(env, l), Rows(env, r), Pad(env, Leaves(l)), SetOf(Leaves(l)), SetOf(Leaves(r)));
  }

  lemma {:induction false} ProductKeyed(env: Env, ps: seq<Plan>)
    ensures Keyed(ProductRows(env, ps), SetOf(AllLeaves(ps)))
    decreases ps
  {
    if ps == [] {
      assert SetOf([]) == {};
    } else {
      RowsKeyed(env, ps[0]);
      ProductKeyed(env, ps[1..]);
      SetOfSplit(Leaves(ps[0]), AllLeaves(ps[1..]));
      CrossKeyed(Rows(env, ps[0]), ProductRows(env, ps[1..]), SetOf(Leaves(ps[0])), SetOf(AllLeaves(ps[1..])));
    }
  }
}
