/** The compilation of an outer join, which knows columns by name and type, and what that makes of its ON. */
module OuterJoins {
  import opened Model
  import opened Bags
  import opened Plans
  import opened Links
  import opened BuildJoins
  import opened Optimizer
  import Operators

  // ---------------------------------------------------------------- the operator's rows are the plan's

  lemma PickReads(l: Record, cols: seq<Column>, u: Usage, m: Row)
    requires Reads(l, cols, m)
    ensures var ps := UsedPositions(cols, u);
      (forall i :: 0 <= i < |ps| ==> ps[i] < |l|) && Reads(Operators.Pick(l, ps), UsedColumns(cols, u), m)
  {
    hide UsedPositions;
    var ps := UsedPositions(cols, u);
    forall i | 0 <= i < |ps| ensures Lookup(m, cols[ps[i]]) == Some(l[ps[i]]) {}
  }

  /** A left record behind which the stand-ins are put reads the padded row. */
  lemma PaddedReads(l: Record, lcols: seq<Column>, rcols: seq<Column>, u: Usage, before: set<Source>, next: Source,
                    ml: Row, pad: Record, mr: Row)
    requires Placed(lcols, rcols, before, next) && Reads(l, lcols, ml) && ml.Keys == before
    requires |pad| == |UsedColumns(rcols, u)| && Reads(pad, UsedColumns(rcols, u), mr) && mr.Keys == {next}
    ensures var ps := UsedPositions(lcols, u);
      && (forall i :: 0 <= i < |ps| ==> ps[i] < |l|)
      && AllRead([Operators.Pick(l, ps) + pad], UsedColumns(lcols, u) + UsedColumns(rcols, u), [ml + mr])
  {
    PickReads(l, lcols, u, ml);
    PartsRead(Operators.Pick(l, UsedPositions(lcols, u)), UsedColumns(lcols, u), pad, UsedColumns(rcols, u), before,
              next, ml, mr);
  }

  lemma PaddedLeftReads(r: Record, lcols: seq<Column>, rcols: seq<Column>, u: Usage, before: set<Source>, next: Source,
                        mr: Row, pad: Record, ml: Row)
    requires Placed(lcols, rcols, before, next) && Reads(r, rcols, mr) && mr.Keys == {next}
    requires |pad| == |UsedColumns(lcols, u)| && Reads(pad, UsedColumns(lcols, u), ml) && ml.Keys == before
    ensures var ps := UsedPositions(rcols, u);
      && (forall i :: 0 <= i < |ps| ==> ps[i] < |r|)
      && AllRead([pad + Operators.Pick(r, ps)], UsedColumns(lcols, u) + UsedColumns(rcols, u), [ml + mr])
  {
    PickReads(r, rcols, u, mr);
    PartsRead(pad, UsedColumns(lcols, u), Operators.Pick(r, UsedPositions(rcols, u)), UsedColumns(rcols, u), before,
              next, ml, mr);
  }

  lemma SameEmptiness(rs: seq<Record>, cols: seq<Column>, ms: seq<Row>)
    requires AllRead(rs, cols, ms)
    ensures rs == [] <==> ms == []
  {
  }

  /** What the left join hands out for one left record. */
  lemma OneLeftReads(env: Env, lcols: seq<Column>, rcols: seq<Column>, u: Usage, ps: Operators.Pairs,
                     step: seq<Equality>, before: set<Source>, next: Source, l: Record, ml: Row,
                     rs: seq<Record>, b: seq<Row>, pad: Record, m: Row)
    requires Placed(lcols, rcols, before, next) && Stand(lcols, rcols, ps, step)
    requires ml.Keys == before && Keyed(b, {next}) && l != [] && Reads(l, lcols, ml) && AllRead(rs, rcols, b)
    requires |pad| == |UsedColumns(rcols, u)| && Reads(pad, UsedColumns(rcols, u), m) && m.Keys == {next}
    ensures var o, matches := LoopSpec(lcols, rcols, u, ps), Filter(env, AsExprs(step), Extend(ml, b));
      && o.LeftOk(l) && Operators.AllRight(o, rs)
      && AllRead(Operators.MatchesOrPad(o, l, rs, pad), UsedColumns(lcols, u) + UsedColumns(rcols, u),
                 if matches == [] then [ml + m] else matches)
  {
    var o, matches := LoopSpec(lcols, rcols, u, ps), Filter(env, AsExprs(step), Extend(ml, b));
    MatchesRead(env, lcols, rcols, u, ps, step, before, next, l, ml, rs, b);
    SameEmptiness(Operators.Matches(o, l, rs), UsedColumns(lcols, u) + UsedColumns(rcols, u), matches);
    PaddedReads(l, lcols, rcols, u, before, next, ml, pad, m);
    hide Placed, Stand, Reads, AllRead, UsedColumns, UsedPositions, AllHold, AsExprs, Filter;
  }

  /** The left join operator hands out the rows of the left join plan, pruned, in order. */
  lemma {:induction false} LeftReads(env: Env, lcols: seq<Column>, rcols: seq<Column>, u: Usage, ps: Operators.Pairs,
                                     step: seq<Equality>, before: set<Source>, next: Source,
                                     ls: seq<Record>, a: seq<Row>, rs: seq<Record>, b: seq<Row>, pad: Record, m: Row)
    requires Placed(lcols, rcols, before, next) && Stand(lcols, rcols, ps, step) && lcols != []
    requires Keyed(a, before) && Keyed(b, {next}) && AllRead(ls, lcols, a) && AllRead(rs, rcols, b)
    requires |pad| == |UsedColumns(rcols, u)| && Reads(pad, UsedColumns(rcols, u), m) && m.Keys == {next}
    ensures var o := LoopSpec(lcols, rcols, u, ps);
      && Operators.AllLeft(o, ls) && Operators.AllRight(o, rs)
      && AllRead(Operators.LeftJoinRows(o, ls, rs, pad), UsedColumns(lcols, u) + UsedColumns(rcols, u),
                 LeftRows(env, step, a, b, m))
  {
    var o := LoopSpec(lcols, rcols, u, ps);
    RightsOk(lcols, rcols, u, ps, step, rs, b);
    if ls != [] {
      assert Reads(ls[0], lcols, a[0]);
      LeftReads(env, lcols, rcols, u, ps, step, before, next, ls[1..], a[1..], rs, b, pad, m);
      OneLeftReads(env, lcols, rcols, u, ps, step, before, next, ls[0], a[0], rs, b, pad, m);
      hide Placed, Stand, Reads, LoopSpec, UsedColumns, AllHold, AsExprs, Filter;
      LeftsOk(o, ls);
      var matches := Filter(env, AsExprs(step), Extend(a[0], b));
      AllReadAppend(Operators.MatchesOrPad(o, ls[0], rs, pad), Operators.LeftJoinRows(o, ls[1..], rs, pad),
                    UsedColumns(lcols, u) + UsedColumns(rcols, u),
                    if matches == [] then [a[0] + m] else matches, LeftRows(env, step, a[1..], b, m));
    }
  }

  /** A right record is matched when some left row meets ON together with its row. */
  lemma MatchedIff(env: Env, lcols: seq<Column>, rcols: seq<Column>, u: Usage, ps: Operators.Pairs,
                   step: seq<Equality>, before: set<Source>, next: Source,
                   ls: seq<Record>, a: seq<Row>, r: Record, mr: Row)
    requires Placed(lcols, rcols, before, next) && Stand(lcols, rcols, ps, step) && lcols != []
    requires Keyed(a, before) && AllRead(ls, lcols, a) && Reads(r, rcols, mr) && mr.Keys == {next}
    requires Operators.AllLeft(LoopSpec(lcols, rcols, u, ps), ls) && LoopSpec(lcols, rcols, u, ps).RightOk(r)
    ensures Operators.Matched(LoopSpec(lcols, rcols, u, ps), ls, r)
      <==> exists i :: 0 <= i < |a| && AllHold(env, AsExprs(step), a[i] + mr)
  {
    var o := LoopSpec(lcols, rcols, u, ps);
    forall i | 0 <= i < |a| ensures o.Compatible(ls[i], r) <==> AllHold(env, AsExprs(step), a[i] + mr) {
      assert Reads(ls[i], lcols, a[i]);
      hide Placed, Stand, Reads, UsedColumns, AllHold;
      CompatibleIff(env, lcols, rcols, before, next, step, o, ls[i], a[i], r, mr);
    }
    hide Placed, Stand, Reads, LoopSpec, AllHold, AsExprs;
  }

  /** The rows that a full join adds are those of the plan. */
  lemma {:induction false} UnmatchedRead(env: Env, lcols: seq<Column>, rcols: seq<Column>, u: Usage,
                                         ps: Operators.Pairs, step: seq<Equality>, before: set<Source>, next: Source,
                                         ls: seq<Record>, a: seq<Row>, rs: seq<Record>, b: seq<Row>, pad: Record,
                                         m: Row, j: nat)
    requires Placed(lcols, rcols, before, next) && Stand(lcols, rcols, ps, step) && lcols != []
    requires Keyed(a, before) && Keyed(b, {next}) && AllRead(ls, lcols, a) && AllRead(rs, rcols, b) && j <= |rs|
    requires |pad| == |UsedColumns(lcols, u)| && Reads(pad, UsedColumns(lcols, u), m) && m.Keys == before
    requires var o := LoopSpec(lcols, rcols, u, ps); Operators.AllLeft(o, ls) && Operators.AllRight(o, rs)
    ensures AllRead(Operators.UnmatchedRows(LoopSpec(lcols, rcols, u, ps), ls, rs, pad, j),
                    UsedColumns(lcols, u) + UsedColumns(rcols, u), UnmatchedRows(env, step, a, b[j..], m))
    decreases |rs| - j
  {
    if j < |rs| {
      var o := LoopSpec(lcols, rcols, u, ps);
      assert Reads(rs[j], rcols, b[j]) && b[j].Keys == {next};
      assert b[j..][1..] == b[j + 1..];
      MatchedIff(env, lcols, rcols, u, ps, step, before, next, ls, a, rs[j], b[j]);
      PaddedLeftReads(rs[j], lcols, rcols, u, before, next, b[j], pad, m);
      UnmatchedRead(env, lcols, rcols, u, ps, step, before, next, ls, a, rs, b, pad, m, j + 1);
      hide Placed, Stand, Reads, UsedColumns, UsedPositions, AllHold, AsExprs, Operators.Matched;
      if !Operators.Matched(o, ls, rs[j]) {
        AllReadAppend([pad + Operators.Pick(rs[j], o.right)], Operators.UnmatchedRows(o, ls, rs, pad, j + 1),
                      UsedColumns(lcols, u) + UsedColumns(rcols, u),
                      [m + b[j]], UnmatchedRows(env, step, a, b[j + 1..], m));
      }
    }
  }

  // ---------------------------------------------------------------- stand-ins

  /** The columns exist in their tables. */
  ghost predicate Known(schemas: Schemas, cols: seq<Column>) {
    forall i :: 0 <= i < |cols| ==> TypeOf(schemas, cols[i]).Some?
  }

  function TypesOf(schemas: Schemas, cols: seq<Column>): (ts: seq<ColumnType>)
    requires Known(schemas, cols)
    ensures |ts| == |cols| && forall i :: 0 <= i < |ts| ==> Some(ts[i]) == TypeOf(schemas, cols[i])
  {
    seq(|cols|, i requires 0 <= i < |cols| => TypeOf(schemas, cols[i]).value)
  }

  lemma {:induction false} UsedClimb(cols: seq<Column>, u: Usage)
    ensures Operators.Climbs(UsedPositions(cols, u))
  {
    if cols != [] { UsedClimb(cols[..|cols| - 1], u); }
  }

  /** What the operator puts in the place of missing columns is the plan's row of stand-ins. */
  lemma {:induction false} PadReads(env: Env, cols: seq<Column>, u: Usage, src: Source)
    requires Known(env.schemas, cols) && From(cols, {src}) && Known(env.schemas, UsedColumns(cols, u))
    requires Operators.PadOk(UsedPositions(cols, u), TypesOf(env.schemas, UsedColumns(cols, u)))
    ensures Reads(Operators.PadOf(UsedPositions(cols, u), TypesOf(env.schemas, UsedColumns(cols, u))),
                  UsedColumns(cols, u), Pad(env, [src]))
    ensures Pad(env, [src]).Keys == {src}
  {
    var used := UsedColumns(cols, u);
    var ps, ts := UsedPositions(cols, u), TypesOf(env.schemas, used);
    UsedClimb(cols, u);
    PadOfOne(env, src);
    UsedFrom(cols, u, src);
    PadKept(ps, ts);
    hide UsedColumns, UsedPositions, Pad, Operators.PadOk, PadTuple, TypeOf, Lookup, Reads, Operators.PadOf;
    hide Operators.Climbs, Operators.PadRight, From, Known, TypesOf;
    StandInsRead(env, used, ts, src, Operators.PadOf(ps, ts));
  }

  lemma PadKept(ps: Operators.Positions, ts: seq<ColumnType>)
    requires Operators.Climbs(ps) && Operators.PadOk(ps, ts)
    ensures var pad := Operators.PadOf(ps, ts);
      |pad| == |ts| && forall i :: 0 <= i < |ts| ==> pad[i] == StandIn(ts[i])
  {
    Operators.PadExact(ps, ts);
  }

  lemma UsedFrom(cols: seq<Column>, u: Usage, src: Source)
    requires From(cols, {src})
    ensures From(UsedColumns(cols, u), {src})
  {
  }

  lemma StandInsRead(env: Env, cols: seq<Column>, ts: seq<ColumnType>, src: Source, pad: Record)
    requires From(cols, {src}) && |pad| == |ts| == |cols|
    requires forall i :: 0 <= i < |ts| ==> Some(ts[i]) == TypeOf(env.schemas, cols[i]) && pad[i] == StandIn(ts[i])
    ensures Reads(pad, cols, map[src := PadTuple(SchemaOf(env.schemas, src.table))])
  {
    var m := map[src := PadTuple(SchemaOf(env.schemas, src.table))];
    forall i | 0 <= i < |cols| ensures Lookup(m, cols[i]) == Some(pad[i]) {
      assert cols[i].source == src && Some(ts[i]) == TypeOf(env.schemas, cols[i]);
    }
  }

  lemma PadOfOne(env: Env, src: Source)
    ensures Pad(env, [src]) == map[src := PadTuple(SchemaOf(env.schemas, src.table))]
  {
    var none: seq<Source> := [];
    assert [src][1..] == none;
  }

  // ---------------------------------------------------------------- which equalities are compared

  /** Columns of the same name and type, whatever their tables. */
  predicate SameInfo(schemas: Schemas, c: Column, d: Column) {
    c.name == d.name && TypeOf(schemas, c) == TypeOf(schemas, d)
  }

  /** The first position of a column of this name and type, or the length of the list. */
  function FindInfo(schemas: Schemas, cols: seq<Column>, c: Column): (p: nat)
    ensures p <= |cols| && (p < |cols| ==> SameInfo(schemas, cols[p], c))
    ensures p == |cols| ==> forall i :: 0 <= i < |cols| ==> !SameInfo(schemas, cols[i], c)
  {
    if cols == [] || SameInfo(schemas, cols[0], c) then 0 else 1 + FindInfo(schemas, cols[1..], c)
  }

  /** The side of an equality is told by the table of its first column. */
  function SidesByTable(r: Source, eq: Equality): Equality {
    if eq.0.source.table == r.table then (eq.1, eq.0) else eq
  }

  function OuterPairs(schemas: Schemas, lcols: seq<Column>, rcols: seq<Column>, on: seq<Equality>): Operators.Pairs
    requires rcols != []
  {
    if on == [] then []
    else
      var n := |on| - 1;
      var (c, d) := SidesByTable(rcols[0].source, on[n]);
      var p, q := FindInfo(schemas, lcols, c), FindInfo(schemas, rcols, d);
      OuterPairs(schemas, lcols, rcols, on[..n]) + if p < |lcols| && q < |rcols| then [(p, q)] else []
  }

  /** The relation has a column of this name and type. */
  predicate Has(schemas: Schemas, src: Source, c: Column) {
    TypeOf(schemas, c).Some? && SameInfo(schemas, Column(src, c.name), c)
  }

  /** What an equality of ON becomes: a column of the left relation against a column of the right one. */
  function Meant(l: Source, r: Source, eq: Equality): Equality {
    (Column(l, SidesByTable(r, eq).0.name), Column(r, SidesByTable(r, eq).1.name))
  }

  predicate IsCompared(schemas: Schemas, l: Source, r: Source, eq: Equality) {
    Has(schemas, l, SidesByTable(r, eq).0) && Has(schemas, r, SidesByTable(r, eq).1)
  }

  /** The equalities that the operator compares. */
  function Compared(schemas: Schemas, l: Source, r: Source, on: seq<Equality>): (es: seq<Equality>)
    ensures forall i :: 0 <= i < |on| && IsCompared(schemas, l, r, on[i]) ==> Meant(l, r, on[i]) in es
    ensures forall eq :: eq in es ==>
      exists i :: 0 <= i < |on| && IsCompared(schemas, l, r, on[i]) && eq == Meant(l, r, on[i])
  {
    if on == [] then []
    else
      var eq := on[|on| - 1];
      Compared(schemas, l, r, on[..|on| - 1]) + if IsCompared(schemas, l, r, eq) then [Meant(l, r, eq)] else []
  }

  /** Existing columns of the relation, and all that are in use. */
  ghost predicate Lists(schemas: Schemas, cols: seq<Column>, src: Source, u: Usage) {
    && From(cols, {src}) && Known(schemas, cols)
    && forall n :: n in SchemaOf(schemas, src.table) && UsageOf(u, Column(src, n)) > 0 ==> Column(src, n) in cols
  }

  /** Every column of ON is in use, and goes by the alias of the join. */
  ghost predicate OnUsed(u: Usage, alias: string, on: seq<Equality>) {
    EndsUsed(u, on) && forall i :: 0 <= i < |on| ==> on[i].0.source.alias == on[i].1.source.alias == alias
  }

  /** The search finds the relation's column of that name and type, if there is one. */
  lemma FoundByInfo(schemas: Schemas, cols: seq<Column>, src: Source, u: Usage, c: Column)
    requires Lists(schemas, cols, src, u) && UsageOf(u, c) > 0 && c.source.alias == src.alias
    ensures FindInfo(schemas, cols, c) < |cols| <==> Has(schemas, src, c)
    ensures FindInfo(schemas, cols, c) < |cols| ==> cols[FindInfo(schemas, cols, c)] == Column(src, c.name)
  {
    var p := FindInfo(schemas, cols, c);
    if p < |cols| { assert cols[p].source == src && cols[p] == Column(src, c.name); }
    if Has(schemas, src, c) {
      assert KeyOf(c) == KeyOf(Column(src, c.name));
      var i :| 0 <= i < |cols| && cols[i] == Column(src, c.name);
    }
  }

  /** The positions stand for the equalities that are compared. */
  lemma {:induction false} OuterPairsStand(schemas: Schemas, lcols: seq<Column>, rcols: seq<Column>, u: Usage,
                                           l: Source, r: Source, on: seq<Equality>)
    requires rcols != [] && Lists(schemas, lcols, l, u) && Lists(schemas, rcols, r, u)
    requires l.alias == r.alias && OnUsed(u, l.alias, on)
    ensures Stand(lcols, rcols, OuterPairs(schemas, lcols, rcols, on), Compared(schemas, l, r, on))
  {
    if on != [] {
      var n := |on| - 1;
      assert rcols[0].source == r;
      OnUsedFront(u, l.alias, on);
      OuterPairsStand(schemas, lcols, rcols, u, l, r, on[..n]);
      OnePairStands(schemas, lcols, rcols, u, l, r, on[n]);
      hide *;
      hide Stand, StandsFor;
      var (c, d) := SidesByTable(r, on[n]);
      var p, q := FindInfo(schemas, lcols, c), FindInfo(schemas, rcols, d);
      OuterPairsNext(schemas, lcols, rcols, r, on);
      ComparedNext(schemas, l, r, on);
      StandNext(lcols, rcols, OuterPairs(schemas, lcols, rcols, on[..n]), Compared(schemas, l, r, on[..n]), (p, q),
                Meant(l, r, on[n]));
    } else {
      assert Compared(schemas, l, r, on) == [];
    }
  }

  lemma OnUsedFront(u: Usage, alias: string, on: seq<Equality>)
    requires OnUsed(u, alias, on) && on != []
    ensures OnUsed(u, alias, on[..|on| - 1])
    ensures var eq := on[|on| - 1];
      UsageOf(u, eq.0) > 0 && UsageOf(u, eq.1) > 0 && eq.0.source.alias == eq.1.source.alias == alias
  {
  }

  lemma OuterPairsNext(schemas: Schemas, lcols: seq<Column>, rcols: seq<Column>, r: Source, on: seq<Equality>)
    requires rcols != [] && rcols[0].source == r && on != []
    ensures var n := |on| - 1;
      var (c, d) := SidesByTable(r, on[n]);
      var p, q := FindInfo(schemas, lcols, c), FindInfo(schemas, rcols, d);
      OuterPairs(schemas, lcols, rcols, on) ==
        OuterPairs(schemas, lcols, rcols, on[..n]) + if p < |lcols| && q < |rcols| then [(p, q)] else []
  {
  }

  lemma ComparedNext(schemas: Schemas, l: Source, r: Source, on: seq<Equality>)
    requires on != []
    ensures var n := |on| - 1;
      Compared(schemas, l, r, on) ==
        Compared(schemas, l, r, on[..n]) + if IsCompared(schemas, l, r, on[n]) then [Meant(l, r, on[n])] else []
  {
  }

  lemma OnePairStands(schemas: Schemas, lcols: seq<Column>, rcols: seq<Column>, u: Usage, l: Source, r: Source,
                      eq: Equality)
    requires Lists(schemas, lcols, l, u) && Lists(schemas, rcols, r, u)
    requires UsageOf(u, eq.0) > 0 && UsageOf(u, eq.1) > 0
    requires eq.0.source.alias == eq.1.source.alias == l.alias == r.alias
    ensures var (c, d) := SidesByTable(r, eq);
      var p, q := FindInfo(schemas, lcols, c), FindInfo(schemas, rcols, d);
      && (p < |lcols| && q < |rcols| <==> IsCompared(schemas, l, r, eq))
      && (IsCompared(schemas, l, r, eq) ==> StandsFor(lcols, rcols, (p, q), Meant(l, r, eq)))
  {
    var (c, d) := SidesByTable(r, eq);
    FoundByInfo(schemas, lcols, l, u, c);
    FoundByInfo(schemas, rcols, r, u, d);
    hide Lists, FindInfo, Has;
  }

  lemma StandNext(lcols: seq<Column>, rcols: seq<Column>, ps: Operators.Pairs, es: seq<Equality>, p: (nat, nat),
                  eq: Equality)
    requires Stand(lcols, rcols, ps, es)
    ensures Stand(lcols, rcols, ps + [], es + [])
    ensures StandsFor(lcols, rcols, p, eq) ==> Stand(lcols, rcols, ps + [p], es + [eq])
  {
    assert ps + [] == ps && es + [] == es;
    hide StandsFor;
    if StandsFor(lcols, rcols, p, eq) {
      forall x | x in ps + [p] ensures exists y :: y in es + [eq] && StandsFor(lcols, rcols, x, y) {
        assert eq in es + [eq];
        if x in ps {
          var y :| y in es && StandsFor(lcols, rcols, x, y);
          assert y in es + [eq];
        }
      }
      forall y | y in es + [eq] ensures exists x :: x in ps + [p] && StandsFor(lcols, rcols, x, y) {
        assert p in ps + [p];
        if y in es {
          var x :| x in ps && StandsFor(lcols, rcols, x, y);
          assert x in ps + [p];
        }
      }
    }
  }

  // ---------------------------------------------------------------- the visitor

  method FindColumn(schemas: Schemas, cols: seq<Column>, c: Column) returns (p: nat)
    ensures p == FindInfo(schemas, cols, c)
  {
    p := 0;
    while p < |cols|
      invariant p <= |cols| && FindInfo(schemas, cols, c) == p + FindInfo(schemas, cols[p..], c)
    {
      if SameInfo(schemas, cols[p], c) { return; }
      p := p + 1;
    }
  }

  /** The equalities of ON, as positions. */
  method PairsOf(schemas: Schemas, lcols: seq<Column>, rcols: seq<Column>, on: seq<Equality>)
      returns (ps: Operators.Pairs)
    requires rcols != []
    ensures ps == OuterPairs(schemas, lcols, rcols, on)
  {
    ps := [];
    for i := 0 to |on|
      invariant ps == OuterPairs(schemas, lcols, rcols, on[..i])
    {
      assert on[..i + 1][..i] == on[..i];
      var swap := on[i].0.source.table == rcols[0].source.table;
      var lhsCol := if swap then on[i].1 else on[i].0;
      var rhsCol := if swap then on[i].0 else on[i].1;
      var lhsPos := FindColumn(schemas, lcols, lhsCol);
      var rhsPos := FindColumn(schemas, rcols, rhsCol);
      if lhsPos < |lcols| && rhsPos < |rcols| { ps := ps + [(lhsPos, rhsPos)]; }
    }
    assert on[..|on|] == on;
  }

  /** A compiled child of an outer join: it reads rows of its relation and lists the columns in use. */
  ghost predicate Side(schemas: Schemas, u: Usage, rows: seq<Record>, cols: seq<Column>, src: Source, ms: seq<Row>) {
    cols != [] && Lists(schemas, cols, src, u) && Keyed(ms, {src}) && AllRead(rows, cols, ms)
  }

  /** Two children, ON in terms of their alias, something to compare and something to hand out. */
  ghost predicate OuterInput(schemas: Schemas, u: Usage, ls: seq<Record>, lcols: seq<Column>, l: Source, a: seq<Row>,
                             rs: seq<Record>, rcols: seq<Column>, r: Source, b: seq<Row>, on: seq<Equality>) {
    && Side(schemas, u, ls, lcols, l, a) && Side(schemas, u, rs, rcols, r, b) && l != r && l.alias == r.alias
    && (forall i :: 0 <= i < |on| ==> on[i].0.source.alias == on[i].1.source.alias == l.alias)
    && Compared(schemas, l, r, on) != [] && UsedColumns(lcols, u) + UsedColumns(rcols, u) != []
  }

  /** There is a stand-in for each kept column. */
  ghost predicate PadFits(schemas: Schemas, cols: seq<Column>, u: Usage) {
    && Known(schemas, UsedColumns(cols, u))
    && Operators.PadOk(UsedPositions(cols, u), TypesOf(schemas, UsedColumns(cols, u)))
  }

  lemma PadFacts(schemas: Schemas, cols: seq<Column>, u: Usage)
    requires PadFits(schemas, cols, u)
    ensures Known(schemas, UsedColumns(cols, u))
    ensures Operators.PadOk(UsedPositions(cols, u), TypesOf(schemas, UsedColumns(cols, u)))
    ensures UsedColumns(cols, u) == ColumnsAt(cols, UsedPositions(cols, u))
  {
  }

  lemma InputStands(env: Env, u: Usage, ls: seq<Record>, lcols: seq<Column>, l: Source, a: seq<Row>, rs: seq<Record>,
                    rcols: seq<Column>, r: Source, b: seq<Row>, on: seq<Equality>)
    requires OuterInput(env.schemas, u, ls, lcols, l, a, rs, rcols, r, b, on) && EndsUsed(u, on)
    ensures lcols != [] && rcols != [] && Placed(lcols, rcols, {l}, r)
    ensures Known(env.schemas, lcols) && Known(env.schemas, rcols)
    ensures Keyed(a, {l}) && Keyed(b, {r}) && AllRead(ls, lcols, a) && AllRead(rs, rcols, b)
    ensures Stand(lcols, rcols, OuterPairs(env.schemas, lcols, rcols, on), Compared(env.schemas, l, r, on))
  {
    hide Stand, Compared, OuterPairs, AllRead, Keyed, UsedPositions;
    assert OnUsed(u, l.alias, on);
    OuterPairsStand(env.schemas, lcols, rcols, u, l, r, on);
  }

  /** The operator's demands are met. */
  lemma InputRuns(env: Env, u: Usage, ls: seq<Record>, lcols: seq<Column>, l: Source, a: seq<Row>, rs: seq<Record>,
                  rcols: seq<Column>, r: Source, b: seq<Row>, on: seq<Equality>)
    requires OuterInput(env.schemas, u, ls, lcols, l, a, rs, rcols, r, b, on) && EndsUsed(u, on)
    ensures rcols != []
    ensures var ps := OuterPairs(env.schemas, lcols, rcols, on);
      var o := LoopSpec(lcols, rcols, u, ps);
      o.Wide() && ps != [] && Operators.AllLeft(o, ls) && Operators.AllRight(o, rs)
  {
    var ps, compared := OuterPairs(env.schemas, lcols, rcols, on), Compared(env.schemas, l, r, on);
    var o := LoopSpec(lcols, rcols, u, ps);
    InputStands(env, u, ls, lcols, l, a, rs, rcols, r, b, on);
    assert compared != [] && UsedColumns(lcols, u) + UsedColumns(rcols, u) != [];
    hide OuterInput, Compared, OuterPairs, UsedPositions, EndsUsed, StandsFor;
    assert compared[0] in compared;
    RightsOk(lcols, rcols, u, ps, compared, rs, b);
    AllLefts(lcols, rcols, u, ps, compared, ls, a);
  }

  lemma AllLefts(lcols: seq<Column>, rcols: seq<Column>, u: Usage, ps: Operators.Pairs, step: seq<Equality>,
                 ls: seq<Record>, a: seq<Row>)
    requires lcols != [] && rcols != [] && Stand(lcols, rcols, ps, step) && AllRead(ls, lcols, a)
    ensures Operators.AllLeft(LoopSpec(lcols, rcols, u, ps), ls)
  {
    forall i | 0 <= i < |ls| ensures LoopSpec(lcols, rcols, u, ps).LeftOk(ls[i]) {
      assert Reads(ls[i], lcols, a[i]);
      SpecOk(lcols, rcols, u, ps, step, ls[i], ls[i]);
    }
  }

  lemma LeftInputReads(env: Env, u: Usage, ls: seq<Record>, lcols: seq<Column>, l: Source, a: seq<Row>,
                       rs: seq<Record>, rcols: seq<Column>, r: Source, b: seq<Row>, on: seq<Equality>)
    requires OuterInput(env.schemas, u, ls, lcols, l, a, rs, rcols, r, b, on) && EndsUsed(u, on)
    requires PadFits(env.schemas, rcols, u)
    ensures rcols != []
    ensures var o := LoopSpec(lcols, rcols, u, OuterPairs(env.schemas, lcols, rcols, on));
      var pad := Operators.PadOf(o.right, TypesOf(env.schemas, UsedColumns(rcols, u)));
      && Operators.AllLeft(o, ls) && Operators.AllRight(o, rs)
      && AllRead(Operators.LeftJoinRows(o, ls, rs, pad), UsedColumns(lcols, u) + UsedColumns(rcols, u),
                 LeftRows(env, Compared(env.schemas, l, r, on), a, b, Pad(env, [r])))
  {
    InputStands(env, u, ls, lcols, l, a, rs, rcols, r, b, on);
    PadReads(env, rcols, u, r);
    hide OuterInput, Compared, OuterPairs, UsedPositions, EndsUsed, Stand, AllRead, Pad, TypesOf, Lookup;
    LeftReads(env, lcols, rcols, u, OuterPairs(env.schemas, lcols, rcols, on), Compared(env.schemas, l, r, on), {l}, r,
              ls, a, rs, b, Operators.PadOf(UsedPositions(rcols, u), TypesOf(env.schemas, UsedColumns(rcols, u))),
              Pad(env, [r]));
  }

  lemma FullInputReads(env: Env, u: Usage, ls: seq<Record>, lcols: seq<Column>, l: Source, a: seq<Row>,
                       rs: seq<Record>, rcols: seq<Column>, r: Source, b: seq<Row>, on: seq<Equality>)
    requires OuterInput(env.schemas, u, ls, lcols, l, a, rs, rcols, r, b, on) && EndsUsed(u, on)
    requires PadFits(env.schemas, lcols, u) && PadFits(env.schemas, rcols, u)
    ensures rcols != []
    ensures var o := LoopSpec(lcols, rcols, u, OuterPairs(env.schemas, lcols, rcols, on));
      var compared := Compared(env.schemas, l, r, on);
      var lpad := Operators.PadOf(o.left, TypesOf(env.schemas, UsedColumns(lcols, u)));
      var rpad := Operators.PadOf(o.right, TypesOf(env.schemas, UsedColumns(rcols, u)));
      && Operators.AllLeft(o, ls) && Operators.AllRight(o, rs)
      && AllRead(Operators.LeftJoinRows(o, ls, rs, rpad) + Operators.UnmatchedRows(o, ls, rs, lpad, 0),
                 UsedColumns(lcols, u) + UsedColumns(rcols, u),
                 LeftRows(env, compared, a, b, Pad(env, [r])) + UnmatchedRows(env, compared, a, b, Pad(env, [l])))
  {
    var ps, compared := OuterPairs(env.schemas, lcols, rcols, on), Compared(env.schemas, l, r, on);
    var o := LoopSpec(lcols, rcols, u, ps);
    InputStands(env, u, ls, lcols, l, a, rs, rcols, r, b, on);
    LeftInputReads(env, u, ls, lcols, l, a, rs, rcols, r, b, on);
    PadReads(env, lcols, u, l);
    hide OuterInput, Compared, OuterPairs, UsedPositions, EndsUsed, Stand, AllRead, Pad, TypesOf, Lookup;
    var lpad := Operators.PadOf(UsedPositions(lcols, u), TypesOf(env.schemas, UsedColumns(lcols, u)));
    var rpad := Operators.PadOf(UsedPositions(rcols, u), TypesOf(env.schemas, UsedColumns(rcols, u)));
    UnmatchedRead(env, lcols, rcols, u, ps, compared, {l}, r, ls, a, rs, b, lpad, Pad(env, [l]), 0);
    assert b[0..] == b;
    AllReadAppend(Operators.LeftJoinRows(o, ls, rs, rpad), Operators.UnmatchedRows(o, ls, rs, lpad, 0),
                  UsedColumns(lcols, u) + UsedColumns(rcols, u),
                  LeftRows(env, compared, a, b, Pad(env, [r])), UnmatchedRows(env, compared, a, b, Pad(env, [l])));
  }

  /**
   * The left outer join over two children that list the columns in use: it hands out the rows of the left join
   * under the equalities that are compared, reduced to the columns in use. The usage counts are as before.
   */
  method VisitLeftOuterJoin(optimizer: Optimizer, lhs: Operators.RowIter, lcols: seq<Column>, rhs: Operators.RowIter,
                            rcols: seq<Column>, on: seq<Equality>, schemas: Schemas, ghost env: Env,
                            ghost l: Source, ghost r: Source, ghost a: seq<Row>, ghost b: seq<Row>)
      returns (join: Operators.LeftOuterJoin, columns: seq<Column>)
    requires lhs.Valid() && rhs.Valid() && rhs.Restartable() && lhs.Repr !! rhs.Repr
    requires optimizer !in lhs.Repr + rhs.Repr && env.schemas == schemas
    requires var u := Counted(optimizer.columnUsage, on);
      OuterInput(schemas, u, lhs.rows, lcols, l, a, rhs.rows, rcols, r, b, on) && PadFits(schemas, rcols, u)
    modifies optimizer
    ensures SameUsage(optimizer.columnUsage, old(optimizer.columnUsage))
    ensures fresh(join) && join.lhs == lhs && join.rhs == rhs && join.Valid()
    ensures var u := Counted(old(optimizer.columnUsage), on); columns == UsedColumns(lcols, u) + UsedColumns(rcols, u)
    ensures AllRead(join.Output(), columns,
                    LeftRows(env, Compared(schemas, l, r, on), a, b, Pad(env, [r])))
  {
    hide Counted, UsedPositions, ColumnsAt, OuterInput, PadFits, Stand, Compared, OuterPairs, Known, TypesOf, AllRead,
      LeftRows, UnmatchedRows, Pad, Operators.PadOf, Operators.PadOk, Operators.AllLeft, Operators.AllRight,
      Operators.LeftJoinRows, Operators.UnmatchedRows, Operators.RowIter.Valid, Operators.RowIter.Restartable;
    optimizer.CountUses(on);
    ghost var u := optimizer.columnUsage;
    CountedUses(old(optimizer.columnUsage), on);
    InputRuns(env, u, lhs.rows, lcols, l, a, rhs.rows, rcols, r, b, on);
    LeftInputReads(env, u, lhs.rows, lcols, l, a, rhs.rows, rcols, r, b, on);
    var left := optimizer.UsedOf(lcols);
    var right := optimizer.UsedOf(rcols);
    var equalities := PairsOf(schemas, lcols, rcols, on);
    columns := ColumnsAt(lcols, left) + ColumnsAt(rcols, right);
    PadFacts(schemas, rcols, u);
    var rhsTypes := TypesOf(schemas, ColumnsAt(rcols, right));
    join := new Operators.LeftOuterJoin(lhs, rhs, Operators.Spec(left, right, equalities), rhsTypes);
    optimizer.UncountUses(on, old(optimizer.columnUsage));
  }

  /**
   * The full outer join over two children that list the columns in use: it hands out the rows of the full join
   * under the equalities that are compared, reduced to the columns in use. The usage counts are as before.
   */
  method VisitFullOuterJoin(optimizer: Optimizer, lhs: Operators.RowIter, lcols: seq<Column>, rhs: Operators.RowIter,
                            rcols: seq<Column>, on: seq<Equality>, schemas: Schemas, ghost env: Env,
                            ghost l: Source, ghost r: Source, ghost a: seq<Row>, ghost b: seq<Row>)
      returns (join: Operators.FullOuterJoin, columns: seq<Column>)
    requires lhs.Valid() && rhs.Valid() && rhs.Restartable() && lhs.Repr !! rhs.Repr
    requires optimizer !in lhs.Repr + rhs.Repr && env.schemas == schemas
    requires var u := Counted(optimizer.columnUsage, on);
      OuterInput(schemas, u, lhs.rows, lcols, l, a, rhs.rows, rcols, r, b, on) && PadFits(schemas, rcols, u)
      && PadFits(schemas, lcols, u)
    modifies optimizer
    ensures SameUsage(optimizer.columnUsage, old(optimizer.columnUsage))
    ensures fresh(join) && join.lhs == lhs && join.rhs == rhs && join.Shape()
    ensures var u := Counted(old(optimizer.columnUsage), on); columns == UsedColumns(lcols, u) + UsedColumns(rcols, u)
    ensures AllRead(join.Output(), columns,
                    LeftRows(env, Compared(schemas, l, r, on), a, b, Pad(env, [r]))
                    + UnmatchedRows(env, Compared(schemas, l, r, on), a, b, Pad(env, [l])))
  {
    hide Counted, UsedPositions, ColumnsAt, OuterInput, PadFits, Stand, Compared, OuterPairs, Known, TypesOf, AllRead,
      LeftRows, UnmatchedRows, Pad, Operators.PadOf, Operators.PadOk, Operators.AllLeft, Operators.AllRight,
      Operators.LeftJoinRows, Operators.UnmatchedRows, Operators.RowIter.Valid, Operators.RowIter.Restartable;
    optimizer.CountUses(on);
    ghost var u := optimizer.columnUsage;
    CountedUses(old(optimizer.columnUsage), on);
    InputRuns(env, u, lhs.rows, lcols, l, a, rhs.rows, rcols, r, b, on);
    FullInputReads(env, u, lhs.rows, lcols, l, a, rhs.rows, rcols, r, b, on);
    var left := optimizer.UsedOf(lcols);
    var right := optimizer.UsedOf(rcols);
    var equalities := PairsOf(schemas, lcols, rcols, on);
    columns := ColumnsAt(lcols, left) + ColumnsAt(rcols, right);
    PadFacts(schemas, rcols, u);
    PadFacts(schemas, lcols, u);
    var lhsTypes := TypesOf(schemas, ColumnsAt(lcols, left));
    var rhsTypes := TypesOf(schemas, ColumnsAt(rcols, right));
    join := new Operators.FullOuterJoin(lhs, rhs, Operators.Spec(left, right, equalities), lhsTypes, rhsTypes);
    optimizer.UncountUses(on, old(optimizer.columnUsage));
  }

  // ---------------------------------------------------------------- when another ON gives the same rows

  /** One list of equalities links the columns of each equality of the other. */
  ghost predicate LinkedBy(on: seq<Equality>, es: seq<Equality>) {
    forall eq :: eq in es ==> Chained(on, eq.0, eq.1)
  }

  ghost predicate SameLinks(on: seq<Equality>, on': seq<Equality>) {
    LinkedBy(on, on') && LinkedBy(on', on)
  }

  /** The outer join with another ON. */
  function WithOn(child: Plan, on: seq<Equality>): Plan
    requires IsOuterJoin(child)
  {
    child.(on := on)
  }

  /** Comparable columns of the two relations; the right table has some column. */
  ghost predicate OnOk(schemas: Schemas, child: Plan, on: seq<Equality>)
    requires IsOuterJoin(child)
  {
    && Typed(schemas, AsExprs(on)) && Local(AsExprs(on), {child.left.source, child.right.source})
    && SchemaOf(schemas, child.right.source.table) != map[]
  }

  lemma {:induction false} LinkedHolds(env: Env, on: seq<Equality>, es: seq<Equality>, r: Row)
    requires LinkedBy(on, es) && AllHold(env, AsExprs(on), r)
    ensures AllHold(env, AsExprs(es), r)
  {
    forall eq | eq in es ensures Lookup(r, eq.0) == Lookup(r, eq.1) { ChainHolds(env, on, r, eq.0, eq.1); }
    EachHolds(env, es, r);
  }

  ghost predicate SameHold(env: Env, on: seq<Equality>, on': seq<Equality>) {
    forall r :: AllHold(env, AsExprs(on), r) == AllHold(env, AsExprs(on'), r)
  }

  lemma {:induction false} LeftRowsSame(env: Env, on: seq<Equality>, on': seq<Equality>, a: seq<Row>, b: seq<Row>,
                                        pad: Row)
    requires SameHold(env, on, on')
    ensures LeftRows(env, on, a, b, pad) == LeftRows(env, on', a, b, pad)
  {
    if a != [] {
      LeftRowsSame(env, on, on', a[1..], b, pad);
      FilterSame(env, AsExprs(on), AsExprs(on'), Extend(a[0], b));
    }
  }

  lemma {:induction false} UnmatchedSame(env: Env, on: seq<Equality>, on': seq<Equality>, a: seq<Row>, b: seq<Row>,
                                         pad: Row)
    requires SameHold(env, on, on')
    ensures UnmatchedRows(env, on, a, b, pad) == UnmatchedRows(env, on', a, b, pad)
  {
    hide AllHold;
    if b != [] { UnmatchedSame(env, on, on', a, b[1..], pad); }
  }

  lemma {:induction false} LinksHold(env: Env, on: seq<Equality>, on': seq<Equality>)
    requires SameLinks(on, on')
    ensures SameHold(env, on, on')
  {
    hide AllHold, LinkedBy;
    forall row ensures AllHold(env, AsExprs(on), row) == AllHold(env, AsExprs(on'), row) {
      if AllHold(env, AsExprs(on), row) { LinkedHolds(env, on, on', row); }
      if AllHold(env, AsExprs(on'), row) { LinkedHolds(env, on', on, row); }
    }
  }

  /** The same links, the same rows in the same order. */
  lemma {:induction false} SameLinksRows(env: Env, child: Plan, on: seq<Equality>, on': seq<Equality>)
    requires IsOuterJoin(child) && SameLinks(on, on')
    ensures Rows(env, WithOn(child, on)) == Rows(env, WithOn(child, on'))
  {
    var l, r := child.left, child.right;
    LinksHold(env, on, on');
    hide AllHold, SameHold, SameLinks, Pad, Leaves;
    LeftRowsSame(env, on, on', Rows(env, l), Rows(env, r), Pad(env, Leaves(r)));
    UnmatchedSame(env, on, on', Rows(env, l), Rows(env, r), Pad(env, Leaves(l)));
  }

  /**
   * Two ONs give the same rows, for all tables of the given schemas, exactly when they link the same columns.
   */
  lemma OuterOnExact(schemas: Schemas, child: Plan, on: seq<Equality>, on': seq<Equality>)
    requires IsOuterJoin(child) && OnOk(schemas, child, on) && OnOk(schemas, child, on')
    ensures
      (forall env | Filled(env, schemas) ::
         multiset(Rows(env, WithOn(child, on))) == multiset(Rows(env, WithOn(child, on'))))
      <==> SameLinks(on, on')
  {
    if SameLinks(on, on') {
      forall env | Filled(env, schemas)
        ensures multiset(Rows(env, WithOn(child, on))) == multiset(Rows(env, WithOn(child, on')))
      {
        SameLinksRows(env, child, on, on');
      }
    } else if eq :| eq in on && !Chained(on', eq.0, eq.1) {
      var env := OnsApart(schemas, child, on, on', eq);
    } else {
      var eq :| eq in on' && !Chained(on, eq.0, eq.1);
      var env := OnsApart(schemas, child, on', on, eq);
    }
  }

  /** One tuple on each side, with the values of the classes of one ON: the other ON fails. */
  lemma OnsApart(schemas: Schemas, child: Plan, on: seq<Equality>, on': seq<Equality>, eq: Equality) returns (env: Env)
    requires IsOuterJoin(child) && OnOk(schemas, child, on) && OnOk(schemas, child, on')
    requires eq in on && !Chained(on', eq.0, eq.1)
    ensures Filled(env, schemas)
    ensures multiset(Rows(env, WithOn(child, on))) != multiset(Rows(env, WithOn(child, on')))
  {
    var l, r, marked := child.left.source, child.right.source, ClassOf(on', eq.0);
    env := OuterTables(schemas, marked, l, r, true, true);
    var row := OuterRow(schemas, marked, l, r, true, true);
    ClassIsClosed(on', eq.0);
    OuterIsFilled(schemas, marked, l, r, true, true);
    hide ClassOf, Chained, OuterTables, OuterRow, Rows, Filled, AllHold, NoneLeaves;
    ClassMeets(env, schemas, marked, child, on');
    ClassFails(env, schemas, marked, child, on, eq);
    BothSides(schemas, marked, child, on);
    BothSides(schemas, marked, child, on');
  }

  lemma ClassMeets(env: Env, schemas: Schemas, marked: set<Column>, child: Plan, on: seq<Equality>)
    requires IsOuterJoin(child) && OnOk(schemas, child, on) && NoneLeaves(on, marked)
    ensures AllHold(env, AsExprs(on), OuterRow(schemas, marked, child.left.source, child.right.source, true, true))
  {
    OuterLeaves(WithOn(child, on));
    hide OuterRow, AllHold, NoneLeaves;
    OnHolds(env, schemas, marked, WithOn(child, on), []);
  }

  lemma {:induction false} ClassFails(env: Env, schemas: Schemas, marked: set<Column>, child: Plan,
                                      on: seq<Equality>, eq: Equality)
    requires IsOuterJoin(child) && OnOk(schemas, child, on) && eq in on && eq.0 in marked && eq.1 !in marked
    ensures !AllHold(env, AsExprs(on), OuterRow(schemas, marked, child.left.source, child.right.source, true, true))
  {
    var l, r, es := child.left.source, child.right.source, AsExprs(on);
    var i :| 0 <= i < |on| && on[i] == eq;
    assert eq.0 in Columns(es[i]) && eq.1 in Columns(es[i]) && Comparable(schemas, es[i].left, es[i].right);
    OuterLookup(schemas, marked, l, r, true, true, eq.0);
    OuterLookup(schemas, marked, l, r, true, true, eq.1);
    hide OuterRow, Lookup, TypeOf;
    assert !Holds(env, es[i], OuterRow(schemas, marked, l, r, true, true));
  }

  /** One tuple on each side: a row of both when ON holds, else rows with stand-ins only. */
  lemma BothSides(schemas: Schemas, marked: set<Column>, child: Plan, on: seq<Equality>)
    requires IsOuterJoin(child) && SchemaOf(schemas, child.right.source.table) != map[]
    ensures var l, r := child.left.source, child.right.source;
      var env, row := OuterTables(schemas, marked, l, r, true, true), OuterRow(schemas, marked, l, r, true, true);
      multiset(Rows(env, WithOn(child, on))) == multiset{row} <==> AllHold(env, AsExprs(on), row)
  {
    var l, r := child.left.source, child.right.source;
    var a, b, padl, padr := SideRows(schemas, marked, child, true, true);
    PaddedDiffers(schemas, marked, child, a, padr);
    hide *;
    hide IsOuterJoin;
    RowsOfBoth(OuterTables(schemas, marked, l, r, true, true), child, on, a, b, padl, padr);
    OneOrPadded(OuterRow(schemas, marked, l, r, true, true), a[0] + padr, padl + b[0]);
  }

  /** The outer join of one row on each side. */
  lemma RowsOfBoth(env: Env, child: Plan, on: seq<Equality>, a: seq<Row>, b: seq<Row>, padl: Row, padr: Row)
    requires IsOuterJoin(child) && |a| == |b| == 1 && a == Rows(env, child.left) && b == Rows(env, child.right)
    requires padl == Pad(env, Leaves(child.left)) && padr == Pad(env, Leaves(child.right))
    ensures Rows(env, WithOn(child, on)) ==
      if AllHold(env, AsExprs(on), a[0] + b[0]) then [a[0] + b[0]]
      else [a[0] + padr] + if child.FullOuter? then [padl + b[0]] else []
  {
    hide AllHold, Pad, Leaves;
    OneEach(env, on, a, b, padl, padr);
  }

  lemma OneOrPadded(row: Row, left: Row, right: Row)
    requires left != row
    ensures multiset([row]) == multiset{row}
    ensures multiset([left] + []) != multiset{row} && multiset([left] + [right]) != multiset{row}
  {
    assert multiset([left] + [])[row] == 0;
    assert |multiset([left] + [right])| == 2;
  }

  lemma OneEach(env: Env, on: seq<Equality>, a: seq<Row>, b: seq<Row>, padl: Row, padr: Row)
    requires |a| == |b| == 1
    ensures var holds := AllHold(env, AsExprs(on), a[0] + b[0]);
      && LeftRows(env, on, a, b, padr) == [a[0] + if holds then b[0] else padr]
      && UnmatchedRows(env, on, a, b, padl) == if holds then [] else [padl + b[0]]
  {
    var none: seq<Row> := [];
    assert a[1..] == none && b[1..] == none;
    assert Extend(a[0], b) == [a[0] + b[0]];
    FilterOne(env, AsExprs(on), a[0] + b[0]);
  }

  lemma PaddedDiffers(schemas: Schemas, marked: set<Column>, child: Plan, a: seq<Row>, padr: Row)
    requires IsOuterJoin(child) && SchemaOf(schemas, child.right.source.table) != map[] && a != []
    requires padr == map[child.right.source := PadTuple(SchemaOf(schemas, child.right.source.table))]
    ensures a[0] + padr != OuterRow(schemas, marked, child.left.source, child.right.source, true, true)
  {
    var r := child.right.source;
    var n :| n in SchemaOf(schemas, r.table);
    assert (a[0] + padr)[r][n] != MarkedTuple(schemas, marked, r)[n];
  }

  // ---------------------------------------------------------------- what the compilation makes of ON

  lemma {:induction false} ComparedOk(schemas: Schemas, child: Plan)
    requires IsOuterJoin(child) && OnOk(schemas, child, child.on)
    ensures OnOk(schemas, child, Compared(schemas, child.left.source, child.right.source, child.on))
  {
    var l, r, on := child.left.source, child.right.source, child.on;
    var es := Compared(schemas, l, r, on);
    hide Comparable, IsCompared, Meant;
    forall i | 0 <= i < |es|
      ensures Comparable(schemas, es[i].0, es[i].1) && es[i].0.source == l && es[i].1.source == r
    {
      assert es[i] in es;
      var j :| 0 <= j < |on| && IsCompared(schemas, l, r, on[j]) && es[i] == Meant(l, r, on[j]);
      assert Comparable(schemas, AsExprs(on)[j].left, AsExprs(on)[j].right);
      MeantOk(schemas, l, r, on[j]);
    }
    EndsLocal(es, l, r);
  }

  lemma MeantOk(schemas: Schemas, l: Source, r: Source, eq: Equality)
    requires IsCompared(schemas, l, r, eq) && Comparable(schemas, eq.0, eq.1)
    ensures Comparable(schemas, Meant(l, r, eq).0, Meant(l, r, eq).1)
    ensures Meant(l, r, eq).0.source == l && Meant(l, r, eq).1.source == r
  {
  }

  lemma EndsLocal(es: seq<Equality>, l: Source, r: Source)
    requires forall i :: 0 <= i < |es| ==> es[i].0.source == l && es[i].1.source == r
    ensures Local(AsExprs(es), {l, r})
  {
  }

  /**
   * The outer join that is executed has the rows of the outer join that was written, for all tables of the given
   * schemas, exactly when the equalities that are compared link the same columns as ON.
   */
  lemma CompiledOuterExact(schemas: Schemas, child: Plan)
    requires IsOuterJoin(child) && OnOk(schemas, child, child.on)
    ensures var compared := Compared(schemas, child.left.source, child.right.source, child.on);
      (forall env | Filled(env, schemas) ::
         multiset(Rows(env, WithOn(child, compared))) == multiset(Rows(env, WithOn(child, child.on))))
      <==> SameLinks(compared, child.on)
  {
    ComparedOk(schemas, child);
    OuterOnExact(schemas, child, Compared(schemas, child.left.source, child.right.source, child.on), child.on);
  }

  /** Equalities between the two relations are compared as they are written. */
  lemma CrossingCompared(schemas: Schemas, child: Plan)
    requires IsOuterJoin(child) && OnOk(schemas, child, child.on)
    requires forall i :: 0 <= i < |child.on| ==> child.on[i].0.source != child.on[i].1.source
    ensures SameLinks(Compared(schemas, child.left.source, child.right.source, child.on), child.on)
  {
    var l, r, on := child.left.source, child.right.source, child.on;
    var compared := Compared(schemas, l, r, on);
    hide OnOk, IsCompared, Meant, Chained, IsOuterJoin;
    forall eq | eq in on ensures Chained(compared, eq.0, eq.1) {
      var i :| 0 <= i < |on| && on[i] == eq;
      CrossingMeant(schemas, child, i);
      LinkedDirectly(compared, eq.0, eq.1);
    }
    forall eq | eq in compared ensures Chained(on, eq.0, eq.1) {
      var i :| 0 <= i < |on| && IsCompared(schemas, l, r, on[i]) && eq == Meant(l, r, on[i]);
      CrossingMeant(schemas, child, i);
      LinkedDirectly(on, eq.0, eq.1);
    }
  }

  lemma CrossingMeant(schemas: Schemas, child: Plan, i: nat)
    requires IsOuterJoin(child) && OnOk(schemas, child, child.on) && i < |child.on|
    requires child.on[i].0.source != child.on[i].1.source
    ensures var l, r, eq := child.left.source, child.right.source, child.on[i];
      IsCompared(schemas, l, r, eq) && (Meant(l, r, eq) == eq || Meant(l, r, eq) == (eq.1, eq.0))
  {
    var eq, e := child.on[i], AsExprs(child.on)[i];
    assert e.left in Columns(e) && e.right in Columns(e) && Comparable(schemas, e.left, e.right);
    assert eq.0 == Column(eq.0.source, eq.0.name) && eq.1 == Column(eq.1.source, eq.1.name);
  }

  lemma LinkedDirectly(eqs: seq<Equality>, a: Column, b: Column)
    requires (a, b) in eqs || (b, a) in eqs
    ensures Chained(eqs, a, b)
  {
    assert IsPath(eqs, [a, b]);
  }

  // ---------------------------------------------------------------- the smallest such join

  /** (A LEFT OUTER JOIN B ON A.x == A.y) AS j, where B has a column y as well */
  function InsideOn(): Plan {
    var a, b := Source("j", "A"), Source("j", "B");
    LeftOuter("j", Relation(a), Relation(b), [(Column(a, "x"), Column(a, "y"))])
  }

  function SharedNames(): Schemas {
    map["A" := map["x" := IntColumn, "y" := IntColumn], "B" := map["y" := IntColumn]]
  }

  /** One tuple in each table. */
  function SharedTables(x: int, y: int, z: int): Env {
    Env(map["A" := [map["x" := Int(x), "y" := Int(y)]], "B" := [map["y" := Int(z)]]], SharedNames(), (_, _) => true)
  }

  /** ON A.x == A.y is executed as A.x == B.y: rows that ON forbids come out, and rows that it demands do not. */
  lemma InsideOnCompared(x: int, y: int, z: int)
    ensures var env, child, a, b := SharedTables(x, y, z), InsideOn(), Source("j", "A"), Source("j", "B");
      var s, t, pad := env.tables["A"][0], env.tables["B"][0], map["y" := Int(-1)];
      var compared := Compared(SharedNames(), a, b, child.on);
      && Filled(env, SharedNames()) && compared == [(Column(a, "x"), Column(b, "y"))]
      && Rows(env, child) == [map[a := s, b := if x == y then t else pad]]
      && Rows(env, WithOn(child, compared)) == [map[a := s, b := if x == z then t else pad]]
  {
    var env, child, a, b := SharedTables(x, y, z), InsideOn(), Source("j", "A"), Source("j", "B");
    var s, t := env.tables["A"][0], env.tables["B"][0];
    SharedFacts(x, y, z);
    SharedCompared();
    SharedRows(x, y, z, Column(a, "x"), Column(a, "y"));
    SharedRows(x, y, z, Column(a, "x"), Column(b, "y"));
    assert Lookup(map[a := s, b := t], Column(a, "x")) == Some(Int(x));
    assert Lookup(map[a := s, b := t], Column(a, "y")) == Some(Int(y));
    assert Lookup(map[a := s, b := t], Column(b, "y")) == Some(Int(z));
  }

  /** The left join of these tables ON c == d. */
  lemma SharedRows(x: int, y: int, z: int, c: Column, d: Column)
    ensures var env, a, b := SharedTables(x, y, z), Source("j", "A"), Source("j", "B");
      "A" in env.tables && "B" in env.tables && |env.tables["A"]| == |env.tables["B"]| == 1
    ensures var env, a, b := SharedTables(x, y, z), Source("j", "A"), Source("j", "B");
      var s, t := env.tables["A"][0], env.tables["B"][0];
      var row := map[a := s, b := t];
      Rows(env, WithOn(InsideOn(), [(c, d)])) ==
        [map[a := s, b := if Lookup(row, c) == Lookup(row, d) then t else map["y" := Int(-1)]]]
  {
    var env, child, a, b := SharedTables(x, y, z), InsideOn(), Source("j", "A"), Source("j", "B");
    SharedFacts(x, y, z);
    var s, t, pad := env.tables["A"][0], env.tables["B"][0], map["y" := Int(-1)];
    assert map[a := s] + map[b := t] == map[a := s, b := t] && map[a := s] + map[b := pad] == map[a := s, b := pad];
    hide SharedTables, Rows, Pad, Leaves, Lookup, AllHold, AsExprs, Filled, WithOn;
    RowsOfBoth(env, child, [(c, d)], [map[a := s]], [map[b := t]], Pad(env, Leaves(Relation(a))), map[b := pad]);
    OneOnHolds(env, [(c, d)], map[a := s, b := t]);
  }

  lemma {:induction false} SharedFacts(x: int, y: int, z: int)
    ensures var env, a, b := SharedTables(x, y, z), Source("j", "A"), Source("j", "B");
      && Filled(env, SharedNames()) && "A" in env.tables && "B" in env.tables
      && env.tables["A"] == [map["x" := Int(x), "y" := Int(y)]] && env.tables["B"] == [map["y" := Int(z)]]
      && Rows(env, Relation(a)) == [map[a := env.tables["A"][0]]]
      && Rows(env, Relation(b)) == [map[b := env.tables["B"][0]]]
      && Pad(env, Leaves(Relation(b))) == map[b := map["y" := Int(-1)]]
  {
    var env, a, b := SharedTables(x, y, z), Source("j", "A"), Source("j", "B");
    assert PadTuple(SchemaOf(SharedNames(), "B")) == map["y" := Int(-1)];
    assert env.tables["A"] == TableOf(env, "A") && env.tables["B"] == TableOf(env, "B");
    hide Rows, Pad, Leaves, PadTuple, SchemaOf, TableOf;
    OneSide(env, a, env.tables["A"]);
    OneSide(env, b, env.tables["B"]);
  }

  lemma SharedCompared()
    ensures var a, b := Source("j", "A"), Source("j", "B");
      Compared(SharedNames(), a, b, InsideOn().on) == [(Column(a, "x"), Column(b, "y"))]
  {
    var a, b, on := Source("j", "A"), Source("j", "B"), InsideOn().on;
    var none: seq<Equality> := [];
    assert on[..0] == none && on[0] == (Column(a, "x"), Column(a, "y"));
    assert IsCompared(SharedNames(), a, b, on[0]);
  }

  lemma OneOnHolds(env: Env, on: seq<Equality>, r: Row)
    requires |on| == 1
    ensures AllHold(env, AsExprs(on), r) <==> Lookup(r, on[0].0) == Lookup(r, on[0].1)
  {
    var es := AsExprs(on);
    assert AllHold(env, es, r) <==> Holds(env, es[0], r);
  }
}
