/** A compiled chain as a tree of operators, and what comes out of it. */
module Execution {
  import opened Model
  import opened Plans
  import opened Operators
  import opened Optimizer

  /** The operators of a chain, each over the operators of its children. */
  method Build(it: Iter) returns (r: RowIter)
    requires Runs(it)
    ensures r.Valid() && r.rows == Output(it) && r.pos == 0 && r.Restartable() && fresh(r) && fresh(r.Repr)
    decreases it
  {
    match it {
      case Leaf(_, rows) => r := new RowIter(rows);
      case Loop(_, left, right, spec) =>
        hide Runs, Output;
        LoopFacts(it);
        var lhs := Build(left);
        var rhs := Build(right);
        r := BuildLoop(lhs, rhs, spec);
    }
  }

  lemma LoopFacts(it: Iter)
    requires Runs(it) && it.Loop?
    ensures Runs(it.lhs) && Runs(it.rhs) && it.spec.Wide()
    ensures AllLeft(it.spec, Output(it.lhs)) && AllRight(it.spec, Output(it.rhs))
    ensures Output(it) == JoinRows(it.spec, Output(it.lhs), Output(it.rhs))
  {
  }

  /** A product when nothing is compared, else a join. */
  method BuildLoop(lhs: RowIter, rhs: RowIter, spec: Spec) returns (r: RowIter)
    requires lhs.Valid() && rhs.Valid() && rhs.Restartable() && lhs.Repr !! rhs.Repr && spec.Wide()
    requires AllLeft(spec, lhs.rows) && AllRight(spec, rhs.rows)
    modifies lhs, rhs, lhs.Repr, rhs.Repr
    ensures r.Valid() && r.rows == JoinRows(spec, lhs.rows, rhs.rows) && r.pos == 0 && r.Restartable()
    ensures fresh(r) && fresh(r.Repr - {lhs, rhs} - lhs.Repr - rhs.Repr)
  {
    hide RowIter.Valid, RowIter.Restartable, JoinRows, AllLeft, AllRight;
    if spec.equalities == [] {
      var p := new CartesianProduct(lhs, rhs, spec);
      p.Begin();
      r := new RowIter.OverProduct(p);
    } else {
      var j := new Operators.Join(lhs, rhs, spec);
      j.Begin();
      r := new RowIter.OverJoin(j);
    }
  }

  /** What an iterator hands out from its beginning until the empty record. */
  method Drain(it: RowIter) returns (out: seq<Record>)
    requires it.Valid()
    modifies it, it.Repr
    ensures it.Valid() && it.Restartable() && out == it.rows
  {
    hide RowIter.Valid, RowIter.Restartable;
    it.Begin();
    var r := it.Next();
    out := [];
    while r != []
      invariant it.Valid() && it.pos <= |it.rows| && (r == [] ==> it.Restartable())
      invariant if r == [] then out == it.rows
        else it.pos > 0 && r == it.rows[it.pos - 1] && out == it.rows[..it.pos - 1]
      decreases |it.rows| - it.pos, r != []
    {
      out := out + [r];
      assert out == it.rows[..it.pos];
      r := it.Next();
    }
  }

  /** The query's join: compiled over its children, built, and drained. */
  method Execute(children: seq<Iter>, joinColumns: seq<Equality>, usage: Usage,
                 ghost env: Env, ghost ms: seq<seq<Row>>, ghost srcs: seq<Source>) returns (out: seq<Record>)
    requires JoinInput(children, joinColumns, ms, srcs)
    ensures AllRead(out, UsedColumns(AllColumns(children), Counted(usage, joinColumns)),
                    JoinedRows(env, joinColumns, ms, srcs))
  {
    hide *;
    var optimizer := new Optimizer(usage);
    optimizer.VisitJoin(children, joinColumns, env, ms, srcs);
    var it := Build(optimizer.currentIter);
    out := Drain(it);
  }
}
