/** The nested-loop operators of the executor, one record per call. */
module Operators {
  import opened Model

  // ---------------------------------------------------------------- what they compute

  /** Positions of the columns that are kept. */
  type Positions = seq<nat>

  /** Pairs of positions whose values must be equal. */
  type Pairs = seq<(nat, nat)>

  function Pick(r: Record, ps: Positions): (s: Record)
    requires forall i :: 0 <= i < |ps| ==> ps[i] < |r|
    ensures |s| == |ps| && forall i :: 0 <= i < |ps| ==> s[i] == r[ps[i]]
  {
    seq(|ps|, i requires 0 <= i < |ps| => r[ps[i]])
  }

  /** What an operator knows: which columns it keeps and which it compares. */
  datatype Spec = Spec(left: Positions, right: Positions, equalities: Pairs) {
    predicate LeftOk(l: Record) {
      l != [] && (forall i :: 0 <= i < |left| ==> left[i] < |l|) && forall i :: 0 <= i < |equalities| ==>
        equalities[i].0 < |l|
    }

    predicate RightOk(r: Record) {
      r != [] && (forall i :: 0 <= i < |right| ==> right[i] < |r|) && forall i :: 0 <= i < |equalities| ==>
        equalities[i].1 < |r|
    }

    /** A record without columns would end the stream: some column must be kept. */
    predicate Wide() {
      |left| + |right| > 0
    }

    predicate Compatible(l: Record, r: Record)
      requires LeftOk(l) && RightOk(r)
    {
      forall i :: 0 <= i < |equalities| ==> l[equalities[i].0] == r[equalities[i].1]
    }

    function Combine(l: Record, r: Record): Record
      requires LeftOk(l) && RightOk(r)
    {
      Pick(l, left) + Pick(r, right)
    }
  }

  ghost predicate AllLeft(o: Spec, ls: seq<Record>) {
    forall i :: 0 <= i < |ls| ==> o.LeftOk(ls[i])
  }

  ghost predicate AllRight(o: Spec, rs: seq<Record>) {
    forall i :: 0 <= i < |rs| ==> o.RightOk(rs[i])
  }

  /** The partners of one left record, combined with it. */
  function Matches(o: Spec, l: Record, rs: seq<Record>): seq<Record>
    requires o.LeftOk(l) && AllRight(o, rs)
  {
    if rs == [] then [] else (if o.Compatible(l, rs[0]) then [o.Combine(l, rs[0])] else []) + Matches(o, l, rs[1..])
  }

  /** One record of the right side more. */
  lemma MatchesFrom(o: Spec, l: Record, rs: seq<Record>, k: nat)
    requires o.LeftOk(l) && AllRight(o, rs) && k <= |rs|
    ensures AllRight(o, rs[k..])
    ensures k == |rs| ==> Matches(o, l, rs[k..]) == []
    ensures k < |rs| ==> o.RightOk(rs[k]) && AllRight(o, rs[k + 1..])
    ensures k < |rs| ==>
      Matches(o, l, rs[k..]) == (if o.Compatible(l, rs[k]) then [o.Combine(l, rs[k])] else []) +
        Matches(o, l, rs[k + 1..])
  {
    if k < |rs| { assert rs[k..][1..] == rs[k + 1..]; }
  }

  /** A join: the partners of each left record in turn. */
  function JoinRows(o: Spec, ls: seq<Record>, rs: seq<Record>): seq<Record>
    requires AllLeft(o, ls) && AllRight(o, rs)
  {
    if ls == [] then [] else Matches(o, ls[0], rs) + JoinRows(o, ls[1..], rs)
  }

  /** One record of the left side more. */
  lemma JoinRowsFrom(o: Spec, ls: seq<Record>, rs: seq<Record>, k: nat)
    requires AllLeft(o, ls) && AllRight(o, rs) && k <= |ls|
    ensures AllLeft(o, ls[k..]) && (k == |ls| ==> JoinRows(o, ls[k..], rs) == [])
    ensures k < |ls| ==> o.LeftOk(ls[k]) && AllLeft(o, ls[k + 1..])
    ensures k < |ls| ==> JoinRows(o, ls[k..], rs) == Matches(o, ls[k], rs) + JoinRows(o, ls[k + 1..], rs)
  {
    if k < |ls| { assert ls[k..][1..] == ls[k + 1..]; }
  }

  /** The partners, or the padded record if there is none. */
  function MatchesOrPad(o: Spec, l: Record, rs: seq<Record>, pad: Record): seq<Record>
    requires o.LeftOk(l) && AllRight(o, rs)
  {
    var m := Matches(o, l, rs);
    if m == [] then [Pick(l, o.left) + pad] else m
  }

  function LeftJoinRows(o: Spec, ls: seq<Record>, rs: seq<Record>, pad: Record): seq<Record>
    requires AllLeft(o, ls) && AllRight(o, rs)
  {
    if ls == [] then [] else MatchesOrPad(o, ls[0], rs, pad) + LeftJoinRows(o, ls[1..], rs, pad)
  }

  lemma LeftJoinRowsFrom(o: Spec, ls: seq<Record>, rs: seq<Record>, pad: Record, k: nat)
    requires AllLeft(o, ls) && AllRight(o, rs) && k <= |ls|
    ensures AllLeft(o, ls[k..]) && (k == |ls| ==> LeftJoinRows(o, ls[k..], rs, pad) == [])
    ensures k < |ls| ==> o.LeftOk(ls[k]) && AllLeft(o, ls[k + 1..])
    ensures k < |ls| ==>
      LeftJoinRows(o, ls[k..], rs, pad) == MatchesOrPad(o, ls[k], rs, pad) + LeftJoinRows(o, ls[k + 1..], rs, pad)
  {
    if k < |ls| { assert ls[k..][1..] == ls[k + 1..]; }
  }

  ghost predicate Matched(o: Spec, ls: seq<Record>, r: Record)
    requires AllLeft(o, ls) && o.RightOk(r)
  {
    exists i :: 0 <= i < |ls| && o.Compatible(ls[i], r)
  }

  /** Right records from `j` on without a partner, behind the pad. */
  ghost function UnmatchedRows(o: Spec, ls: seq<Record>, rs: seq<Record>, pad: Record, j: nat): seq<Record>
    requires AllLeft(o, ls) && AllRight(o, rs) && j <= |rs|
    decreases |rs| - j
  {
    if j == |rs| then []
    else (if Matched(o, ls, rs[j]) then [] else [pad + Pick(rs[j], o.right)]) + UnmatchedRows(o, ls, rs, pad, j + 1)
  }

  lemma UnmatchedFrom(o: Spec, ls: seq<Record>, rs: seq<Record>, pad: Record, j: nat)
    requires AllLeft(o, ls) && AllRight(o, rs) && j <= |rs|
    ensures j == |rs| ==> UnmatchedRows(o, ls, rs, pad, j) == []
    ensures j < |rs| ==>
      UnmatchedRows(o, ls, rs, pad, j) ==
        (if Matched(o, ls, rs[j]) then [] else [pad + Pick(rs[j], o.right)]) + UnmatchedRows(o, ls, rs, pad, j + 1)
  {
  }

  // ---------------------------------------------------------------- the children

  /** What an iterator is underneath: a list of records, or one of the two loops of a join chain. */
  datatype Kind = List(records: seq<Record>) | OfProduct(product: CartesianProduct) | OfJoin(join: Join)

  /** A child of an operator: it hands out its records one by one, and can start over. */
  class RowIter {
    const kind: Kind
    ghost const rows: seq<Record>
    ghost const height: nat
    ghost const Repr: set<object>
    ghost var pos: nat
    var index: nat

    ghost predicate Valid()
      reads this, Repr
      decreases height, 3
    {
      && this in Repr && pos <= |rows| && (forall i :: 0 <= i < |rows| ==> rows[i] != [])
      && match kind
         case List(records) => rows == records && index == pos
         case OfProduct(p) =>
           && p in Repr && p.Below() <= Repr && this !in p.Below() && p.Height() <= height
           && p.Valid() && p.Output() == rows && p.Remaining() == rows[pos..]
         case OfJoin(j) =>
           && j in Repr && j.Below() <= Repr && this !in j.Below() && j.Height() <= height
           && j.Valid() && j.Output() == rows && j.Remaining() == rows[pos..]
    }

    /** A reset starts over; a loop may only be reset when it is not at a left record. */
    ghost predicate Restartable()
      requires Valid()
      reads this, Repr
      decreases height, 4
    {
      match kind
      case List(_) => true
      case OfProduct(p) => p.Restartable()
      case OfJoin(j) => j.Restartable()
    }

    constructor (records: seq<Record>)
      requires forall i :: 0 <= i < |records| ==> records[i] != []
      ensures Valid() && rows == records && pos == 0 && Restartable() && fresh(Repr)
    {
      kind, rows, height, Repr := List(records), records, 0, {this};
      pos, index := 0, 0;
    }

    /** The product as an iterator, at its beginning. */
    constructor OverProduct(p: CartesianProduct)
      requires p.Valid() && p.Remaining() == p.Output() && p.Restartable()
      ensures Valid() && rows == p.Output() && pos == 0 && Restartable() && Repr == {this, p} + p.Below()
    {
      kind, rows, height, Repr := OfProduct(p), p.Output(), p.Height(), {this, p} + p.Below();
      pos, index := 0, 0;
      new;
      NoEmptyRecords(p.spec, p.lhs.rows, p.rhs.rows);
    }

    constructor OverJoin(j: Join)
      requires j.Valid() && j.Remaining() == j.Output() && j.Restartable()
      ensures Valid() && rows == j.Output() && pos == 0 && Restartable() && Repr == {this, j} + j.Below()
    {
      kind, rows, height, Repr := OfJoin(j), j.Output(), j.Height(), {this, j} + j.Below();
      pos, index := 0, 0;
      new;
      NoEmptyRecords(j.spec, j.lhs.rows, j.rhs.rows);
    }

    method Begin()
      requires Valid()
      modifies this, Repr
      ensures Valid() && pos == 0 && Restartable()
      decreases height, 2
    {
      hide CartesianProduct.Valid, CartesianProduct.Remaining, CartesianProduct.Restartable;
      hide Join.Valid, Join.Remaining, Join.Restartable;
      match kind {
        case List(_) => index := 0;
        case OfProduct(p) => p.Begin();
        case OfJoin(j) => j.Begin();
      }
      pos := 0;
    }

    method Next() returns (r: Record)
      requires Valid()
      modifies this, Repr
      ensures Valid() && pos <= |rows| && (r == [] <==> old(pos) == |rows|)
      ensures r != [] ==> r == rows[old(pos)] && pos == old(pos) + 1
      ensures r == [] ==> pos == old(pos) && Restartable()
      decreases height, 2
    {
      hide CartesianProduct.Valid, CartesianProduct.Remaining, CartesianProduct.Restartable;
      hide Join.Valid, Join.Remaining, Join.Restartable;
      match kind {
        case List(records) =>
          if index == |records| { return []; }
          r := records[index];
          index := index + 1;
        case OfProduct(p) => r := p.Next();
        case OfJoin(j) => r := j.Next();
      }
      OneTaken(rows, pos, r);
      if r != [] { pos := pos + 1; }
    }

    method Reset()
      requires Valid() && Restartable()
      modifies this, Repr
      ensures Valid() && pos == 0 && Restartable()
      decreases height, 2
    {
      match kind {
        case List(_) => index := 0;
        case OfProduct(p) => p.Reset();
        case OfJoin(j) => j.Reset();
      }
      pos := 0;
    }
  }

  lemma OneTaken(rows: seq<Record>, pos: nat, r: Record)
    requires pos <= |rows|
    ensures forall rest :: rows[pos..] == [r] + rest ==> pos < |rows| && rows[pos] == r && rows[pos + 1..] == rest
    ensures rows[pos..] == [] <==> pos == |rows|
  {
    forall rest | rows[pos..] == [r] + rest ensures pos < |rows| && rows[pos] == r && rows[pos + 1..] == rest {
      assert rows[pos..][0] == r && rows[pos..][1..] == rest;
    }
  }

  /** Operators that keep some column hand out no empty record before their end. */
  lemma {:induction false} NoEmptyRecords(o: Spec, ls: seq<Record>, rs: seq<Record>)
    requires AllLeft(o, ls) && AllRight(o, rs) && o.Wide()
    ensures forall i :: 0 <= i < |JoinRows(o, ls, rs)| ==> JoinRows(o, ls, rs)[i] != []
  {
    if ls != [] {
      NoEmptyMatches(o, ls[0], rs);
      NoEmptyRecords(o, ls[1..], rs);
    }
  }

  lemma {:induction false} NoEmptyMatches(o: Spec, l: Record, rs: seq<Record>)
    requires o.LeftOk(l) && AllRight(o, rs) && o.Wide()
    ensures forall i :: 0 <= i < |Matches(o, l, rs)| ==> Matches(o, l, rs)[i] != []
  {
    if rs != [] { NoEmptyMatches(o, l, rs[1..]); }
  }

  ghost function Higher(a: nat, b: nat): nat {
    1 + if a < b then b else a
  }

  // ---------------------------------------------------------------- product and join

  method IsCompatible(o: Spec, l: Record, r: Record) returns (compatible: bool)
    requires o.LeftOk(l) && o.RightOk(r)
    ensures compatible == o.Compatible(l, r)
  {
    for i := 0 to |o.equalities|
      invariant forall j :: 0 <= j < i ==> l[o.equalities[j].0] == r[o.equalities[j].1]
    {
      if l[o.equalities[i].0] != r[o.equalities[i].1] { return false; }
    }
    return true;
  }

  lemma OneAhead(r: Record, a: seq<Record>, b: seq<Record>)
    ensures ([r] + a) + b == [r] + (a + b)
  {
  }

  class CartesianProduct {
    const spec: Spec
    const lhs: RowIter
    const rhs: RowIter
    var currentLhs: Record
    var validLhs: bool

    /** Everything below the operator. */
    ghost function Below(): set<object> {
      {lhs, rhs} + lhs.Repr + rhs.Repr
    }

    ghost predicate Apart() {
      lhs in lhs.Repr && rhs in rhs.Repr && lhs.Repr !! rhs.Repr && this !in Below()
    }

    ghost function Height(): nat {
      Higher(lhs.height, rhs.height)
    }

    ghost predicate Valid()
      reads this, Below()
      decreases Height(), 0
    {
      && Apart() && lhs.Valid() && rhs.Valid() && lhs.pos <= |lhs.rows| && rhs.pos <= |rhs.rows| && spec.Wide()
      && spec.equalities == []
      && AllLeft(spec, lhs.rows) && AllRight(spec, rhs.rows) && (validLhs ==> spec.LeftOk(currentLhs))
      && (!validLhs ==> rhs.Restartable())
    }

    ghost function Output(): seq<Record>
      requires AllLeft(spec, lhs.rows) && AllRight(spec, rhs.rows)
    {
      JoinRows(spec, lhs.rows, rhs.rows)
    }

    ghost function OfCurrent(): seq<Record>
      requires Valid()
      reads this, Below()
      decreases Height(), 1
    {
      if validLhs then Matches(spec, currentLhs, rhs.rows[rhs.pos..]) else []
    }

    ghost function Rest(): seq<Record>
      requires Valid()
      reads this, Below()
      decreases Height(), 1
    {
      JoinRows(spec, lhs.rows[lhs.pos..], rhs.rows)
    }

    /** What further calls of `next` will return. */
    ghost function Remaining(): seq<Record>
      requires Valid()
      reads this, Below()
      decreases Height(), 2
    {
      OfCurrent() + Rest()
    }

    /** The next record comes from a new left record, and the children can be reset. */
    ghost predicate Restartable()
      requires Valid()
      reads this, Below()
      decreases Height(), 1
    {
      !validLhs && lhs.Restartable() && rhs.Restartable()
    }

    constructor (lhs: RowIter, rhs: RowIter, spec: Spec)
      requires lhs.Repr !! rhs.Repr && lhs.Valid() && rhs.Valid()
      requires rhs.Restartable() && spec.Wide() && spec.equalities == []
      requires AllLeft(spec, lhs.rows) && AllRight(spec, rhs.rows)
      ensures Valid() && this.lhs == lhs && this.rhs == rhs && this.spec == spec
    {
      this.lhs, this.rhs, this.spec := lhs, rhs, spec;
      currentLhs, validLhs := [], false;
    }

    method Begin()
      requires Valid()
      modifies this, Below()
      ensures Valid() && Remaining() == Output() && Restartable()
      decreases Height(), 0
    {
      hide RowIter.Valid, RowIter.Restartable;
      lhs.Begin();
      rhs.Begin();
      validLhs := false;
    }

    /** Hands out the remaining records one by one, then the empty record. */
    method Next() returns (r: Record)
      requires Valid()
      modifies this, Below()
      ensures Valid() && (r == [] <==> old(Remaining()) == [])
      ensures r != [] ==> old(Remaining()) == [r] + Remaining()
      ensures r == [] ==> Remaining() == [] && Restartable()
      decreases Height(), 1
    {
      hide RowIter.Valid, RowIter.Restartable;
      hide Matches, JoinRows;
      while true
        invariant Valid() && Remaining() == old(Remaining())
        decreases |lhs.rows| - lhs.pos, validLhs
      {
        if validLhs {
          ghost var rest := Rest();
          MatchesFrom(spec, currentLhs, rhs.rows, rhs.pos);
          var currentRhs := rhs.Next();
          if currentRhs != [] {
            r := Pick(currentLhs, spec.left) + Pick(currentRhs, spec.right);
            OneAhead(r, OfCurrent(), rest);
            return;
          }
          validLhs := false;
        } else {
          var more := NextLeft();
          if !more { return []; }
        }
      }
    }

    /** The next left record, for which the right side starts over. */
    method NextLeft() returns (more: bool)
      requires Valid() && !validLhs
      modifies this, Below()
      ensures Valid() && Remaining() == old(Remaining()) && validLhs == more
      ensures more ==> lhs.pos == old(lhs.pos) + 1
      ensures !more ==> Remaining() == [] && Restartable()
      decreases Height(), 0
    {
      hide RowIter.Valid, RowIter.Restartable, Matches, JoinRows, LeftJoinRows, AllLeft, AllRight;
      JoinRowsFrom(spec, lhs.rows, rhs.rows, lhs.pos);
      assert rhs.rows[0..] == rhs.rows;
      currentLhs := lhs.Next();
      if currentLhs == [] { return false; }
      validLhs := true;
      rhs.Reset();
      return true;
    }

    /** The flag is not cleared: a product that is reset in the middle first serves its old left record again. */
    method Reset()
      requires Valid() && lhs.Restartable() && rhs.Restartable()
      modifies Below()
      ensures Valid() && validLhs == old(validLhs)
      ensures Remaining() == (if old(validLhs) then Matches(spec, old(currentLhs), rhs.rows) else []) + Output()
      ensures !old(validLhs) ==> Remaining() == Output() && Restartable()
      decreases Height(), 0
    {
      hide RowIter.Valid, RowIter.Restartable;
      lhs.Reset();
      rhs.Reset();
    }
  }

  class Join {
    const spec: Spec
    const lhs: RowIter
    const rhs: RowIter
    var currentLhs: Record
    var validLhs: bool

    /** Everything below the operator. */
    ghost function Below(): set<object> {
      {lhs, rhs} + lhs.Repr + rhs.Repr
    }

    ghost predicate Apart() {
      lhs in lhs.Repr && rhs in rhs.Repr && lhs.Repr !! rhs.Repr && this !in Below()
    }

    ghost function Height(): nat {
      Higher(lhs.height, rhs.height)
    }

    ghost predicate Valid()
      reads this, Below()
      decreases Height(), 0
    {
      && Apart() && lhs.Valid() && rhs.Valid() && lhs.pos <= |lhs.rows| && rhs.pos <= |rhs.rows| && spec.Wide()
      && spec.equalities != []
      && AllLeft(spec, lhs.rows) && AllRight(spec, rhs.rows) && (validLhs ==> spec.LeftOk(currentLhs))
      && (!validLhs ==> rhs.Restartable())
    }

    ghost function Output(): seq<Record>
      requires AllLeft(spec, lhs.rows) && AllRight(spec, rhs.rows)
    {
      JoinRows(spec, lhs.rows, rhs.rows)
    }

    ghost function OfCurrent(): seq<Record>
      requires Valid()
      reads this, Below()
      decreases Height(), 1
    {
      if validLhs then Matches(spec, currentLhs, rhs.rows[rhs.pos..]) else []
    }

    ghost function Rest(): seq<Record>
      requires Valid()
      reads this, Below()
      decreases Height(), 1
    {
      JoinRows(spec, lhs.rows[lhs.pos..], rhs.rows)
    }

    ghost function Remaining(): seq<Record>
      requires Valid()
      reads this, Below()
      decreases Height(), 2
    {
      OfCurrent() + Rest()
    }

    /** The next record comes from a new left record, and the children can be reset. */
    ghost predicate Restartable()
      requires Valid()
      reads this, Below()
      decreases Height(), 1
    {
      !validLhs && lhs.Restartable() && rhs.Restartable()
    }

    constructor (lhs: RowIter, rhs: RowIter, spec: Spec)
      requires lhs.Repr !! rhs.Repr && lhs.Valid() && rhs.Valid()
      requires rhs.Restartable() && spec.Wide() && spec.equalities != []
      requires AllLeft(spec, lhs.rows) && AllRight(spec, rhs.rows)
      ensures Valid() && this.lhs == lhs && this.rhs == rhs && this.spec == spec
    {
      this.lhs, this.rhs, this.spec := lhs, rhs, spec;
      currentLhs, validLhs := [], false;
    }

    method Begin()
      requires Valid()
      modifies this, Below()
      ensures Valid() && Remaining() == Output() && Restartable()
      decreases Height(), 0
    {
      hide RowIter.Valid, RowIter.Restartable;
      lhs.Begin();
      rhs.Begin();
      validLhs := false;
    }

    method Next() returns (r: Record)
      requires Valid()
      modifies this, Below()
      ensures Valid() && (r == [] <==> old(Remaining()) == [])
      ensures r != [] ==> old(Remaining()) == [r] + Remaining()
      ensures r == [] ==> Remaining() == [] && Restartable()
      decreases Height(), 1
    {
      hide RowIter.Valid, RowIter.Restartable;
      hide Matches, JoinRows;
      while true
        invariant Valid() && Remaining() == old(Remaining())
        decreases |lhs.rows| - lhs.pos, validLhs
      {
        if validLhs {
          ghost var rest := Rest();
          r := NextMatch();
          if r != [] {
            OneAhead(r, OfCurrent(), rest);
            return;
          }
          validLhs := false;
        } else {
          var more := NextLeft();
          if !more { return []; }
        }
      }
    }

    method NextLeft() returns (more: bool)
      requires Valid() && !validLhs
      modifies this, Below()
      ensures Valid() && Remaining() == old(Remaining()) && validLhs == more
      ensures more ==> lhs.pos == old(lhs.pos) + 1
      ensures !more ==> Remaining() == [] && Restartable()
      decreases Height(), 0
    {
      hide RowIter.Valid, RowIter.Restartable, Matches, JoinRows, LeftJoinRows, AllLeft, AllRight;
      JoinRowsFrom(spec, lhs.rows, rhs.rows, lhs.pos);
      assert rhs.rows[0..] == rhs.rows;
      currentLhs := lhs.Next();
      if currentLhs == [] { return false; }
      validLhs := true;
      rhs.Reset();
      return true;
    }

    /** The inner loop: the next partner of the current left record. */
    method NextMatch() returns (r: Record)
      requires Valid() && validLhs
      modifies rhs, rhs.Repr
      ensures Valid() && Rest() == old(Rest()) && (r == [] <==> old(OfCurrent()) == [])
      ensures r != [] ==> old(OfCurrent()) == [r] + OfCurrent()
      ensures r == [] ==> rhs.Restartable()
      decreases Height(), 0
    {
      hide RowIter.Valid, RowIter.Restartable;
      hide Matches, AllLeft;
      ghost var m := Matches(spec, currentLhs, rhs.rows[rhs.pos..]);
      MatchesFrom(spec, currentLhs, rhs.rows, rhs.pos);
      var currentRhs := rhs.Next();
      while currentRhs != []
        invariant Valid() && (currentRhs != [] ==> spec.RightOk(currentRhs))
        invariant m ==
          (if currentRhs != [] && spec.Compatible(currentLhs, currentRhs) then [spec.Combine(currentLhs, currentRhs)]
            else [])
                       + Matches(spec, currentLhs, rhs.rows[rhs.pos..])
        invariant currentRhs == [] ==> rhs.pos == |rhs.rows| && rhs.Restartable()
        decreases |rhs.rows| - rhs.pos, currentRhs != []
      {
        var compatible := IsCompatible(spec, currentLhs, currentRhs);
        if compatible {
          return Pick(currentLhs, spec.left) + Pick(currentRhs, spec.right);
        }
        MatchesFrom(spec, currentLhs, rhs.rows, rhs.pos);
        currentRhs := rhs.Next();
      }
      MatchesFrom(spec, currentLhs, rhs.rows, rhs.pos);
      return [];
    }

    method Reset()
      requires Valid() && lhs.Restartable() && rhs.Restartable()
      modifies Below()
      ensures Valid() && validLhs == old(validLhs)
      ensures Remaining() == (if old(validLhs) then Matches(spec, old(currentLhs), rhs.rows) else []) + Output()
      ensures !old(validLhs) ==> Remaining() == Output() && Restartable()
      decreases Height(), 0
    {
      hide RowIter.Valid, RowIter.Restartable;
      lhs.Reset();
      rhs.Reset();
    }
  }

  /**
   * Reset in the middle of a join or product starts over exactly when the left record it was at has no
   * partner: otherwise that record's rows come once more.
   */
  lemma ResetInTheMiddle(o: Spec, l: Record, ls: seq<Record>, rs: seq<Record>)
    requires o.LeftOk(l) && AllLeft(o, ls) && AllRight(o, rs)
    ensures Matches(o, l, rs) + JoinRows(o, ls, rs) == JoinRows(o, ls, rs)
      <==> forall j :: 0 <= j < |rs| ==> !o.Compatible(l, rs[j])
  {
    NoMatches(o, l, rs);
    if Matches(o, l, rs) != [] {
      assert |Matches(o, l, rs) + JoinRows(o, ls, rs)| > |JoinRows(o, ls, rs)|;
    }
  }

  lemma {:induction false} NoMatches(o: Spec, l: Record, rs: seq<Record>)
    requires o.LeftOk(l) && AllRight(o, rs)
    ensures Matches(o, l, rs) == [] <==> forall j :: 0 <= j < |rs| ==> !o.Compatible(l, rs[j])
  {
    if rs != [] {
      NoMatches(o, l, rs[1..]);
      assert forall j :: 1 <= j < |rs| ==> rs[j] == rs[1..][j - 1];
    }
  }

  // ---------------------------------------------------------------- outer joins

  /** The stand-ins for missing values, one for each kept column that is not a RID. */
  function Nulls(types: seq<ColumnType>): (s: Record)
    ensures |s| <= |types|
  {
    if types == [] then []
    else
      (match types[0]
       case StrColumn => [Str([45, 49])]
       case IntColumn => [Int(-1)]
       case RidColumn => []) + Nulls(types[1..])
  }

  /** The list of stand-ins is read at the columns' positions in the child, and must reach so far. */
  ghost predicate PadOk(ps: Positions, types: seq<ColumnType>) {
    |types| == |ps| && forall i :: 0 <= i < |ps| ==> ps[i] < |Nulls(types)|
  }

  function PadOf(ps: Positions, types: seq<ColumnType>): Record
    requires PadOk(ps, types)
  {
    Pick(Nulls(types), ps)
  }

  /** The padded columns each have the stand-in of their own type. */
  ghost predicate PadRight(ps: Positions, types: seq<ColumnType>) {
    PadOk(ps, types) && forall i :: 0 <= i < |ps| ==> PadOf(ps, types)[i] == StandIn(types[i])
  }

  /** Kept columns are listed in the order of the child's columns. */
  ghost predicate Climbs(ps: Positions) {
    forall i, j :: 0 <= i < j < |ps| ==> ps[i] < ps[j]
  }

  /**
   * The list of stand-ins can be read at the kept columns' positions exactly when these columns come first in
   * the child and none is a RID; then each gets the stand-in of its own type. In all other cases the list is
   * read behind its end.
   */
  lemma PadExact(ps: Positions, types: seq<ColumnType>)
    requires Climbs(ps) && |types| == |ps|
    ensures PadOk(ps, types) <==> RidColumn !in types && forall i :: 0 <= i < |ps| ==> ps[i] == i
    ensures PadRight(ps, types) <==> PadOk(ps, types)
    ensures PadOk(ps, types) ==>
      PadOf(ps, types) == seq(|types|, i requires 0 <= i < |types| =>
        if types[i] == StrColumn then Str(['-' as int, '1' as int]) else Int(-1))
  {
    if RidColumn !in types { NullsByColumn(types); } else { FewerNulls(types); }
    if PadOk(ps, types) && ps != [] {
      AtLeast(ps, |ps| - 1);
      forall i | 0 <= i < |ps| ensures ps[i] == i { Squeezed(ps, i, |Nulls(types)|); }
    }
  }

  lemma {:induction false} NullsByColumn(types: seq<ColumnType>)
    requires RidColumn !in types
    ensures |Nulls(types)| == |types| && forall i :: 0 <= i < |types| ==> Nulls(types)[i] == StandIn(types[i])
  {
    if types != [] { NullsByColumn(types[1..]); }
  }

  lemma {:induction false} FewerNulls(types: seq<ColumnType>)
    requires RidColumn in types
    ensures |Nulls(types)| < |types|
  {
    if types[0] != RidColumn { FewerNulls(types[1..]); }
  }

  lemma {:induction false} AtLeast(ps: Positions, i: nat)
    requires Climbs(ps) && i < |ps|
    ensures ps[i] >= i
  {
    if i > 0 { AtLeast(ps, i - 1); }
  }

  /** Positions that climb below their own number have no gap. */
  lemma {:induction false} Squeezed(ps: Positions, i: nat, n: nat)
    requires Climbs(ps) && i < |ps| && n <= |ps| && ps[|ps| - 1] < n
    ensures ps[i] == i
    decreases |ps| - i
  {
    AtLeast(ps, i);
    if i + 1 < |ps| { Squeezed(ps, i + 1, n); }
  }

  /** SELECT * keeps the RIDs of both tables of an outer join: there is no stand-in for the last column. */
  lemma StarOverOuterJoin(ps: Positions, types: seq<ColumnType>)
    requires Climbs(ps) && |types| == |ps| > 0 && types[|types| - 1] == RidColumn
    ensures !PadOk(ps, types) && ps[|ps| - 1] >= |Nulls(types)|
  {
    FewerNulls(types);
    AtLeast(ps, |ps| - 1);
    assert ps[|ps| - 1] >= |Nulls(types)|;
  }

  class LeftOuterJoin {
    const spec: Spec
    const lhs: RowIter
    const rhs: RowIter
    const rhsNullValues: Record
    var currentLhs: Record
    var validLhs: bool
    var outerMatch: bool

    /** Everything below the operator. */
    ghost function Below(): set<object> {
      {lhs, rhs} + lhs.Repr + rhs.Repr
    }

    ghost predicate Apart() {
      lhs in lhs.Repr && rhs in rhs.Repr && lhs.Repr !! rhs.Repr && this !in Below()
    }

    ghost predicate Valid()
      reads this, Below()
    {
      && Apart() && lhs.Valid() && rhs.Valid() && lhs.pos <= |lhs.rows| && rhs.pos <= |rhs.rows| && spec.Wide()
      && spec.equalities != []
      && AllLeft(spec, lhs.rows) && AllRight(spec, rhs.rows) && (validLhs ==> spec.LeftOk(currentLhs))
      && (!validLhs ==> rhs.Restartable())
      && (forall i :: 0 <= i < |spec.right| ==> spec.right[i] < |rhsNullValues|)
    }

    ghost function Pad(): Record
      requires forall i :: 0 <= i < |spec.right| ==> spec.right[i] < |rhsNullValues|
    {
      Pick(rhsNullValues, spec.right)
    }

    ghost function Output(): seq<Record>
      requires AllLeft(spec, lhs.rows) && AllRight(spec, rhs.rows)
      requires forall i :: 0 <= i < |spec.right| ==> spec.right[i] < |rhsNullValues|
    {
      LeftJoinRows(spec, lhs.rows, rhs.rows, Pad())
    }

    ghost function OfCurrent(): seq<Record>
      requires Valid()
      reads this, Below()
    {
      if !validLhs then []
      else
        var m := Matches(spec, currentLhs, rhs.rows[rhs.pos..]);
        if m == [] && !outerMatch then [Pick(currentLhs, spec.left) + Pad()] else m
    }

    ghost function Rest(): seq<Record>
      requires Valid()
      reads this, Below()
    {
      LeftJoinRows(spec, lhs.rows[lhs.pos..], rhs.rows, Pad())
    }

    ghost function Remaining(): seq<Record>
      requires Valid()
      reads this, Below()
    {
      OfCurrent() + Rest()
    }

    constructor (lhs: RowIter, rhs: RowIter, spec: Spec, rhsTypes: seq<ColumnType>)
      requires lhs.Repr !! rhs.Repr && lhs.Valid() && rhs.Valid()
      requires rhs.Restartable() && spec.Wide() && spec.equalities != []
      requires AllLeft(spec, lhs.rows) && AllRight(spec, rhs.rows) && PadOk(spec.right, rhsTypes)
      ensures Valid() && this.lhs == lhs && this.rhs == rhs && this.spec == spec && Pad() == PadOf(spec.right, rhsTypes)
    {
      this.lhs, this.rhs, this.spec := lhs, rhs, spec;
      rhsNullValues := Nulls(rhsTypes);
      currentLhs, validLhs, outerMatch := [], false, false;
    }

    method Begin()
      requires Valid()
      modifies this, Below()
      ensures Valid() && Remaining() == Output()
    {
      hide RowIter.Valid, RowIter.Restartable;
      lhs.Begin();
      rhs.Begin();
      validLhs := false;
    }

    method Next() returns (r: Record)
      requires Valid()
      modifies this, Below()
      ensures Valid() && (r == [] <==> old(Remaining()) == [])
      ensures r != [] ==> old(Remaining()) == [r] + Remaining()
      ensures r == [] ==> Remaining() == []
    {
      hide RowIter.Valid, RowIter.Restartable;
      hide Matches, LeftJoinRows;
      while true
        invariant Valid() && Remaining() == old(Remaining())
        decreases |lhs.rows| - lhs.pos, validLhs
      {
        if !validLhs {
          var more := NextLeft();
          if !more { return []; }
        }
        ghost var rest := Rest();
        r := NextOfCurrent();
        if r != [] {
          OneAhead(r, OfCurrent(), rest);
          return;
        }
      }
    }

    method NextLeft() returns (more: bool)
      requires Valid() && !validLhs
      modifies this, Below()
      ensures Valid() && Remaining() == old(Remaining()) && validLhs == more
      ensures more ==> lhs.pos == old(lhs.pos) + 1
      ensures !more ==> Remaining() == []
    {
      hide RowIter.Valid, RowIter.Restartable, Matches, JoinRows, LeftJoinRows, AllLeft, AllRight;
      LeftJoinRowsFrom(spec, lhs.rows, rhs.rows, Pad(), lhs.pos);
      assert rhs.rows[0..] == rhs.rows;
      currentLhs := lhs.Next();
      if currentLhs == [] { return false; }
      outerMatch := false;
      validLhs := true;
      rhs.Reset();
      return true;
    }

    /** The next row of the current left record. */
    method NextOfCurrent() returns (r: Record)
      requires Valid() && validLhs
      modifies this, rhs, rhs.Repr
      ensures Valid() && Rest() == old(Rest()) && (r == [] <==> old(OfCurrent()) == [])
      ensures r != [] ==> old(OfCurrent()) == [r] + OfCurrent()
      ensures r == [] ==> !validLhs
    {
      hide RowIter.Valid, RowIter.Restartable;
      hide Matches, LeftJoinRows;
      r := NextMatch();
      if r != [] { return; }
      validLhs := false;
      if !outerMatch {
        return Pick(currentLhs, spec.left) + Pick(rhsNullValues, spec.right);
      }
    }

    /** The inner loop. */
    method NextMatch() returns (r: Record)
      requires Valid() && validLhs
      modifies rhs, rhs.Repr, this`outerMatch
      ensures Valid() && (r == [] ==> outerMatch == old(outerMatch) && rhs.Restartable()) && (r != [] ==> outerMatch)
      ensures var m := old(Matches(spec, currentLhs, rhs.rows[rhs.pos..]));
        && (r == [] <==> m == [])
        && (r != [] ==> m == [r] + Matches(spec, currentLhs, rhs.rows[rhs.pos..]))
    {
      hide RowIter.Valid, RowIter.Restartable;
      hide Matches, AllLeft;
      ghost var m := Matches(spec, currentLhs, rhs.rows[rhs.pos..]);
      MatchesFrom(spec, currentLhs, rhs.rows, rhs.pos);
      var currentRhs := rhs.Next();
      while currentRhs != []
        invariant Valid() && (currentRhs != [] ==> spec.RightOk(currentRhs)) && outerMatch == old(outerMatch)
        invariant m ==
          (if currentRhs != [] && spec.Compatible(currentLhs, currentRhs) then [spec.Combine(currentLhs, currentRhs)]
            else [])
                       + Matches(spec, currentLhs, rhs.rows[rhs.pos..])
        invariant currentRhs == [] ==> rhs.pos == |rhs.rows| && rhs.Restartable()
        decreases |rhs.rows| - rhs.pos, currentRhs != []
      {
        var innerMatch := IsCompatible(spec, currentLhs, currentRhs);
        if innerMatch {
          outerMatch := true;
          return Pick(currentLhs, spec.left) + Pick(currentRhs, spec.right);
        }
        MatchesFrom(spec, currentLhs, rhs.rows, rhs.pos);
        currentRhs := rhs.Next();
      }
      MatchesFrom(spec, currentLhs, rhs.rows, rhs.pos);
      return [];
    }

    /** Here the flag is cleared: a reset always starts over. */
    method Reset()
      requires Valid() && lhs.Restartable() && rhs.Restartable()
      modifies this, Below()
      ensures Valid() && Remaining() == Output()
    {
      hide RowIter.Valid, RowIter.Restartable;
      lhs.Reset();
      rhs.Reset();
      validLhs := false;
    }
  }

  /** Right record `j` is marked when one of the first `n` left records matches it, or the next one does and `j < m`. */
  ghost predicate Marked(o: Spec, ls: seq<Record>, rs: seq<Record>, n: nat, m: nat, marks: seq<bool>)
    requires AllLeft(o, ls) && AllRight(o, rs)
  {
    && n <= |ls| && |marks| == |rs|
    && forall j :: 0 <= j < |rs| ==>
      (marks[j] <==> Matched(o, ls[..n], rs[j]) || (j < m && n < |ls| && o.Compatible(ls[n], rs[j])))
  }

  lemma NothingMarked(o: Spec, ls: seq<Record>, rs: seq<Record>, marks: seq<bool>)
    requires AllLeft(o, ls) && AllRight(o, rs) && |marks| == |rs| && forall j :: 0 <= j < |marks| ==> !marks[j]
    ensures Marked(o, ls, rs, 0, 0, marks)
  {
  }

  /** The comparison of the current left record with right record `m`. */
  lemma MarkNext(o: Spec, ls: seq<Record>, rs: seq<Record>, n: nat, m: nat, marks: seq<bool>)
    requires AllLeft(o, ls) && AllRight(o, rs) && Marked(o, ls, rs, n, m, marks) && n < |ls| && m < |rs|
    ensures Marked(o, ls, rs, n, m + 1, if o.Compatible(ls[n], rs[m]) then marks[m := true] else marks)
  {
    hide Matched;
  }

  /** Left record `n` was compared with the first `k` right records; `m` are the matches that are still to come. */
  ghost predicate Comparing(o: Spec, ls: seq<Record>, rs: seq<Record>, n: nat, k: nat, marks: seq<bool>,
                            m: seq<Record>) {
    && AllLeft(o, ls) && AllRight(o, rs) && n < |ls| && k <= |rs| && Marked(o, ls, rs, n, k, marks)
    && m == Matches(o, ls[n], rs[k..])
  }

  lemma CompareNext(o: Spec, ls: seq<Record>, rs: seq<Record>, n: nat, k: nat, marks: seq<bool>, m: seq<Record>)
    requires Comparing(o, ls, rs, n, k, marks, m) && k < |rs|
    ensures o.LeftOk(ls[n]) && o.RightOk(rs[k]) && |marks| == |rs| && AllRight(o, rs[k + 1..])
    ensures if o.Compatible(ls[n], rs[k]) then
              m == [o.Combine(ls[n], rs[k])] + Matches(o, ls[n], rs[k + 1..])
                && Marked(o, ls, rs, n, k + 1, marks[k := true])
            else Comparing(o, ls, rs, n, k + 1, marks, m)
  {
    MatchesFrom(o, ls[n], rs, k);
    MarkNext(o, ls, rs, n, k, marks);
  }

  lemma CompareEnds(o: Spec, ls: seq<Record>, rs: seq<Record>, n: nat, marks: seq<bool>, m: seq<Record>)
    requires Comparing(o, ls, rs, n, |rs|, marks, m)
    ensures m == [] && Marked(o, ls, rs, n, |rs|, marks)
  {
    MatchesFrom(o, ls[n], rs, |rs|);
  }

  /** The current left record is done with. */
  lemma MarkRow(o: Spec, ls: seq<Record>, rs: seq<Record>, n: nat, marks: seq<bool>)
    requires AllLeft(o, ls) && AllRight(o, rs) && Marked(o, ls, rs, n, |rs|, marks) && n < |ls|
    ensures Marked(o, ls, rs, n + 1, 0, marks)
  {
    forall j | 0 <= j < |rs|
      ensures Matched(o, ls[..n + 1], rs[j]) <==> Matched(o, ls[..n], rs[j]) || o.Compatible(ls[n], rs[j]) {
      assert forall i :: 0 <= i < n ==> ls[..n + 1][i] == ls[..n][i];
      assert ls[..n + 1][n] == ls[n];
    }
    hide Matched;
  }

  /** At the end the marks tell the matched records from the others. */
  lemma AllMarked(o: Spec, ls: seq<Record>, rs: seq<Record>, marks: seq<bool>)
    requires AllLeft(o, ls) && AllRight(o, rs) && Marked(o, ls, rs, |ls|, 0, marks)
    ensures forall j :: 0 <= j < |rs| ==> (marks[j] <==> Matched(o, ls, rs[j]))
  {
    assert ls[..|ls|] == ls;
    hide Matched;
  }

  class FullOuterJoin {
    const spec: Spec
    const lhs: RowIter
    const rhs: RowIter
    const lhsNullValues: Record
    const rhsNullValues: Record
    var currentLhs: Record
    var validLhs: bool
    var validRhs: bool
    var outerMatch: bool
    var rhsIndex: nat
    var matchedRhs: seq<bool>

    /** Everything below the operator. */
    ghost function Below(): set<object> {
      {lhs, rhs} + lhs.Repr + rhs.Repr
    }

    ghost predicate Apart() {
      lhs in lhs.Repr && rhs in rhs.Repr && lhs.Repr !! rhs.Repr && this !in Below()
    }

    ghost predicate Fixed() {
      && AllLeft(spec, lhs.rows) && AllRight(spec, rhs.rows)
      && (forall i :: 0 <= i < |spec.left| ==> spec.left[i] < |lhsNullValues|)
      && (forall i :: 0 <= i < |spec.right| ==> spec.right[i] < |rhsNullValues|)
    }

    ghost predicate Shape()
      reads Below()
    {
      && Apart() && lhs.Valid() && rhs.Valid() && lhs.pos <= |lhs.rows| && rhs.pos <= |rhs.rows|
      && spec.Wide() && spec.equalities != [] && Fixed()
    }

    /** The index stays in step with the right child, and the marks with the pairs that were compared. */
    ghost predicate Valid()
      reads this, Below()
    {
      && Shape()
      && (validLhs ==> !validRhs && lhs.pos > 0 && currentLhs == lhs.rows[lhs.pos - 1] && rhsIndex == rhs.pos)
      && (validRhs ==> lhs.pos == |lhs.rows| && rhsIndex == rhs.pos)
      && (!validLhs && !validRhs ==> rhs.Restartable())
      && Marked(spec, lhs.rows, rhs.rows, if validLhs then lhs.pos - 1 else lhs.pos, if validLhs then rhs.pos else 0,
                matchedRhs)
    }

    ghost function LhsPad(): Record
      requires forall i :: 0 <= i < |spec.left| ==> spec.left[i] < |lhsNullValues|
    {
      Pick(lhsNullValues, spec.left)
    }

    ghost function RhsPad(): Record
      requires forall i :: 0 <= i < |spec.right| ==> spec.right[i] < |rhsNullValues|
    {
      Pick(rhsNullValues, spec.right)
    }

    /** The rows of a left outer join, then the right records that match nothing. */
    ghost function Output(): seq<Record>
      requires Fixed()
    {
      LeftJoinRows(spec, lhs.rows, rhs.rows, RhsPad()) + UnmatchedRows(spec, lhs.rows, rhs.rows, LhsPad(), 0)
    }

    ghost function OfCurrent(): seq<Record>
      requires Valid()
      reads this, Below()
    {
      if !validLhs then []
      else
        var m := Matches(spec, currentLhs, rhs.rows[rhs.pos..]);
        if m == [] && !outerMatch then [Pick(currentLhs, spec.left) + RhsPad()] else m
    }

    ghost function Rest(): seq<Record>
      requires Valid()
      reads this, Below()
    {
      LeftJoinRows(spec, lhs.rows[lhs.pos..], rhs.rows, RhsPad())
      + UnmatchedRows(spec, lhs.rows, rhs.rows, LhsPad(), if validRhs then rhs.pos else 0)
    }

    ghost function Remaining(): seq<Record>
      requires Valid()
      reads this, Below()
    {
      OfCurrent() + Rest()
    }

    constructor (lhs: RowIter, rhs: RowIter, spec: Spec, lhsTypes: seq<ColumnType>, rhsTypes: seq<ColumnType>)
      requires lhs.Repr !! rhs.Repr && lhs.Valid() && rhs.Valid() && spec.Wide() && spec.equalities != []
      requires AllLeft(spec, lhs.rows) && AllRight(spec, rhs.rows)
      requires PadOk(spec.left, lhsTypes) && PadOk(spec.right, rhsTypes)
      ensures Shape() && this.lhs == lhs && this.rhs == rhs && this.spec == spec
      ensures LhsPad() == PadOf(spec.left, lhsTypes) && RhsPad() == PadOf(spec.right, rhsTypes)
    {
      this.lhs, this.rhs, this.spec := lhs, rhs, spec;
      lhsNullValues, rhsNullValues := Nulls(lhsTypes), Nulls(rhsTypes);
      currentLhs, validLhs, validRhs, outerMatch, rhsIndex, matchedRhs := [], false, false, false, 0, [];
    }

    method Begin()
      requires Shape()
      modifies this, Below()
      ensures Valid() && Remaining() == Output()
    {
      hide RowIter.Valid, RowIter.Restartable;
      lhs.Begin();
      rhs.Begin();
      validLhs, validRhs, rhsIndex := false, false, 0;
      InitMatchedRhs();
      NothingMarked(spec, lhs.rows, rhs.rows, matchedRhs);
    }

    /** Counts the right records by running through them once. */
    method InitMatchedRhs()
      requires Shape() && rhs.pos == 0
      modifies rhs, rhs.Repr, this`matchedRhs
      ensures Shape() && rhs.pos == 0 && rhs.Restartable() && |matchedRhs| == |rhs.rows|
      ensures forall j :: 0 <= j < |matchedRhs| ==> !matchedRhs[j]
    {
      hide RowIter.Valid, RowIter.Restartable;
      var n := 0;
      var currentRhs := rhs.Next();
      while currentRhs != []
        invariant Shape() && rhs.pos == n + (if currentRhs != [] then 1 else 0)
        invariant currentRhs == [] ==> n == |rhs.rows| && rhs.Restartable()
        decreases |rhs.rows| - rhs.pos, currentRhs != []
      {
        n := n + 1;
        currentRhs := rhs.Next();
      }
      matchedRhs := seq(n, _ => false);
      rhs.Reset();
    }

    method Next() returns (r: Record)
      requires Valid()
      modifies this, Below()
      ensures Valid() && (r == [] <==> old(Remaining()) == [])
      ensures r != [] ==> old(Remaining()) == [r] + Remaining()
      ensures r == [] ==> Remaining() == []
    {
      hide RowIter.Valid, RowIter.Restartable;
      hide Matches, LeftJoinRows, UnmatchedRows, Marked;
      while true
        invariant Valid() && Remaining() == old(Remaining())
        decreases |lhs.rows| - lhs.pos, validLhs
      {
        if !validLhs {
          var more := NextLeft();
          if !more { break; }
        }
        ghost var rest := Rest();
        r := NextOfCurrent();
        if r != [] {
          OneAhead(r, OfCurrent(), rest);
          return;
        }
      }
      r := NextUnmatched();
    }

    method NextLeft() returns (more: bool)
      requires Valid() && !validLhs
      modifies this, Below()
      ensures Valid() && Remaining() == old(Remaining()) && validLhs == more
      ensures more ==> lhs.pos == old(lhs.pos) + 1
      ensures !more ==> lhs.pos == |lhs.rows|
    {
      hide RowIter.Valid, RowIter.Restartable;
      hide Marked, UnmatchedRows, Matches, LeftJoinRows, AllLeft, AllRight, Pick, Matched;
      LeftJoinRowsFrom(spec, lhs.rows, rhs.rows, RhsPad(), lhs.pos);
      assert rhs.rows[0..] == rhs.rows;
      currentLhs := lhs.Next();
      if currentLhs == [] { return false; }
      rhsIndex, outerMatch, validLhs := 0, false, true;
      rhs.Reset();
      return true;
    }

    ghost predicate Steps(r: Record, before: nat)
      requires Shape()
      reads Below()
    {
      && before <= |rhs.rows| && (r == [] <==> before == |rhs.rows|)
      && (if r == [] then rhs.pos == before && rhs.Restartable() else rhs.pos == before + 1 && r == rhs.rows[before])
    }

    /** The next right record. */
    method NextRight() returns (r: Record)
      requires Shape()
      modifies rhs, rhs.Repr
      ensures Shape() && lhs.pos == old(lhs.pos) && Steps(r, old(rhs.pos))
    {
      hide RowIter.Valid, RowIter.Restartable;
      r := rhs.Next();
    }

    /** The next row of the current left record. */
    method NextOfCurrent() returns (r: Record)
      requires Valid() && validLhs
      modifies this, rhs, rhs.Repr
      ensures Valid() && Rest() == old(Rest()) && (r == [] <==> old(OfCurrent()) == [])
      ensures r != [] ==> old(OfCurrent()) == [r] + OfCurrent()
      ensures r == [] ==> !validLhs
    {
      hide RowIter.Valid, RowIter.Restartable;
      hide Matches, LeftJoinRows, UnmatchedRows, Marked;
      r := NextMatch();
      if r != [] { return; }
      MarkRow(spec, lhs.rows, rhs.rows, lhs.pos - 1, matchedRhs);
      validLhs := false;
      if !outerMatch {
        return Pick(currentLhs, spec.left) + Pick(rhsNullValues, spec.right);
      }
    }

    /** One turn of the inner loop: a match is marked and handed out. */
    method CompareTurn(currentRhs: Record, ghost n: nat, ghost m: seq<Record>) returns (r: Record)
      requires Comparing(spec, lhs.rows, rhs.rows, n, rhsIndex, matchedRhs, m) && rhsIndex < |rhs.rows|
      requires currentLhs == lhs.rows[n] && currentRhs == rhs.rows[rhsIndex] && spec.Wide()
      modifies this`outerMatch, this`rhsIndex, this`matchedRhs
      ensures rhsIndex == old(rhsIndex) + 1 && AllLeft(spec, lhs.rows) && AllRight(spec, rhs.rows)
      ensures spec.LeftOk(currentLhs) && AllRight(spec, rhs.rows[rhsIndex..])
      ensures if r == [] then
                outerMatch == old(outerMatch) && Comparing(spec, lhs.rows, rhs.rows, n, rhsIndex, matchedRhs, m)
              else
                && outerMatch && m == [r] + Matches(spec, currentLhs, rhs.rows[rhsIndex..])
                && Marked(spec, lhs.rows, rhs.rows, n, rhsIndex, matchedRhs)
    {
      CompareNext(spec, lhs.rows, rhs.rows, n, rhsIndex, matchedRhs, m);
      assert AllLeft(spec, lhs.rows) && AllRight(spec, rhs.rows);
      hide Matches, Marked, Comparing, AllLeft, AllRight;
      var innerMatch := IsCompatible(spec, currentLhs, currentRhs);
      if innerMatch {
        outerMatch := true;
        matchedRhs := matchedRhs[rhsIndex := true];
      }
      rhsIndex := rhsIndex + 1;
      return if innerMatch then Pick(currentLhs, spec.left) + Pick(currentRhs, spec.right) else [];
    }

    /** The inner loop: the next partner; the index moves with the right child. */
    method NextMatch() returns (r: Record)
      requires Valid() && validLhs
      modifies rhs, rhs.Repr, this`outerMatch, this`rhsIndex, this`matchedRhs
      ensures Valid() && (r == [] ==> outerMatch == old(outerMatch) && rhs.pos == |rhs.rows| && rhs.Restartable())
      ensures r != [] ==> outerMatch
      ensures var m := old(Matches(spec, currentLhs, rhs.rows[rhs.pos..]));
        && (r == [] <==> m == [])
        && (r != [] ==> m == [r] + Matches(spec, currentLhs, rhs.rows[rhs.pos..]))
    {
      hide RowIter.Valid, RowIter.Restartable;
      hide Matches, Marked, UnmatchedRows, LeftJoinRows, Shape, Comparing, Apart, AllLeft, AllRight;
      ghost var n, m := CompareBegins();
      var currentRhs := NextRight();
      while currentRhs != []
        invariant Shape() && outerMatch == old(outerMatch) && lhs.pos == old(lhs.pos) && rhsIndex <= |rhs.rows|
        invariant Steps(currentRhs, rhsIndex) && Comparing(spec, lhs.rows, rhs.rows, n, rhsIndex, matchedRhs, m)
        decreases |rhs.rows| - rhsIndex
      {
        r := CompareTurn(currentRhs, n, m);
        if r != [] { return; }
        currentRhs := NextRight();
      }
      CompareEnds(spec, lhs.rows, rhs.rows, n, matchedRhs, m);
      return [];
    }

    lemma CompareBegins() returns (n: nat, m: seq<Record>)
      requires Valid() && validLhs
      ensures Shape() && this !in Below() && spec.Wide() && !validRhs && rhsIndex == rhs.pos <= |rhs.rows|
      ensures n == lhs.pos - 1 < |lhs.rows| && currentLhs == lhs.rows[n] && spec.LeftOk(currentLhs)
      ensures AllLeft(spec, lhs.rows) && AllRight(spec, rhs.rows) && AllRight(spec, rhs.rows[rhs.pos..])
      ensures m == Matches(spec, currentLhs, rhs.rows[rhs.pos..])
      ensures Comparing(spec, lhs.rows, rhs.rows, n, rhs.pos, matchedRhs, m)
    {
      n, m := lhs.pos - 1, Matches(spec, currentLhs, rhs.rows[rhs.pos..]);
    }

    /** After the left side: right records that no left record matched. */
    method NextUnmatched() returns (r: Record)
      requires Valid() && !validLhs && lhs.pos == |lhs.rows|
      modifies this, rhs, rhs.Repr
      ensures Valid() && (r == [] <==> old(Remaining()) == [])
      ensures r != [] ==> old(Remaining()) == [r] + Remaining()
      ensures r == [] ==> Remaining() == []
    {
      hide RowIter.Valid, RowIter.Restartable;
      hide Matches, Marked, Matched, UnmatchedRows, LeftJoinRows, MatchesOrPad;
      if !validRhs { StartUnmatched(); }
      hide Valid, Remaining, Shape, AllLeft, AllRight, Pick, Apart, Below, Steps;
      ghost var u := NoneLeft();
      var currentRhs := NextRight();
      while currentRhs != []
        invariant Shape() && matchedRhs == old(matchedRhs) && !validLhs && validRhs && lhs.pos == |lhs.rows|
        invariant rhsIndex <= |rhs.rows| && Steps(currentRhs, rhsIndex)
        invariant u == UnmatchedRows(spec, lhs.rows, rhs.rows, LhsPad(), rhsIndex)
        decreases |rhs.rows| - rhsIndex
      {
        UnmatchedFrom(spec, lhs.rows, rhs.rows, LhsPad(), rhsIndex);
        rhsIndex := rhsIndex + 1;
        if !matchedRhs[rhsIndex - 1] {
          return Pick(lhsNullValues, spec.left) + Pick(currentRhs, spec.right);
        }
        currentRhs := NextRight();
      }
      UnmatchedFrom(spec, lhs.rows, rhs.rows, LhsPad(), rhsIndex);
      return [];
    }

    /** The right child starts over for its records without a match. */
    method StartUnmatched()
      requires Valid() && !validLhs && !validRhs && lhs.pos == |lhs.rows|
      modifies this`rhsIndex, this`validRhs, rhs, rhs.Repr
      ensures Valid() && validRhs && lhs.pos == |lhs.rows| && Remaining() == old(Remaining())
    {
      hide RowIter.Valid, RowIter.Restartable, Marked, UnmatchedRows, LeftJoinRows;
      rhs.Reset();
      rhsIndex, validRhs := 0, true;
    }

    lemma NoneLeft() returns (u: seq<Record>)
      requires Valid() && !validLhs && validRhs
      ensures Shape() && Fixed() && this !in Below() && spec.Wide()
      ensures rhsIndex == rhs.pos <= |rhs.rows| && lhs.pos == |lhs.rows|
      ensures u == Remaining() == UnmatchedRows(spec, lhs.rows, rhs.rows, LhsPad(), rhs.pos)
      ensures |matchedRhs| == |rhs.rows|
      ensures forall j :: 0 <= j < |rhs.rows| ==> (matchedRhs[j] <==> Matched(spec, lhs.rows, rhs.rows[j]))
    {
      AllMarked(spec, lhs.rows, rhs.rows, matchedRhs);
      MarkLength(spec, lhs.rows, rhs.rows, lhs.pos, 0, matchedRhs);
      u := Remaining();
      assert lhs.rows[lhs.pos..] == [];
    }

    method Reset()
      requires Valid() && lhs.Restartable() && rhs.Restartable()
      modifies this, Below()
      ensures Valid() && Remaining() == Output()
    {
      hide RowIter.Valid, RowIter.Restartable;
      lhs.Reset();
      rhs.Reset();
      validLhs, validRhs, rhsIndex := false, false, 0;
      MarkLength(spec, lhs.rows, rhs.rows, if old(validLhs) then old(lhs.pos) - 1 else old(lhs.pos),
                 if old(validLhs) then old(rhs.pos) else 0, matchedRhs);
      matchedRhs := seq(|matchedRhs|, _ => false);
      NothingMarked(spec, lhs.rows, rhs.rows, matchedRhs);
    }
  }

  lemma MarkLength(o: Spec, ls: seq<Record>, rs: seq<Record>, n: nat, m: nat, marks: seq<bool>)
    requires AllLeft(o, ls) && AllRight(o, rs) && Marked(o, ls, rs, n, m, marks)
    ensures |marks| == |rs|
  {
  }

  // ---------------------------------------------------------------- draining

  method DrainProduct(op: CartesianProduct) returns (out: seq<Record>)
    requires op.Valid()
    modifies op, op.Below()
    ensures out == op.Output()
  {
    hide Matches, JoinRows, LeftJoinRows, AllLeft, AllRight;
    op.Begin();
    out := [];
    while true
      invariant op.Valid() && out + op.Remaining() == op.Output()
      decreases |op.Remaining()|
    {
      var r := op.Next();
      if r == [] { return; }
      out := out + [r];
    }
  }

  method DrainJoin(op: Join) returns (out: seq<Record>)
    requires op.Valid()
    modifies op, op.Below()
    ensures out == op.Output()
  {
    hide Matches, JoinRows, LeftJoinRows, AllLeft, AllRight;
    op.Begin();
    out := [];
    while true
      invariant op.Valid() && out + op.Remaining() == op.Output()
      decreases |op.Remaining()|
    {
      var r := op.Next();
      if r == [] { return; }
      out := out + [r];
    }
  }

  method DrainLeftOuterJoin(op: LeftOuterJoin) returns (out: seq<Record>)
    requires op.Valid()
    modifies op, op.Below()
    ensures out == op.Output()
  {
    hide Matches, JoinRows, LeftJoinRows, AllLeft, AllRight;
    op.Begin();
    out := [];
    while true
      invariant op.Valid() && out + op.Remaining() == op.Output()
      decreases |op.Remaining()|
    {
      var r := op.Next();
      if r == [] { return; }
      out := out + [r];
    }
  }

  method DrainFullOuterJoin(op: FullOuterJoin) returns (out: seq<Record>)
    requires op.Shape()
    modifies op, op.Below()
    ensures op.Shape() && out == op.Output()
  {
    hide Matches, LeftJoinRows, UnmatchedRows, Marked, AllLeft, AllRight, Pick;
    hide RowIter.Valid, RowIter.Restartable, FullOuterJoin.OfCurrent, FullOuterJoin.Rest, FullOuterJoin.Remaining;
    op.Begin();
    out := [];
    while true
      invariant op.Valid() && out + op.Remaining() == op.Output()
      decreases |op.Remaining()|
    {
      var r := op.Next();
      if r == [] { return; }
      out := out + [r];
    }
  }
}
