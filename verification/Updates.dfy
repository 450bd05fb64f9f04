/** An UPDATE statement: it scans the heap file it changes. */
module Updates {
  import opened Model
  import opened Versions
  import opened Pages
  import opened Transactions
  import opened HeapFiles
  import opened Scans

  /** `column := value`, the value computed from the record as the assignments before it left it. */
  datatype Assignment = Assignment(column: nat, value: Record -> Value)

  /** `types` are those of the table's columns, the RID column last. */
  datatype Statement = Statement(tx: TxID, where_: Record -> bool, sets: seq<Assignment>, types: seq<ColumnType>)

  predicate Matches(v: Value, t: ColumnType) {
    (v.Int? && t == IntColumn) || (v.Str? && t == StrColumn)
  }

  /** The record after all assignments, or None at a value of another type than its column. */
  function Assigned(rec: Record, sets: seq<Assignment>, types: seq<ColumnType>): (r: Option<Record>)
    ensures r.Some? ==> |r.value| == |rec|
    decreases |sets|
  {
    if sets == [] then Some(rec)
    else
      var v := sets[0].value(rec);
      if sets[0].column < |rec| && sets[0].column < |types| && Matches(v, types[sets[0].column]) then
        Assigned(rec[sets[0].column := v], sets[1..], types)
      else None
  }

  // ---------------------------------------------------------------- what SET means

  /** The column takes the value: it is of the column's type, and the column is not the RID. */
  ghost predicate Takes(types: seq<ColumnType>, column: nat, v: Value) {
    column < |types| && types[column] != RidColumn && HasType(v, types[column])
  }

  /** One assignment: its column gets the value computed from the record, all other columns stay. */
  ghost predicate AssignStep(before: Record, a: Assignment, types: seq<ColumnType>, after: Record) {
    && a.column < |before| == |after| && Takes(types, a.column, a.value(before)) && after[a.column] == a.value(before)
    && forall c :: 0 <= c < |before| && c != a.column ==> after[c] == before[c]
  }

  /** Records one after the other, from the row on, one for each assignment that was made. */
  ghost predicate Stepwise(row: Record, sets: seq<Assignment>, types: seq<ColumnType>, recs: seq<Record>) {
    && 0 < |recs| <= |sets| + 1 && recs[0] == row
    && forall k :: 0 <= k < |recs| - 1 ==> AssignStep(recs[k], sets[k], types, recs[k + 1])
  }

  /** They come to the end with record `r`, or stop for None where a column does not take the value. */
  ghost predicate EndsWith(sets: seq<Assignment>, types: seq<ColumnType>, recs: seq<Record>, r: Option<Record>)
    requires 0 < |recs| <= |sets| + 1
  {
    var k := |recs| - 1;
    match r
    case Some(rec) => k == |sets| && recs[k] == rec
    case None => k < |sets| && !(sets[k].column < |recs[k]| && Takes(types, sets[k].column, sets[k].value(recs[k])))
  }

  ghost predicate AssignsTo(row: Record, sets: seq<Assignment>, types: seq<ColumnType>, r: Option<Record>) {
    exists recs :: Stepwise(row, sets, types, recs) && EndsWith(sets, types, recs, r)
  }

  /** The assigned record is the end of the records one after the other, and the only such end. */
  lemma AssignedIs(row: Record, sets: seq<Assignment>, types: seq<ColumnType>, r: Option<Record>)
    ensures AssignsTo(row, sets, types, r) <==> r == Assigned(row, sets, types)
  {
    var recs := AssignedSteps(row, sets, types);
    if AssignsTo(row, sets, types, r) {
      var recs' :| Stepwise(row, sets, types, recs') && EndsWith(sets, types, recs', r);
      StepsAreAssigned(row, sets, types, recs', r);
    }
  }

  lemma {:induction false} AssignedSteps(row: Record, sets: seq<Assignment>, types: seq<ColumnType>)
    returns (recs: seq<Record>)
    ensures Stepwise(row, sets, types, recs) && EndsWith(sets, types, recs, Assigned(row, sets, types))
    decreases |sets|
  {
    if sets == [] || !(sets[0].column < |row| && Takes(types, sets[0].column, sets[0].value(row))) {
      recs := [row];
    } else {
      var next := row[sets[0].column := sets[0].value(row)];
      var rest := AssignedSteps(next, sets[1..], types);
      recs := [row] + rest;
      forall k | 0 <= k < |recs| - 1 ensures AssignStep(recs[k], sets[k], types, recs[k + 1]) {
        if k > 0 { assert AssignStep(rest[k - 1], sets[1..][k - 1], types, rest[k]); }
      }
    }
  }

  lemma {:induction false} StepsAreAssigned(row: Record, sets: seq<Assignment>, types: seq<ColumnType>,
                                            recs: seq<Record>, r: Option<Record>)
    requires Stepwise(row, sets, types, recs) && EndsWith(sets, types, recs, r)
    ensures r == Assigned(row, sets, types)
    decreases |sets|
  {
    if |recs| > 1 {
      assert AssignStep(recs[0], sets[0], types, recs[1]);
      assert recs[1] == row[sets[0].column := sets[0].value(row)];
      forall k | 0 <= k < |recs[1..]| - 1 ensures AssignStep(recs[1..][k], sets[1..][k], types, recs[1..][k + 1]) {
        assert AssignStep(recs[k + 1], sets[k + 1], types, recs[k + 2]);
      }
      StepsAreAssigned(recs[1], sets[1..], types, recs[1..], r);
    }
  }

  /** The last assignment to this column, if it is assigned at all. */
  ghost predicate LastTo(sets: seq<Assignment>, column: nat, k: nat) {
    k < |sets| && sets[k].column == column && forall i :: k < i < |sets| ==> sets[i].column != column
  }

  /**
   * A column outside of SET keeps its value, and a column in it has the value of its last assignment, computed
   * from the record that the assignments before that one made.
   */
  lemma ColumnsAfter(row: Record, sets: seq<Assignment>, types: seq<ColumnType>, rec: Record)
    requires AssignsTo(row, sets, types, Some(rec))
    ensures |rec| == |row|
    ensures forall c :: 0 <= c < |row| && (forall i :: 0 <= i < |sets| ==> sets[i].column != c) ==> rec[c] == row[c]
    ensures exists recs ::
      && Stepwise(row, sets, types, recs) && EndsWith(sets, types, recs, Some(rec))
      && forall c: nat, k: nat :: c < |row| && LastTo(sets, c, k) ==> rec[c] == sets[k].value(recs[k])
  {
    var recs :| Stepwise(row, sets, types, recs) && EndsWith(sets, types, recs, Some(rec));
    ColumnKept(row, sets, types, recs, 0);
    forall c: nat, k: nat | c < |row| && LastTo(sets, c, k) ensures rec[c] == sets[k].value(recs[k]) {
      assert AssignStep(recs[k], sets[k], types, recs[k + 1]);
      ColumnKept(row, sets, types, recs, k + 1);
    }
  }

  /** From record `k` on, columns that are not assigned any more stay. */
  lemma {:induction false} ColumnKept(row: Record, sets: seq<Assignment>, types: seq<ColumnType>, recs: seq<Record>,
                                      k: nat)
    requires Stepwise(row, sets, types, recs) && k < |recs| == |sets| + 1
    ensures |recs[k]| == |recs[|sets|]| && (k == 0 ==> recs[k] == row)
    ensures forall c :: 0 <= c < |recs[k]| && (forall i :: k <= i < |sets| ==> sets[i].column != c) ==>
      recs[|sets|][c] == recs[k][c]
    decreases |sets| - k
  {
    if k < |sets| {
      assert AssignStep(recs[k], sets[k], types, recs[k + 1]);
      ColumnKept(row, sets, types, recs, k + 1);
    }
  }

  // ---------------------------------------------------------------- sane statements

  /** What the parser guarantees: the columns exist, and WHERE does not look at the RID. */
  ghost predicate Sane(st: Statement) {
    && |st.types| > 0
    && (forall i :: 0 <= i < |st.sets| ==> st.sets[i].column < |st.types| - 1)
    && (forall rec: Record, r: RID :: st.where_(rec + [Rid(r)]) == st.where_(rec))
  }

  // ---------------------------------------------------------------- what the statement does to one tuple

  ghost predicate InHeap(heap: Heap, c: seq<RID>) {
    forall i :: 0 <= i < |c| ==> c[i] in heap
  }

  ghost predicate Untouched(heap0: Heap, ch0: Chains, heap: Heap, ch: Chains, f: RID)
    requires f in ch0
  {
    f in ch && ch[f] == ch0[f] && forall i :: 0 <= i < |ch0[f]| ==>
      ch0[f][i] in heap && ch0[f][i] in heap0 && heap[ch0[f][i]] == heap0[ch0[f][i]]
  }

  /** The tuple was to be updated when the statement began. */
  ghost predicate Target(st: Statement, heap0: Heap, ch0: Chains, active: set<TxID>, f: RID) {
    RowAt(heap0, ch0, st.tx, active, f).Some? && st.where_(RowAt(heap0, ch0, st.tx, active, f).value)
  }

  /** It got one version more, with the assigned record, and that version is what the transaction now reads. */
  ghost predicate UpdatedOnce(st: Statement, heap0: Heap, ch0: Chains, active: set<TxID>, heap: Heap, ch: Chains,
                              f: RID)
    requires f in ch0 && Target(st, heap0, ch0, active, f)
  {
    var new_ := Assigned(RowAt(heap0, ch0, st.tx, active, f).value, st.sets, st.types);
    && new_.Some? && f in ch && |ch[f]| == |ch0[f]| + 1 && ch0[f] <= ch[f] && InHeap(heap, ch[f])
    && heap[Last(ch[f])] == NewVersion(new_.value, Last(ch[f]), st.tx, Some(f))
    && Current(heap, ch[f], st.tx, active) == Some(Last(ch[f]))
  }

  ghost predicate Processed(st: Statement, heap0: Heap, ch0: Chains, active: set<TxID>, heap: Heap, ch: Chains, f: RID)
    requires f in ch0
  {
    if Target(st, heap0, ch0, active, f) then UpdatedOnce(st, heap0, ch0, active, heap, ch, f)
      else Untouched(heap0, ch0, heap, ch, f)
  }

  /** Versions of active transactions above the first one are covered by the lock of the tuple. */
  ghost predicate Guarded(heap: Heap, ch: Chains, active: set<TxID>, tableId: nat, locks: map<TupleKey, TxID>) {
    forall f :: f in ch ==> GuardedChain(heap, f, ch[f], active, tableId, locks)
  }

  ghost predicate GuardedChain(heap: Heap, f: RID, c: seq<RID>, active: set<TxID>, tableId: nat,
                               locks: map<TupleKey, TxID>) {
    && (forall i :: 1 <= i < |c| && c[i] in heap && heap[c[i]].header.tMin in active ==>
          TupleKey(tableId, f) in locks && locks[TupleKey(tableId, f)] == heap[c[i]].header.tMin)
    && (c != [] && Last(c) in heap && Tombstone(heap[Last(c)].header) ==> heap[Last(c)].header.tMax !in active)
  }

  /** What every step of the statement keeps. */
  ghost predicate Sound(st: Statement, active: set<TxID>, tableId: nat, heap: Heap, ch: Chains,
                        locks: map<TupleKey, TxID>) {
    && Sane(st) && st.tx in active && 0 !in active && Orderly(heap, ch, active)
    && Guarded(heap, ch, active, tableId, locks)
    && (forall r :: r in heap ==> Shaped(st, heap[r].record))
  }

  ghost predicate Shaped(st: Statement, record: Record) {
    |record| == |st.types| - 1 && Stored(record) == record
  }

  /** With the scan at (page, slot), the tuples up to there are done and the others are as they were. */
  ghost predicate Swept(st: Statement, heap0: Heap, ch0: Chains, active: set<TxID>, heap: Heap, ch: Chains, page: int,
                        slot: int) {
    && ch.Keys == ch0.Keys
    && (forall f :: f in ch0 ==>
          if After(page, slot, f) then Untouched(heap0, ch0, heap, ch, f)
            else Processed(st, heap0, ch0, active, heap, ch, f))
  }

  /** The tuples that the statement has written to. */
  ghost function Grown(ch0: Chains, ch: Chains): set<RID> {
    set f | f in ch0 && f in ch && ch[f] != ch0[f]
  }

  /** They are counted, and their locks are held. */
  ghost predicate Tally(tx: TxID, ch0: Chains, ch: Chains, tableId: nat, locks: map<TupleKey, TxID>, count: nat) {
    && count == |Grown(ch0, ch)|
    && forall f :: f in Grown(ch0, ch) ==> TupleKey(tableId, f) in locks && locks[TupleKey(tableId, f)] == tx
  }

  lemma TallyBegins(tx: TxID, ch: Chains, tableId: nat, locks: map<TupleKey, TxID>)
    ensures Tally(tx, ch, ch, tableId, locks, 0)
  {
    assert Grown(ch, ch) == {};
  }

  lemma TallyNext(tx: TxID, ch0: Chains, ch: Chains, tableId: nat, locks: map<TupleKey, TxID>, count: nat, f: RID,
                  r: RID)
    requires Tally(tx, ch0, ch, tableId, locks, count) && f in ch0 && f in ch && ch[f] == ch0[f]
    requires TupleKey(tableId, f) in locks && locks[TupleKey(tableId, f)] == tx
    ensures Tally(tx, ch0, ch[f := ch[f] + [r]], tableId, locks, count + 1)
  {
    assert Grown(ch0, ch[f := ch[f] + [r]]) == Grown(ch0, ch) + {f};
  }

  lemma TallyAfterLock(tx: TxID, ch0: Chains, ch: Chains, tableId: nat, locks: map<TupleKey, TxID>, count: nat, f: RID)
    requires Tally(tx, ch0, ch, tableId, locks, count)
    ensures Tally(tx, ch0, ch, tableId, locks[TupleKey(tableId, f) := tx], count)
  {
  }

  /** Locks of other transactions are as they were. */
  ghost predicate OthersLocks(tx: TxID, locks: map<TupleKey, TxID>, locks': map<TupleKey, TxID>) {
    && (forall key :: key in locks && locks[key] != tx ==> key in locks' && locks'[key] == locks[key])
    && (forall key :: key in locks' && locks'[key] != tx ==> key in locks && locks[key] == locks'[key])
  }

  /** The new records fit a page. */
  ghost predicate Fitting(st: Statement, heap0: Heap, ch0: Chains, active: set<TxID>) {
    forall f :: f in ch0 && Target(st, heap0, ch0, active, f) ==>
      var new_ := Assigned(RowAt(heap0, ch0, st.tx, active, f).value, st.sets, st.types);
      new_.Some? ==> PayloadSize(new_.value) <= MAX_PAYLOAD
  }

  // ---------------------------------------------------------------- steps of the scan

  lemma {:induction false} CurrentSame(heap0: Heap, heap: Heap, c: seq<RID>, tx: TxID, active: set<TxID>)
    requires forall i :: 0 <= i < |c| ==> c[i] in heap0 && c[i] in heap && heap[c[i]] == heap0[c[i]]
    ensures TrustedLength(heap, c, tx, active) == TrustedLength(heap0, c, tx, active)
    ensures Current(heap, c, tx, active) == Current(heap0, c, tx, active)
  {
    if c != [] { CurrentSame(heap0, heap, c[..|c| - 1], tx, active); }
  }

  lemma RowUnchanged(heap0: Heap, ch0: Chains, heap: Heap, ch: Chains, tx: TxID, active: set<TxID>, f: RID)
    requires f in ch0 && Untouched(heap0, ch0, heap, ch, f)
    ensures RowAt(heap, ch, tx, active, f) == RowAt(heap0, ch0, tx, active, f)
  {
    CurrentSame(heap0, heap, ch[f], tx, active);
    TrustedLengthIsNewest(heap, ch[f], tx, active);
  }

  lemma Begins(st: Statement, ch: Chains, active: set<TxID>, heap: Heap)
    requires Chained(heap, ch) && forall r :: r in heap ==> r.Proper()
    ensures Swept(st, heap, ch, active, heap, ch, 0, -1)
  {
    forall f | f in ch ensures After(0, -1, f) && Untouched(heap, ch, heap, ch, f) {
      assert IsChain(heap, f, ch[f]) && ch[f][0] == f;
    }
  }

  /** Tuples without a row are not targets, so passing them completes them. */
  lemma PassedWithoutRow(st: Statement, heap0: Heap, ch0: Chains, active: set<TxID>, heap: Heap, ch: Chains,
                         total: int, page: int, slot: int, page': int, slot': int)
    requires Swept(st, heap0, ch0, active, heap, ch, page, slot)
    requires NothingBetween(heap, ch, st.tx, active, total, page, slot, page', slot')
    requires forall f :: f in ch0 ==> f.pageNum < total
    requires page' > page || (page' == page && slot' >= slot)
    ensures Swept(st, heap0, ch0, active, heap, ch, page', slot')
  {
    forall f | f in ch0 && After(page, slot, f) && !After(page', slot', f)
      ensures Processed(st, heap0, ch0, active, heap, ch, f)
    {
      RowUnchanged(heap0, ch0, heap, ch, st.tx, active, f);
    }
  }

  /** The scan stops at a tuple that has a row: still untouched, and everything before it is done. */
  lemma Arrives(st: Statement, heap0: Heap, ch0: Chains, active: set<TxID>, heap: Heap, ch: Chains,
                total: int, page: int, slot: int, page': int, slot': int, row: Record)
    requires Swept(st, heap0, ch0, active, heap, ch, page, slot)
    requires NextRow(heap, ch, st.tx, active, total, page, slot, page', slot', row) && row != []
    requires forall f :: f in ch0 ==> f.pageNum < total
    ensures var f := RID(page', slot');
      && f in ch0 && Swept(st, heap0, ch0, active, heap, ch, page', slot' - 1) && Untouched(heap0, ch0, heap, ch, f)
      && RowAt(heap0, ch0, st.tx, active, f) == RowAt(heap, ch, st.tx, active, f) == Some(row)
  {
    PassedWithoutRow(st, heap0, ch0, active, heap, ch, total, page, slot, page', slot' - 1);
    RowUnchanged(heap0, ch0, heap, ch, st.tx, active, RID(page', slot'));
  }

  /** A row that WHERE rejects is no target. */
  lemma Rejected(st: Statement, heap0: Heap, ch0: Chains, active: set<TxID>, heap: Heap, ch: Chains, f: RID)
    requires Swept(st, heap0, ch0, active, heap, ch, f.pageNum, f.dirSlot - 1) && f in ch0
    requires !Target(st, heap0, ch0, active, f)
    ensures Swept(st, heap0, ch0, active, heap, ch, f.pageNum, f.dirSlot)
  {
    forall g | g in ch0
      ensures if After(f.pageNum, f.dirSlot, g) then Untouched(heap0, ch0, heap, ch, g)
        else Processed(st, heap0, ch0, active, heap, ch, g) {
      assert After(f.pageNum, f.dirSlot - 1, g) <==> After(f.pageNum, f.dirSlot, g) || g == f;
    }
  }

  lemma SoundAfterLock(st: Statement, active: set<TxID>, tableId: nat, heap: Heap, ch: Chains,
                       locks: map<TupleKey, TxID>, f: RID)
    requires Sound(st, active, tableId, heap, ch, locks)
    requires TupleKey(tableId, f) !in locks || locks[TupleKey(tableId, f)] == st.tx
    ensures Sound(st, active, tableId, heap, ch, locks[TupleKey(tableId, f) := st.tx])
  {
    hide Orderly, Sane;
  }

  /** Under the lock all versions of the tuple are trusted, and its row is its last version. */
  lemma LockedRow(st: Statement, active: set<TxID>, tableId: nat, heap: Heap, ch: Chains, locks: map<TupleKey, TxID>,
                  f: RID, row: Record)
    requires Sound(st, active, tableId, heap, ch, locks)
    requires TupleKey(tableId, f) in locks && locks[TupleKey(tableId, f)] == st.tx
    requires RowAt(heap, ch, st.tx, active, f) == Some(row)
    ensures f in ch && ch[f] != [] && InHeap(heap, ch[f]) && f in heap && heap[f].header.first == f
    ensures forall i :: 0 <= i < |ch[f]| ==> Trusted(heap[ch[f][i]].header.tMin, st.tx, active)
    ensures !Tombstone(heap[Last(ch[f])].header) && Current(heap, ch[f], st.tx, active) == Some(Last(ch[f]))
    ensures row == heap[Last(ch[f])].record + [Rid(f)] && st.where_(row) == st.where_(heap[Last(ch[f])].record)
  {
    LockedChain(st, active, tableId, heap, ch, locks, f);
    hide Sane, GuardedChain, IsChain, OneActiveWriter, Chained, Guarded;
    var c := ch[f];
    TrustedLengthIsNewest(heap, c, st.tx, active);
    assert TrustedLength(heap, c, st.tx, active) == |c|;
    WhereIgnoresRid(st, heap[Last(c)].record, f);
  }

  /** Under the lock of the tuple every version above the first is trusted, and no tombstone is. */
  lemma LockedChain(st: Statement, active: set<TxID>, tableId: nat, heap: Heap, ch: Chains, locks: map<TupleKey, TxID>,
                    f: RID)
    requires Sound(st, active, tableId, heap, ch, locks) && f in ch
    requires TupleKey(tableId, f) in locks && locks[TupleKey(tableId, f)] == st.tx
    ensures var c := ch[f]; c != [] && c[0] == f && InHeap(heap, c) && f in heap && heap[f].header.first == f
    ensures forall i :: 1 <= i < |ch[f]| ==> Trusted(heap[ch[f][i]].header.tMin, st.tx, active)
    ensures Tombstone(heap[Last(ch[f])].header) ==> heap[Last(ch[f])].header.tMax !in active
  {
    hide Sane;
    assert IsChain(heap, f, ch[f]) && GuardedChain(heap, f, ch[f], active, tableId, locks);
  }

  lemma WhereIgnoresRid(st: Statement, record: Record, f: RID)
    requires Sane(st)
    ensures st.where_(record + [Rid(f)]) == st.where_(record)
  {
  }

  // ---------------------------------------------------------------- the new version

  lemma {:induction false} StoredAppend(rec: Record, f: RID)
    ensures Stored(rec + [Rid(f)]) == Stored(rec)
  {
    if rec == [] {
      assert rec + [Rid(f)] == [Rid(f)];
      assert Stored([Rid(f)][1..]) == [];
    } else {
      assert (rec + [Rid(f)])[1..] == rec[1..] + [Rid(f)];
      StoredAppend(rec[1..], f);
    }
  }

  /** A record keeps all its values on the page when none of them is a RID. */
  lemma {:induction false} StoredPlain(rec: Record)
    ensures |Stored(rec)| <= |rec|
    ensures Stored(rec) == rec <==> forall i :: 0 <= i < |rec| ==> !rec[i].Rid?
  {
    if rec != [] {
      StoredPlain(rec[1..]);
      if rec[0].Rid? {
        assert Stored(rec) == Stored(rec[1..]);
      } else {
        assert Stored(rec)[1..] == Stored(rec[1..]) && Stored(rec)[0] == rec[0];
        assert rec == [rec[0]] + rec[1..];
      }
    }
  }

  /** Assignments never touch the RID column and put no RID elsewhere. */
  lemma {:induction false} AssignedShape(rec: Record, sets: seq<Assignment>, types: seq<ColumnType>, n: nat)
    requires |rec| == n + 1 && rec[n].Rid? && forall i :: 0 <= i < n ==> !rec[i].Rid?
    requires forall i :: 0 <= i < |sets| ==> sets[i].column < n
    requires Assigned(rec, sets, types).Some?
    ensures var r := Assigned(rec, sets, types).value; r[n] == rec[n] && forall i :: 0 <= i < n ==> !r[i].Rid?
    decreases |sets|
  {
    if sets != [] {
      AssignedShape(rec[sets[0].column := sets[0].value(rec)], sets[1..], types, n);
    }
  }

  /** The assigned record ends with the RID, which is all that a page does not store of it. */
  lemma NewRecordShaped(st: Statement, record: Record, f: RID)
    requires Sane(st) && Shaped(st, record)
    requires Assigned(record + [Rid(f)], st.sets, st.types).Some?
    ensures var new_ := Assigned(record + [Rid(f)], st.sets, st.types).value;
      Shaped(st, Stored(new_)) && new_ == Stored(new_) + [Rid(f)]
  {
    var rec, n := record + [Rid(f)], |record|;
    StoredPlain(record);
    AssignedShape(rec, st.sets, st.types, n);
    var r := Assigned(rec, st.sets, st.types).value;
    assert r == r[..n] + [Rid(f)];
    StoredAppend(r[..n], f);
    StoredPlain(r[..n]);
  }

  /** Other tuples do not notice an update. */
  lemma OthersKept(heap: Heap, ch: Chains, f: RID, g: RID, v: Version, tx: TxID, r: RID)
    requires Chained(heap, ch) && f in ch && g in ch && g != f && ch[f] != [] && Last(ch[f]) in heap && r !in heap
    ensures var heap' := LinkVersion(heap[r := v], Last(ch[f]), tx, r);
      InHeap(heap, ch[g]) && forall i :: 0 <= i < |ch[g]| ==> ch[g][i] in heap' && heap'[ch[g][i]] == heap[ch[g][i]]
  {
    assert IsChain(heap, f, ch[f]) && IsChain(heap, g, ch[g]);
  }

  /** Tuple `f` after its update: the new version is the last and the current one. */
  lemma NewIsCurrent(heap: Heap, c: seq<RID>, f: RID, record: Record, tx: TxID, active: set<TxID>, r: RID)
    requires IsChain(heap, f, c) && OneActiveWriter(heap, active, c) && r !in heap && tx in active && tx != 0
    requires forall i :: 0 <= i < |c| ==> Trusted(heap[c[i]].header.tMin, tx, active)
    ensures var heap' := LinkVersion(heap[r := NewVersion(record, r, tx, Some(f))], Last(c), tx, r);
      && InHeap(heap', c + [r]) && heap'[r] == NewVersion(record, r, tx, Some(f))
      && Current(heap', c + [r], tx, active) == Some(r)
      && OneActiveWriter(heap', active, c + [r])
  {
    var heap' := LinkVersion(heap[r := NewVersion(record, r, tx, Some(f))], Last(c), tx, r);
    assert Last(c + [r]) == r;
    assert forall i :: 0 <= i < |c| ==> heap'[c[i]].header.tMin == heap[c[i]].header.tMin;
    forall i, j | 0 <= i < j < |c + [r]| && heap'[(c + [r])[i]].header.tMin in active
      ensures heap'[(c + [r])[j]].header.tMin == heap'[(c + [r])[i]].header.tMin
    {
      assert (c + [r])[i] == c[i] && (c + [r])[j] == if j < |c| then c[j] else r;
    }
  }

  lemma StillSound(st: Statement, active: set<TxID>, tableId: nat, heap: Heap, ch: Chains, locks: map<TupleKey, TxID>,
                   f: RID, record: Record, r: RID)
    requires Sound(st, active, tableId, heap, ch, locks) && f in ch && r !in heap && r.Proper()
    requires TupleKey(tableId, f) in locks && locks[TupleKey(tableId, f)] == st.tx
    requires ch[f] != [] && InHeap(heap, ch[f]) && !Tombstone(heap[Last(ch[f])].header)
    requires forall i :: 0 <= i < |ch[f]| ==> Trusted(heap[ch[f][i]].header.tMin, st.tx, active)
    requires Shaped(st, Stored(record))
    ensures Sound(st, active, tableId,
                  LinkVersion(heap[r := NewVersion(record, r, st.tx, Some(f))], Last(ch[f]), st.tx, r),
                  ch[f := ch[f] + [r]], locks)
  {
    hide Sane, LinkVersion, NewVersion, OneActiveWriter, GuardedChain, Chained, IsChain, Shaped;
    var heap', ch' := LinkVersion(heap[r := NewVersion(record, r, st.tx, Some(f))], Last(ch[f]), st.tx, r),
      ch[f := ch[f] + [r]];
    UpdateExtendsChain(heap, ch, f, record, st.tx, r);
    StillShaped(st, heap, Last(ch[f]), f, record, r);
    ItsChain(heap, ch, f);
    forall g | g in ch'
      ensures InHeap(heap', ch'[g]) && OneActiveWriter(heap', active, ch'[g])
      ensures GuardedChain(heap', g, ch'[g], active, tableId, locks)
    {
      if g != f {
        OtherStaysGuarded(heap, heap', ch, active, tableId, locks, f, g, NewVersion(record, r, st.tx, Some(f)), st.tx,
                          r);
      } else {
        NewStaysGuarded(heap, heap', ch[f], active, tableId, locks, f, record, st.tx, r);
      }
    }
  }

  lemma ItsChain(heap: Heap, ch: Chains, f: RID)
    requires Chained(heap, ch) && f in ch
    ensures IsChain(heap, f, ch[f])
  {
  }

  lemma StillShaped(st: Statement, heap: Heap, last: RID, f: RID, record: Record, r: RID)
    requires last in heap && Shaped(st, Stored(record)) && forall x :: x in heap ==> Shaped(st, heap[x].record)
    ensures var heap' := LinkVersion(heap[r := NewVersion(record, r, st.tx, Some(f))], last, st.tx, r);
      forall x :: x in heap' ==> Shaped(st, heap'[x].record)
  {
    hide Shaped;
  }

  lemma OtherStaysGuarded(heap: Heap, heap': Heap, ch: Chains, active: set<TxID>, tableId: nat,
                          locks: map<TupleKey, TxID>,
                          f: RID, g: RID, v: Version, tx: TxID, r: RID)
    requires Orderly(heap, ch, active) && Guarded(heap, ch, active, tableId, locks)
    requires f in ch && g in ch && g != f && ch[f] != [] && Last(ch[f]) in heap && r !in heap
    requires heap' == LinkVersion(heap[r := v], Last(ch[f]), tx, r)
    ensures InHeap(heap', ch[g]) && OneActiveWriter(heap', active, ch[g])
    ensures GuardedChain(heap', g, ch[g], active, tableId, locks)
  {
    OthersKept(heap, ch, f, g, v, tx, r);
    assert OneActiveWriter(heap, active, ch[g]) && GuardedChain(heap, g, ch[g], active, tableId, locks);
    hide LinkVersion, Orderly, Guarded;
  }

  lemma NewStaysGuarded(heap: Heap, heap': Heap, c: seq<RID>, active: set<TxID>, tableId: nat,
                        locks: map<TupleKey, TxID>,
                        f: RID, record: Record, tx: TxID, r: RID)
    requires IsChain(heap, f, c) && OneActiveWriter(heap, active, c) && r !in heap && tx in active && tx != 0
    requires heap' == LinkVersion(heap[r := NewVersion(record, r, tx, Some(f))], Last(c), tx, r)
    requires forall i :: 0 <= i < |c| ==> Trusted(heap[c[i]].header.tMin, tx, active)
    requires TupleKey(tableId, f) in locks && locks[TupleKey(tableId, f)] == tx
    ensures InHeap(heap', c + [r]) && OneActiveWriter(heap', active, c + [r])
    ensures GuardedChain(heap', f, c + [r], active, tableId, locks)
  {
    NewIsCurrent(heap, c, f, record, tx, active, r);
    assert Last(c + [r]) == r;
  }

  lemma StillSwept(st: Statement, heap0: Heap, ch0: Chains, active: set<TxID>, heap: Heap, ch: Chains, f: RID,
                   row: Record, r: RID)
    requires Swept(st, heap0, ch0, active, heap, ch, f.pageNum, f.dirSlot - 1)
    requires f in ch0 && f in ch && Untouched(heap0, ch0, heap, ch, f)
    requires Orderly(heap, ch, active) && st.tx in active && st.tx != 0 && r !in heap
    requires RowAt(heap0, ch0, st.tx, active, f) == Some(row)
    requires st.where_(row) && Assigned(row, st.sets, st.types).Some?
    requires ch[f] != [] && InHeap(heap, ch[f])
    requires forall i :: 0 <= i < |ch[f]| ==> Trusted(heap[ch[f][i]].header.tMin, st.tx, active)
    ensures var record := Assigned(row, st.sets, st.types).value;
      Swept(st, heap0, ch0, active,
            LinkVersion(heap[r := NewVersion(record, r, st.tx, Some(f))], Last(ch[f]), st.tx, r),
            ch[f := ch[f] + [r]], f.pageNum, f.dirSlot)
  {
    hide LinkVersion, NewVersion, Orderly, RowAt, Processed, Untouched, Trusted, InHeap;
    var record := Assigned(row, st.sets, st.types).value;
    var v := NewVersion(record, r, st.tx, Some(f));
    LastInHeap(heap, ch[f]);
    var heap', ch' := LinkVersion(heap[r := v], Last(ch[f]), st.tx, r), ch[f := ch[f] + [r]];
    TargetProcessed(st, heap0, ch0, active, heap, heap', ch, ch', f, row, r);
    forall g | g in ch0
      ensures if After(f.pageNum, f.dirSlot, g) then Untouched(heap0, ch0, heap', ch', g)
        else Processed(st, heap0, ch0, active, heap', ch', g)
    {
      if g != f {
        assert After(f.pageNum, f.dirSlot - 1, g) <==> After(f.pageNum, f.dirSlot, g);
        OtherStaysSwept(st, heap0, ch0, active, heap, heap', ch, ch', f, g, v, r);
      }
    }
  }

  lemma LastInHeap(heap: Heap, c: seq<RID>)
    requires c != [] && InHeap(heap, c)
    ensures Last(c) in heap
  {
  }

  lemma TargetProcessed(st: Statement, heap0: Heap, ch0: Chains, active: set<TxID>, heap: Heap, heap': Heap, ch: Chains,
                        ch': Chains,
                        f: RID, row: Record, r: RID)
    requires f in ch0 && f in ch && Untouched(heap0, ch0, heap, ch, f)
    requires Orderly(heap, ch, active) && st.tx in active && st.tx != 0 && r !in heap
    requires RowAt(heap0, ch0, st.tx, active, f) == Some(row)
    requires st.where_(row) && Assigned(row, st.sets, st.types).Some?
    requires ch[f] != [] && InHeap(heap, ch[f])
    requires forall i :: 0 <= i < |ch[f]| ==> Trusted(heap[ch[f][i]].header.tMin, st.tx, active)
    requires heap' ==
      LinkVersion(heap[r := NewVersion(Assigned(row, st.sets, st.types).value, r, st.tx, Some(f))], Last(ch[f]), st.tx,
                  r)
    requires ch' == ch[f := ch[f] + [r]]
    ensures Processed(st, heap0, ch0, active, heap', ch', f)
  {
    NewIsCurrent(heap, ch[f], f, Assigned(row, st.sets, st.types).value, st.tx, active, r);
    assert Last(ch'[f]) == r;
    hide LinkVersion, NewVersion, Orderly, RowAt, Current;
  }

  lemma OtherStaysSwept(st: Statement, heap0: Heap, ch0: Chains, active: set<TxID>, heap: Heap, heap': Heap, ch: Chains,
                        ch': Chains,
                        f: RID, g: RID, v: Version, r: RID)
    requires Orderly(heap, ch, active) && f in ch && g in ch && g in ch0
    requires g != f && ch[f] != [] && Last(ch[f]) in heap && r !in heap
    requires heap' == LinkVersion(heap[r := v], Last(ch[f]), st.tx, r) && ch' == ch[f := ch[f] + [r]]
    ensures Untouched(heap0, ch0, heap, ch, g) ==> Untouched(heap0, ch0, heap', ch', g)
    ensures Processed(st, heap0, ch0, active, heap, ch, g) ==> Processed(st, heap0, ch0, active, heap', ch', g)
  {
    OthersKept(heap, ch, f, g, v, st.tx, r);
    CurrentSame(heap, heap', ch[g], st.tx, active);
  }

  // ---------------------------------------------------------------- the statement

  /** What one call of `next` hands out; a lock wait ends in the abort of the transaction. */
  datatype Outcome = Row(record: Record) | End | Aborted | TypeMismatch

  /** The assignments, one after the other on the same record. */
  method Assign(row: Record, st: Statement) returns (r: Option<Record>)
    requires Sane(st) && |row| == |st.types|
    ensures AssignsTo(row, st.sets, st.types, r) && r == Assigned(row, st.sets, st.types)
  {
    AssignedIs(row, st.sets, st.types, Assigned(row, st.sets, st.types));
    var rec, i := row, 0;
    while i < |st.sets|
      invariant i <= |st.sets| && |rec| == |row|
      invariant Assigned(row, st.sets, st.types) == Assigned(rec, st.sets[i..], st.types)
    {
      var column := st.sets[i].column;
      var value := st.sets[i].value(rec);
      assert st.sets[i..][0] == st.sets[i] && st.sets[i..][1..] == st.sets[i + 1..];
      if !Matches(value, st.types[column]) { return None; }
      rec := rec[column := value];
      i := i + 1;
    }
    return Some(rec);
  }

  class UpdateIter {
    const file: HeapFile
    const scan: HeapFileIter
    const tm: TransactionManager
    const lm: LockManager
    const st: Statement
    ghost const heap0: Heap
    ghost const ch0: Chains
    ghost const active: set<TxID>
    ghost var ch: Chains
    var updatedCount: nat

    constructor (file: HeapFile, tm: TransactionManager, lm: LockManager, st: Statement, ghost ch: Chains)
      requires file.Valid() && tm.Valid() && tm.TwoPhase(lm) && st.tx in tm.active
      requires Sound(st, tm.ActiveSet(), file.tableId, Flat(file.pages), ch, lm.lockTable)
      requires Fitting(st, Flat(file.pages), ch, tm.ActiveSet())
      modifies file`pages
      ensures Steady(this) && SweptTo(this, scan.page, scan.pos) && scan.live && updatedCount == 0 && fresh(scan)
      ensures this.file == file && this.tm == tm && this.lm == lm && this.st == st && this.ch == ch
      ensures heap0 == old(Flat(file.pages)) == Flat(file.pages) && ch0 == ch && active == tm.ActiveSet()
    {
      hide Flat, AllFit, Sound, Fitting, Swept;
      FirstPages(st, tm.ActiveSet(), file.tableId, file.pages, ch, lm.lockTable);
      TallyBegins(st.tx, ch, file.tableId, lm.lockTable);
      this.file := file;
      this.tm := tm;
      this.lm := lm;
      this.st := st;
      this.heap0 := Flat(file.pages);
      this.ch0 := ch;
      this.ch := ch;
      this.active := tm.ActiveSet();
      updatedCount := 0;
      scan := new HeapFileIter(file, st.tx);
    }
  }

  /** What holds between any two steps of the statement; nothing here speaks of the cursor. */
  ghost predicate Steady(u: UpdateIter)
    reads u, u.file, u.scan, u.tm, u.lm
  {
    && u.scan.file == u.file && u.scan.tx == u.st.tx && u.scan.Valid()
    && u.tm.Valid() && u.tm.TwoPhase(u.lm) && u.tm.ActiveSet() == u.active && u.st.tx in u.tm.active
    && Sound(u.st, u.active, u.file.tableId, Flat(u.file.pages), u.ch, u.lm.lockTable)
    && Fitting(u.st, u.heap0, u.ch0, u.active)
    && (forall f :: f in u.ch0 ==> f.pageNum < u.scan.totalPages)
    && Tally(u.st.tx, u.ch0, u.ch, u.file.tableId, u.lm.lockTable, u.updatedCount)
  }

  /** With the scan at (page, slot), the tuples up to there are done and the others untouched. */
  ghost predicate SweptTo(u: UpdateIter, page: int, slot: int)
    reads u, u.file
  {
    Swept(u.st, u.heap0, u.ch0, u.active, Flat(u.file.pages), u.ch, page, slot)
  }

  /** The scan stopped at tuple `f`, which is to be updated. */
  ghost predicate StoppedAt(u: UpdateIter, f: RID, row: Record)
    reads u, u.file
  {
    Stopped(u.st, u.heap0, u.ch0, u.active, Flat(u.file.pages), u.ch, f, row)
  }

  /** Taking the state apart, */
  lemma SteadyFacts(u: UpdateIter)
    requires Steady(u)
    ensures u.scan.file == u.file && u.scan.tx == u.st.tx && u.scan.Valid() && u.file.Valid()
    ensures u.tm.Valid() && u.tm.TwoPhase(u.lm) && u.tm.ActiveSet() == u.active
    ensures u.st.tx in u.tm.active && u.st.tx in u.active
    ensures Sound(u.st, u.active, u.file.tableId, Flat(u.file.pages), u.ch, u.lm.lockTable)
    ensures Orderly(Flat(u.file.pages), u.ch, u.active) && 0 !in u.active && Sane(u.st)
    ensures Fitting(u.st, u.heap0, u.ch0, u.active) && forall f :: f in u.ch0 ==> f.pageNum < u.scan.totalPages
    ensures Tally(u.st.tx, u.ch0, u.ch, u.file.tableId, u.lm.lockTable, u.updatedCount)
  {
  }

  /** and putting it together. */
  lemma SteadyAgain(u: UpdateIter)
    requires u.scan.file == u.file && u.scan.tx == u.st.tx && u.scan.Valid()
    requires u.tm.Valid() && u.tm.TwoPhase(u.lm) && u.tm.ActiveSet() == u.active && u.st.tx in u.tm.active
    requires Sound(u.st, u.active, u.file.tableId, Flat(u.file.pages), u.ch, u.lm.lockTable)
    requires Fitting(u.st, u.heap0, u.ch0, u.active) && forall f :: f in u.ch0 ==> f.pageNum < u.scan.totalPages
    requires Tally(u.st.tx, u.ch0, u.ch, u.file.tableId, u.lm.lockTable, u.updatedCount)
    ensures Steady(u)
  {
  }

  /** The child of the statement: the scan under the WHERE clause. */
  method NextMatch(u: UpdateIter) returns (row: Record)
    requires Steady(u) && u.scan.live && SweptTo(u, u.scan.page, u.scan.pos)
    modifies u.scan
    ensures Steady(u) && u.scan.live == (row != []) && u.scan.totalPages == old(u.scan.totalPages)
    ensures row == [] ==> SweptTo(u, u.scan.totalPages, -1)
    ensures row != [] ==>
      && u.scan.page < u.scan.totalPages && 0 <= u.scan.pos < MAX_SLOTS
      && (u.scan.page > old(u.scan.page) || (u.scan.page == old(u.scan.page) && u.scan.pos > old(u.scan.pos)))
      && StoppedAt(u, RID(u.scan.page, u.scan.pos), row)
  {
    hide *;
    while true
      invariant Steady(u) && u.scan.live && u.scan.totalPages == old(u.scan.totalPages)
      invariant SweptTo(u, u.scan.page, u.scan.pos)
      invariant u.scan.page > old(u.scan.page) || (u.scan.page == old(u.scan.page) && u.scan.pos >= old(u.scan.pos))
      decreases u.scan.totalPages - u.scan.page, MAX_SLOTS - u.scan.pos
    {
      row := OneRow(u);
      if row == [] || u.st.where_(row) { return; }
    }
  }

  /** One call of the scan's `next`. */
  method OneRow(u: UpdateIter) returns (row: Record)
    requires Steady(u) && u.scan.live && SweptTo(u, u.scan.page, u.scan.pos)
    modifies u.scan
    ensures Steady(u) && u.scan.live == (row != []) && u.scan.totalPages == old(u.scan.totalPages)
    ensures row != [] ==>
      && 0 <= u.scan.page < u.scan.totalPages && 0 <= u.scan.pos < MAX_SLOTS
      && (u.scan.page > old(u.scan.page) || (u.scan.page == old(u.scan.page) && u.scan.pos > old(u.scan.pos)))
    ensures if row == [] then SweptTo(u, u.scan.totalPages, -1)
            else if u.st.where_(row) then StoppedAt(u, RID(u.scan.page, u.scan.pos), row)
            else SweptTo(u, u.scan.page, u.scan.pos)
  {
    hide Steady, Swept, Stopped, Sound, Fitting, NextRow, Flat, AllFit;
    SteadyFacts(u);
    ghost var page, pos, heap := u.scan.page, u.scan.pos, Flat(u.file.pages);
    row := u.scan.Next(u.tm, u.ch);
    SteadyAgain(u);
    Stops(u.st, u.heap0, u.ch0, u.active, heap, u.ch, u.scan.totalPages, page, pos, u.scan.page, u.scan.pos, row);
  }

  /** The scan stopped at tuple `f`: a target, untouched, and everything before it is done. */
  ghost predicate Stopped(st: Statement, heap0: Heap, ch0: Chains, active: set<TxID>, heap: Heap, ch: Chains, f: RID,
                          row: Record) {
    && f in ch0 && f in ch && Swept(st, heap0, ch0, active, heap, ch, f.pageNum, f.dirSlot - 1)
    && Untouched(heap0, ch0, heap, ch, f)
    && RowAt(heap0, ch0, st.tx, active, f) == Some(row) && RowAt(heap, ch, st.tx, active, f) == Some(row)
    && st.where_(row)
  }

  /** Where a call of the scan's `next` leads to. */
  lemma Stops(st: Statement, heap0: Heap, ch0: Chains, active: set<TxID>, heap: Heap, ch: Chains,
              total: int, page: int, slot: int, page': int, slot': int, row: Record)
    requires Swept(st, heap0, ch0, active, heap, ch, page, slot) && 0 <= page < total && slot >= -1
    requires NextRow(heap, ch, st.tx, active, total, page, slot, page', slot', row)
    requires forall f :: f in ch0 ==> f.pageNum < total
    ensures row == [] ==> Swept(st, heap0, ch0, active, heap, ch, total, -1)
    ensures row != [] && st.where_(row) ==> Stopped(st, heap0, ch0, active, heap, ch, RID(page', slot'), row)
    ensures row != [] && !st.where_(row) ==> Swept(st, heap0, ch0, active, heap, ch, page', slot')
  {
    hide Swept, Untouched, RowAt, NothingBetween;
    if row == [] {
      PassedWithoutRow(st, heap0, ch0, active, heap, ch, total, page, slot, total, -1);
    } else {
      Arrives(st, heap0, ch0, active, heap, ch, total, page, slot, page', slot', row);
      if !st.where_(row) { Rejected(st, heap0, ch0, active, heap, ch, RID(page', slot')); }
    }
  }

  /** Every tuple starts on an existing page. */
  lemma FirstPages(st: Statement, active: set<TxID>, tableId: nat, pages: seq<HeapPage>, ch: Chains,
                   locks: map<TupleKey, TxID>)
    requires Sound(st, active, tableId, Flat(pages), ch, locks)
    ensures forall f :: f in ch ==> f.pageNum < |pages|
    ensures Swept(st, Flat(pages), ch, active, Flat(pages), ch, 0, -1)
  {
    forall f | f in ch ensures f.pageNum < |pages| {
      assert IsChain(Flat(pages), f, ch[f]) && ch[f][0] == f;
    }
    hide SlotAt;
    Begins(st, ch, active, Flat(pages));
  }

  // ---------------------------------------------------------------- one tuple under its lock

  ghost predicate LockedBy(u: UpdateIter, f: RID)
    reads u, u.file, u.lm
  {
    TupleKey(u.file.tableId, f) in u.lm.lockTable && u.lm.lockTable[TupleKey(u.file.tableId, f)] == u.st.tx
  }

  /** The row handed out by the scan ends with the first RID of its tuple. */
  lemma RowEndsWithRid(u: UpdateIter, f: RID, row: Record)
    requires StoppedAt(u, f, row)
    ensures row != [] && row[|row| - 1] == Rid(f) && f in u.ch && row == row[..|row| - 1] + [Rid(f)]
  {
  }

  /** What the re-read finds: the row itself, at the end of the chain. Otherwise there is nothing to do. */
  lemma ReadUnderLock(u: UpdateIter, f: RID, row: Record, res: RID, valid: bool)
    requires Steady(u) && StoppedAt(u, f, row) && LockedBy(u, f)
    requires RightAnswer(Flat(u.file.pages), u.ch, f, u.st.tx, u.active, res, valid)
    ensures valid ==> res in Flat(u.file.pages)
    ensures if valid && u.st.where_(Flat(u.file.pages)[res].record) then
              row == Flat(u.file.pages)[res].record + [Rid(f)] && |row| == |u.st.types|
            else SweptTo(u, f.pageNum, f.dirSlot)
  {
    hide Flat, Fitting, Swept, Untouched;
    LockedRow(u.st, u.active, u.file.tableId, Flat(u.file.pages), u.ch, u.lm.lockTable, f, row);
  }

  lemma StoppedFacts(u: UpdateIter, f: RID, row: Record)
    requires StoppedAt(u, f, row)
    ensures Stopped(u.st, u.heap0, u.ch0, u.active, Flat(u.file.pages), u.ch, f, row)
    ensures LockedBy(u, f) ==>
      TupleKey(u.file.tableId, f) in u.lm.lockTable && u.lm.lockTable[TupleKey(u.file.tableId, f)] == u.st.tx
  {
  }

  /** The tuple as `update` finds it. */
  lemma TupleFacts(u: UpdateIter, f: RID, row: Record)
    requires Steady(u) && StoppedAt(u, f, row) && LockedBy(u, f)
    ensures f in Flat(u.file.pages) && Flat(u.file.pages)[f].header.first == f && f in u.ch
    ensures Sane(u.st) && Chained(Flat(u.file.pages), u.ch) && Orderly(Flat(u.file.pages), u.ch, u.active)
    ensures Assigned(row, u.st.sets, u.st.types).Some? ==>
      PayloadSize(Assigned(row, u.st.sets, u.st.types).value) <= MAX_PAYLOAD
  {
    hide Flat, Swept, Untouched;
    LockedRow(u.st, u.active, u.file.tableId, Flat(u.file.pages), u.ch, u.lm.lockTable, f, row);
  }

  lemma Finishes(st: Statement, heap0: Heap, ch0: Chains, active: set<TxID>, tableId: nat, locks: map<TupleKey, TxID>,
                 heap: Heap, ch: Chains, f: RID, row: Record, r: UpdateResult, heap': Heap, locks': map<TupleKey, TxID>)
    requires Sound(st, active, tableId, heap, ch, locks) && Stopped(st, heap0, ch0, active, heap, ch, f, row)
    requires TupleKey(tableId, f) in locks && locks[TupleKey(tableId, f)] == st.tx
    requires Assigned(row, st.sets, st.types).Some?
    requires UpdateEffect(heap, ch, f, Assigned(row, st.sets, st.types).value, st.tx, r, heap')
    requires LockEffect(heap, tableId, f, st.tx, r, locks, locks')
    ensures r.Updated? && f in ch
    ensures Sound(st, active, tableId, heap', ch[f := ch[f] + [r.rid]], locks')
    ensures Swept(st, heap0, ch0, active, heap', ch[f := ch[f] + [r.rid]], f.pageNum, f.dirSlot)
    ensures locks' == locks && f in ch0 && ch[f] == ch0[f]
  {
    StoppedParts(st, heap0, ch0, active, heap, ch, f, row);
    SoundParts(st, active, tableId, heap, ch, locks);
    UpdateEnds(st, active, tableId, heap, ch, locks, f, row, r, heap', locks');
    hide *;
    StillSound(st, active, tableId, heap, ch, locks, f, Assigned(row, st.sets, st.types).value, r.rid);
    StillSwept(st, heap0, ch0, active, heap, ch, f, row, r.rid);
  }

  lemma StoppedParts(st: Statement, heap0: Heap, ch0: Chains, active: set<TxID>, heap: Heap, ch: Chains, f: RID,
                     row: Record)
    requires Stopped(st, heap0, ch0, active, heap, ch, f, row)
    ensures f in ch0 && f in ch && Swept(st, heap0, ch0, active, heap, ch, f.pageNum, f.dirSlot - 1)
    ensures Untouched(heap0, ch0, heap, ch, f) && ch[f] == ch0[f] && st.where_(row)
    ensures RowAt(heap0, ch0, st.tx, active, f) == Some(row) && RowAt(heap, ch, st.tx, active, f) == Some(row)
  {
  }

  lemma SoundParts(st: Statement, active: set<TxID>, tableId: nat, heap: Heap, ch: Chains, locks: map<TupleKey, TxID>)
    requires Sound(st, active, tableId, heap, ch, locks)
    ensures Sane(st) && st.tx in active && 0 !in active && Orderly(heap, ch, active)
    ensures forall r :: r in heap ==> Shaped(st, heap[r].record)
  {
  }

  /** The update of a locked row that can be assigned appends its version. */
  lemma UpdateEnds(st: Statement, active: set<TxID>, tableId: nat, heap: Heap, ch: Chains, locks: map<TupleKey, TxID>,
                   f: RID, row: Record, r: UpdateResult, heap': Heap, locks': map<TupleKey, TxID>)
    requires Sound(st, active, tableId, heap, ch, locks) && RowAt(heap, ch, st.tx, active, f) == Some(row)
    requires TupleKey(tableId, f) in locks && locks[TupleKey(tableId, f)] == st.tx
    requires Assigned(row, st.sets, st.types).Some?
    requires UpdateEffect(heap, ch, f, Assigned(row, st.sets, st.types).value, st.tx, r, heap')
    requires LockEffect(heap, tableId, f, st.tx, r, locks, locks')
    ensures r.Updated? && f in ch && ch[f] != [] && InHeap(heap, ch[f]) && Last(ch[f]) in heap && locks' == locks
    ensures r.rid !in heap && r.rid.Proper() && !Tombstone(heap[Last(ch[f])].header)
    ensures forall i :: 0 <= i < |ch[f]| ==> Trusted(heap[ch[f][i]].header.tMin, st.tx, active)
    ensures var record := Assigned(row, st.sets, st.types).value;
      && Shaped(st, Stored(record))
      && heap' == LinkVersion(heap[r.rid := NewVersion(record, r.rid, st.tx, Some(f))], Last(ch[f]), st.tx, r.rid)
  {
    SoundParts(st, active, tableId, heap, ch, locks);
    LockedRow(st, active, tableId, heap, ch, locks, f, row);
    LastInHeap(heap, ch[f]);
    assert Shaped(st, heap[Last(ch[f])].record);
    hide *;
    NewRecordShaped(st, heap[Last(ch[f])].record, f);
    LockedUpdate(tableId, heap, ch, locks, f, Assigned(row, st.sets, st.types).value, st.tx, r, heap', locks');
  }

  /** The update of a live tuple under its lock appends a version. */
  lemma LockedUpdate(tableId: nat, heap: Heap, ch: Chains, locks: map<TupleKey, TxID>, f: RID, record: Record, tx: TxID,
                     r: UpdateResult, heap': Heap, locks': map<TupleKey, TxID>)
    requires f in heap && heap[f].header.first == f
    requires TupleKey(tableId, f) in locks && locks[TupleKey(tableId, f)] == tx
    requires UpdateEffect(heap, ch, f, record, tx, r, heap') && LockEffect(heap, tableId, f, tx, r, locks, locks')
    requires f in ch && ch[f] != [] && Last(ch[f]) in heap && !Tombstone(heap[Last(ch[f])].header)
    ensures r.Updated? && locks' == locks && r.rid !in heap && r.rid.Proper()
    ensures heap' == LinkVersion(heap[r.rid := NewVersion(record, r.rid, tx, Some(f))], Last(ch[f]), tx, r.rid)
  {
    hide LinkVersion, NewVersion, Tombstone, Last;
    assert locks[TupleKey(tableId, f) := tx] == locks;
  }

  /** The re-read under the lock; the empty record when the tuple is gone or no longer matches. */
  method ReadAgain(u: UpdateIter, f: RID, ghost row: Record) returns (rec: Record)
    requires Steady(u) && StoppedAt(u, f, row) && LockedBy(u, f)
    ensures if rec != [] then rec == row && |row| == |u.st.types| else SweptTo(u, f.pageNum, f.dirSlot)
  {
    hide Steady, Swept, Stopped, Sound, StoppedAt, SweptTo, LockedBy, RightAnswer, AllFit, Flat;
    hide Orderly, Chained, Assigned, PayloadSize, Sane;
    SteadyFacts(u);
    TupleFacts(u, f, row);
    var header := u.file.GetRecordHeader(f);
    var newRid, valid := u.file.Read(f, u.st.tx, u.tm, u.ch);
    ReadUnderLock(u, f, row, newRid, valid);
    if !valid { return []; }
    var record := u.file.GetRecord(newRid);
    if !u.st.where_(record) { return []; }
    return record + [Rid(header.value.first)];
  }

  /** Assigns and updates a locked row. */
  method WriteRow(u: UpdateIter, f: RID, row: Record) returns (o: Outcome)
    requires Steady(u) && StoppedAt(u, f, row) && LockedBy(u, f) && |row| == |u.st.types|
    modifies u`ch, u`updatedCount, u.file, u.lm, u.tm`active
    ensures o.Row? || o.TypeMismatch?
    ensures o.Row? ==> Steady(u) && SweptTo(u, f.pageNum, f.dirSlot) && u.updatedCount == old(u.updatedCount) + 1
    ensures o.Row? ==> Assigned(row, u.st.sets, u.st.types) == Some(o.record + [Rid(f)])
    ensures o.TypeMismatch? ==> AssignsTo(row, u.st.sets, u.st.types, None) && unchanged(u) && unchanged(u.file)
    ensures o.TypeMismatch? ==> Steady(u) && StoppedAt(u, f, row)
    ensures u.lm.lockTable == old(u.lm.lockTable)
  {
    hide Steady, Swept, Stopped, Sound, StoppedAt, LockedBy, UpdateEffect, LockEffect, Fitting, Orderly, Chained,
      AllFit, Flat, Tally, AssignsTo;
    SteadyFacts(u);
    TupleFacts(u, f, row);
    var computed := Assign(row, u.st);
    if computed == None { return TypeMismatch; }
    LastColumnKept(u, f, row);
    StoppedFacts(u, f, row);
    ghost var heap, locks := Flat(u.file.pages), u.lm.lockTable;
    var r := u.file.Update(f, computed.value, u.st.tx, u.tm, u.lm, u.ch);
    Finishes(u.st, u.heap0, u.ch0, u.active, u.file.tableId, locks, heap, u.ch, f, row, r, Flat(u.file.pages),
             u.lm.lockTable);
    TallyNext(u.st.tx, u.ch0, u.ch, u.file.tableId, locks, u.updatedCount, f, r.rid);
    u.ch := u.ch[f := u.ch[f] + [r.rid]];
    u.updatedCount := u.updatedCount + 1;
    SteadyAgain(u);
    return Row(computed.value[..|computed.value| - 1]);
  }

  /** Lock, re-read, re-check and write one matching row. None: the row is passed over. */
  method UpdateRow(u: UpdateIter, f: RID, row: Record) returns (o: Option<Outcome>)
    requires Steady(u) && StoppedAt(u, f, row)
    modifies u`ch, u`updatedCount, u.file, u.lm, u.tm`active
    ensures o == None || o.value.Row? ==> Steady(u) && SweptTo(u, f.pageNum, f.dirSlot)
    ensures o == Some(Aborted) ==>
      LockedAway(u, f, u.lm.lockTable) && u.lm.lockTable == old(u.lm.lockTable) && unchanged(u) && unchanged(u.file)
    ensures o == Some(TypeMismatch) ==>
      AssignsTo(row, u.st.sets, u.st.types, None) && LockedBy(u, f) && unchanged(u) && unchanged(u.file)
    ensures o == Some(Aborted) || o == Some(TypeMismatch) ==> Steady(u) && StoppedAt(u, f, row)
    ensures OthersLocks(u.st.tx, old(u.lm.lockTable), u.lm.lockTable)
    ensures o != Some(End)
    ensures o != None && o.value.Row? ==> Assigned(row, u.st.sets, u.st.types) == Some(o.value.record + [Rid(f)])
    ensures o != Some(TypeMismatch) && o != Some(Aborted) ==>
      u.updatedCount == old(u.updatedCount) + (if o != None then 1 else 0)
  {
    hide Steady, Swept, Stopped, Sound, StoppedAt, SweptTo, Fitting, Orderly, Sane, AllFit, Flat, Tally, AssignsTo;
    RowEndsWithRid(u, f, row);
    SteadyFacts(u);
    ghost var locks := u.lm.lockTable;
    var granted := u.lm.TryAcquireLock(u.tm, u.st.tx, u.file.tableId, f);
    if !granted {
      SteadyAgain(u);
      return Some(Aborted);
    }
    SoundAfterLock(u.st, u.active, u.file.tableId, Flat(u.file.pages), u.ch, locks, f);
    TallyAfterLock(u.st.tx, u.ch0, u.ch, u.file.tableId, locks, u.updatedCount, f);
    SteadyAgain(u);
    var rec := ReadAgain(u, f, row);
    if rec == [] { return None; }
    var w := WriteRow(u, f, rec);
    return Some(w);
  }

  /** The statement leaves the RID at the end of the record alone. */
  lemma LastColumnKept(u: UpdateIter, f: RID, row: Record)
    requires Steady(u) && StoppedAt(u, f, row) && LockedBy(u, f) && Assigned(row, u.st.sets, u.st.types).Some?
    ensures var r := Assigned(row, u.st.sets, u.st.types).value; r != [] && r == r[..|r| - 1] + [Rid(f)]
  {
    hide Orderly, Guarded, Swept, Untouched, RowAt, Current, Flat;
    LockedRow(u.st, u.active, u.file.tableId, Flat(u.file.pages), u.ch, u.lm.lockTable, f, row);
    var record := Flat(u.file.pages)[Last(u.ch[f])].record;
    assert Shaped(u.st, record);
    StoredPlain(record);
    AssignedShape(row, u.st.sets, u.st.types, |record|);
  }

  /** Another transaction holds the tuple's lock. */
  ghost predicate LockedAway(u: UpdateIter, f: RID, locks: map<TupleKey, TxID>)
    reads u, u.file
  {
    TupleKey(u.file.tableId, f) in locks && locks[TupleKey(u.file.tableId, f)] != u.st.tx
  }

  // ---------------------------------------------------------------- whole statements

  /** The scan is at a target that cannot be updated; everything before it is done, and it is untouched. */
  ghost predicate FailsAt(u: UpdateIter, f: RID, o: Outcome)
    reads u, u.file, u.lm
  {
    exists row :: StoppedAt(u, f, row) &&
      if o.Aborted? then LockedAway(u, f, u.lm.lockTable)
      else LockedBy(u, f) && AssignsTo(row, u.st.sets, u.st.types, None)
  }

  /** The tuple's row was a target, and this is what the assignments make of it. */
  ghost predicate NewRow(st: Statement, heap0: Heap, ch0: Chains, active: set<TxID>, f: RID, record: Record) {
    && f in ch0 && Target(st, heap0, ch0, active, f)
    && AssignsTo(RowAt(heap0, ch0, st.tx, active, f).value, st.sets, st.types, Some(record + [Rid(f)]))
  }

  lemma RowIsNew(u: UpdateIter, f: RID, row: Record)
    requires StoppedAt(u, f, row)
    ensures forall record :: Assigned(row, u.st.sets, u.st.types) == Some(record + [Rid(f)]) ==>
      NewRow(u.st, u.heap0, u.ch0, u.active, f, record)
  {
    hide Swept, Untouched, RowAt, AssignsTo, Assigned, Flat;
    forall record: Record | Assigned(row, u.st.sets, u.st.types) == Some(record + [Rid(f)])
      ensures NewRow(u.st, u.heap0, u.ch0, u.active, f, record)
    {
      AssignedIs(row, u.st.sets, u.st.types, Some(record + [Rid(f)]));
    }
  }

  lemma OthersLocksTwice(tx: TxID, a: map<TupleKey, TxID>, b: map<TupleKey, TxID>, c: map<TupleKey, TxID>)
    requires OthersLocks(tx, a, b) && OthersLocks(tx, b, c)
    ensures OthersLocks(tx, a, c)
  {
  }

  lemma OthersLocksSame(tx: TxID, locks: map<TupleKey, TxID>)
    ensures OthersLocks(tx, locks, locks)
  {
  }

  /**
   * `next`: the new record of the next updated tuple, or how the statement ends: with the scan, at a tuple that
   * another transaction has locked, or at one whose assignments fail.
   */
  method Next(u: UpdateIter) returns (o: Outcome)
    requires Steady(u) && u.scan.live && SweptTo(u, u.scan.page, u.scan.pos)
    modifies u`ch, u`updatedCount, u.scan, u.file, u.lm, u.tm`active
    ensures Steady(u) && OthersLocks(u.st.tx, old(u.lm.lockTable), u.lm.lockTable)
    ensures o.Row? ==>
      && u.scan.live && SweptTo(u, u.scan.page, u.scan.pos) && u.updatedCount == old(u.updatedCount) + 1
      && u.scan.page < u.scan.totalPages == old(u.scan.totalPages) && 0 <= u.scan.pos < MAX_SLOTS
      && (u.scan.page > old(u.scan.page) || (u.scan.page == old(u.scan.page) && u.scan.pos > old(u.scan.pos)))
      && NewRow(u.st, u.heap0, u.ch0, u.active, RID(u.scan.page, u.scan.pos), o.record)
    ensures o.End? ==> SweptTo(u, u.scan.totalPages, -1)
    ensures !o.Row? ==> u.updatedCount == old(u.updatedCount)
    ensures o.Aborted? || o.TypeMismatch? ==> FailsAt(u, RID(u.scan.page, u.scan.pos), o)
  {
    hide Steady, SweptTo, StoppedAt, LockedAway, LockedBy, AllFit, Flat, OthersLocks, AssignsTo, NewRow, FailsAt;
    ghost var locks := u.lm.lockTable;
    OthersLocksSame(u.st.tx, locks);
    while true
      invariant Steady(u) && u.scan.live && SweptTo(u, u.scan.page, u.scan.pos) && u.updatedCount == old(u.updatedCount)
      invariant u.scan.totalPages == old(u.scan.totalPages) && OthersLocks(u.st.tx, locks, u.lm.lockTable)
      invariant u.scan.page > old(u.scan.page) || (u.scan.page == old(u.scan.page) && u.scan.pos >= old(u.scan.pos))
      decreases u.scan.totalPages - u.scan.page, MAX_SLOTS - u.scan.pos
    {
      var row := NextMatch(u);
      if row == [] { return End; }
      var f := RID(u.scan.page, u.scan.pos);
      RowEndsWithRid(u, f, row);
      RowIsNew(u, f, row);
      ghost var before := u.lm.lockTable;
      var r := UpdateRow(u, row[|row| - 1].rid, row);
      OthersLocksTwice(u.st.tx, locks, before, u.lm.lockTable);
      if r != None {
        Fails(u, f, row, r.value);
        return r.value;
      }
    }
  }

  lemma Fails(u: UpdateIter, f: RID, row: Record, o: Outcome)
    ensures o.Aborted? && StoppedAt(u, f, row) && LockedAway(u, f, u.lm.lockTable) ==> FailsAt(u, f, o)
    ensures o.TypeMismatch? && StoppedAt(u, f, row) && LockedBy(u, f) && AssignsTo(row, u.st.sets, u.st.types, None) ==>
      FailsAt(u, f, o)
  {
    hide Stopped, StoppedAt, LockedAway, LockedBy, AssignsTo;
  }

  /** Nothing keeps the statement from updating the tuple. */
  ghost predicate Updatable(u: UpdateIter, f: RID, locks: map<TupleKey, TxID>)
    reads u, u.file
    requires f in u.ch0 && Target(u.st, u.heap0, u.ch0, u.active, f)
  {
    && !LockedAway(u, f, locks)
    && !AssignsTo(RowAt(u.heap0, u.ch0, u.st.tx, u.active, f).value, u.st.sets, u.st.types, None)
  }

  ghost function Targets(st: Statement, heap0: Heap, ch0: Chains, active: set<TxID>): set<RID> {
    set f | f in ch0 && Target(st, heap0, ch0, active, f)
  }

  /**
   * The statement ends although it inserts versions into the file it scans. It ends with the scan exactly when no
   * target is locked by another transaction and the assignments of all targets have the right types; then every
   * tuple is processed: the targets, which are counted, got exactly one new version, the others none. Otherwise
   * it stops at a target of which this does not hold, with all tuples before it processed and it untouched.
   */
  method Run(u: UpdateIter) returns (o: Outcome)
    requires Steady(u) && u.scan.live && SweptTo(u, u.scan.page, u.scan.pos)
    modifies u`ch, u`updatedCount, u.scan, u.file, u.lm, u.tm`active
    ensures !o.Row?
    ensures o.End? <==>
      forall f :: f in Targets(u.st, u.heap0, u.ch0, u.active) ==> Updatable(u, f, old(u.lm.lockTable))
    ensures o.End? ==> u.ch.Keys == u.ch0.Keys
    ensures o.End? ==> forall f :: f in u.ch0 ==> Processed(u.st, u.heap0, u.ch0, u.active, Flat(u.file.pages), u.ch, f)
    ensures o.End? ==> u.updatedCount == |Targets(u.st, u.heap0, u.ch0, u.active)|
    ensures !o.End? ==> FailsAt(u, RID(u.scan.page, u.scan.pos), o)
  {
    hide Steady, SweptTo, Swept, Processed, AllFit, Flat, FailsAt, Updatable, OthersLocks, NewRow, Targets;
    ghost var locks := u.lm.lockTable;
    OthersLocksSame(u.st.tx, locks);
    while true
      invariant Steady(u) && u.scan.live && SweptTo(u, u.scan.page, u.scan.pos)
      invariant OthersLocks(u.st.tx, locks, u.lm.lockTable)
      decreases u.scan.totalPages - u.scan.page, MAX_SLOTS - u.scan.pos
    {
      ghost var before := u.lm.lockTable;
      o := Next(u);
      OthersLocksTwice(u.st.tx, locks, before, u.lm.lockTable);
      if !o.Row? {
        if o.End? { AllProcessed(u, locks); } else { NotUpdatable(u, RID(u.scan.page, u.scan.pos), o, locks); }
        return;
      }
    }
  }

  lemma AllProcessed(u: UpdateIter, locks: map<TupleKey, TxID>)
    requires Steady(u) && SweptTo(u, u.scan.totalPages, -1) && OthersLocks(u.st.tx, locks, u.lm.lockTable)
    ensures u.ch.Keys == u.ch0.Keys
    ensures forall f :: f in u.ch0 ==> Processed(u.st, u.heap0, u.ch0, u.active, Flat(u.file.pages), u.ch, f)
    ensures u.updatedCount == |Targets(u.st, u.heap0, u.ch0, u.active)|
    ensures forall f :: f in Targets(u.st, u.heap0, u.ch0, u.active) ==> Updatable(u, f, locks)
  {
    hide Sound, Fitting, Processed, Untouched, Flat, AssignsTo;
    assert forall f :: f in u.ch0 ==> Processed(u.st, u.heap0, u.ch0, u.active, Flat(u.file.pages), u.ch, f);
    forall f | f in u.ch0
      ensures f in Grown(u.ch0, u.ch) <==> f in Targets(u.st, u.heap0, u.ch0, u.active)
      ensures f in Targets(u.st, u.heap0, u.ch0, u.active) ==> Updatable(u, f, locks)
    {
      ProcessedFacts(u.st, u.heap0, u.ch0, u.active, Flat(u.file.pages), u.ch, f);
    }
    assert Grown(u.ch0, u.ch) == Targets(u.st, u.heap0, u.ch0, u.active);
  }

  lemma ProcessedFacts(st: Statement, heap0: Heap, ch0: Chains, active: set<TxID>, heap: Heap, ch: Chains, f: RID)
    requires f in ch0 && f in ch && Processed(st, heap0, ch0, active, heap, ch, f)
    ensures ch[f] != ch0[f] <==> Target(st, heap0, ch0, active, f)
    ensures Target(st, heap0, ch0, active, f) ==>
      !AssignsTo(RowAt(heap0, ch0, st.tx, active, f).value, st.sets, st.types, None)
  {
    hide RowAt, AssignsTo, Current;
    if Target(st, heap0, ch0, active, f) {
      AssignedIs(RowAt(heap0, ch0, st.tx, active, f).value, st.sets, st.types, None);
    }
  }

  lemma NotUpdatable(u: UpdateIter, f: RID, o: Outcome, locks: map<TupleKey, TxID>)
    requires FailsAt(u, f, o) && OthersLocks(u.st.tx, locks, u.lm.lockTable)
    ensures f in Targets(u.st, u.heap0, u.ch0, u.active) && !Updatable(u, f, locks)
  {
    hide Swept, Untouched, RowAt, AssignsTo, Flat;
  }

  /**
   * What the transaction reads afterwards: each target's row with its columns assigned one after the other,
   * every other tuple's row as before.
   */
  lemma RowsAfterwards(st: Statement, heap0: Heap, ch0: Chains, active: set<TxID>, heap: Heap, ch: Chains, f: RID)
    requires Sane(st) && (forall r :: r in heap0 ==> Shaped(st, heap0[r].record))
    requires f in ch0 && Processed(st, heap0, ch0, active, heap, ch, f)
    ensures if !Target(st, heap0, ch0, active, f) then
              RowAt(heap, ch, st.tx, active, f) == RowAt(heap0, ch0, st.tx, active, f)
            else exists record ::
              && NewRow(st, heap0, ch0, active, f, record)
              && RowAt(heap, ch, st.tx, active, f) == Some(record + [Rid(f)])
  {
    if !Target(st, heap0, ch0, active, f) {
      RowUnchanged(heap0, ch0, heap, ch, st.tx, active, f);
    } else {
      var row := RowAt(heap0, ch0, st.tx, active, f).value;
      var new_ := Assigned(row, st.sets, st.types).value;
      var record := row[..|row| - 1];
      assert row == record + [Rid(f)] && Shaped(st, record);
      AssignedIs(row, st.sets, st.types, Some(new_));
      NewRecordShaped(st, record, f);
      assert NewRow(st, heap0, ch0, active, f, Stored(new_));
    }
  }
}
