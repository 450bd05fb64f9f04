/** Scanning a heap file in RID order. */
module Scans {
  import opened Model
  import opened Versions
  import opened Pages
  import opened Transactions
  import opened HeapFiles

  /** What a scan by `tx` finds at slot `r`: the current version of the tuple that starts there, with its RID. */
  ghost function RowAt(heap: Heap, ch: Chains, tx: TxID, active: set<TxID>, r: RID): Option<Record> {
    if r in ch && forall i :: 0 <= i < |ch[r]| ==> ch[r][i] in heap then
      match Current(heap, ch[r], tx, active)
      case None => None
      case Some(v) =>
        // a record without columns looks like the end of the stream, so the scan passes over it
        if v in heap && heap[v].record != [] then Some(heap[v].record + [Rid(r)]) else None
    else None
  }

  /** Slot `r` comes after position (page, slot) in RID order. */
  predicate After(page: int, slot: int, r: RID) {
    r.pageNum > page || (r.pageNum == page && r.dirSlot > slot)
  }

  /** Between two positions of a scan over `total` pages there is no row. */
  ghost predicate NothingBetween(heap: Heap, ch: Chains, tx: TxID, active: set<TxID>, total: int,
                                 page: int, slot: int, page': int, slot': int) {
    forall r :: r in ch && r.pageNum < total && After(page, slot, r) && !After(page', slot', r) ==>
      RowAt(heap, ch, tx, active, r) == None
  }

  /** What one call of `next` promises: the first row after the cursor, or that there is none. */
  ghost predicate NextRow(heap: Heap, ch: Chains, tx: TxID, active: set<TxID>, total: int,
                          page: int, slot: int, page': int, slot': int, row: Record) {
    if row == [] then NothingBetween(heap, ch, tx, active, total, page, slot, total, -1)
    else
      && After(page, slot, RID(page', slot')) && 0 <= page' < total && 0 <= slot'
      && RowAt(heap, ch, tx, active, RID(page', slot')) == Some(row)
      && NothingBetween(heap, ch, tx, active, total, page, slot, page', slot' - 1)
  }

  /** A scan that began behind (page, slot) and has passed everything up to (p, k) without a row. */
  ghost predicate Searching(heap: Heap, ch: Chains, tx: TxID, active: set<TxID>, total: int, page: int, slot: int,
                            p: int, k: int) {
    && Orderly(heap, ch, active) && NothingBetween(heap, ch, tx, active, total, page, slot, p, k)
    && (p > page || (p == page && k >= slot)) && k >= -1 && 0 <= page
  }

  lemma SearchBegins(heap: Heap, ch: Chains, tx: TxID, active: set<TxID>, total: int, page: int, slot: int)
    requires Orderly(heap, ch, active) && 0 <= page && slot >= -1
    ensures Searching(heap, ch, tx, active, total, page, slot, page, slot)
  {
  }

  /** Past the last slot of a page the scan goes on in front of the next page. */
  lemma NextPage(heap: Heap, pages: seq<HeapPage>, ch: Chains, tx: TxID, active: set<TxID>, total: int, page: int,
                 slot: int,
                 p: int, k: int)
    requires heap == Flat(pages) && 0 <= p < |pages| && k >= |pages[p].slots| - 1
    requires Searching(heap, ch, tx, active, total, page, slot, p, k)
    ensures Searching(heap, ch, tx, active, total, page, slot, p + 1, -1)
  {
    forall r | r in ch ensures r in heap { assert IsChain(heap, r, ch[r]) && ch[r][0] == r; }
    hide Flat, RowAt, Orderly;
  }

  lemma ScanEnds(heap: Heap, ch: Chains, tx: TxID, active: set<TxID>, total: int, page: int, slot: int)
    requires Searching(heap, ch, tx, active, total, page, slot, total, -1)
    ensures NextRow(heap, ch, tx, active, total, page, slot, total, -1, [])
  {
  }

  /** A slot is passed over or ends the search. */
  lemma SlotPassed(heap: Heap, ch: Chains, tx: TxID, active: set<TxID>, total: int, page: int, slot: int, p: int,
                   k: int)
    requires Searching(heap, ch, tx, active, total, page, slot, p, k - 1) && 0 <= p < total && k >= 0
    ensures Orderly(heap, ch, active)
    ensures match RowAt(heap, ch, tx, active, RID(p, k))
      case None => Searching(heap, ch, tx, active, total, page, slot, p, k)
      case Some(row) => row != [] && NextRow(heap, ch, tx, active, total, page, slot, p, k, row)
  {
  }

  /** A slot that does not start a tuple has no row. */
  lemma NoTupleHere(heap: Heap, ch: Chains, tx: TxID, active: set<TxID>, r: RID)
    requires Orderly(heap, ch, active)
    requires r in heap ==> heap[r].header.first != r
    ensures RowAt(heap, ch, tx, active, r) == None
  {
    assert r in ch ==> IsChain(heap, r, ch[r]);
  }

  /** What the read of a first version says about its slot. */
  lemma TupleHere(heap: Heap, ch: Chains, tx: TxID, active: set<TxID>, r: RID, res: RID, valid: bool)
    requires Orderly(heap, ch, active)
    requires r in heap && heap[r].header.first == r
    requires RightAnswer(heap, ch, r, tx, active, res, valid)
    ensures valid ==> res in heap
    ensures RowAt(heap, ch, tx, active, r) ==
      if valid && heap[res].record != [] then Some(heap[res].record + [Rid(r)]) else None
  {
    FirstIsChained(heap, ch, r);
    TrustedLengthIsNewest(heap, ch[r], tx, active);
  }

  lemma SlotsBounded(pages: seq<HeapPage>, p: nat)
    requires AllFit(pages) && p < |pages|
    ensures |pages[p].slots| <= MAX_SLOTS
  {
  }

  class HeapFileIter {
    const file: HeapFile
    const tx: TxID
    var totalPages: nat
    var page: nat
    var pos: int
    var live: bool

    ghost predicate Valid()
      reads this, file
    {
      file.Valid() && totalPages <= |file.pages| && pos >= -1 && totalPages > 0 && (live ==> page < totalPages)
    }

    /** Opening the first page may create it, and only then are the pages counted. */
    constructor (file: HeapFile, tx: TxID)
      requires file.Valid()
      modifies file`pages
      ensures Valid() && this.file == file && this.tx == tx && page == 0 && pos == -1 && live
      ensures totalPages == |file.pages| >= 1 && Flat(file.pages) == old(Flat(file.pages))
      ensures SlotsGrow(old(file.pages), file.pages)
    {
      this.file := file;
      this.tx := tx;
      page, pos, live := 0, -1, true;
      totalPages := 0;
      new;
      file.OpenPage(0);
      totalPages := |file.pages|;
    }

    method Reset()
      requires Valid()
      modifies this
      ensures Valid() && page == 0 && pos == -1 && live && totalPages == old(totalPages)
    {
      page, pos, live := 0, -1, true;
    }

    /** The row of one slot of the directory, or the empty record. */
    method RowOf(rid: RID, tm: TransactionManager, ghost ch: Chains) returns (row: Record)
      requires file.InDirectory(rid) && rid != GONE
      requires tm.Valid() && tx in tm.ActiveSet() && Orderly(Flat(file.pages), ch, tm.ActiveSet())
      ensures RowAt(Flat(file.pages), ch, tx, tm.ActiveSet(), rid) == if row == [] then None else Some(row)
    {
      hide Flat, AllFit, SlotAt, RowAt, RightAnswer;
      ghost var heap, active := Flat(file.pages), tm.ActiveSet();
      var header := file.GetRecordHeader(rid);
      if header == None || header.value.first != rid {
        NoTupleHere(heap, ch, tx, active, rid);
        return [];
      }
      FirstIsChained(heap, ch, rid);
      var newRid, valid := file.Read(rid, tx, tm, ch);
      TupleHere(heap, ch, tx, active, rid, newRid, valid);
      if !valid { return []; }
      row := file.GetRecord(newRid);
      if row != [] {
        row := row + [Rid(header.value.first)];
      }
    }

    /** One turn of the search. */
    method SearchSlot(p: nat, k: nat, tm: TransactionManager, ghost ch: Chains, ghost page0: int, ghost pos0: int)
      returns (row: Record)
      requires Valid() && p < totalPages && k < |file.pages[p].slots| && tm.Valid() && tx in tm.ActiveSet()
      requires Searching(Flat(file.pages), ch, tx, tm.ActiveSet(), totalPages, page0, pos0, p, k - 1)
      ensures if row == [] then Searching(Flat(file.pages), ch, tx, tm.ActiveSet(), totalPages, page0, pos0, p, k)
              else NextRow(Flat(file.pages), ch, tx, tm.ActiveSet(), totalPages, page0, pos0, p, k, row)
    {
      hide Flat, SlotAt, AllFit, Searching, NextRow, Orderly, RowAt;
      SlotPassed(Flat(file.pages), ch, tx, tm.ActiveSet(), totalPages, page0, pos0, p, k);
      row := RowOf(RID(p, k), tm, ch);
    }

    /** Walks on to the next row of page `p`, or to its end. */
    method SearchPage(p: nat, from: int, tm: TransactionManager, ghost ch: Chains, ghost page0: int, ghost pos0: int)
      returns (row: Record, k: int)
      requires Valid() && p < totalPages && from >= -1 && tm.Valid() && tx in tm.ActiveSet()
      requires Searching(Flat(file.pages), ch, tx, tm.ActiveSet(), totalPages, page0, pos0, p, from)
      ensures if row == [] then Searching(Flat(file.pages), ch, tx, tm.ActiveSet(), totalPages, page0, pos0, p + 1, -1)
              else
                && 0 <= k < MAX_SLOTS
                && NextRow(Flat(file.pages), ch, tx, tm.ActiveSet(), totalPages, page0, pos0, p, k, row)
    {
      hide Flat, SlotAt, AllFit, Searching, NextRow, Orderly, RowAt;
      SlotsBounded(file.pages, p);
      k := from + 1;
      while k < |file.pages[p].slots|
        invariant k >= 0 && Searching(Flat(file.pages), ch, tx, tm.ActiveSet(), totalPages, page0, pos0, p, k - 1)
      {
        row := SearchSlot(p, k, tm, ch, page0, pos0);
        if row != [] { return; }
        k := k + 1;
      }
      NextPage(Flat(file.pages), file.pages, ch, tx, tm.ActiveSet(), totalPages, page0, pos0, p, k - 1);
      return [], k;
    }

    /** Walks on from the cursor to the next row. */
    method Search(tm: TransactionManager, ghost ch: Chains) returns (row: Record, p: nat, k: int)
      requires Valid() && live && tm.Valid() && tx in tm.ActiveSet() && Orderly(Flat(file.pages), ch, tm.ActiveSet())
      ensures k >= -1 && (row != [] ==> p < totalPages && 0 <= k < MAX_SLOTS)
      ensures NextRow(Flat(file.pages), ch, tx, tm.ActiveSet(), totalPages, page, pos, p, k, row)
    {
      ghost var heap, active := Flat(file.pages), tm.ActiveSet();
      SearchBegins(heap, ch, tx, active, totalPages, page, pos);
      hide Flat, SlotAt, AllFit, Searching, NextRow, Orderly, RowAt;
      p, k := page, pos;
      while p < totalPages
        invariant k >= -1 && p <= totalPages && Searching(heap, ch, tx, active, totalPages, page, pos, p, k)
        invariant p == totalPages ==> k == -1
      {
        row, k := SearchPage(p, k, tm, ch, page, pos);
        if row != [] { return; }
        p, k := p + 1, -1;
      }
      ScanEnds(heap, ch, tx, active, totalPages, page, pos);
      return [], p, k;
    }

    /** The next row after the cursor, which stops on it; the empty record when there is none. */
    method Next(tm: TransactionManager, ghost ch: Chains) returns (row: Record)
      requires Valid() && tm.Valid() && tx in tm.ActiveSet() && Orderly(Flat(file.pages), ch, tm.ActiveSet())
      modifies this
      ensures Valid() && tm.Valid() && tx in tm.ActiveSet() && tm.ActiveSet() == old(tm.ActiveSet())
      ensures totalPages == old(totalPages) && live == (row != [])
      ensures row != [] ==>
        old(live) && 0 <= pos < MAX_SLOTS && (page > old(page) || (page == old(page) && pos > old(pos)))
      ensures old(live) ==>
        NextRow(Flat(file.pages), ch, tx, tm.ActiveSet(), totalPages, old(page), old(pos), page, pos, row)
    {
      hide Orderly, RowAt, Flat, AllFit, NothingBetween;
      row := [];
      if !live { return; }
      row, page, pos := Search(tm, ch);
      live := row != [];
    }
  }

  // ---------------------------------------------------------------- a whole scan

  /** `rows` are the rows at `at`, which lists the tuples with a row below page `total`, in RID order. */
  ghost predicate Lists(heap: Heap, ch: Chains, tx: TxID, active: set<TxID>, total: int, at: seq<RID>,
                        rows: seq<Record>) {
    && |at| == |rows|
    && (forall i, j :: 0 <= i < j < |at| ==> Before(at[i], at[j]))
    && (forall i :: 0 <= i < |at| ==> at[i].pageNum < total && RowAt(heap, ch, tx, active, at[i]) == Some(rows[i]))
    && (forall r :: r in ch && r.Proper() && r.pageNum < total && RowAt(heap, ch, tx, active, r).Some? ==> r in at)
  }

  /** There is one such listing: scanning again after a reset yields the same rows in the same order. */
  lemma {:induction false} ListingIsUnique(heap: Heap, ch: Chains, tx: TxID, active: set<TxID>, total: int,
                                          at: seq<RID>, rows: seq<Record>, at': seq<RID>, rows': seq<Record>)
    requires forall r :: r in ch ==> r.Proper()
    requires Lists(heap, ch, tx, active, total, at, rows) && Lists(heap, ch, tx, active, total, at', rows')
    ensures at == at' && rows == rows'
  {
    SortedSetsAgree(at, at');
    assert forall i :: 0 <= i < |at| ==> Some(rows[i]) == Some(rows'[i]);
  }

  ghost predicate Sorted(a: seq<RID>) {
    forall i, j :: 0 <= i < j < |a| ==> Before(a[i], a[j])
  }

  ghost predicate Included(a: seq<RID>, b: seq<RID>) {
    forall i :: 0 <= i < |a| ==> a[i] in b
  }

  lemma {:induction false} SortedSetsAgree(a: seq<RID>, b: seq<RID>)
    requires Sorted(a) && Sorted(b)
    requires Included(a, b) && Included(b, a)
    ensures a == b
  {
    assert (a == [] || a[0] in b) && (b == [] || b[0] in a);
    if a != [] && b != [] {
      var m, n := |a| - 1, |b| - 1;
      LastIsMissing(a, b[n]);
      LastIsMissing(b, a[m]);
      assert a[m] == b[n];
      PrefixIncluded(a, b);
      PrefixIncluded(b, a);
      SortedSetsAgree(a[..m], b[..n]);
      assert a == a[..m] + [a[m]] && b == b[..n] + [b[n]];
    }
  }

  lemma PrefixIncluded(a: seq<RID>, b: seq<RID>)
    requires a != [] && b != [] && Sorted(a) && Sorted(b) && a[|a| - 1] == b[|b| - 1]
    requires Included(a, b)
    ensures Sorted(a[..|a| - 1]) && Included(a[..|a| - 1], b[..|b| - 1])
  {
    var a' := a[..|a| - 1];
    forall i | 0 <= i < |a'| ensures a'[i] in b[..|b| - 1] {
      assert Before(a[i], a[|a| - 1]);
      LastIsMissing(b, a[i]);
    }
  }

  /** The last element of a sorted listing is above all others. */
  lemma LastIsMissing(a: seq<RID>, r: RID)
    requires a != [] && Sorted(a) && r in a
    ensures r == a[|a| - 1] || (Before(r, a[|a| - 1]) && r in a[..|a| - 1])
  {
    var i :| 0 <= i < |a| && a[i] == r;
    if i < |a| - 1 { assert a[..|a| - 1][i] == r; }
  }

  /** What a drained part of a scan knows: everything up to the cursor is listed. */
  ghost predicate ListsUpTo(heap: Heap, ch: Chains, tx: TxID, active: set<TxID>, total: int, at: seq<RID>,
                            rows: seq<Record>,
                            page: int, slot: int) {
    && |at| == |rows|
    && (forall i, j :: 0 <= i < j < |at| ==> Before(at[i], at[j]))
    && (forall i :: 0 <= i < |at| ==>
          at[i].pageNum < total && !After(page, slot, at[i]) && RowAt(heap, ch, tx, active, at[i]) == Some(rows[i]))
    && (forall r | r in ch && r.Proper() && r.pageNum < total && !After(page, slot, r) ::
          RowAt(heap, ch, tx, active, r).Some? ==> r in at)
  }

  lemma ListsNothing(heap: Heap, ch: Chains, tx: TxID, active: set<TxID>, total: int)
    ensures ListsUpTo(heap, ch, tx, active, total, [], [], 0, -1)
  {
  }

  lemma ListsNext(heap: Heap, ch: Chains, tx: TxID, active: set<TxID>, total: int, at: seq<RID>, rows: seq<Record>,
                  page: int, slot: int, page': int, slot': int, row: Record)
    requires ListsUpTo(heap, ch, tx, active, total, at, rows, page, slot)
    requires NextRow(heap, ch, tx, active, total, page, slot, page', slot', row)
    ensures if row == [] then Lists(heap, ch, tx, active, total, at, rows)
            else ListsUpTo(heap, ch, tx, active, total, at + [RID(page', slot')], rows + [row], page', slot')
  {
    if row != [] {
      var at', rows' := at + [RID(page', slot')], rows + [row];
      forall r | r in ch && r.Proper() && r.pageNum < total && !After(page', slot', r)
        && RowAt(heap, ch, tx, active, r).Some?
        ensures r in at'
      {
        if r == RID(page', slot') { assert at'[|at|] == r; }
        else if r in at { var i :| 0 <= i < |at| && at[i] == r; assert at'[i] == r; }
      }
    } else {
      assert forall r: RID :: r.pageNum < total ==> !After(total, -1, r);
    }
  }

  /** Draining a scan over a heap nobody changes. */
  method Drain(iter: HeapFileIter, tm: TransactionManager, ghost ch: Chains)
    returns (rows: seq<Record>, ghost at: seq<RID>)
    requires iter.Valid() && iter.live && iter.page == 0 && iter.pos == -1
    requires tm.Valid() && iter.tx in tm.ActiveSet() && Orderly(Flat(iter.file.pages), ch, tm.ActiveSet())
    modifies iter
    ensures iter.Valid() && !iter.live && iter.totalPages == old(iter.totalPages)
    ensures Lists(Flat(iter.file.pages), ch, iter.tx, tm.ActiveSet(), iter.totalPages, at, rows)
  {
    ghost var heap, active, total := Flat(iter.file.pages), tm.ActiveSet(), iter.totalPages;
    rows, at := [], [];
    ListsNothing(heap, ch, iter.tx, active, total);
    hide Lists, ListsUpTo, NextRow, Flat, Orderly, AllFit;
    while true
      invariant iter.Valid() && iter.live && iter.totalPages == total
      invariant tm.Valid() && tm.ActiveSet() == active && iter.tx in active
      invariant Flat(iter.file.pages) == heap && Orderly(heap, ch, active)
      invariant ListsUpTo(heap, ch, iter.tx, active, total, at, rows, iter.page, iter.pos)
      decreases total - iter.page, MAX_SLOTS - iter.pos
    {
      ghost var page, pos := iter.page, iter.pos;
      var row := iter.Next(tm, ch);
      ListsNext(heap, ch, iter.tx, active, total, at, rows, page, pos, iter.page, iter.pos, row);
      if row == [] { return; }
      rows, at := rows + [row], at + [RID(iter.page, iter.pos)];
    }
  }
}
