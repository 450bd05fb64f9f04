/** One heap file: insert, read, update and the search for the last version, on pages of slots. */
module HeapFiles {
  import opened Model
  import opened Versions
  import opened Pages
  import opened Transactions

  // ---------------------------------------------------------------- the versions of a file

  /** The slot a RID names; outside of the file there is nothing. */
  function SlotAt(pages: seq<HeapPage>, r: RID): Slot {
    if 0 <= r.pageNum < |pages| && 0 <= r.dirSlot < |pages[r.pageNum].slots| then pages[r.pageNum].slots[r.dirSlot]
    else Dead
  }

  /** All versions of a file by their RID. */
  ghost function Flat(pages: seq<HeapPage>): (heap: Heap)
    ensures forall r :: r in heap <==> SlotAt(pages, r).Live?
    ensures forall r :: r in heap ==> heap[r] == SlotAt(pages, r).v && r.Proper()
  {
    map p, k | 0 <= p < |pages| && 0 <= k < |pages[p].slots| && SlotAt(pages, RID(p, k)).Live?
      :: RID(p, k) := SlotAt(pages, RID(p, k)).v
  }

  /** None for a slot whose record was deleted physically. */
  ghost function HeaderIn(heap: Heap, rid: RID): Option<Header> {
    if rid in heap then Some(heap[rid].header) else None
  }

  lemma SameSlots(pages: seq<HeapPage>, pages': seq<HeapPage>)
    requires forall r :: SlotAt(pages', r) == SlotAt(pages, r)
    ensures Flat(pages') == Flat(pages)
  {
  }

  lemma OneSlotLive(pages: seq<HeapPage>, pages': seq<HeapPage>, rid: RID, v: Version)
    requires SlotAt(pages', rid) == Live(v) && forall r :: r != rid ==> SlotAt(pages', r) == SlotAt(pages, r)
    ensures Flat(pages') == Flat(pages)[rid := v]
  {
    hide Flat, SlotAt;
    assert Flat(pages').Keys == Flat(pages).Keys + {rid};
  }

  lemma OneSlotDead(pages: seq<HeapPage>, pages': seq<HeapPage>, rid: RID)
    requires SlotAt(pages', rid) == Dead && forall r :: r != rid ==> SlotAt(pages', r) == SlotAt(pages, r)
    ensures Flat(pages') == Flat(pages) - {rid}
  {
    hide Flat, SlotAt;
    assert Flat(pages').Keys == Flat(pages).Keys - {rid};
  }

  /** Every version belongs to the chain of its tuple. */
  ghost predicate Chained(heap: Heap, ch: Chains) {
    && (forall f :: f in ch ==> IsChain(heap, f, ch[f]))
    && (forall r :: r in heap ==> heap[r].header.first in ch && r in ch[heap[r].header.first])
  }

  ghost predicate Orderly(heap: Heap, ch: Chains, active: set<TxID>) {
    Chained(heap, ch) && (forall f :: f in ch ==> OneActiveWriter(heap, active, ch[f]))
  }

  lemma FirstIsChained(heap: Heap, ch: Chains, f: RID)
    requires Chained(heap, ch) && f in heap && heap[f].header.first == f
    ensures f in ch && ch[f] != [] && ch[f][0] == f
  {
  }

  /** No page loses a slot. */
  ghost predicate SlotsGrow(pages: seq<HeapPage>, pages': seq<HeapPage>) {
    |pages| <= |pages'| && forall p :: 0 <= p < |pages| ==> |pages[p].slots| <= |pages'[p].slots|
  }

  ghost predicate AllFit(pages: seq<HeapPage>) {
    forall p :: 0 <= p < |pages| ==> Fits(pages[p])
  }

  function SetSlot(pages: seq<HeapPage>, r: RID, slot: Slot): seq<HeapPage>
    requires SlotAt(pages, r).Live?
  {
    pages[r.pageNum := pages[r.pageNum].(slots := pages[r.pageNum].slots[r.dirSlot := slot])]
  }

  /** Rewriting a header, or killing a slot, concerns one version and never overfills a page. */
  lemma SetSlotEffect(pages: seq<HeapPage>, r: RID, slot: Slot)
    requires AllFit(pages) && SlotAt(pages, r).Live? && (slot.Live? ==> slot.v.record == SlotAt(pages, r).v.record)
    ensures AllFit(SetSlot(pages, r, slot)) && SlotsGrow(pages, SetSlot(pages, r, slot))
    ensures Flat(SetSlot(pages, r, slot)) == if slot.Live? then Flat(pages)[r := slot.v] else Flat(pages) - {r}
  {
    hide Flat;
    var pages' := SetSlot(pages, r, slot);
    LiveBytesUpdate(pages[r.pageNum].slots, r.dirSlot, slot);
    assert forall x :: x != r ==> SlotAt(pages', x) == SlotAt(pages, x);
    if slot.Live? { OneSlotLive(pages, pages', r, slot.v); } else { OneSlotDead(pages, pages', r); }
  }

  lemma NoRoomIfUsed(p: HeapPage, pageNum: int, record: Record, tx: TxID, first: Option<RID>)
    requires p.slots == [] ==> p.free == EMPTY_FREE
    requires PayloadSize(record) <= MAX_PAYLOAD && PageAfterInsert(p, pageNum, record, tx, first).None?
    ensures p.slots != []
  {
  }

  lemma FlatAfterInsert(pages: seq<HeapPage>, n: nat, record: Record, tx: TxID, first: Option<RID>)
    requires n < |pages| && PageAfterInsert(pages[n], n, record, tx, first).Some?
    ensures var rid, pages' := RID(n, FreeSlot(pages[n].slots)),
      pages[n := PageAfterInsert(pages[n], n, record, tx, first).value];
      && rid !in Flat(pages) && rid.Proper() && SlotsGrow(pages, pages')
      && Flat(pages') == Flat(pages)[rid := NewVersion(record, rid, tx, first)]
  {
    hide Flat;
    var rid, pages' := RID(n, FreeSlot(pages[n].slots)),
      pages[n := PageAfterInsert(pages[n], n, record, tx, first).value];
    assert forall r :: r != rid ==> SlotAt(pages', r) == SlotAt(pages, r);
    OneSlotLive(pages, pages', rid, NewVersion(record, rid, tx, first));
  }

  /**
   * From page `last` on, the first page that has room got the record into its first free slot. Pages on the way
   * were only opened, all others were not touched, and at most one page was added.
   */
  ghost predicate FirstWithRoom(pages0: seq<HeapPage>, last: nat, pages: seq<HeapPage>, rid: RID, record: Record,
                                tx: TxID, first: Option<RID>) {
    var n := rid.pageNum;
    var page := Opened(if 0 <= n < |pages0| then pages0[n] else ZERO_PAGE);
    && last <= n <= |pages0| && |pages| == (if n < |pages0| then |pages0| else |pages0| + 1)
    && HasRoom(page, PayloadSize(record)) && rid.dirSlot >= 0 && FirstFree(page.slots, rid.dirSlot)
    && (forall p :: last <= p < n ==> !HasRoom(Opened(pages0[p]), PayloadSize(record)))
    && (forall p :: 0 <= p < |pages0| && p != n ==>
          pages[p] == if last <= p < n then Opened(pages0[p]) else pages0[p])
    && Some(pages[n]) == PageAfterInsert(page, n, record, tx, first)
  }

  /**
   * What a read of tuple `rid` must answer: its current version, or that there is none; the RID then tells a
   * tuple that was deleted from one that does not exist yet for the reader, and from one vacuumed away.
   */
  ghost predicate RightAnswer(heap: Heap, ch: Chains, rid: RID, tx: TxID, active: set<TxID>, res: RID, valid: bool) {
    if rid in ch then Answers(heap, ch[rid], tx, active, res, valid) else !valid && res == GONE
  }

  ghost predicate Answers(heap: Heap, c: seq<RID>, tx: TxID, active: set<TxID>, res: RID, valid: bool) {
    && c != [] && (forall i :: 0 <= i < |c| ==> c[i] in heap)
    && (if valid then Current(heap, c, tx, active) == Some(res)
        else Current(heap, c, tx, active) == None && res == if Tombstone(heap[Last(c)].header) then DELETED
          else Last(c))
  }

  // ---------------------------------------------------------------- the file

  class HeapFile {
    const tableId: nat
    var pages: seq<HeapPage>
    var lastInsertPage: nat

    ghost predicate Valid()
      reads this
    {
      AllFit(pages) && lastInsertPage <= |pages|
    }

    constructor (tableId: nat, pages: seq<HeapPage>)
      requires AllFit(pages)
      ensures Valid() && this.pages == pages && this.tableId == tableId
    {
      this.tableId := tableId;
      this.pages := pages;
      lastInsertPage := 0;
    }

    /** A page handle: a page past the end of the file comes into being as zeros, and zeros become an empty page. */
    method OpenPage(n: nat)
      requires Valid() && n <= |pages|
      modifies this`pages
      ensures Valid() && Flat(pages) == old(Flat(pages)) && SlotsGrow(old(pages), pages)
      ensures n < |pages| == if n < old(|pages|) then old(|pages|) else n + 1
      ensures (pages[n].slots == [] ==> pages[n].free == EMPTY_FREE) && (n == old(|pages|) ==> pages[n].slots == [])
      ensures pages[n] == Opened(if n < old(|pages|) then old(pages[n]) else ZERO_PAGE)
      ensures forall p :: 0 <= p < old(|pages|) && p != n ==> pages[p] == old(pages[p])
    {
      hide Flat;
      if n == |pages| {
        pages := pages + [ZERO_PAGE];
      }
      pages := pages[n := Opened(pages[n])];
      SameSlots(old(pages), pages);
    }

    ghost predicate InDirectory(rid: RID)
      reads this
    {
      rid == GONE || (0 <= rid.pageNum < |pages| && 0 <= rid.dirSlot < |pages[rid.pageNum].slots|)
    }

    /** Marks outside the file never reach a page: the caller of a walk only follows slots of the directory. */
    method GetRecordHeader(rid: RID) returns (h: Option<Header>)
      requires rid in Flat(pages) || InDirectory(rid)
      ensures h == HeaderIn(Flat(pages), rid)
    {
      if rid == GONE { return None; }
      match pages[rid.pageNum].slots[rid.dirSlot]
      case Dead => return None;
      case Live(v) => return Some(v.header);
    }

    method GetRecord(rid: RID) returns (r: Record)
      requires rid in Flat(pages) || (rid != GONE && InDirectory(rid))
      ensures r == if rid in Flat(pages) then Flat(pages)[rid].record else []
    {
      match pages[rid.pageNum].slots[rid.dirSlot]
      case Dead => return [];
      case Live(v) => return v.record;
    }

    /** Payloads above MAX_PAYLOAD fit no page and would keep the source searching for ever. */
    method InsertRecord(record: Record, tx: TxID, first: Option<RID>, tm: TransactionManager) returns (rid: RID)
      requires Valid() && PayloadSize(record) <= MAX_PAYLOAD && tx in tm.active && tm.Valid()
      modifies this, if first.None? then {tm} else {}
      ensures Valid() && SlotsGrow(old(pages), pages)
      ensures rid !in old(Flat(pages)) && rid.Proper()
      ensures Flat(pages) == old(Flat(pages))[rid := NewVersion(record, rid, tx, first)]
      ensures FirstWithRoom(old(pages), old(lastInsertPage), pages, rid, record, tx, first)
      ensures lastInsertPage == rid.pageNum
      ensures first.None? ==>
        tm.Valid() && tm.active == Noting(old(tm.active), tx, TupleKey(tableId, rid))
          && tm.ActiveSet() == old(tm.ActiveSet())
    {
      hide Flat, PageAfterInsert, FreeSlot, NewVersion, Opened, HasRoom, FirstFree;
      while true
        invariant Valid() && SlotsGrow(old(pages), pages) && Flat(pages) == old(Flat(pages))
        invariant unchanged(tm) && old(lastInsertPage) <= lastInsertPage && |pages| == |old(pages)|
        invariant forall p :: old(lastInsertPage) <= p < lastInsertPage ==>
          !HasRoom(Opened(old(pages)[p]), PayloadSize(record))
        invariant forall p :: 0 <= p < |pages| ==>
          pages[p] == if old(lastInsertPage) <= p < lastInsertPage then Opened(old(pages)[p]) else old(pages)[p]
        decreases |pages| - lastInsertPage
      {
        var n := lastInsertPage;
        OpenPage(n);
        InsertExact(pages[n], n, record, tx, first);
        match PageAfterInsert(pages[n], n, record, tx, first)
        case Some(page) =>
          rid := RID(n, FreeSlot(pages[n].slots));
          InsertedFits(pages[n], n, record, tx, first);
          FlatAfterInsert(pages, n, record, tx, first);
          pages := pages[n := page];
          if first.None? {
            tm.AddToWriteSet(tableId, rid, tx);
          }
          return;
        case None =>
          NoRoomIfUsed(pages[n], n, record, tx, first);
          lastInsertPage := n + 1;
      }
    }

    /** The last version of a tuple, also when it is a tombstone; GONE when the tuple is not there. */
    method GetLastVersion(rid: RID, ghost ch: Chains) returns (last: RID)
      requires Chained(Flat(pages), ch)
      requires rid in ch || (rid !in Flat(pages) && InDirectory(rid))
      ensures last == if rid in ch then Last(ch[rid]) else GONE
    {
      hide Flat;
      var cur := rid;
      ghost var i := 0;
      while true
        invariant rid in ch ==> i < |ch[rid]| && cur == ch[rid][i]
        invariant rid !in ch ==> cur == rid
        decreases if rid in ch then |ch[rid]| - i else 0
      {
        var header := GetRecordHeader(cur);
        if header == None { return GONE; }
        assert i < |ch[rid]| - 1 ==> Linked(Flat(pages), ch[rid][i], ch[rid][i + 1]);
        if header.value.tMax == 0 { return cur; }
        if header.value.next == DELETED { return cur; }
        cur := header.value.next;
        i := i + 1;
      }
    }

    /** READ COMMITTED visibility of one version. */
    method Visible(h: Header, tx: TxID, tm: TransactionManager) returns (visible: bool)
      requires tm.Valid()
      ensures visible == IsVisible(h, tx, tm.ActiveSet())
    {
      var stateMin, stateMax := tm.GetStates(h.tMin, h.tMax);
      if stateMin == ACTIVE {
        return h.tMin == tx && h.tMax == 0;
      }
      return h.tMax == 0 || (stateMax == ACTIVE && h.tMax != tx);
    }

    /**
     * The version `tx` must read, found by walking the chain; `valid` is false exactly when there is none.
     */
    method Read(rid: RID, tx: TxID, tm: TransactionManager, ghost ch: Chains) returns (res: RID, valid: bool)
      requires tm.Valid() && tx in tm.ActiveSet() && Orderly(Flat(pages), ch, tm.ActiveSet())
      requires rid in ch || (rid !in Flat(pages) && InDirectory(rid))
      ensures RightAnswer(Flat(pages), ch, rid, tx, tm.ActiveSet(), res, valid)
    {
      hide Flat, IsVisible, Orderly, Walking, RightAnswer;
      ghost var heap, active := Flat(pages), tm.ActiveSet();
      ReadBegins(heap, ch, rid, tx, active);
      valid := false;
      res := rid;
      var tMax := 1;
      ghost var rest: nat := if rid in ch then |ch[rid]| else 0;
      while tMax != 0
        invariant !valid && Walking(heap, ch, rid, tx, active, rest, res, tMax)
        decreases tMax != 0, rest
      {
        ReadTurn(heap, ch, rid, tx, active, rest, res, tMax);
        var header := GetRecordHeader(res);
        if header == None {
          return GONE, false;
        }
        tMax := header.value.tMax;
        var visible := Visible(header.value, tx, tm);
        if visible {
          valid := true;
          return;
        }
        res := header.value.next;
        rest := rest - 1;
        if res == DELETED {
          return;
        }
      }
      ReadEnds(heap, ch, rid, tx, active, rest, res);
    }

    /** The page's `update_record_header`. */
    method UpdateRecordHeader(rid: RID, newer: RID, tx: TxID)
      requires Valid() && rid in Flat(pages)
      modifies this`pages
      ensures Valid() && SlotsGrow(old(pages), pages) && Flat(pages) == LinkVersion(old(Flat(pages)), rid, tx, newer)
    {
      var v := pages[rid.pageNum].slots[rid.dirSlot].v;
      var slot := Live(v.(header := Superseded(v.header, tx, newer)));
      SetSlotEffect(pages, rid, slot);
      pages := SetSlot(pages, rid, slot);
    }

    /**
     * A new last version for the tuple that `rid` belongs to. Blocked stands for the lock wait that ends with
     * the abort of the transaction in the source.
     */
    method Update(rid: RID, record: Record, tx: TxID, tm: TransactionManager, lm: LockManager, ghost ch: Chains)
      returns (r: UpdateResult)
      requires Valid() && tm.Valid() && tm.TwoPhase(lm) && tx in tm.active && PayloadSize(record) <= MAX_PAYLOAD
      requires Chained(Flat(pages), ch) && (rid in Flat(pages) || InDirectory(rid))
      modifies this, lm, tm`active
      ensures Valid() && tm.Valid() && tm.TwoPhase(lm) && SlotsGrow(old(pages), pages)
      ensures tx in tm.active && tm.ActiveSet() == old(tm.ActiveSet())
      ensures UpdateEffect(old(Flat(pages)), ch, rid, record, tx, r, Flat(pages))
      ensures LockEffect(old(Flat(pages)), tableId, rid, tx, r, old(lm.lockTable), lm.lockTable)
    {
      ghost var heap := Flat(pages);
      assert rid in heap ==> heap[rid].header.first in ch;
      hide Flat, SlotAt, AllFit, TupleUpdate, TupleLock, Chained, Last;
      var header := GetRecordHeader(rid);
      if header == None { return PhysicallyDeleted; }
      r := LockAndUpdate(header.value.first, record, tx, tm, lm, ch);
    }

    method LockAndUpdate(f: RID, record: Record, tx: TxID, tm: TransactionManager, lm: LockManager, ghost ch: Chains)
      returns (r: UpdateResult)
      requires Valid() && tm.Valid() && tm.TwoPhase(lm) && tx in tm.active && PayloadSize(record) <= MAX_PAYLOAD
      requires Chained(Flat(pages), ch) && f in ch
      modifies this, lm, tm`active
      ensures Valid() && tm.Valid() && tm.TwoPhase(lm) && SlotsGrow(old(pages), pages)
      ensures tx in tm.active && tm.ActiveSet() == old(tm.ActiveSet()) && !r.PhysicallyDeleted?
      ensures TupleUpdate(old(Flat(pages)), ch, f, record, tx, r, Flat(pages))
      ensures TupleLock(tableId, f, tx, r, old(lm.lockTable), lm.lockTable)
    {
      BlockedUpdate(Flat(pages), ch, f, record, tx);
      LockOutcomes(tableId, f, tx, lm.lockTable);
      hide Flat, SlotAt, AllFit, TupleUpdate, TupleLock, Chained, Last, Noting;
      var granted := lm.TryAcquireLock(tm, tx, tableId, f);
      r := Blocked;
      if !granted { return; }
      r := UpdateTuple(f, record, tx, tm, lm, ch);
    }

    /** The part of `update` that runs under the lock. */
    method UpdateTuple(f: RID, record: Record, tx: TxID, tm: TransactionManager, lm: LockManager, ghost ch: Chains)
      returns (r: UpdateResult)
      requires Valid() && tm.Valid() && tm.TwoPhase(lm) && tx in tm.active && PayloadSize(record) <= MAX_PAYLOAD
      requires Chained(Flat(pages), ch) && f in ch
      modifies this
      ensures tm.Valid() && tm.TwoPhase(lm) && tx in tm.active && tm.ActiveSet() == old(tm.ActiveSet())
      ensures Valid() && SlotsGrow(old(pages), pages) && !r.Blocked? && !r.PhysicallyDeleted?
      ensures TupleUpdate(old(Flat(pages)), ch, f, record, tx, r, Flat(pages))
    {
      hide Flat, NewVersion, LinkVersion, AllFit, IsChain;
      LastInChain(Flat(pages), ch, f);
      var last := GetLastVersion(f, ch);
      var lastHeader := GetRecordHeader(last);
      if lastHeader == None { return PhysicallyDeleted; }
      if lastHeader.value.next == DELETED { return LogicallyDeleted; }
      var newer := AppendVersion(f, last, record, tx, tm);
      return Updated(newer);
    }

    /** The insert of the new version and then the link from the last one. */
    method AppendVersion(f: RID, last: RID, record: Record, tx: TxID, tm: TransactionManager) returns (newer: RID)
      requires Valid() && tx in tm.active && tm.Valid() && PayloadSize(record) <= MAX_PAYLOAD && last in Flat(pages)
      modifies this
      ensures Valid() && SlotsGrow(old(pages), pages)
      ensures newer !in old(Flat(pages)) && newer.Proper()
      ensures Flat(pages) ==
        LinkVersion(old(Flat(pages))[newer := NewVersion(record, newer, tx, Some(f))], last, tx, newer)
    {
      newer := InsertRecord(record, tx, Some(f), tm);
      UpdateRecordHeader(last, newer, tx);
    }
  }

  /** What an update of `rid` does to the versions: it concerns the tuple that `rid` belongs to. */
  ghost predicate UpdateEffect(heap: Heap, ch: Chains, rid: RID, record: Record, tx: TxID, r: UpdateResult,
                               heap': Heap) {
    if rid !in heap then r.PhysicallyDeleted? && heap' == heap
    else !r.PhysicallyDeleted? && TupleUpdate(heap, ch, heap[rid].header.first, record, tx, r, heap')
  }

  /** Tuple `f` gets a new last version, linked from the old one, unless it was deleted or its lock is taken. */
  ghost predicate TupleUpdate(heap: Heap, ch: Chains, f: RID, record: Record, tx: TxID, r: UpdateResult, heap': Heap) {
    && f in ch && ch[f] != [] && Last(ch[f]) in heap
    && (r.LogicallyDeleted? ==> Tombstone(heap[Last(ch[f])].header))
    && (if r.Updated? then
          && r.rid !in heap && r.rid.Proper() && !Tombstone(heap[Last(ch[f])].header)
          && heap' == LinkVersion(heap[r.rid := NewVersion(record, r.rid, tx, Some(f))], Last(ch[f]), tx, r.rid)
        else heap' == heap)
  }

  lemma LockOutcomes(tableId: nat, f: RID, tx: TxID, locks: map<TupleKey, TxID>)
    ensures var key := TupleKey(tableId, f);
      if key in locks && locks[key] != tx then TupleLock(tableId, f, tx, Blocked, locks, locks)
      else forall r: UpdateResult :: !r.Blocked? ==> TupleLock(tableId, f, tx, r, locks, locks[key := tx])
  {
  }

  lemma BlockedUpdate(heap: Heap, ch: Chains, f: RID, record: Record, tx: TxID)
    requires Chained(heap, ch) && f in ch
    ensures TupleUpdate(heap, ch, f, record, tx, Blocked, heap)
  {
    LastInChain(heap, ch, f);
  }

  ghost predicate LockEffect(heap: Heap, tableId: nat, rid: RID, tx: TxID, r: UpdateResult,
                             locks: map<TupleKey, TxID>, locks': map<TupleKey, TxID>) {
    if rid !in heap then locks' == locks else TupleLock(tableId, heap[rid].header.first, tx, r, locks, locks')
  }

  /** The tuple's lock is taken unless another transaction holds it, and then nothing else happens. */
  ghost predicate TupleLock(tableId: nat, f: RID, tx: TxID, r: UpdateResult,
                            locks: map<TupleKey, TxID>, locks': map<TupleKey, TxID>) {
    var key := TupleKey(tableId, f);
    && (r.Blocked? <==> key in locks && locks[key] != tx)
    && locks' == if r.Blocked? then locks else locks[key := tx]
  }

  datatype UpdateResult = Updated(rid: RID) | LogicallyDeleted | PhysicallyDeleted | Blocked

  lemma LastInChain(heap: Heap, ch: Chains, f: RID)
    requires Chained(heap, ch) && f in ch
    ensures ch[f] != [] && Last(ch[f]) in heap && f in heap && f.Proper()
    ensures heap[Last(ch[f])].header.next == DELETED <==> Tombstone(heap[Last(ch[f])].header)
  {
    assert IsChain(heap, f, ch[f]) && ch[f][0] == f;
  }

  lemma ExtendedChain(heap: Heap, f: RID, c: seq<RID>, record: Record, tx: TxID, r: RID)
    requires IsChain(heap, f, c) && r !in heap && r.Proper() && tx != 0 && !Tombstone(heap[Last(c)].header)
    ensures IsChain(LinkVersion(heap[r := NewVersion(record, r, tx, Some(f))], Last(c), tx, r), f, c + [r])
  {
    var heap', c' := LinkVersion(heap[r := NewVersion(record, r, tx, Some(f))], Last(c), tx, r), c + [r];
    forall i | 0 <= i < |c'| - 1 ensures Linked(heap', c'[i], c'[i + 1]) {
      if i < |c| - 1 { assert Linked(heap, c[i], c[i + 1]); }
    }
  }

  /** An update extends one chain by one version and leaves the others alone. */
  lemma UpdateExtendsChain(heap: Heap, ch: Chains, f: RID, record: Record, tx: TxID, r: RID)
    requires Chained(heap, ch) && f in ch && ch[f] != [] && Last(ch[f]) in heap && r !in heap && r.Proper() && tx != 0
    requires !Tombstone(heap[Last(ch[f])].header)
    ensures Chained(LinkVersion(heap[r := NewVersion(record, r, tx, Some(f))], Last(ch[f]), tx, r),
                    ch[f := ch[f] + [r]])
  {
    hide IsChain, NewVersion, LinkVersion;
    var heap' := LinkVersion(heap[r := NewVersion(record, r, tx, Some(f))], Last(ch[f]), tx, r);
    ExtendedChain(heap, f, ch[f], record, tx, r);
    LinkedHeap(heap, f, ch[f], record, tx, r);
    forall g | g in ch && g != f ensures IsChain(heap', g, ch[g]) {
      OtherChain(heap, heap', g, ch[g], f, Last(ch[f]), r);
    }
  }

  /** What the new version and its link change in the heap. */
  lemma LinkedHeap(heap: Heap, f: RID, c: seq<RID>, record: Record, tx: TxID, r: RID)
    requires IsChain(heap, f, c) && r !in heap
    ensures c != [] && Last(c) in heap && heap[Last(c)].header.first == f
    ensures var heap' := LinkVersion(heap[r := NewVersion(record, r, tx, Some(f))], Last(c), tx, r);
      && (forall x :: x in heap' <==> x in heap || x == r) && heap'[r].header.first == f
      && (forall x :: x in heap ==> heap'[x].header.first == heap[x].header.first)
      && (forall x :: x in heap && x != Last(c) ==> heap'[x] == heap[x])
  {
  }

  lemma OtherChain(heap: Heap, heap': Heap, g: RID, c: seq<RID>, f: RID, last: RID, r: RID)
    requires IsChain(heap, g, c) && g != f && last in heap && heap[last].header.first == f && r !in heap
    requires forall x :: x in heap && x != last ==> x in heap' && heap'[x] == heap[x]
    ensures IsChain(heap', g, c)
  {
    assert forall i :: 0 <= i < |c| ==> c[i] in heap' && heap'[c[i]] == heap[c[i]];
    forall i | 0 <= i < |c| - 1 ensures Linked(heap', c[i], c[i + 1]) {
      assert Linked(heap, c[i], c[i + 1]);
    }
    assert Ends(heap, Last(c));
  }

  /** A chain without a visible version has no current one. */
  lemma NoneVisible(heap: Heap, f: RID, c: seq<RID>, tx: TxID, active: set<TxID>)
    requires IsChain(heap, f, c) && OneActiveWriter(heap, active, c) && tx in active && 0 !in active
    requires forall j :: 0 <= j < |c| ==> !IsVisible(heap[c[j]].header, tx, active)
    ensures Current(heap, c, tx, active) == None
  {
    TrustedLengthIsNewest(heap, c, tx, active);
    var n := TrustedLength(heap, c, tx, active);
    if n > 0 { VisibleIffCurrent(heap, f, c, tx, active, n - 1); }
  }

  ghost predicate PassedOver(heap: Heap, c: seq<RID>, tx: TxID, active: set<TxID>, i: nat) {
    forall j :: 0 <= j < i && j < |c| ==> c[j] in heap && !IsVisible(heap[c[j]].header, tx, active)
  }

  /** A reader with `rest` versions ahead that passed over the others, or over all once it read a zero t_max. */
  ghost predicate Walking(heap: Heap, ch: Chains, f: RID, tx: TxID, active: set<TxID>, rest: nat, res: RID,
                          tMax: TxID) {
    if f !in ch then res == f && f !in heap && tMax != 0
    else
      var c := ch[f];
      && (forall j :: 0 <= j < |c| ==> c[j] in heap)
      && (if tMax != 0 then 0 < rest <= |c| && res == c[|c| - rest] && PassedOver(heap, c, tx, active, |c| - rest)
          else Answers(heap, c, tx, active, res, false))
  }

  lemma ReadBegins(heap: Heap, ch: Chains, f: RID, tx: TxID, active: set<TxID>)
    requires Orderly(heap, ch, active) && (f in ch || f !in heap)
    ensures Walking(heap, ch, f, tx, active, if f in ch then |ch[f]| else 0, f, 1)
  {
  }

  /** What the next header tells it. */
  lemma ReadTurn(heap: Heap, ch: Chains, f: RID, tx: TxID, active: set<TxID>, rest: nat, res: RID, tMax: TxID)
    requires Orderly(heap, ch, active) && tx in active && 0 !in active
    requires Walking(heap, ch, f, tx, active, rest, res, tMax) && tMax != 0
    ensures if f in ch then res in heap else res == f
    ensures match HeaderIn(heap, res)
      case None => RightAnswer(heap, ch, f, tx, active, GONE, false)
      case Some(h) =>
        && rest > 0 && res in heap
        && (if IsVisible(h, tx, active) then RightAnswer(heap, ch, f, tx, active, res, true)
            else if h.next == DELETED then RightAnswer(heap, ch, f, tx, active, DELETED, false)
            else Walking(heap, ch, f, tx, active, rest - 1, h.next, h.tMax))
  {
    hide Orderly, OneActiveWriter, IsVisible, Current, TrustedLength;
    if f in ch {
      var c, i := ch[f], |ch[f]| - rest;
      OrderlyAt(heap, ch, active, f);
      VisibleIffCurrent(heap, f, c, tx, active, i);
      assert i < |c| - 1 ==> Linked(heap, c[i], c[i + 1]);
      assert i == |c| - 1 ==> Ends(heap, c[i]);
      if i == |c| - 1 && !IsVisible(heap[c[i]].header, tx, active) {
        NoneVisible(heap, f, c, tx, active);
      }
    }
  }

  lemma OrderlyAt(heap: Heap, ch: Chains, active: set<TxID>, f: RID)
    requires Orderly(heap, ch, active) && f in ch
    ensures IsChain(heap, f, ch[f]) && OneActiveWriter(heap, active, ch[f])
  {
  }

  lemma ReadEnds(heap: Heap, ch: Chains, f: RID, tx: TxID, active: set<TxID>, rest: nat, res: RID)
    requires Walking(heap, ch, f, tx, active, rest, res, 0)
    ensures RightAnswer(heap, ch, f, tx, active, res, false)
  {
  }
}
