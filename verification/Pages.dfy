/** Heap pages as values: what the bytes of a slotted page mean, and what an insert does to them. */
module Pages {
  import opened Model
  import opened Versions

  const PAGE_SIZE := 4096
  const HEADER_SIZE := 8
  const DIR_SIZE := 4
  const TUPLE_HEADER_SIZE := 32

  /** No directory has room for more entries. */
  const MAX_SLOTS := (PAGE_SIZE - HEADER_SIZE) / DIR_SIZE

  /** Largest payload an empty page accepts. */
  const MAX_PAYLOAD := PAGE_SIZE - HEADER_SIZE - DIR_SIZE - TUPLE_HEADER_SIZE

  /** Free space of an initialised page without slots. */
  const EMPTY_FREE := PAGE_SIZE - HEADER_SIZE

  datatype Slot = Dead | Live(v: Version)

  /** `free` is the value of the free space field: the gap between directory and records. */
  datatype HeapPage = HeapPage(slots: seq<Slot>, free: nat)

  /** A page of zeros, as the file manager hands out new pages. */
  const ZERO_PAGE := HeapPage([], 0)

  function ValueSize(v: Value): nat {
    match v
    case Str(t) => 1 + |t|
    case Int(_) => 8
    case Rid(_) => 0
  }

  function PayloadSize(r: Record): nat {
    if r == [] then 0 else ValueSize(r[0]) + PayloadSize(r[1..])
  }

  /** The columns a page stores: the RID that scans append is not one of them. */
  function Stored(r: Record): Record {
    if r == [] then []
    else (if r[0].Rid? then [] else [r[0]]) + Stored(r[1..])
  }

  lemma {:induction false} StoredSize(r: Record)
    ensures PayloadSize(Stored(r)) == PayloadSize(r) && Stored(Stored(r)) == Stored(r)
  {
    if r != [] {
      StoredSize(r[1..]);
      if r[0].Rid? {
        assert Stored(r) == Stored(r[1..]);
      } else {
        assert Stored(r)[0] == r[0] && Stored(r)[1..] == Stored(r[1..]);
      }
    }
  }

  /** The constructor of a page handle: a zero page becomes an empty page. */
  function Opened(p: HeapPage): HeapPage {
    if p.slots == [] && p.free == 0 then p.(free := EMPTY_FREE) else p
  }

  /** The first slot that does not hold a record, or the number of slots. */
  function FreeSlot(slots: seq<Slot>): (k: nat)
    ensures k <= |slots|
    ensures forall i :: 0 <= i < k ==> slots[i].Live?
    ensures k < |slots| ==> slots[k].Dead?
  {
    if slots == [] || slots[0].Dead? then 0 else 1 + FreeSlot(slots[1..])
  }

  /** Space an insert takes from the gap; a slot is paid for only when it is a new one. */
  function Needed(p: HeapPage, payload: nat): nat {
    payload + TUPLE_HEADER_SIZE + (if FreeSlot(p.slots) < |p.slots| then 0 else DIR_SIZE)
  }

  /** The version an insert by `tx` writes at `rid`; without `first` it starts a tuple of its own. */
  function NewVersion(record: Record, rid: RID, tx: TxID, first: Option<RID>): Version {
    Version(NewHeader(tx, rid, match first case None => rid case Some(f) => f), Stored(record))
  }

  function Put(p: HeapPage, k: nat, v: Version): HeapPage
    requires k <= |p.slots|
  {
    p.(slots := if k < |p.slots| then p.slots[k := Live(v)] else p.slots + [Live(v)])
  }

  /** `try_insert_record` on page number `pageNum`; None when there is no room. */
  function PageAfterInsert(p: HeapPage, pageNum: int, record: Record, tx: TxID, first: Option<RID>): Option<HeapPage> {
    var need := Needed(p, PayloadSize(record));
    var k := FreeSlot(p.slots);
    if p.free < need then None
    else Some(Put(p, k, NewVersion(record, RID(pageNum, k), tx, first)).(free := p.free - need))
  }

  /** The gap takes the record with its header, and a new directory entry unless a slot is dead. */
  ghost predicate HasRoom(p: HeapPage, payload: nat) {
    p.free >= payload + TUPLE_HEADER_SIZE
      + if exists i :: 0 <= i < |p.slots| && p.slots[i].Dead? then 0 else DIR_SIZE
  }

  /** Slot `k` is the first that does not hold a record, or a new one behind the others. */
  ghost predicate FirstFree(slots: seq<Slot>, k: nat) {
    k <= |slots| && (forall i :: 0 <= i < k ==> slots[i].Live?) && (k < |slots| ==> slots[k].Dead?)
  }

  /** An insert finds room exactly when the gap does, and fills the first free slot and no other. */
  lemma InsertExact(p: HeapPage, pageNum: int, record: Record, tx: TxID, first: Option<RID>)
    ensures PageAfterInsert(p, pageNum, record, tx, first).Some? <==> HasRoom(p, PayloadSize(record))
    ensures FirstFree(p.slots, FreeSlot(p.slots))
    ensures PageAfterInsert(p, pageNum, record, tx, first).Some? ==>
      var p', k := PageAfterInsert(p, pageNum, record, tx, first).value, FreeSlot(p.slots);
      && |p'.slots| == (if k < |p.slots| then |p.slots| else |p.slots| + 1)
      && p'.slots[k] == Live(NewVersion(record, RID(pageNum, k), tx, first))
      && (forall i :: 0 <= i < |p.slots| && i != k ==> p'.slots[i] == p.slots[i])
      && p.free - p'.free == PayloadSize(record) + TUPLE_HEADER_SIZE + DIR_SIZE * (|p'.slots| - |p.slots|)
  {
    hide PayloadSize, NewVersion;
    assert FreeSlot(p.slots) < |p.slots| <==> exists i :: 0 <= i < |p.slots| && p.slots[i].Dead?;
  }

  // ---------------------------------------------------------------- vacuum

  function SlotBytes(slot: Slot): nat {
    match slot
    case Dead => 0
    case Live(v) => TUPLE_HEADER_SIZE + PayloadSize(v.record)
  }

  function LiveBytes(slots: seq<Slot>): nat {
    if slots == [] then 0 else LiveBytes(slots[..|slots| - 1]) + SlotBytes(slots[|slots| - 1])
  }

  /** Slots without the dead ones at the end, but never fewer than one. */
  function Trimmed(slots: seq<Slot>): (t: seq<Slot>)
    ensures t <= slots
    ensures forall i :: |t| <= i < |slots| ==> slots[i].Dead?
    ensures slots != [] ==> |t| >= 1 && (|t| > 1 ==> t[|t| - 1].Live?)
  {
    if |slots| > 1 && slots[|slots| - 1].Dead? then Trimmed(slots[..|slots| - 1]) else slots
  }

  /** `vacuum` of a page with at least one slot. */
  function Vacuumed(p: HeapPage): HeapPage {
    var t := Trimmed(p.slots);
    HeapPage(t, if 4 * |t| + LiveBytes(t) <= EMPTY_FREE then EMPTY_FREE - 4 * |t| - LiveBytes(t) else 0)
  }

  /** A page whose records and directory fit beside its gap; space of deleted records may be lost until vacuum. */
  ghost predicate Fits(p: HeapPage) {
    && DIR_SIZE * |p.slots| + LiveBytes(p.slots) + p.free <= EMPTY_FREE
    && (p.slots == [] ==> p.free == 0 || p.free == EMPTY_FREE)
    && (forall i :: 0 <= i < |p.slots| && p.slots[i].Live? ==> Stored(p.slots[i].v.record) == p.slots[i].v.record)
  }

  lemma {:induction false} LiveBytesUpdate(slots: seq<Slot>, k: nat, slot: Slot)
    requires k < |slots|
    ensures LiveBytes(slots[k := slot]) == LiveBytes(slots) - SlotBytes(slots[k]) + SlotBytes(slot)
  {
    var n := |slots| - 1;
    if k == n {
      assert slots[k := slot][..n] == slots[..n];
    } else {
      assert slots[k := slot][..n] == slots[..n][k := slot];
      LiveBytesUpdate(slots[..n], k, slot);
    }
  }

  /** An insert that finds room keeps the page's books. */
  lemma InsertedFits(p: HeapPage, pageNum: int, record: Record, tx: TxID, first: Option<RID>)
    requires Fits(p) && PageAfterInsert(p, pageNum, record, tx, first).Some?
    ensures Fits(PageAfterInsert(p, pageNum, record, tx, first).value)
  {
    StoredSize(record);
    PutFits(p, FreeSlot(p.slots), NewVersion(record, RID(pageNum, FreeSlot(p.slots)), tx, first),
            Needed(p, PayloadSize(record)));
  }

  /** A version put into the first free slot, paid for from the gap. */
  lemma PutFits(p: HeapPage, k: nat, v: Version, need: nat)
    requires Fits(p) && need <= p.free && k == FreeSlot(p.slots) && Stored(v.record) == v.record
    requires need == SlotBytes(Live(v)) + (if k < |p.slots| then 0 else DIR_SIZE)
    ensures Fits(Put(p, k, v).(free := p.free - need))
  {
    hide PayloadSize, Stored, FreeSlot;
    var slots := Put(p, k, v).slots;
    if k < |p.slots| {
      LiveBytesUpdate(p.slots, k, Live(v));
    } else {
      assert slots[..|slots| - 1] == p.slots;
    }
  }

  /** So does a slot that dies or gets another header. */
  lemma ChangedFits(p: HeapPage, k: nat, slot: Slot)
    requires Fits(p) && k < |p.slots| && (slot.Live? ==> p.slots[k].Live? && slot.v.record == p.slots[k].v.record)
    ensures Fits(p.(slots := p.slots[k := slot]))
  {
    LiveBytesUpdate(p.slots, k, slot);
  }

  /** Some page takes a record exactly when its payload is at most 4052 bytes; a larger one is never placed. */
  lemma PlacedIff(pageNum: int, record: Record, tx: TxID, first: Option<RID>)
    ensures (exists p :: Fits(p) && PageAfterInsert(p, pageNum, record, tx, first).Some?) <==>
      PayloadSize(record) <= MAX_PAYLOAD
  {
    if PayloadSize(record) <= MAX_PAYLOAD {
      var empty := HeapPage([], EMPTY_FREE);
      assert Fits(empty) && PageAfterInsert(empty, pageNum, record, tx, first).Some?;
    }
  }
}
