/** The operations of one slotted page, on its bytes, proved against the page values of module Pages. */
module HeapFilePages {
  import opened Model
  import opened Versions
  import opened Pages
  import opened Bytes
  import opened PageBytes
  import opened Frames

  /** The bytes of a new page. */
  function ZeroBytes(): (s: seq<byte>)
    ensures |s| == PAGE_SIZE && forall i :: 0 <= i < |s| ==> s[i] == 0
  {
    seq(PAGE_SIZE, _ => 0)
  }

  /** New pages come as zeros. */
  lemma ZerosRepresent(schema: Schema)
    ensures Represents(ZeroBytes(), schema, ZERO_PAGE)
  {
    assert At(ZeroBytes(), 0, 4) == [0, 0, 0, 0] && At(ZeroBytes(), 4, 4) == [0, 0, 0, 0];
    assert Int32(0) == [0, 0, 0, 0] by { assert Le(0, 4) == [0] + Le(0, 3); }
    Int32Read(ZeroBytes(), 0, 0);
    Int32Read(ZeroBytes(), 4, 0);
  }

  lemma OpenedRepresents(b: seq<byte>, schema: Schema, p: HeapPage)
    requires Represents(b, schema, p)
    ensures p.slots == [] && p.free == 0 ==> Represents(Write(b, 4, Int32(EMPTY_FREE)), schema, Opened(p))
  {
    if p.slots == [] && p.free == 0 {
      ReadWrite(b, 4, Int32(EMPTY_FREE), 0, 4);
      Int32Read(Write(b, 4, Int32(EMPTY_FREE)), 4, EMPTY_FREE);
    }
  }

  /** What the readers need to know about slot `k`. */
  lemma SlotFacts(b: seq<byte>, schema: Schema, p: HeapPage, k: nat)
    requires Represents(b, schema, p) && k < |p.slots|
    ensures |b| == PAGE_SIZE && DirOffset(k) + 4 <= PAGE_SIZE && |p.slots| <= MAX_SLOTS
    ensures p.slots[k].Dead? <==> DirAt(b, k) < 0
    ensures DirAt(b, k) != 0
    ensures match p.slots[k]
      case Dead => true
      case Live(v) =>
        && VersionFits(v, schema) && Low(p) <= DirAt(b, k) <= PAGE_SIZE - SlotBytes(p.slots[k])
        && At(b, DirAt(b, k), SlotBytes(p.slots[k])) == VersionBytes(v)
  {
    assert SlotStored(b, schema, Low(p), k, p.slots[k]);
  }

  /** The sign of a directory entry tells whether the slot is live. */
  lemma DirFacts(b: seq<byte>, schema: Schema, p: HeapPage, k: nat)
    requires Represents(b, schema, p) && k < |p.slots|
    ensures |b| == PAGE_SIZE && DirOffset(k) + 4 <= PAGE_SIZE
    ensures if p.slots[k].Dead? then DirAt(b, k) < 0 else DirAt(b, k) > 0
  {
    hide Represents;
    SlotFacts(b, schema, p, k);
  }

  lemma HeadFacts(b: seq<byte>, schema: Schema, p: HeapPage)
    requires Represents(b, schema, p)
    ensures |b| == PAGE_SIZE && Int32At(b, 0) == |p.slots| <= MAX_SLOTS
    ensures Int32At(b, 4) == p.free && Low(p) <= PAGE_SIZE
    ensures Fits(p)
  {
  }

  lemma ReadingBegins(b: seq<byte>, schema: Schema, p: HeapPage, k: nat)
    requires Represents(b, schema, p) && k < |p.slots| && p.slots[k].Live?
    ensures |b| == PAGE_SIZE && DirOffset(k) + 4 <= |b|
    ensures Reading(b, DirAt(b, k) + TUPLE_HEADER_SIZE, p.slots[k].v.record, schema)
  {
    SlotFacts(b, schema, p, k);
    HeaderFields(b, DirAt(b, k), p.slots[k].v);
  }

  class HeapFilePage {
    const page: Page
    const schema: Schema
    const pageNumber: nat

    ghost predicate Valid() {
      page.Valid() && IsInt32(pageNumber)
    }

    /** A fresh page of zeros becomes an empty page. */
    constructor (page: Page, schema: Schema, pageNumber: nat, ghost p: HeapPage)
      requires page.Valid() && IsInt32(pageNumber) && Represents(page.bytes[..], schema, p)
      modifies page`dirty, page.bytes
      ensures Valid() && this.page == page && this.schema == schema && this.pageNumber == pageNumber
      ensures Represents(page.bytes[..], schema, Opened(p))
      ensures page.dirty <==> old(page.dirty) || Opened(p) != p
    {
      this.page, this.schema, this.pageNumber := page, schema, pageNumber;
      new;
      hide Represents;
      HeadFacts(page.bytes[..], schema, p);
      OpenedRepresents(page.bytes[..], schema, p);
      var dirCount := GetDirCount();
      var free := GetFreeSpace();
      if dirCount == 0 && free == 0 {
        page.WriteInt32(4, EMPTY_FREE);
      }
    }

    method GetDirCount() returns (n: int)
      requires Valid()
      ensures n == Int32At(page.bytes[..], 0)
    {
      n := page.ReadInt32(0);
    }

    method GetFreeSpace() returns (n: int)
      requires Valid()
      ensures n == Int32At(page.bytes[..], 4)
    {
      n := page.ReadInt32(4);
    }

    method GetDir(k: nat) returns (d: int)
      requires Valid() && DirOffset(k) + 4 <= PAGE_SIZE
      ensures d == DirAt(page.bytes[..], k)
    {
      d := page.ReadInt32(DirOffset(k));
    }

    method IsPageEmpty(ghost p: HeapPage) returns (empty: bool)
      requires Valid() && Represents(page.bytes[..], schema, p)
      ensures empty <==> forall k :: 0 <= k < |p.slots| ==> p.slots[k].Dead?
    {
      hide Represents, DirAt;
      HeadFacts(page.bytes[..], schema, p);
      var n := GetDirCount();
      for k := 0 to n
        invariant forall i :: 0 <= i < k ==> p.slots[i].Dead?
      {
        DirFacts(page.bytes[..], schema, p, k);
        var d := GetDir(k);
        if d >= 0 { return false; }
      }
      return true;
    }

    method GetRecordHeader(k: nat, ghost p: HeapPage) returns (h: Option<Header>)
      requires Valid() && Represents(page.bytes[..], schema, p) && k < |p.slots|
      ensures h == match p.slots[k] case Dead => None case Live(v) => Some(v.header)
    {
      hide Represents, Int32At, Int64At, At, DirAt;
      SlotFacts(page.bytes[..], schema, p, k);
      var d := GetDir(k);
      if d <= 0 { return None; }
      HeaderFields(page.bytes[..], d, p.slots[k].v);
      var tMin := page.ReadInt64(d);
      var tMax := page.ReadInt64(d + 8);
      var nextPage := page.ReadInt32(d + 16);
      var nextDir := page.ReadInt32(d + 20);
      var firstPage := page.ReadInt32(d + 24);
      var firstDir := page.ReadInt32(d + 28);
      return Some(Header(tMin, tMax, RID(nextPage, nextDir), RID(firstPage, firstDir)));
    }

    /** Reads back exactly the values that were stored; nothing for a dead slot. */
    method GetRecord(k: nat, ghost p: HeapPage) returns (r: Record)
      requires Valid() && Represents(page.bytes[..], schema, p) && k < |p.slots|
      ensures r == match p.slots[k] case Dead => [] case Live(v) => v.record
    {
      hide Represents, Reading, At, DirAt, VersionFits, VersionBytes;
      SlotFacts(page.bytes[..], schema, p, k);
      var offset := GetDir(k);
      if offset <= 0 { return []; }
      ReadingBegins(page.bytes[..], schema, p, k);
      r := ReadValues(offset + TUPLE_HEADER_SIZE, p.slots[k].v.record);
    }

    /** The loop over the columns. */
    method ReadValues(start: nat, ghost record: Record) returns (r: Record)
      requires Valid() && Reading(page.bytes[..], start, record, schema)
      ensures r == record
    {
      hide Reading, At, Int64At;
      var offset := start;
      r := [];
      ghost var b, rest := page.bytes[..], record;
      for i := 0 to |schema|
        invariant page.bytes[..] == b && offset >= 0
        invariant Reading(b, offset, rest, schema[i..]) && record == r + rest
      {
        ReadColumn(b, offset, rest, schema[i..]);
        assert schema[i..][1..] == schema[i + 1..];
        match schema[i] {
          case IntColumn =>
            var n := page.ReadInt64(offset);
            r, rest, offset := r + [Int(n)], rest[1..], offset + 8;
          case StrColumn =>
            var len := page.ReadUint8(offset);
            var text := page.ReadBytes(offset + 1, len);
            r, rest, offset := r + [Str(text)], rest[1..], offset + 1 + len;
          case RidColumn =>
        }
      }
      ReadingEnds(b, offset, rest);
    }

    method DeleteRecordPhysically(k: nat, ghost p: HeapPage)
      requires Valid() && Represents(page.bytes[..], schema, p) && k < |p.slots|
      modifies page`dirty, page.bytes
      ensures Represents(page.bytes[..], schema, p.(slots := p.slots[k := Dead])) && page.dirty
    {
      hide Represents;
      SlotFacts(page.bytes[..], schema, p, k);
      DeleteLayout(page.bytes[..], schema, p, k);
      page.WriteInt32(DirOffset(k), -2);
    }

    /** `t_max` and `next` of a version that is superseded. */
    method UpdateRecordHeader(k: nat, newer: RID, tx: TxID, ghost p: HeapPage)
      requires Valid() && Represents(page.bytes[..], schema, p) && k < |p.slots| && p.slots[k].Live?
      requires tx < TWO63 && IsRid32(newer)
      modifies page`dirty, page.bytes
      ensures var v := p.slots[k].v;
        Represents(page.bytes[..], schema,
                   p.(slots := p.slots[k := Live(v.(header := Superseded(v.header, tx, newer)))]))
      ensures page.dirty
    {
      hide Represents, Write, DirAt;
      ghost var b, v := page.bytes[..], p.slots[k].v;
      SlotFacts(b, schema, p, k);
      LinkBytes(v, tx, newer);
      PatchLayout(b, schema, p, k, v.(header := Superseded(v.header, tx, newer)), 8,
                  Int64(tx) + Int32(newer.pageNum) + Int32(newer.dirSlot));
      var d := GetDir(k);
      WriteWrite(b, d + 8, Int64(tx), Int32(newer.pageNum));
      WriteWrite(b, d + 8, Int64(tx) + Int32(newer.pageNum), Int32(newer.dirSlot));
      page.WriteInt64(d + 8, tx);
      page.WriteInt32(d + 16, newer.pageNum);
      page.WriteInt32(d + 20, newer.dirSlot);
    }

    method ResetFirst(k: nat, ghost p: HeapPage)
      requires Valid() && Represents(page.bytes[..], schema, p) && k < |p.slots| && p.slots[k].Live?
      modifies page`dirty, page.bytes
      ensures var v := p.slots[k].v;
        Represents(page.bytes[..], schema,
                   p.(slots := p.slots[k := Live(v.(header := v.header.(first := RID(pageNumber, k))))]))
      ensures page.dirty
    {
      hide Represents, Write, DirAt;
      ghost var b, v := page.bytes[..], p.slots[k].v;
      SlotFacts(b, schema, p, k);
      RootBytes(v, RID(pageNumber, k));
      PatchLayout(b, schema, p, k, v.(header := v.header.(first := RID(pageNumber, k))), 24,
                  Int32(pageNumber) + Int32(k));
      var d := GetDir(k);
      WriteWrite(b, d + 24, Int32(pageNumber), Int32(k));
      page.WriteInt32(d + 24, pageNumber);
      page.WriteInt32(d + 28, k);
    }


    /** Bytes that the values of a record take. */
    static method RecordSize(record: Record) returns (size: nat)
      ensures size == PayloadSize(record)
    {
      size := 0;
      for i := 0 to |record|
        invariant size + PayloadSize(record[i..]) == PayloadSize(record)
      {
        assert record[i..][0] == record[i] && record[i..][1..] == record[i + 1..];
        match record[i] {
          case Str(t) => size := size + 1 + |t|;
          case Int(_) => size := size + 8;
          case Rid(_) =>
        }
      }
    }

    /** The first slot without a record, or the end of the directory. */
    method FindDir(dirCount: nat, ghost p: HeapPage) returns (k: nat)
      requires Valid() && Represents(page.bytes[..], schema, p) && dirCount == |p.slots|
      ensures k == FreeSlot(p.slots)
    {
      hide Represents, DirAt;
      HeadFacts(page.bytes[..], schema, p);
      k := 0;
      while k < dirCount
        invariant k <= dirCount && forall i :: 0 <= i < k ==> p.slots[i].Live?
      {
        DirFacts(page.bytes[..], schema, p, k);
        var d := GetDir(k);
        if d <= 0 { return; }
        k := k + 1;
      }
    }

    method WriteHeader(offset: nat, h: Header)
      requires Valid() && HeaderFits(h) && offset + TUPLE_HEADER_SIZE <= PAGE_SIZE
      modifies page`dirty, page.bytes
      ensures page.bytes[..] == Write(old(page.bytes[..]), offset, HeaderBytes(h)) && page.dirty
    {
      hide Write, Int32, Int64;
      ghost var b := page.bytes[..];
      page.WriteInt64(offset, h.tMin);
      ghost var s := Int64(h.tMin);
      page.WriteInt64(offset + 8, h.tMax);
      WriteWrite(b, offset, s, Int64(h.tMax));
      s := s + Int64(h.tMax);
      page.WriteInt32(offset + 16, h.next.pageNum);
      WriteWrite(b, offset, s, Int32(h.next.pageNum));
      s := s + Int32(h.next.pageNum);
      page.WriteInt32(offset + 20, h.next.dirSlot);
      WriteWrite(b, offset, s, Int32(h.next.dirSlot));
      s := s + Int32(h.next.dirSlot);
      page.WriteInt32(offset + 24, h.first.pageNum);
      WriteWrite(b, offset, s, Int32(h.first.pageNum));
      s := s + Int32(h.first.pageNum);
      page.WriteInt32(offset + 28, h.first.dirSlot);
      WriteWrite(b, offset, s, Int32(h.first.dirSlot));
      assert s + Int32(h.first.dirSlot) == HeaderBytes(h);
    }

    method WriteValues(start: nat, record: Record)
      requires Valid() && AllStorable(record) && start + PayloadSize(record) <= PAGE_SIZE
      modifies page`dirty, page.bytes
      ensures page.bytes[..] == Write(old(page.bytes[..]), start, RecordBytes(record))
      ensures old(page.dirty) ==> page.dirty
    {
      hide Write, Int64;
      ghost var b := page.bytes[..];
      var offset := start;
      WriteNothing(b, start);
      for i := 0 to |record|
        invariant offset == start + PayloadSize(record[..i]) <= PAGE_SIZE && (old(page.dirty) ==> page.dirty)
        invariant page.bytes[..] == Write(b, start, RecordBytes(record[..i]))
      {
        NextValue(record, i);
        WriteWrite(b, start, RecordBytes(record[..i]), ValueBytes(record[i]));
        match record[i] {
          case Str(t) =>
            WriteWrite(page.bytes[..], offset, [|t|], t);
            page.WriteInt8(offset, |t|);
            offset := offset + 1;
            page.WriteBytes(offset, t);
            offset := offset + |t|;
          case Int(n) =>
            page.WriteInt64(offset, n);
            offset := offset + 8;
          case Rid(_) =>
            assert RecordBytes(record[..i]) + [] == RecordBytes(record[..i]);
        }
      }
      assert record[..|record|] == record;
    }

    /** The writes of an insert that found room for slot `k`, leaving `free` bytes. */
    method WriteInsert(record: Record, tx: TxID, first: Option<RID>, dirCount: nat, k: nat, free: nat, ghost v: Version)
      requires Valid() && Int32At(page.bytes[..], 0) == dirCount && k <= dirCount && IsInt32(free)
      requires tx < TWO63 && (first.Some? ==> IsRid32(first.value)) && AllStorable(record) && AllStorable(v.record)
      requires v.header ==
        NewHeader(tx, RID(pageNumber, k), match first case None => RID(pageNumber, k) case Some(f) => f)
      requires HeaderFits(v.header) && VersionBytes(v) == HeaderBytes(v.header) + RecordBytes(record)
      requires var n := if k < dirCount then dirCount else dirCount + 1;
        n <= MAX_SLOTS && DirOffset(n) + free + |VersionBytes(v)| <= PAGE_SIZE
      modifies page`dirty, page.bytes
      ensures var n := if k < dirCount then dirCount else dirCount + 1;
        page.bytes[..] == InsertedBytes(old(page.bytes[..]), n, free, k, DirOffset(n) + free, VersionBytes(v))
      ensures page.dirty
    {
      hide Write, RecordBytes, HeaderBytes, VersionBytes, AllStorable, Int32;
      ghost var b := page.bytes[..];
      var n := dirCount;
      WriteSame(b, 0, dirCount);
      if k == dirCount {
        n := dirCount + 1;
        page.WriteInt32(0, n);
      }
      page.WriteInt32(4, free);
      var offset := DirOffset(n) + free;
      page.WriteInt32(DirOffset(k), offset);
      ghost var b' := page.bytes[..];
      var rid := RID(pageNumber, k);
      var header := NewHeader(tx, rid, match first case None => rid case Some(f) => f);
      WriteHeader(offset, header);
      WriteWrite(b', offset, HeaderBytes(header), RecordBytes(record));
      WriteValues(offset + TUPLE_HEADER_SIZE, record);
    }

    /**
     * An insert as the page value says: the slot, the space and the bytes, or nothing at all when there is no
     * room. A version without `first` starts a tuple of its own.
     */
    method TryInsertRecord(record: Record, tx: TxID, first: Option<RID>, ghost p: HeapPage) returns (rid: Option<RID>)
      requires Valid() && Represents(page.bytes[..], schema, p) && Matches(Stored(record), schema)
      requires tx < TWO63 && (first.Some? ==> IsRid32(first.value))
      modifies page`dirty, page.bytes
      ensures match PageAfterInsert(p, pageNumber, record, tx, first)
        case None => rid == None && page.bytes[..] == old(page.bytes[..]) && page.dirty == old(page.dirty)
        case Some(p') =>
          && rid == Some(RID(pageNumber, FreeSlot(p.slots))) && page.dirty
          && Represents(page.bytes[..], schema, p')
    {
      hide Represents, FreeSlot, Stored, Fits, InsertedBytes, Write, HeaderFits, AllStorable, Matches, Put,
        VersionBytes;
      HeadFacts(page.bytes[..], schema, p);
      var needed := RecordSize(record);
      var dirCount := GetDirCount();
      var k := FindDir(dirCount, p);
      var free := GetFreeSpace();
      needed := needed + TUPLE_HEADER_SIZE + if k < dirCount then 0 else DIR_SIZE;
      if free < needed { return None; }
      ghost var b, v, p' := page.bytes[..], NewVersion(record, RID(pageNumber, k), tx, first),
        PageAfterInsert(p, pageNumber, record, tx, first).value;
      InsertRepresents(b, schema, p, pageNumber, record, tx, first, k, v, p');
      NewVersionFits(record, schema, RID(pageNumber, k), tx, first);
      WriteInsert(record, tx, first, dirCount, k, free - needed, v);
      rid := Some(RID(pageNumber, k));
    }

    /**
     * Compaction through a scratch buffer. `scratch` is the memory that `new char[]` hands out, whatever it
     * holds. A page with a directory becomes `Vacuumed(p)`. A page without one gets a directory of one entry
     * that nobody wrote: it is what the scratch memory happened to hold there.
     */
    method Vacuum(scratch: array<byte>, ghost p: HeapPage)
      requires Valid() && Represents(page.bytes[..], schema, p)
      requires scratch.Length == PAGE_SIZE && scratch != page.bytes
      modifies page`dirty, page.bytes, scratch
      ensures p.slots != [] ==> Represents(page.bytes[..], schema, Vacuumed(p))
      ensures p.slots == [] ==> page.bytes[..] == Headed(old(scratch[..]), 1, EMPTY_FREE - DIR_SIZE)
      ensures page.dirty
    {
      hide Represents, AllCopied, Represents, Write, Vacuumed, LiveBytes, AllVersionsFit, Headed, Fits;
      ghost var b := page.bytes[..];
      HeadFacts(b, schema, p);
      CopyBegins(b, schema, p, scratch[..]);
      var last := 0;
      var free := EMPTY_FREE;
      var n := GetDirCount();
      for i := 0 to n
        invariant page.bytes[..] == b && AllCopied(scratch[..], p.slots, i)
        invariant n == 0 ==> scratch[..] == old(scratch[..])
        invariant free == EMPTY_FREE - DIR_SIZE * i - LiveBytes(p.slots[..i])
        invariant (if i == 0 then last == 0 else last < i) && (last > 0 ==> p.slots[last].Live?)
        invariant forall j :: last < j < i ==> p.slots[j].Dead?
      {
        LiveBytesPrefix(p.slots, i);
        free := CopySlot(scratch, i, free - DIR_SIZE, p);
        var d := GetDir(i);
        DirFacts(b, schema, p, i);
        if d >= 0 { last := i; }
      }
      assert p.slots[..n] == p.slots;
      free := free + (n - (last + 1)) * DIR_SIZE;
      if n > 0 { VacuumLayout(scratch[..], schema, p, last); }
      WriteAll(b, scratch[..]);
      page.WriteBytes(0, scratch[..]);
      page.WriteInt32(0, last + 1);
      page.WriteInt32(4, free);
      HeadedWrites(scratch[..], last + 1, free);
    }

    /** One turn of the loop of vacuum: the slot is marked dead, or its record goes below those copied before. */
    method CopySlot(scratch: array<byte>, i: nat, free: int, ghost p: HeapPage) returns (left: int)
      requires Valid() && Represents(page.bytes[..], schema, p) && i < |p.slots|
      requires scratch.Length == PAGE_SIZE && scratch != page.bytes && AllCopied(scratch[..], p.slots, i)
      requires free == EMPTY_FREE - DIR_SIZE * (i + 1) - LiveBytes(p.slots[..i])
      modifies scratch
      ensures AllCopied(scratch[..], p.slots, i + 1) && left == free - SlotBytes(p.slots[i])
    {
      hide Represents, AllCopied, Write, LiveBytes, VersionBytes, At, Fits;
      ghost var b, s := page.bytes[..], scratch[..];
      SlotFacts(b, schema, p, i);
      LiveBytesPrefix(p.slots, i);
      var d := GetDir(i);
      if d < 0 {
        CopyDead(s, p.slots, i);
        CopyInto(scratch, DirOffset(i), Int32(-1));
        return free;
      }
      var record := GetRecord(i, p);
      var values := RecordSize(record);
      var size := TUPLE_HEADER_SIZE + values;
      left := free - size;
      var offset := DirOffset(i + 1) + left;
      CopyLive(s, p.slots, i, VersionBytes(p.slots[i].v));
      CopyInto(scratch, DirOffset(i), Int32(offset));
      var bytes := page.ReadBytes(d, size);
      CopyInto(scratch, offset, bytes);
    }
  }

  lemma ReadingEnds(b: seq<byte>, offset: int, rest: Record)
    requires Reading(b, offset, rest, [])
    ensures rest == []
  {
  }

  lemma WriteSame(b: seq<byte>, offset: nat, n: int)
    requires offset + 4 <= |b| && Int32At(b, offset) == n
    ensures Write(b, offset, Int32(n)) == b
  {
    SignedOfFromSigned(At(b, offset, 4));
  }

  /** memcpy */
  method CopyInto(a: array<byte>, offset: nat, s: seq<byte>)
    requires offset + |s| <= a.Length
    modifies a
    ensures a[..] == Write(old(a[..]), offset, s)
  {
    for i := 0 to |s|
      invariant a[..] == Write(old(a[..]), offset, s[..i])
    {
      WriteNext(old(a[..]), offset, s, i);
      a[offset + i] := s[i];
    }
    assert s[..|s|] == s;
  }

  lemma CopyBegins(b: seq<byte>, schema: Schema, p: HeapPage, s: seq<byte>)
    requires Represents(b, schema, p) && |s| == PAGE_SIZE
    ensures AllCopied(s, p.slots, 0) && AllVersionsFit(p.slots, schema) && LiveBytes(p.slots[..0]) == 0
  {
    RepresentedFit(b, schema, p);
  }

  lemma WriteAll(b: seq<byte>, s: seq<byte>)
    requires |b| == |s|
    ensures Write(b, 0, s) == s
  {
  }

  lemma HeadedWrites(s: seq<byte>, n: int, free: int)
    requires |s| == PAGE_SIZE && IsInt32(n) && IsInt32(free)
    ensures Headed(s, n, free) == Write(Write(s, 0, Int32(n)), 4, Int32(free))
  {
  }

  /**
   * What vacuum leaves of a page without a directory stands for a page value exactly when the stray entry,
   * which can be any integer, happens to be negative.
   */
  lemma EmptyDirectoryVacuum(schema: Schema, s: seq<byte>)
    requires |s| == PAGE_SIZE
    ensures var b := Headed(s, 1, EMPTY_FREE - DIR_SIZE); var stray := DirAt(s, 0);
      (exists p :: Represents(b, schema, p)) <==> stray < 0
  {
    var free := EMPTY_FREE - DIR_SIZE;
    var b := Headed(s, 1, free);
    HeadedWindows(s, 1, free);
    assert At(b, DirOffset(0), 4) == At(s, DirOffset(0), 4);
    if DirAt(s, 0) < 0 {
      var p := HeapPage([Dead], free);
      assert LiveBytes(p.slots[..0]) == 0;
      assert Represents(b, schema, p);
    }
    if p :| Represents(b, schema, p) { FullGap(b, schema, p); }
  }

  /** One slot and nothing but free space: the slot is dead. */
  lemma FullGap(b: seq<byte>, schema: Schema, p: HeapPage)
    requires Represents(b, schema, p) && |p.slots| == 1 && p.free == EMPTY_FREE - DIR_SIZE
    ensures |b| == PAGE_SIZE && DirAt(b, 0) < 0
  {
    assert SlotStored(b, schema, Low(p), 0, p.slots[0]);
  }

  /** The stray entry can be any 32-bit integer. */
  lemma StrayEntry(n: int) returns (s: seq<byte>)
    requires IsInt32(n)
    ensures |s| == PAGE_SIZE && DirAt(s, 0) == n
  {
    s := Write(ZeroBytes(), DirOffset(0), Int32(n));
    ReadWrite(ZeroBytes(), DirOffset(0), Int32(n), 0, 0);
    Int32Read(s, DirOffset(0), n);
  }

  lemma WriteNothing(b: seq<byte>, offset: nat)
    requires offset <= |b|
    ensures Write(b, offset, []) == b
  {
  }

  /** The bytes of one more value of a record. */
  lemma {:induction false} NextValue(r: Record, i: nat)
    requires AllStorable(r) && i < |r|
    ensures PayloadSize(r[..i + 1]) == PayloadSize(r[..i]) + ValueSize(r[i]) <= PayloadSize(r)
    ensures RecordBytes(r[..i + 1]) == RecordBytes(r[..i]) + ValueBytes(r[i])
  {
    hide ValueBytes, ValueSize, Storable;
    RecordSplit(r[..i], [r[i]]);
    assert r[..i] + [r[i]] == r[..i + 1];
    RecordSplit(r[..i + 1], r[i + 1..]);
    assert r[..i + 1] + r[i + 1..] == r;
    assert RecordBytes([r[i]]) == ValueBytes(r[i]) + [];
  }

  lemma {:induction false} RecordSplit(r: Record, t: Record)
    requires AllStorable(r) && AllStorable(t)
    ensures RecordBytes(r + t) == RecordBytes(r) + RecordBytes(t)
    ensures PayloadSize(r + t) == PayloadSize(r) + PayloadSize(t)
  {
    hide ValueBytes, ValueSize, Storable;
    if r == [] {
      assert r + t == t;
    } else {
      RecordSplit(r[1..], t);
      assert (r + t)[0] == r[0] && (r + t)[1..] == r[1..] + t;
    }
  }
}
