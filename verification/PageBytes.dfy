/** The bytes of a slotted page and the page value they stand for. */
module PageBytes {
  import opened Model
  import opened Versions
  import opened Pages
  import opened Bytes

  type Schema = seq<ColumnType>

  // ---------------------------------------------------------------- records

  /** What a value needs to be stored: lengths of one byte, 64-bit integers. */
  predicate Storable(v: Value) {
    match v
    case Str(t) => |t| < 256
    case Int(n) => IsInt64(n)
    case Rid(_) => true
  }

  predicate AllStorable(r: Record) {
    forall i :: 0 <= i < |r| ==> Storable(r[i])
  }

  /** The columns of a stored record are those of the schema without its RID columns. */
  predicate Matches(r: Record, schema: Schema) {
    if schema == [] then r == []
    else if schema[0] == RidColumn then Matches(r, schema[1..])
    else r != [] && HasType(r[0], schema[0]) && Storable(r[0]) && Matches(r[1..], schema[1..])
  }

  function ValueBytes(v: Value): (s: seq<byte>)
    requires Storable(v)
    ensures |s| == ValueSize(v)
  {
    match v
    case Str(t) => [|t|] + t
    case Int(n) => Int64(n)
    case Rid(_) => []
  }

  function RecordBytes(r: Record): (s: seq<byte>)
    requires AllStorable(r)
    ensures |s| == PayloadSize(r)
  {
    if r == [] then [] else ValueBytes(r[0]) + RecordBytes(r[1..])
  }

  lemma {:induction false} MatchesStorable(r: Record, schema: Schema)
    requires Matches(r, schema)
    ensures AllStorable(r) && Stored(r) == r
  {
    if schema != [] {
      if schema[0] == RidColumn {
        MatchesStorable(r, schema[1..]);
      } else {
        MatchesStorable(r[1..], schema[1..]);
        assert r == [r[0]] + r[1..];
      }
    }
  }

  /** RIDs take no bytes. */
  lemma {:induction false} StoredBytes(r: Record)
    requires AllStorable(Stored(r))
    ensures AllStorable(r) && RecordBytes(Stored(r)) == RecordBytes(r)
  {
    if r != [] {
      if r[0].Rid? {
        assert Stored(r) == Stored(r[1..]);
        StoredBytes(r[1..]);
      } else {
        assert Stored(r)[0] == r[0] && Stored(r)[1..] == Stored(r[1..]);
        StoredBytes(r[1..]);
      }
    }
  }

  // ---------------------------------------------------------------- versions

  predicate IsRid32(r: RID) {
    IsInt32(r.pageNum) && IsInt32(r.dirSlot)
  }

  predicate HeaderFits(h: Header) {
    h.tMin < TWO63 && h.tMax < TWO63 && IsRid32(h.next) && IsRid32(h.first)
  }

  function RidBytes(r: RID): (s: seq<byte>)
    requires IsRid32(r)
    ensures |s| == 8
  {
    Int32(r.pageNum) + Int32(r.dirSlot)
  }

  function HeaderBytes(h: Header): (s: seq<byte>)
    requires HeaderFits(h)
    ensures |s| == TUPLE_HEADER_SIZE
  {
    Int64(h.tMin) + Int64(h.tMax) + RidBytes(h.next) + RidBytes(h.first)
  }

  predicate VersionFits(v: Version, schema: Schema) {
    HeaderFits(v.header) && Matches(v.record, schema) && AllStorable(v.record)
  }

  function VersionBytes(v: Version): (s: seq<byte>)
    requires HeaderFits(v.header) && AllStorable(v.record)
    ensures |s| == SlotBytes(Live(v))
  {
    HeaderBytes(v.header) + RecordBytes(v.record)
  }

  // ---------------------------------------------------------------- pages

  function DirOffset(i: int): int {
    HEADER_SIZE + DIR_SIZE * i
  }

  function DirAt(b: seq<byte>, i: int): int
    requires 0 <= i && DirOffset(i) + 4 <= |b|
  {
    Int32At(b, DirOffset(i))
  }

  /** Slot `i` is marked as deleted, or its entry points at the bytes of its version above `low`. */
  ghost predicate SlotStored(b: seq<byte>, schema: Schema, low: int, i: int, slot: Slot)
    requires |b| == PAGE_SIZE && 0 <= i && DirOffset(i) + 4 <= low
  {
    DirOffset(i) + 4 <= |b| &&
    var d := DirAt(b, i);
    match slot
    case Dead => d < 0
    case Live(v) =>
      && VersionFits(v, schema) && low <= d && d + SlotBytes(slot) <= |b|
      && At(b, d, SlotBytes(slot)) == VersionBytes(v)
  }

  /** The lowest byte a record may use. */
  function Low(p: HeapPage): int {
    DirOffset(|p.slots|) + p.free
  }

  ghost predicate Apart(b: seq<byte>, slots: seq<Slot>, i: int, j: int)
    requires |b| == PAGE_SIZE && 0 <= i < |slots| && 0 <= j < |slots| && DirOffset(|slots|) <= |b|
  {
    DirAt(b, i) + SlotBytes(slots[i]) <= DirAt(b, j) || DirAt(b, j) + SlotBytes(slots[j]) <= DirAt(b, i)
  }

  ghost predicate AllApart(b: seq<byte>, slots: seq<Slot>)
    requires |b| == PAGE_SIZE && DirOffset(|slots|) <= |b|
  {
    forall i, j :: 0 <= i < j < |slots| && slots[i].Live? && slots[j].Live? ==> Apart(b, slots, i, j)
  }

  ghost predicate AllStored(b: seq<byte>, schema: Schema, p: HeapPage)
    requires |b| == PAGE_SIZE
  {
    forall i :: 0 <= i < |p.slots| ==> SlotStored(b, schema, Low(p), i, p.slots[i])
  }

  /** The layout invariant: `b` holds exactly the page value `p`, and no two records overlap. */
  ghost predicate Represents(b: seq<byte>, schema: Schema, p: HeapPage) {
    && |b| == PAGE_SIZE && Fits(p) && Low(p) <= PAGE_SIZE
    && Int32At(b, 0) == |p.slots| && Int32At(b, 4) == p.free
    && AllStored(b, schema, p) && AllApart(b, p.slots)
  }

  /** A slot whose directory entry and record are where they were is the same slot. */
  lemma SlotKept(b: seq<byte>, b': seq<byte>, schema: Schema, low: int, low': int, i: int, slot: Slot)
    requires |b| == |b'| == PAGE_SIZE && 0 <= i && DirOffset(i) + 4 <= low && DirOffset(i) + 4 <= low' <= low
    requires SlotStored(b, schema, low, i, slot) && At(b', DirOffset(i), 4) == At(b, DirOffset(i), 4)
    requires slot.Live? ==> At(b', DirAt(b, i), SlotBytes(slot)) == At(b, DirAt(b, i), SlotBytes(slot))
    ensures SlotStored(b', schema, low', i, slot) && DirAt(b', i) == DirAt(b, i)
  {
  }

  /** What an insert writes, in its order. */
  function InsertedBytes(b: seq<byte>, dirCount: int, free: int, k: int, offset: int, v: seq<byte>): (b': seq<byte>)
    requires |b| == PAGE_SIZE && 0 <= k < dirCount && DirOffset(dirCount) <= |b|
    requires IsInt32(free) && 0 <= offset && offset + |v| <= |b|
    ensures |b'| == |b|
  {
    Write(Write(Write(Write(b, 0, Int32(dirCount)), 4, Int32(free)), DirOffset(k), Int32(offset)), offset, v)
  }

  lemma InsertedWindows(b: seq<byte>, dirCount: int, free: int, k: int, offset: int, v: seq<byte>)
    requires |b| == PAGE_SIZE && 0 <= k < dirCount && DirOffset(dirCount) <= offset
    requires IsInt32(free) && offset + |v| <= |b|
    ensures var b' := InsertedBytes(b, dirCount, free, k, offset, v);
      && Int32At(b', 0) == dirCount && Int32At(b', 4) == free && DirAt(b', k) == offset && At(b', offset, |v|) == v
    ensures var b' := InsertedBytes(b, dirCount, free, k, offset, v);
      forall o, n | HEADER_SIZE <= o && 0 <= n && o + n <= |b| && (o + n <= DirOffset(k) || DirOffset(k) + 4 <= o)
        && (o + n <= offset || offset + |v| <= o) :: At(b', o, n) == At(b, o, n)
  {
    var b1 := Write(b, 0, Int32(dirCount));
    var b2 := Write(b1, 4, Int32(free));
    var b3 := Write(b2, DirOffset(k), Int32(offset));
    var b' := Write(b3, offset, v);
    ReadWrite(b, 0, Int32(dirCount), 0, 0);
    ReadWrite(b1, 4, Int32(free), 0, 4);
    ReadWrite(b2, DirOffset(k), Int32(offset), 0, 4);
    ReadWrite(b2, DirOffset(k), Int32(offset), 4, 4);
    ReadWrite(b3, offset, v, 0, 4);
    ReadWrite(b3, offset, v, 4, 4);
    ReadWrite(b3, offset, v, DirOffset(k), 4);
    Int32Read(b', 0, dirCount);
    Int32Read(b', 4, free);
    Int32Read(b', DirOffset(k), offset);
    forall o, n | HEADER_SIZE <= o && 0 <= n && o + n <= |b| && (o + n <= DirOffset(k) || DirOffset(k) + 4 <= o)
        && (o + n <= offset || offset + |v| <= o)
      ensures At(b', o, n) == At(b, o, n)
    {
      ReadWrite(b, 0, Int32(dirCount), o, n);
      ReadWrite(b1, 4, Int32(free), o, n);
      ReadWrite(b2, DirOffset(k), Int32(offset), o, n);
      ReadWrite(b3, offset, v, o, n);
    }
  }

  /** The page value after an insert at slot `k`. */
  function Inserted(p: HeapPage, k: nat, v: Version): HeapPage
    requires k <= |p.slots| && SlotBytes(Live(v)) + (if k < |p.slots| then 0 else DIR_SIZE) <= p.free
  {
    Put(p, k, v).(free := p.free - SlotBytes(Live(v)) - (if k < |p.slots| then 0 else DIR_SIZE))
  }

  lemma InsertKeepsSlot(b: seq<byte>, b': seq<byte>, schema: Schema, p: HeapPage, k: nat, v: Version, i: nat)
    requires Represents(b, schema, p) && k <= |p.slots|
    requires (k < |p.slots| ==> p.slots[k].Dead?) && VersionFits(v, schema)
    requires SlotBytes(Live(v)) + (if k < |p.slots| then 0 else DIR_SIZE) <= p.free
    requires var p' := Inserted(p, k, v); b' == InsertedBytes(b, |p'.slots|, p'.free, k, Low(p'), VersionBytes(v))
    requires i < |p.slots| && i != k
    ensures var p' := Inserted(p, k, v); SlotStored(b', schema, Low(p'), i, p'.slots[i]) && DirAt(b', i) == DirAt(b, i)
    ensures p.slots[i].Live? ==> DirAt(b, i) >= Low(p)
  {
    var p' := Inserted(p, k, v);
    InsertedWindows(b, |p'.slots|, p'.free, k, Low(p'), VersionBytes(v));
    assert SlotStored(b, schema, Low(p), i, p.slots[i]);
    hide InsertedBytes, VersionBytes, Represents;
    SlotKept(b, b', schema, Low(p), Low(p'), i, p.slots[i]);
  }

  lemma InsertWritesSlot(b: seq<byte>, schema: Schema, p: HeapPage, k: nat, v: Version)
    requires Represents(b, schema, p) && k <= |p.slots| && VersionFits(v, schema)
    requires SlotBytes(Live(v)) + (if k < |p.slots| then 0 else DIR_SIZE) <= p.free
    ensures var p' := Inserted(p, k, v);
      var b' := InsertedBytes(b, |p'.slots|, p'.free, k, Low(p'), VersionBytes(v));
      && Int32At(b', 0) == |p'.slots| && Int32At(b', 4) == p'.free
      && SlotStored(b', schema, Low(p'), k, Live(v)) && DirAt(b', k) == Low(p')
  {
    var p' := Inserted(p, k, v);
    InsertedWindows(b, |p'.slots|, p'.free, k, Low(p'), VersionBytes(v));
    hide InsertedBytes, VersionBytes, Fits, AllStored, AllApart;
  }

  /** The writes of an insert lead to the page value with the new version: nothing live is overwritten. */
  lemma InsertLayout(b: seq<byte>, schema: Schema, p: HeapPage, k: nat, v: Version)
    requires Represents(b, schema, p) && k <= |p.slots|
    requires (k < |p.slots| ==> p.slots[k].Dead?) && VersionFits(v, schema)
    requires SlotBytes(Live(v)) + (if k < |p.slots| then 0 else DIR_SIZE) <= p.free && Fits(Inserted(p, k, v))
    ensures var p' := Inserted(p, k, v);
      Represents(InsertedBytes(b, |p'.slots|, p'.free, k, Low(p'), VersionBytes(v)), schema, p')
  {
    hide InsertedBytes, VersionBytes, SlotStored, Fits, DirAt, HeaderFits, AllStorable, Matches;
    var p' := Inserted(p, k, v);
    var b' := InsertedBytes(b, |p'.slots|, p'.free, k, Low(p'), VersionBytes(v));
    InsertWritesSlot(b, schema, p, k, v);
    forall i | 0 <= i < |p.slots| && i != k
      ensures SlotStored(b', schema, Low(p'), i, p'.slots[i]) && DirAt(b', i) == DirAt(b, i)
      ensures p.slots[i].Live? ==> DirAt(b, i) >= Low(p)
    {
      InsertKeepsSlot(b, b', schema, p, k, v, i);
    }
    InsertApart(b, b', p.slots, p'.slots, k, Low(p'), Low(p));
  }

  /** A record in front of all others is apart from them. */
  lemma InsertApart(b: seq<byte>, b': seq<byte>, slots: seq<Slot>, slots': seq<Slot>, k: nat, offset: int, low: int)
    requires |b| == |b'| == PAGE_SIZE && DirOffset(|slots|) <= DirOffset(|slots'|) <= PAGE_SIZE && AllApart(b, slots)
    requires k < |slots'| && DirAt(b', k) == offset && offset + SlotBytes(slots'[k]) <= low
    requires forall i :: 0 <= i < |slots'| && i != k ==>
      i < |slots| && slots'[i] == slots[i] && DirAt(b', i) == DirAt(b, i)
    requires forall i :: 0 <= i < |slots'| && i != k && i < |slots| && slots[i].Live? ==> DirAt(b, i) >= low
    ensures AllApart(b', slots')
  {
    forall i, j | 0 <= i < j < |slots'| && slots'[i].Live? && slots'[j].Live? ensures Apart(b', slots', i, j) {
      if i != k && j != k { assert Apart(b, slots, i, j); }
    }
  }

  /** The version that an insert by `tx` writes, and the page with it. */
  lemma InsertValue(p: HeapPage, n: nat, record: Record, tx: TxID, first: Option<RID>, k: nat, v: Version)
    requires p.free >= Needed(p, PayloadSize(record)) && k == FreeSlot(p.slots)
    requires v == NewVersion(record, RID(n, k), tx, first)
    ensures k <= |p.slots| && (k < |p.slots| ==> p.slots[k].Dead?) && v.record == Stored(record)
    ensures SlotBytes(Live(v)) + (if k < |p.slots| then 0 else DIR_SIZE) == Needed(p, PayloadSize(record))
    ensures PageAfterInsert(p, n, record, tx, first) == Some(Inserted(p, k, v))
    ensures Fits(p) ==> Fits(Inserted(p, k, v))
  {
    hide Stored, Fits;
    StoredSize(record);
    if Fits(p) { InsertedFits(p, n, record, tx, first); }
  }

  lemma NewVersionFits(record: Record, schema: Schema, rid: RID, tx: TxID, first: Option<RID>)
    requires Matches(Stored(record), schema) && tx < TWO63 && IsRid32(rid) && (first.Some? ==> IsRid32(first.value))
    ensures AllStorable(record)
    ensures var v := NewVersion(record, rid, tx, first);
      VersionFits(v, schema) && VersionBytes(v) == HeaderBytes(v.header) + RecordBytes(record)
  {
    hide Stored, Matches, RecordBytes, HeaderBytes, AllStorable;
    MatchesStorable(Stored(record), schema);
    StoredBytes(record);
  }

  /** The bytes of an insert that finds room stand for `PageAfterInsert`. */
  lemma InsertRepresents(b: seq<byte>, schema: Schema, p: HeapPage, n: nat, record: Record, tx: TxID,
                         first: Option<RID>,
                         k: nat, v: Version, p': HeapPage)
    requires Represents(b, schema, p) && Matches(Stored(record), schema)
    requires tx < TWO63 && IsInt32(n) && (first.Some? ==> IsRid32(first.value))
    requires p.free >= Needed(p, PayloadSize(record)) && k == FreeSlot(p.slots)
    requires v == NewVersion(record, RID(n, k), tx, first)
    requires PageAfterInsert(p, n, record, tx, first) == Some(p')
    ensures |p'.slots| == if k < |p.slots| then |p.slots| else k + 1
    ensures |p'.slots| <= MAX_SLOTS && IsInt32(p'.free)
    ensures p'.free == p.free - Needed(p, PayloadSize(record)) && VersionFits(v, schema)
    ensures Low(p') + |VersionBytes(v)| <= PAGE_SIZE && DirOffset(|p'.slots|) <= Low(p')
    ensures Represents(InsertedBytes(b, |p'.slots|, p'.free, k, Low(p'), VersionBytes(v)), schema, p')
  {
    hide Represents, NewVersion, PageAfterInsert, FreeSlot, Fits, InsertedBytes, VersionBytes, Stored, Matches,
      AllStorable;
    RepresentedSlots(b, schema, p);
    InsertValue(p, n, record, tx, first, k, v);
    NewVersionFits(record, schema, RID(n, k), tx, first);
    InsertLayout(b, schema, p, k, v);
  }

  lemma RepresentedSlots(b: seq<byte>, schema: Schema, p: HeapPage)
    requires Represents(b, schema, p)
    ensures |p.slots| <= MAX_SLOTS && Fits(p) && Low(p) <= |b| == PAGE_SIZE
  {
  }

  // ---------------------------------------------------------------- changes of one slot

  /** A directory entry becomes -2: the slot is dead, all else is as before. */
  lemma DeleteLayout(b: seq<byte>, schema: Schema, p: HeapPage, k: nat)
    requires Represents(b, schema, p) && k < |p.slots|
    ensures Represents(Write(b, DirOffset(k), Int32(-2)), schema, p.(slots := p.slots[k := Dead]))
  {
    hide Fits, Matches;
    ChangedFits(p, k, Dead);
    var b', p' := Write(b, DirOffset(k), Int32(-2)), p.(slots := p.slots[k := Dead]);
    ReadWrite(b, DirOffset(k), Int32(-2), 0, 4);
    ReadWrite(b, DirOffset(k), Int32(-2), 4, 4);
    Int32Read(b', DirOffset(k), -2);
    forall i | 0 <= i < |p.slots| && i != k
      ensures SlotStored(b', schema, Low(p'), i, p'.slots[i]) && DirAt(b', i) == DirAt(b, i) {
      assert SlotStored(b, schema, Low(p), i, p.slots[i]);
      ReadWrite(b, DirOffset(k), Int32(-2), DirOffset(i), 4);
      if p.slots[i].Live? { ReadWrite(b, DirOffset(k), Int32(-2), DirAt(b, i), SlotBytes(p.slots[i])); }
      SlotKept(b, b', schema, Low(p), Low(p'), i, p.slots[i]);
    }
    hide SlotStored;
    KeptApart(b, b', p.slots, p'.slots);
  }

  lemma KeptApart(b: seq<byte>, b': seq<byte>, slots: seq<Slot>, slots': seq<Slot>)
    requires |b| == |b'| == PAGE_SIZE && |slots'| <= |slots| && DirOffset(|slots|) <= PAGE_SIZE && AllApart(b, slots)
    requires forall i :: 0 <= i < |slots'| && slots'[i].Live? ==>
      slots[i].Live? && SlotBytes(slots'[i]) == SlotBytes(slots[i]) && DirAt(b', i) == DirAt(b, i)
    ensures AllApart(b', slots')
  {
    forall i, j | 0 <= i < j < |slots'| && slots'[i].Live? && slots'[j].Live? ensures Apart(b', slots', i, j) {
      assert Apart(b, slots, i, j);
    }
  }

  /** New bytes for one version of the same size, in its old place. */
  lemma RewriteLayout(b: seq<byte>, schema: Schema, p: HeapPage, k: nat, v: Version)
    requires Represents(b, schema, p) && k < |p.slots| && p.slots[k].Live? && v.record == p.slots[k].v.record
    requires HeaderFits(v.header)
    ensures DirAt(b, k) + SlotBytes(p.slots[k]) <= PAGE_SIZE && DirAt(b, k) >= 0 && VersionFits(p.slots[k].v, schema)
    ensures Represents(Write(b, DirAt(b, k), VersionBytes(v)), schema, p.(slots := p.slots[k := Live(v)]))
  {
    hide Fits, Matches;
    ChangedFits(p, k, Live(v));
    assert SlotStored(b, schema, Low(p), k, p.slots[k]);
    var d, s := DirAt(b, k), VersionBytes(v);
    var b', p' := Write(b, d, s), p.(slots := p.slots[k := Live(v)]);
    ReadWrite(b, d, s, 0, 4);
    ReadWrite(b, d, s, 4, 4);
    forall i | 0 <= i < |p.slots|
      ensures SlotStored(b', schema, Low(p'), i, p'.slots[i]) && DirAt(b', i) == DirAt(b, i) {
      ReadWrite(b, d, s, DirOffset(i), 4);
      if i != k {
        assert SlotStored(b, schema, Low(p), i, p.slots[i]);
        if p.slots[i].Live? {
          assert Apart(b, p.slots, if i < k then i else k, if i < k then k else i);
          ReadWrite(b, d, s, DirAt(b, i), SlotBytes(p.slots[i]));
        }
        SlotKept(b, b', schema, Low(p), Low(p'), i, p.slots[i]);
      } else {
        ReadWrite(b, d, s, d, |s|);
      }
    }
    hide SlotStored;
    KeptApart(b, b', p.slots, p'.slots);
  }

  /** Linking a newer version rewrites the second and third field of a header. */
  lemma LinkBytes(v: Version, tx: TxID, newer: RID)
    requires HeaderFits(v.header) && AllStorable(v.record) && tx < TWO63 && IsRid32(newer)
    ensures Write(VersionBytes(v), 8, Int64(tx) + Int32(newer.pageNum) + Int32(newer.dirSlot))
         == VersionBytes(v.(header := Superseded(v.header, tx, newer)))
  {
    hide Int32, Int64, RecordBytes;
  }

  lemma RootBytes(v: Version, first: RID)
    requires HeaderFits(v.header) && AllStorable(v.record) && IsRid32(first)
    ensures Write(VersionBytes(v), 24, Int32(first.pageNum) + Int32(first.dirSlot))
         == VersionBytes(v.(header := v.header.(first := first)))
  {
    hide Int32, Int64, RecordBytes;
  }

  /** Rewriting some bytes of a version inside its page. */
  lemma PatchLayout(b: seq<byte>, schema: Schema, p: HeapPage, k: nat, v: Version, o: nat, t: seq<byte>)
    requires Represents(b, schema, p) && k < |p.slots| && p.slots[k].Live? && v.record == p.slots[k].v.record
    requires HeaderFits(v.header) && VersionFits(p.slots[k].v, schema) && o + |t| <= SlotBytes(p.slots[k])
    requires Write(VersionBytes(p.slots[k].v), o, t) == VersionBytes(v)
    ensures 0 <= DirAt(b, k) && DirAt(b, k) + SlotBytes(p.slots[k]) <= |b|
    ensures Represents(Write(b, DirAt(b, k) + o, t), schema, p.(slots := p.slots[k := Live(v)]))
  {
    RewriteLayout(b, schema, p, k, v);
    assert SlotStored(b, schema, Low(p), k, p.slots[k]);
    hide Represents, VersionBytes, Write;
    WriteInside(b, DirAt(b, k), VersionBytes(p.slots[k].v), o, t);
  }

  // ---------------------------------------------------------------- reading

  /** At `offset` stand the values of `rest`, for the columns of `schema`. */
  ghost predicate Reading(b: seq<byte>, offset: int, rest: Record, schema: Schema) {
    && AllStorable(rest) && Matches(rest, schema) && 0 <= offset && offset + PayloadSize(rest) <= |b|
    && At(b, offset, PayloadSize(rest)) == RecordBytes(rest)
  }

  /** What the loop over the columns finds for the next one. */
  lemma ReadColumn(b: seq<byte>, offset: int, rest: Record, schema: Schema)
    requires Reading(b, offset, rest, schema) && schema != []
    ensures offset >= 0
    ensures schema[0] == RidColumn ==> Reading(b, offset, rest, schema[1..])
    ensures schema[0] == IntColumn ==>
      rest != [] && offset + 8 <= |b| && rest[0] == Int(Int64At(b, offset))
        && Reading(b, offset + 8, rest[1..], schema[1..])
    ensures schema[0] == StrColumn ==>
      && rest != [] && offset + 1 <= |b| && offset + 1 + b[offset] <= |b|
      && rest[0] == Str(At(b, offset + 1, b[offset])) && Reading(b, offset + 1 + b[offset], rest[1..], schema[1..])
  {
    if schema[0] != RidColumn {
      ReadRest(b, offset, rest, schema);
      hide Reading, Int64, Matches, RecordBytes;
      if schema[0] == IntColumn {
        Int64Read(b, offset, rest[0].n);
      } else {
        assert b[offset] == At(b, offset, ValueSize(rest[0]))[0] == |rest[0].text|;
        assert At(b, offset, ValueSize(rest[0]))[1..] == rest[0].text;
        AtAt(b, offset, ValueBytes(rest[0]), 1, |rest[0].text|);
      }
    }
  }

  /** The first value of a record, and the others behind it. */
  lemma ReadRest(b: seq<byte>, offset: int, rest: Record, schema: Schema)
    requires Reading(b, offset, rest, schema) && schema != [] && schema[0] != RidColumn
    ensures rest != [] && HasType(rest[0], schema[0]) && Storable(rest[0]) && offset + ValueSize(rest[0]) <= |b|
    ensures At(b, offset, ValueSize(rest[0])) == ValueBytes(rest[0])
    ensures Reading(b, offset + ValueSize(rest[0]), rest[1..], schema[1..])
  {
    hide ValueBytes, ValueSize, Storable;
    var s, n := RecordBytes(rest), ValueSize(rest[0]);
    assert s[..n] == ValueBytes(rest[0]) && s[n..] == RecordBytes(rest[1..]);
    AtAt(b, offset, s, 0, n);
    AtAt(b, offset, s, n, |s| - n);
  }

  /** The fields of a header, at their offsets. */
  lemma HeaderFields(b: seq<byte>, d: int, v: Version)
    requires HeaderFits(v.header) && AllStorable(v.record) && 0 <= d && d + SlotBytes(Live(v)) <= |b|
    requires At(b, d, SlotBytes(Live(v))) == VersionBytes(v)
    ensures Int64At(b, d) == v.header.tMin && Int64At(b, d + 8) == v.header.tMax
    ensures RID(Int32At(b, d + 16), Int32At(b, d + 20)) == v.header.next
    ensures RID(Int32At(b, d + 24), Int32At(b, d + 28)) == v.header.first
    ensures At(b, d + TUPLE_HEADER_SIZE, PayloadSize(v.record)) == RecordBytes(v.record)
  {
    var h, s := v.header, VersionBytes(v);
    HeaderSlices(h, RecordBytes(v.record));
    AtAt(b, d, s, 0, 8);
    AtAt(b, d, s, 8, 8);
    AtAt(b, d, s, 16, 4);
    AtAt(b, d, s, 20, 4);
    AtAt(b, d, s, 24, 4);
    AtAt(b, d, s, 28, 4);
    AtAt(b, d, s, 32, |s| - 32);
    Int64Read(b, d, h.tMin);
    Int64Read(b, d + 8, h.tMax);
    Int32Read(b, d + 16, h.next.pageNum);
    Int32Read(b, d + 20, h.next.dirSlot);
    Int32Read(b, d + 24, h.first.pageNum);
    Int32Read(b, d + 28, h.first.dirSlot);
  }

  lemma HeaderSlices(h: Header, r: seq<byte>)
    requires HeaderFits(h)
    ensures var s := HeaderBytes(h) + r;
      && s[0..8] == Int64(h.tMin) && s[8..16] == Int64(h.tMax)
      && s[16..20] == Int32(h.next.pageNum) && s[20..24] == Int32(h.next.dirSlot)
      && s[24..28] == Int32(h.first.pageNum) && s[28..32] == Int32(h.first.dirSlot) && s[32..] == r
  {
    hide Int32, Int64;
  }

  /** Two readings agree on the next column and on where the rest begins. */
  lemma SameColumn(b: seq<byte>, offset: int, r: Record, r': Record, schema: Schema) returns (next: int)
    requires Reading(b, offset, r, schema) && Reading(b, offset, r', schema) && schema != []
    ensures if schema[0] == RidColumn then Reading(b, next, r, schema[1..]) && Reading(b, next, r', schema[1..])
            else
              && r != [] && r' != [] && r[0] == r'[0]
              && Reading(b, next, r[1..], schema[1..]) && Reading(b, next, r'[1..], schema[1..])
  {
    hide *;
    ReadColumn(b, offset, r, schema);
    ReadColumn(b, offset, r', schema);
    match schema[0] {
      case RidColumn => next := offset;
      case IntColumn => next := offset + 8;
      case StrColumn => next := offset + 1 + b[offset];
    }
  }

  /** Bytes stand for at most one record of a schema. */
  lemma {:induction false} RecordIsUnique(b: seq<byte>, offset: int, r: Record, r': Record, schema: Schema)
    requires Reading(b, offset, r, schema) && Reading(b, offset, r', schema)
    ensures r == r'
    decreases |schema|
  {
    if schema != [] {
      hide Reading;
      var next := SameColumn(b, offset, r, r', schema);
      if schema[0] == RidColumn {
        RecordIsUnique(b, next, r, r', schema[1..]);
      } else {
        RecordIsUnique(b, next, r[1..], r'[1..], schema[1..]);
        assert r == [r[0]] + r[1..] && r' == [r'[0]] + r'[1..];
      }
    } else {
      assert r == [] && r' == [];
    }
  }

  lemma VersionIsUnique(b: seq<byte>, d: int, v: Version, v': Version, schema: Schema)
    requires VersionFits(v, schema) && VersionFits(v', schema) && 0 <= d
    requires d + SlotBytes(Live(v)) <= |b| && At(b, d, SlotBytes(Live(v))) == VersionBytes(v)
    requires d + SlotBytes(Live(v')) <= |b| && At(b, d, SlotBytes(Live(v'))) == VersionBytes(v')
    ensures v == v'
  {
    HeaderFields(b, d, v);
    HeaderFields(b, d, v');
    hide VersionBytes, At, Int64At, Int32At;
    RecordIsUnique(b, d + TUPLE_HEADER_SIZE, v.record, v'.record, schema);
  }

  /** The bytes of a page stand for one page value: everything that was stored can be read back. */
  lemma PageIsUnique(b: seq<byte>, schema: Schema, p: HeapPage, p': HeapPage)
    requires Represents(b, schema, p) && Represents(b, schema, p')
    ensures p == p'
  {
    hide Fits, VersionFits, VersionBytes, Matches, At;
    forall i | 0 <= i < |p.slots| ensures p.slots[i] == p'.slots[i] {
      assert SlotStored(b, schema, Low(p), i, p.slots[i]) && SlotStored(b, schema, Low(p'), i, p'.slots[i]);
      if p.slots[i].Live? { VersionIsUnique(b, DirAt(b, i), p.slots[i].v, p'.slots[i].v, schema); }
    }
  }

  // ---------------------------------------------------------------- vacuum

  lemma {:induction false} LiveBytesPrefix(slots: seq<Slot>, i: nat)
    requires i < |slots|
    ensures LiveBytes(slots[..i + 1]) == LiveBytes(slots[..i]) + SlotBytes(slots[i])
    ensures LiveBytes(slots[..i + 1]) <= LiveBytes(slots)
    decreases |slots| - i
  {
    assert slots[..i + 1][..i] == slots[..i];
    if i + 1 < |slots| { LiveBytesPrefix(slots, i + 1); } else { assert slots[..i + 1] == slots; }
  }

  /** Where vacuum puts the record of slot `j`: records go down from the end of the page, in slot order. */
  function Packed(slots: seq<Slot>, j: nat): int
    requires j < |slots|
  {
    PAGE_SIZE - LiveBytes(slots[..j + 1])
  }

  lemma {:induction false} PackedOrder(slots: seq<Slot>, i: nat, j: nat)
    requires i < j < |slots|
    ensures Packed(slots, j) + SlotBytes(slots[j]) <= Packed(slots, i)
  {
    LiveBytesPrefix(slots, j);
    if i + 1 < j { PackedOrder(slots, i, j - 1); }
  }

  /** Slot `j` was copied to the scratch buffer `s`. */
  ghost predicate Copied(s: seq<byte>, slots: seq<Slot>, j: nat)
    requires j < |slots| && |s| == PAGE_SIZE && DirOffset(|slots|) <= PAGE_SIZE
  {
    match slots[j]
    case Dead => DirAt(s, j) == -1
    case Live(v) =>
      && DirAt(s, j) == Packed(slots, j) && HeaderFits(v.header) && AllStorable(v.record)
      && DirOffset(|slots|) <= Packed(slots, j) <= PAGE_SIZE - SlotBytes(slots[j])
      && At(s, Packed(slots, j), SlotBytes(slots[j])) == VersionBytes(v)
  }

  ghost predicate AllCopied(s: seq<byte>, slots: seq<Slot>, n: nat) {
    && n <= |slots| && |s| == PAGE_SIZE && DirOffset(|slots|) + LiveBytes(slots) <= PAGE_SIZE
    && forall j :: 0 <= j < n ==> Copied(s, slots, j)
  }

  /** Writes behind the directory entries and below the records of earlier slots do not concern those. */
  lemma CopiedKept(s: seq<byte>, s': seq<byte>, slots: seq<Slot>, j: nat)
    requires j < |slots| && |s| == |s'| == PAGE_SIZE && DirOffset(|slots|) <= PAGE_SIZE && Copied(s, slots, j)
    requires At(s', DirOffset(j), 4) == At(s, DirOffset(j), 4)
    requires slots[j].Live? ==>
      At(s', Packed(slots, j), SlotBytes(slots[j])) == At(s, Packed(slots, j), SlotBytes(slots[j]))
    ensures Copied(s', slots, j)
  {
  }

  lemma CopyDead(s: seq<byte>, slots: seq<Slot>, i: nat)
    requires AllCopied(s, slots, i) && i < |slots| && slots[i].Dead?
    ensures AllCopied(Write(s, DirOffset(i), Int32(-1)), slots, i + 1)
  {
    var t := Int32(-1);
    var s' := Write(s, DirOffset(i), t);
    ReadWrite(s, DirOffset(i), t, 0, 0);
    Int32Read(s', DirOffset(i), -1);
    assert Copied(s', slots, i);
    forall j | 0 <= j < i ensures Copied(s', slots, j) {
      assert Copied(s, slots, j);
      ReadWrite(s, DirOffset(i), t, DirOffset(j), 4);
      if slots[j].Live? { ReadWrite(s, DirOffset(i), t, Packed(slots, j), SlotBytes(slots[j])); }
      hide Copied;
      CopiedKept(s, s', slots, j);
    }
  }

  lemma CopyLive(s: seq<byte>, slots: seq<Slot>, i: nat, t: seq<byte>)
    requires AllCopied(s, slots, i) && i < |slots| && slots[i].Live?
    requires HeaderFits(slots[i].v.header) && AllStorable(slots[i].v.record) && t == VersionBytes(slots[i].v)
    ensures 0 <= Packed(slots, i) <= PAGE_SIZE - |t| && IsInt32(Packed(slots, i))
    ensures AllCopied(Write(Write(s, DirOffset(i), Int32(Packed(slots, i))), Packed(slots, i), t), slots, i + 1)
  {
    hide LiveBytes, VersionBytes, HeaderFits;
    LiveBytesPrefix(slots, i);
    var offset := Packed(slots, i);
    var s1 := Write(s, DirOffset(i), Int32(offset));
    var s' := Write(s1, offset, t);
    ReadWrite(s, DirOffset(i), Int32(offset), 0, 0);
    ReadWrite(s1, offset, t, DirOffset(i), 4);
    Int32Read(s', DirOffset(i), offset);
    assert Copied(s', slots, i);
    forall j | 0 <= j < i ensures Copied(s', slots, j) {
      assert Copied(s, slots, j);
      ReadWrite(s, DirOffset(i), Int32(offset), DirOffset(j), 4);
      ReadWrite(s1, offset, t, DirOffset(j), 4);
      if slots[j].Live? {
        PackedOrder(slots, j, i);
        ReadWrite(s, DirOffset(i), Int32(offset), Packed(slots, j), SlotBytes(slots[j]));
        ReadWrite(s1, offset, t, Packed(slots, j), SlotBytes(slots[j]));
      }
      hide Copied;
      CopiedKept(s, s', slots, j);
    }
  }

  /** The number of slots that vacuum keeps: one more than the last live one, or one. */
  lemma {:induction false} TrimmedAt(slots: seq<Slot>, last: nat)
    requires last < |slots| && (last > 0 ==> slots[last].Live?) && forall j :: last < j < |slots| ==> slots[j].Dead?
    ensures Trimmed(slots) == slots[..last + 1] && LiveBytes(slots[..last + 1]) == LiveBytes(slots)
  {
    if last == |slots| - 1 {
      assert slots[..last + 1] == slots;
    } else {
      TrimmedAt(slots[..|slots| - 1], last);
      assert slots[..|slots| - 1][..last + 1] == slots[..last + 1];
    }
  }

  ghost predicate AllVersionsFit(slots: seq<Slot>, schema: Schema) {
    forall i :: 0 <= i < |slots| && slots[i].Live? ==> VersionFits(slots[i].v, schema)
  }

  lemma RepresentedFit(b: seq<byte>, schema: Schema, p: HeapPage)
    requires Represents(b, schema, p)
    ensures AllVersionsFit(p.slots, schema) && DirOffset(|p.slots|) + LiveBytes(p.slots) <= PAGE_SIZE
  {
    forall i | 0 <= i < |p.slots| && p.slots[i].Live? ensures VersionFits(p.slots[i].v, schema) {
      assert SlotStored(b, schema, Low(p), i, p.slots[i]);
    }
  }

  /** The page header over the scratch buffer completes the vacuum; `last` is the last slot that is kept. */
  lemma VacuumLayout(s: seq<byte>, schema: Schema, p: HeapPage, last: nat)
    requires Fits(p) && AllCopied(s, p.slots, |p.slots|) && AllVersionsFit(p.slots, schema)
    requires last < |p.slots| && (last > 0 ==> p.slots[last].Live?)
    requires forall j :: last < j < |p.slots| ==> p.slots[j].Dead?
    ensures var dirCount, free := last + 1, EMPTY_FREE - DIR_SIZE * (last + 1) - LiveBytes(p.slots);
      IsInt32(free) && Represents(Headed(s, dirCount, free), schema, Vacuumed(p))
  {
    hide Fits, Vacuumed, Copied, SlotStored, LiveBytes, VersionFits, SlotBytes, AllStored, AllApart, Headed, Represents;
    VacuumedValue(p, last);
    var p' := Vacuumed(p);
    var b := Headed(s, last + 1, p'.free);
    HeadedWindows(s, last + 1, p'.free);
    AllPacked(s, b, schema, p, p', last);
    Assemble(b, schema, p');
  }

  lemma Assemble(b: seq<byte>, schema: Schema, p: HeapPage)
    requires |b| == PAGE_SIZE && Fits(p) && Low(p) <= PAGE_SIZE && Int32At(b, 0) == |p.slots| && Int32At(b, 4) == p.free
    requires AllStored(b, schema, p) && AllApart(b, p.slots)
    ensures Represents(b, schema, p)
  {
  }

  lemma VacuumedValue(p: HeapPage, last: nat)
    requires Fits(p) && DirOffset(|p.slots|) + LiveBytes(p.slots) <= PAGE_SIZE
    requires last < |p.slots| && (last > 0 ==> p.slots[last].Live?)
    requires forall j :: last < j < |p.slots| ==> p.slots[j].Dead?
    ensures Vacuumed(p) == HeapPage(p.slots[..last + 1], EMPTY_FREE - DIR_SIZE * (last + 1) - LiveBytes(p.slots))
    ensures Fits(Vacuumed(p)) && Low(Vacuumed(p)) == PAGE_SIZE - LiveBytes(p.slots) && IsInt32(Vacuumed(p).free)
  {
    TrimmedAt(p.slots, last);
    hide LiveBytes;
  }

  lemma AllPacked(s: seq<byte>, b: seq<byte>, schema: Schema, p: HeapPage, p': HeapPage, last: nat)
    requires AllCopied(s, p.slots, |p.slots|) && AllVersionsFit(p.slots, schema) && |b| == PAGE_SIZE && last < |p.slots|
    requires p'.slots == p.slots[..last + 1] && Low(p') == PAGE_SIZE - LiveBytes(p.slots)
    requires forall o, k | HEADER_SIZE <= o && 0 <= k && o + k <= |s| :: At(b, o, k) == At(s, o, k)
    ensures AllStored(b, schema, p') && AllApart(b, p'.slots)
  {
    hide LiveBytes, VersionFits, Copied, SlotStored, SlotBytes;
    forall i | 0 <= i < last + 1 ensures SlotStored(b, schema, Low(p'), i, p'.slots[i]) && DirAt(b, i) == DirAt(s, i) {
      LiveBytesPrefix(p.slots, i);
      CopiedStored(s, b, schema, p.slots, i, Low(p'));
    }
    PackedApart(s, b, p.slots, p'.slots);
  }

  function Headed(s: seq<byte>, n: int, free: int): (b: seq<byte>)
    requires |s| == PAGE_SIZE && IsInt32(n) && IsInt32(free)
    ensures |b| == |s|
  {
    Write(Write(s, 0, Int32(n)), 4, Int32(free))
  }

  lemma HeadedWindows(s: seq<byte>, n: int, free: int)
    requires |s| == PAGE_SIZE && IsInt32(n) && IsInt32(free)
    ensures Int32At(Headed(s, n, free), 0) == n && Int32At(Headed(s, n, free), 4) == free
    ensures forall o, k | HEADER_SIZE <= o && 0 <= k && o + k <= |s| :: At(Headed(s, n, free), o, k) == At(s, o, k)
  {
    var s1 := Write(s, 0, Int32(n));
    ReadWrite(s, 0, Int32(n), 0, 0);
    ReadWrite(s1, 4, Int32(free), 0, 4);
    Int32Read(Headed(s, n, free), 0, n);
    Int32Read(Headed(s, n, free), 4, free);
    forall o, k | HEADER_SIZE <= o && 0 <= k && o + k <= |s| ensures At(Headed(s, n, free), o, k) == At(s, o, k) {
      ReadWrite(s, 0, Int32(n), o, k);
      ReadWrite(s1, 4, Int32(free), o, k);
    }
  }

  lemma CopiedStored(s: seq<byte>, b: seq<byte>, schema: Schema, slots: seq<Slot>, i: nat, low: int)
    requires i < |slots| && |s| == |b| == PAGE_SIZE && DirOffset(|slots|) <= PAGE_SIZE && Copied(s, slots, i)
    requires slots[i].Live? ==> VersionFits(slots[i].v, schema)
    requires DirOffset(i) + 4 <= low <= Packed(slots, i)
    requires forall o, k | HEADER_SIZE <= o && 0 <= k && o + k <= |s| :: At(b, o, k) == At(s, o, k)
    ensures SlotStored(b, schema, low, i, slots[i]) && DirAt(b, i) == DirAt(s, i)
  {
    hide LiveBytes, VersionBytes, HeaderFits, Matches, AllStorable, At;
    assert At(b, DirOffset(i), 4) == At(s, DirOffset(i), 4);
  }

  lemma PackedApart(s: seq<byte>, b: seq<byte>, slots: seq<Slot>, slots': seq<Slot>)
    requires AllCopied(s, slots, |slots|) && |b| == PAGE_SIZE && slots' <= slots
    requires forall i :: 0 <= i < |slots'| ==> DirAt(b, i) == DirAt(s, i)
    ensures AllApart(b, slots')
  {
    forall i, j | 0 <= i < j < |slots'| && slots'[i].Live? && slots'[j].Live? ensures Apart(b, slots', i, j) {
      assert Copied(s, slots, i) && Copied(s, slots, j);
      PackedOrder(slots, i, j);
    }
  }
}
