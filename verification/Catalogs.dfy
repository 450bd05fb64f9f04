/** The catalog file: what one run of the system writes at its end and the next one reads. */
module Catalogs {
  import opened Model
  import opened Bytes

  // ---------------------------------------------------------------- integers

  const TWO64 := 2 * TWO63

  /** A 64-bit pattern read as unsigned or as signed number. */
  function AsSigned(n: int): (s: int)
    requires 0 <= n < TWO64
    ensures IsInt64(s)
  {
    if n < TWO63 then n else n - TWO64
  }

  function AsUnsigned(n: int): (u: int)
    requires IsInt64(n)
    ensures 0 <= u < TWO64
  {
    if n >= 0 then n else n + TWO64
  }

  lemma ConversionsInverse(n: int)
    ensures 0 <= n < TWO64 ==> AsUnsigned(AsSigned(n)) == n
    ensures IsInt64(n) ==> AsSigned(AsUnsigned(n)) == n
  {
  }

  /** Arithmetic shift to the right by `k` bytes: division rounds down. */
  function ShiftRight(n: int, k: nat): int
    decreases k
  {
    if k == 0 then n else ShiftRight(n / 256, k - 1)
  }

  /** The low byte after a shift is the byte of the two's complement. */
  lemma {:induction false} ShiftedByte(n: int, k: nat, i: nat)
    requires 0 - Power256(k) <= n < Power256(k) && i < k
    ensures Signed(n, k)[i] == ShiftRight(n, i) % 256
    decreases k
  {
    SignedStep(n, k);
    if i > 0 { ShiftedByte(n / 256, k - 1, i - 1); }
  }

  lemma SignedStep(n: int, k: nat)
    requires 0 - Power256(k) <= n < Power256(k) && k > 0
    ensures 0 - Power256(k - 1) <= n / 256 < Power256(k - 1)
    ensures Signed(n, k) == [n % 256] + Signed(n / 256, k - 1)
  {
    var p := Power256(k - 1);
    assert Power256(k) == 256 * p;
    assert (n + 256 * p) / 256 == n / 256 + p && (n + 256 * p) % 256 == n % 256;
  }

  lemma {:induction false} FromLeAppend(s: seq<byte>, b: byte)
    ensures FromLe(s + [b]) == FromLe(s) + b * Power256(|s|)
  {
    if s == [] {
      assert s + [b] == [b] && [b][1..] == [];
    } else {
      FromLeAppend(s[1..], b);
      assert (s + [b])[1..] == s[1..] + [b];
      Scale(b, Power256(|s| - 1));
    }
  }

  lemma Scale(b: int, p: int)
    ensures 256 * (b * p) == b * (256 * p)
  {
  }

  // ---------------------------------------------------------------- names

  predicate NameByte(c: byte) {
    97 <= c <= 122 || c == 95
  }

  function Lower(c: byte): byte {
    if 65 <= c <= 90 then c + 32 else c
  }

  function Lowered(name: seq<byte>): (s: seq<byte>)
    ensures |s| == |name| && forall i :: 0 <= i < |s| ==> s[i] == Lower(name[i])
  {
    seq(|name|, i requires 0 <= i < |name| => Lower(name[i]))
  }

  predicate Normalized(name: seq<byte>) {
    forall i :: 0 <= i < |name| ==> NameByte(name[i])
  }

  /** A letter of either case, or an underscore. */
  predicate Allowed(c: byte) {
    'A' as int <= c <= 'Z' as int || 'a' as int <= c <= 'z' as int || c == '_' as int
  }

  /** The same letter in another case, or the same byte. */
  predicate SameLetter(a: byte, b: byte) {
    || a == b
    || ('A' as int <= a <= 'Z' as int && b == a + 32) || ('A' as int <= b <= 'Z' as int && a == b + 32)
  }

  /** Each byte stays, but a capital letter becomes the small one; any other byte than these and '_' is an error. */
  ghost predicate NormalForm(name: seq<byte>, r: Option<seq<byte>>) {
    && (r == None <==> exists i :: 0 <= i < |name| && !Allowed(name[i]))
    && (r.Some? ==>
      && |r.value| == |name|
      && forall i :: 0 <= i < |name| ==>
           r.value[i] == if 'A' as int <= name[i] <= 'Z' as int then name[i] + 32 else name[i])
  }

  /** Lower case letters and underscores only; None stands for the exception. */
  method Normalize(name: seq<byte>) returns (r: Option<seq<byte>>)
    ensures NormalForm(name, r)
    ensures r.Some? ==> Normalized(r.value)
  {
    var res := Lowered(name);
    for i := 0 to |res|
      invariant forall j :: 0 <= j < i ==> NameByte(res[j])
    {
      if !NameByte(res[i]) { return None; }
    }
    return Some(res);
  }

  /** Exactly the names of small letters and underscores stay as they are; to normalize again changes nothing. */
  lemma NormalizeAgain(name: seq<byte>, r: Option<seq<byte>>)
    requires NormalForm(name, r)
    ensures r == Some(name) <==> Normalized(name)
    ensures r.Some? ==> Normalized(r.value) && NormalForm(r.value, r)
  {
    if Normalized(name) {
      assert forall i :: 0 <= i < |name| ==> Allowed(name[i]);
      assert r.value == name;
    }
    if r.Some? {
      forall i | 0 <= i < |name| ensures NameByte(r.value[i]) { assert Allowed(name[i]); }
    }
  }

  /** Two names are the name of one table exactly when they agree letter by letter up to case. */
  lemma NamesMeet(a: seq<byte>, b: seq<byte>, r: Option<seq<byte>>, s: Option<seq<byte>>)
    requires NormalForm(a, r) && NormalForm(b, s) && r.Some? && s.Some?
    ensures r == s <==> |a| == |b| && forall i :: 0 <= i < |a| ==> SameLetter(a[i], b[i])
  {
    if |a| == |b| && forall i :: 0 <= i < |a| ==> SameLetter(a[i], b[i]) {
      forall i | 0 <= i < |a| ensures r.value[i] == s.value[i] {
        assert SameLetter(a[i], b[i]) && (Allowed(a[i]) || r == None) && (Allowed(b[i]) || s == None);
      }
      assert r.value == s.value;
    }
  }

  // ---------------------------------------------------------------- the file

  class File {
    var contents: seq<byte>
    var pos: nat
    var good: bool

    ghost predicate Valid()
      reads this
    {
      pos <= |contents|
    }

    ghost function Ahead(): seq<byte>
      requires Valid()
      reads this
    {
      contents[pos..]
    }

    constructor (contents: seq<byte>)
      ensures Valid() && this.contents == contents && pos == 0 && good
    {
      this.contents, pos, good := contents, 0, true;
    }

    method Rewind()
      modifies this`pos
      ensures pos == 0 && Valid()
    {
      pos := 0;
    }

    /**
     * Reads as many bytes as there are; the rest of the buffer is whatever it was, and the stream is no longer
     * good.
     */
    method Read(n: nat) returns (buf: seq<byte>)
      requires Valid()
      modifies this`pos, this`good
      ensures Valid() && |buf| == n
      ensures n <= old(|Ahead()|) ==> buf == old(Ahead())[..n] && Ahead() == old(Ahead())[n..] && good == old(good)
      ensures n > old(|Ahead()|) ==> !good
    {
      if pos + n <= |contents| {
        buf := contents[pos..pos + n];
        pos := pos + n;
      } else {
        buf := seq(n, _ => 0);
        pos, good := |contents|, false;
      }
    }

    /** Overwrites what is there, and what lies behind stays. */
    method Write(s: seq<byte>)
      requires Valid()
      modifies this`contents, this`pos
      ensures Valid() && pos == old(pos) + |s|
      ensures contents[..pos] == old(contents[..pos]) + s
      ensures Ahead() == if |s| <= old(|Ahead()|) then old(Ahead())[|s|..] else []
    {
      contents := contents[..pos] + s + if pos + |s| <= |contents| then contents[pos + |s|..] else [];
      pos := pos + |s|;
    }

    method WriteInt64(n: int)
      requires Valid() && IsInt64(n)
      modifies this`contents, this`pos
      ensures Valid() && pos == old(pos) + 8
      ensures contents[..pos] == old(contents[..pos]) + Int64(n)
      ensures Ahead() == if 8 <= old(|Ahead()|) then old(Ahead())[8..] else []
    {
      var buf := Encode(n);
      Write(buf);
    }

    /** None when the stream ends early. */
    method ReadInt64() returns (r: Option<int>)
      requires Valid()
      modifies this`pos, this`good
      ensures Valid()
      ensures r == if old(good) && old(|Ahead()|) >= 8 then Some(FromSigned(old(Ahead())[..8])) else None
      ensures r.Some? ==> good && Ahead() == old(Ahead())[8..] && IsInt64(r.value)
    {
      var buf := Read(8);
      var res := Decode(buf);
      return if good then Some(res) else None;
    }
  }

  /** Eight bytes by shifting and masking. */
  method Encode(n: int) returns (buf: seq<byte>)
    requires IsInt64(n)
    ensures buf == Int64(n)
  {
    Powers();
    buf := [];
    for i := 0 to 8
      invariant buf == Signed(n, 8)[..i]
    {
      ShiftedByte(n, 8, i);
      buf := buf + [ShiftRight(n, i) % 256];
    }
  }

  /** The bytes put together again; the highest one carries the sign. */
  method Decode(buf: seq<byte>) returns (n: int)
    requires |buf| == 8
    ensures n == FromSigned(buf) && IsInt64(n)
  {
    Powers();
    SignedOfFromSigned(buf);
    n := 0;
    for i := 0 to 8
      invariant n == FromLe(buf[..i])
    {
      FromLeAppend(buf[..i], buf[i]);
      assert buf[..i + 1] == buf[..i] + [buf[i]];
      n := n + buf[i] * Power256(i);
    }
    assert buf[..8] == buf;
    if 2 * n >= Power256(8) { n := n - Power256(8); }
  }

  // ---------------------------------------------------------------- the catalog and its bytes

  datatype ColumnInfo = ColumnInfo(name: seq<byte>, kind: int)

  datatype TableInfo = TableInfo(name: seq<byte>, columns: seq<ColumnInfo>, cardinality: int)

  type Tables = map<nat, TableInfo>

  predicate Unsigned(n: int) {
    0 <= n < TWO64
  }

  predicate ShortName(name: seq<byte>) {
    |name| < TWO63
  }

  predicate ColumnOk(c: ColumnInfo) {
    ShortName(c.name) && IsInt64(c.kind)
  }

  predicate ColumnsOk(cs: seq<ColumnInfo>) {
    forall i :: 0 <= i < |cs| ==> ColumnOk(cs[i])
  }

  /** Committed tables have normalized names. */
  predicate TableOk(t: TableInfo) {
    ShortName(t.name) && Normalized(t.name) && |t.columns| < TWO63 && ColumnsOk(t.columns) && Unsigned(t.cardinality)
  }

  ghost predicate TablesOk(ts: Tables) {
    |ts| < TWO63 && forall id :: id in ts ==> Unsigned(id) && TableOk(ts[id])
  }

  function StringBytes(name: seq<byte>): seq<byte>
    requires ShortName(name)
  {
    Int64(|name|) + name
  }

  function ColumnsBytes(cs: seq<ColumnInfo>): seq<byte>
    requires ColumnsOk(cs)
  {
    if cs == [] then [] else Int64(cs[0].kind) + (StringBytes(cs[0].name) + ColumnsBytes(cs[1..]))
  }

  function TableBytes(id: nat, t: TableInfo): seq<byte>
    requires Unsigned(id) && TableOk(t)
  {
    StringBytes(t.name) +
      (Int64(AsSigned(t.cardinality)) + (Int64(AsSigned(id)) + (Int64(|t.columns|) + ColumnsBytes(t.columns))))
  }

  function TablesBytes(ids: seq<nat>, ts: Tables): seq<byte>
    requires forall i :: 0 <= i < |ids| ==> ids[i] in ts && Unsigned(ids[i]) && TableOk(ts[ids[i]])
  {
    if ids == [] then [] else TableBytes(ids[0], ts[ids[0]]) + TablesBytes(ids[1..], ts)
  }

  /** The ids of an ordered map, in order. */
  ghost predicate InOrder(ids: seq<nat>, ts: Tables) {
    && (forall i, j :: 0 <= i < j < |ids| ==> ids[i] < ids[j])
    && (forall i :: 0 <= i < |ids| ==> ids[i] in ts) && (forall id :: id in ts ==> id in ids)
  }

  /** The two counters, the number of tables, and the tables by their ids. */
  ghost predicate Holds(contents: seq<byte>, transactions: int, tableIds: int, ts: Tables) {
    && Unsigned(transactions) && Unsigned(tableIds) && TablesOk(ts)
    && exists ids :: InOrder(ids, ts) &&
         Int64(AsSigned(transactions)) + (Int64(AsSigned(tableIds)) + (Int64(|ts|) + TablesBytes(ids, ts))) <= contents
  }

  lemma CutFront(a: seq<byte>, b: seq<byte>)
    ensures (a + b)[..|a|] == a && (a + b)[|a|..] == b
  {
  }

  /** A signed integer in front of other bytes. */
  lemma IntFront(n: int, rest: seq<byte>)
    requires IsInt64(n)
    ensures |Int64(n) + rest| >= 8 && FromSigned((Int64(n) + rest)[..8]) == n && (Int64(n) + rest)[8..] == rest
  {
    CutFront(Int64(n), rest);
    Powers();
    FromSignedOfSigned(n, 8);
  }

  method WriteString(file: File, name: seq<byte>)
    requires file.Valid() && ShortName(name)
    modifies file`contents, file`pos
    ensures file.Valid() && file.contents[..file.pos] == old(file.contents[..file.pos]) + StringBytes(name)
  {
    file.WriteInt64(|name|);
    file.Write(name);
  }

  /** One chunk more behind the others. */
  lemma Appended(start: seq<byte>, a: seq<byte>, b: seq<byte>)
    ensures (start + a) + b == start + (a + b)
  {
  }

  lemma ColumnsNext(cs: seq<ColumnInfo>, i: nat)
    requires ColumnsOk(cs) && i < |cs|
    ensures ColumnsBytes(cs[i..]) == Int64(cs[i].kind) + (StringBytes(cs[i].name) + ColumnsBytes(cs[i + 1..]))
  {
    assert cs[i..][1..] == cs[i + 1..];
  }

  method WriteColumns(file: File, cs: seq<ColumnInfo>)
    requires file.Valid() && ColumnsOk(cs)
    modifies file`contents, file`pos
    ensures file.Valid() && file.contents[..file.pos] == old(file.contents[..file.pos]) + ColumnsBytes(cs)
  {
    hide Int64, StringBytes, ColumnsBytes;
    ghost var start := file.contents[..file.pos];
    assert cs[0..] == cs;
    for i := 0 to |cs|
      invariant file.Valid() && file.contents[..file.pos] + ColumnsBytes(cs[i..]) == start + ColumnsBytes(cs)
    {
      ghost var before := file.contents[..file.pos];
      ColumnsNext(cs, i);
      Appended(before, Int64(cs[i].kind), StringBytes(cs[i].name) + ColumnsBytes(cs[i + 1..]));
      Appended(before + Int64(cs[i].kind), StringBytes(cs[i].name), ColumnsBytes(cs[i + 1..]));
      file.WriteInt64(cs[i].kind);
      WriteString(file, cs[i].name);
    }
    NoColumns(cs[|cs|..]);
  }

  lemma NoColumns(cs: seq<ColumnInfo>)
    requires cs == []
    ensures ColumnsBytes(cs) == []
  {
  }

  method WriteTable(file: File, id: nat, t: TableInfo)
    requires file.Valid() && Unsigned(id) && TableOk(t)
    modifies file`contents, file`pos
    ensures file.Valid() && file.contents[..file.pos] == old(file.contents[..file.pos]) + TableBytes(id, t)
  {
    hide Int64, StringBytes, ColumnsBytes;
    ghost var start := file.contents[..file.pos];
    WriteString(file, t.name);
    file.WriteInt64(AsSigned(t.cardinality));
    file.WriteInt64(AsSigned(id));
    file.WriteInt64(|t.columns|);
    WriteColumns(file, t.columns);
    FiveParts(start, StringBytes(t.name), Int64(AsSigned(t.cardinality)), Int64(AsSigned(id)), Int64(|t.columns|),
              ColumnsBytes(t.columns));
  }

  lemma FiveParts(start: seq<byte>, a: seq<byte>, b: seq<byte>, c: seq<byte>, d: seq<byte>, e: seq<byte>)
    ensures start + a + b + c + d + e == start + (a + (b + (c + (d + e))))
  {
  }

  class Catalog {
    var transactionCount: int
    var tableIdCounter: int
    var tables: Tables

    ghost predicate Valid()
      reads this
    {
      Unsigned(transactionCount) && Unsigned(tableIdCounter) && TablesOk(tables)
    }

    constructor ()
      ensures Valid() && transactionCount == 1 && tableIdCounter == 0 && tables == map[]
    {
      transactionCount, tableIdCounter, tables := 1, 0, map[];
    }

    /** The destructor: the file then starts with this catalog, whatever lies behind. */
    method Save(file: File)
      requires Valid() && file.Valid()
      modifies file`contents, file`pos
      ensures file.Valid() && Holds(file.contents, transactionCount, tableIdCounter, tables)
    {
      hide Int64, TableBytes, TablesBytes, Listed, TablesOk, Holds, AsSigned;
      file.Rewind();
      WriteCounters(file);
      ghost var ids := WriteTables(file);
      AllListed(file.contents, file.pos, transactionCount, tableIdCounter, ids, tables);
    }

    method WriteCounters(file: File)
      requires Valid() && file.Valid() && file.pos == 0
      modifies file`contents, file`pos
      ensures file.Valid()
      ensures file.contents[..file.pos] == Int64(AsSigned(transactionCount)) + Int64(AsSigned(tableIdCounter)) +
        Int64(|tables|)
    {
      hide Int64;
      assert file.contents[..file.pos] == [];
      file.WriteInt64(AsSigned(transactionCount));
      file.WriteInt64(AsSigned(tableIdCounter));
      file.WriteInt64(|tables|);
    }

    /** The loop over the ordered map. */
    method WriteTables(file: File) returns (ghost ids: seq<nat>)
      requires Valid() && file.Valid()
      modifies file`contents, file`pos
      ensures Valid() && file.Valid() && Listed(ids, {}, tables)
      ensures file.contents[..file.pos] == old(file.contents[..file.pos]) + TablesBytes(ids, tables)
    {
      hide TableBytes, TablesBytes, Listed;
      ghost var start := file.contents[..file.pos];
      var left := tables.Keys;
      ids := [];
      ListedNone(tables);
      while left != {}
        invariant Valid() && file.Valid() && Listed(ids, left, tables) && ListedOk(ids, tables)
        invariant file.contents[..file.pos] == start + TablesBytes(ids, tables)
        decreases left
      {
        Least(left);
        var id :| id in left && forall x :: x in left ==> id <= x;
        ListedNext(ids, left, id, tables);
        Appended(start, TablesBytes(ids, tables), TableBytes(id, tables[id]));
        WriteTable(file, id, tables[id]);
        left, ids := left - {id}, ids + [id];
      }
    }

    /**
     * The constructor. A new file leaves the counters as they are; a file that starts with a catalog yields
     * that catalog, whatever lies behind it.
     */
    method Load(file: File, ghost transactions: int, ghost tableIds: int, ghost ts: Tables) returns (r: Result<bool>)
      requires file.Valid() && file.good && tables == map[]
      modifies this, file`pos, file`good
      ensures file.contents == [] ==>
        r == Ok(false) && transactionCount == old(transactionCount) && tableIdCounter == old(tableIdCounter)
          && tables == map[]
      ensures Holds(file.contents, transactions, tableIds, ts) ==>
        r == Ok(true) && transactionCount == transactions && tableIdCounter == tableIds && tables == ts
    {
      hide Int64, TableBytes, TablesBytes, TablesOk, InOrder, AsSigned, AsUnsigned, ReadSoFar;
      if file.contents == [] {
        NeverEmpty(file.contents, transactions, tableIds, ts);
        return Ok(false);
      }
      ghost var e := HeldList(file.contents, transactions, tableIds, ts);
      file.Rewind();
      ghost var r1 := Int64(|e.tables|) + (TablesBytes(e.ids, e.tables) + e.tail);
      ghost var r0 := Int64(AsSigned(e.tableIds)) + r1;
      var transactions' := ReadInt(file, AsSigned(e.transactions), r0);
      if transactions'.Err? { return Err(transactions'.error); }
      transactionCount := AsUnsigned(transactions'.value);
      var tableIds' := ReadInt(file, AsSigned(e.tableIds), r1);
      if tableIds'.Err? { return Err(tableIds'.error); }
      tableIdCounter := AsUnsigned(tableIds'.value);
      var count := ReadInt(file, |e.tables|, TablesBytes(e.ids, e.tables) + e.tail);
      if count.Err? { return Err(count.error); }
      var error := LoadTables(file, count.value, e);
      return if error == None then Ok(true) else Err(error.value);
    }

    method LoadTables(file: File, n: int, ghost e: Held) returns (error: Option<Error>)
      requires file.Valid() && tables == map[] && e.Valid()
      modifies this`tables, file`pos, file`good
      ensures
        (e.held && old(file.good) && n == |e.tables| && old(file.Ahead()) == TablesBytes(e.ids, e.tables) + e.tail) ==>
        error == None && tables == e.tables
    {
      hide Int64, TableBytes, TablesBytes, TablesOk, InOrder, ReadSoFar;
      HeldFacts(e);
      ghost var expected := e.held && file.good && n == |e.tables|
        && file.Ahead() == TablesBytes(e.ids, e.tables) + e.tail;
      var i := 0;
      while i < n
        invariant file.Valid() && 0 <= i && (n >= 0 ==> i <= n)
        invariant expected ==> file.good && ReadSoFar(tables, e.ids, i, e.tables)
        invariant expected ==> file.Ahead() == TablesBytes(e.ids[i..], e.tables) + e.tail
      {
        ghost var id, t, after := 0, TableInfo([], [], 0), [];
        if expected {
          TablesAhead(e.ids, i, e.tables, e.tail);
          ReadOneMore(tables, e.ids, i, e.tables);
          id, t, after := e.ids[i], e.tables[e.ids[i]], TablesBytes(e.ids[i + 1..], e.tables) + e.tail;
        }
        var table := ReadTable(file, id, t, after);
        if table.Err? { return Some(table.error); }
        var (tableId, info) := table.value;
        if tableId !in tables { tables := tables[tableId := info]; }
        i := i + 1;
      }
      if expected { ReadAll(tables, e.ids, e.tables); }
      return None;
    }
  }

  ghost predicate ListedOk(ids: seq<nat>, ts: Tables) {
    forall i :: 0 <= i < |ids| ==> ids[i] in ts && Unsigned(ids[i]) && TableOk(ts[ids[i]])
  }

  lemma ListedNone(ts: Tables)
    requires TablesOk(ts)
    ensures Listed([], ts.Keys, ts) && TablesBytes([], ts) == []
  {
  }

  lemma ListedNext(ids: seq<nat>, left: set<nat>, id: nat, ts: Tables)
    requires Listed(ids, left, ts) && id in left && id in ts && forall x :: x in left ==> id <= x
    requires ListedOk(ids, ts)
    ensures Unsigned(id) && TableOk(ts[id]) && Listed(ids + [id], left - {id}, ts) && ListedOk(ids + [id], ts)
    ensures TablesBytes(ids + [id], ts) == TablesBytes(ids, ts) + TableBytes(id, ts[id])
  {
    assert Unsigned(id) && TableOk(ts[id]);
    OneMoreTable(ids, id, ts);
    hide TablesBytes, TableBytes, TableOk;
    OneMoreListed(ids, left, id, ts);
  }

  lemma OneMoreListed(ids: seq<nat>, left: set<nat>, id: nat, ts: Tables)
    requires Listed(ids, left, ts) && id in left && id in ts && forall x :: x in left ==> id <= x
    ensures Listed(ids + [id], left - {id}, ts)
  {
    hide TablesOk;
    var more := ids + [id];
    assert forall x :: x in more <==> x in ids || x == id;
    forall i | 0 <= i < |more| ensures more[i] in ts && forall x :: x in left - {id} ==> more[i] < x {}
  }

  /** The ids written so far, in order, all below those that are left. */
  ghost predicate Listed(ids: seq<nat>, left: set<nat>, ts: Tables) {
    && TablesOk(ts)
    && (forall i, j :: 0 <= i < j < |ids| ==> ids[i] < ids[j])
    && (forall i :: 0 <= i < |ids| ==> ids[i] in ts && forall x :: x in left ==> ids[i] < x)
    && (forall id :: id in ts ==> id in left || id in ids)
  }

  lemma AllListed(contents: seq<byte>, pos: nat, transactions: int, tableIds: int, ids: seq<nat>, ts: Tables)
    requires Unsigned(transactions) && Unsigned(tableIds) && TablesOk(ts) && Listed(ids, {}, ts) && pos <= |contents|
    requires contents[..pos] == (Int64(AsSigned(transactions)) + Int64(AsSigned(tableIds)) + Int64(|ts|)) +
      TablesBytes(ids, ts)
    ensures Holds(contents, transactions, tableIds, ts)
  {
    hide Int64, TableBytes;
    var a, b, c, d := Int64(AsSigned(transactions)), Int64(AsSigned(tableIds)), Int64(|ts|), TablesBytes(ids, ts);
    assert a + b + c + d == a + (b + (c + d));
    assert contents[..pos] <= contents;
    assert InOrder(ids, ts);
  }

  lemma {:induction false} OneMoreTable(ids: seq<nat>, id: nat, ts: Tables)
    requires TablesOk(ts) && id in ts && forall i :: 0 <= i < |ids| ==> ids[i] in ts
    ensures TablesBytes(ids + [id], ts) == TablesBytes(ids, ts) + TableBytes(id, ts[id])
  {
    hide TableBytes;
    if ids == [] {
      assert ids + [id] == [id] && [id][1..] == [];
    } else {
      OneMoreTable(ids[1..], id, ts);
      assert (ids + [id])[0] == ids[0] && (ids + [id])[1..] == ids[1..] + [id];
    }
  }

  lemma {:induction false} Least(s: set<nat>)
    requires s != {}
    ensures exists m :: m in s && forall x :: x in s ==> m <= x
  {
    var y: nat :| y in s;
    LeastFrom(s, y);
  }

  /** The least element is at most `y`. */
  lemma {:induction false} LeastFrom(s: set<nat>, y: nat)
    requires y in s
    ensures exists m :: m in s && forall x :: x in s ==> m <= x
  {
    if x :| x in s && x < y { LeastFrom(s, x); }
  }

  // ---------------------------------------------------------------- reading

  datatype Error = EndOfFile | BadLength | BadName

  datatype Result<T> = Ok(value: T) | Err(error: Error)

  method ReadInt(file: File, ghost n: int, ghost rest: seq<byte>) returns (r: Result<int>)
    requires file.Valid()
    modifies file`pos, file`good
    ensures file.Valid() && (r.Ok? ==> IsInt64(r.value))
    ensures old(file.good) && IsInt64(n) && old(file.Ahead()) == Int64(n) + rest ==>
      r == Ok(n) && file.good && file.Ahead() == rest
  {
    if IsInt64(n) { IntFront(n, rest); }
    hide Int64, FromSigned;
    var i := file.ReadInt64();
    match i
    case Some(m) => return Ok(m);
    case None => return Err(EndOfFile);
  }

  /** Whether the bytes were all there is not checked here: the next integer will tell. */
  method ReadString(file: File, ghost name: seq<byte>, ghost rest: seq<byte>) returns (r: Result<seq<byte>>)
    requires file.Valid()
    modifies file`pos, file`good
    ensures file.Valid()
    ensures old(file.good) && ShortName(name) && old(file.Ahead()) == StringBytes(name) + rest ==>
      r == Ok(name) && file.good && file.Ahead() == rest
  {
    hide Int64;
    CutFront(name, rest);
    if ShortName(name) { assert StringBytes(name) + rest == Int64(|name|) + (name + rest); }
    var len := ReadInt(file, |name|, name + rest);
    if len.Err? { return Err(len.error); }
    if len.value < 0 { return Err(BadLength); }
    var buf := file.Read(len.value);
    return Ok(buf);
  }

  method ReadColumns(file: File, n: int, ghost cs: seq<ColumnInfo>, ghost rest: seq<byte>)
    returns (r: Result<seq<ColumnInfo>>)
    requires file.Valid()
    modifies file`pos, file`good
    ensures file.Valid()
    ensures old(file.good) && ColumnsOk(cs) && n == |cs| && old(file.Ahead()) == ColumnsBytes(cs) + rest ==>
      r == Ok(cs) && file.good && file.Ahead() == rest
  {
    hide Int64, StringBytes, ColumnsBytes;
    ghost var expected := file.good && ColumnsOk(cs) && n == |cs| && file.Ahead() == ColumnsBytes(cs) + rest;
    var columns: seq<ColumnInfo> := [];
    var c := 0;
    assert cs[0..] == cs;
    while c < n
      invariant file.Valid() && 0 <= c && (n >= 0 ==> c <= n)
      invariant expected ==> file.good && columns == cs[..c] && file.Ahead() == ColumnsBytes(cs[c..]) + rest
    {
      ghost var column := if expected then cs[c] else ColumnInfo([], 0);
      ghost var after := if expected then ColumnsBytes(cs[c + 1..]) + rest else [];
      if expected { ColumnAhead(cs, c, rest); }
      var kind := ReadInt(file, column.kind, StringBytes(column.name) + after);
      if kind.Err? { return Err(kind.error); }
      var name := ReadString(file, column.name, after);
      if name.Err? { return Err(name.error); }
      columns := columns + [ColumnInfo(name.value, kind.value)];
      c := c + 1;
    }
    if expected {
      NoColumns(cs[|cs|..]);
      assert cs[..|cs|] == cs;
    }
    return Ok(columns);
  }

  lemma ColumnAhead(cs: seq<ColumnInfo>, c: nat, rest: seq<byte>)
    requires ColumnsOk(cs) && c < |cs|
    ensures ColumnsBytes(cs[c..]) + rest == Int64(cs[c].kind) +
      (StringBytes(cs[c].name) + (ColumnsBytes(cs[c + 1..]) + rest))
    ensures cs[..c + 1] == cs[..c] + [cs[c]]
  {
    ColumnsNext(cs, c);
    hide Int64, StringBytes, ColumnsBytes;
    Reassociate(Int64(cs[c].kind), StringBytes(cs[c].name), ColumnsBytes(cs[c + 1..]), rest);
  }

  lemma Reassociate(a: seq<byte>, b: seq<byte>, c: seq<byte>, d: seq<byte>)
    ensures (a + (b + c)) + d == a + (b + (c + d))
  {
  }

  /** One table: the name is normalized again. */
  method ReadTable(file: File, ghost id: nat, ghost t: TableInfo, ghost rest: seq<byte>)
    returns (r: Result<(nat, TableInfo)>)
    requires file.Valid()
    modifies file`pos, file`good
    ensures file.Valid()
    ensures old(file.good) && Unsigned(id) && TableOk(t) && old(file.Ahead()) == TableBytes(id, t) + rest ==>
      r == Ok((id, t)) && file.good && file.Ahead() == rest
  {
    hide Int64, StringBytes, ColumnsBytes, AsSigned, AsUnsigned;
    ghost var expected := file.good && Unsigned(id) && TableOk(t) && file.Ahead() == TableBytes(id, t) + rest;
    ghost var e := if expected then t else TableInfo([], [], 0);
    ghost var eid := if expected then id else 0;
    ghost var r3 := ColumnsBytes(e.columns) + rest;
    ghost var r2 := Int64(|e.columns|) + r3;
    ghost var r1 := Int64(AsSigned(eid)) + r2;
    ghost var r0 := Int64(AsSigned(e.cardinality)) + r1;
    TableAhead(eid, e, rest);
    ConversionsInverse(eid);
    ConversionsInverse(e.cardinality);
    var name := ReadString(file, e.name, r0);
    if name.Err? { return Err(name.error); }
    var cardinality := ReadInt(file, AsSigned(e.cardinality), r1);
    if cardinality.Err? { return Err(cardinality.error); }
    var tableId := ReadInt(file, AsSigned(eid), r2);
    if tableId.Err? { return Err(tableId.error); }
    var count := ReadInt(file, |e.columns|, r3);
    if count.Err? { return Err(count.error); }
    var columns := ReadColumns(file, count.value, e.columns, rest);
    if columns.Err? { return Err(columns.error); }
    var normalized := Normalize(name.value);
    NormalizeAgain(name.value, normalized);
    match normalized
    case None => return Err(BadName);
    case Some(n) => return Ok((AsUnsigned(tableId.value), TableInfo(n, columns.value, AsUnsigned(cardinality.value))));
  }

  lemma TableAhead(id: nat, t: TableInfo, rest: seq<byte>)
    requires Unsigned(id) && TableOk(t)
    ensures TableBytes(id, t) + rest == StringBytes(t.name)
      + (Int64(AsSigned(t.cardinality)) +
        (Int64(AsSigned(id)) + (Int64(|t.columns|) + (ColumnsBytes(t.columns) + rest))))
  {
    hide Int64, StringBytes, ColumnsBytes;
    FiveFront(StringBytes(t.name), Int64(AsSigned(t.cardinality)), Int64(AsSigned(id)), Int64(|t.columns|),
              ColumnsBytes(t.columns), rest);
  }

  lemma FiveFront(a: seq<byte>, b: seq<byte>, c: seq<byte>, d: seq<byte>, e: seq<byte>, rest: seq<byte>)
    ensures (a + (b + (c + (d + e)))) + rest == a + (b + (c + (d + (e + rest))))
  {
  }

  /** What is read so far: the first `i` tables of the list. */
  ghost predicate ReadSoFar(tables: Tables, ids: seq<nat>, i: nat, ts: Tables) {
    i <= |ids| && (forall id :: id in tables <==> id in ids[..i]) && forall id :: id in tables ==>
      id in ts && tables[id] == ts[id]
  }

  lemma ReadOneMore(tables: Tables, ids: seq<nat>, i: nat, ts: Tables)
    requires ReadSoFar(tables, ids, i, ts) && i < |ids| && InOrder(ids, ts)
    ensures ids[i] in ts && ids[i] !in tables && ReadSoFar(tables[ids[i] := ts[ids[i]]], ids, i + 1, ts)
  {
    assert ids[..i + 1] == ids[..i] + [ids[i]];
    assert forall j :: 0 <= j < i ==> ids[..i][j] == ids[j];
  }

  lemma ReadAll(tables: Tables, ids: seq<nat>, ts: Tables)
    requires ReadSoFar(tables, ids, |ids|, ts) && InOrder(ids, ts)
    ensures tables == ts
  {
    assert ids[..|ids|] == ids;
  }

  lemma TablesAhead(ids: seq<nat>, i: nat, ts: Tables, rest: seq<byte>)
    requires TablesOk(ts) && InOrder(ids, ts) && i < |ids|
    ensures Unsigned(ids[i]) && TableOk(ts[ids[i]])
    ensures forall j :: i <= j < |ids| ==> ids[j] in ts && Unsigned(ids[j]) && TableOk(ts[ids[j]])
    ensures TablesBytes(ids[i..], ts) + rest == TableBytes(ids[i], ts[ids[i]]) + (TablesBytes(ids[i + 1..], ts) + rest)
  {
    assert ids[i..][1..] == ids[i + 1..];
    hide TableBytes;
    Appended(TableBytes(ids[i], ts[ids[i]]), TablesBytes(ids[i + 1..], ts), rest);
  }

  /** The catalog that a file starts with; some catalog if it starts with none. */
  datatype Held = Held(held: bool, transactions: int, tableIds: int, tables: Tables, ids: seq<nat>, tail: seq<byte>) {
    ghost predicate Valid() {
      && Unsigned(transactions) && Unsigned(tableIds) && TablesOk(tables) && InOrder(ids, tables) && |ids| == |tables|
    }
  }

  lemma HeldFacts(e: Held)
    requires e.Valid()
    ensures TablesOk(e.tables) && InOrder(e.ids, e.tables)
    ensures |e.ids| == |e.tables| && ReadSoFar(map[], e.ids, 0, e.tables)
    ensures e.ids[0..] == e.ids && TablesBytes(e.ids[|e.ids|..], e.tables) == []
    ensures forall i :: 0 <= i < |e.ids| ==> e.ids[i] in e.tables && Unsigned(e.ids[i]) && TableOk(e.tables[e.ids[i]])
  {
  }

  lemma HeldList(contents: seq<byte>, transactions: int, tableIds: int, ts: Tables) returns (e: Held)
    ensures e.Valid()
    ensures forall i :: 0 <= i < |e.ids| ==> e.ids[i] in e.tables && Unsigned(e.ids[i]) && TableOk(e.tables[e.ids[i]])
    ensures AsUnsigned(AsSigned(e.transactions)) == e.transactions && AsUnsigned(AsSigned(e.tableIds)) == e.tableIds
    ensures |e.tables| < TWO63
    ensures Holds(contents, transactions, tableIds, ts) ==>
      && e.held && e.transactions == transactions && e.tableIds == tableIds && e.tables == ts
      && contents == Int64(AsSigned(transactions))
           + (Int64(AsSigned(tableIds)) + (Int64(|ts|) + (TablesBytes(e.ids, ts) + e.tail)))
  {
    if Holds(contents, transactions, tableIds, ts) {
      var ids :| InOrder(ids, ts) &&
        Int64(AsSigned(transactions)) + (Int64(AsSigned(tableIds)) + (Int64(|ts|) + TablesBytes(ids, ts))) <= contents;
      var all := Int64(AsSigned(transactions)) + (Int64(AsSigned(tableIds)) + (Int64(|ts|) + TablesBytes(ids, ts)));
      e := Held(true, transactions, tableIds, ts, ids, contents[|all|..]);
      ConversionsInverse(transactions);
      ConversionsInverse(tableIds);
      AsMany(ids, ts);
      hide Int64, TablesBytes, TableBytes, AsSigned, AsUnsigned, TableOk;
      PrefixAndTail(all, contents);
      FourFront(Int64(AsSigned(transactions)), Int64(AsSigned(tableIds)), Int64(|ts|), TablesBytes(ids, ts), e.tail);
    } else {
      e := Held(false, 0, 0, map[], [], []);
    }
  }

  lemma PrefixAndTail(a: seq<byte>, b: seq<byte>)
    requires a <= b
    ensures b == a + b[|a|..]
  {
  }

  lemma FourFront(a: seq<byte>, b: seq<byte>, c: seq<byte>, d: seq<byte>, tail: seq<byte>)
    ensures (a + (b + (c + d))) + tail == a + (b + (c + (d + tail)))
  {
  }

  lemma NeverEmpty(contents: seq<byte>, transactions: int, tableIds: int, ts: Tables)
    ensures Holds(contents, transactions, tableIds, ts) ==> contents != []
  {
  }

  /** An ordered list of the ids of a map is as long as the map. */
  lemma {:induction false} AsMany(ids: seq<nat>, ts: Tables)
    requires InOrder(ids, ts)
    ensures |ids| == |ts|
    decreases |ids|
  {
    if ids == [] {
      assert ts == map[] by { assert forall id :: id !in ts; }
    } else {
      RestInOrder(ids, ts);
      AsMany(ids[1..], ts - {ids[0]});
      OneFewer(ts, ids[0]);
    }
  }

  lemma RestInOrder(ids: seq<nat>, ts: Tables)
    requires InOrder(ids, ts) && ids != []
    ensures InOrder(ids[1..], ts - {ids[0]})
  {
    var rest := ts - {ids[0]};
    forall x | x in rest ensures x in ids[1..] {
      var j :| 0 <= j < |ids| && ids[j] == x;
      assert ids[1..][j - 1] == x;
    }
    forall i | 0 <= i < |ids| - 1 ensures ids[1..][i] in rest {
      assert ids[0] < ids[i + 1];
    }
  }

  lemma OneFewer(ts: Tables, id: nat)
    requires id in ts
    ensures |ts| == |ts - {id}| + 1
  {
    assert ts.Keys == (ts - {id}).Keys + {id};
    assert |ts| == |ts.Keys| && |ts - {id}| == |(ts - {id}).Keys|;
  }

  /** What one run saves over any older file, the next run loads. */
  method SaveAndLoad(before: Catalog, file: File, after: Catalog)
    requires before.Valid() && file.Valid() && file.good && before != after && after.tables == map[]
    modifies file, after
    ensures after.transactionCount == before.transactionCount && after.tableIdCounter == before.tableIdCounter
    ensures after.tables == before.tables
  {
    before.Save(file);
    NeverEmpty(file.contents, before.transactionCount, before.tableIdCounter, before.tables);
    var r := after.Load(file, before.transactionCount, before.tableIdCounter, before.tables);
  }
}
