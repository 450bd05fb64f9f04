/** Values, records and record identifiers shared by every component. */
module Model {
  /** One byte of a page, a string or a file. */
  type byte = x: int | 0 <= x < 256

  /** A value of the system: a string of at most 255 bytes, a 64-bit integer or a RID. */
  datatype Value = Str(text: seq<byte>) | Int(n: int) | Rid(rid: RID)

  /** The empty record is the executor's end-of-stream mark. */
  type Record = seq<Value>

  /** The type of a column. */
  datatype ColumnType = StrColumn | IntColumn | RidColumn

  predicate HasType(v: Value, t: ColumnType) {
    match t
    case StrColumn => v.Str?
    case IntColumn => v.Int?
    case RidColumn => v.Rid?
  }

  /** What outer joins put in the place of a missing value of this type: "-1" or -1. */
  function StandIn(t: ColumnType): Value {
    if t == StrColumn then Str([45, 49]) else Int(-1)
  }

  datatype RID = RID(pageNum: int, dirSlot: int) {
    /** A RID that can name a slot, as opposed to the two marks below. */
    predicate Proper() {
      pageNum >= 0 && dirSlot >= 0
    }
  }

  /** RID order, in which a scan goes through the slots. */
  predicate Before(a: RID, b: RID) {
    a.pageNum < b.pageNum || (a.pageNum == b.pageNum && a.dirSlot < b.dirSlot)
  }

  /** `next` of a logically deleted last version. */
  const DELETED := RID(-1, -1)

  /** Returned for a slot that was deleted physically. */
  const GONE := RID(-1, -2)

  type TxID = nat

  datatype Option<+T> = None | Some(value: T)

  /** Transactions that are not listed at all count as COMMITTED. */
  datatype TxState = ACTIVE | COMMITTED

  /** `release_all_locks`: the entries of the write set that this transaction holds. */
  function ReleaseAll<K(==)>(locks: map<K, TxID>, t: TxID, writeSet: set<K>): map<K, TxID> {
    map k | k in locks && !(k in writeSet && locks[k] == t) :: locks[k]
  }
}
