/** A frame of the buffer pool: the bytes of one page in memory and the state that the pool keeps about it. */
module Frames {
  import opened Model
  import opened Bytes
  import opened Pages

  datatype PageId = PageId(fileId: int, pageNumber: int)

  class Page {
    /** None stands for the file id UNASSIGNED. */
    var pageId: Option<PageId>
    const bytes: array<byte>
    var pins: nat
    var secondChance: bool
    var dirty: bool

    ghost predicate Valid() {
      bytes.Length == PAGE_SIZE
    }

    constructor ()
      ensures Valid() && fresh(bytes) && pageId == None && pins == 0 && !secondChance && !dirty
    {
      bytes := new byte[PAGE_SIZE];
      pageId, pins, secondChance, dirty := None, 0, false, false;
    }

    method Pin()
      modifies this`pins, this`secondChance
      ensures pins == old(pins) + 1 && secondChance
    {
      pins, secondChance := pins + 1, true;
    }

    method Unpin()
      requires pins > 0
      modifies this`pins
      ensures pins == old(pins) - 1
    {
      pins := pins - 1;
    }

    /** The source asserts what is required here. */
    method Reassign(id: PageId)
      requires !dirty && pins == 0 && !secondChance
      modifies this`pageId, this`pins, this`secondChance
      ensures pageId == Some(id) && pins == 1 && secondChance
    {
      pageId, pins, secondChance := Some(id), 1, true;
    }

    method Reset()
      requires pins == 0
      modifies this`pageId, this`secondChance, this`dirty
      ensures pageId == None && !secondChance && !dirty
    {
      pageId, secondChance, dirty := None, false, false;
    }

    method ReadBytes(offset: nat, size: nat) returns (s: seq<byte>)
      requires Valid() && offset + size <= PAGE_SIZE
      ensures s == At(bytes[..], offset, size)
    {
      return bytes[offset..offset + size];
    }

    method ReadUint8(offset: nat) returns (n: byte)
      requires Valid() && offset < PAGE_SIZE
      ensures n == bytes[..][offset]
    {
      return bytes[offset];
    }

    method ReadInt32(offset: nat) returns (n: int)
      requires Valid() && offset + 4 <= PAGE_SIZE
      ensures n == Int32At(bytes[..], offset) && IsInt32(n)
    {
      return FromSigned(bytes[offset..offset + 4]);
    }

    method ReadInt64(offset: nat) returns (n: int)
      requires Valid() && offset + 8 <= PAGE_SIZE
      ensures n == Int64At(bytes[..], offset) && IsInt64(n)
    {
      return FromSigned(bytes[offset..offset + 8]);
    }

    method WriteBytes(offset: nat, s: seq<byte>)
      requires Valid() && offset + |s| <= PAGE_SIZE
      modifies this`dirty, bytes
      ensures bytes[..] == Write(old(bytes[..]), offset, s) && dirty
    {
      for i := 0 to |s|
        invariant bytes[..] == Write(old(bytes[..]), offset, s[..i])
      {
        WriteNext(old(bytes[..]), offset, s, i);
        bytes[offset + i] := s[i];
      }
      assert s[..|s|] == s;
      dirty := true;
    }

    method WriteInt8(offset: nat, n: byte)
      requires Valid() && offset < PAGE_SIZE
      modifies this`dirty, bytes
      ensures bytes[..] == Write(old(bytes[..]), offset, [n]) && dirty
    {
      WriteBytes(offset, [n]);
    }

    method WriteInt32(offset: nat, n: int)
      requires Valid() && offset + 4 <= PAGE_SIZE && IsInt32(n)
      modifies this`dirty, bytes
      ensures bytes[..] == Write(old(bytes[..]), offset, Int32(n)) && dirty
    {
      WriteBytes(offset, Int32(n));
    }

    method WriteInt64(offset: nat, n: int)
      requires Valid() && offset + 8 <= PAGE_SIZE && IsInt64(n)
      modifies this`dirty, bytes
      ensures bytes[..] == Write(old(bytes[..]), offset, Int64(n)) && dirty
    {
      WriteBytes(offset, Int64(n));
    }
  }
}
