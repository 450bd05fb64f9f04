/** Little-endian integers and windows of byte sequences. */
module Bytes {
  import opened Model

  function Power256(k: nat): (p: nat)
    ensures p > 0
  {
    if k == 0 then 1 else 256 * Power256(k - 1)
  }

  /** The `k` low bytes of `n`, lowest first. */
  function Le(n: nat, k: nat): (s: seq<byte>)
    ensures |s| == k
  {
    if k == 0 then [] else [n % 256] + Le(n / 256, k - 1)
  }

  function FromLe(s: seq<byte>): nat {
    if s == [] then 0 else s[0] + 256 * FromLe(s[1..])
  }

  lemma {:induction false} FromLeOfLe(n: nat, k: nat)
    requires n < Power256(k)
    ensures FromLe(Le(n, k)) == n
  {
    if k > 0 { FromLeOfLe(n / 256, k - 1); }
  }

  lemma {:induction false} LeOfFromLe(s: seq<byte>)
    ensures FromLe(s) < Power256(|s|) && Le(FromLe(s), |s|) == s
  {
    if s != [] {
      LeOfFromLe(s[1..]);
      assert s == [s[0]] + s[1..];
    }
  }

  const TWO31 := 0x8000_0000
  const TWO63 := 0x8000_0000_0000_0000

  /** Two's complement in `k` bytes. */
  function Signed(n: int, k: nat): (s: seq<byte>)
    requires 0 - Power256(k) <= n
    ensures |s| == k
  {
    Le(if n < 0 then n + Power256(k) else n, k)
  }

  function FromSigned(s: seq<byte>): int {
    var n := FromLe(s);
    if 2 * n < Power256(|s|) then n else n - Power256(|s|)
  }

  /** Signed integers survive being written and read. */
  lemma FromSignedOfSigned(n: int, k: nat)
    requires 0 - Power256(k) <= 2 * n < Power256(k)
    ensures FromSigned(Signed(n, k)) == n
  {
    hide Power256, Le, FromLe;
    FromLeOfLe(if n < 0 then n + Power256(k) else n, k);
  }

  /** Every pattern of bytes is the image of exactly one integer. */
  lemma SignedOfFromSigned(s: seq<byte>)
    ensures 0 - Power256(|s|) <= 2 * FromSigned(s) < Power256(|s|)
    ensures Signed(FromSigned(s), |s|) == s
  {
    hide Power256, Le, FromLe;
    LeOfFromLe(s);
  }

  lemma Powers()
    ensures Power256(4) == 2 * TWO31 && Power256(8) == 2 * TWO63
  {
    assert Power256(2) == 0x1_0000;
    assert Power256(4) == 256 * (256 * Power256(2));
    assert Power256(6) == 256 * (256 * Power256(4));
    assert Power256(8) == 256 * (256 * Power256(6));
  }

  predicate IsInt32(n: int) {
    -TWO31 <= n < TWO31
  }

  predicate IsInt64(n: int) {
    -TWO63 <= n < TWO63
  }

  function Int32(n: int): (s: seq<byte>)
    requires IsInt32(n)
    ensures |s| == 4
  {
    Powers();
    Signed(n, 4)
  }

  function Int64(n: int): (s: seq<byte>)
    requires IsInt64(n)
    ensures |s| == 8
  {
    Powers();
    Signed(n, 8)
  }

  // ---------------------------------------------------------------- windows

  function At(b: seq<byte>, offset: int, size: int): (s: seq<byte>)
    requires 0 <= offset && 0 <= size && offset + size <= |b|
    ensures |s| == size
  {
    b[offset..offset + size]
  }

  function Write(b: seq<byte>, offset: int, s: seq<byte>): (r: seq<byte>)
    requires 0 <= offset && offset + |s| <= |b|
    ensures |r| == |b|
  {
    b[..offset] + s + b[offset + |s|..]
  }

  function Int32At(b: seq<byte>, offset: int): (n: int)
    requires 0 <= offset && offset + 4 <= |b|
    ensures IsInt32(n)
  {
    Powers();
    SignedOfFromSigned(At(b, offset, 4));
    FromSigned(At(b, offset, 4))
  }

  function Int64At(b: seq<byte>, offset: int): (n: int)
    requires 0 <= offset && offset + 8 <= |b|
    ensures IsInt64(n)
  {
    Powers();
    SignedOfFromSigned(At(b, offset, 8));
    FromSigned(At(b, offset, 8))
  }

  lemma Int32Read(b: seq<byte>, offset: int, n: int)
    requires IsInt32(n) && 0 <= offset && offset + 4 <= |b| && At(b, offset, 4) == Int32(n)
    ensures Int32At(b, offset) == n
  {
    Powers();
    FromSignedOfSigned(n, 4);
  }

  lemma Int64Read(b: seq<byte>, offset: int, n: int)
    requires IsInt64(n) && 0 <= offset && offset + 8 <= |b| && At(b, offset, 8) == Int64(n)
    ensures Int64At(b, offset) == n
  {
    Powers();
    FromSignedOfSigned(n, 8);
  }

  /** A write is read back, and windows beside it do not change. */
  lemma ReadWrite(b: seq<byte>, offset: int, s: seq<byte>, o: int, n: int)
    requires 0 <= offset && offset + |s| <= |b| && 0 <= o && 0 <= n && o + n <= |b|
    ensures At(Write(b, offset, s), offset, |s|) == s
    ensures o + n <= offset || offset + |s| <= o ==> At(Write(b, offset, s), o, n) == At(b, o, n)
  {
    assert At(Write(b, offset, s), offset, |s|) == s;
    if o + n <= offset || offset + |s| <= o {
      forall i | 0 <= i < n ensures At(Write(b, offset, s), o, n)[i] == At(b, o, n)[i] {
        assert Write(b, offset, s)[o + i] == b[o + i];
      }
    }
  }

  /** One more byte of a write. */
  lemma WriteNext(b: seq<byte>, offset: int, s: seq<byte>, i: nat)
    requires 0 <= offset && offset + |s| <= |b| && i < |s|
    ensures Write(b, offset, s[..i])[offset + i := s[i]] == Write(b, offset, s[..i + 1])
  {
    assert s[..i + 1] == s[..i] + [s[i]];
    WriteWrite(b, offset, s[..i], [s[i]]);
  }

  /** Two writes side by side are one. */
  lemma WriteWrite(b: seq<byte>, offset: int, s: seq<byte>, t: seq<byte>)
    requires 0 <= offset && offset + |s| + |t| <= |b|
    ensures Write(Write(b, offset, s), offset + |s|, t) == Write(b, offset, s + t)
  {
  }

  /** A window of a window. */
  lemma AtAt(b: seq<byte>, offset: int, s: seq<byte>, o: int, n: int)
    requires 0 <= offset && offset + |s| <= |b| && At(b, offset, |s|) == s && 0 <= o && 0 <= n && o + n <= |s|
    ensures At(b, offset + o, n) == s[o..o + n]
  {
    var window, part := At(b, offset, |s|), At(b, offset + o, n);
    assert forall i :: 0 <= i < n ==> part[i] == window[o + i];
    assert part == window[o..o + n];
  }

  /** Rewriting part of a window. */
  lemma WriteInside(b: seq<byte>, offset: int, s: seq<byte>, o: int, t: seq<byte>)
    requires 0 <= offset && offset + |s| <= |b| && At(b, offset, |s|) == s && 0 <= o && o + |t| <= |s|
    ensures Write(b, offset + o, t) == Write(b, offset, Write(s, o, t))
  {
    var b', b'', s' := Write(b, offset + o, t), Write(b, offset, Write(s, o, t)), Write(s, o, t);
    forall i | 0 <= i < |b| ensures b'[i] == b''[i] {
      if offset <= i < offset + |s| {
        assert b[i] == At(b, offset, |s|)[i - offset] == s[i - offset];
        assert b''[i] == s'[i - offset];
      }
    }
  }
}
