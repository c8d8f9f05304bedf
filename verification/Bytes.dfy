/** Bytes, NUL-terminated strings and the 8-bit and 16-bit accessors shared by every component. */
module Bytes {

  type byte = b: int | 0 <= b < 256

  /** The contents of a C string: every byte before its terminator. */
  type CString = s: seq<byte> | forall k :: 0 <= k < |s| ==> s[k] != 0

  const SLASH: byte := 47
  const PLUS: byte := 43
  const HASH: byte := 35
  const DOLLAR: byte := 36

  /** Reading a C string at an index: the terminator follows its last byte. */
  function At(s: CString, i: nat): (b: byte)
    ensures b == 0 <==> |s| <= i
  {
    if i < |s| then s[i] else 0
  }

  function Low(v: int): byte {
    v % 256
  }

  /** Big-endian encoding of the low 16 bits of a value. */
  function Set16(v: int): (bs: seq<byte>)
    ensures |bs| == 2
  {
    [Low(v / 256), Low(v)]
  }

  /** The 16-bit value at an index. */
  function Get16(bs: seq<byte>, at: nat): (v: nat)
    requires at + 2 <= |bs|
    ensures v < 0x1_0000
  {
    bs[at] as int * 256 + bs[at + 1] as int
  }

  lemma Get16OfSet16(v: nat)
    requires v < 0x1_0000
    ensures Get16(Set16(v), 0) == v
  {
    assert v / 256 < 256;
  }

  function Pow2(k: nat): (p: nat)
    ensures 0 < p
  {
    if k == 0 then 1 else 2 * Pow2(k - 1)
  }

  /** The bit of `b` at a position counted from the least significant one. */
  predicate Bit(b: byte, position: nat)
    decreases b
  {
    if position == 0 then b % 2 == 1 else 0 < b && Bit(b / 2, position - 1)
  }

  function SetBit(b: byte, position: nat): byte
    requires position < 8
  {
    PowersOfTwo();
    SetBitFits(b, position, 8);
    if Bit(b, position) then b else b + Pow2(position)
  }

  lemma {:induction false} SetBitFits(b: byte, position: nat, width: nat)
    requires position < width && b < Pow2(width)
    ensures !Bit(b, position) ==> b + Pow2(position) < Pow2(width)
  {
    if 0 < position {
      SetBitFits(b / 2, position - 1, width - 1);
    }
  }

  /** Setting a bit sets that one and keeps the others. */
  lemma {:induction false} SetBitBits(b: byte, which: nat, read: nat)
    requires which < 8 && read < 8
    ensures Bit(SetBit(b, which), read) <==> which == read || Bit(b, read)
  {
    if 0 < which && 0 < read {
      assert SetBit(b, which) / 2 == SetBit(b / 2, which - 1);
      SetBitBits(b / 2, which - 1, read - 1);
    }
  }

  /** A byte is its bits. */
  lemma {:induction false} BitsDecide(a: byte, b: byte, width: nat)
    requires a < Pow2(width) && b < Pow2(width)
    requires forall k :: 0 <= k < width ==> (Bit(a, k) <==> Bit(b, k))
    ensures a == b
  {
    if 0 < width {
      assert Bit(a, 0) <==> Bit(b, 0);
      forall k | 0 <= k < width - 1 ensures Bit(a / 2, k) <==> Bit(b / 2, k) {
        assert Bit(a, k + 1) <==> Bit(b, k + 1);
        BitOfHalf(a, k);
        BitOfHalf(b, k);
      }
      BitsDecide(a / 2, b / 2, width - 1);
    }
  }

  lemma BitOfHalf(b: byte, k: nat)
    ensures Bit(b, k + 1) <==> Bit(b / 2, k)
  {
  }

  lemma LowBits(b: byte)
    ensures Bit(b, 0) <==> b % 2 == 1
    ensures Bit(b, 1) <==> b / 2 % 2 == 1
    ensures Bit(b, 2) <==> b / 2 / 2 % 2 == 1
    ensures Bit(b, 3) <==> b / 2 / 2 / 2 % 2 == 1
  {
    BitBelow(b, 1);
    BitBelow(b, 2);
    BitBelow(b / 2, 1);
    BitBelow(b, 3);
    BitBelow(b / 2, 2);
    BitBelow(b / 2 / 2, 1);
  }

  lemma BitBelow(b: byte, position: nat)
    requires 0 < position
    ensures Bit(b, position) <==> Bit(b / 2, position - 1)
    ensures Bit(b, 0) <==> b % 2 == 1
    ensures Bit(b / 2, 0) <==> b / 2 % 2 == 1
  {
  }

  lemma PowersOfTwo()
    ensures Pow2(0) == 1 && Pow2(1) == 2 && Pow2(2) == 4 && Pow2(3) == 8
    ensures Pow2(4) == 16 && Pow2(5) == 32 && Pow2(6) == 64 && Pow2(7) == 128 && Pow2(8) == 256
  {
    assert Pow2(4) == 2 * Pow2(3) == 16;
    assert Pow2(6) == 2 * Pow2(5) == 64;
    assert Pow2(8) == 2 * Pow2(7);
  }

  /** The index of the first NUL from `i` on, or `end`. */
  function NulIndex(bs: seq<byte>, i: nat, end: nat): (n: nat)
    requires i <= end <= |bs|
    ensures i <= n <= end && (n < end ==> bs[n] == 0)
    ensures forall k :: i <= k < n ==> bs[k] != 0
    decreases end - i
  {
    if i == end || bs[i] == 0 then i else NulIndex(bs, i + 1, end)
  }

  /** What C code takes for the string at `from`, given memory up to `end`: everything before the first NUL. */
  function CStringAt(bs: seq<byte>, from: nat, end: nat): (s: CString)
    requires from <= end <= |bs|
    ensures |s| <= end - from && (|s| < end - from ==> bs[from + |s|] == 0)
  {
    bs[from..NulIndex(bs, from, end)]
  }
}
