/**
 * Fixed-width integers as they travel in RDP virtual-channel PDUs: unsigned
 * 8/16/32/64-bit values, signed 16/32-bit values in two's complement, and
 * their little-endian byte layouts.
 */
module Bytes {
  type byte = x: int | 0 <= x < 0x100
  type u16 = x: int | 0 <= x < 0x1_0000
  type u32 = x: int | 0 <= x < 0x1_0000_0000
  type u64 = x: int | 0 <= x < 0x1_0000_0000_0000_0000
  type i16 = x: int | -0x8000 <= x < 0x8000
  type i32 = x: int | -0x8000_0000 <= x < 0x8000_0000
  type i64 = x: int | -0x8000_0000_0000_0000 <= x < 0x8000_0000_0000_0000

  const UINT32_MAX: u32 := 0xFFFF_FFFF

  /** Two's-complement bit pattern of a signed 16-bit value. */
  function U16OfI16(x: i16): (r: u16)
    ensures x >= 0 ==> r == x
    ensures x < 0 ==> r >= 0x8000
  {
    if x < 0 then x + 0x1_0000 else x
  }

  /** Signed 16-bit value of a bit pattern. */
  function I16OfU16(u: u16): (r: i16)
    ensures u < 0x8000 ==> r == u
    ensures u >= 0x8000 ==> r < 0
  {
    if u >= 0x8000 then u - 0x1_0000 else u
  }

  /** A C cast of an unsigned 32-bit value to a signed 32-bit one (LONG, int). */
  function I32OfU32(u: u32): (r: i32)
    ensures (r as int) % 0x1_0000_0000 == u
  {
    if u >= 0x8000_0000 then u - 0x1_0000_0000 else u
  }

  /** Wrap-around of an arbitrary integer into the signed 32-bit range. */
  function WrapI32(x: int): (r: i32)
    ensures (r - x) % 0x1_0000_0000 == 0
  {
    I32OfU32(x % 0x1_0000_0000)
  }

  /** Two's-complement wrap-around of an integer into the signed 64-bit range (LONGLONG). */
  function WrapI64(x: int): (r: i64)
    ensures (r - x) % 0x1_0000_0000_0000_0000 == 0
    ensures -0x8000_0000_0000_0000 <= x < 0x8000_0000_0000_0000 ==> r == x
  {
    var m := x % 0x1_0000_0000_0000_0000;
    if m >= 0x8000_0000_0000_0000 then m - 0x1_0000_0000_0000_0000 else m
  }

  function LeU16(x: u16): (r: seq<byte>)
    ensures |r| == 2
  {
    [x % 0x100, x / 0x100]
  }

  function LeU32(x: u32): (r: seq<byte>)
    ensures |r| == 4
  {
    LeU16(x % 0x1_0000) + LeU16(x / 0x1_0000)
  }

  /** The unsigned 16-bit value stored little-endian at s[i], s[i+1]. */
  function U16At(s: seq<byte>, i: nat): u16
    requires i + 2 <= |s|
  {
    s[i] as int + 0x100 * (s[i + 1] as int)
  }

  /** The unsigned 32-bit value stored little-endian at s[i..i+4]. */
  function U32At(s: seq<byte>, i: nat): u32
    requires i + 4 <= |s|
  {
    U16At(s, i) as int + 0x1_0000 * (U16At(s, i + 2) as int)
  }

  /** Reading back what LeU16 laid down gives the value. */
  lemma U16RoundTrip(x: u16, s: seq<byte>, i: nat)
    requires i + 2 <= |s| && s[i..i + 2] == LeU16(x)
    ensures U16At(s, i) == x
  {
    assert s[i] == LeU16(x)[0] && s[i + 1] == LeU16(x)[1];
  }

  /** Any two bytes are the layout of the value read from them. */
  lemma U16Canonical(s: seq<byte>, i: nat)
    requires i + 2 <= |s|
    ensures LeU16(U16At(s, i)) == s[i..i + 2]
  {
  }

  lemma {:induction false} U32RoundTrip(x: u32, s: seq<byte>, i: nat)
    requires i + 4 <= |s| && s[i..i + 4] == LeU32(x)
    ensures U32At(s, i) == x
  {
    assert s[i..i + 2] == LeU16(x % 0x1_0000) by {
      assert s[i..i + 2] == s[i..i + 4][..2];
    }
    assert s[i + 2..i + 4] == LeU16(x / 0x1_0000) by {
      assert s[i + 2..i + 4] == s[i..i + 4][2..];
    }
    U16RoundTrip(x % 0x1_0000, s, i);
    U16RoundTrip(x / 0x1_0000, s, i + 2);
  }

  lemma {:induction false} U32Canonical(s: seq<byte>, i: nat)
    requires i + 4 <= |s|
    ensures LeU32(U32At(s, i)) == s[i..i + 4]
  {
    var v := U32At(s, i);
    assert v % 0x1_0000 == U16At(s, i);
    assert v / 0x1_0000 == U16At(s, i + 2);
    U16Canonical(s, i);
    U16Canonical(s, i + 2);
    assert s[i..i + 4] == s[i..i + 2] + s[i + 2..i + 4];
  }

  /** Signed 16-bit fields survive the trip through their bit pattern. */
  lemma I16RoundTrip(x: i16)
    ensures I16OfU16(U16OfI16(x)) == x
  {
  }

  /** The low and high 32-bit halves of a 64-bit value, as sent in nPositionLow/High. */
  function Low32(x: u64): u32 { x % 0x1_0000_0000 }
  function High32(x: u64): u32 { x / 0x1_0000_0000 }

  /** Joining the halves back, as `((UINT64)high << 32) | low` does, restores the value. */
  function Join64(high: u32, low: u32): (r: u64)
    ensures Low32(r) == low && High32(r) == high
  {
    high * 0x1_0000_0000 + low
  }

  lemma SplitJoin(x: u64)
    ensures Join64(High32(x), Low32(x)) == x
  {
  }

  /** A u16 read from a concatenation is read from the part it lies in. */
  lemma U16AtCat(x: seq<byte>, y: seq<byte>, i: nat)
    requires i + 2 <= |x| + |y|
    ensures i + 2 <= |x| ==> U16At(x + y, i) == U16At(x, i)
    ensures |x| <= i ==> U16At(x + y, i) == U16At(y, i - |x|)
  {
  }

  lemma U32AtCat(x: seq<byte>, y: seq<byte>, i: nat)
    requires i + 4 <= |x| + |y|
    ensures i + 4 <= |x| ==> U32At(x + y, i) == U32At(x, i)
    ensures |x| <= i ==> U32At(x + y, i) == U32At(y, i - |x|)
  {
    U16AtCat(x, y, i);
    U16AtCat(x, y, i + 2);
  }

  lemma U16OfLe(x: u16)
    ensures U16At(LeU16(x), 0) == x
  {
  }

  lemma U32OfLe(x: u32)
    ensures U32At(LeU32(x), 0) == x
  {
    U16AtCat(LeU16(x % 0x1_0000), LeU16(x / 0x1_0000), 0);
    U16AtCat(LeU16(x % 0x1_0000), LeU16(x / 0x1_0000), 2);
    U16OfLe(x % 0x1_0000);
    U16OfLe(x / 0x1_0000);
  }

  /** A little-endian u16 laid down between other bytes reads back at its offset. */
  lemma U16In(pre: seq<byte>, x: u16, post: seq<byte>)
    ensures U16At(pre + LeU16(x) + post, |pre|) == x
  {
    U16AtCat(pre + LeU16(x), post, |pre|);
    U16AtCat(pre, LeU16(x), |pre|);
    U16OfLe(x);
  }

  lemma U32In(pre: seq<byte>, x: u32, post: seq<byte>)
    ensures U32At(pre + LeU32(x) + post, |pre|) == x
  {
    U32AtCat(pre + LeU32(x), post, |pre|);
    U32AtCat(pre, LeU32(x), |pre|);
    U32OfLe(x);
  }

  /** A UTF-16 string of `|s|` code units, little-endian, as Stream_Write_UTF16_String lays it down. */
  function LeWChars(s: seq<u16>): (r: seq<byte>)
    ensures |r| == 2 * |s|
  {
    if s == [] then [] else LeU16(s[0]) + LeWChars(s[1..])
  }

  /** The `count` code units stored from offset i. */
  function WCharsAt(b: seq<byte>, i: nat, count: nat): (r: seq<u16>)
    requires i + 2 * count <= |b|
    ensures |r| == count
  {
    seq(count, k requires 0 <= k < count => U16At(b, i + 2 * k))
  }

  /** The two bytes of code unit k of a little-endian wide string. */
  lemma {:induction false} LeWCharsAt(s: seq<u16>, k: nat)
    requires k < |s|
    ensures LeWChars(s)[2 * k] == s[k] % 0x100 && LeWChars(s)[2 * k + 1] == s[k] / 0x100
  {
    if k > 0 {
      LeWCharsAt(s[1..], k - 1);
      assert LeWChars(s) == LeU16(s[0]) + LeWChars(s[1..]);
    }
  }

  /** The code units of a little-endian wide string read back from wherever it lies. */
  lemma WCharsFrom(b: seq<byte>, i: nat, w: seq<u16>)
    requires i + 2 * |w| <= |b| && b[i..i + 2 * |w|] == LeWChars(w)
    ensures WCharsAt(b, i, |w|) == w
  {
    var r := WCharsAt(b, i, |w|);
    forall k | 0 <= k < |w| ensures r[k] == w[k] {
      WCharFrom(b, i, w, k);
      WCharsAtIndex(b, i, |w|, k);
    }
    assert r == w;
  }

  lemma WCharsAtIndex(b: seq<byte>, i: nat, count: nat, k: nat)
    requires i + 2 * count <= |b| && k < count
    ensures WCharsAt(b, i, count)[k] == U16At(b, i + 2 * k)
  {
  }

  lemma WCharFrom(b: seq<byte>, i: nat, w: seq<u16>, k: nat)
    requires i + 2 * |w| <= |b| && b[i..i + 2 * |w|] == LeWChars(w) && k < |w|
    ensures U16At(b, i + 2 * k) == w[k]
  {
    var m := b[i..i + 2 * |w|];
    assert b[i + 2 * k] == m[2 * k] && b[i + 2 * k + 1] == m[2 * k + 1];
    LeWCharsAt(w, k);
    ByteHalves(w[k]);
  }

  lemma ByteHalves(x: u16)
    ensures x % 0x100 + 0x100 * (x / 0x100) == x
  {
  }
}
