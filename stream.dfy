/**
 * The byte stream (wStream) that every PDU reader and writer works on: a
 * buffer and a cursor. Reads consume bytes at the cursor and must stay within
 * the buffer; writes lay bytes down at the cursor, overwriting what is there
 * and growing the buffer when they run past its end, as a stream whose
 * capacity was reserved by its creator does.
 */
module WStream {
  import opened Bytes

  function Max(a: nat, b: nat): nat { if a < b then b else a }

  /** `d` with the bytes from position `p` on replaced by `b`, grown when `b` runs past the end. */
  function Overwrite(d: seq<byte>, p: nat, b: seq<byte>): (r: seq<byte>)
    requires p <= |d|
    ensures |r| == Max(|d|, p + |b|)
    ensures r[..p] == d[..p] && r[p..p + |b|] == b
    ensures forall k :: p + |b| <= k < |r| ==> r[k] == d[k]
  {
    if p + |b| >= |d| then d[..p] + b else d[..p] + b + d[p + |b|..]
  }

  /** Two consecutive writes are one write of the concatenation. */
  lemma OverwriteTwice(d: seq<byte>, p: nat, a: seq<byte>, b: seq<byte>)
    requires p <= |d|
    ensures Overwrite(Overwrite(d, p, a), p + |a|, b) == Overwrite(d, p, a + b)
  {
    var l := Overwrite(Overwrite(d, p, a), p + |a|, b);
    var r := Overwrite(d, p, a + b);
    assert |l| == |r|;
    forall k | 0 <= k < |l| ensures l[k] == r[k] {
      if k < p {
        assert l[k] == l[..p][k];
        assert r[k] == r[..p][k];
      } else if k < p + |a| {
        assert l[k] == l[..p + |a|][k];
        assert r[k] == r[p..p + |a| + |b|][k - p];
      } else if k < p + |a| + |b| {
        assert l[k] == l[p + |a|..p + |a| + |b|][k - p - |a|];
        assert r[k] == r[p..p + |a| + |b|][k - p];
      }
    }
  }

  /** Writing at the end of the buffer appends. */
  lemma OverwriteAtEnd(d: seq<byte>, b: seq<byte>)
    ensures Overwrite(d, |d|, b) == d + b
  {
  }

  class Stream {
    var data: seq<byte>
    var pos: nat

    ghost predicate Valid()
      reads this
    {
      pos <= |data|
    }

    /** Stream_GetRemainingLength. */
    function Remaining(): nat
      reads this
      requires Valid()
    {
      |data| - pos
    }

    /** A stream over received bytes, cursor at the start. */
    constructor FromBytes(bytes: seq<byte>)
      ensures Valid() && data == bytes && pos == 0
    {
      data := bytes;
      pos := 0;
    }

    /** A fresh outgoing stream whose first `header` bytes are reserved for a header patched in later. */
    constructor Reserve(header: nat)
      ensures Valid() && |data| == header && pos == header
    {
      data := seq(header, _ => 0);
      pos := header;
    }

    method SetPosition(p: nat)
      requires p <= |data|
      modifies this`pos
      ensures Valid() && pos == p
    {
      pos := p;
    }

    /** Stream_Seek: skips bytes that are present. */
    method Skip(n: nat)
      requires Valid() && n <= Remaining()
      modifies this`pos
      ensures Valid() && pos == old(pos) + n
    {
      pos := pos + n;
    }

    method Write(b: seq<byte>)
      requires Valid()
      modifies this
      ensures Valid()
      ensures data == Overwrite(old(data), old(pos), b) && pos == old(pos) + |b|
    {
      data := Overwrite(data, pos, b);
      pos := pos + |b|;
    }

    method WriteU8(x: byte)
      requires Valid()
      modifies this
      ensures Valid()
      ensures data == Overwrite(old(data), old(pos), [x]) && pos == old(pos) + 1
    {
      Write([x]);
    }

    method WriteU16(x: u16)
      requires Valid()
      modifies this
      ensures Valid()
      ensures data == Overwrite(old(data), old(pos), LeU16(x)) && pos == old(pos) + 2
    {
      Write(LeU16(x));
    }

    method WriteI16(x: i16)
      requires Valid()
      modifies this
      ensures Valid()
      ensures data == Overwrite(old(data), old(pos), LeU16(U16OfI16(x))) && pos == old(pos) + 2
    {
      Write(LeU16(U16OfI16(x)));
    }

    method WriteU32(x: u32)
      requires Valid()
      modifies this
      ensures Valid()
      ensures data == Overwrite(old(data), old(pos), LeU32(x)) && pos == old(pos) + 4
    {
      Write(LeU32(x));
    }

    /** Stream_Write_UTF16_String: `|w|` code units, little-endian. */
    method WriteWChars(w: seq<u16>)
      requires Valid()
      modifies this
      ensures Valid()
      ensures data == Overwrite(old(data), old(pos), LeWChars(w)) && pos == old(pos) + 2 * |w|
    {
      Write(LeWChars(w));
    }

    /** Reads `n` UTF-16 code units. */
    method ReadWChars(n: nat) returns (w: seq<u16>)
      requires Valid() && 2 * n <= Remaining()
      modifies this`pos
      ensures Valid() && pos == old(pos) + 2 * n
      ensures w == WCharsAt(data, old(pos), n)
    {
      w := WCharsAt(data, pos, n);
      pos := pos + 2 * n;
    }

    method Read(n: nat) returns (b: seq<byte>)
      requires Valid() && n <= Remaining()
      modifies this`pos
      ensures Valid() && pos == old(pos) + n
      ensures b == data[old(pos)..pos]
    {
      b := data[pos..pos + n];
      pos := pos + n;
    }

    method ReadU8() returns (x: byte)
      requires Valid() && 1 <= Remaining()
      modifies this`pos
      ensures Valid() && pos == old(pos) + 1
      ensures x == data[old(pos)]
    {
      x := data[pos];
      pos := pos + 1;
    }

    method ReadU16() returns (x: u16)
      requires Valid() && 2 <= Remaining()
      modifies this`pos
      ensures Valid() && pos == old(pos) + 2
      ensures x == U16At(data, old(pos))
    {
      x := U16At(data, pos);
      pos := pos + 2;
    }

    method ReadI16() returns (x: i16)
      requires Valid() && 2 <= Remaining()
      modifies this`pos
      ensures Valid() && pos == old(pos) + 2
      ensures x == I16OfU16(U16At(data, old(pos)))
    {
      x := I16OfU16(U16At(data, pos));
      pos := pos + 2;
    }

    method ReadU32() returns (x: u32)
      requires Valid() && 4 <= Remaining()
      modifies this`pos
      ensures Valid() && pos == old(pos) + 4
      ensures x == U32At(data, old(pos))
    {
      x := U32At(data, pos);
      pos := pos + 4;
    }
  }
}
