/**
 * The lazy IStream the Windows client hands to OLE for a file the server
 * offered on the clipboard (CliprdrStream in client/Windows/wf_cliprdr.c).
 * The stream keeps a 64-bit cursor and a 64-bit size; a Read asks the server
 * for a byte range through a File Contents Request (section 2.2.5.3 of
 * MS-RDPECLIP) and the reply's bytes become the data read.
 *
 * The request/reply rendezvous is not modelled: a Read receives the status of
 * cliprdr_send_request_filecontents and the reply buffer (req_fdata,
 * req_fsize) as it stands afterwards.
 */
module ClipStream {
  import opened Bytes
  import opened Win32
  import opened CliprdrPdu
  import opened Wrappers

  const STREAM_SEEK_SET: u32 := 0
  const STREAM_SEEK_CUR: u32 := 1
  const STREAM_SEEK_END: u32 := 2

  // FILEDESCRIPTORW flags and file attributes used by the size rule.
  const FD_ATTRIBUTES: bv32 := 0x4
  const FD_FILESIZE: bv32 := 0x40
  const FILE_ATTRIBUTE_DIRECTORY: bv32 := 0x10

  const TWO_64: int := 0x1_0000_0000_0000_0000

  /** ULONGLONG arithmetic: the mathematical value reduced modulo 2^64. */
  function Wrap64(x: int): (r: u64)
    ensures 0 <= x < TWO_64 ==> r == x
    ensures -TWO_64 <= x < 0 ==> r == x + TWO_64
  {
    x % TWO_64
  }

  /** A FILEDESCRIPTORW: validity flags, attributes, the two halves of the size and the relative name. */
  datatype Descriptor = Descriptor(flags: bv32, attributes: bv32, sizeHigh: u32, sizeLow: u32, name: string)

  /** A descriptor names a directory only when its attributes are marked valid. */
  predicate IsDirectory(d: Descriptor)
  {
    Bit(d.flags, FD_ATTRIBUTES) && Bit(d.attributes, FILE_ATTRIBUTE_DIRECTORY)
  }

  /**
   * The stream asks the server for the size (a FILECONTENTS_SIZE request)
   * exactly when the descriptor carries no size and is not a directory.
   */
  predicate AsksServerForSize(d: Descriptor)
  {
    !Bit(d.flags, FD_FILESIZE) && !IsDirectory(d)
  }

  /** A size the descriptor carries is never asked for, and neither is a directory's. */
  lemma SizeRule(d: Descriptor)
    ensures Bit(d.flags, FD_FILESIZE) ==> !AsksServerForSize(d)
    ensures IsDirectory(d) ==> !AsksServerForSize(d)
    ensures !AsksServerForSize(d) && !IsDirectory(d) ==> Bit(d.flags, FD_FILESIZE)
  {
  }

  /** The new cursor a Seek computes, or None for an unknown origin. */
  function SeekTarget(offset: u64, size: u64, move: i64, origin: u32): (r: Option<u64>)
    ensures r.Some? <==> origin <= STREAM_SEEK_END
    ensures origin == STREAM_SEEK_SET ==> r == Some(Wrap64(move))
    ensures origin == STREAM_SEEK_CUR ==> r == Some(Wrap64(offset + move))
    ensures origin == STREAM_SEEK_END ==> r == Some(Wrap64(size + move))
  {
    if origin == STREAM_SEEK_SET then Some(Wrap64(move))
    else if origin == STREAM_SEEK_CUR then Some(Wrap64(offset + move))
    else if origin == STREAM_SEEK_END then Some(Wrap64(size + move))
    else None
  }

  /**
   * While the cursor and the size fit in a LONGLONG, the wrapped arithmetic
   * of a Seek does what the mathematical one does: the seek succeeds exactly
   * when the intended position lies in [0, size), and then lands on it.
   */
  lemma SeekIsExact(offset: u64, size: u64, move: i64, origin: u32)
    requires origin <= STREAM_SEEK_END
    requires offset <= 0x8000_0000_0000_0000 && size <= 0x8000_0000_0000_0000
    ensures var base := if origin == STREAM_SEEK_SET then 0 else if origin == STREAM_SEEK_CUR then offset else size;
            var t := SeekTarget(offset, size, move, origin).value;
            (t < size <==> 0 <= base + move < size) && (t < size ==> t == base + move)
  {
  }

  /**
   * Seeking to exactly the end of the stream is refused: the code accepts a
   * new position only when it is strictly below the size.
   */
  lemma SeekToEndRefused(offset: u64, size: u64)
    ensures SeekTarget(offset, size, 0, STREAM_SEEK_END).value >= size
  {
  }

  /** What one Read returns: the HRESULT, the bytes placed in the caller's buffer and the new cursor. */
  datatype ReadOutcome = ReadOutcome(hr: u32, got: seq<byte>, offset: u64)

  /**
   * CliprdrStream_Read as written. The request status is stored in an `int`
   * and only a negative value counts as failure, and the reply's byte count
   * is copied and reported without being bounded by `cb`.
   */
  function ReadAsWritten(offset: u64, size: u64, cb: u32, rc: u32, reply: seq<byte>): (r: ReadOutcome)
    requires |reply| <= UINT32_MAX
    ensures offset >= size ==> r == ReadOutcome(S_FALSE, [], offset)
    ensures offset < size && rc < 0x8000_0000 ==> r.got == reply
  {
    if offset >= size then ReadOutcome(S_FALSE, [], offset)
    else if I32OfU32(rc) < 0 then ReadOutcome(E_FAIL, [], offset)
    else ReadOutcome(if |reply| < cb then S_FALSE else S_OK, reply, Wrap64(offset + |reply|))
  }

  /** A server that answers a 4-byte read with 8 bytes makes Read report, and copy, 8 bytes. */
  lemma ReadAsWrittenOverruns()
    ensures var r := ReadAsWritten(0, 16, 4, CHANNEL_RC_OK, [1, 2, 3, 4, 5, 6, 7, 8]);
            r.hr == S_OK && |r.got| == 8 && r.offset == 8
  {
  }

  /**
   * A failed request (here ERROR_INTERNAL_ERROR, what the wait returns when it
   * fails) is not negative as an `int`, so Read goes on and reports whatever
   * the reply buffer still holds from an earlier reply.
   */
  lemma ReadAsWrittenIgnoresFailure(stale: seq<byte>)
    requires 1 <= |stale| <= 4
    ensures var r := ReadAsWritten(0, 16, 4, ERROR_INTERNAL_ERROR, stale);
            r.hr != E_FAIL && r.got == stale && r.offset == |stale|
  {
  }

  /**
   * Read as IStream::Read promises it: at most `cb` bytes reach the caller,
   * any failed request is E_FAIL with the cursor unchanged, and the cursor
   * advances by exactly the number of bytes returned.
   */
  function BoundedRead(offset: u64, size: u64, cb: u32, rc: u32, reply: seq<byte>): (r: ReadOutcome)
    requires |reply| <= UINT32_MAX
    ensures offset >= size ==> r == ReadOutcome(S_FALSE, [], offset)
    ensures offset < size && rc != CHANNEL_RC_OK ==> r == ReadOutcome(E_FAIL, [], offset)
    ensures |r.got| <= cb && r.got <= reply
    ensures r.offset == Wrap64(offset + |r.got|)
    ensures r.hr == S_OK <==> offset < size && rc == CHANNEL_RC_OK && |reply| >= cb
    ensures r.hr == S_FALSE <==> offset >= size || (rc == CHANNEL_RC_OK && |reply| < cb)
    ensures offset < size && rc == CHANNEL_RC_OK ==> |r.got| == if |reply| < cb then |reply| else cb
  {
    if offset >= size then ReadOutcome(S_FALSE, [], offset)
    else if rc != CHANNEL_RC_OK then ReadOutcome(E_FAIL, [], offset)
    else
      var got := if |reply| <= cb then reply else reply[..cb];
      ReadOutcome(if |got| < cb then S_FALSE else S_OK, got, Wrap64(offset + |got|))
  }

  /** When the request succeeds and the server sends no more than was asked, the two agree. */
  lemma ReadAgreesWithSource(offset: u64, size: u64, cb: u32, reply: seq<byte>)
    requires |reply| <= cb
    ensures ReadAsWritten(offset, size, cb, CHANNEL_RC_OK, reply) == BoundedRead(offset, size, cb, CHANNEL_RC_OK, reply)
  {
  }

  /** Two reads that both fill their buffers leave the cursor where one read of the joint length would. */
  lemma ReadsCompose(offset: u64, size: u64, a: seq<byte>, b: seq<byte>)
    requires 1 <= |a| <= UINT32_MAX && |b| <= UINT32_MAX
    requires offset + |a| < size
    ensures var first := BoundedRead(offset, size, |a|, CHANNEL_RC_OK, a);
            var second := BoundedRead(first.offset, size, |b|, CHANNEL_RC_OK, b);
            first.got + second.got == a + b && second.offset == Wrap64(offset + |a| + |b|)
  {
  }

  class FileStream {
    var index: u32
    var size: u64
    var offset: u64

    constructor Open(listIndex: u32, streamSize: u64)
      ensures index == listIndex && size == streamSize && offset == 0
    {
      index := listIndex;
      size := streamSize;
      offset := 0;
    }

    /**
     * CliprdrStream_New: the stream starts at offset 0. Its size comes from the
     * descriptor, joined from its two halves, unless the descriptor carries
     * no size and is not a directory; then it is the 8-byte answer to a
     * FILECONTENTS_SIZE request, and a failed request yields no stream.
     */
    static method New(listIndex: u32, dsc: Descriptor, rc: u32, reportedSize: u64) returns (s: FileStream?)
      ensures s != null <==> !AsksServerForSize(dsc) || rc == CHANNEL_RC_OK
      ensures s != null ==> fresh(s) && s.index == listIndex && s.offset == 0
      ensures s != null ==> s.size == if AsksServerForSize(dsc) then reportedSize else Join64(dsc.sizeHigh, dsc.sizeLow)
    {
      var isDir := false;
      if Bit(dsc.flags, FD_ATTRIBUTES) {
        if Bit(dsc.attributes, FILE_ATTRIBUTE_DIRECTORY) {
          isDir := true;
        }
      }
      if !Bit(dsc.flags, FD_FILESIZE) && !isDir {
        if rc == CHANNEL_RC_OK {
          s := new FileStream.Open(listIndex, reportedSize);
        } else {
          s := null;
        }
      } else {
        s := new FileStream.Open(listIndex, Join64(dsc.sizeHigh, dsc.sizeLow));
      }
    }

    /**
     * CliprdrStream_Seek: an unknown origin is E_INVALIDARG; otherwise the new
     * position is committed, and reported, exactly when it is below the size.
     */
    method Seek(move: i64, origin: u32) returns (hr: u32, newPosition: Option<u64>)
      modifies this`offset
      ensures origin > STREAM_SEEK_END ==> hr == E_INVALIDARG && newPosition == None && offset == old(offset)
      ensures origin <= STREAM_SEEK_END ==>
                var t := SeekTarget(old(offset), size, move, origin).value;
                if t < size then hr == S_OK && offset == t && newPosition == Some(t)
                else hr == E_FAIL && offset == old(offset) && newPosition == None
    {
      var newOffset: u64 := offset;
      if origin == STREAM_SEEK_SET {
        newOffset := Wrap64(move);
      } else if origin == STREAM_SEEK_CUR {
        newOffset := Wrap64(newOffset + move);
      } else if origin == STREAM_SEEK_END {
        newOffset := Wrap64(size + move);
      } else {
        return E_INVALIDARG, None;
      }
      if newOffset >= size {
        return E_FAIL, None;
      }
      offset := newOffset;
      hr, newPosition := S_OK, Some(offset);
    }

    /** Read with the cursor accounting the IStream contract asks for. */
    method Read(cb: u32, rc: u32, reply: seq<byte>) returns (hr: u32, got: seq<byte>)
      requires |reply| <= UINT32_MAX
      modifies this`offset
      ensures ReadOutcome(hr, got, offset) == BoundedRead(old(offset), size, cb, rc, reply)
    {
      if offset >= size {
        return S_FALSE, [];
      }
      if rc != CHANNEL_RC_OK {
        return E_FAIL, [];
      }
      got := if |reply| <= cb then reply else reply[..cb];
      offset := Wrap64(offset + |got|);
      hr := if |got| < cb then S_FALSE else S_OK;
    }

    /** The stream is read-only: every write is refused and nothing changes. */
    method Write(data: seq<byte>) returns (hr: u32)
      ensures hr == STG_E_ACCESSDENIED
    {
      hr := STG_E_ACCESSDENIED;
    }
  }
}
