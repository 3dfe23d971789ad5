/**
 * The Client Execute order (section 2.2.2.3.1 of MS-RDPERP) as the RAIL
 * server reads it: flags and three byte lengths, then up to three UTF-16
 * strings. A string of length zero is left unset; a string the UTF-16 to UTF-8
 * conversion rejects fails the whole order. The conversion is a library
 * routine that is not part of this model, so whether it succeeds is a
 * parameter (`convertible`) and a converted string is kept as its code units.
 */
module RailExec {
  import opened Bytes
  import opened Wrappers
  import opened Win32

  /** The fixed part: Flags, ExeOrFileLength, WorkingDirLength, ArgumentsLength. */
  const EXEC_HEADER_LENGTH: nat := 8

  datatype ExecOrder = ExecOrder(
    flags: u16,
    exeOrFile: Option<seq<u16>>,
    workingDir: Option<seq<u16>>,
    arguments: Option<seq<u16>>)

  /** The outcome of reading an Execute order: the order or an error code, and where the cursor stopped. */
  datatype ExecRead = ExecRead(result: Result<ExecOrder, u32>, end: nat)

  /** A string field of `len` bytes at offset p: unset when empty, else len / 2 code units. */
  function StringAt(b: seq<byte>, p: nat, len: u16): (r: Option<seq<u16>>)
    requires p + len <= |b|
    ensures r.None? <==> len == 0
    ensures r.Some? ==> |r.value| == len / 2
  {
    if len == 0 then None else Some(WCharsAt(b, p, len / 2))
  }

  /** rail_read_exec_order on the order body `b`. */
  function DecodeExec(b: seq<byte>, convertible: seq<u16> -> bool): (r: ExecRead)
    ensures r.end <= |b|
    ensures |b| < EXEC_HEADER_LENGTH ==> r == ExecRead(Err(ERROR_INVALID_DATA), 0)
    ensures |b| >= EXEC_HEADER_LENGTH
            && |b| - EXEC_HEADER_LENGTH < U16At(b, 2) as int + U16At(b, 4) as int + U16At(b, 6) as int
            ==> r == ExecRead(Err(ERROR_INVALID_DATA), EXEC_HEADER_LENGTH)
    ensures r.result.Err? ==> r.result.error in {ERROR_INVALID_DATA, ERROR_INTERNAL_ERROR}
    ensures r.result.Ok? ==> var e := r.result.value;
      e.flags == U16At(b, 0)
      && (e.exeOrFile.None? <==> U16At(b, 2) == 0)
      && (e.workingDir.None? <==> U16At(b, 4) == 0)
      && (e.arguments.None? <==> U16At(b, 6) == 0)
  {
    if |b| < EXEC_HEADER_LENGTH then ExecRead(Err(ERROR_INVALID_DATA), 0)
    else
      var flags, exeLen, workLen, argLen := U16At(b, 0), U16At(b, 2), U16At(b, 4), U16At(b, 6);
      if |b| - EXEC_HEADER_LENGTH < exeLen as int + workLen as int + argLen as int then
        ExecRead(Err(ERROR_INVALID_DATA), EXEC_HEADER_LENGTH)
      else
        DecodeStrings(b, flags, exeLen, workLen, argLen, convertible)
  }

  /** The three strings of an Execute order whose lengths passed the check, read and converted in turn. */
  function DecodeStrings(b: seq<byte>, flags: u16, exeLen: u16, workLen: u16, argLen: u16,
                         convertible: seq<u16> -> bool): (r: ExecRead)
    requires EXEC_HEADER_LENGTH + exeLen + workLen + argLen <= |b|
    ensures EXEC_HEADER_LENGTH <= r.end <= |b|
    ensures r.result.Err? ==> r.result.error == ERROR_INTERNAL_ERROR
    ensures r.result.Ok? ==> var e := r.result.value;
      e.flags == flags && (e.exeOrFile.None? <==> exeLen == 0)
      && (e.workingDir.None? <==> workLen == 0) && (e.arguments.None? <==> argLen == 0)
  {
    var p0 := EXEC_HEADER_LENGTH;
    var exe := StringAt(b, p0, exeLen);
    var p1 := p0 + 2 * (exeLen / 2);
    if exe.Some? && !convertible(exe.value) then ExecRead(Err(ERROR_INTERNAL_ERROR), p1)
    else
      var work := StringAt(b, p1, workLen);
      var p2 := p1 + 2 * (workLen / 2);
      if work.Some? && !convertible(work.value) then ExecRead(Err(ERROR_INTERNAL_ERROR), p2)
      else
        var args := StringAt(b, p2, argLen);
        var p3 := p2 + 2 * (argLen / 2);
        if args.Some? && !convertible(args.value) then ExecRead(Err(ERROR_INTERNAL_ERROR), p3)
        else ExecRead(Ok(ExecOrder(flags, exe, work, args)), p3)
  }

  // ---------------------------------------------------------------------
  // The client's side, as a reference for the reader

  /** A string the client can send: unset, or a nonempty string whose byte length fits a u16. */
  predicate Sendable(s: Option<seq<u16>>)
  {
    s.Some? ==> 0 < 2 * |s.value| <= 0xFFFF
  }

  function Units(s: Option<seq<u16>>): seq<u16>
  {
    if s.Some? then s.value else []
  }

  function ByteLength(s: Option<seq<u16>>): u16
    requires Sendable(s)
  {
    2 * |Units(s)|
  }

  /** The bytes of an Execute order body as a client lays it down. */
  function EncodeExec(e: ExecOrder): (r: seq<byte>)
    requires Sendable(e.exeOrFile) && Sendable(e.workingDir) && Sendable(e.arguments)
    ensures |r| == 8 + 2 * |Units(e.exeOrFile)| + 2 * |Units(e.workingDir)| + 2 * |Units(e.arguments)|
  {
    ExecHeader(e) + LeWChars(Units(e.exeOrFile)) + LeWChars(Units(e.workingDir)) + LeWChars(Units(e.arguments))
  }

  function ExecHeader(e: ExecOrder): (r: seq<byte>)
    requires Sendable(e.exeOrFile) && Sendable(e.workingDir) && Sendable(e.arguments)
    ensures |r| == 8
  {
    LeU16(e.flags) + LeU16(ByteLength(e.exeOrFile)) + LeU16(ByteLength(e.workingDir))
    + LeU16(ByteLength(e.arguments))
  }

  predicate AllConvertible(e: ExecOrder, convertible: seq<u16> -> bool)
  {
    (e.exeOrFile.Some? ==> convertible(e.exeOrFile.value))
    && (e.workingDir.Some? ==> convertible(e.workingDir.value))
    && (e.arguments.Some? ==> convertible(e.arguments.value))
  }

  /** The server reads back any order a client sends, when every string converts, and stops at its end. */
  lemma DecodeEncodeExec(e: ExecOrder, rest: seq<byte>, convertible: seq<u16> -> bool)
    requires Sendable(e.exeOrFile) && Sendable(e.workingDir) && Sendable(e.arguments)
    requires AllConvertible(e, convertible)
    ensures DecodeExec(EncodeExec(e) + rest, convertible)
            == ExecRead(Ok(e), |EncodeExec(e)|)
  {
    var b := EncodeExec(e) + rest;
    var l1, l2, l3 := ByteLength(e.exeOrFile), ByteLength(e.workingDir), ByteLength(e.arguments);
    assert DecodeExec(b, convertible) == DecodeStrings(b, e.flags, l1, l2, l3, convertible) by {
      ExecHeaderIn(e, rest);
      DecodeHeader(b, e.flags, l1, l2, l3, convertible);
    }
    ExecStringsIn(e, rest);
    DecodeOrder(b, e, convertible);
  }

  /** Lengths that fit the body lead the reader past its checks to the strings. */
  lemma DecodeHeader(b: seq<byte>, flags: u16, l1: u16, l2: u16, l3: u16, convertible: seq<u16> -> bool)
    requires EXEC_HEADER_LENGTH + l1 + l2 + l3 <= |b|
    requires U16At(b, 0) == flags && U16At(b, 2) == l1 && U16At(b, 4) == l2 && U16At(b, 6) == l3
    ensures DecodeExec(b, convertible) == DecodeStrings(b, flags, l1, l2, l3, convertible)
  {
  }

  /** The three strings read back from where the client put them. */
  lemma ExecStringsIn(e: ExecOrder, rest: seq<byte>)
    requires Sendable(e.exeOrFile) && Sendable(e.workingDir) && Sendable(e.arguments)
    ensures StringAt(EncodeExec(e) + rest, 8, ByteLength(e.exeOrFile)) == e.exeOrFile
    ensures StringAt(EncodeExec(e) + rest, 8 + ByteLength(e.exeOrFile), ByteLength(e.workingDir)) == e.workingDir
    ensures StringAt(EncodeExec(e) + rest, 8 + ByteLength(e.exeOrFile) + ByteLength(e.workingDir),
                     ByteLength(e.arguments)) == e.arguments
  {
    StringsIn(EncodeExec(e) + rest, ExecHeader(e), rest, e.exeOrFile, e.workingDir, e.arguments);
  }

  /** Three strings laid down one after another behind an 8-byte header read back in turn. */
  lemma StringsIn(b: seq<byte>, h: seq<byte>, rest: seq<byte>, s1: Option<seq<u16>>, s2: Option<seq<u16>>, s3: Option<seq<u16>>)
    requires Sendable(s1) && Sendable(s2) && Sendable(s3) && |h| == 8
    requires b == h + LeWChars(Units(s1)) + LeWChars(Units(s2)) + LeWChars(Units(s3)) + rest
    ensures StringAt(b, 8, ByteLength(s1)) == s1
    ensures StringAt(b, 8 + ByteLength(s1), ByteLength(s2)) == s2
    ensures StringAt(b, 8 + ByteLength(s1) + ByteLength(s2), ByteLength(s3)) == s3
  {
    var X, W, A := LeWChars(Units(s1)), LeWChars(Units(s2)), LeWChars(Units(s3));
    RegroupFive(h, X, W, A, rest);
    var p1: nat, p2: nat := 8 + ByteLength(s1), 8 + ByteLength(s1) + ByteLength(s2);
    assert StringAt(b, 8, ByteLength(s1)) == s1 by {
      StringIn(b, 8, h, s1, W + A + rest);
    }
    assert StringAt(b, p1, ByteLength(s2)) == s2 by {
      StringIn(b, p1, h + X, s2, A + rest);
    }
    assert StringAt(b, p2, ByteLength(s3)) == s3 by {
      StringIn(b, p2, h + X + W, s3, rest);
    }
  }

  lemma RegroupFive<T>(h: seq<T>, x: seq<T>, w: seq<T>, a: seq<T>, rest: seq<T>)
    ensures h + x + w + a + rest == h + x + (w + a + rest) == (h + x) + w + (a + rest) == (h + x + w) + a + rest
  {
  }

  /** A string the client sent reads back as itself from wherever it lies. */
  lemma StringIn(b: seq<byte>, p: nat, pre: seq<byte>, s: Option<seq<u16>>, post: seq<byte>)
    requires Sendable(s)
    requires b == pre + LeWChars(Units(s)) + post && p == |pre|
    ensures p + ByteLength(s) <= |b| && StringAt(b, p, ByteLength(s)) == s
  {
    assert b[p..p + 2 * |Units(s)|] == LeWChars(Units(s));
    WCharsFrom(b, p, Units(s));
  }

  /** An order whose strings lie one after another behind the header is read back whole. */
  lemma DecodeOrder(b: seq<byte>, e: ExecOrder, convertible: seq<u16> -> bool)
    requires Sendable(e.exeOrFile) && Sendable(e.workingDir) && Sendable(e.arguments)
    requires AllConvertible(e, convertible)
    requires EXEC_HEADER_LENGTH + ByteLength(e.exeOrFile) + ByteLength(e.workingDir) + ByteLength(e.arguments) <= |b|
    requires StringAt(b, 8, ByteLength(e.exeOrFile)) == e.exeOrFile
    requires StringAt(b, 8 + ByteLength(e.exeOrFile), ByteLength(e.workingDir)) == e.workingDir
    requires StringAt(b, 8 + ByteLength(e.exeOrFile) + ByteLength(e.workingDir), ByteLength(e.arguments)) == e.arguments
    ensures DecodeStrings(b, e.flags, ByteLength(e.exeOrFile), ByteLength(e.workingDir), ByteLength(e.arguments), convertible)
            == ExecRead(Ok(e), 8 + ByteLength(e.exeOrFile) + ByteLength(e.workingDir) + ByteLength(e.arguments))
  {
    var l1, l2, l3 := ByteLength(e.exeOrFile), ByteLength(e.workingDir), ByteLength(e.arguments);
    Even(l1, |Units(e.exeOrFile)|);
    Even(l2, |Units(e.workingDir)|);
    Even(l3, |Units(e.arguments)|);
    DecodeStringsOk(b, e.flags, l1, l2, l3, convertible, 8 + l1 as int, 8 + l1 as int + l2 as int,
                    e.exeOrFile, e.workingDir, e.arguments);
  }

  lemma Even(l: u16, n: nat)
    requires l as int == 2 * n
    ensures 2 * (l / 2) == l
  {
  }

  /** Strings that read back as s1, s2, s3 and all convert make the reader return the order. */
  lemma DecodeStringsOk(b: seq<byte>, flags: u16, l1: u16, l2: u16, l3: u16, convertible: seq<u16> -> bool,
                        p1: nat, p2: nat, s1: Option<seq<u16>>, s2: Option<seq<u16>>, s3: Option<seq<u16>>)
    requires EXEC_HEADER_LENGTH + l1 + l2 + l3 <= |b|
    requires p1 == 8 + 2 * (l1 / 2) && p2 == p1 + 2 * (l2 / 2)
    requires StringAt(b, 8, l1) == s1 && StringAt(b, p1, l2) == s2 && StringAt(b, p2, l3) == s3
    requires s1.Some? ==> convertible(s1.value)
    requires s2.Some? ==> convertible(s2.value)
    requires s3.Some? ==> convertible(s3.value)
    ensures DecodeStrings(b, flags, l1, l2, l3, convertible) == ExecRead(Ok(ExecOrder(flags, s1, s2, s3)), p2 + 2 * (l3 / 2))
  {
  }

  /** The header fields read back from the start of the body. */
  lemma ExecHeaderIn(e: ExecOrder, rest: seq<byte>)
    requires Sendable(e.exeOrFile) && Sendable(e.workingDir) && Sendable(e.arguments)
    ensures var b := EncodeExec(e) + rest;
      U16At(b, 0) == e.flags && U16At(b, 2) == ByteLength(e.exeOrFile)
      && U16At(b, 4) == ByteLength(e.workingDir) && U16At(b, 6) == ByteLength(e.arguments)
  {
    var h, X, W, A := ExecHeader(e), LeWChars(Units(e.exeOrFile)), LeWChars(Units(e.workingDir)), LeWChars(Units(e.arguments));
    var p0, p1, p2, p3 := LeU16(e.flags), LeU16(ByteLength(e.exeOrFile)), LeU16(ByteLength(e.workingDir)), LeU16(ByteLength(e.arguments));
    forall i | i in {0, 2, 4, 6} ensures U16At(h + X + W + A + rest, i) == U16At(h, i) {
      U16AtCat(h + X + W + A, rest, i);
      U16AtCat(h + X + W, A, i);
      U16AtCat(h + X, W, i);
      U16AtCat(h, X, i);
    }
    U16AtCat(p0 + p1 + p2, p3, 0);
    U16AtCat(p0 + p1 + p2, p3, 2);
    U16AtCat(p0 + p1 + p2, p3, 4);
    U16AtCat(p0 + p1 + p2, p3, 6);
    U16AtCat(p0 + p1, p2, 0);
    U16AtCat(p0 + p1, p2, 2);
    U16AtCat(p0 + p1, p2, 4);
    U16AtCat(p0, p1, 0);
    U16AtCat(p0, p1, 2);
    U16OfLe(e.flags);
    U16OfLe(ByteLength(e.exeOrFile));
    U16OfLe(ByteLength(e.workingDir));
    U16OfLe(ByteLength(e.arguments));
  }

  /** A string whose byte length is odd loses its last byte, and the next string is read from there. */
  lemma OddLengthRead(b: seq<byte>, convertible: seq<u16> -> bool)
    requires |b| >= EXEC_HEADER_LENGTH
    requires U16At(b, 2) == 3 && U16At(b, 4) == 0 && U16At(b, 6) == 0
    requires |b| >= EXEC_HEADER_LENGTH + 3
    requires convertible([U16At(b, 8)])
    ensures DecodeExec(b, convertible) == ExecRead(Ok(ExecOrder(U16At(b, 0), Some([U16At(b, 8)]), None, None)), 10)
  {
    assert WCharsAt(b, 8, 1) == [U16At(b, 8)];
  }
}
