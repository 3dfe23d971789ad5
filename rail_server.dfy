/**
 * The RAIL server's stream side: the order writers that append an order
 * body to an outgoing stream, the send path that patches in the common
 * header (section 2.2.2.1 of MS-RDPERP) and hands the PDU to the channel,
 * the order readers that consume an incoming body, and the dispatcher that
 * routes a received order type to its reader and then to the application's
 * callback.
 *
 * The channel write, the application callbacks and the readers of the
 * handshake and system-parameters orders are not part of this model; they
 * appear as parameters.
 */
module RailServer {
  import opened Bytes
  import opened Wrappers
  import opened Win32
  import opened WStream
  import opened RailOrders
  import opened RailExec

  const RAIL_PDU_HEADER_LENGTH: nat := 4

  // ---------------------------------------------------------------------
  // Writers

  /** One Stream_Write_* call. */
  method WriteField(s: Stream, f: Field)
    requires s.Valid()
    modifies s
    ensures s.Valid()
    ensures s.data == Overwrite(old(s.data), old(s.pos), FieldBytes(f))
    ensures s.pos == old(s.pos) + |FieldBytes(f)|
  {
    match f
    case U8F(x) => s.WriteU8(x);
    case U16F(x) => s.WriteU16(x);
    case U32F(x) => s.WriteU32(x);
    case RawF(r) => s.Write(r);
    case WStrF(w) => s.WriteWChars(w);
  }

  /** The Stream_Write_* calls of one writer, in order: together they lay down the fields' serialisation. */
  method WriteFields(s: Stream, fs: seq<Field>)
    requires s.Valid()
    modifies s
    ensures s.Valid()
    ensures s.data == Overwrite(old(s.data), old(s.pos), Serialize(fs))
    ensures s.pos == old(s.pos) + |Serialize(fs)|
  {
    ghost var d0, p0 := s.data, s.pos;
    var i := 0;
    while i < |fs|
      invariant 0 <= i <= |fs|
      invariant s.Valid()
      invariant s.data == Overwrite(d0, p0, Serialize(fs[..i]))
      invariant s.pos == p0 + |Serialize(fs[..i])|
    {
      WriteField(s, fs[i]);
      WriteStep(d0, p0, fs, i);
      i := i + 1;
    }
    assert fs[..i] == fs;
  }

  lemma WriteStep(d0: seq<byte>, p0: nat, fs: seq<Field>, i: nat)
    requires p0 <= |d0| && i < |fs|
    ensures var w := Serialize(fs[..i]);
      Overwrite(Overwrite(d0, p0, w), p0 + |w|, FieldBytes(fs[i])) == Overwrite(d0, p0, Serialize(fs[..i + 1]))
      && |Serialize(fs[..i + 1])| == |w| + |FieldBytes(fs[i])|
  {
    OverwriteTwice(d0, p0, Serialize(fs[..i]), FieldBytes(fs[i]));
    SerializePrefix(fs, i);
  }

  lemma SerializePrefix(fs: seq<Field>, i: nat)
    requires i < |fs|
    ensures Serialize(fs[..i + 1]) == Serialize(fs[..i]) + FieldBytes(fs[i])
  {
    assert fs[..i + 1] == fs[..i] + [fs[i]];
    SerializeSnoc(fs[..i], fs[i]);
  }

  /**
   * rail_write_*_order for the orders the server sends. Only the Execute
   * Result writer can refuse: an ExeOrFile length outside 1..520 is
   * ERROR_INVALID_DATA and nothing is written.
   */
  method WriteOrder(s: Stream, o: Order) returns (status: u32)
    requires s.Valid() && ServerWritten(o)
    modifies s
    ensures s.Valid()
    ensures status == CHANNEL_RC_OK <==> Writable(o)
    ensures !Writable(o) ==> status == ERROR_INVALID_DATA && s.data == old(s.data) && s.pos == old(s.pos)
    ensures Writable(o) ==> s.data == Overwrite(old(s.data), old(s.pos), Encode(o))
                            && s.pos == old(s.pos) + WireLength(o)
  {
    if o.ExecResult? && !(1 <= |o.exeOrFile| <= MAX_EXE_OR_FILE) {
      return ERROR_INVALID_DATA;
    }
    EncodeLength(o);
    WriteFields(s, FieldsOf(o));
    status := CHANNEL_RC_OK;
  }

  // ---------------------------------------------------------------------
  // Sending

  /** The status rail_send reports for a channel write that succeeded or failed. */
  function ChannelStatus(channelOk: bool): (r: u32)
    ensures r == CHANNEL_RC_OK <==> channelOk
  {
    if channelOk then CHANNEL_RC_OK else ERROR_INTERNAL_ERROR
  }

  /**
   * rail_server_send_pdu: the order length is the cursor position cast to
   * 16 bits; the header (type, length) is patched in at offset 0, the cursor
   * is put back at the order length, and that many bytes from the start go
   * to the channel, whose success is `channelOk`.
   */
  method SendPdu(s: Stream, orderType: u16, channelOk: bool) returns (status: u32, sent: seq<byte>)
    requires s.Valid()
    modifies s
    ensures s.Valid()
    ensures s.data == Overwrite(old(s.data), 0, LeU16(orderType) + LeU16(old(s.pos) % 0x1_0000))
    ensures s.pos == old(s.pos) % 0x1_0000
    ensures sent == s.data[..s.pos]
    ensures status == ChannelStatus(channelOk)
  {
    var orderLength: u16 := s.pos % 0x1_0000;
    ghost var d0 := s.data;
    s.SetPosition(0);
    s.WriteU16(orderType);
    s.WriteU16(orderLength);
    OverwriteTwice(d0, 0, LeU16(orderType), LeU16(orderLength));
    s.SetPosition(orderLength);
    sent := s.data[..orderLength];
    status := ChannelStatus(channelOk);
  }

  /** A whole PDU as the client receives it: the common header, then the order body. */
  function Pdu(o: Order): (r: seq<byte>)
    requires Writable(o)
  {
    LeU16(TypeOf(o)) + LeU16((RAIL_PDU_HEADER_LENGTH + |Encode(o)|) % 0x1_0000) + Encode(o)
  }

  /** Every PDU the server sends carries, in its header, its own type and its true total length. */
  lemma PduHeader(o: Order)
    requires ServerWritten(o) && Writable(o)
    ensures |Pdu(o)| == RAIL_PDU_HEADER_LENGTH + WireLength(o) < 0x1_0000
    ensures U16At(Pdu(o), 0) == TypeOf(o) && U16At(Pdu(o), 2) == |Pdu(o)|
    ensures Pdu(o)[RAIL_PDU_HEADER_LENGTH..] == Encode(o)
  {
    EncodeLength(o);
    var p := Pdu(o);
    U16In([], TypeOf(o), LeU16(RAIL_PDU_HEADER_LENGTH + |Encode(o)|) + Encode(o));
    assert p == [] + LeU16(TypeOf(o)) + (LeU16(RAIL_PDU_HEADER_LENGTH + |Encode(o)|) + Encode(o));
    U16In(LeU16(TypeOf(o)), RAIL_PDU_HEADER_LENGTH + |Encode(o)|, Encode(o));
  }

  /** rail_server_send_pdu on a stream holding the reserved header and then exactly one order body. */
  method SendBody(s: Stream, t: u16, ghost body: seq<byte>, channelOk: bool) returns (status: u32, sent: seq<byte>)
    requires s.Valid() && |s.data| == RAIL_PDU_HEADER_LENGTH + |body| < 0x1_0000
    requires s.pos == |s.data| && s.data[RAIL_PDU_HEADER_LENGTH..] == body
    modifies s
    ensures sent == LeU16(t) + LeU16(RAIL_PDU_HEADER_LENGTH + |body|) + body
    ensures status == ChannelStatus(channelOk)
  {
    ghost var d0 := s.data;
    status, sent := SendPdu(s, t, channelOk);
    assert s.data == LeU16(t) + LeU16(RAIL_PDU_HEADER_LENGTH + |body|) + d0[RAIL_PDU_HEADER_LENGTH..];
  }

  /**
   * rail_send_server_* (the handshake and system-parameters senders aside):
   * reserve the header, write the order, patch the header and send. An
   * Execute Result order that its writer refuses is not sent and its error
   * is returned.
   */
  method Send(o: Order, channelOk: bool) returns (status: u32, sent: Option<seq<byte>>)
    requires ServerWritten(o)
    ensures Writable(o) ==> sent == Some(Pdu(o)) && status == ChannelStatus(channelOk)
    ensures !Writable(o) ==> sent == None && status == ERROR_INVALID_DATA
  {
    var s := new Stream.Reserve(RAIL_PDU_HEADER_LENGTH);
    var w := WriteOrder(s, o);
    if w != CHANNEL_RC_OK {
      return w, None;
    }
    PduHeader(o);
    var bytes;
    status, bytes := SendBody(s, TypeOf(o), Encode(o), channelOk);
    sent := Some(bytes);
  }

  /**
   * rail_send_server_exec_result as written: the status of
   * rail_write_exec_result_order is dropped, so a refused order still goes
   * out as a bare header whose length is 4 and the channel's status is
   * returned.
   */
  method SendExecResultAsWritten(o: Order, channelOk: bool) returns (status: u32, sent: seq<byte>)
    requires o.ExecResult?
    ensures Writable(o) ==> sent == Pdu(o) && status == ChannelStatus(channelOk)
    ensures !Writable(o) ==> sent == LeU16(ORDER_EXEC_RESULT) + LeU16(RAIL_PDU_HEADER_LENGTH)
                             && status == ChannelStatus(channelOk)
  {
    var s := new Stream.Reserve(RAIL_PDU_HEADER_LENGTH);
    var _ := WriteOrder(s, o);
    if Writable(o) {
      PduHeader(o);
      status, sent := SendBody(s, ORDER_EXEC_RESULT, Encode(o), channelOk);
    } else {
      status, sent := SendBody(s, ORDER_EXEC_RESULT, [], channelOk);
      assert sent == LeU16(ORDER_EXEC_RESULT) + LeU16(RAIL_PDU_HEADER_LENGTH) + [];
    }
  }

  /**
   * The Server Execute Result PDU sent for a refused order is shorter than
   * any well-formed one, which carries at least 16 bytes; the client reads
   * a header that announces no body at all.
   */
  lemma RefusedExecResultIsTruncated(o: Order, channelOk: bool)
    requires o.ExecResult? && |o.exeOrFile| == 0
    ensures !Writable(o)
    ensures var bare := LeU16(ORDER_EXEC_RESULT) + LeU16(RAIL_PDU_HEADER_LENGTH);
      |bare| == 4 && U16At(bare, 0) == ORDER_EXEC_RESULT && U16At(bare, 2) == 4
      && forall e: Order :: e.ExecResult? && Writable(e) ==> |Pdu(e)| >= 4 + 12 + 1
  {
    var bare := LeU16(ORDER_EXEC_RESULT) + LeU16(RAIL_PDU_HEADER_LENGTH);
    U16In([], ORDER_EXEC_RESULT, LeU16(RAIL_PDU_HEADER_LENGTH));
    assert bare == [] + LeU16(ORDER_EXEC_RESULT) + LeU16(RAIL_PDU_HEADER_LENGTH);
    U16In(LeU16(ORDER_EXEC_RESULT), RAIL_PDU_HEADER_LENGTH, []);
    assert bare == LeU16(ORDER_EXEC_RESULT) + LeU16(RAIL_PDU_HEADER_LENGTH) + [];
    forall e: Order | e.ExecResult? && Writable(e) ensures |Pdu(e)| >= 4 + 12 + 1 {
      ExecResultLength(e);
    }
  }

  // ---------------------------------------------------------------------
  // Readers

  /** A field read at an offset in a buffer is the field read at the matching offset in any suffix holding it. */
  lemma FieldShift(k: Kind, b: seq<byte>, i: nat, j: nat)
    requires j <= i && i + Width(k) <= |b|
    ensures ParseField(k, b, i) == ParseField(k, b[j..], i - j)
  {
    match k
    case K8 =>
    case K16 =>
    case K32 =>
    case KRaw(n) =>
      assert b[i..i + n] == b[j..][i - j..i - j + n];
    case KWStr(n) =>
      assert WCharsAt(b, i, n) == WCharsAt(b[j..], i - j, n);
  }

  lemma {:induction false} ParseShift(ks: seq<Kind>, b: seq<byte>, i: nat, j: nat)
    requires j <= i && i + Size(ks) <= |b|
    ensures Parse(ks, b, i) == Parse(ks, b[j..], i - j)
    decreases |ks|
  {
    if ks != [] {
      ParseCons(ks, b, i);
      ParseCons(ks, b[j..], i - j);
      FieldShift(ks[0], b, i, j);
      ParseShift(ks[1..], b, i + Width(ks[0]), j);
    }
  }

  /** One Stream_Read_* call. */
  method ReadField(s: Stream, k: Kind) returns (f: Field)
    requires s.Valid() && Width(k) <= s.Remaining()
    modifies s`pos
    ensures s.Valid() && s.pos == old(s.pos) + Width(k)
    ensures f == ParseField(k, s.data, old(s.pos))
  {
    match k
    case K8 =>
      var x := s.ReadU8();
      f := U8F(x);
    case K16 =>
      var x := s.ReadU16();
      f := U16F(x);
    case K32 =>
      var x := s.ReadU32();
      f := U32F(x);
    case KRaw(n) =>
      var r := s.Read(n);
      f := RawF(r);
    case KWStr(n) =>
      var w := s.ReadWChars(n);
      f := WStrF(w);
  }

  /** The Stream_Read_* calls of one reader, in order, once its length check has passed. */
  method ReadFields(s: Stream, ks: seq<Kind>) returns (fs: seq<Field>)
    requires s.Valid() && Size(ks) <= s.Remaining()
    modifies s`pos
    ensures s.Valid() && s.pos == old(s.pos) + Size(ks)
    ensures fs == Parse(ks, s.data, old(s.pos))
  {
    ghost var d, p0 := s.data, s.pos;
    fs := [];
    var i := 0;
    while i < |ks|
      invariant 0 <= i <= |ks| && s.Valid() && s.data == d
      invariant ReadSoFar(ks, d, p0, i, s.pos, fs)
    {
      ParseNext(ks, d, p0, i, s.pos, fs);
      var f := ReadField(s, ks[i]);
      fs := fs + [f];
      i := i + 1;
    }
    assert ks[i..] == [];
  }

  /** After i fields of `ks` the cursor is at `pos` and the fields read and those still to read make the whole parse. */
  ghost predicate ReadSoFar(ks: seq<Kind>, d: seq<byte>, p0: nat, i: nat, pos: nat, fs: seq<Field>)
  {
    i <= |ks| && pos + Size(ks[i..]) == p0 + Size(ks) <= |d|
    && fs + Parse(ks[i..], d, pos) == Parse(ks, d, p0)
  }

  /** One more field read keeps the fields read so far and those still to read a parse of the whole. */
  lemma ParseNext(ks: seq<Kind>, d: seq<byte>, p0: nat, i: nat, pos: nat, fs: seq<Field>)
    requires i < |ks| && ReadSoFar(ks, d, p0, i, pos, fs)
    ensures pos + Width(ks[i]) <= |d|
    ensures ReadSoFar(ks, d, p0, i + 1, pos + Width(ks[i]), fs + [ParseField(ks[i], d, pos)])
  {
    ParseCons(ks[i..], d, pos);
    assert ks[i..][1..] == ks[i + 1..];
    var f, rest := ParseField(ks[i], d, pos), Parse(ks[i + 1..], d, pos + Width(ks[i]));
    assert fs + ([f] + rest) == fs + [f] + rest;
  }

  /**
   * rail_read_*_order for the fixed-layout orders, with the inline reads of
   * the text-scale and caret-blink handlers: fewer bytes than the order's
   * length is ERROR_INVALID_DATA and nothing is consumed; otherwise the
   * order is the one its body decodes to and exactly its length is consumed.
   */
  method ReadOrder(s: Stream, t: u16) returns (r: Result<Order, u32>)
    requires s.Valid() && IsFixedRead(t)
    modifies s`pos
    ensures s.Valid()
    ensures r.Err? <==> old(s.Remaining()) < BodyLength(t)
    ensures r.Err? ==> r.error == ERROR_INVALID_DATA && s.pos == old(s.pos)
    ensures r.Ok? ==> Some(r.value) == Decode(t, s.data[old(s.pos)..])
                      && s.pos == old(s.pos) + BodyLength(t)
  {
    if s.Remaining() < BodyLength(t) {
      return Err(ERROR_INVALID_DATA);
    }
    ghost var p0 := s.pos;
    var fs := ReadFields(s, Schema(t));
    ParseShift(Schema(t), s.data, p0, p0);
    r := Ok(FromFields(t, fs));
  }

  /** A string field read from a buffer is the one read at the matching offset of any suffix holding it. */
  lemma StringShift(b: seq<byte>, i: nat, j: nat, len: u16)
    requires j <= i && i + len <= |b|
    ensures StringAt(b, i, len) == StringAt(b[j..], i - j, len)
  {
    if len != 0 {
      assert WCharsAt(b, i, len / 2) == WCharsAt(b[j..], i - j, len / 2);
    }
  }

  /**
   * One string field of the Execute order: unset when its length is zero,
   * else len / 2 code units are read (and consumed) and then converted;
   * `converted` is false when the conversion fails.
   */
  method ReadString(s: Stream, len: u16, convertible: seq<u16> -> bool)
    returns (str: Option<seq<u16>>, converted: bool)
    requires s.Valid() && len <= s.Remaining()
    modifies s`pos
    ensures s.Valid() && s.pos == old(s.pos) + 2 * (len / 2)
    ensures str == StringAt(s.data, old(s.pos), len)
    ensures converted <==> str.None? || convertible(str.value)
  {
    if len == 0 {
      return None, true;
    }
    var w := s.ReadWChars(len / 2);
    str := Some(w);
    converted := convertible(w);
  }

  /**
   * rail_read_exec_order: the result, and the cursor where it stopped, are
   * those DecodeExec gives for the bytes from the cursor on.
   */
  method ReadExec(s: Stream, convertible: seq<u16> -> bool) returns (r: Result<ExecOrder, u32>)
    requires s.Valid()
    modifies s`pos
    ensures s.Valid()
    ensures r == DecodeExec(s.data[old(s.pos)..], convertible).result
    ensures s.pos == old(s.pos) + DecodeExec(s.data[old(s.pos)..], convertible).end
  {
    ghost var b := s.data[s.pos..];
    ghost var p0 := s.pos;
    if s.Remaining() < EXEC_HEADER_LENGTH {
      return Err(ERROR_INVALID_DATA);
    }
    var flags := s.ReadU16();
    var exeLen := s.ReadU16();
    var workLen := s.ReadU16();
    var argLen := s.ReadU16();
    assert flags == U16At(b, 0) && exeLen == U16At(b, 2);
    assert workLen == U16At(b, 4) && argLen == U16At(b, 6);
    if s.Remaining() < exeLen as int + workLen as int + argLen as int {
      return Err(ERROR_INVALID_DATA);
    }
    r := ReadStrings(s, p0, flags, exeLen, workLen, argLen, convertible);
  }

  /** The string part of rail_read_exec_order, the order body starting at `p0`. */
  method ReadStrings(s: Stream, ghost p0: nat, flags: u16, exeLen: u16, workLen: u16, argLen: u16,
                     convertible: seq<u16> -> bool) returns (r: Result<ExecOrder, u32>)
    requires s.Valid() && s.pos == p0 + EXEC_HEADER_LENGTH
    requires s.pos + exeLen + workLen + argLen <= |s.data|
    modifies s`pos
    ensures s.Valid()
    ensures r == DecodeStrings(s.data[p0..], flags, exeLen, workLen, argLen, convertible).result
    ensures s.pos == p0 + DecodeStrings(s.data[p0..], flags, exeLen, workLen, argLen, convertible).end
  {
    StringShift(s.data, s.pos, p0, exeLen);
    var exe, ok1 := ReadString(s, exeLen, convertible);
    if !ok1 {
      return Err(ERROR_INTERNAL_ERROR);
    }
    StringShift(s.data, s.pos, p0, workLen);
    var work, ok2 := ReadString(s, workLen, convertible);
    if !ok2 {
      return Err(ERROR_INTERNAL_ERROR);
    }
    StringShift(s.data, s.pos, p0, argLen);
    var args, ok3 := ReadString(s, argLen, convertible);
    if !ok3 {
      return Err(ERROR_INTERNAL_ERROR);
    }
    r := Ok(ExecOrder(flags, exe, work, args));
  }

  // ---------------------------------------------------------------------
  // Dispatch

  /**
   * What the application registered: one callback for the fixed-layout
   * orders, one for Execute, the UTF-16 to UTF-8 conversion the Execute
   * reader relies on, and the outcome of the handshake and system-parameters
   * handlers, whose readers are not part of this model. A callback the
   * application did not set behaves as one that returns CHANNEL_RC_OK.
   */
  datatype Handlers = Handlers(
    onOrder: Order -> u32,
    onExec: ExecOrder -> u32,
    convertible: seq<u16> -> bool,
    otherOrder: u16 -> u32)

  /** The order types the dispatcher has a case for. */
  predicate Routed(t: u16)
  {
    t == ORDER_HANDSHAKE || t == ORDER_SYSPARAM || t == ORDER_EXEC || IsFixedRead(t)
  }

  /** The status the dispatcher returns for an order of type `t` whose body is `body`. */
  function Handle(t: u16, body: seq<byte>, h: Handlers): u32
  {
    if t == ORDER_HANDSHAKE || t == ORDER_SYSPARAM then h.otherOrder(t)
    else if t == ORDER_EXEC then
      match DecodeExec(body, h.convertible).result
      case Err(e) => e
      case Ok(e) => h.onExec(e)
    else if IsFixedRead(t) then
      match Decode(t, body)
      case None => ERROR_INVALID_DATA
      case Some(o) => h.onOrder(o)
    else ERROR_INVALID_DATA
  }

  /** The orderType switch of rail_server_handle_messages, from the point where the header has been read. */
  method HandleMessage(s: Stream, orderType: u16, h: Handlers) returns (status: u32)
    requires s.Valid()
    modifies s`pos
    ensures s.Valid()
    ensures status == Handle(orderType, old(s.data[s.pos..]), h)
  {
    if orderType == ORDER_HANDSHAKE || orderType == ORDER_SYSPARAM {
      status := h.otherOrder(orderType);
    } else if orderType == ORDER_EXEC {
      var r := ReadExec(s, h.convertible);
      status := if r.Err? then r.error else h.onExec(r.value);
    } else if IsFixedRead(orderType) {
      var r := ReadOrder(s, orderType);
      status := if r.Err? then r.error else h.onOrder(r.value);
    } else {
      status := ERROR_INVALID_DATA;
    }
  }

  /** An order type without a case, including every type only the server sends, is ERROR_INVALID_DATA. */
  lemma UnroutedIsInvalid(t: u16, body: seq<byte>, h: Handlers)
    ensures !Routed(t) ==> Handle(t, body, h) == ERROR_INVALID_DATA
    ensures forall o: Order :: ServerWritten(o) && !o.LangbarInfo? && !o.Cloak? ==> !Routed(TypeOf(o))
  {
  }

  /** A fixed-layout order shorter than its length never reaches the application. */
  lemma ShortBodyIsInvalid(t: u16, body: seq<byte>, h: Handlers)
    requires IsFixedRead(t) && |body| < BodyLength(t)
    ensures Handle(t, body, h) == ERROR_INVALID_DATA
  {
  }

  /** Every order a client sends reaches the application's callback as itself, whatever follows it. */
  lemma HandleDelivers(o: Order, rest: seq<byte>, h: Handlers)
    requires IsFixedRead(TypeOf(o))
    ensures Handle(TypeOf(o), Encode(o) + rest, h) == h.onOrder(o)
  {
    DecodeEncode(o, rest);
  }

  /** Every Execute order a client sends, with strings that convert, reaches the application as itself. */
  lemma HandleDeliversExec(e: ExecOrder, rest: seq<byte>, h: Handlers)
    requires Sendable(e.exeOrFile) && Sendable(e.workingDir) && Sendable(e.arguments)
    requires AllConvertible(e, h.convertible)
    ensures Handle(ORDER_EXEC, EncodeExec(e) + rest, h) == h.onExec(e)
  {
    DecodeEncodeExec(e, rest, h.convertible);
  }
}
