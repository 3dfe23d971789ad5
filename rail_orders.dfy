/**
 * Wire layouts of the Remote Programs (RAIL) orders that the RAIL server
 * writes and reads (MS-RDPERP section 2.2.2). Every fixed-layout order body
 * is a sequence of little-endian fields; an order is described once by the
 * list of its fields, and the byte layout and its reader follow from that
 * list. The two-byte order type and two-byte order length header that
 * precedes every body (section 2.2.2.1 of MS-RDPERP) is laid down by
 * RailServer.SendPdu.
 */
module RailOrders {
  import opened Bytes
  import opened Wrappers

  // Order types, section 2.2.2.1 of MS-RDPERP.
  const ORDER_EXEC: u16 := 0x0001
  const ORDER_ACTIVATE: u16 := 0x0002
  const ORDER_SYSPARAM: u16 := 0x0003
  const ORDER_SYSCOMMAND: u16 := 0x0004
  const ORDER_HANDSHAKE: u16 := 0x0005
  const ORDER_NOTIFY_EVENT: u16 := 0x0006
  const ORDER_WINDOWMOVE: u16 := 0x0008
  const ORDER_LOCALMOVESIZE: u16 := 0x0009
  const ORDER_MINMAXINFO: u16 := 0x000A
  const ORDER_CLIENTSTATUS: u16 := 0x000B
  const ORDER_SYSMENU: u16 := 0x000C
  const ORDER_LANGBARINFO: u16 := 0x000D
  const ORDER_GET_APPID_REQ: u16 := 0x000E
  const ORDER_GET_APPID_RESP: u16 := 0x000F
  const ORDER_TASKBARINFO: u16 := 0x0010
  const ORDER_LANGUAGEIMEINFO: u16 := 0x0011
  const ORDER_COMPARTMENTINFO: u16 := 0x0012
  const ORDER_HANDSHAKE_EX: u16 := 0x0013
  const ORDER_ZORDER_SYNC: u16 := 0x0014
  const ORDER_CLOAK: u16 := 0x0015
  const ORDER_POWER_DISPLAY_REQUEST: u16 := 0x0016
  const ORDER_SNAP_ARRANGE: u16 := 0x0017
  const ORDER_GET_APPID_RESP_EX: u16 := 0x0018
  const ORDER_TEXTSCALEINFO: u16 := 0x0019
  const ORDER_CARETBLINKINFO: u16 := 0x001A
  const ORDER_EXEC_RESULT: u16 := 0x0080

  /** The longest ExeOrFile an Execute Result order may carry, in bytes. */
  const MAX_EXE_OR_FILE: nat := 520

  /** Fixed-size UTF-16 arrays and GUIDs carried by some orders. */
  type WChars256 = s: seq<u16> | |s| == 256 witness seq(256, _ => 0)
  type WChars260 = s: seq<u16> | |s| == 260 witness seq(260, _ => 0)
  type Guid = s: seq<byte> | |s| == 16 witness seq(16, _ => 0)

  // ---------------------------------------------------------------------
  // Fields

  /** One field as it lies on the wire. */
  datatype Field =
    | U8F(b: byte)
    | U16F(h: u16)
    | U32F(w: u32)
    | RawF(raw: seq<byte>)
    | WStrF(wstr: seq<u16>)

  /** What a reader expects next: the shape of a field without its value. */
  datatype Kind = K8 | K16 | K32 | KRaw(n: nat) | KWStr(units: nat)

  function KindOf(f: Field): Kind
  {
    match f
    case U8F(_) => K8
    case U16F(_) => K16
    case U32F(_) => K32
    case RawF(r) => KRaw(|r|)
    case WStrF(w) => KWStr(|w|)
  }

  function Width(k: Kind): nat
  {
    match k
    case K8 => 1
    case K16 => 2
    case K32 => 4
    case KRaw(n) => n
    case KWStr(n) => 2 * n
  }

  function KindsOf(fs: seq<Field>): (r: seq<Kind>)
    ensures |r| == |fs|
  {
    seq(|fs|, i requires 0 <= i < |fs| => KindOf(fs[i]))
  }

  /** The number of bytes a body of the given shape occupies. */
  function Size(ks: seq<Kind>): nat
  {
    if ks == [] then 0 else Width(ks[0]) + Size(ks[1..])
  }

  /** A field's bytes, as the matching Stream_Write_* call lays them down. */
  function FieldBytes(f: Field): (r: seq<byte>)
    ensures |r| == Width(KindOf(f))
  {
    match f
    case U8F(x) => [x]
    case U16F(x) => LeU16(x)
    case U32F(x) => LeU32(x)
    case RawF(r) => r
    case WStrF(w) => LeWChars(w)
  }

  /** The bytes of a sequence of fields written one after the other. */
  function Serialize(fs: seq<Field>): (r: seq<byte>)
    ensures |r| == Size(KindsOf(fs))
  {
    if fs == [] then []
    else
      KindsCons(fs);
      FieldBytes(fs[0]) + Serialize(fs[1..])
  }

  lemma {:induction false} SerializeSnoc(fs: seq<Field>, f: Field)
    ensures Serialize(fs + [f]) == Serialize(fs) + FieldBytes(f)
  {
    if fs != [] {
      assert (fs + [f])[1..] == fs[1..] + [f];
      SerializeSnoc(fs[1..], f);
    }
  }

  /** The field of shape `k` read at offset `i`, as the matching Stream_Read_* call reads it. */
  function ParseField(k: Kind, b: seq<byte>, i: nat): (r: Field)
    requires i + Width(k) <= |b|
    ensures KindOf(r) == k
  {
    match k
    case K8 => U8F(b[i])
    case K16 => U16F(U16At(b, i))
    case K32 => U32F(U32At(b, i))
    case KRaw(n) => RawF(b[i..i + n])
    case KWStr(n) => WStrF(WCharsAt(b, i, n))
  }

  /** The fields of shape `ks` read one after the other from offset `i`. */
  function Parse(ks: seq<Kind>, b: seq<byte>, i: nat): (r: seq<Field>)
    requires i + Size(ks) <= |b|
    ensures |r| == |ks|
  {
    if ks == [] then [] else [ParseField(ks[0], b, i)] + Parse(ks[1..], b, i + Width(ks[0]))
  }

  lemma ParseCons(ks: seq<Kind>, b: seq<byte>, i: nat)
    requires ks != [] && i + Size(ks) <= |b|
    ensures i + Width(ks[0]) + Size(ks[1..]) <= |b|
    ensures Parse(ks, b, i) == [ParseField(ks[0], b, i)] + Parse(ks[1..], b, i + Width(ks[0]))
  {
  }

  /** A field laid down among other bytes reads back as itself. */
  lemma FieldIn(pre: seq<byte>, f: Field, post: seq<byte>)
    ensures ParseField(KindOf(f), pre + FieldBytes(f) + post, |pre|) == f
  {
    var b := pre + FieldBytes(f) + post;
    match f
    case U8F(x) =>
    case U16F(x) => U16In(pre, x, post);
    case U32F(x) => U32In(pre, x, post);
    case RawF(r) =>
      assert b[|pre|..|pre| + |r|] == r;
    case WStrF(w) =>
      assert b[|pre|..|pre| + 2 * |w|] == LeWChars(w);
      WCharsFrom(b, |pre|, w);
  }

  /** Reading back what was written yields the fields written, whatever lies around them. */
  lemma ParseSerialize(pre: seq<byte>, fs: seq<Field>, post: seq<byte>)
    ensures |pre| + Size(KindsOf(fs)) <= |pre + Serialize(fs) + post|
    ensures Parse(KindsOf(fs), pre + Serialize(fs) + post, |pre|) == fs
  {
    var b := pre + Serialize(fs) + post;
    assert b[|pre|..|pre| + |Serialize(fs)|] == Serialize(fs);
    ParseSerialized(b, |pre|, fs);
  }

  /** The fields serialised at offset `i` of `b` read back from there. */
  lemma {:induction false} ParseSerialized(b: seq<byte>, i: nat, fs: seq<Field>)
    requires i + |Serialize(fs)| <= |b| && b[i..i + |Serialize(fs)|] == Serialize(fs)
    ensures i + Size(KindsOf(fs)) <= |b|
    ensures Parse(KindsOf(fs), b, i) == fs
    decreases |fs|
  {
    if fs != [] {
      var f, tail := fs[0], fs[1..];
      SerializeCons(fs);
      SliceSplit(b, i, i + |Serialize(fs)|, FieldBytes(f), Serialize(tail));
      FieldAt(b, i, f);
      ParseSerialized(b, i + |FieldBytes(f)|, tail);
      ParseStep(b, i, fs);
    }
  }

  /** A first field and the rest, each read back, make the whole read back. */
  lemma ParseStep(b: seq<byte>, i: nat, fs: seq<Field>)
    requires fs != [] && i + Size(KindsOf(fs)) <= |b|
    requires ParseField(KindOf(fs[0]), b, i) == fs[0]
    requires i + Width(KindOf(fs[0])) + Size(KindsOf(fs[1..])) <= |b|
    requires Parse(KindsOf(fs[1..]), b, i + Width(KindOf(fs[0]))) == fs[1..]
    ensures Parse(KindsOf(fs), b, i) == fs
  {
    KindsCons(fs);
    ParseCons(KindsOf(fs), b, i);
    assert fs == [fs[0]] + fs[1..];
  }

  lemma SliceSplit(b: seq<byte>, i: nat, j: nat, x: seq<byte>, y: seq<byte>)
    requires j == i + |x| + |y| <= |b| && b[i..j] == x + y
    ensures b[i..i + |x|] == x && b[i + |x|..i + |x| + |y|] == y
  {
    assert b[i..i + |x|] == b[i..j][..|x|];
    assert b[i + |x|..i + |x| + |y|] == b[i..j][|x|..];
  }

  lemma FieldAt(b: seq<byte>, i: nat, f: Field)
    requires i + |FieldBytes(f)| <= |b| && b[i..i + |FieldBytes(f)|] == FieldBytes(f)
    ensures ParseField(KindOf(f), b, i) == f
  {
    var j := i + |FieldBytes(f)|;
    assert b == b[..i] + FieldBytes(f) + b[j..];
    FieldIn(b[..i], f, b[j..]);
  }

  lemma SerializeCons(fs: seq<Field>)
    requires fs != []
    ensures Serialize(fs) == FieldBytes(fs[0]) + Serialize(fs[1..])
  {
  }

  lemma KindsCons(fs: seq<Field>)
    requires fs != []
    ensures KindsOf(fs)[0] == KindOf(fs[0]) && KindsOf(fs)[1..] == KindsOf(fs[1..])
  {
    assert KindsOf(fs)[1..] == KindsOf(fs[1..]);
  }

  lemma Regroup(pre: seq<byte>, a: seq<byte>, c: seq<byte>, post: seq<byte>)
    ensures pre + (a + c) + post == pre + a + (c + post)
    ensures pre + (a + c) + post == pre + a + c + post
  {
  }

  // ---------------------------------------------------------------------
  // Orders

  /** The fixed-layout orders: the server's outgoing orders and the client orders it reads. */
  datatype Order =
    // written by the server
    | LocalMoveSize(windowId: u32, isMoveSizeStart: bool, moveSizeType: u16, posX: i16, posY: i16)
    | MinMaxInfo(windowId: u32, maxWidth: i16, maxHeight: i16, maxPosX: i16, maxPosY: i16,
                 minTrackWidth: i16, minTrackHeight: i16, maxTrackWidth: i16, maxTrackHeight: i16)
    | TaskbarInfo(taskbarMessage: u32, windowIdTab: u32, body: u32)
    | ExecResult(flags: u16, execResult: u16, rawResult: u32, exeOrFile: seq<byte>)
    | ZOrderSync(windowIdMarker: u32)
    | PowerDisplayRequest(active: bool)
    | GetAppIdResp(windowId: u32, applicationId: WChars256)
    | GetAppIdRespEx(windowId: u32, applicationIdEx: WChars260, processId: u32, processImageName: WChars260)
    // written by the server and read by it
    | LangbarInfo(languageBarStatus: u32)
    | Cloak(windowId: u32, cloak: bool)
    // read by the server
    | ClientStatus(statusFlags: u32)
    | Activate(windowId: u32, enabled: bool)
    | Sysmenu(windowId: u32, left: i16, top: i16)
    | Syscommand(windowId: u32, command: u16)
    | NotifyEvent(windowId: u32, notifyIconId: u32, message: u32)
    | GetAppIdReq(windowId: u32)
    | WindowMove(windowId: u32, left: i16, top: i16, right: i16, bottom: i16)
    | SnapArrange(windowId: u32, left: i16, top: i16, right: i16, bottom: i16)
    | LanguageImeInfo(profileType: u32, languageId: u16, languageProfileClsid: Guid,
                      profileGuid: Guid, keyboardLayout: u32)
    | CompartmentInfo(imeState: u32, imeConvMode: u32, imeSentenceMode: u32, kanaMode: u32)
    | TextScale(textScaleFactor: u32)
    | CaretBlink(caretBlinkRate: u32)

  function TypeOf(o: Order): u16
  {
    match o
    case LocalMoveSize(_, _, _, _, _) => ORDER_LOCALMOVESIZE
    case MinMaxInfo(_, _, _, _, _, _, _, _, _) => ORDER_MINMAXINFO
    case TaskbarInfo(_, _, _) => ORDER_TASKBARINFO
    case ExecResult(_, _, _, _) => ORDER_EXEC_RESULT
    case ZOrderSync(_) => ORDER_ZORDER_SYNC
    case PowerDisplayRequest(_) => ORDER_POWER_DISPLAY_REQUEST
    case GetAppIdResp(_, _) => ORDER_GET_APPID_RESP
    case GetAppIdRespEx(_, _, _, _) => ORDER_GET_APPID_RESP_EX
    case LangbarInfo(_) => ORDER_LANGBARINFO
    case Cloak(_, _) => ORDER_CLOAK
    case ClientStatus(_) => ORDER_CLIENTSTATUS
    case Activate(_, _) => ORDER_ACTIVATE
    case Sysmenu(_, _, _) => ORDER_SYSMENU
    case Syscommand(_, _) => ORDER_SYSCOMMAND
    case NotifyEvent(_, _, _) => ORDER_NOTIFY_EVENT
    case GetAppIdReq(_) => ORDER_GET_APPID_REQ
    case WindowMove(_, _, _, _, _) => ORDER_WINDOWMOVE
    case SnapArrange(_, _, _, _, _) => ORDER_SNAP_ARRANGE
    case LanguageImeInfo(_, _, _, _, _) => ORDER_LANGUAGEIMEINFO
    case CompartmentInfo(_, _, _, _) => ORDER_COMPARTMENTINFO
    case TextScale(_) => ORDER_TEXTSCALEINFO
    case CaretBlink(_) => ORDER_CARETBLINKINFO
  }

  /** The only order whose writer can refuse it: ExeOrFile must hold 1 to 520 bytes. */
  predicate Writable(o: Order)
  {
    o.ExecResult? ==> 1 <= |o.exeOrFile| <= MAX_EXE_OR_FILE
  }

  function Flag16(b: bool): u16 { if b then 1 else 0 }
  function Flag32(b: bool): u32 { if b then 1 else 0 }
  function S16(x: i16): Field { U16F(U16OfI16(x)) }

  /** The fields of an order in the order its rail_write_*_order (or the client's writer) emits them. */
  function FieldsOf(o: Order): seq<Field>
    requires Writable(o)
  {
    match o
    case LocalMoveSize(id, start, kind, x, y) =>
      [U32F(id), U16F(Flag16(start)), U16F(kind), S16(x), S16(y)]
    case MinMaxInfo(id, mw, mh, mx, my, tw, th, xw, xh) =>
      [U32F(id), S16(mw), S16(mh), S16(mx), S16(my), S16(tw), S16(th), S16(xw), S16(xh)]
    case TaskbarInfo(msg, tab, body) => [U32F(msg), U32F(tab), U32F(body)]
    case ExecResult(flags, res, raw, exe) =>
      [U16F(flags), U16F(res), U32F(raw), U16F(0), U16F(|exe|), RawF(exe)]
    case ZOrderSync(marker) => [U32F(marker)]
    case PowerDisplayRequest(active) => [U32F(Flag32(active))]
    case GetAppIdResp(id, app) => [U32F(id), WStrF(app)]
    case GetAppIdRespEx(id, app, pid, image) => [U32F(id), WStrF(app), U32F(pid), WStrF(image)]
    case LangbarInfo(status) => [U32F(status)]
    case Cloak(id, cloaked) => [U32F(id), U8F(if cloaked then 1 else 0)]
    case ClientStatus(flags) => [U32F(flags)]
    case Activate(id, enabled) => [U32F(id), U8F(if enabled then 1 else 0)]
    case Sysmenu(id, left, top) => [U32F(id), S16(left), S16(top)]
    case Syscommand(id, command) => [U32F(id), U16F(command)]
    case NotifyEvent(id, icon, message) => [U32F(id), U32F(icon), U32F(message)]
    case GetAppIdReq(id) => [U32F(id)]
    case WindowMove(id, l, t, r, b) => [U32F(id), S16(l), S16(t), S16(r), S16(b)]
    case SnapArrange(id, l, t, r, b) => [U32F(id), S16(l), S16(t), S16(r), S16(b)]
    case LanguageImeInfo(profile, lang, clsid, guid, layout) =>
      [U32F(profile), U16F(lang), RawF(clsid), RawF(guid), U32F(layout)]
    case CompartmentInfo(state, conv, sentence, kana) =>
      [U32F(state), U32F(conv), U32F(sentence), U32F(kana)]
    case TextScale(factor) => [U32F(factor)]
    case CaretBlink(rate) => [U32F(rate)]
  }

  /** An order's body on the wire. */
  function Encode(o: Order): seq<byte>
    requires Writable(o)
  {
    Serialize(FieldsOf(o))
  }

  /** Each order's body length as section 2.2.2 of MS-RDPERP fixes it (its RAIL_*_ORDER_LENGTH). */
  function WireLength(o: Order): nat
  {
    match o
    case LocalMoveSize(_, _, _, _, _) => 12
    case MinMaxInfo(_, _, _, _, _, _, _, _, _) => 20
    case TaskbarInfo(_, _, _) => 12
    case ExecResult(_, _, _, exe) => 12 + |exe|
    case ZOrderSync(_) => 4
    case PowerDisplayRequest(_) => 4
    case GetAppIdResp(_, _) => 516
    case GetAppIdRespEx(_, _, _, _) => 1048
    case LangbarInfo(_) => 4
    case Cloak(_, _) => 5
    case ClientStatus(_) => 4
    case Activate(_, _) => 5
    case Sysmenu(_, _, _) => 8
    case Syscommand(_, _) => 6
    case NotifyEvent(_, _, _) => 12
    case GetAppIdReq(_) => 4
    case WindowMove(_, _, _, _, _) => 12
    case SnapArrange(_, _, _, _, _) => 12
    case LanguageImeInfo(_, _, _, _, _) => 42
    case CompartmentInfo(_, _, _, _) => 16
    case TextScale(_) => 4
    case CaretBlink(_) => 4
  }

  /** The orders the RAIL server sends. */
  predicate ServerWritten(o: Order)
  {
    o.LocalMoveSize? || o.MinMaxInfo? || o.TaskbarInfo? || o.LangbarInfo? || o.ExecResult?
    || o.ZOrderSync? || o.Cloak? || o.PowerDisplayRequest? || o.GetAppIdResp? || o.GetAppIdRespEx?
  }

  /** Every server writer emits exactly the order's wire length. */
  lemma EncodeLength(o: Order)
    requires ServerWritten(o) && Writable(o)
    ensures |Encode(o)| == WireLength(o)
  {
    var ks := KindsOf(FieldsOf(o));
    if o.MinMaxInfo? {
      MinMaxInfoLength(o);
    } else if o.ExecResult? {
      ExecResultLength(o);
    } else if o.LocalMoveSize? || o.TaskbarInfo? || o.GetAppIdResp? || o.GetAppIdRespEx? {
      WindowOrderLength(o);
    } else {
      ShortOrderLength(o);
    }
  }

  lemma MinMaxInfoLength(o: Order)
    requires o.MinMaxInfo?
    ensures |Encode(o)| == WireLength(o)
  {
    var ks := [K32, K16, K16, K16, K16, K16, K16, K16, K16];
    assert KindsOf(FieldsOf(o)) == ks;
    assert Size(ks) == 20;
  }

  lemma ExecResultLength(o: Order)
    requires o.ExecResult? && Writable(o)
    ensures |Encode(o)| == WireLength(o)
  {
    var head := [K16, K16, K32, K16, K16];
    assert KindsOf(FieldsOf(o)) == head + [KRaw(|o.exeOrFile|)];
    assert Size(head) == 12;
    SizeAppend(head, [KRaw(|o.exeOrFile|)]);
  }

  lemma WindowOrderLength(o: Order)
    requires o.LocalMoveSize? || o.TaskbarInfo? || o.GetAppIdResp? || o.GetAppIdRespEx?
    ensures |Encode(o)| == WireLength(o)
  {
    var ks := KindsOf(FieldsOf(o));
    if o.LocalMoveSize? {
      assert ks == [K32, K16, K16, K16, K16] && Size([K32, K16, K16, K16, K16]) == 12;
    } else if o.TaskbarInfo? {
      assert ks == [K32, K32, K32] && Size([K32, K32, K32]) == 12;
    } else if o.GetAppIdResp? {
      assert ks == [K32, KWStr(256)] && Size([K32, KWStr(256)]) == 516;
    } else {
      assert ks == [K32, KWStr(260), K32, KWStr(260)] && Size([K32, KWStr(260), K32, KWStr(260)]) == 1048;
    }
  }

  lemma ShortOrderLength(o: Order)
    requires o.LangbarInfo? || o.ZOrderSync? || o.Cloak? || o.PowerDisplayRequest?
    ensures |Encode(o)| == WireLength(o)
  {
    var ks := KindsOf(FieldsOf(o));
    if o.Cloak? {
      assert ks == [K32, K8] && Size([K32, K8]) == 5;
    } else {
      assert ks == [K32] && Size([K32]) == 4;
    }
  }

  lemma {:induction false} SizeAppend(a: seq<Kind>, c: seq<Kind>)
    ensures Size(a + c) == Size(a) + Size(c)
  {
    if a == [] {
      assert a + c == c;
    } else {
      assert (a + c)[0] == a[0] && (a + c)[1..] == a[1..] + c;
      SizeAppend(a[1..], c);
    }
  }

  /** The fixed-layout orders the server reads, each with the 4-byte reads of the text-scale and caret-blink handlers. */
  predicate IsFixedRead(t: u16)
  {
    t == ORDER_CLIENTSTATUS || t == ORDER_ACTIVATE || t == ORDER_SYSMENU
    || t == ORDER_SYSCOMMAND || t == ORDER_NOTIFY_EVENT || t == ORDER_GET_APPID_REQ
    || t == ORDER_WINDOWMOVE || t == ORDER_SNAP_ARRANGE || t == ORDER_LANGBARINFO
    || t == ORDER_LANGUAGEIMEINFO || t == ORDER_COMPARTMENTINFO || t == ORDER_CLOAK
    || t == ORDER_TEXTSCALEINFO || t == ORDER_CARETBLINKINFO
  }

  /** What the reader of order type `t` reads, field by field. */
  function Schema(t: u16): seq<Kind>
    requires IsFixedRead(t)
  {
    if t == ORDER_ACTIVATE || t == ORDER_CLOAK then [K32, K8]
    else if t == ORDER_SYSMENU then [K32, K16, K16]
    else if t == ORDER_SYSCOMMAND then [K32, K16]
    else if t == ORDER_NOTIFY_EVENT then [K32, K32, K32]
    else if t == ORDER_WINDOWMOVE || t == ORDER_SNAP_ARRANGE then [K32, K16, K16, K16, K16]
    else if t == ORDER_LANGUAGEIMEINFO then [K32, K16, KRaw(16), KRaw(16), K32]
    else if t == ORDER_COMPARTMENTINFO then [K32, K32, K32, K32]
    else [K32]
  }

  /** The order body length the reader of type `t` requires (its RAIL_*_ORDER_LENGTH). */
  function BodyLength(t: u16): nat
    requires IsFixedRead(t)
  {
    Size(Schema(t))
  }

  // Field accessors; a field of another kind reads as zero, which never happens for a parsed body.
  function Get8(fs: seq<Field>, i: nat): byte { if i < |fs| && fs[i].U8F? then fs[i].b else 0 }
  function Get16(fs: seq<Field>, i: nat): u16 { if i < |fs| && fs[i].U16F? then fs[i].h else 0 }
  function Get32(fs: seq<Field>, i: nat): u32 { if i < |fs| && fs[i].U32F? then fs[i].w else 0 }
  function GetS16(fs: seq<Field>, i: nat): i16 { I16OfU16(Get16(fs, i)) }
  function GetGuid(fs: seq<Field>, i: nat): Guid
  {
    if i < |fs| && fs[i].RawF? && |fs[i].raw| == 16 then fs[i].raw else seq(16, _ => 0)
  }

  /** The out-struct a reader fills from the fields it read: a byte flag is TRUE when nonzero. */
  function FromFields(t: u16, fs: seq<Field>): (r: Order)
    requires IsFixedRead(t)
    ensures TypeOf(r) == t
  {
    if t == ORDER_ACTIVATE then Activate(Get32(fs, 0), Get8(fs, 1) != 0)
    else if t == ORDER_CLOAK then Cloak(Get32(fs, 0), Get8(fs, 1) != 0)
    else if t == ORDER_SYSMENU then Sysmenu(Get32(fs, 0), GetS16(fs, 1), GetS16(fs, 2))
    else if t == ORDER_SYSCOMMAND then Syscommand(Get32(fs, 0), Get16(fs, 1))
    else if t == ORDER_NOTIFY_EVENT then NotifyEvent(Get32(fs, 0), Get32(fs, 1), Get32(fs, 2))
    else if t == ORDER_WINDOWMOVE then
      WindowMove(Get32(fs, 0), GetS16(fs, 1), GetS16(fs, 2), GetS16(fs, 3), GetS16(fs, 4))
    else if t == ORDER_SNAP_ARRANGE then
      SnapArrange(Get32(fs, 0), GetS16(fs, 1), GetS16(fs, 2), GetS16(fs, 3), GetS16(fs, 4))
    else if t == ORDER_LANGUAGEIMEINFO then
      LanguageImeInfo(Get32(fs, 0), Get16(fs, 1), GetGuid(fs, 2), GetGuid(fs, 3), Get32(fs, 4))
    else if t == ORDER_COMPARTMENTINFO then
      CompartmentInfo(Get32(fs, 0), Get32(fs, 1), Get32(fs, 2), Get32(fs, 3))
    else if t == ORDER_CLIENTSTATUS then ClientStatus(Get32(fs, 0))
    else if t == ORDER_GET_APPID_REQ then GetAppIdReq(Get32(fs, 0))
    else if t == ORDER_LANGBARINFO then LangbarInfo(Get32(fs, 0))
    else if t == ORDER_TEXTSCALEINFO then TextScale(Get32(fs, 0))
    else CaretBlink(Get32(fs, 0))
  }

  /** What the reader of type `t` makes of the body bytes `b`; None when fewer than its length remain. */
  function Decode(t: u16, b: seq<byte>): (r: Option<Order>)
    requires IsFixedRead(t)
    ensures r.None? <==> |b| < BodyLength(t)
  {
    if |b| < BodyLength(t) then None else Some(FromFields(t, Parse(Schema(t), b, 0)))
  }

  /** Each readable order's fields have its reader's shape, and the reader rebuilds the order from them. */
  lemma FromFieldsOf(o: Order)
    requires IsFixedRead(TypeOf(o))
    ensures KindsOf(FieldsOf(o)) == Schema(TypeOf(o))
    ensures FromFields(TypeOf(o), FieldsOf(o)) == o
  {
    if o.Activate? || o.Cloak? || o.Sysmenu? || o.Syscommand? || o.NotifyEvent? {
      FromFieldsOfWindow(o);
    } else if o.WindowMove? || o.SnapArrange? || o.LanguageImeInfo? || o.CompartmentInfo? {
      FromFieldsOfWide(o);
    } else {
      FromFieldsOfSingle(o);
    }
  }

  lemma FromFieldsOfWindow(o: Order)
    requires o.Activate? || o.Cloak? || o.Sysmenu? || o.Syscommand? || o.NotifyEvent?
    ensures KindsOf(FieldsOf(o)) == Schema(TypeOf(o))
    ensures FromFields(TypeOf(o), FieldsOf(o)) == o
  {
    match o
    case Activate(_, enabled) => assert (if enabled then 1 else 0) != 0 <==> enabled;
    case Cloak(_, cloaked) => assert (if cloaked then 1 else 0) != 0 <==> cloaked;
    case Sysmenu(_, _, _) =>
    case Syscommand(_, _) =>
    case NotifyEvent(_, _, _) =>
  }

  lemma FromFieldsOfWide(o: Order)
    requires o.WindowMove? || o.SnapArrange? || o.LanguageImeInfo? || o.CompartmentInfo?
    ensures KindsOf(FieldsOf(o)) == Schema(TypeOf(o))
    ensures FromFields(TypeOf(o), FieldsOf(o)) == o
  {
    match o
    case WindowMove(_, _, _, _, _) =>
    case SnapArrange(_, _, _, _, _) =>
    case LanguageImeInfo(_, _, _, _, _) =>
    case CompartmentInfo(_, _, _, _) =>
  }

  lemma FromFieldsOfSingle(o: Order)
    requires o.ClientStatus? || o.GetAppIdReq? || o.LangbarInfo? || o.TextScale? || o.CaretBlink?
    ensures KindsOf(FieldsOf(o)) == Schema(TypeOf(o))
    ensures FromFields(TypeOf(o), FieldsOf(o)) == o
  {
    match o
    case ClientStatus(_) =>
    case GetAppIdReq(_) =>
    case LangbarInfo(_) =>
    case TextScale(_) =>
    case CaretBlink(_) =>
  }

  /** Reading any written fixed-layout order back yields that order, whatever follows it. */
  lemma DecodeEncode(o: Order, rest: seq<byte>)
    requires IsFixedRead(TypeOf(o))
    ensures Decode(TypeOf(o), Encode(o) + rest) == Some(o)
  {
    var fs := FieldsOf(o);
    ParseSerialize([], fs, rest);
    assert [] + Serialize(fs) + rest == Encode(o) + rest;
    FromFieldsOf(o);
  }

  /** The cloak round trip: written 1 or 0, read back as nonzero, so the window and the flag survive. */
  lemma CloakRoundTrip(windowId: u32, cloak: bool)
    ensures Encode(Cloak(windowId, cloak)) == LeU32(windowId) + [if cloak then 1 else 0]
    ensures Decode(ORDER_CLOAK, Encode(Cloak(windowId, cloak))) == Some(Cloak(windowId, cloak))
  {
    var o := Cloak(windowId, cloak);
    var fs := FieldsOf(o);
    SerializeCons(fs);
    SerializeCons(fs[1..]);
    assert fs[1..][1..] == [];
    DecodeEncode(o, []);
    assert Encode(o) + [] == Encode(o);
  }

  /** The langbar round trip: the status written is the status read. */
  lemma LangbarRoundTrip(status: u32)
    ensures Encode(LangbarInfo(status)) == LeU32(status)
    ensures Decode(ORDER_LANGBARINFO, Encode(LangbarInfo(status))) == Some(LangbarInfo(status))
  {
    var o := LangbarInfo(status);
    assert FieldsOf(o)[1..] == [];
    DecodeEncode(o, []);
    assert Encode(o) + [] == Encode(o);
  }

  /** Any nonzero flag byte reads as TRUE: the readers of Activate and Cloak normalise, they do not reject. */
  lemma FlagByteNormalised(t: u16, b: seq<byte>)
    requires t == ORDER_ACTIVATE || t == ORDER_CLOAK
    requires |b| >= 5
    ensures Decode(t, b).Some?
    ensures t == ORDER_ACTIVATE ==> Decode(t, b).value == Activate(U32At(b, 0), b[4] != 0)
    ensures t == ORDER_CLOAK ==> Decode(t, b).value == Cloak(U32At(b, 0), b[4] != 0)
  {
    var ks := Schema(t);
    assert ks == [K32, K8] && Size([K32, K8]) == 5;
    ParseCons(ks, b, 0);
    ParseCons(ks[1..], b, 4);
    assert ks[1..][1..] == [];
    var fs := Parse(ks, b, 0);
    assert fs == [U32F(U32At(b, 0)), U8F(b[4])];
  }

  /** The field at position j of a parsed body lies after the widths of the fields before it. */
  lemma {:induction false} ParseAt(ks: seq<Kind>, b: seq<byte>, i: nat, j: nat)
    requires i + Size(ks) <= |b| && j < |ks|
    ensures i + Size(ks[..j]) + Width(ks[j]) <= |b|
    ensures Parse(ks, b, i)[j] == ParseField(ks[j], b, i + Size(ks[..j]))
    decreases j
  {
    ParseCons(ks, b, i);
    if j == 0 {
      assert ks[..0] == [];
    } else {
      ParseAt(ks[1..], b, i + Width(ks[0]), j - 1);
      assert ks[..j][1..] == ks[1..][..j - 1];
    }
  }

  /** The Execute Result layout: flags, result, raw result, a zero pad, the length, then the bytes. */
  lemma ExecResultLayout(flags: u16, res: u16, raw: u32, exe: seq<byte>)
    requires 1 <= |exe| <= MAX_EXE_OR_FILE
    ensures var b := Encode(ExecResult(flags, res, raw, exe));
      |b| == 12 + |exe| && U16At(b, 0) == flags && U16At(b, 2) == res && U32At(b, 4) == raw
      && U16At(b, 8) == 0 && U16At(b, 10) == |exe| && b[12..] == exe
  {
    var o := ExecResult(flags, res, raw, exe);
    var fs := FieldsOf(o);
    var b := Encode(o);
    EncodeLength(o);
    ParseSerialize([], fs, []);
    assert [] + Serialize(fs) + [] == b;
    assert KindsOf(fs) == [K16, K16, K32, K16, K16, KRaw(|exe|)];
    ExecResultFields(b, KindsOf(fs), fs);
  }

  lemma ExecResultFields(b: seq<byte>, ks: seq<Kind>, fs: seq<Field>)
    requires |fs| == 6 && fs[5].RawF? && |b| == 12 + |fs[5].raw|
    requires ks == [K16, K16, K32, K16, K16, KRaw(|fs[5].raw|)]
    requires Size(ks) <= |b| && Parse(ks, b, 0) == fs
    ensures ParseField(K16, b, 0) == fs[0] && ParseField(K16, b, 2) == fs[1]
    ensures ParseField(K32, b, 4) == fs[2] && ParseField(K16, b, 8) == fs[3]
    ensures ParseField(K16, b, 10) == fs[4] && b[12..] == fs[5].raw
  {
    ExecResultHead(b, ks, fs);
    ExecResultTail(b, ks, fs);
  }

  lemma ExecResultHead(b: seq<byte>, ks: seq<Kind>, fs: seq<Field>)
    requires |fs| == 6 && fs[5].RawF? && |b| >= 12
    requires ks == [K16, K16, K32, K16, K16, KRaw(|fs[5].raw|)]
    requires Size(ks) <= |b| && Parse(ks, b, 0) == fs
    ensures ParseField(K16, b, 0) == fs[0] && ParseField(K16, b, 2) == fs[1]
    ensures ParseField(K32, b, 4) == fs[2]
  {
    assert ks[..1] == [K16] && ks[..2] == [K16, K16];
    ParseAt(ks, b, 0, 0);
    ParseAt(ks, b, 0, 1);
    ParseAt(ks, b, 0, 2);
  }

  lemma ExecResultTail(b: seq<byte>, ks: seq<Kind>, fs: seq<Field>)
    requires |fs| == 6 && fs[5].RawF? && |b| == 12 + |fs[5].raw|
    requires ks == [K16, K16, K32, K16, K16, KRaw(|fs[5].raw|)]
    requires Size(ks) <= |b| && Parse(ks, b, 0) == fs
    ensures ParseField(K16, b, 8) == fs[3]
    ensures ParseField(K16, b, 10) == fs[4] && b[12..] == fs[5].raw
  {
    assert ks[..3] == [K16, K16, K32] && Size([K16, K16, K32]) == 8;
    ParseAt(ks, b, 0, 3);
    assert ks[..4] == [K16, K16, K32, K16] && Size([K16, K16, K32, K16]) == 10;
    ParseAt(ks, b, 0, 4);
    ExecResultBytes(b, ks, fs);
  }

  lemma ExecResultBytes(b: seq<byte>, ks: seq<Kind>, fs: seq<Field>)
    requires |fs| == 6 && fs[5].RawF? && |b| == 12 + |fs[5].raw|
    requires ks == [K16, K16, K32, K16, K16, KRaw(|fs[5].raw|)]
    requires Size(ks) <= |b| && Parse(ks, b, 0) == fs
    ensures b[12..] == fs[5].raw
  {
    var head := [K16, K16, K32, K16, K16];
    assert ks[..5] == head && Size(head) == 12;
    ParseAt(ks, b, 0, 5);
    assert fs[5] == RawF(b[12..12 + |fs[5].raw|]);
  }
}
