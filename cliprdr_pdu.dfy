/**
 * The Clipboard Virtual Channel Extension (MS-RDPECLIP) as the client side
 * parses and answers it: the 8-byte Clipboard PDU header (section 2.2.1),
 * the capability-set loop of the Clipboard Capabilities PDU (section
 * 2.2.2.1), the General Capability Set flags (section 2.2.2.1.1.1) and the
 * client's negotiation of them, and the 32-bit guard on File Contents
 * Requests sent to a server without huge-file support (section 2.2.5.3).
 *
 * Everything here is a function of the received bytes; the plugin state
 * that these decisions update lives in CliprdrClient.
 */
module CliprdrPdu {
  import opened Bytes
  import opened Wrappers
  import opened Win32

  // msgType values of the Clipboard PDU header (section 2.2.1 of MS-RDPECLIP)
  const CB_MONITOR_READY: u16 := 0x0001
  const CB_FORMAT_LIST: u16 := 0x0002
  const CB_FORMAT_LIST_RESPONSE: u16 := 0x0003
  const CB_FORMAT_DATA_REQUEST: u16 := 0x0004
  const CB_FORMAT_DATA_RESPONSE: u16 := 0x0005
  const CB_TEMP_DIRECTORY: u16 := 0x0006
  const CB_CLIP_CAPS: u16 := 0x0007
  const CB_FILECONTENTS_REQUEST: u16 := 0x0008
  const CB_FILECONTENTS_RESPONSE: u16 := 0x0009
  const CB_LOCK_CLIPDATA: u16 := 0x000A
  const CB_UNLOCK_CLIPDATA: u16 := 0x000B

  const CB_CAPSTYPE_GENERAL: u16 := 0x0001
  const CB_CAPSTYPE_GENERAL_LEN: u16 := 12

  // generalFlags bits (section 2.2.2.1.1.1 of MS-RDPECLIP)
  const CB_USE_LONG_FORMAT_NAMES: bv32 := 0x0000_0002
  const CB_STREAM_FILECLIP_ENABLED: bv32 := 0x0000_0004
  const CB_FILECLIP_NO_FILE_PATHS: bv32 := 0x0000_0008
  const CB_CAN_LOCK_CLIPDATA: bv32 := 0x0000_0010
  const CB_HUGE_FILE_SUPPORT_ENABLED: bv32 := 0x0000_0020

  const CLIPRDR_HEADER_LENGTH: nat := 8

  /** Whether the bit `mask` is set in the 32-bit value `flags`. */
  predicate Bit(flags: bv32, mask: bv32)
  {
    flags & mask != 0
  }

  /** `flags` with the bits of `mask` cleared, as `flags &= ~mask`. */
  function Clear(flags: bv32, mask: bv32): (r: bv32)
    ensures !Bit(r, mask)
    ensures r & !mask == flags & !mask
  {
    flags & !mask
  }

  /** The five feature booleans the plugin keeps, in the order of the source's fields. */
  datatype Features = Features(
    useLongFormatNames: bool,
    streamFileClipEnabled: bool,
    fileClipNoFilePaths: bool,
    canLockClipData: bool,
    hasHugeFileSupport: bool)

  /** The features a generalFlags value announces: each is its bit. */
  function FeaturesOf(flags: bv32): Features
  {
    Features(Bit(flags, CB_USE_LONG_FORMAT_NAMES), Bit(flags, CB_STREAM_FILECLIP_ENABLED),
             Bit(flags, CB_FILECLIP_NO_FILE_PATHS), Bit(flags, CB_CAN_LOCK_CLIPDATA),
             Bit(flags, CB_HUGE_FILE_SUPPORT_ENABLED))
  }

  // ---------------------------------------------------------------------
  // Capabilities

  /**
   * What the capability loop leaves behind: its status, the generalFlags of
   * the last General Capability Set it processed (the plugin's features are
   * set from them), and where the cursor stopped.
   */
  datatype CapsOutcome = CapsOutcome(status: u32, flags: Option<bv32>, end: nat)

  /** An outcome reached after a General set with `flags` was processed: later sets override it. */
  function After(flags: bv32, r: CapsOutcome): CapsOutcome
  {
    CapsOutcome(r.status, if r.flags.Some? then r.flags else Some(flags), r.end)
  }

  /**
   * The loop of cliprdr_process_clip_caps over `n` capability sets from
   * offset p. Each set needs a 4-byte header, a lengthCapability of at
   * least 4 and lengthCapability - 4 further bytes; a set of any type but
   * General is CHANNEL_RC_BAD_PROC. A General set is read by
   * cliprdr_process_general_capability, which needs 8 bytes and consumes
   * exactly 8 whatever lengthCapability says, then reports to the
   * application (`onCaps`, given version and generalFlags); a failure there
   * ends the loop with that status.
   */
  function CapsLoop(d: seq<byte>, p: nat, n: nat, onCaps: (u32, bv32) -> u32): (r: CapsOutcome)
    requires p <= |d|
    ensures p <= r.end <= |d|
    ensures r.status == CHANNEL_RC_OK ==> n == 0 || r.flags.Some?
    decreases n
  {
    if n == 0 then CapsOutcome(CHANNEL_RC_OK, None, p)
    else if |d| - p < 4 then CapsOutcome(ERROR_INVALID_DATA, None, p)
    else
      var capType, len := U16At(d, p), U16At(d, p + 2);
      if len < 4 || |d| - (p + 4) < len - 4 then CapsOutcome(ERROR_INVALID_DATA, None, p + 4)
      else if capType != CB_CAPSTYPE_GENERAL then CapsOutcome(CHANNEL_RC_BAD_PROC, None, p + 4)
      else if |d| - (p + 4) < 8 then CapsOutcome(ERROR_INVALID_DATA, None, p + 4)
      else
        var version, flags := U32At(d, p + 4), U32At(d, p + 8) as bv32;
        var status := onCaps(version, flags);
        if status != CHANNEL_RC_OK then CapsOutcome(status, Some(flags), p + 12)
        else After(flags, CapsLoop(d, p + 12, n - 1, onCaps))
  }

  /** cliprdr_process_clip_caps from offset p: cCapabilitiesSets and a pad, then the sets. */
  function ClipCaps(d: seq<byte>, p: nat, onCaps: (u32, bv32) -> u32): (r: CapsOutcome)
    requires p <= |d|
    ensures p <= r.end <= |d|
    ensures |d| - p < 4 ==> r == CapsOutcome(ERROR_INVALID_DATA, None, p)
  {
    if |d| - p < 4 then CapsOutcome(ERROR_INVALID_DATA, None, p)
    else CapsLoop(d, p + 4, U16At(d, p), onCaps)
  }

  /** Fewer than 4 bytes where a capability set should start is ERROR_INVALID_DATA. */
  lemma TruncatedCapabilityRefused(d: seq<byte>, p: nat, n: nat, onCaps: (u32, bv32) -> u32)
    requires p <= |d| < p + 4 && n > 0
    ensures CapsLoop(d, p, n, onCaps) == CapsOutcome(ERROR_INVALID_DATA, None, p)
  {
  }

  /**
   * A capability set whose lengthCapability is below 4, or announces more
   * bytes than remain, is refused whatever its type.
   */
  lemma ShortCapabilityRefused(d: seq<byte>, p: nat, n: nat, onCaps: (u32, bv32) -> u32)
    requires p + 4 <= |d| && n > 0
    requires U16At(d, p + 2) < 4 || |d| - (p + 4) < U16At(d, p + 2) - 4
    ensures CapsLoop(d, p, n, onCaps) == CapsOutcome(ERROR_INVALID_DATA, None, p + 4)
  {
  }

  /** A set of an unknown type is CHANNEL_RC_BAD_PROC once its length checks pass, and no feature is set. */
  lemma UnknownCapabilityRefused(d: seq<byte>, p: nat, n: nat, onCaps: (u32, bv32) -> u32)
    requires p + 4 <= |d| && n > 0
    requires U16At(d, p) != CB_CAPSTYPE_GENERAL
    requires 4 <= U16At(d, p + 2) && U16At(d, p + 2) - 4 <= |d| - (p + 4)
    ensures CapsLoop(d, p, n, onCaps) == CapsOutcome(CHANNEL_RC_BAD_PROC, None, p + 4)
  {
  }

  /** A General set with fewer than 8 bytes after its header is ERROR_INVALID_DATA. */
  lemma TruncatedGeneralRefused(d: seq<byte>, p: nat, n: nat, onCaps: (u32, bv32) -> u32)
    requires p + 4 <= |d| < p + 12 && n > 0
    requires U16At(d, p) == CB_CAPSTYPE_GENERAL
    requires 4 <= U16At(d, p + 2) && U16At(d, p + 2) - 4 <= |d| - (p + 4)
    ensures CapsLoop(d, p, n, onCaps) == CapsOutcome(ERROR_INVALID_DATA, None, p + 4)
  {
  }

  /** A General set the application rejects ends the loop with its status, its flags already taken. */
  lemma RejectedGeneralStops(d: seq<byte>, p: nat, n: nat, onCaps: (u32, bv32) -> u32)
    requires p + 12 <= |d| && n > 0
    requires U16At(d, p) == CB_CAPSTYPE_GENERAL
    requires 4 <= U16At(d, p + 2) && U16At(d, p + 2) - 4 <= |d| - (p + 4)
    requires onCaps(U32At(d, p + 4), U32At(d, p + 8) as bv32) != CHANNEL_RC_OK
    ensures CapsLoop(d, p, n, onCaps)
            == CapsOutcome(onCaps(U32At(d, p + 4), U32At(d, p + 8) as bv32), Some(U32At(d, p + 8) as bv32), p + 12)
  {
  }

  /**
   * A General set is read as 8 bytes and the next set is looked for right
   * after them, even when its lengthCapability announces more: any bytes the
   * set carries beyond its first 12 are read as the next set's header.
   */
  lemma GeneralSetConsumesTwelve(d: seq<byte>, p: nat, n: nat, onCaps: (u32, bv32) -> u32)
    requires p + 12 <= |d| && n > 0
    requires U16At(d, p) == CB_CAPSTYPE_GENERAL
    requires 4 <= U16At(d, p + 2) && U16At(d, p + 2) - 4 <= |d| - (p + 4)
    requires onCaps(U32At(d, p + 4), U32At(d, p + 8) as bv32) == CHANNEL_RC_OK
    ensures CapsLoop(d, p, n, onCaps) == After(U32At(d, p + 8) as bv32, CapsLoop(d, p + 12, n - 1, onCaps))
  {
  }

  /** The body of a Clipboard Capabilities PDU with one General set, as the client writes it. */
  function CapsBody(capType: u16, capLength: u16, version: u32, flags: bv32): (r: seq<byte>)
    ensures |r| == 4 + 4 + 8
  {
    LeU16(1) + LeU16(0) + LeU16(capType) + LeU16(capLength) + LeU32(version) + LeU32(flags as int)
  }

  /**
   * A capabilities body with one well-formed General set reads back as
   * exactly that set: the application sees its version and flags and the
   * features become the flags'.
   */
  lemma CapsBodyRoundTrip(pre: seq<byte>, version: u32, flags: bv32, rest: seq<byte>, onCaps: (u32, bv32) -> u32)
    ensures var d := pre + CapsBody(CB_CAPSTYPE_GENERAL, CB_CAPSTYPE_GENERAL_LEN, version, flags) + rest;
      ClipCaps(d, |pre|, onCaps) == CapsOutcome(onCaps(version, flags), Some(flags), |pre| + 16)
  {
    var d := pre + CapsBody(CB_CAPSTYPE_GENERAL, CB_CAPSTYPE_GENERAL_LEN, version, flags) + rest;
    CapsBodyHead(pre, CB_CAPSTYPE_GENERAL, CB_CAPSTYPE_GENERAL_LEN, version, flags, rest);
    CapsBodyTail(pre, CB_CAPSTYPE_GENERAL, CB_CAPSTYPE_GENERAL_LEN, version, flags, rest);
    assert (flags as int) as bv32 == flags;
    assert CapsLoop(d, |pre| + 16, 0, onCaps) == CapsOutcome(CHANNEL_RC_OK, None, |pre| + 16);
  }

  /** The set count, the set type and its length read back from a capabilities body. */
  lemma CapsBodyHead(pre: seq<byte>, capType: u16, capLength: u16, version: u32, flags: bv32, rest: seq<byte>)
    ensures var d := pre + CapsBody(capType, capLength, version, flags) + rest;
      U16At(d, |pre|) == 1 && U16At(d, |pre| + 4) == capType && U16At(d, |pre| + 6) == capLength
  {
    CapsHeadAt(capType, capLength, version, flags);
    U16Within(pre, CapsBody(capType, capLength, version, flags), rest, 0);
    U16Within(pre, CapsBody(capType, capLength, version, flags), rest, 4);
    U16Within(pre, CapsBody(capType, capLength, version, flags), rest, 6);
  }

  lemma CapsHeadAt(capType: u16, capLength: u16, version: u32, flags: bv32)
    ensures var b := CapsBody(capType, capLength, version, flags);
      U16At(b, 0) == 1 && U16At(b, 4) == capType && U16At(b, 6) == capLength
  {
    var p0, p1, p2, p3 := LeU16(1), LeU16(0), LeU16(capType), LeU16(capLength);
    var v, f := LeU32(version), LeU32(flags as int);
    var a := p0 + p1 + p2 + p3;
    forall i | i in {0, 4, 6} ensures U16At(a + v + f, i) == U16At(a, i) {
      U16AtCat(a + v, f, i);
      U16AtCat(a, v, i);
    }
    U16AtCat(p0 + p1 + p2, p3, 0);
    U16AtCat(p0 + p1 + p2, p3, 4);
    U16AtCat(p0 + p1 + p2, p3, 6);
    U16AtCat(p0 + p1, p2, 0);
    U16AtCat(p0 + p1, p2, 4);
    U16AtCat(p0, p1, 0);
    U16OfLe(1);
    U16OfLe(capType);
    U16OfLe(capLength);
  }

  /** The version and generalFlags read back from a capabilities body. */
  lemma CapsBodyTail(pre: seq<byte>, capType: u16, capLength: u16, version: u32, flags: bv32, rest: seq<byte>)
    ensures var d := pre + CapsBody(capType, capLength, version, flags) + rest;
      U32At(d, |pre| + 8) == version && U32At(d, |pre| + 12) == flags as int
  {
    CapsTailAt(capType, capLength, version, flags);
    U32Within(pre, CapsBody(capType, capLength, version, flags), rest, 8);
    U32Within(pre, CapsBody(capType, capLength, version, flags), rest, 12);
  }

  lemma CapsTailAt(capType: u16, capLength: u16, version: u32, flags: bv32)
    ensures var b := CapsBody(capType, capLength, version, flags);
      U32At(b, 8) == version && U32At(b, 12) == flags as int
  {
    var a := LeU16(1) + LeU16(0) + LeU16(capType) + LeU16(capLength);
    var v, f := LeU32(version), LeU32(flags as int);
    U32AtCat(a + v, f, 8);
    U32AtCat(a + v, f, 12);
    U32AtCat(a, v, 8);
    U32OfLe(version);
    U32OfLe(flags as int);
  }

  /** A u32 inside x reads the same once x is placed between other bytes. */
  lemma U32Within(pre: seq<byte>, x: seq<byte>, post: seq<byte>, i: nat)
    requires i + 4 <= |x|
    ensures U32At(pre + x + post, |pre| + i) == U32At(x, i)
  {
    U16Within(pre, x, post, i);
    U16Within(pre, x, post, i + 2);
  }

  /** A u16 inside x reads the same once x is placed between other bytes. */
  lemma U16Within(pre: seq<byte>, x: seq<byte>, post: seq<byte>, i: nat)
    requires i + 2 <= |x|
    ensures U16At(pre + x + post, |pre| + i) == U16At(x, i)
  {
    var d := pre + x + post;
    assert d[|pre| + i] == x[i] && d[|pre| + i + 1] == x[i + 1];
  }

  // ---------------------------------------------------------------------
  // Negotiation

  /**
   * The generalFlags the client sends in reply (cliprdr_client_capabilities):
   * the flags the application asks for, with each of the five feature bits
   * cleared unless the plugin holds that feature from the server.
   */
  function Negotiate(requested: bv32, held: Features): (r: bv32)
  {
    KeepAll(requested, Lines(held))
  }

  /** The five lines of the negotiation, in source order: whether the feature is held, and its bit. */
  function Lines(held: Features): seq<(bool, bv32)>
  {
    [(held.useLongFormatNames, CB_USE_LONG_FORMAT_NAMES),
     (held.streamFileClipEnabled, CB_STREAM_FILECLIP_ENABLED),
     (held.fileClipNoFilePaths, CB_FILECLIP_NO_FILE_PATHS),
     (held.canLockClipData, CB_CAN_LOCK_CLIPDATA),
     (held.hasHugeFileSupport, CB_HUGE_FILE_SUPPORT_ENABLED)]
  }

  /** The lines applied one after another. */
  function KeepAll(flags: bv32, lines: seq<(bool, bv32)>): bv32
  {
    if lines == [] then flags else KeepAll(Keep(flags, lines[0].0, lines[0].1), lines[1..])
  }

  /** One line of the negotiation: `if (!held) flags &= ~mask`. */
  function Keep(flags: bv32, held: bool, mask: bv32): bv32
  {
    if held then flags else Clear(flags, mask)
  }

  const FEATURE_BITS: bv32 := 0x0000_003E

  /** The five feature bits. */
  predicate FeatureBit(mask: bv32)
  {
    mask == CB_USE_LONG_FORMAT_NAMES || mask == CB_STREAM_FILECLIP_ENABLED || mask == CB_FILECLIP_NO_FILE_PATHS
    || mask == CB_CAN_LOCK_CLIPDATA || mask == CB_HUGE_FILE_SUPPORT_ENABLED
  }

  /** Whether every line for bit b holds its feature. */
  predicate AllowedBy(lines: seq<(bool, bv32)>, b: bv32)
  {
    forall i :: 0 <= i < |lines| && lines[i].1 == b ==> lines[i].0
  }

  /** A feature bit survives the lines exactly when it was set and no line for it withholds it. */
  lemma {:induction false} KeepAllBit(flags: bv32, lines: seq<(bool, bv32)>, b: bv32)
    requires FeatureBit(b)
    requires forall i :: 0 <= i < |lines| ==> FeatureBit(lines[i].1)
    ensures Bit(KeepAll(flags, lines), b) <==> Bit(flags, b) && AllowedBy(lines, b)
    decreases |lines|
  {
    if lines != [] {
      KeepBit(flags, lines[0].0, lines[0].1, b);
      KeepAllBit(Keep(flags, lines[0].0, lines[0].1), lines[1..], b);
      assert AllowedBy(lines, b) <==> (lines[0].1 == b ==> lines[0].0) && AllowedBy(lines[1..], b) by {
        if AllowedBy(lines, b) {
          forall i | 0 <= i < |lines[1..]| && lines[1..][i].1 == b ensures lines[1..][i].0 {
            assert lines[1..][i] == lines[i + 1];
          }
        }
      }
    }
  }

  /** The lines leave every bit outside the five features alone. */
  lemma {:induction false} KeepAllOther(flags: bv32, lines: seq<(bool, bv32)>)
    requires forall i :: 0 <= i < |lines| ==> FeatureBit(lines[i].1)
    ensures KeepAll(flags, lines) & !FEATURE_BITS == flags & !FEATURE_BITS
    decreases |lines|
  {
    if lines != [] {
      KeepOther(flags, lines[0].0, lines[0].1);
      KeepAllOther(Keep(flags, lines[0].0, lines[0].1), lines[1..]);
    }
  }

  /** One negotiation line keeps bit b unless it is the line's own, withheld, bit. */
  lemma KeepBit(x: bv32, held: bool, mask: bv32, b: bv32)
    requires FeatureBit(b) && FeatureBit(mask)
    ensures Bit(Keep(x, held, mask), b) <==> Bit(x, b) && (held || mask != b)
  {
  }

  lemma KeepOther(x: bv32, held: bool, mask: bv32)
    requires FeatureBit(mask)
    ensures Keep(x, held, mask) & !FEATURE_BITS == x & !FEATURE_BITS
  {
  }

  /**
   * The reply never asks for a feature the server did not grant: each of
   * the five bits is set exactly when it was requested and is held; every
   * other bit of the request goes out unchanged.
   */
  lemma NegotiateBits(requested: bv32, held: Features)
    ensures var sent := Negotiate(requested, held);
      (Bit(sent, CB_USE_LONG_FORMAT_NAMES) <==> Bit(requested, CB_USE_LONG_FORMAT_NAMES) && held.useLongFormatNames)
      && (Bit(sent, CB_STREAM_FILECLIP_ENABLED)
          <==> Bit(requested, CB_STREAM_FILECLIP_ENABLED) && held.streamFileClipEnabled)
      && (Bit(sent, CB_FILECLIP_NO_FILE_PATHS)
          <==> Bit(requested, CB_FILECLIP_NO_FILE_PATHS) && held.fileClipNoFilePaths)
      && (Bit(sent, CB_CAN_LOCK_CLIPDATA) <==> Bit(requested, CB_CAN_LOCK_CLIPDATA) && held.canLockClipData)
      && (Bit(sent, CB_HUGE_FILE_SUPPORT_ENABLED)
          <==> Bit(requested, CB_HUGE_FILE_SUPPORT_ENABLED) && held.hasHugeFileSupport)
      && sent & !FEATURE_BITS == requested & !FEATURE_BITS
  {
    var sent := Negotiate(requested, held);
    NegotiateBit(requested, held, CB_USE_LONG_FORMAT_NAMES);
    assert Holds(held, CB_USE_LONG_FORMAT_NAMES) == held.useLongFormatNames;
    NegotiateBit(requested, held, CB_STREAM_FILECLIP_ENABLED);
    assert Holds(held, CB_STREAM_FILECLIP_ENABLED) == held.streamFileClipEnabled;
    NegotiateBit(requested, held, CB_FILECLIP_NO_FILE_PATHS);
    assert Holds(held, CB_FILECLIP_NO_FILE_PATHS) == held.fileClipNoFilePaths;
    NegotiateBit(requested, held, CB_CAN_LOCK_CLIPDATA);
    assert Holds(held, CB_CAN_LOCK_CLIPDATA) == held.canLockClipData;
    NegotiateBit(requested, held, CB_HUGE_FILE_SUPPORT_ENABLED);
    assert Holds(held, CB_HUGE_FILE_SUPPORT_ENABLED) == held.hasHugeFileSupport;
    NegotiateOther(requested, held);
  }

  /** Every bit outside the five features goes out as requested. */
  lemma NegotiateOther(requested: bv32, held: Features)
    ensures Negotiate(requested, held) & !FEATURE_BITS == requested & !FEATURE_BITS
  {
    LinesAreFeatureBits(held);
    KeepAllOther(requested, Lines(held));
  }

  lemma LinesAreFeatureBits(held: Features)
    ensures forall i :: 0 <= i < |Lines(held)| ==> FeatureBit(Lines(held)[i].1)
  {
  }

  /** Whether the plugin holds the feature of a feature bit. */
  predicate Holds(f: Features, mask: bv32)
  {
    if mask == CB_USE_LONG_FORMAT_NAMES then f.useLongFormatNames
    else if mask == CB_STREAM_FILECLIP_ENABLED then f.streamFileClipEnabled
    else if mask == CB_FILECLIP_NO_FILE_PATHS then f.fileClipNoFilePaths
    else if mask == CB_CAN_LOCK_CLIPDATA then f.canLockClipData
    else f.hasHugeFileSupport
  }

  /** One feature bit goes out exactly when it was requested and the plugin holds that feature. */
  lemma NegotiateBit(requested: bv32, held: Features, b: bv32)
    requires FeatureBit(b)
    ensures Bit(Negotiate(requested, held), b) <==> Bit(requested, b) && Holds(held, b)
  {
    LinesAreFeatureBits(held);
    KeepAllBit(requested, Lines(held), b);
    var ls := Lines(held);
    assert AllowedBy(ls, b) <==> Holds(held, b) by {
      assert ls[0].1 == CB_USE_LONG_FORMAT_NAMES && ls[1].1 == CB_STREAM_FILECLIP_ENABLED;
      assert ls[2].1 == CB_FILECLIP_NO_FILE_PATHS && ls[3].1 == CB_CAN_LOCK_CLIPDATA;
      assert ls[4].1 == CB_HUGE_FILE_SUPPORT_ENABLED;
    }
  }

  /** After negotiation the plugin holds a feature only if it held it before and the application asked for it. */
  lemma NegotiatedFeaturesShrink(requested: bv32, held: Features)
    ensures var now := FeaturesOf(Negotiate(requested, held));
      (now.useLongFormatNames ==> held.useLongFormatNames)
      && (now.streamFileClipEnabled ==> held.streamFileClipEnabled)
      && (now.fileClipNoFilePaths ==> held.fileClipNoFilePaths)
      && (now.canLockClipData ==> held.canLockClipData)
      && (now.hasHugeFileSupport ==> held.hasHugeFileSupport)
  {
    NegotiateBits(requested, held);
  }

  /** Features the server granted and the application asks for all survive negotiation. */
  lemma NegotiateKeepsGranted(flags: bv32)
    ensures Negotiate(flags, FeaturesOf(flags)) == flags
  {
    var ls := Lines(FeaturesOf(flags));
    forall i | 0 <= i < |ls| ensures ls[i].0 || !Bit(flags, ls[i].1) {
    }
    KeepAllSame(flags, ls);
  }

  /** Lines that only clear bits already clear change nothing. */
  lemma {:induction false} KeepAllSame(flags: bv32, lines: seq<(bool, bv32)>)
    requires forall i :: 0 <= i < |lines| ==> lines[i].0 || !Bit(flags, lines[i].1)
    ensures KeepAll(flags, lines) == flags
    decreases |lines|
  {
    if lines != [] {
      assert Keep(flags, lines[0].0, lines[0].1) == flags;
      assert forall i :: 0 <= i < |lines[1..]| ==> lines[1..][i] == lines[i + 1];
      KeepAllSame(flags, lines[1..]);
    }
  }

  /**
   * The defaults cliprdr_process_monitor_ready installs when no Clipboard
   * Capabilities PDU came first; huge-file support keeps its value.
   */
  function MonitorReadyDefaults(f: Features): (r: Features)
    ensures !r.useLongFormatNames && !r.streamFileClipEnabled && r.fileClipNoFilePaths && !r.canLockClipData
    ensures r.hasHugeFileSupport == f.hasHugeFileSupport
  {
    f.(useLongFormatNames := false, streamFileClipEnabled := false, fileClipNoFilePaths := true,
       canLockClipData := false)
  }

  /**
   * The defaults differ from the features a generalFlags value of zero
   * announces in one place: "no file paths" is held.
   */
  lemma DefaultsAreNotZeroFlags(f: Features)
    requires !f.hasHugeFileSupport
    ensures MonitorReadyDefaults(f) == FeaturesOf(0).(fileClipNoFilePaths := true)
    ensures MonitorReadyDefaults(f) != FeaturesOf(0)
  {
  }

  // ---------------------------------------------------------------------
  // File contents

  /**
   * The guard of cliprdr_client_file_contents_request: without huge-file
   * support a request whose byte range ends past 2^32 - 1, or whose
   * position has a nonzero high half, is ERROR_INVALID_PARAMETER.
   */
  function FileContentsGuard(hasHugeFileSupport: bool, nPositionLow: u32, nPositionHigh: u32,
                             cbRequested: u32): (r: Option<u32>)
    ensures r.Some? ==> r.value == ERROR_INVALID_PARAMETER && !hasHugeFileSupport
  {
    if !hasHugeFileSupport
       && (cbRequested as int + nPositionLow as int > UINT32_MAX as int || nPositionHigh != 0)
    then Some(ERROR_INVALID_PARAMETER)
    else None
  }

  /**
   * A request that passes the guard without huge-file support asks for a
   * range lying wholly within the first 4 GiB: its 64-bit position is the
   * low half and the range ends at most at 2^32 - 1; and every such range
   * passes.
   */
  lemma FileContentsRangeFits(nPositionLow: u32, nPositionHigh: u32, cbRequested: u32)
    ensures FileContentsGuard(false, nPositionLow, nPositionHigh, cbRequested).None?
            <==> Join64(nPositionHigh, nPositionLow) + cbRequested <= UINT32_MAX
  {
  }
}
