/**
 * The client side of the clipboard virtual channel: the plugin's negotiated
 * feature state and the operations of channels/cliprdr/client that read or
 * change it. Received PDUs arrive as a Stream positioned after the channel
 * framing; PDUs to send are built in a Stream whose first 8 bytes are the
 * Clipboard PDU header, and the channel write is a status the caller
 * supplies. Application callbacks (ServerCapabilities, MonitorReady and the
 * handlers of the other message types) are functions given as parameters.
 */
module CliprdrClient {
  import opened Bytes
  import opened Wrappers
  import opened Win32
  import opened WStream
  import opened CliprdrPdu

  /** The 8-byte Clipboard PDU header: msgType, msgFlags, dataLen. */
  function Header(msgType: u16, msgFlags: u16, dataLen: u32): (r: seq<byte>)
    ensures |r| == CLIPRDR_HEADER_LENGTH
  {
    LeU16(msgType) + LeU16(msgFlags) + LeU32(dataLen)
  }

  /** The header fields read back from wherever a header lies. */
  lemma HeaderIn(pre: seq<byte>, msgType: u16, msgFlags: u16, dataLen: u32, post: seq<byte>)
    ensures var d := pre + Header(msgType, msgFlags, dataLen) + post;
      U16At(d, |pre|) == msgType && U16At(d, |pre| + 2) == msgFlags && U32At(d, |pre| + 4) == dataLen
  {
    var d := pre + Header(msgType, msgFlags, dataLen) + post;
    U16In(pre, msgType, LeU16(msgFlags) + LeU32(dataLen) + post);
    assert d == pre + LeU16(msgType) + (LeU16(msgFlags) + LeU32(dataLen) + post);
    U16In(pre + LeU16(msgType), msgFlags, LeU32(dataLen) + post);
    assert d == pre + LeU16(msgType) + LeU16(msgFlags) + (LeU32(dataLen) + post);
    U32In(pre + LeU16(msgType) + LeU16(msgFlags), dataLen, post);
    assert d == pre + LeU16(msgType) + LeU16(msgFlags) + LeU32(dataLen) + post;
  }

  /**
   * cliprdr_packet_send: the dataLen field at offset 4 is patched to the
   * number of bytes written after the header, the cursor is put back, and
   * the bytes up to the cursor go to the channel, whose status is returned.
   */
  method PacketSend(s: Stream, write: u32) returns (status: u32, sent: seq<byte>)
    requires s.Valid() && CLIPRDR_HEADER_LENGTH <= s.pos && s.pos - CLIPRDR_HEADER_LENGTH <= UINT32_MAX
    modifies s
    ensures s.Valid()
    ensures s.data == Overwrite(old(s.data), 4, LeU32(old(s.pos) - CLIPRDR_HEADER_LENGTH)) && s.pos == old(s.pos)
    ensures sent == s.data[..s.pos] && status == write
  {
    var pos := s.pos;
    var dataLen := pos - CLIPRDR_HEADER_LENGTH;
    s.SetPosition(4);
    s.WriteU32(dataLen);
    s.SetPosition(pos);
    sent := s.data[..s.pos];
    status := write;
  }

  /** A patched packet announces in its header exactly the number of bytes that follow the header. */
  lemma PatchedLength(d: seq<byte>, pos: nat)
    requires CLIPRDR_HEADER_LENGTH <= pos <= |d| && pos - CLIPRDR_HEADER_LENGTH <= UINT32_MAX
    ensures var sent := Overwrite(d, 4, LeU32(pos - CLIPRDR_HEADER_LENGTH))[..pos];
      |sent| == pos && U32At(sent, 4) == |sent| - CLIPRDR_HEADER_LENGTH
      && sent[..4] == d[..4] && sent[8..] == d[8..pos]
  {
    var o := Overwrite(d, 4, LeU32(pos - CLIPRDR_HEADER_LENGTH));
    var sent := o[..pos];
    assert sent[4..8] == o[4..8];
    U32RoundTrip(pos - CLIPRDR_HEADER_LENGTH, sent, 4);
    assert sent[8..] == d[8..pos] by {
      forall k | 8 <= k < pos ensures sent[k] == d[k] {
      }
    }
  }

  /**
   * cliprdr_packet_new: a stream holding msgType and msgFlags and room for
   * dataLen, with the cursor after the header. The dataLen bytes are laid
   * down as zeros here; PacketSend overwrites them.
   */
  method NewPacket(msgType: u16, msgFlags: u16) returns (s: Stream)
    ensures fresh(s) && s.Valid()
    ensures s.data == Header(msgType, msgFlags, 0) && s.pos == CLIPRDR_HEADER_LENGTH
  {
    s := new Stream.FromBytes([]);
    s.WriteU16(msgType);
    OverwriteAtEnd([], LeU16(msgType));
    s.WriteU16(msgFlags);
    OverwriteAtEnd(LeU16(msgType), LeU16(msgFlags));
    s.WriteU32(0);
    OverwriteAtEnd(LeU16(msgType) + LeU16(msgFlags), LeU32(0));
  }

  /** A capability loop outcome seen from the sets already processed, the last of them General with `acc`. */
  ghost function Combine(acc: Option<bv32>, r: CapsOutcome): CapsOutcome
  {
    if acc.Some? then After(acc.value, r) else r
  }

  /** A later General set overrides whatever flags came before it. */
  lemma CombineAfter(acc: Option<bv32>, flags: bv32, r: CapsOutcome)
    ensures Combine(acc, After(flags, r)) == Combine(Some(flags), r)
  {
  }

  class Plugin {
    var useLongFormatNames: bool
    var streamFileClipEnabled: bool
    var fileClipNoFilePaths: bool
    var canLockClipData: bool
    var hasHugeFileSupport: bool
    var capabilitiesReceived: bool
    var initialFormatListSent: bool

    /** A plugin before any PDU: nothing negotiated, nothing received or sent. */
    constructor ()
      ensures Held() == Features(false, false, false, false, false)
      ensures !capabilitiesReceived && !initialFormatListSent
    {
      useLongFormatNames := false;
      streamFileClipEnabled := false;
      fileClipNoFilePaths := false;
      canLockClipData := false;
      hasHugeFileSupport := false;
      capabilitiesReceived := false;
      initialFormatListSent := false;
    }

    /** The five feature booleans as one value. */
    function Held(): Features
      reads this
    {
      Features(useLongFormatNames, streamFileClipEnabled, fileClipNoFilePaths, canLockClipData, hasHugeFileSupport)
    }

    method SetFeatures(f: Features)
      modifies this
      ensures Held() == f
      ensures capabilitiesReceived == old(capabilitiesReceived)
      ensures initialFormatListSent == old(initialFormatListSent)
    {
      useLongFormatNames := f.useLongFormatNames;
      streamFileClipEnabled := f.streamFileClipEnabled;
      fileClipNoFilePaths := f.fileClipNoFilePaths;
      canLockClipData := f.canLockClipData;
      hasHugeFileSupport := f.hasHugeFileSupport;
    }

    /**
     * cliprdr_process_general_capability: version and generalFlags, the
     * features set from the flags, capabilities marked received, and the
     * application told.
     */
    method ProcessGeneralCapability(s: Stream, onCaps: (u32, bv32) -> u32) returns (status: u32)
      requires s.Valid()
      modifies this, s`pos
      ensures s.Valid()
      ensures old(s.Remaining()) < 8 ==>
        status == ERROR_INVALID_DATA && s.pos == old(s.pos) && Held() == old(Held())
        && capabilitiesReceived == old(capabilitiesReceived)
      ensures old(s.Remaining()) >= 8 ==>
        var flags := U32At(s.data, old(s.pos) + 4) as bv32;
        status == onCaps(U32At(s.data, old(s.pos)), flags) && s.pos == old(s.pos) + 8
        && Held() == FeaturesOf(flags) && capabilitiesReceived
      ensures initialFormatListSent == old(initialFormatListSent)
    {
      if s.Remaining() < 8 {
        return ERROR_INVALID_DATA;
      }
      ghost var d, p := s.data, s.pos;
      var version := s.ReadU32();
      var generalFlags := s.ReadU32();
      assert version == U32At(d, p) && generalFlags == U32At(d, p + 4);
      SetFeatures(FeaturesOf(generalFlags as bv32));
      capabilitiesReceived := true;
      assert s.data == d && s.pos == p + 8;
      status := onCaps(version, generalFlags as bv32);
    }

    /**
     * cliprdr_process_clip_caps: the capability sets, processed in order
     * until one fails; the features are those of the last General set read.
     */
    method ProcessClipCaps(s: Stream, onCaps: (u32, bv32) -> u32) returns (status: u32)
      requires s.Valid()
      modifies this, s`pos
      ensures s.Valid() && s.data == old(s.data)
      ensures var r := ClipCaps(s.data, old(s.pos), onCaps);
        status == r.status && s.pos == r.end
        && (r.flags.Some? ==> Held() == FeaturesOf(r.flags.value) && capabilitiesReceived)
        && (r.flags.None? ==> Held() == old(Held()) && capabilitiesReceived == old(capabilitiesReceived))
      ensures initialFormatListSent == old(initialFormatListSent)
    {
      if s.Remaining() < 4 {
        return ERROR_INVALID_DATA;
      }
      var cCapabilitiesSets := s.ReadU16();
      s.Skip(2);
      status := ProcessCapabilitySets(s, cCapabilitiesSets, onCaps);
    }

    /** The loop of cliprdr_process_clip_caps over `count` capability sets. */
    method ProcessCapabilitySets(s: Stream, count: u16, onCaps: (u32, bv32) -> u32) returns (status: u32)
      requires s.Valid()
      modifies this, s`pos
      ensures s.Valid() && s.data == old(s.data)
      ensures var r := CapsLoop(s.data, old(s.pos), count, onCaps);
        status == r.status && s.pos == r.end
        && (r.flags.Some? ==> Held() == FeaturesOf(r.flags.value) && capabilitiesReceived)
        && (r.flags.None? ==> Held() == old(Held()) && capabilitiesReceived == old(capabilitiesReceived))
      ensures initialFormatListSent == old(initialFormatListSent)
    {
      ghost var d, p0 := s.data, s.pos;
      ghost var acc: Option<bv32> := None;
      ghost var total := CapsLoop(d, p0, count, onCaps);
      ghost var rest := total;
      var index: u16 := 0;
      status := CHANNEL_RC_OK;
      while index < count
        invariant s.Valid() && s.data == d && p0 <= s.pos <= |d|
        invariant index <= count
        invariant rest == CapsLoop(d, s.pos, count - index, onCaps) && Combine(acc, rest) == total
        invariant acc.Some? ==> Held() == FeaturesOf(acc.value) && capabilitiesReceived
        invariant acc.None? ==> Held() == old(Held()) && capabilitiesReceived == old(capabilitiesReceived)
        invariant initialFormatListSent == old(initialFormatListSent)
        invariant status == CHANNEL_RC_OK
      {
        ghost var taken;
        status, taken := ProcessCapabilitySet(s, count - index, onCaps);
        if status != CHANNEL_RC_OK {
          assert total == Combine(acc, CapsOutcome(status, taken, s.pos));
          return;
        }
        CombineAfter(acc, taken.value, CapsLoop(d, s.pos, count - index - 1, onCaps));
        acc, rest := taken, CapsLoop(d, s.pos, count - index - 1, onCaps);
        index := index + 1;
      }
      assert rest == CapsOutcome(CHANNEL_RC_OK, None, s.pos);
    }

    /**
     * One pass of the loop of cliprdr_process_clip_caps: one capability set,
     * its General flags `taken` into the features when it is read; the loop
     * goes on exactly when the status is CHANNEL_RC_OK.
     */
    method ProcessCapabilitySet(s: Stream, ghost n: nat, onCaps: (u32, bv32) -> u32)
      returns (status: u32, ghost taken: Option<bv32>)
      requires s.Valid() && n > 0
      modifies this, s`pos
      ensures s.Valid() && s.data == old(s.data) && old(s.pos) <= s.pos
      ensures taken.Some? ==> Held() == FeaturesOf(taken.value) && capabilitiesReceived
      ensures taken.None? ==> Held() == old(Held()) && capabilitiesReceived == old(capabilitiesReceived)
      ensures initialFormatListSent == old(initialFormatListSent)
      ensures status != CHANNEL_RC_OK ==> CapsLoop(s.data, old(s.pos), n, onCaps) == CapsOutcome(status, taken, s.pos)
      ensures status == CHANNEL_RC_OK ==>
        taken.Some? && CapsLoop(s.data, old(s.pos), n, onCaps) == After(taken.value, CapsLoop(s.data, s.pos, n - 1, onCaps))
    {
      ghost var d, q := s.data, s.pos;
      taken := None;
      if s.Remaining() < 4 {
        TruncatedCapabilityRefused(d, q, n, onCaps);
        return ERROR_INVALID_DATA, None;
      }
      var capabilitySetType := s.ReadU16();
      var lengthCapability := s.ReadU16();
      assert capabilitySetType == U16At(d, q) && lengthCapability == U16At(d, q + 2);
      assert s.data == d && s.pos == q + 4;
      if lengthCapability < 4 || s.Remaining() < lengthCapability - 4 {
        ShortCapabilityRefused(d, q, n, onCaps);
        return ERROR_INVALID_DATA, None;
      }
      if capabilitySetType != CB_CAPSTYPE_GENERAL {
        UnknownCapabilityRefused(d, q, n, onCaps);
        return CHANNEL_RC_BAD_PROC, None;
      }
      status, taken := ProcessGeneralSet(s, d, q, n, onCaps);
    }

    /** The General branch of one pass: the set's header at q has been read and checked. */
    method ProcessGeneralSet(s: Stream, ghost d: seq<byte>, ghost q: nat, ghost n: nat, onCaps: (u32, bv32) -> u32)
      returns (status: u32, ghost taken: Option<bv32>)
      requires s.Valid() && s.data == d && s.pos == q + 4 && n > 0
      requires U16At(d, q) == CB_CAPSTYPE_GENERAL
      requires 4 <= U16At(d, q + 2) && U16At(d, q + 2) - 4 <= |d| - (q + 4)
      modifies this, s`pos
      ensures s.Valid() && s.data == d && q <= s.pos
      ensures taken.Some? ==> Held() == FeaturesOf(taken.value) && capabilitiesReceived
      ensures taken.None? ==> Held() == old(Held()) && capabilitiesReceived == old(capabilitiesReceived)
      ensures initialFormatListSent == old(initialFormatListSent)
      ensures status != CHANNEL_RC_OK ==> CapsLoop(d, q, n, onCaps) == CapsOutcome(status, taken, s.pos)
      ensures status == CHANNEL_RC_OK ==>
        taken.Some? && CapsLoop(d, q, n, onCaps) == After(taken.value, CapsLoop(d, s.pos, n - 1, onCaps))
    {
      taken := None;
      if s.Remaining() < 8 {
        TruncatedGeneralRefused(d, q, n, onCaps);
        status := ProcessGeneralCapability(s, onCaps);
        return;
      }
      status := ProcessGeneralCapability(s, onCaps);
      assert status == onCaps(U32At(d, q + 4), U32At(d, q + 8) as bv32) && s.pos == q + 12;
      taken := Some(U32At(d, q + 8) as bv32);
      if status != CHANNEL_RC_OK {
        RejectedGeneralStops(d, q, n, onCaps);
      } else {
        GeneralSetConsumesTwelve(d, q, n, onCaps);
      }
    }

    /**
     * cliprdr_process_monitor_ready: without a Clipboard Capabilities PDU
     * first, the default features are installed; then the application is told.
     */
    method ProcessMonitorReady(dataLen: u32, msgFlags: u16, onReady: (u32, u16) -> u32) returns (status: u32)
      modifies this
      ensures Held() == if old(capabilitiesReceived) then old(Held()) else MonitorReadyDefaults(old(Held()))
      ensures capabilitiesReceived == old(capabilitiesReceived)
      ensures initialFormatListSent == old(initialFormatListSent)
      ensures status == onReady(dataLen, msgFlags)
    {
      if !capabilitiesReceived {
        useLongFormatNames := false;
        streamFileClipEnabled := false;
        fileClipNoFilePaths := true;
        canLockClipData := false;
      }
      status := onReady(dataLen, msgFlags);
    }

    /**
     * cliprdr_order_recv: the 8-byte header, the check that dataLen bytes
     * follow it, and the dispatch on msgType; the message types whose
     * handlers are not modelled go to `others`, and an unknown type is
     * CHANNEL_RC_BAD_PROC.
     */
    method OrderRecv(s: Stream, onCaps: (u32, bv32) -> u32, onReady: (u32, u16) -> u32,
                     others: (u16, u16, u32) -> u32) returns (status: u32)
      requires s.Valid()
      modifies this, s`pos
      ensures s.Valid() && s.data == old(s.data)
      ensures initialFormatListSent == old(initialFormatListSent)
      ensures old(s.Remaining()) < CLIPRDR_HEADER_LENGTH ==>
        status == ERROR_INVALID_DATA && Held() == old(Held()) && capabilitiesReceived == old(capabilitiesReceived)
      ensures old(s.Remaining()) >= CLIPRDR_HEADER_LENGTH ==>
        var d, p := s.data, old(s.pos);
        var msgType, msgFlags, dataLen := U16At(d, p), U16At(d, p + 2), U32At(d, p + 4);
        if old(s.Remaining()) - CLIPRDR_HEADER_LENGTH < dataLen then
          status == ERROR_INVALID_DATA && Held() == old(Held()) && capabilitiesReceived == old(capabilitiesReceived)
        else if msgType == CB_CLIP_CAPS then
          var r := ClipCaps(d, p + CLIPRDR_HEADER_LENGTH, onCaps);
          status == r.status
          && (r.flags.Some? ==> Held() == FeaturesOf(r.flags.value) && capabilitiesReceived)
          && (r.flags.None? ==> Held() == old(Held()) && capabilitiesReceived == old(capabilitiesReceived))
        else if msgType == CB_MONITOR_READY then
          status == onReady(dataLen, msgFlags) && capabilitiesReceived == old(capabilitiesReceived)
          && Held() == if old(capabilitiesReceived) then old(Held()) else MonitorReadyDefaults(old(Held()))
        else
          Held() == old(Held()) && capabilitiesReceived == old(capabilitiesReceived)
          && status == if KnownOther(msgType) then others(msgType, msgFlags, dataLen) else CHANNEL_RC_BAD_PROC
    {
      if s.Remaining() < CLIPRDR_HEADER_LENGTH {
        return ERROR_INVALID_DATA;
      }
      var msgType := s.ReadU16();
      var msgFlags := s.ReadU16();
      var dataLen := s.ReadU32();
      if s.Remaining() < dataLen {
        return ERROR_INVALID_DATA;
      }
      if msgType == CB_CLIP_CAPS {
        status := ProcessClipCaps(s, onCaps);
      } else if msgType == CB_MONITOR_READY {
        status := ProcessMonitorReady(dataLen, msgFlags, onReady);
      } else if KnownOther(msgType) {
        status := others(msgType, msgFlags, dataLen);
      } else {
        status := CHANNEL_RC_BAD_PROC;
      }
    }

    /**
     * cliprdr_client_capabilities: the Clipboard Capabilities PDU the client
     * answers with, carrying the requested generalFlags less the features
     * the plugin does not hold; the plugin then holds exactly the features
     * it sent, and a new initial Format List is due.
     */
    method ClientCapabilities(capabilitySetType: u16, capabilitySetLength: u16, version: u32,
                              generalFlags: bv32, write: u32) returns (status: u32, sent: seq<byte>)
      modifies this
      ensures var flags := Negotiate(generalFlags, old(Held()));
        Held() == FeaturesOf(flags)
        && sent == Header(CB_CLIP_CAPS, 0, 16) + CapsBody(capabilitySetType, capabilitySetLength, version, flags)
      ensures capabilitiesReceived == old(capabilitiesReceived) && !initialFormatListSent
      ensures status == write
    {
      var s := NewPacket(CB_CLIP_CAPS, 0);
      var flags := Negotiate(generalFlags, Held());
      WriteCapsBody(s, capabilitySetType, capabilitySetLength, version, flags);
      SetFeatures(FeaturesOf(flags));
      initialFormatListSent := false;
      status, sent := PacketSend(s, write);
      CapsPacket(capabilitySetType, capabilitySetLength, version, flags);
    }

    /**
     * cliprdr_client_format_list: after the initial Format List, a list the
     * feature mask filters down to nothing is not sent. `numFormats` is the
     * size of the filtered list and `write` the status of building and
     * sending the PDU, whose layout is not part of this model.
     */
    method ClientFormatList(numFormats: nat, write: u32) returns (status: u32, sent: bool)
      modifies this`initialFormatListSent
      ensures sent <==> FormatListDue(numFormats, old(initialFormatListSent))
      ensures status == if sent then write else CHANNEL_RC_OK
      ensures initialFormatListSent
    {
      if numFormats == 0 && initialFormatListSent {
        return CHANNEL_RC_OK, false;
      }
      initialFormatListSent := true;
      status, sent := write, true;
    }

    /**
     * cliprdr_client_file_contents_request: ignored (CHANNEL_RC_OK, nothing
     * sent) when remote-to-local file copy is disabled in the feature mask;
     * refused by the 32-bit guard without huge-file support; sent otherwise.
     */
    method ClientFileContentsRequest(remoteToLocalFiles: bool, nPositionLow: u32, nPositionHigh: u32,
                                     cbRequested: u32, write: u32) returns (status: u32, sent: bool)
      ensures !remoteToLocalFiles ==> status == CHANNEL_RC_OK && !sent
      ensures remoteToLocalFiles ==>
        var guard := FileContentsGuard(hasHugeFileSupport, nPositionLow, nPositionHigh, cbRequested);
        (sent <==> guard.None?) && status == if sent then write else ERROR_INVALID_PARAMETER
    {
      if !remoteToLocalFiles {
        return CHANNEL_RC_OK, false;
      }
      if !hasHugeFileSupport {
        if cbRequested + nPositionLow > UINT32_MAX {
          return ERROR_INVALID_PARAMETER, false;
        }
        if nPositionHigh != 0 {
          return ERROR_INVALID_PARAMETER, false;
        }
      }
      status, sent := write, true;
    }
  }

  /** The message types cliprdr_order_recv hands to handlers outside this model. */
  predicate KnownOther(msgType: u16)
  {
    msgType == CB_FORMAT_LIST || msgType == CB_FORMAT_LIST_RESPONSE || msgType == CB_FORMAT_DATA_REQUEST
    || msgType == CB_FORMAT_DATA_RESPONSE || msgType == CB_FILECONTENTS_REQUEST
    || msgType == CB_FILECONTENTS_RESPONSE || msgType == CB_LOCK_CLIPDATA || msgType == CB_UNLOCK_CLIPDATA
  }

  /** Whether a Format List goes out: always the first time, and afterwards unless it is empty. */
  predicate FormatListDue(numFormats: nat, initialSent: bool)
  {
    !(numFormats == 0 && initialSent)
  }

  /** Once answered with capabilities, the next Format List goes out even when empty; after it, an empty one does not. */
  lemma FormatListAfterCapabilities(numFormats: nat)
    ensures FormatListDue(numFormats, false)
    ensures FormatListDue(numFormats, true) <==> numFormats > 0
  {
  }

  /** Writes the capabilities body after the header of a fresh packet. */
  method WriteCapsBody(s: Stream, capType: u16, capLength: u16, version: u32, flags: bv32)
    requires s.Valid() && s.pos == |s.data|
    modifies s
    ensures s.Valid() && s.data == old(s.data) + CapsBody(capType, capLength, version, flags)
    ensures s.pos == |s.data|
  {
    ghost var d0 := s.data;
    ghost var w := s.data;
    s.WriteU16(1);
    OverwriteAtEnd(w, LeU16(1));
    w := w + LeU16(1);
    assert s.data == w && s.pos == |w|;
    s.WriteU16(0);
    OverwriteAtEnd(w, LeU16(0));
    w := w + LeU16(0);
    assert s.data == w && s.pos == |w|;
    s.WriteU16(capType);
    OverwriteAtEnd(w, LeU16(capType));
    w := w + LeU16(capType);
    assert s.data == w && s.pos == |w|;
    s.WriteU16(capLength);
    OverwriteAtEnd(w, LeU16(capLength));
    w := w + LeU16(capLength);
    assert s.data == w && s.pos == |w|;
    s.WriteU32(version);
    OverwriteAtEnd(w, LeU32(version));
    w := w + LeU32(version);
    assert s.data == w && s.pos == |w|;
    s.WriteU32(flags as int);
    OverwriteAtEnd(w, LeU32(flags as int));
    w := w + LeU32(flags as int);
    AppendSix(d0, LeU16(1), LeU16(0), LeU16(capType), LeU16(capLength), LeU32(version), LeU32(flags as int));
  }

  lemma AppendSix(d: seq<byte>, a: seq<byte>, b: seq<byte>, c: seq<byte>, e: seq<byte>, f: seq<byte>, g: seq<byte>)
    ensures d + a + b + c + e + f + g == d + (a + b + c + e + f + g)
  {
  }

  /** The patched capabilities packet is the header with dataLen 16 followed by the body. */
  lemma CapsPacket(capType: u16, capLength: u16, version: u32, flags: bv32)
    ensures var d := Header(CB_CLIP_CAPS, 0, 0) + CapsBody(capType, capLength, version, flags);
      Overwrite(d, 4, LeU32(16))[..24] == Header(CB_CLIP_CAPS, 0, 16) + CapsBody(capType, capLength, version, flags)
  {
    var body := CapsBody(capType, capLength, version, flags);
    var d := Header(CB_CLIP_CAPS, 0, 0) + body;
    var o := Overwrite(d, 4, LeU32(16));
    var e := Header(CB_CLIP_CAPS, 0, 16) + body;
    forall k | 0 <= k < 24 ensures o[k] == e[k] {
      if k < 4 {
        assert o[k] == o[..4][k];
      } else if k < 8 {
        assert o[k] == o[4..8][k - 4];
      }
    }
  }

  /**
   * The packet ClientCapabilities sends announces its 16-byte body and, read
   * by the capability parser, gives back the negotiated flags.
   */
  lemma ClientCapabilitiesReadBack(version: u32, requested: bv32, held: Features, onCaps: (u32, bv32) -> u32)
    ensures var flags := Negotiate(requested, held);
      var body := CapsBody(CB_CAPSTYPE_GENERAL, CB_CAPSTYPE_GENERAL_LEN, version, flags);
      var pdu := Header(CB_CLIP_CAPS, 0, 16) + body;
      U16At(pdu, 0) == CB_CLIP_CAPS && U32At(pdu, 4) == |pdu| - CLIPRDR_HEADER_LENGTH
      && ClipCaps(pdu, CLIPRDR_HEADER_LENGTH, onCaps) == CapsOutcome(onCaps(version, flags), Some(flags), 24)
  {
    var flags := Negotiate(requested, held);
    var body := CapsBody(CB_CAPSTYPE_GENERAL, CB_CAPSTYPE_GENERAL_LEN, version, flags);
    var pdu := Header(CB_CLIP_CAPS, 0, 16) + body;
    HeaderIn([], CB_CLIP_CAPS, 0, 16, body);
    assert pdu == [] + Header(CB_CLIP_CAPS, 0, 16) + body;
    CapsBodyRoundTrip(Header(CB_CLIP_CAPS, 0, 16), version, flags, [], onCaps);
    assert pdu == Header(CB_CLIP_CAPS, 0, 16) + body + [];
  }
}
