# FreeRDP clipboard, RemoteApp and serial-port core, in Dafny

This project models four pieces of FreeRDP and proves properties of them.

- **The Windows client's clipboard bridge** (`client/Windows/wf_cliprdr.c`).
  - The table mapping the server's clipboard format ids to local ones (`FormatMap`).
  - The lazy `IStream` over a remote file (`ClipStream`).
  - The `FORMATETC` lookup and enumerator handed to OLE (`OleFormats`).
  - The harvest of dropped local files and directories into the parallel file arrays (`FileHarvest`).
- **The clipboard virtual channel client** (`channels/cliprdr/client/cliprdr_main.c`, module `CliprdrClient`, with the pure rules in `CliprdrPdu`).
  - The 8-byte Clipboard PDU header and its `dataLen` back-patch.
  - The Clipboard Capabilities PDU loop and the General Capability Set flags (section 2.2.2.1 of MS-RDPECLIP).
  - The client's flag negotiation and the Monitor Ready defaults.
  - The Format List suppression.
  - The 32-bit guard on File Contents Requests (section 2.2.5.3 of MS-RDPECLIP).
- **The RAIL (Remote Programs) server** (`channels/rail/server/rail_main.c`).
  - Every fixed-layout order writer and reader, as a generic field serialiser (`RailOrders`).
  - The Client Execute PDU reader (`RailExec`, section 2.2.2.3.1 of MS-RDPERP).
  - The stream-level readers and writers, the header patch of `rail_server_send_pdu` and the `orderType` dispatcher (`RailServer`).
- **WinPR's serial port I/O** (`winpr/libwinpr/comm/comm_io.c`, module `CommIo`).
  - `svtime`.
  - The COMMTIMEOUTS decision table of `CommReadFile`.
  - The write timeout and the write loop of `CommWriteFile`.

Shared pieces:

- `Bytes`: little-endian integers and their round trips.
- `WStream`: a `wStream` as a class with a byte sequence and a cursor.
- `Win32`: the status and HRESULT codes used.
- `Wrappers`: `Option` and `Result`.

State that the C code changes in place is modelled by classes:

- `FormatMap.Table`;
- `ClipStream.FileStream`;
- `OleFormats.Enumerator`;
- `FileHarvest.FileArrays`;
- `CliprdrClient.Plugin`;
- `WStream.Stream`.

Their methods state their new state against specification functions (`Mappings`, `RemoteOf`, `BoundedRead`, `SkipOutcome`, `WalkFrom`, `ClipCaps`, `Negotiate`, `Decode`, `DecodeExec`, `WriteLoop`). The lemmas prove what those functions promise.

Calls into code that is not visible become parameters:

- `RegisterClipboardFormatW` is a function from names to ids.
- An application callback (`IFCALLRET`) is a function from its arguments to a status. A missing callback behaves as one returning `CHANNEL_RC_OK`.
- A channel write is its returned status.
- A file-contents reply is the request status and the reply bytes.
- `read`/`write`/`select` answers are a sequence of rounds.
- The file system is a tree of nodes.
- String conversion is a predicate saying which strings convert.

## Model

| member | source | states |
|---|---|---|
| FormatMap.RemoteOf | client/Windows/wf_cliprdr.c:1100-1116 | the server id of the first slot whose local id matches, or the local id itself when no slot matches |
| FormatMap.LocalByName | client/Windows/wf_cliprdr.c:1051-1093 | the local id of the first slot with exactly that name, or 0 when none has it |
| FormatMap.Mappings | client/Windows/wf_cliprdr.c:1874-1898 | one mapping per format of the list, in order: the server's id, and as local id the registered id of its name, or the server's id when it has no name |
| FormatMap.RemoteOfFirst | client/Windows/wf_cliprdr.c:1100-1116 | the first matching slot is the one reported |
| FormatMap.LocalByNameFirst | client/Windows/wf_cliprdr.c:1051-1093 | the first slot carrying the name is the one reported |
| FormatMap.NameLeadsBackToServerId | client/Windows/wf_cliprdr.c:1874-1898 | after a Format List is loaded, looking up a named format's local id and mapping it back gives the server's id, provided no earlier format has the same local id |
| FormatMap.UnnamedFormatKeepsItsId | client/Windows/wf_cliprdr.c:1883-1889 | an unnamed format maps to itself and back |
| FormatMap.GrowAsWritten | client/Windows/wf_cliprdr.c:1118-1137 | the realloc doubles the slots and leaves every new slot uninitialised |
| FormatMap.RebuildAsWritten | client/Windows/wf_cliprdr.c:1874-1898 | the table as written: each mapping placed in the next slot, then `GrowAsWritten` whenever the next slot would be the last |
| FormatMap.FillingListLeavesUninit | client/Windows/wf_cliprdr.c:1874-1898 | a list that exactly fills the table grows it on its last format and leaves the whole new half unset |
| FormatMap.ThirtyTwoFormatsBreakNextClear | client/Windows/wf_cliprdr.c:1139-1160 | after a 32-format list, the next `clear_format_map` frees names in slots that were never initialised |
| FormatMap.Table.constructor | client/Windows/wf_cliprdr.c:2482-2501 | 32 zeroed slots, none in use |
| FormatMap.Table.EnsureCapacity | client/Windows/wf_cliprdr.c:1118-1137 | corrected (see Findings; as written: `GrowAsWritten`, which leaves the new slots uninitialised): the slots double, the new ones zeroed, exactly when every slot is in use; on allocation failure nothing changes |
| FormatMap.Table.Clear | client/Windows/wf_cliprdr.c:1139-1160 | every slot up to the capacity is emptied and none is in use |
| FormatMap.Table.Rebuild | client/Windows/wf_cliprdr.c:1866-1923 | corrected (see Findings; as written: `RebuildAsWritten`), growing through the zeroing `EnsureCapacity`: afterwards the slots in use are exactly the list's mappings in order, their number is the list's length, the rest are empty, and the table never shrinks |
| FormatMap.Table.RemoteFormatId | client/Windows/wf_cliprdr.c:1100-1116 | the loop's result is `RemoteOf` over the slots in use |
| FormatMap.Table.LocalFormatIdByName | client/Windows/wf_cliprdr.c:1051-1093 | the loop's result is `LocalByName` over the slots in use |
| ClipStream.Wrap64 | client/Windows/wf_cliprdr.c:281-294 | ULONGLONG arithmetic reduces modulo 2^64 |
| ClipStream.AsksServerForSize | client/Windows/wf_cliprdr.c:443-449 | the size is asked of the server exactly when the descriptor has no FD_FILESIZE and is not a directory |
| ClipStream.SizeRule | client/Windows/wf_cliprdr.c:443-449 | a size the descriptor carries is never asked for, nor is a directory's; otherwise it is asked for |
| ClipStream.SeekTarget | client/Windows/wf_cliprdr.c:281-299 | the new cursor from the start, the cursor or the end; none for an unknown origin |
| ClipStream.SeekIsExact | client/Windows/wf_cliprdr.c:281-304 | while cursor and size fit in 63 bits, a seek succeeds exactly when the intended position lies in [0, size), and lands on it |
| ClipStream.SeekToEndRefused | client/Windows/wf_cliprdr.c:301-302 | seeking to exactly the end is refused |
| ClipStream.ReadAsWritten | client/Windows/wf_cliprdr.c:238-259 | past the end, S_FALSE and nothing read; after a status that is non-negative as an `int`, the whole reply is what is read |
| ClipStream.ReadAsWrittenOverruns | client/Windows/wf_cliprdr.c:247-254 | an 8-byte reply to a 4-byte read is copied and reported whole |
| ClipStream.ReadAsWrittenIgnoresFailure | client/Windows/wf_cliprdr.c:241-245 | a failed request returning ERROR_INTERNAL_ERROR is not treated as a failure |
| ClipStream.BoundedRead | client/Windows/wf_cliprdr.c:238-259 | corrected (see Findings; as written: `ReadAsWritten`): past the end, S_FALSE and nothing read; a failed request is E_FAIL with the cursor unchanged; at most `cb` bytes, a prefix of the reply, are returned; the cursor advances by exactly that many; S_OK exactly when `cb` bytes came back |
| ClipStream.ReadAgreesWithSource | client/Windows/wf_cliprdr.c:238-259 | when the request succeeds and the reply is no longer than asked, the code as written and `BoundedRead` agree |
| ClipStream.ReadsCompose | client/Windows/wf_cliprdr.c:247-257 | two full reads return the concatenation of their replies and leave the cursor where one read of both would |
| ClipStream.FileStream.Open | client/Windows/wf_cliprdr.c:436-441 | a stream for a list index, starting at offset 0 with the given size |
| ClipStream.FileStream.New | client/Windows/wf_cliprdr.c:407-478 | no stream exactly when the size had to be asked for and the request failed; otherwise offset 0, and the size is the reply's or the descriptor's two halves joined |
| ClipStream.FileStream.Seek | client/Windows/wf_cliprdr.c:272-310 | an unknown origin is E_INVALIDARG; otherwise the new position is committed and reported exactly when it is below the size, else E_FAIL and nothing changes |
| ClipStream.FileStream.Read | client/Windows/wf_cliprdr.c:225-260 | corrected (see Findings; as written: `ReadAsWritten`, which neither bounds the copy by `cb` nor fails on a positive status): result, bytes and new cursor are those of `BoundedRead` |
| ClipStream.FileStream.Write | client/Windows/wf_cliprdr.c:262-270 | every write is STG_E_ACCESSDENIED and changes nothing |
| OleFormats.LookupFormat | client/Windows/wf_cliprdr.c:493-509 | the index of the first offered format whose medium and aspect overlap the query's and whose format equals it; -1 exactly when none matches |
| OleFormats.Matches | client/Windows/wf_cliprdr.c:493-509 | a query matches an offered format when their media overlap, their aspects overlap and the format ids are equal |
| OleFormats.SkipAsWrittenGoesNegative | client/Windows/wf_cliprdr.c:938-950 | skipping 0xFFFFFFFF from the start of any list succeeds and sets the cursor to -1 |
| OleFormats.SkipAsWritten | client/Windows/wf_cliprdr.c:945-948 | Skip as written: the bound is tested on the LONG sum `index + (LONG)celt`, wrapped to 32 bits, and the cursor moves by `celt`, wrapped the same way |
| OleFormats.SkipAsWrittenSumWraps | client/Windows/wf_cliprdr.c:945-948 | Skip(0x7FFFFFFF) one entry into a one-entry list wraps the LONG sum to -2^31, succeeds and sets the cursor to -2^31 |
| OleFormats.SkipOutcome | client/Windows/wf_cliprdr.c:938-950 | the cursor never leaves [0, count]; S_OK exactly when `index + celt <= count`, moving by `celt`; otherwise E_FAIL and no move |
| OleFormats.SkipAgreesBelowTwoToThe31 | client/Windows/wf_cliprdr.c:945-949 | while cursor plus count stays within LONG_MAX, the code as written does what `SkipOutcome` does |
| OleFormats.Enumerator.constructor | client/Windows/wf_cliprdr.c:981-1026 | a copy of the list with the cursor at its start |
| OleFormats.Enumerator.Next | client/Windows/wf_cliprdr.c:918-936 | a zero count is E_INVALIDARG; otherwise it copies the next min(celt, remaining) entries, advances by that many, and returns S_OK exactly when all `celt` were copied |
| OleFormats.Enumerator.Skip | client/Windows/wf_cliprdr.c:938-950 | corrected (see Findings; as written: `SkipAsWritten`, with the `(LONG)celt` cast and the wrapping LONG sum): the result and the new cursor are those of `SkipOutcome` |
| OleFormats.Enumerator.Reset | client/Windows/wf_cliprdr.c:952-961 | the cursor returns to 0 |
| OleFormats.Enumerator.Clone | client/Windows/wf_cliprdr.c:963-979 | a fresh enumerator over the same list at the same position |
| FileHarvest.Join | client/Windows/wf_cliprdr.c:1762-1765 | the child's path extends the directory's path |
| FileHarvest.Describe | client/Windows/wf_cliprdr.c:1642-1672 | the descriptor of a harvested file: FD_ATTRIBUTES, FD_FILESIZE and FD_PROGRESSUI, plus FD_WRITESTIME when the write time is known; the file's attributes and two size halves; the path after the prefix as its name |
| FileHarvest.DescribedFilesCarryTheirSize | client/Windows/wf_cliprdr.c:1642-1672 | every descriptor offered carries the file's size and valid attributes; a stream opened from it never asks for the size; its name is the path after the prefix |
| FileHarvest.WalkFrom | client/Windows/wf_cliprdr.c:1751-1783 | every entry collected below a directory has a path under it |
| FileHarvest.Entry | client/Windows/wf_cliprdr.c:1753-1782 | every entry one listing entry contributes has a path under the directory |
| FileHarvest.FirstEntryLostAsWritten | client/Windows/wf_cliprdr.c:1743-1751 | for a directory listing one file and no dot entries, the code as written collects nothing, though that file should be collected |
| FileHarvest.SkipFirstHarmlessOnDotFirst | client/Windows/wf_cliprdr.c:1743-1758 | when every listing below starts with ".", passing over the first entry loses nothing |
| FileHarvest.DotFirstAgreement | client/Windows/wf_cliprdr.c:1743-1758 | on such a tree the code as written collects exactly what the corrected walk does |
| FileHarvest.Grown | client/Windows/wf_cliprdr.c:1674-1703 | after growth there is room for one more entry, and the arrays never shrink |
| FileHarvest.FileArrays.constructor | client/Windows/wf_cliprdr.c:1564-1597 | empty arrays |
| FileHarvest.FileArrays.EnsureCapacity | client/Windows/wf_cliprdr.c:1674-1703 | full arrays grow to (size + 1) * 2; afterwards there is room for one more |
| FileHarvest.FileArrays.Add | client/Windows/wf_cliprdr.c:1705-1730 | the path and its descriptor are appended exactly when the file can be opened; otherwise nothing is |
| FileHarvest.FileArrays.Traverse | client/Windows/wf_cliprdr.c:1732-1787 | corrected (see Findings; as written, the loop starts with `FindNextFile`, `FirstEntryLostAsWritten`): the walk starts at the listing's first entry; success exactly when everything below can be opened and listed; then the whole depth-first walk (each directory before what it holds, "." and ".." passed over) is appended; on failure a prefix of it is |
| FileHarvest.FileArrays.TraverseEntry | client/Windows/wf_cliprdr.c:1753-1782 | one listing entry: passed over, or appended, followed, for a directory, by its walk |
| FileHarvest.FileArrays.ProcessFilename | client/Windows/wf_cliprdr.c:1971-2002 | corrected through `Traverse` (see Findings; as written: `FirstEntryLostAsWritten`): the prefix ends just after the last backslash past the first character (or is 1); the name is appended, then for a directory its walk; success exactly when all of it could be opened |
| FileHarvest.FileArrays.SizeReply | client/Windows/wf_cliprdr.c:2373-2382 | an index past the arrays is ERROR_INTERNAL_ERROR with no data; otherwise 8 bytes that read back as the descriptor's 64-bit size |
| FileHarvest.DirectoryThenFileOverflowsAsWritten | client/Windows/wf_cliprdr.c:2093-2106 | a dropped directory holding one file, then a plain file: the ANSI loop as written writes the third entry past the two-slot arrays |
| FileHarvest.AnsiLoopAsWritten | client/Windows/wf_cliprdr.c:2093-2106 | the ANSI drop loop as written: each name's adds, then one more `nFiles++`; the flag says whether every write stayed inside the arrays |
| FileHarvest.HarvestLoop | client/Windows/wf_cliprdr.c:2083-2091 | the wide-character drop loop: each name's adds counted once; the flag says whether every write stayed inside the arrays |
| FileHarvest.AddsStayInside | client/Windows/wf_cliprdr.c:1674-1730 | successive adds from a count within the capacity stay inside the arrays and count each entry once |
| FileHarvest.HarvestLoopStaysInside | client/Windows/wf_cliprdr.c:2083-2091 | counting each entry once, as the wide-character loop does, every write stays inside the arrays and the count is the number of entries |
| CliprdrPdu.Clear | channels/cliprdr/client/cliprdr_main.c:591-600 | `flags &= ~mask` clears the mask's bits and keeps every other bit |
| CliprdrPdu.FeaturesOf | channels/cliprdr/client/cliprdr_main.c:164-170 | each of the five features is TRUE exactly when its bit of generalFlags is set |
| CliprdrPdu.CapsBody | channels/cliprdr/client/cliprdr_main.c:579-608 | the 16-byte capabilities body: one set, a zero pad, the set's type and length, then version and generalFlags, all little-endian |
| CliprdrPdu.CapsLoop | channels/cliprdr/client/cliprdr_main.c:213-243 | the loop never reads past the data; success means no sets or a General set was read |
| CliprdrPdu.ClipCaps | channels/cliprdr/client/cliprdr_main.c:206-245 | fewer than 4 bytes is ERROR_INVALID_DATA with nothing taken; the cursor stays within the data |
| CliprdrPdu.TruncatedCapabilityRefused | channels/cliprdr/client/cliprdr_main.c:215-216 | fewer than 4 bytes where a set should start is ERROR_INVALID_DATA |
| CliprdrPdu.ShortCapabilityRefused | channels/cliprdr/client/cliprdr_main.c:221-223 | a `lengthCapability` below 4, or longer than what remains, is ERROR_INVALID_DATA whatever the type |
| CliprdrPdu.UnknownCapabilityRefused | channels/cliprdr/client/cliprdr_main.c:238-241 | an unknown set type is CHANNEL_RC_BAD_PROC and sets no feature |
| CliprdrPdu.TruncatedGeneralRefused | channels/cliprdr/client/cliprdr_main.c:157-158 | a General set with fewer than 8 bytes after its header is ERROR_INVALID_DATA |
| CliprdrPdu.RejectedGeneralStops | channels/cliprdr/client/cliprdr_main.c:227-234 | a General set the application rejects ends the loop with its status, its flags already taken |
| CliprdrPdu.GeneralSetConsumesTwelve | channels/cliprdr/client/cliprdr_main.c:219-236 | a General set is read as 8 bytes and the next set is looked for right after them, whatever its `lengthCapability` says |
| CliprdrPdu.CapsBodyRoundTrip | channels/cliprdr/client/cliprdr_main.c:579-608 | a capabilities body with one General set, as the client writes it, reads back as that set: the application sees its version and flags, and the features become the flags' |
| CliprdrPdu.NegotiateBits | channels/cliprdr/client/cliprdr_main.c:591-600 | each of the five feature bits goes out exactly when it was requested and the plugin holds that feature; every other bit goes out as requested |
| CliprdrPdu.Negotiate | channels/cliprdr/client/cliprdr_main.c:591-600 | the flags sent: the requested flags with each of the five feature bits cleared when its feature is not held, in source order |
| CliprdrPdu.NegotiateBit | channels/cliprdr/client/cliprdr_main.c:591-600 | a feature bit is sent exactly when it was requested and is held |
| CliprdrPdu.NegotiatedFeaturesShrink | channels/cliprdr/client/cliprdr_main.c:591-606 | after negotiation the plugin holds a feature only if it held it before |
| CliprdrPdu.NegotiateKeepsGranted | channels/cliprdr/client/cliprdr_main.c:591-600 | asking for exactly the features the server granted sends them all |
| CliprdrPdu.MonitorReadyDefaults | channels/cliprdr/client/cliprdr_main.c:265-277 | without capabilities: no long names, no stream file clip, no file paths, no locking; huge-file support keeps its value |
| CliprdrPdu.DefaultsAreNotZeroFlags | channels/cliprdr/client/cliprdr_main.c:267-275 | those defaults differ from a generalFlags of zero in exactly one feature, "no file paths" |
| CliprdrPdu.FileContentsGuard | channels/cliprdr/client/cliprdr_main.c:907-914 | only a plugin without huge-file support refuses, and then with ERROR_INVALID_PARAMETER |
| CliprdrPdu.FileContentsRangeFits | channels/cliprdr/client/cliprdr_main.c:907-914 | without huge-file support a request passes exactly when its 64-bit range ends at most at 2^32 - 1 |
| CliprdrClient.HeaderIn | channels/cliprdr/client/cliprdr_main.c:441-446 | the header's msgType, msgFlags and dataLen read back from wherever it lies |
| CliprdrClient.PacketSend | channels/cliprdr/client/cliprdr_main.c:61-98 | `position - 8` is written as a u32 at offset 4; the cursor is restored; the bytes up to it go out, and the channel's status is returned |
| CliprdrClient.PatchedLength | channels/cliprdr/client/cliprdr_main.c:68-74 | a patched packet announces exactly the number of bytes after its header, and nothing else changes |
| CliprdrClient.NewPacket | channels/cliprdr/client/cliprdr_main.c:571-577 | a fresh stream holding the header, with the cursor after it |
| CliprdrClient.CombineAfter | channels/cliprdr/client/cliprdr_main.c:213-243 | a later General set overrides the flags of any earlier one |
| CliprdrClient.Plugin.constructor | channels/cliprdr/client/cliprdr_main.c:1135-1207 | nothing negotiated, received or sent |
| CliprdrClient.Plugin.ProcessGeneralCapability | channels/cliprdr/client/cliprdr_main.c:139-187 | fewer than 8 bytes is ERROR_INVALID_DATA and changes nothing; otherwise each feature is its bit of generalFlags, capabilities are marked received, and the application's status is returned |
| CliprdrClient.Plugin.ProcessClipCaps | channels/cliprdr/client/cliprdr_main.c:194-246 | status and cursor are those of `ClipCaps`; the features are those of the last General set read, or unchanged if none was |
| CliprdrClient.Plugin.ProcessCapabilitySets | channels/cliprdr/client/cliprdr_main.c:213-243 | the loop over the sets does what `CapsLoop` describes |
| CliprdrClient.Plugin.ProcessCapabilitySet | channels/cliprdr/client/cliprdr_main.c:215-242 | one set is refused, rejected or taken as `CapsLoop` describes, and the loop goes on exactly when the status is CHANNEL_RC_OK |
| CliprdrClient.Plugin.ProcessGeneralSet | channels/cliprdr/client/cliprdr_main.c:227-234 | a General set: when it is taken the features become its flags and capabilities are marked received; a non-OK status ends `CapsLoop` there, an OK one lets it go on after the set |
| CliprdrClient.Plugin.ProcessMonitorReady | channels/cliprdr/client/cliprdr_main.c:253-288 | the defaults are installed exactly when no capabilities came first; the application's status is returned |
| CliprdrClient.Plugin.OrderRecv | channels/cliprdr/client/cliprdr_main.c:434-547 | fewer than 8 header bytes, or fewer than dataLen body bytes, is ERROR_INVALID_DATA and changes nothing; capabilities and Monitor Ready go to their handlers; other known types go to theirs; an unknown type is CHANNEL_RC_BAD_PROC |
| CliprdrClient.Plugin.ClientCapabilities | channels/cliprdr/client/cliprdr_main.c:558-614 | the PDU sent carries the requested flags less the features not held; the plugin then holds exactly the features sent; `initialFormatListSent` is reset |
| CliprdrClient.Plugin.ClientFormatList | channels/cliprdr/client/cliprdr_main.c:661-719 | a list is withheld, with CHANNEL_RC_OK, exactly when it filters down to nothing and the initial list has already gone out; a sent list returns the write status; afterwards `initialFormatListSent` holds |
| CliprdrClient.Plugin.ClientFileContentsRequest | channels/cliprdr/client/cliprdr_main.c:887-927 | ignored with CHANNEL_RC_OK when file copy from the server is disabled; sent exactly when the 32-bit guard passes; otherwise ERROR_INVALID_PARAMETER |
| CliprdrClient.FormatListAfterCapabilities | channels/cliprdr/client/cliprdr_main.c:611 | after capabilities, the next Format List goes out even when empty; after it, an empty one does not |
| CliprdrClient.WriteCapsBody | channels/cliprdr/client/cliprdr_main.c:579-608 | the stream after the header holds exactly the capabilities body |
| CliprdrClient.CapsPacket | channels/cliprdr/client/cliprdr_main.c:571-613 | the patched capabilities packet is the header with dataLen 16, then the body |
| CliprdrClient.ClientCapabilitiesReadBack | channels/cliprdr/client/cliprdr_main.c:558-614 | the packet sent announces its 16-byte body and, parsed by the capability reader, yields the negotiated flags |
| RailOrders.ParseSerialize | channels/rail/server/rail_main.c:86-258 | fields written one after another read back as themselves, whatever surrounds them |
| RailOrders.FieldsOf | channels/rail/server/rail_main.c:86-258 | the fields each `rail_write_*` writes, in order: integers of their widths, a 1/0 flag, the Execute Result's zero pad and length, the strings' little-endian code units |
| RailOrders.Encode | channels/rail/server/rail_main.c:86-258 | the bytes of a written order: the serialisation of its fields |
| RailOrders.Schema | channels/rail/server/rail_main.c:639-888 | the field widths each fixed `rail_read_*` reads, in order |
| RailOrders.FromFields | channels/rail/server/rail_main.c:639-888 | the order a reader builds from its fields; its type is the order type read, and a nonzero flag byte is TRUE |
| RailOrders.EncodeLength | channels/rail/server/rail_main.c:86-258 | every server-side writer emits exactly its order's length from section 2.2.2 of MS-RDPERP |
| RailOrders.ExecResultLayout | channels/rail/server/rail_main.c:157-173 | Execute Result: flags, result, raw result, a zero pad, the length, then the bytes |
| RailOrders.Decode | channels/rail/server/rail_main.c:639-888 | a reader fails exactly when fewer bytes than its order length remain |
| RailOrders.FromFieldsOf | channels/rail/server/rail_main.c:639-888 | each reader's field shape is the writer's, and the reader rebuilds the order |
| RailOrders.DecodeEncode | channels/rail/server/rail_main.c:639-888 | every fixed-layout order, once written, reads back as itself, whatever follows it |
| RailOrders.CloakRoundTrip | channels/rail/server/rail_main.c:194-202 | cloak is written as a window id and 1 or 0, and reads back as the same window and flag |
| RailOrders.LangbarRoundTrip | channels/rail/server/rail_main.c:143-150 | the language bar status written is the one read |
| RailOrders.FlagByteNormalised | channels/rail/server/rail_main.c:708-719 | Activate and Cloak read any nonzero flag byte as TRUE; they never reject it |
| RailExec.DecodeExec | channels/rail/server/rail_main.c:653-701 | short header or string lengths beyond the body are ERROR_INVALID_DATA; a zero-length string stays unset; the flags are the first field |
| RailExec.DecodeStrings | channels/rail/server/rail_main.c:675-692 | the three strings after the header, each len / 2 code units or unset when its length is 0; an unconvertible string is ERROR_INTERNAL_ERROR; the flags are kept and the reader never passes the data |
| RailExec.EncodeExec | channels/rail/server/rail_main.c:653-701 | the body a client lays down: the header, then the three strings |
| RailExec.DecodeEncodeExec | channels/rail/server/rail_main.c:653-701 | every Execute order a client sends, with strings that convert, is read back as itself, and the reader stops at its end |
| RailExec.OddLengthRead | channels/rail/server/rail_main.c:675-692 | a string whose byte length is odd loses its last byte |
| RailServer.WriteFields | channels/rail/server/rail_main.c:86-258 | the `Stream_Write_*` calls of a writer lay down the fields' serialisation and advance the cursor by its length |
| RailServer.WriteOrder | channels/rail/server/rail_main.c:157-173 | only an Execute Result whose ExeOrFile length is outside 1..520 is refused, with ERROR_INVALID_DATA and nothing written; otherwise the order's bytes are written and the cursor advances by its length |
| RailServer.SendPdu | channels/rail/server/rail_main.c:64-79 | the header (type, position cast to 16 bits) is patched in at offset 0; the cursor is put back at the order length; that many bytes are sent |
| RailServer.ChannelStatus | channels/rail/server/rail_main.c:41-57 | `rail_send` returns CHANNEL_RC_OK exactly when the channel write succeeds, else ERROR_INTERNAL_ERROR |
| RailServer.PduHeader | channels/rail/server/rail_main.c:64-79 | every PDU the server sends carries its own type and its true total length |
| RailServer.SendBody | channels/rail/server/rail_main.c:64-79 | on a stream holding the reserved header and one body, exactly header plus body is sent |
| RailServer.Send | channels/rail/server/rail_main.c:359-632 | corrected (see Findings; as written: `SendExecResultAsWritten`, which sends the refused Execute Result anyway): a writable order goes out as its whole PDU with the channel's status; a refused Execute Result is not sent and its error is returned |
| RailServer.SendExecResultAsWritten | channels/rail/server/rail_main.c:471-492 | a refused Execute Result still goes out, as a bare 4-byte header, and the channel's status is returned |
| RailServer.RefusedExecResultIsTruncated | channels/rail/server/rail_main.c:471-492 | that bare header is shorter than any well-formed Execute Result PDU |
| RailServer.ReadFields | channels/rail/server/rail_main.c:639-888 | the `Stream_Read_*` calls of a reader return the parsed fields and consume exactly their size |
| RailServer.ReadOrder | channels/rail/server/rail_main.c:639-888 | fewer bytes than the order length is ERROR_INVALID_DATA and consumes nothing; otherwise the result is `Decode`'s and exactly the order length is consumed |
| RailServer.ReadString | channels/rail/server/rail_main.c:675-692 | a zero length leaves the string unset; otherwise len / 2 code units are read and consumed |
| RailServer.ReadStrings | channels/rail/server/rail_main.c:675-692 | the three string reads return `DecodeStrings`'s result and leave the cursor at its end |
| RailServer.ReadExec | channels/rail/server/rail_main.c:653-701 | the result and the stopping point are `DecodeExec`'s on the bytes from the cursor |
| RailServer.HandleMessage | channels/rail/server/rail_main.c:1628-1730 | the status is the dispatcher's `Handle` on the order type and the body |
| RailServer.Handle | channels/rail/server/rail_main.c:1628-1730 | handshake and system parameters go to their readers; Execute to `DecodeExec`, then the callback; each fixed client order to `Decode`, then the callback, or ERROR_INVALID_DATA when short; any other type is ERROR_INVALID_DATA |
| RailServer.UnroutedIsInvalid | channels/rail/server/rail_main.c:1727-1730 | an order type without a case is ERROR_INVALID_DATA, including every type only the server sends |
| RailServer.ShortBodyIsInvalid | channels/rail/server/rail_main.c:1628-1726 | a fixed-layout order shorter than its length never reaches the application |
| RailServer.HandleDelivers | channels/rail/server/rail_main.c:1628-1726 | every fixed-layout order a client sends reaches the application's callback as itself |
| RailServer.HandleDeliversExec | channels/rail/server/rail_main.c:1642-1644 | every Execute order a client sends, with strings that convert, reaches the application as itself |
| CommIo.Svtime | winpr/libwinpr/comm/comm_io.c:45-57 | 0 exactly for 0; at most 1 below 100 ms; the whole deciseconds from 100 to 25500 ms; 255 from 25500 ms up |
| CommIo.SvtimeMonotone | winpr/libwinpr/comm/comm_io.c:45-57 | a longer interval never gives a shorter VTIME |
| CommIo.SplitMs | winpr/libwinpr/comm/comm_io.c:214-223 | zero for a non-positive total; otherwise whole milliseconds whose seconds and microseconds add back to the total |
| CommIo.Tmax | winpr/libwinpr/comm/comm_io.c:187-188 | the total is zero exactly when the constant is zero and the byte count or the multiplier is zero |
| CommIo.TmaxAsWritten | winpr/libwinpr/comm/comm_io.c:187-188 | the total as written: `1ll * N * multiplier + constant` reduced to a signed 64-bit LONGLONG |
| CommIo.TmaxAgrees | winpr/libwinpr/comm/comm_io.c:413-414 | the LONGLONG total equals the exact one below 2^63 |
| CommIo.ReadTimeoutPlan | winpr/libwinpr/comm/comm_io.c:140-194 | ERROR_INVALID_PARAMETER exactly when interval and constant are both MAXULONG; VMIN 0 exactly when the interval is MAXULONG and both totals are 0; VTIME 0 exactly when the interval is 0 or MAXULONG |
| CommIo.ReadWaitsForeverIff | winpr/libwinpr/comm/comm_io.c:176-194 | a read waits forever exactly when the interval is below MAXULONG and no total timeout is set |
| CommIo.ReadPlanMatchesTable | winpr/libwinpr/comm/comm_io.c:120-133 | the plan for each row of the COMMTIMEOUTS table in the function's comment |
| CommIo.ReadFileStart | winpr/libwinpr/comm/comm_io.c:87-117 | the handle check is not modelled (see Left out); a zero-length read returns at once; the others start with `ReadTimeoutPlan`'s plan, or are refused |
| CommIo.ClassifyRead | winpr/libwinpr/comm/comm_io.c:300-341 | never reports more than asked; fails exactly on a 0 result, or on a bad result without EAGAIN; 0 bytes is ERROR_TIMEOUT |
| CommIo.WriteHugeTimeoutIsZero | winpr/libwinpr/comm/comm_io.c:413-429 | a 4 GiB write with the largest multiplier overflows the total and gets a zero timeout |
| CommIo.WriteWaitAsWritten | winpr/libwinpr/comm/comm_io.c:413-429 | the write timeout as written: the LONGLONG total when positive; forever when both write timeouts are 0; otherwise a zero timeval |
| CommIo.WriteWait | winpr/libwinpr/comm/comm_io.c:413-429 | the corrected write timeout, on the exact total (see Findings; as written: `WriteWaitAsWritten`) |
| CommIo.WriteWaitIff | winpr/libwinpr/comm/comm_io.c:413-429 | a write of at least one byte waits forever exactly when both write timeouts are zero, and otherwise for exactly N * multiplier + constant ms, never zero |
| CommIo.WriteWaitAgrees | winpr/libwinpr/comm/comm_io.c:413-429 | below 2^63 ms the timeout as written is the exact one |
| CommIo.WriteLoopProgress | winpr/libwinpr/comm/comm_io.c:434-543 | the count never decreases, and the loop ends normally only once it has reached N |
| CommIo.WriteLoop | winpr/libwinpr/comm/comm_io.c:434-543 | the write loop over the `select`/`write` rounds: done once N bytes are counted; a failed or timed-out select, a cancel or a bad descriptor stops it with its error; a round that is not writable or would block writes nothing |
| CommIo.WriteLoopExact | winpr/libwinpr/comm/comm_io.c:434-543 | if no answer reports more than was left to write, the count never passes N, and a normal end means exactly N |
| CommIo.CommWriteFile | winpr/libwinpr/comm/comm_io.c:371-562 | the handle check is not modelled (see Left out); overlapped I/O is ERROR_NOT_SUPPORTED; no count pointer is ERROR_INVALID_PARAMETER; zero bytes succeeds at once; otherwise result and count are `WriteLoop`'s |

## Left out

- OLE/COM: the vtables, `QueryInterface`, the reference counts, `OleSetClipboard` and the data object's `GetData`. Foreign APIs.
- The Win32 clipboard calls and the `cliprdr_proc` window procedure. Foreign APIs.
- The request/reply rendezvous (`WaitForSingleObject`, `SetEvent`), threads and message loops. This is concurrency. A file-contents reply is a status and a byte sequence.
- The file system. `CreateFileW`, `FindFirstFile`/`FindNextFile` and `GetFileTime` are fields of a node tree.
  - One `accessible` flag stands for both "can be opened" and "can be listed".
  - Paths are not truncated at `MAX_PATH`.
  - The range reply for a harvested file (`wf_cliprdr_get_file_contents`) is file I/O and is not modelled.
- String conversion between UTF-8, UTF-16 and the ANSI code page, and `wcscmp`. Names are opaque sequences, and a format name's conversion is taken to succeed.
- NULL-pointer argument checks, allocation failures and their CHANNEL_RC_NO_MEMORY / E_OUTOFMEMORY results.
  - `FormatMap.Table.Rebuild`: growth is assumed to succeed. When it fails, the code as written ignores the failure and writes the next slot past the array.
  - `OleFormats.Enumerator.Clone`: does not model the E_OUTOFMEMORY result of a failed allocation.
- `OleFormats.Enumerator.constructor`: requires fewer than 2^31 formats, because the cursor is a LONG.
- `OleFormats.SkipAgreesBelowTwoToThe31`: states agreement between `OleFormats.SkipAsWritten` and `SkipOutcome` only while cursor plus count stays within LONG_MAX. Beyond that the LONG sum wraps and the two disagree (`SkipAsWrittenSumWraps`).
- `ClipStream.FileStream.New`: takes the first 8 reply bytes as the size (`reportedSize`). A shorter reply, which the code reads past, is not modelled.
- `ClipStream.FileStream.Read`: returns the bytes read but not the fields of the File Contents Request it sends.
- `CommIo.ReadTimeoutPlan`: computes the read total exactly. The LONGLONG `Tmax` of comm_io.c:187-188 overflows for the same large products as the write total (see Findings); that is not repeated here.
- The syscalls of comm_io.c, which are device I/O and locking:
  - `tcgetattr`/`tcsetattr` beyond the canonical-mode check;
  - `eventfd`;
  - `tcdrain`;
  - the critical sections.

  `select` and `write` answers are the rounds passed to `CommWriteFile`. The read loop after `select` is covered only by `ClassifyRead`.
- Helpers defined in files that are not part of this model. Their behaviour is not visible.
  - `cliprdr_packet_new` is modelled as a header with a zero dataLen.
  - `cliprdr_filter_format_list` is represented by the filtered count it yields.
  - The handshake and system-parameters readers and `rail_read_pdu_header` are callbacks.
  - `CommIsHandled`, the handle check that opens `CommReadFile` and `CommWriteFile` (comm_io.c:84 and 379). The model starts from a handle that passes it, so `CommIo.ReadFileStart` and `CommIo.CommWriteFile` do not model its early FALSE return.
- Channel plumbing: `VirtualChannelEntryEx`, the init/open events, `WTSVirtualChannel*`, the server thread, start and stop. This is I/O and threads.
- The static cached stream of `wf_cliprdr_server_file_contents_request`. It is hidden global state tied to OLE objects. Only its `listIndex` bound for harvested files is modelled (`FileArrays.SizeReply`).
- Logging.

## Code and documentation

These are points where the code does something other than what its comments or the usual description of the component say. Here the model follows the code. Where a "## Findings" row exists, the model keeps the code as written in that row's as-written member, and the classes implement the corrected behaviour.

- A stream read asks the server for `cb` bytes, not for `min(cb, size - offset)`.
- `Seek` to exactly the end of a stream is refused with E_FAIL, so a seek to the end followed by a read is not an end-of-stream read (`SeekToEndRefused`). Out-of-range positions give E_FAIL, not E_INVALIDARG. The `newoffset < 0` test is on an unsigned value and never holds.
- The Monitor Ready comment promises "a generalFlags field set to zero". The code sets `fileClipNoFilePaths` to TRUE (`DefaultsAreNotZeroFlags`).
- A General capability set is consumed as 8 bytes after its header, whatever its `lengthCapability` says (`GeneralSetConsumesTwelve`).
- The harvest fails as a whole when one file cannot be opened, not only when a directory cannot be listed. Entries already appended are kept. It skips "." only when that entry is a directory.

## Findings

| source | as written | input that shows it | evidently intended | confidence | as-written member | corrected member |
|---|---|---|---|---|---|---|
| channels/rail/server/rail_main.c:471-492 | the status of `rail_write_exec_result_order` is dropped, so a refused Execute Result is still sent, as a bare 4-byte header | an Execute Result whose ExeOrFile length is 0 | return the writer's ERROR_INVALID_DATA and send nothing | not executed; high | RailServer.SendExecResultAsWritten | RailServer.Send |
| winpr/libwinpr/comm/comm_io.c:413-429 | the write total `N * multiplier + constant` is a signed 64-bit LONGLONG; it overflows to a negative value, and the write then gets a zero timeout | N = multiplier = 0xFFFFFFFF, constant 0 | wait the full (about 2^64 ms) total | not executed; medium | CommIo.WriteHugeTimeoutIsZero | CommIo.WriteWaitIff |
| client/Windows/wf_cliprdr.c:247-254 | the reply's byte count is copied into the caller's buffer and added to the cursor without being bounded by `cb` | a 4-byte read answered with 8 bytes | copy and report at most `cb` bytes | not executed; high | ClipStream.ReadAsWrittenOverruns | ClipStream.FileStream.Read |
| client/Windows/wf_cliprdr.c:241-245 | the request's UINT status is kept in an `int` and only a negative value counts as failure | a request that fails with ERROR_INTERNAL_ERROR (1359) | any status other than CHANNEL_RC_OK is E_FAIL | not executed; high | ClipStream.ReadAsWrittenIgnoresFailure | ClipStream.BoundedRead |
| client/Windows/wf_cliprdr.c:1118-1137 | `map_ensure_capacity` grows the slots with realloc and leaves the new ones uninitialised; `clear_format_map` later frees the name of every slot up to the capacity | a Format List of 32 formats, then any further Format List | zero the new slots, as calloc does for the first 32 | not executed; high | FormatMap.ThirtyTwoFormatsBreakNextClear | FormatMap.Table.EnsureCapacity |
| client/Windows/wf_cliprdr.c:945-948 | `Skip` casts the ULONG count to LONG and adds it to the LONG cursor before the bounds test, so a count of 2^31 or more, or a sum beyond LONG_MAX, passes and the cursor wraps negative | Skip(0xFFFFFFFF) at index 0; Skip(0x7FFFFFFF) at index 1 of a one-entry list (`SkipAsWrittenSumWraps`) | refuse any count beyond the entries left | not executed; high | OleFormats.SkipAsWrittenGoesNegative | OleFormats.Enumerator.Skip |
| client/Windows/wf_cliprdr.c:1743-1751 | the loop starts with `FindNextFile`, so the entry `FindFirstFile` returned is never looked at | a directory whose listing has no dot entries (a drive's root) holding one file | process every listed entry, passing over "." and ".." | not executed; medium | FileHarvest.FirstEntryLostAsWritten | FileHarvest.FileArrays.Traverse |
| client/Windows/wf_cliprdr.c:2096-2097 | the ANSI drop loop increments `nFiles` once more per name, after `wf_cliprdr_add_to_file_arrays` already counted each entry, so the count passes the arrays' size | an ANSI drop of a directory holding one file, then a plain file | count each entry once, as the wide-character loop does | not executed; high | FileHarvest.DirectoryThenFileOverflowsAsWritten | FileHarvest.HarvestLoopStaysInside |
