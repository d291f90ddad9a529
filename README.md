# OBEX frame decoder

A Dafny model of the OBEX decoder of the Bluetooth packet analyzer,
`tools/parser/obex.c`. OBEX is the IrDA Object Exchange protocol (IrOBEX 1.2).
The decoder gets one PDU at a time from the transport layer and does the following:

- It reads the opcode and the 16-bit packet length.
- It notes a partial segment when fewer bytes arrived than the length declares.
- It sorts the frame into a request or a response (`(opcode & 0x70) == 0`).
- It keeps the correlation state `last_opcode` / `last_status`, so that a
  response is named after the request it answers.
- It decodes the fixed fields of Connect (version, flags, maximum packet length)
  and of SetPath (flags, constants). A response uses the last request as its
  effective opcode.
- It hands the rest of the frame to the header loop `parse_headers`. That loop
  reads one identifier at a time. The identifier's two top bits pick one of
  four value encodings: Unicode text, byte sequence, one byte, or four bytes.
- The two name tables `opcode2str` and `hi2str` label opcodes and header
  identifiers.

The project is made of five modules:

- `ObexBytes` (`obex_bytes.dfy`): octets as integers 0..255. It holds the masks
  the decoder applies (`& 0x7f`, `& 0xc0`, `& 0x3f`, `& 0x70` and the nibbles)
  and the network-order 16- and 32-bit reads with their inverses.
- `ObexFrame` (`obex_frame.dfy`): the frame cursor, a class `Frame`. Its fields
  are the buffer, the read position `ptr` and the remaining count `len`. Its
  methods are `get_u8`, `get_u16`, `get_u32` and the explicit advance.
- `ObexNames` (`obex_names.dfy`): the two name tables. Each is a lookup from
  the masked octet into an enumeration, plus that enumeration's labels.
- `ObexHeaders` (`obex_headers.dfy`): the header loop. `HeaderAt` and `Headers`
  are its specification, one iteration and the whole loop. `ParseHeader` and
  `ParseHeaders` are the imperative loop over a `Frame`, proved equal to that
  specification. The file also holds the per-encoding properties, the IrOBEX
  wire form of a header block, and the round trip from that wire form.
- `ObexDump` (`obex_dump.dfy`): the entry point. `DumpFrame` is the
  specification of one call. `Decoder.Dump` is the imperative decoder over
  the two correlation fields, proved equal to `DumpFrame`. Both take the
  Unicode header rule as a parameter: `AsWritten` is the program as it
  stands, `Corrected` the arithmetic described under Findings. The file also holds
  the classification, correlation, fixed-field, partial-note and
  status-line properties, a frame round trip and two worked exchanges.

Output is a structured report, not formatted text:

- A request becomes a `Command` summary and a response a `Response` summary.
- The fixed fields, the optional partial note and the optional status line
  follow the summary.
- Each header becomes one record, either `Entry` or `Cut`.
- The bytes left for the final hex dump come last.
- Records hold the opcode or identifier byte. The printed name is
  `OpcodeText` / `HeaderText` of that byte.

## Model

| member | source | states |
|---|---|---|
| ObexBytes.Bit7 | tools/parser/obex.c:250 | `opcode & 0x80`, the direction marker printed as 'f' or 'c', is set exactly for octets 0x80 and above |
| ObexBytes.Low7 | tools/parser/obex.c:39 | `opcode & 0x7f` clears only the final bit: the result is below 0x80 and equals the octet or the octet less 0x80 |
| ObexBytes.High2 | tools/parser/obex.c:199 | `hi & 0xc0` is one of the four encoding classes 0x00, 0x40, 0x80, 0xc0, and the octet lies in that class's 64-value block |
| ObexBytes.Low6 | tools/parser/obex.c:141 | `hi & 0x3f` is below 0x40, and adding the class bits back gives the identifier |
| ObexBytes.Mid3 | tools/parser/obex.c:248 | `opcode & 0x70` is a multiple of 16 and is the top of the 16-value block holding the opcode without its final bit |
| ObexBytes.HighNibble | tools/parser/obex.c:255 | `status >> 4` (also the version's major number at obex.c:267) is below 16 |
| ObexBytes.LowNibble | tools/parser/obex.c:255 | `status >> 4` and `status & 0xf` are nibbles that recombine to the status |
| ObexBytes.Be16 | tools/parser/obex.c:238 | the `get_u16` arithmetic: two octets in network order give a value below 65536 |
| ObexBytes.Be32 | tools/parser/obex.c:222 | the `get_u32` arithmetic: four octets in network order give a value below 2^32 |
| ObexBytes.U16Octets | tools/parser/obex.c:201 | the two network-order octets of a 16-bit value read back to that value through the `get_u16` arithmetic |
| ObexBytes.Be16Octets | tools/parser/obex.c:201 | reading two octets and then encoding the value gives back those octets |
| ObexBytes.Be32Octets | tools/parser/obex.c:222 | the four network-order octets of a 32-bit value read back to it through the `get_u32` arithmetic |
| ObexFrame.Frame.constructor | tools/parser/obex.c:232 | a fresh cursor is at the start of the PDU with every byte remaining |
| ObexFrame.Frame.Rest | tools/parser/obex.c:288 | the bytes not yet consumed, which the final `raw_dump` renders, are as many as the remaining count |
| ObexFrame.Frame.GetU8 | tools/parser/obex.c:194 | `get_u8` returns the octet at the cursor, moves the cursor by 1 and lowers the remaining count by 1 |
| ObexFrame.Frame.GetU16 | tools/parser/obex.c:201 | `get_u16` returns the network-order value of the next two octets and advances by 2 |
| ObexFrame.Frame.GetU32 | tools/parser/obex.c:222 | `get_u32` returns the network-order value of the next four octets and advances by 4 |
| ObexFrame.Frame.Skip | tools/parser/obex.c:204-205 | `frm->ptr += n; frm->len -= n` moves the cursor and lowers the count by the same n, and the two still add up to the buffer size |
| ObexNames.OperationOf | tools/parser/obex.c:39-136 | the result is Unknown exactly for the values outside the catalog (0x00-0x07, 0x7f, 0x10, 0x20-0x26, 0x30-0x35, 0x40-0x4f, 0x50-0x55, 0x60-0x61) |
| ObexNames.OperationLabel | tools/parser/obex.c:40-135 | the string `opcode2str` returns for each operation, letter for letter as in the switch. Its meaning is stated by `OperationLabelUnknown` and `OpcodeTextUnknown` |
| ObexNames.OpcodeText | tools/parser/obex.c:37-137 | `opcode2str` itself: the label of the operation that the opcode without its final bit selects. Its properties are stated by `OpcodeTextUnknown`, `OpcodeNameReserved`, `OpcodeNameOfRequests` and `OpcodeNameIgnoresFinalBit` |
| ObexNames.OperationLabelUnknown | tools/parser/obex.c:40-135 | no catalogued operation has the label "Unknown" |
| ObexNames.OpcodeTextUnknown | tools/parser/obex.c:37-137 | `opcode2str` is total and returns "Unknown" exactly when the opcode, with its final bit cleared, is outside the catalog |
| ObexNames.OpcodeNameReserved | tools/parser/obex.c:48-53 | "Reserved" names exactly the slots 0x04 and 0x06, with or without the final bit |
| ObexNames.OpcodeNameOfRequests | tools/parser/obex.c:40-57 | request opcodes 0x00-0x07 and Abort 0x7f, with or without the final bit, are named from the request catalog (Connect, Disconnect, Put, Get, Reserved, SetPath, Reserved, Session, Abort) |
| ObexNames.OpcodeNameIgnoresFinalBit | tools/parser/obex.c:39 | an opcode and the same opcode with the final bit cleared or set get the same name |
| ObexNames.HeaderKindOf | tools/parser/obex.c:141-184 | the result is Unknown exactly for codes 0x14 and above |
| ObexNames.HeaderLabel | tools/parser/obex.c:142-183 | the string `hi2str` returns for each header kind, letter for letter as in the switch |
| ObexNames.HeaderText | tools/parser/obex.c:139-185 | `hi2str` itself: the label of the header kind that the identifier without its encoding bits selects. Its properties are stated by `HeaderTextUnknown`, `HeaderNameIgnoresEncodingBits` and `HeaderTextOfNameIds` |
| ObexNames.HeaderTextUnknown | tools/parser/obex.c:139-185 | `hi2str` is total and returns "Unknown" exactly when `hi & 0x3f` is 0x14 or more, in any encoding class |
| ObexNames.HeaderNameIgnoresEncodingBits | tools/parser/obex.c:141 | changing the two encoding bits of an identifier does not change its name |
| ObexNames.HeaderTextOfNameIds | tools/parser/obex.c:144-145 | 0x01, 0x41, 0x81 and 0xc1 are all named "Name" |
| ObexHeaders.PayloadLen | tools/parser/obex.c:201-209 | `len = get_u16(frm) - 3` in a `uint16_t`: the declared total less 3, wrapped modulo 65536 when the total is below 3 |
| ObexHeaders.UnicodeSpan | tools/parser/obex.c:203-205 | a Unicode payload skips at least what it renders. As written it skips exactly 2 bytes more: `len * 2` rendered, `(len + 1) * 2` skipped. With the corrected rule both are len |
| ObexHeaders.HeaderAt | tools/parser/obex.c:194-225 | one loop iteration reads the identifier and reports it. A decoded header uses at least 2 bytes and stays inside the frame. A stop uses at least the identifier byte |
| ObexHeaders.OneByteAt | tools/parser/obex.c:216-219 | a one-byte header uses exactly 2 bytes, or stops after its identifier |
| ObexHeaders.FourBytesAt | tools/parser/obex.c:221-224 | a four-byte header uses exactly 5 bytes, or stops after its identifier |
| ObexHeaders.VariableAt | tools/parser/obex.c:200-214 | a variable-length header uses at least its 3-byte prefix and stays inside the frame, or stops after at most its 3-byte prefix |
| ObexHeaders.Headers | tools/parser/obex.c:193-226 | the loop ends at a cursor between its start and the end of the frame |
| ObexHeaders.ParseHeader | tools/parser/obex.c:194-225 | one iteration of the loop body moves the cursor forward and produces exactly `HeaderAt`'s record and byte count, as a stop or as a decoded header |
| ObexHeaders.ParseOneByte | tools/parser/obex.c:216-219 | the `0x80` branch: `get_u8` of the value, agreeing with `OneByteAt` |
| ObexHeaders.ParseFourBytes | tools/parser/obex.c:221-224 | the `0xc0` branch: `get_u32` of the value, agreeing with `FourBytesAt` |
| ObexHeaders.ParseVariable | tools/parser/obex.c:200-214 | the `0x00` and `0x40` branches: the length read, the payload rendered in place, then the explicit advance, agreeing with `VariableAt` |
| ObexHeaders.ParseHeaders | tools/parser/obex.c:187-227 | `parse_headers`, a while loop over the cursor. Its records and final cursor are exactly `Headers` from the starting cursor |
| ObexHeaders.LoopBody | tools/parser/obex.c:193-226 | decoding one header moves its record from the rest of the parse into the records already emitted, and a stop ends the parse |
| ObexHeaders.LoopEnd | tools/parser/obex.c:193 | with no bytes remaining the loop emits nothing more |
| ObexHeaders.HeadersCutOnlyLast | tools/parser/obex.c:193-226 | only the last record of a header block can be a cut header |
| ObexHeaders.HeadersRunToEnd | tools/parser/obex.c:193 | the loop runs while the remaining count is positive: a block that does not end in a cut header has consumed the whole frame |
| ObexHeaders.OneByteHeader | tools/parser/obex.c:216-219 | a header with top bits 10 and a value byte present consumes exactly 2 bytes and carries the octet after the identifier |
| ObexHeaders.FourByteHeader | tools/parser/obex.c:221-224 | a header with top bits 11 and 4 value bytes present consumes exactly 5 bytes and carries their big-endian value |
| ObexHeaders.ByteSeqHeader | tools/parser/obex.c:208-214 | a byte-sequence header declaring T ≥ 3 that fits reports and renders T - 3 bytes and consumes exactly T bytes, so the next identifier is read at offset T |
| ObexHeaders.VariableHeaderWraps | tools/parser/obex.c:200-213 | in both variable-length classes a declared total T below 3 makes the 16-bit length wrap to 65533 + T, and a header that fits reports that length. A byte sequence stops exactly when fewer than 65533 + T bytes follow its prefix. A Unicode header as written stops exactly when fewer than (65533 + T + 1) · 2 bytes follow, and with the corrected rule when fewer than 65533 + T. A cut header keeps the wrapped length it reports |
| ObexHeaders.CutReportsLength | tools/parser/obex.c:200-213 | a cut variable-length header carries the length it reports exactly when its 16-bit length field was in the frame, that is when the source has already printed it, and that length is the declared total less 3 in 16 bits |
| ObexHeaders.CutByteSequences | tools/parser/obex.c:208-214 | the byte sequence `42 00 05 aa` is cut after reporting length 2, while `42 00`, whose length field is cut short, reports none |
| ObexHeaders.UnicodeHeaderAsWritten | tools/parser/obex.c:200-206 | the source's Unicode branch, for T ≥ 3: it reports len = T - 3, renders 2·len bytes and consumes 3 + (len + 1)·2 = 2T - 1 bytes |
| ObexHeaders.UnicodeHeaderCorrected | tools/parser/obex.c:200-206 | the corrected Unicode branch reports and renders T - 3 bytes and consumes exactly T, like a byte sequence |
| ObexHeaders.Encode | tools/parser/obex.c:194-224 | the IrOBEX wire form of a header starts with its identifier and is at least 2 bytes long |
| ObexHeaders.Entries | tools/parser/obex.c:198-224 | the records expected for a header sequence: one per header |
| ObexHeaders.HeaderAtEncoded | tools/parser/obex.c:199-225 | a header found in wire form at any offset decodes to itself and takes exactly its encoded length. This holds with the corrected Unicode rule for every header, and for the program as written for every header that is not Unicode text |
| ObexHeaders.HeadersRoundTrip | tools/parser/obex.c:193-226 | a header block in wire form that runs to the end of the frame decodes to exactly its headers, in order, with the cursor at the end. This holds with the corrected Unicode rule for every block, and for the program as written for every block without a Unicode header (Length, Body, Connection ID and the like) |
| ObexHeaders.NameThenLengthEncoding | tools/parser/obex.c:200-224 | the Name "A" plus Length 42 block is well formed and its wire form is the 12 octets `01 00 07 00 41 00 00 c3 00 00 00 2a` |
| ObexHeaders.UnicodeAsWrittenLosesNextHeader | tools/parser/obex.c:201-205 | on that block the source's Unicode arithmetic reports length 4 and then wants 10 bytes where 9 remain. The model stops there with one cut record that keeps the reported length, so the Length header is lost. The corrected rule recovers both headers |
| ObexDump.FixedSize | tools/parser/obex.c:261-278 | the effective opcode calls for 4 fixed-field bytes exactly for Connect, 2 exactly for SetPath, and none otherwise |
| ObexDump.FixedFields | tools/parser/obex.c:261-278 | the fields are cut exactly when fewer bytes remain than the effective opcode needs. Otherwise Connect fields come exactly from opcode 0x00 and SetPath fields exactly from 0x05 |
| ObexDump.PartialNote | tools/parser/obex.c:241-244 | the partial note appears exactly when the remaining bytes are fewer than length - 3 (signed), and it carries remaining + 3 |
| ObexDump.SummaryOf | tools/parser/obex.c:248-257 | a command summary exactly for requests, carrying the opcode. A response carries the last request and the status nibbles of `opcode & 0x7f`. Both carry the final bit and the length |
| ObexDump.NextState | tools/parser/obex.c:248-259 | `last_status` becomes `opcode & 0x7f`. `last_opcode` becomes the opcode for a request and is kept for a response |
| ObexDump.StatusLineOf | tools/parser/obex.c:280-284 | the status line appears exactly when `status & 0x70` is nonzero and verbose output is on, and it carries the status and its nibbles |
| ObexDump.DumpFrame | tools/parser/obex.c:232-289 | one call of `obex_dump` (with either Unicode rule, `AsWritten` being the program) leaves the cursor between its start and the end of the frame |
| ObexDump.DecodeFixed | tools/parser/obex.c:261-278 | the fixed-field switch reads exactly `FixedFields` and advances by `FixedSize`, or reads nothing when the fields are cut |
| ObexDump.Decoder.Current | tools/parser/obex.c:229-230 | the correlation state is the two fields `last_opcode` and `last_status` |
| ObexDump.Decoder.constructor | tools/parser/obex.c:229-230 | both correlation fields start at 0x00 |
| ObexDump.Decoder.Dump | tools/parser/obex.c:232-289 | `obex_dump` on a frame cursor, with the header loop run under the given Unicode rule (`AsWritten` for the program), gives exactly the report, new correlation state and final cursor of `DumpFrame` from the old state |
| ObexDump.IsRequest | tools/parser/obex.c:248 | the request test `(opcode & 0x70) == 0x00`. Its meaning is stated by `RequestOpcodes`, `AbortIsResponse` and `DumpClassifies` |
| ObexDump.RequestOpcodes | tools/parser/obex.c:248 | `(opcode & 0x70) == 0` holds exactly for 0x00-0x0f and 0x80-0x8f |
| ObexDump.AbortIsResponse | tools/parser/obex.c:248 | Abort, 0x7f or 0xff, is classified as a response |
| ObexDump.DumpClassifies | tools/parser/obex.c:239-259 | a frame with its prefix gets a command summary exactly when it is a request. The direction marker is bit 7, and the length is the network-order u16. `last_opcode` becomes the opcode for a request and is kept for a response. `last_status` is always `opcode & 0x7f` |
| ObexDump.ResponseUsesLastRequest | tools/parser/obex.c:253-261 | a response is named after the last request, shows its status as nibbles, and has its fixed fields decoded as that request's |
| ObexDump.PartialNoteWhenShort | tools/parser/obex.c:241-244 | the partial-segment note appears exactly when the frame holds fewer bytes than its declared length, and it reports the bytes present counting the prefix |
| ObexDump.Mid3OfLow7 | tools/parser/obex.c:280 | `status & 0x70` equals `opcode & 0x70`, since the final bit plays no part |
| ObexDump.StatusLineOnlyForResponses | tools/parser/obex.c:280-284 | the verbose status line appears exactly for responses with verbose output on, never for a request, and it carries `opcode & 0x7f` |
| ObexDump.ConnectFieldsRead | tools/parser/obex.c:262-268 | an effective Connect reads version nibbles, flags and a 16-bit maximum packet length, 4 bytes, and the header block starts right after them |
| ObexDump.SetPathFieldsRead | tools/parser/obex.c:270-274 | an effective SetPath reads flags and constants, 2 bytes, and the header block starts right after them |
| ObexDump.OtherOpcodesReadNoFields | tools/parser/obex.c:276-278 | any other effective opcode reads no fixed field, and the header block starts right after the 3-byte prefix |
| ObexDump.ShortFixedFieldsStop | tools/parser/obex.c:261-278 | a frame too short for its fixed fields stops after the prefix. No field and no header is read, and the rest is left for the final dump |
| ObexDump.DumpRunsToEnd | tools/parser/obex.c:286-288 | after the fixed fields the frame is decoded to its end unless its header block ends in a cut header |
| ObexDump.ResponseNamesPrecedingRequest | tools/parser/obex.c:248-261 | a response decoded right after a request is named after that request and has its fixed fields decoded as the request's. The state afterwards is that request plus the response's status |
| ObexDump.DumpAll | tools/parser/obex.c:229-232 | successive calls threading the correlation state give one report per frame |
| ObexDump.Decoder.DumpFrames | tools/parser/obex.c:229-289 | calling `obex_dump` on one decoder for each frame in turn gives exactly the reports and final correlation state of `DumpAll` from the decoder's state before the first call |
| ObexDump.ResponsesNameLastRequest | tools/parser/obex.c:252-256 | a run of responses is named throughout after the last request seen before it, and leaves that request in place |
| ObexDump.EncodeFrame | tools/parser/obex.c:237-238 | the wire form of a PDU is the opcode, a 16-bit length counting the whole PDU, the fixed fields and the header block |
| ObexDump.FrameRoundTrip | tools/parser/obex.c:232-289 | a complete PDU, with the fixed fields its effective opcode needs, decodes without a partial note. Its declared length is the frame size, its records are exactly its headers, nothing is left for the final dump, and the state advances as for its opcode. This holds with the corrected Unicode rule for every PDU, and for the program as written for every PDU without a Unicode header |
| ObexDump.ConnectExchange | tools/parser/obex.c:232-289 | a Connect request and its final Success response are decoded to their exact reports. The response is named Connect and shows status 2.0, and the verbose line names the status "Success" |
| ObexDump.AbortAfterPut | tools/parser/obex.c:248-259 | an Abort frame after a Put is reported as a final response to Put with status 7.15. It leaves Put as the last request and 0x7f as the last status |
| ObexDump.PutWithNameAsWritten | tools/parser/obex.c:200-206 | a final Put carrying the Name "A" and Length 42 headers, under the source's Unicode arithmetic: the Name header reports length 4 and its advance would overrun the frame. The model stops there with a cut Name header and leaves the 9 bytes after that header's prefix for the final dump, so the Length header is lost |
| ObexDump.PutWithNameCorrected | tools/parser/obex.c:232-289 | the same Put, decoded with the corrected Unicode rule, reports both headers and leaves nothing for the final dump |

## Left out

- Formatted output (`printf`, `p_indent`, the `level` parameter): each call
  yields a structured report instead of text. The report holds the opcode or
  identifier octets, and the printed names are `OpcodeText` / `HeaderText` of
  those octets.
- Hex rendering by `raw_ndump` and `raw_dump`: these functions are not part of
  this model.
  - The payload handed to `raw_ndump` and the leftover handed to `raw_dump`
    are recorded as byte sequences.
  - `raw_ndump` is taken not to move the cursor, since the code advances the
    cursor explicitly after it (obex.c:204-205, 212-213).
- The global `parser.flags & DUMP_VERBOSE` is a `verbose` parameter.
- `parser.h` is not part of this model. It declares `struct frame` and
  `get_u8`/`get_u16`/`get_u32`.
  - The reads are modelled as network-order reads that advance the cursor,
    as `<netinet/in.h>` suggests.
  - The remaining count is a `nat` kept equal to the buffer size less the cursor.
  - The comparison at obex.c:241 is taken as a signed `int` comparison, so a
    declared length below 3 never triggers the note.
- Out-of-bounds reads are not modelled. The code reads and advances without
  checking the remaining count. The model stops where a read or an advance
  would overrun the frame, so the loop never underflows the remaining count
  at obex.c:205/213:
  - a header that overruns becomes a `Cut` record. It keeps the identifier
    and, once the length field was read, the length the source prints. It
    does not keep the payload bytes the source hands to `raw_ndump` before
    the overrunning advance;
  - fixed fields that overrun become `FieldsCut`;
  - a frame shorter than its prefix becomes `TooShort`.
  - After such a stop, the bytes the model leaves for the final dump are the
    ones after the stop. The program instead moves its cursor past the end
    of the frame, and what `raw_dump` at obex.c:288 then prints is not
    modelled.
- The code reports a Unicode length of T - 3, though the IrOBEX header
  description would give (T - 3) / 2 UTF-16 units. The model follows the code.
- A variable-length header declaring a total below 3 keeps the code's 16-bit
  wrap-around (`VariableHeaderWraps`). The model does not stop the header
  block there.

## Findings

| source | as written | input that shows it | evidently intended | confidence | as-written member | corrected member |
|---|---|---|---|---|---|---|
| tools/parser/obex.c:201-205 | A Unicode header is treated as holding `len = T - 3` UTF-16 characters: it renders `len * 2` bytes and skips `(len + 1) * 2`, although the declared total T counts bytes including the 3-byte prefix | the block `01 00 07 00 41 00 00 c3 00 00 00 2a` (Name "A" with its null, then Length 42): the Name header wants 10 bytes after its prefix where 9 remain, so the Length header is never read | render and skip T - 3 bytes, as the byte-sequence branch does, so that every header in wire form decodes and the next identifier is read at offset T | not executed; high | ObexHeaders.UnicodeAsWrittenLosesNextHeader | ObexHeaders.HeadersRoundTrip |
