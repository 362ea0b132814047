# R30X fingerprint sensor driver — a Dafny model

This project models the host side of the R30X fingerprint driver
(`source/R30X_FPS.c` with the constants of `source/R30X_FPS.h`), which talks to
an R30X/R307/R503-style sensor module over a UART.

The C code and its model cover these parts:

- **Command frames.** `sendPacket` writes a command frame:
  - start code `EF 01`;
  - the 32-bit module address, big-endian;
  - type `01`;
  - a 16-bit length that counts opcode, data and checksum;
  - the opcode and the data;
  - a 16-bit checksum, the sum of type, length, opcode and data.
- **Replies.**
  - `receivePacket` reads an acknowledgement frame. It makes the header checks (start code, address, type), stores the packet type, reads a confirmation byte and puts the payload into the 16-byte `rxDataBuffer`. Then it compares the checksum.
  - `receiveDataPacket` does the same without the confirmation byte, and stores the payload in a caller's buffer.
  - Each phase polls a `read` function pointer and counts polls against a timeout.
- **Streams.** `readSysPara` and `getImage` send a request. After an accepted acknowledgement they receive Data packets one after another into a buffer, until a packet is not received OK or is not a Data packet. The transfer counts as complete when the last packet type seen is EndData. `readSysPara` then decodes the 16-byte system-parameter block into the session.
- **The session.** The `__FPS` structure holds the password, address, security level, data length, baud rate, the last reply (type, confirmation, payload) and the results of searches.
  - `resetParameters` sets the defaults.
  - The setters update a field only when the device accepts the command.
  - The commands check their arguments before anything is sent, and decode fields from `rxDataBuffer`.

How the model is built:

- The transport is a `Port` class (`transport.dfy`):
  - `incoming` holds the bytes the module will send;
  - `grants` caps what each successive `read` call delivers (a short read, or 0 for a stall);
  - `outgoing` collects what the host wrote.

  An empty `grants` is a transport that never stalls.
- The pure function `Frame.Receive` is the verdict of one receive attempt on the bytes the module sends. `Stream.Reassemble` is the outcome of the streaming loop.
- The imperative methods of `Session.Fps` are proved against these functions. The function side is proved against the module's own encoders (`Frame.EncodeReply`, `Stream.DataFramesThen`, `SysPara.EncodeSysPara`).
- Several C behaviours are modelled as written and are not findings:
  - The setters, `readSysPara` and `getImage` return the receive status, which is 0 even when the device refuses the command. So success is a result of 0 together with confirmation code 0 (`Session.Accepted`).
  - `rxPacketType` is stored before the checksum is compared (`Stream.CorruptedEndStillCompletes`).
  - `setBaudrate` keeps `baud / 9600` in a `uint8` (`Commands.BaudTruncation`).
  - `getTemplateCount` reads the count low byte first.
  - `captureAndRangeSearch` sends start location 0 as `0xFFFF`.
  - The capture searches report a refusal's confirmation code, while `searchLibrary` reports 0.
- For `verifyPassword(0)` the code computes the checksum `0x01 + 0x00 + 0x07 + 0x13 = 0x1B` (`Frame.VerifyPasswordFrame`).

## Model

| member | source | states |
|---|---|---|
| Protocol.RxStatus.Code | source/R30X_FPS.h:54-59 | the receive status byte is 0 exactly for RxOk, and at most 5 |
| Frame.EncodeFrame | source/R30X_FPS.c:76-106 | the command frame has start code, big-endian address, type 01, length `dataLength + 3` mod 2^16, opcode, data when not NULL, and a checksum equal to the 16-bit sum of everything after the address |
| Frame.AddChecksum | source/R30X_FPS.c:92-97 | the uint16 accumulator loop yields the start value plus the byte sum, mod 2^16 |
| Frame.CommandChecksum | source/R30X_FPS.c:92-97 | starting the checksum from type, length and opcode and then adding the data gives the sum of the covered bytes |
| Frame.EncodeFrameParts | source/R30X_FPS.c:76-106 | the frame is the head, the covered bytes and the big-endian checksum, in that order |
| Frame.SendPacketBytes | source/R30X_FPS.c:98-105 | the three writes (head, data unless NULL, checksum) concatenate to exactly the frame |
| Frame.EncodeFrameRoundTrip | source/R30X_FPS.c:76-106 | a command frame with data parses back on the module's side to the same address, opcode and data |
| Frame.NullDataFrameMalformed | source/R30X_FPS.c:78-104 | with a NULL data pointer and non-zero length, the length field announces bytes never sent, so no module accepts the frame |
| Frame.VerifyPasswordChecksum | source/R30X_FPS.c:235-243 | the checksum bytes of `verifyPassword(0)` sum to 0x1B |
| Frame.VerifyPasswordFrame | source/R30X_FPS.c:235-243 | `verifyPassword(0)` on the default address is exactly `EF 01 FF FF FF FF 01 00 07 13 00 00 00 00 00 1B` |
| Frame.HeaderVerdict | source/R30X_FPS.c:127-132 | the header checks in the C's order: a bad start code is BadPacket whatever follows, a wrong address is WrongAddress, a correct address with an unknown type is WrongResponse, and OK exactly when all three pass |
| Frame.LengthFits | source/R30X_FPS.c:135-136 | the guard added where the C subtracts the trailer from the declared length: no underflow, and the payload fits its buffer (16 bytes in ack mode, the room left in data mode) |
| Frame.PayloadLengthAsWritten | source/R30X_FPS.c:135-136 | the declared length minus the trailer in a uint32 agrees with the guarded length wherever the guard holds |
| Frame.AsWrittenLengthOverruns | source/R30X_FPS.c:134-157 | ack lengths 2 and 20 and data length 1 pass the C's checks and ask for more bytes than the buffer holds (wrap-around or 17 > 16) |
| Frame.Receive | source/R30X_FPS.c:114-170 | one receive attempt: the bytes taken, the packet type only once the header passes, and for OK or checksum error a payload of `length - 3` (ack) or `length - 2` (data) bytes within the buffer's capacity, a confirmation byte exactly in ack mode, and `9 + length` bytes consumed |
| Frame.Stored | source/R30X_FPS.c:148-156 | the payload bytes a receive copies into its buffer without stalls: the whole payload of a frame received OK or with a bad checksum, none after a header or length refusal, and otherwise a prefix of what follows the header and confirmation byte |
| Frame.ChecksumWindow | source/R30X_FPS.c:138-167 | type, length, confirmation and payload, added in the receivers' order, are exactly the bytes the frame's checksum covers |
| Frame.HeaderVerdictPrefix | source/R30X_FPS.c:120-132 | the header checks depend on the first nine bytes only |
| Frame.ReceiveRejects | source/R30X_FPS.c:127-136 | a bad start code, wrong address or unknown type ends the receive after nine bytes with that status and no type stored; an oversize length is BadPacket with the type stored |
| Frame.ReceiveRest | source/R30X_FPS.c:147-169 | after the header, the payload bytes and the two checksum bytes decide OK or checksum error, and the payload and bytes consumed are those of the frame |
| Frame.ReceiveCut | source/R30X_FPS.c:148-166 | a stream shorter than the payload and checksum it announces times out |
| Frame.ReplyLayout | source/R30X_FPS.c:114-170 | the reply frame carries start code, address, type, length, confirmation, payload and a checksum over type through payload |
| Frame.ReceiveAccepts | source/R30X_FPS.c:127-169 | a frame whose header passes, whose length fits and has arrived, and whose checksum matches is received OK with its type, confirmation and payload, consuming exactly its bytes |
| Frame.ReceiveReply | source/R30X_FPS.c:114-227 | every well-formed reply from the expected address is received whole, whatever follows it: the receive inverts the reply encoder |
| Frame.ReplyFromOtherAddress | source/R30X_FPS.c:128-129 | a reply from any other address is refused as WrongAddress after nine bytes, before the type is stored |
| Frame.SumChangeDetected | source/R30X_FPS.c:167-168 | changing one byte changes the 16-bit byte sum |
| Frame.ChecksumDecides | source/R30X_FPS.c:167-168 | once the header passes and the frame has arrived, the verdict is OK exactly when the 16-bit sum of type through payload equals the checksum field |
| Frame.CorruptionDetected | source/R30X_FPS.c:127-168 | changing any one byte between the length field and the checksum of an accepted frame, or its type byte to another accepted type, turns the verdict into WrongChecksum |
| Frame.CorruptedReplyRejected | source/R30X_FPS.c:224-225 | a reply with any one confirmation or payload byte altered, or its type changed to another accepted type, is rejected with WrongChecksum |
| Frame.TruncatedReplyTimesOut | source/R30X_FPS.c:120-166 | a reply cut short anywhere is never accepted: it times out |
| Stream.FlattenExtend | source/R30X_FPS.c:444-446 | a buffer holding the chunks so far, followed by the next packet's bytes, holds the extended chunk list |
| Stream.ChunkOffset | source/R30X_FPS.c:444-446 | chunk k lands at the offset equal to the total length of the chunks before it |
| Stream.Reassemble | source/R30X_FPS.c:444-447 | the streaming loop's outcome on the bytes the module sends: chunks gone past, the bytes the ending packet stored after them (within the room) and the last accepted type |
| Stream.ReassembleFits | source/R30X_FPS.c:444-446 | with the length guard, chunks and tail together never exceed the buffer |
| Stream.ReassembleGoesOn | source/R30X_FPS.c:444-445 | a Data packet received OK is the next chunk, and the loop goes on with that much less room |
| Stream.ReassembleEnds | source/R30X_FPS.c:444-447 | any other packet ends the loop: the bytes it stored (`Frame.Stored`: its payload when read whole, the part that arrived when cut short) are the tail, and its type is the last type |
| Stream.StreamCode | source/R30X_FPS.c:447-471 | the loop reports 0 exactly when the final `rxPacketType` is EndData, and RECIEVEERR otherwise |
| Stream.EndType | source/R30X_FPS.c:444-447 | `rxPacketType` after the loop: the type of the packet that ended it, Data when that packet failed its header checks after at least one Data packet, or the value from before |
| Stream.ReassembleStep | source/R30X_FPS.c:444-445 | a Data packet received OK contributes its payload as the first chunk |
| Stream.ReassembleDataReply | source/R30X_FPS.c:444-445 | one well-formed Data frame contributes exactly its payload |
| Stream.ReassembleEndReply | source/R30X_FPS.c:444-447 | a well-formed EndData frame ends the loop with its payload stored |
| Stream.StreamRoundTrip | source/R30X_FPS.c:444-447 | Data frames followed by an EndData frame, within the buffer, reassemble to exactly their payloads and end on EndData |
| Stream.FramesCons | source/R30X_FPS.c:444-445 | the frames of a chunk list are the first chunk's frame followed by the rest |
| Stream.RoundTripStep | source/R30X_FPS.c:444-445 | one more Data frame in front adds its payload as the first chunk |
| Stream.CorruptedEndStillCompletes | source/R30X_FPS.c:198-225 | an EndData frame with a corrupted body fails its checksum yet still ends the loop as a completed transfer, since the type is stored first |
| SysPara.DecodeSysPara | source/R30X_FPS.c:448-454 | the decoded parameters re-encode to exactly bytes 4..15 of the buffer |
| SysPara.DecodeEncode | source/R30X_FPS.c:448-454 | every parameter block decodes back to its parameters, whatever follows it |
| SysPara.PacketLength | source/R30X_FPS.c:457-464 | codes 0 to 3 map to 32 * 2^code, and no other code maps to a length |
| SysPara.DataLengthCode | source/R30X_FPS.c:378-386 | exactly 32, 64, 128 and 256 have a code |
| SysPara.LengthCodeRoundTrip | source/R30X_FPS.c:378-464 | the setter's length-to-code table and the decoder's code-to-length table are inverse to each other |
| Commands.BaudNumber | source/R30X_FPS.c:314 | below 256 * 9600 the multiplier is `baud / 9600`, rounded down |
| Commands.BaudAccepted | source/R30X_FPS.c:314-317 | the multiplier is 1 to 12; below the truncation point that is exactly the rates from 9600 up to 13 * 9600 |
| Commands.SecurityLevelAccepted | source/R30X_FPS.c:349 | levels 1 to 5 |
| Commands.PortValueAccepted | source/R30X_FPS.c:414 | values 0 and 1 |
| Commands.BufferIdAccepted | source/R30X_FPS.c:644 | character buffers 1 and 2 |
| Commands.LocationAccepted | source/R30X_FPS.c:729-731 | a location from 1 to the template count |
| Commands.DeleteRangeAccepted | source/R30X_FPS.c:786-792 | a start location from 1 to the template count, and a range ending by the template count |
| Commands.SearchRangeAccepted | source/R30X_FPS.c:856-866 | a buffer id, a start no greater than the template count, and a range ending by the template count |
| Commands.RangeSearchAccepted | source/R30X_FPS.c:503-513 | a capture timeout of at most 25500, a start no greater than the template count, and a range ending by location 1001 |
| Commands.BaudRatesAccepted | source/R30X_FPS.c:314-319 | every rate from 9600 to 115200 is accepted and sent as its multiplier |
| Commands.BaudTruncation | source/R30X_FPS.c:314-317 | 257 * 9600 passes the check as multiplier 1, because of the uint8 truncation |
| Commands.DeleteRangeInLibrary | source/R30X_FPS.c:786-792 | every location an accepted deletion touches is from 1 to the template count |
| Commands.SearchRangeInLibrary | source/R30X_FPS.c:856-866 | every location an accepted library search covers is below the template count |
| Commands.TemplateSlotData | source/R30X_FPS.c:732-735 | buffer id, then location high byte first |
| Commands.DeleteData | source/R30X_FPS.c:794-798 | start location and count, high bytes first |
| Commands.SearchData | source/R30X_FPS.c:868-873 | buffer id, start location and count, high bytes first |
| Commands.RangeSearchData | source/R30X_FPS.c:515-522 | count low byte first, `startLocation - 1` low byte first (start 0 sends 0xFFFF), and the capture timeout in units of 140, rounded down |
| Commands.TemplateCountOf | source/R30X_FPS.c:489 | the count is the first two reply bytes read low byte first |
| Commands.FullSearchMatch | source/R30X_FPS.c:557-559 | the score is bytes 0-1 and the location bytes 2-3 plus one (wrapping 0xFFFF to 0), low bytes first |
| Commands.RangeSearchMatch | source/R30X_FPS.c:529-531 | the score is bytes 0-1 and the location bytes 2-3, low bytes first |
| Commands.LibrarySearchMatch | source/R30X_FPS.c:880-881 | the location is bytes 0-1 and the score bytes 2-3, high bytes first |
| Commands.RandomNumberOf | source/R30X_FPS.c:935 | the number is the first four reply bytes, least significant first |
| Timing.Polls | source/R30X_FPS.c:120-126 | a uint32 counter stepped by one first equals the timeout after `timeout` polls, or after 2^32 polls for timeout 0 |
| Timing.PollsFirstHit | source/R30X_FPS.c:121-124 | no earlier poll fires |
| Timing.UnitClockStep | source/R30X_FPS.c:122-124 | one poll's increment and comparison fire exactly at the `Polls` count |
| Timing.PayloadClockAsWritten | source/R30X_FPS.c:151-154 | the payload counter stepped by 10 in a uint32 only takes even values |
| Timing.OddTimeoutNeverFires | source/R30X_FPS.c:151-154 | with an odd timeout the payload counter never equals it |
| Timing.DecimalTimeoutFires | source/R30X_FPS.c:151-154 | with a multiple of 10 the payload counter first equals the timeout after `timeout / 10` polls |
| Timing.CoarsePolls | source/R30X_FPS.c:151-154 | the corrected payload phase stops after the fewest polls whose count times 10 reaches the timeout |
| Timing.CoarseClockStep | source/R30X_FPS.c:151-154 | one poll of the corrected counter stops exactly at the `CoarsePolls` count |
| Timing.CoarsePollsAgrees | source/R30X_FPS.c:151-154 | where the as-written counter works, the corrected one stops after the same number of polls |
| Transport.Port.constructor | source/R30X_FPS.h:135-136 | a transport with the given script, nothing written, no reads yet |
| Transport.Port.Deliverable | source/R30X_FPS.h:135 | a read returns no more than asked for, than is available, and than the script grants; without a cap it returns all that was asked for or all that is there |
| Transport.Port.Read | source/R30X_FPS.h:135 | `read` copies the delivered bytes to the destination, leaves every other cell alone, and consumes them from the stream |
| Transport.Port.Write | source/R30X_FPS.h:136 | `write` appends its bytes to what the host sent |
| Session.Fps.constructor | source/R30X_FPS.c:30-32 | the address is set and `resetParameters` has run |
| Session.Fps.ResetParameters | source/R30X_FPS.c:52-66 | every session default of the C, including the cleared rxDataBuffer |
| Session.Fps.Defaults | source/R30X_FPS.c:52-66 | the state `resetParameters` leaves: default rate, multiplier, security level and data length, packet type Command, confirmation VerifyPassword, an empty zeroed rxDataBuffer and cleared search results |
| Session.Fps.SendPacket | source/R30X_FPS.c:76-106 | the host writes exactly `EncodeFrame` of the current address, command and data, and reads nothing |
| Session.Fps.Gather | source/R30X_FPS.c:120-126 | the header and checksum polling loops: bytes land in order, done exactly when they all arrived without stalls, and a silent module costs 1 + `Polls(timeout)` reads |
| Session.Fps.ReadConfirmation | source/R30X_FPS.c:140-146 | the confirmation byte is the next byte of the stream; a silent module costs `Polls(timeout)` reads and leaves it unchanged |
| Session.Fps.GatherPayload | source/R30X_FPS.c:148-157 | the payload polling loop, with the corrected stop test: bytes land at the offset, and a silent module costs 1 + `CoarsePolls(timeout)` reads |
| Session.Fps.ReceiveBody | source/R30X_FPS.c:147-169 | the payload lands in the buffer with every other cell kept, all of the payload that arrived when the transport never stalls, and the verdict is OK exactly when the running sum matches the checksum bytes |
| Session.Fps.ReceiveHeader | source/R30X_FPS.c:120-134 | the header verdict on the first nine bytes, with the packet type stored exactly when it passes |
| Session.Fps.ReceivePacket | source/R30X_FPS.c:114-170 | the status is that of `Receive` in ack mode, or Timeout under stalls; the type, confirmation and length are those of the received frame, and rxDataBuffer is its old contents with the payload copied over the start; without stalls rxDataBuffer is its old contents overlaid with `Stored` whatever the verdict; nothing but the header is taken on a header refusal |
| Session.Fps.ReceiveDataPacket | source/R30X_FPS.c:178-227 | the same in data mode: the caller's buffer is its old contents with the payload copied in at the offset, every other cell kept, and without stalls its old contents overlaid with `Stored` at the offset |
| Session.Fps.ReceiveOne | source/R30X_FPS.c:444-445 | one pass of the loop's condition: it goes on exactly after a Data packet received OK, with that payload at the offset and the cells after it kept; without stalls, a packet that ends the loop leaves the buffer overlaid with what it stored |
| Session.Fps.ReceiveChunk | source/R30X_FPS.c:444-446 | one pass of the loop keeps the buffer equal to the chunks laid end to end, the cells after them as they were, and follows `Reassemble` of the whole stream |
| Session.Fps.ReceiveStream | source/R30X_FPS.c:440-447 | without stalls, the buffer is its old contents with `Reassemble`'s chunks and tail copied over its start, and `rxPacketType` is `EndType` of it |
| Session.Fps.ReceiveStreamCode | source/R30X_FPS.c:444-471 | the stream's result is 0 exactly when the last type is EndData, and without stalls the buffer is its old contents with the reassembled bytes copied over its start |
| Session.Fps.ReceiveSysPara | source/R30X_FPS.c:444-471 | without stalls the 512-byte buffer is its old contents with the reassembled bytes over its start; on a complete stream the session holds the parameter block decoded from that buffer, the baud rate as multiplier times 9600 and the mapped data length; otherwise nothing changes |
| Session.Fps.ReadSysPara | source/R30X_FPS.c:437-475 | request frame, then without stalls the result is the stream code after an accepted acknowledgement and the receive status otherwise, the buffer holds its old contents with the reassembled bytes over its start (untouched when the acknowledgement is not accepted); the parameters change exactly on success, decoded from that buffer |
| Session.Fps.GetImage | source/R30X_FPS.c:902-921 | request frame, then without stalls the image buffer starts with the reassembled Data payloads and the result is the stream code after an accepted acknowledgement; a buffer other than rxDataBuffer keeps its old contents after them, and all of them when the acknowledgement is not accepted |
| Session.Fps.Exchange | source/R30X_FPS.c:242-243 | a command round trip: the command frame is written, and the reply is received in ack mode with the fields of `Receive`; on OK the structure holds the reply, with the cells of rxDataBuffer past the payload as before, and without stalls rxDataBuffer is overlaid with `Stored` |
| Session.Accepted | source/R30X_FPS.c:245-246 | the success test of every command: the reply was received OK and its confirmation code is 0 |
| Session.Fps.VerifyPassword | source/R30X_FPS.c:235-255 | the password is sent high byte first, and it is kept exactly when the reply is received and accepted; the reply's type, confirmation code and payload are left in the structure, with the cells of rxDataBuffer past the payload as before |
| Session.Fps.SetPassword | source/R30X_FPS.c:263-280 | the new password is sent, and it is kept exactly when the reply is received and accepted; the reply's type, confirmation code and payload are left in the structure, with the cells of rxDataBuffer past the payload as before |
| Session.Fps.SetAddress | source/R30X_FPS.c:288-305 | the request goes to, and the reply is checked against, the old address; the new one is kept exactly on acceptance; the reply's type, confirmation code and payload are left in the structure, with the cells of rxDataBuffer past the payload as before |
| Session.Fps.SetBaudrate | source/R30X_FPS.c:313-338 | a multiplier outside 1 to 12 sends nothing and returns BAD_VALUE; otherwise parameter 4 is set, and the rate is kept exactly when accepted and the port reopens; the reply's type, confirmation code and payload are left in the structure, with the cells of rxDataBuffer past the payload as before; refused arguments leave the rx fields untouched |
| Session.Fps.SetSecurityLevel | source/R30X_FPS.c:346-367 | levels other than 1 to 5 send nothing; otherwise parameter 5 is set and kept exactly on acceptance; the reply's type, confirmation code and payload are left in the structure, with the cells of rxDataBuffer past the payload as before; refused arguments leave the rx fields untouched |
| Session.Fps.SetDataLength | source/R30X_FPS.c:375-403 | lengths other than 32, 64, 128 and 256 send nothing; otherwise parameter 6 is set to its code and the length kept exactly on acceptance; the reply's type, confirmation code and payload are left in the structure, with the cells of rxDataBuffer past the payload as before; refused arguments leave the rx fields untouched |
| Session.Fps.PortControl | source/R30X_FPS.c:411-429 | values other than 0 and 1 send nothing; otherwise the value is sent and the receive status returned; the reply's type, confirmation code and payload are left in the structure, with the cells of rxDataBuffer past the payload as before; refused arguments leave the rx fields untouched |
| Session.Fps.GenerateCharacter | source/R30X_FPS.c:643-658 | buffer ids other than 1 and 2 send nothing; otherwise the id is sent and the receive status returned; the reply's type, confirmation code and payload are left in the structure, with the cells of rxDataBuffer past the payload as before; refused arguments leave the rx fields untouched |
| Session.Fps.TemplateSlot | source/R30X_FPS.c:724-777 | `saveTemplate` and `loadTemplate`: a bad buffer id or a location outside 1 to the template count sends nothing; otherwise the buffer id and location are sent with the store or load opcode; the reply's type, confirmation code and payload are left in the structure, with the cells of rxDataBuffer past the payload as before; refused arguments leave the rx fields untouched |
| Session.Fps.DeleteTemplate | source/R30X_FPS.c:785-809 | a range outside the library sends nothing; otherwise start and count are sent; the reply's type, confirmation code and payload are left in the structure, with the cells of rxDataBuffer past the payload as before; refused arguments leave the rx fields untouched |
| Session.Fps.GetTemplateCount | source/R30X_FPS.c:483-494 | the template count becomes the reply's first two bytes, low byte first, exactly when the reply is accepted; the reply's type, confirmation code and payload are left in the structure, with the cells of rxDataBuffer past the payload as before |
| Session.Fps.CaptureAndFullSearch | source/R30X_FPS.c:551-571 | an accepted reply yields the match with its location counted from 1; a refused one clears the match and reports its confirmation code; a failed receive leaves it; the reply's type, confirmation code and payload are left in the structure, with the cells of rxDataBuffer past the payload as before |
| Session.Fps.CaptureAndRangeSearch | source/R30X_FPS.c:502-543 | argument checks first; then as the full search, with the location as sent and the reply awaited 100 polls longer than the capture; the reply's type, confirmation code and payload are left in the structure, with the cells of rxDataBuffer past the payload as before; refused arguments leave the rx fields untouched |
| Session.Fps.SearchLibrary | source/R30X_FPS.c:855-893 | argument checks first; an accepted reply yields the big-endian match; a refused one clears it and still reports 0; the reply's type, confirmation code and payload are left in the structure, with the cells of rxDataBuffer past the payload as before; refused arguments leave the rx fields untouched |
| Session.Fps.GenerateRandomNumber | source/R30X_FPS.c:929-940 | a number is delivered exactly when the reply is accepted, and it is the first four payload bytes, least significant first; the reply's type, confirmation code and payload are left in the structure, with the cells of rxDataBuffer past the payload as before |

## Left out

- Delays (`delay_1ms`), the timeout arguments of the `read`/`write` calls and the UART itself are not modelled. A poll is one call of `Port.Read`, and the cost of a silent module is counted in `read` calls.
- `Transport.Port.Write`: always appends every byte. A short or failed `write` is not modelled, because `sendPacket` ignores the value `write` returns (source/R30X_FPS.c:101-105).
- `initializePort`/`deinitializePort` are foreign calls. In `setBaudrate` the reopen (which the C does with the old rate) is the parameter `reopenOk`. `R30X_init` is modelled up to `resetParameters` (the constructor); its port opening is left out, and the `verifyPassword` and `readSysPara` calls after it are the modelled methods.
- `deviceName` and `statusRegister` are not modelled. The 32 name bytes that `readSysPara` copies from offset 28 are left out with them.
- `exportCharacter` and `importCharacter` are not modelled. They send a different opcode than their names say, and `importCharacter` sizes its array from a pointer.
- The thin wrappers (`generateImage`, `exportImage`, `importImage`, `generateTemplate`, `clearLibrary`, `matchTemplates`) are not modelled. Each is one `Exchange` with no argument check.
- `Session.Fps.ReadSysPara`: the 512-byte local buffer is a parameter, so the decode after a short stream reads whatever that buffer held before, as the C reads uninitialised memory; the contract states that buffer as its old contents with the received bytes over its start, not what the old contents are.
- `Session.Fps.ReceivePacket`: with a stalling transport the contract states only Timeout or the `Receive` verdict, not which stall pattern leads to which.
- `Session.Fps.ReceiveDataPacket`: `length` is 0 on the paths where the C returns before storing through `receive_length`; neither caller reads it then.
- `Session.Fps.ReceiveStream`: requires a buffer below 2^16 bytes, since the C's offset is a `uint16`; with stalls only the chunks' layout is stated, not the chunks, nor the cells after them that a packet cut short by a stall may have written.
- `Session.Fps.GetImage`: requires an image buffer below 2^16 bytes for the same reason (the C's `index` is a `uint16`); `Session.Fps.ReceiveStreamCode` carries the same requirement. When the caller passes rxDataBuffer itself as the image buffer, only the reassembled bytes at its start are stated, since the acknowledgement was received into the same cells.
- `Session.Fps.ReadSysPara`, `Session.Fps.GetImage`, `Session.Fps.CaptureAndFullSearch`, `Session.Fps.CaptureAndRangeSearch`: the exact result is stated for a transport that never stalls; under stalls only the success direction is stated.
- The command methods state the rx fields a reply leaves only when it was received OK; after a checksum error or a header refusal the fields `receivePacket` leaves are stated by `Session.Fps.ReceivePacket` but not passed on by the commands.
- Counters such as `readCalls` and the corrected payload clock are unbounded naturals. The `uint32` wrap-around is modelled for the unit-step counters only.

## Findings

| source | as written | input that shows it | evidently intended | confidence | as-written member | corrected member |
|---|---|---|---|---|---|---|
| source/R30X_FPS.c:151-154 | the payload loop adds 10 to its counter and stops when it equals the timeout | any odd timeout, e.g. 1001, with a module that stops sending mid-payload: the counter (always even) never equals it and the loop polls for ever | stop once the counter reaches or passes the timeout | high (not executed) | Timing.OddTimeoutNeverFires | Timing.CoarsePollsAgrees |
| source/R30X_FPS.c:135-136 | the declared length minus 3 (2 in data mode) is stored unchecked and that many bytes are read into the buffer | an ack header declaring length 20 asks for 17 bytes into the 16-byte rxDataBuffer; length 2 wraps to 2^32 - 1 | refuse a length that underflows or does not fit the buffer as a bad packet | high (not executed) | Frame.AsWrittenLengthOverruns | Frame.Receive |
