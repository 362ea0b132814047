/** The packet codec: the command frame the host sends (sendPacket), the verdict
    the two receivers reach on a frame (receivePacket, receiveDataPacket), and
    the device's reply frame as the receivers expect it.

    Wire frame: EF 01 | address (4, big-endian) | type | length (2, big-endian)
    | body | checksum (2, big-endian), where `length` counts the body and the
    checksum, and the checksum is the 16-bit sum of type, length and body. */
module Frame {
  import opened Bytes
  import opened Protocol

  // ---------------------------------------------------------------- sending

  /** The frame `sendPacket` writes: its 10-byte head (start code, address,
      command type, length `dataLength + 3` as a uint16, opcode), the data when
      the data pointer is not NULL, then the checksum. */
  function EncodeFrame(address: uint32, command: uint8, data: Option<seq<uint8>>, dataLength: uint16): (f: seq<uint8>)
    requires data.Some? ==> |data.value| == dataLength
    ensures |f| == 12 + (if data.Some? then dataLength else 0)
    ensures f[0] == START_HI && f[1] == START_LO
    ensures f[2..6] == Be32Bytes(address) && Be32(f[2], f[3], f[4], f[5]) == address
    ensures f[6] == PID_COMMAND
    ensures Be16(f[7], f[8]) == (dataLength + 3) % TWO_TO_THE_16
    ensures f[9] == command
    ensures data.Some? ==> f[10..|f| - 2] == data.value
    ensures Be16(f[|f| - 2], f[|f| - 1]) == Sum(f[6..|f| - 2]) % TWO_TO_THE_16
  {
    var body := if data.Some? then data.value else [];
    var covered := [PID_COMMAND] + Be16Bytes((dataLength + 3) % TWO_TO_THE_16) + [command] + body;
    var f := [START_HI, START_LO] + Be32Bytes(address) + covered + Be16Bytes(Sum(covered) % TWO_TO_THE_16);
    assert f[6..|f| - 2] == covered;
    f
  }

  /** The checksum loop of `sendPacket`, `receivePacket` and
      `receiveDataPacket`: each byte is added to a uint16 accumulator, which
      wraps at 2^16. */
  method AddChecksum(checksum0: uint16, bytes: seq<uint8>) returns (checksum: uint16)
    ensures checksum == (checksum0 + Sum(bytes)) % TWO_TO_THE_16
  {
    checksum := checksum0;
    for i := 0 to |bytes|
      invariant checksum == (checksum0 + Sum(bytes[..i])) % TWO_TO_THE_16
    {
      SumPrefix(bytes, i);
      ModAdd(checksum0 + Sum(bytes[..i]), bytes[i]);
      checksum := (checksum + bytes[i]) % TWO_TO_THE_16;
    }
    assert bytes[..|bytes|] == bytes;
  }

  /** The checksum `sendPacket` starts from (type, length, opcode) plus the data
      is the checksum of the frame. */
  lemma CommandChecksum(covered: seq<uint8>, lenHi: uint8, lenLo: uint8, command: uint8, data: seq<uint8>)
    requires covered == [PID_COMMAND] + [lenHi, lenLo] + [command] + data
    ensures Sum(covered) == PID_COMMAND + lenHi + lenLo + command + Sum(data)
  {
    assert covered == [PID_COMMAND, lenHi, lenLo, command] + data;
    SumAppend([PID_COMMAND, lenHi, lenLo, command], data);
    Sum4(PID_COMMAND, lenHi, lenLo, command);
  }

  /** A command frame as the module reads it. */
  datatype CommandFrame = CommandFrame(address: uint32, command: uint8, data: seq<uint8>)

  /** The module's side of the command frame: start code, command type, a
      length field that matches the frame and a correct checksum. */
  function ParseCommand(f: seq<uint8>): Option<CommandFrame>
  {
    if |f| < 12 || f[0] != START_HI || f[1] != START_LO || f[6] != PID_COMMAND then None
    else
      var declared := Be16(f[7], f[8]);
      if declared < 3 || |f| != 9 + declared then None
      else if Sum(f[6..|f| - 2]) % TWO_TO_THE_16 != Be16(f[|f| - 2], f[|f| - 1]) then None
      else Some(CommandFrame(Be32(f[2], f[3], f[4], f[5]), f[9], f[10..|f| - 2]))
  }

  /** Every command the host sends with its data reads back as that command,
      address and data. */
  lemma EncodeFrameRoundTrip(address: uint32, command: uint8, data: seq<uint8>)
    requires |data| + 3 < TWO_TO_THE_16
    ensures ParseCommand(EncodeFrame(address, command, Some(data), |data|)) == Some(CommandFrame(address, command, data))
  {
  }

  /** With a NULL data pointer and a non-zero `dataLength` the length field still
      announces the data, which is never sent: the frame is malformed. */
  lemma NullDataFrameMalformed(address: uint32, command: uint8, dataLength: uint16)
    requires 0 < dataLength < TWO_TO_THE_16 - 3
    ensures ParseCommand(EncodeFrame(address, command, None, dataLength)) == None
  {
  }

  lemma VerifyPasswordChecksum()
    ensures Sum([0x01, 0x00, 0x07, 0x13, 0x00, 0x00, 0x00, 0x00]) == 0x1B
  {
    var covered: seq<uint8> := [0x01, 0x00, 0x07, 0x13, 0x00, 0x00, 0x00, 0x00];
    SumPrefix(covered, 0); SumPrefix(covered, 1); SumPrefix(covered, 2); SumPrefix(covered, 3);
    SumPrefix(covered, 4); SumPrefix(covered, 5); SumPrefix(covered, 6); SumPrefix(covered, 7);
    assert Sum(covered[..0]) == 0;
    assert covered[..8] == covered;
  }

  /** The frame as the concatenation of its head, the checksummed part and the
      checksum. */
  lemma EncodeFrameParts(address: uint32, command: uint8, data: Option<seq<uint8>>, dataLength: uint16,
                         covered: seq<uint8>)
    requires data.Some? ==> |data.value| == dataLength
    requires covered == [PID_COMMAND] + Be16Bytes((dataLength + 3) % TWO_TO_THE_16) + [command]
                        + (if data.Some? then data.value else [])
    ensures EncodeFrame(address, command, data, dataLength)
         == [START_HI, START_LO] + Be32Bytes(address) + covered + Be16Bytes(Sum(covered) % TWO_TO_THE_16)
  {
  }

  /** The three writes of `sendPacket` (head, data unless NULL, checksum) make
      up the frame, when the checksum starts from type, length and opcode and
      then adds the data. */
  lemma SendPacketBytes(address: uint32, command: uint8, data: Option<seq<uint8>>, dataLength: uint16,
                        head: seq<uint8>, checksum: uint16)
    requires data.Some? ==> |data.value| == dataLength
    requires head == [START_HI, START_LO] + Be32Bytes(address) + [PID_COMMAND]
                     + Be16Bytes((dataLength + 3) % TWO_TO_THE_16) + [command]
    requires checksum == (PID_COMMAND + head[7] + head[8] + command
                          + Sum(if data.Some? then data.value else [])) % TWO_TO_THE_16
    ensures EncodeFrame(address, command, data, dataLength)
         == head + (if data.Some? then data.value else []) + Be16Bytes(checksum)
  {
    var body := if data.Some? then data.value else [];
    var covered := [PID_COMMAND] + Be16Bytes((dataLength + 3) % TWO_TO_THE_16) + [command] + body;
    assert covered == [PID_COMMAND] + [head[7], head[8]] + [command] + body;
    CommandChecksum(covered, head[7], head[8], command, body);
    assert Sum(covered) % TWO_TO_THE_16 == checksum;
    EncodeFrameParts(address, command, data, dataLength, covered);
    assert [START_HI, START_LO] + Be32Bytes(address) + covered == head + body;
  }

  /** verifyPassword(0) on the default address: EF 01 FF FF FF FF 01 00 07 13
      00 00 00 00 00 1B (checksum 0x01 + 0x00 + 0x07 + 0x13 = 0x1B). */
  lemma VerifyPasswordFrame()
    ensures EncodeFrame(DEFAULT_ADDRESS, CMD_VERIFYPASSWORD, Some([0, 0, 0, 0]), 4)
         == [0xEF, 0x01, 0xFF, 0xFF, 0xFF, 0xFF, 0x01, 0x00, 0x07, 0x13, 0x00, 0x00, 0x00, 0x00, 0x00, 0x1B]
  {
    var covered: seq<uint8> := [0x01, 0x00, 0x07, 0x13, 0x00, 0x00, 0x00, 0x00];
    var head: seq<uint8> := [0xEF, 0x01, 0xFF, 0xFF, 0xFF, 0xFF];
    var tail: seq<uint8> := [0x00, 0x1B];
    VerifyPasswordChecksum();
    assert Be32Bytes(DEFAULT_ADDRESS) == [0xFF, 0xFF, 0xFF, 0xFF];
    assert Be16Bytes(7) == [0x00, 0x07];
    assert Be16Bytes(0x1B) == tail;
    assert [PID_COMMAND] + Be16Bytes((4 + 3) % TWO_TO_THE_16) + [CMD_VERIFYPASSWORD] + [0, 0, 0, 0] == covered;
    EncodeFrameParts(DEFAULT_ADDRESS, CMD_VERIFYPASSWORD, Some([0, 0, 0, 0]), 4, covered);
    assert [START_HI, START_LO] + Be32Bytes(DEFAULT_ADDRESS) == head;
  }

  // -------------------------------------------------------------- receiving

  /** The checks `receivePacket` and `receiveDataPacket` apply to the 9 header
      bytes, in their order: start code, then address, then packet type. */
  function HeaderVerdict(h: seq<uint8>, address: uint32): (v: RxStatus)
    requires |h| >= 9
    ensures v == RxOk || v == BadPacket || v == WrongAddress || v == WrongResponse
    ensures v == BadPacket <==> h[0] != START_HI || h[1] != START_LO
    ensures v == WrongAddress ==> Be32(h[2], h[3], h[4], h[5]) != address
    ensures v == WrongResponse ==> Be32(h[2], h[3], h[4], h[5]) == address && !TypeAccepted(h[6])
    ensures v == RxOk <==> && h[0] == START_HI && h[1] == START_LO && Be32(h[2], h[3], h[4], h[5]) == address
                            && TypeAccepted(h[6])
  {
    if h[0] != START_HI || h[1] != START_LO then BadPacket
    else if Be32(h[2], h[3], h[4], h[5]) != address then WrongAddress
    else if !TypeAccepted(h[6]) then WrongResponse
    else RxOk
  }

  /** The two trailer conventions: ack mode (receivePacket) reads a separate
      confirmation byte and takes `length - 3` payload bytes into the 16-byte
      rxDataBuffer; data mode (receiveDataPacket) takes `length - 2` payload
      bytes into the caller's buffer, which has `room` bytes left. */
  datatype Mode = AckMode | DataMode(room: nat)

  function Trailer(mode: Mode): nat { if mode.AckMode? then 3 else 2 }

  function ConfirmationLength(mode: Mode): nat { if mode.AckMode? then 1 else 0 }

  function Capacity(mode: Mode): nat { if mode.AckMode? then RX_DATA_LENGTH else mode.room }

  /** The guard the model adds where the C subtracts the trailer from the
      declared length: no underflow, and the payload fits its buffer. */
  predicate LengthFits(declared: uint16, mode: Mode)
  {
    Trailer(mode) <= declared && declared - Trailer(mode) <= Capacity(mode)
  }

  /** The payload length as the C computes it: the declared length minus the
      trailer, in a uint32, with neither bound checked. */
  function PayloadLengthAsWritten(declared: uint16, mode: Mode): (n: uint32)
    ensures LengthFits(declared, mode) ==> n == declared - Trailer(mode) <= Capacity(mode)
  {
    (declared - Trailer(mode)) % TWO_TO_THE_32
  }

  /** Ack headers that the C accepts and then overruns the 16-byte rxDataBuffer
      with: length 2 wraps to 2^32 - 1, length 20 asks for 17 bytes. */
  lemma AsWrittenLengthOverruns()
    ensures PayloadLengthAsWritten(2, AckMode) == 0xFFFF_FFFF > RX_DATA_LENGTH
    ensures PayloadLengthAsWritten(20, AckMode) == 17 > RX_DATA_LENGTH
    ensures PayloadLengthAsWritten(1, DataMode(512)) == 0xFFFF_FFFF > 512
    ensures !LengthFits(2, AckMode) && !LengthFits(20, AckMode) && !LengthFits(1, DataMode(512))
  {
  }

  /** The comparison that ends both receivers: the running sum `sum0`,
      extended by the `n` payload bytes at the front of `t`, against the two
      checksum bytes after them. */
  predicate TrailerMatches(sum0: uint16, t: seq<uint8>, n: nat)
    requires n + 2 <= |t|
  {
    (sum0 + Sum(t[..n])) % TWO_TO_THE_16 == Be16(t[n], t[n + 1])
  }

  /** The running sum of the receivers before the payload: the type and
      length bytes, and the confirmation byte when there is one (`c` is 1). */
  function HeaderSum(s: seq<uint8>, c: nat): (h: uint16)
    requires c <= 1 && |s| >= 9 + c
    ensures h < 4 * 0x100
  {
    s[6] as int + s[7] as int + s[8] as int + if c == 1 then s[9] as int else 0
  }

  /** What one receive attempt yields from the bytes `s` the module sends, when
      the transport never stalls: the status, the packet type once the header
      checks have passed (the receivers store it at that point), the
      confirmation byte (ack mode), the payload, and how many bytes were taken.
      A stream too short for the frame it announces is a Timeout. */
  datatype Reception = Reception(status: RxStatus, packetType: Option<uint8>, confirmation: Option<uint8>,
                                 payload: seq<uint8>, consumed: nat)

  function Receive(s: seq<uint8>, address: uint32, mode: Mode): (r: Reception)
    ensures r.consumed <= |s|
    ensures r.status != Timeout ==> 9 <= r.consumed
    ensures r.packetType.Some? ==> |s| >= 9 && r.packetType.value == s[6] && TypeAccepted(s[6])
    ensures r.packetType.None? ==> r.status != RxOk && r.status != WrongChecksum
    ensures (r.status == RxOk || r.status == WrongChecksum) ==>
              && r.consumed == 9 + Be16(s[7], s[8])
              && |r.payload| == Be16(s[7], s[8]) - Trailer(mode) <= Capacity(mode)
              && (mode.AckMode? <==> r.confirmation.Some?)
  {
    if |s| < 9 then Reception(Timeout, None, None, [], |s|)
    else if HeaderVerdict(s, address) != RxOk then Reception(HeaderVerdict(s, address), None, None, [], 9)
    else
      var declared := Be16(s[7], s[8]);
      if !LengthFits(declared, mode) then Reception(BadPacket, Some(s[6]), None, [], 9)
      else if |s| < 9 + declared then Reception(Timeout, Some(s[6]), None, [], |s|)
      else
        var c := ConfirmationLength(mode);
        var n := declared - Trailer(mode);
        var rest := s[9 + c..];
        Reception(if TrailerMatches(HeaderSum(s, c), rest, n) then RxOk else WrongChecksum, Some(s[6]),
                  if c == 1 then Some(s[9]) else None, rest[..n], 9 + declared)
  }

  /** The payload bytes a receive copies into its buffer when the transport
      never stalls: the whole payload of a frame that arrives, as much of it
      as arrives when the frame is cut short after its header (and, in ack
      mode, its confirmation byte), and nothing when the header or the length
      is refused. */
  function Stored(s: seq<uint8>, address: uint32, mode: Mode): (b: seq<uint8>)
    ensures |b| <= Capacity(mode)
    ensures var r := Receive(s, address, mode);
            r.status == RxOk || r.status == WrongChecksum ==> b == r.payload
    ensures var r := Receive(s, address, mode);
            r.status != RxOk && r.status != WrongChecksum && r.status != Timeout ==> b == []
    ensures b != [] ==> 9 + ConfirmationLength(mode) <= |s| && b <= s[9 + ConfirmationLength(mode)..]
  {
    if |s| < 9 || HeaderVerdict(s, address) != RxOk then []
    else
      var declared := Be16(s[7], s[8]);
      var c := ConfirmationLength(mode);
      if !LengthFits(declared, mode) || |s| < 9 + c then []
      else s[9 + c..][..Min(declared - Trailer(mode), |s| - 9 - c)]
  }

  /** After the header and, in ack mode, the confirmation byte, a receive
      stores the first `n` bytes of the rest `t`, or all of `t` when fewer
      arrive. */
  lemma StoredAfterHeader(s: seq<uint8>, address: uint32, mode: Mode, t: seq<uint8>, n: nat)
    requires |s| >= 9 + ConfirmationLength(mode) && HeaderVerdict(s, address) == RxOk
    requires LengthFits(Be16(s[7], s[8]), mode)
    requires t == s[9 + ConfirmationLength(mode)..] && n == Be16(s[7], s[8]) - Trailer(mode)
    ensures Stored(s, address, mode) == t[..Min(n, |t|)]
  {
  }

  /** The receivers add the type and length bytes, then the confirmation byte
      in ack mode, then the payload: together, exactly the bytes the frame's
      checksum covers. */
  lemma ChecksumWindow(s: seq<uint8>, declared: nat, c: nat)
    requires c <= 1 && 9 + c <= 7 + declared <= |s|
    ensures Sum(s[6..7 + declared]) == s[6] + s[7] + s[8] + (if c == 1 then s[9] else 0) + Sum(s[9 + c..7 + declared])
  {
    var e := 7 + declared;
    SumHead(s, 6, e);
    SumHead(s, 7, e);
    SumHead(s, 8, e);
    if c == 1 {
      SumHead(s, 9, e);
    }
  }

  /** The header checks see only the first nine bytes. */
  lemma HeaderVerdictPrefix(s: seq<uint8>, h: seq<uint8>, address: uint32)
    requires |s| >= 9 && h == s[..9]
    ensures |h| == 9 && HeaderVerdict(h, address) == HeaderVerdict(s, address)
    ensures h[6] == s[6] && h[7] == s[7] && h[8] == s[8]
  {
  }

  /** A header that fails its checks, or announces a length that does not
      fit, ends the receive after nine bytes; the packet type counts as
      received only in the second case. */
  lemma ReceiveRejects(s: seq<uint8>, address: uint32, mode: Mode)
    requires |s| >= 9
    requires HeaderVerdict(s, address) != RxOk || !LengthFits(Be16(s[7], s[8]), mode)
    ensures HeaderVerdict(s, address) != RxOk ==>
              Receive(s, address, mode) == Reception(HeaderVerdict(s, address), None, None, [], 9)
    ensures HeaderVerdict(s, address) == RxOk ==>
              Receive(s, address, mode) == Reception(BadPacket, Some(s[6]), None, [], 9)
  {
  }

  /** What the receivers read after the header and, in ack mode, the
      confirmation byte: the rest `t` of the stream starts with the `n`
      payload bytes and the two checksum bytes, and the running sum `sum0` of
      what came before decides the verdict with them. */
  lemma ReceiveRest(s: seq<uint8>, address: uint32, mode: Mode, sum0: uint16, t: seq<uint8>, n: nat)
    requires |s| >= 9 + ConfirmationLength(mode) && HeaderVerdict(s, address) == RxOk
    requires LengthFits(Be16(s[7], s[8]), mode)
    requires sum0 == HeaderSum(s, ConfirmationLength(mode))
    requires t == s[9 + ConfirmationLength(mode)..] && n == Be16(s[7], s[8]) - Trailer(mode) && n + 2 <= |t|
    ensures t[n + 2..] == s[9 + ConfirmationLength(mode) + n + 2..]
    ensures Receive(s, address, mode).status == (if TrailerMatches(sum0, t, n) then RxOk else WrongChecksum)
    ensures Receive(s, address, mode).packetType == Some(s[6])
    ensures Receive(s, address, mode).confirmation == (if ConfirmationLength(mode) == 1 then Some(s[9]) else None)
    ensures Receive(s, address, mode).payload == t[..n]
    ensures Receive(s, address, mode).consumed == 9 + ConfirmationLength(mode) + n + 2
  {
    RestSlices(s, ConfirmationLength(mode), Be16(s[7], s[8]), t, n);
  }

  /** Where the payload and the checksum bytes sit in the rest of the stream. */
  lemma RestSlices(s: seq<uint8>, c: nat, d: nat, t: seq<uint8>, n: nat)
    requires c <= 1 && 9 + c <= |s| && t == s[9 + c..] && n + c + 2 == d && n + 2 <= |t|
    ensures t[..n] == s[9 + c..7 + d] && t[n] == s[7 + d] && t[n + 1] == s[8 + d]
    ensures t[n + 2..] == s[9 + c + n + 2..]
  {
    assert t[n] == s[9 + c + n];
    assert t[n + 1] == s[9 + c + n + 1];
  }

  /** When the rest of the stream is shorter than the payload and checksum it
      announced, the frame has not arrived. */
  lemma ReceiveCut(s: seq<uint8>, address: uint32, mode: Mode, t: seq<uint8>, n: nat)
    requires |s| >= 9 + ConfirmationLength(mode) && HeaderVerdict(s, address) == RxOk
    requires LengthFits(Be16(s[7], s[8]), mode)
    requires t == s[9 + ConfirmationLength(mode)..] && n == Be16(s[7], s[8]) - Trailer(mode) && |t| < n + 2
    ensures Receive(s, address, mode).status == Timeout
  {
  }

  // ------------------------------------------------------ the device's reply

  /** A reply frame as the module sends it: type, length (confirmation, payload
      and checksum), the confirmation byte in ack replies, payload, checksum. */
  function EncodeReply(address: uint32, packetType: uint8, confirmation: Option<uint8>, payload: seq<uint8>): (f: seq<uint8>)
    requires |payload| + 3 < TWO_TO_THE_16
    ensures |f| == 11 + |payload| + (if confirmation.Some? then 1 else 0)
  {
    var conf := if confirmation.Some? then [confirmation.value] else [];
    var covered := [packetType] + Be16Bytes(|conf| + |payload| + 2) + conf + payload;
    [START_HI, START_LO] + Be32Bytes(address) + covered + Be16Bytes(Sum(covered) % TWO_TO_THE_16)
  }

  /** The reply carries its confirmation byte exactly in ack mode, and its
      payload fits the receiving buffer. */
  predicate ReplyFits(confirmation: Option<uint8>, payload: seq<uint8>, mode: Mode)
  {
    (mode.AckMode? <==> confirmation.Some?) && |payload| <= Capacity(mode) && |payload| + 3 < TWO_TO_THE_16
  }

  /** Positions of the reply frame's fields. */
  lemma ReplyLayout(address: uint32, packetType: uint8, confirmation: Option<uint8>, payload: seq<uint8>)
    requires |payload| + 3 < TWO_TO_THE_16
    ensures var f := EncodeReply(address, packetType, confirmation, payload);
            var c := if confirmation.Some? then 1 else 0;
            && f[0] == START_HI && f[1] == START_LO
            && Be32(f[2], f[3], f[4], f[5]) == address
            && f[6] == packetType
            && Be16(f[7], f[8]) == c + |payload| + 2
            && (confirmation.Some? ==> f[9] == confirmation.value)
            && f[9 + c..|f| - 2] == payload
            && Be16(f[|f| - 2], f[|f| - 1]) == Sum(f[6..|f| - 2]) % TWO_TO_THE_16
  {
    var f := EncodeReply(address, packetType, confirmation, payload);
    var conf := if confirmation.Some? then [confirmation.value] else [];
    var covered := [packetType] + Be16Bytes(|conf| + |payload| + 2) + conf + payload;
    assert f == [START_HI, START_LO] + Be32Bytes(address) + covered + Be16Bytes(Sum(covered) % TWO_TO_THE_16);
    assert f[6..|f| - 2] == covered;
  }

  /** A frame whose header passes, whose announced length fits and has
      arrived, and whose checksum matches is received OK with its fields. */
  lemma ReceiveAccepts(s: seq<uint8>, address: uint32, mode: Mode)
    requires |s| >= 9 && HeaderVerdict(s, address) == RxOk
    requires LengthFits(Be16(s[7], s[8]), mode) && |s| >= 9 + Be16(s[7], s[8])
    requires var d := Be16(s[7], s[8]); Sum(s[6..7 + d]) % TWO_TO_THE_16 == Be16(s[7 + d], s[8 + d])
    ensures var d := Be16(s[7], s[8]);
            var c := ConfirmationLength(mode);
            Receive(s, address, mode)
            == Reception(RxOk, Some(s[6]), if c == 1 then Some(s[9]) else None, s[9 + c..7 + d], 9 + d)
  {
    var d: nat := Be16(s[7], s[8]);
    var c := ConfirmationLength(mode);
    RestSlices(s, c, d, s[9 + c..], d - Trailer(mode));
    ChecksumDecides(s, address, mode);
  }

  /** A well-formed reply from the expected address is received whole: status
      OK, its type, confirmation and payload, and exactly its own bytes taken. */
  lemma ReceiveReply(address: uint32, packetType: uint8, confirmation: Option<uint8>, payload: seq<uint8>,
                     rest: seq<uint8>, mode: Mode)
    requires TypeAccepted(packetType) && ReplyFits(confirmation, payload, mode)
    ensures var f := EncodeReply(address, packetType, confirmation, payload);
            Receive(f + rest, address, mode) == Reception(RxOk, Some(packetType), confirmation, payload, |f|)
  {
    var f := EncodeReply(address, packetType, confirmation, payload);
    var s := f + rest;
    var c := ConfirmationLength(mode);
    ReplyLayout(address, packetType, confirmation, payload);
    assert s[..|f|] == f;
    assert s[..9] == f[..9];
    var d := Be16(s[7], s[8]);
    assert d == |f| - 9;
    assert s[6..7 + d] == f[6..|f| - 2];
    assert s[7 + d] == f[|f| - 2] && s[8 + d] == f[|f| - 1];
    ReceiveAccepts(s, address, mode);
    assert s[9 + c..7 + d] == f[9 + c..|f| - 2];
  }

  /** A reply sent from any other address is refused at the address check,
      before the packet type is stored. */
  lemma ReplyFromOtherAddress(sender: uint32, address: uint32, packetType: uint8, confirmation: Option<uint8>,
                              payload: seq<uint8>, rest: seq<uint8>, mode: Mode)
    requires sender != address && |payload| + 3 < TWO_TO_THE_16
    ensures var r := Receive(EncodeReply(sender, packetType, confirmation, payload) + rest, address, mode);
            r.status == WrongAddress && r.packetType.None? && r.consumed == 9
  {
    var f := EncodeReply(sender, packetType, confirmation, payload);
    ReplyLayout(sender, packetType, confirmation, payload);
    assert (f + rest)[..9] == f[..9];
  }

  /** Changing one byte of a window changes its 16-bit sum. */
  lemma SumChangeDetected(w: seq<uint8>, j: nat, v: uint8)
    requires j < |w| && v != w[j]
    ensures Sum(w[j := v]) % TWO_TO_THE_16 != Sum(w) % TWO_TO_THE_16
  {
    SumUpdate(w, j, v);
    var before := Sum(w);
    var after := Sum(w[j := v]);
    assert -256 < after - before < 256 && after != before;
  }

  /** Once the header passes and the announced frame has arrived, the checksum
      alone decides between OK and a checksum error. */
  lemma ChecksumDecides(s: seq<uint8>, address: uint32, mode: Mode)
    requires |s| >= 9 && HeaderVerdict(s, address) == RxOk
    requires LengthFits(Be16(s[7], s[8]), mode) && |s| >= 9 + Be16(s[7], s[8])
    ensures var d := Be16(s[7], s[8]);
            Receive(s, address, mode).status
            == if Sum(s[6..7 + d]) % TWO_TO_THE_16 == Be16(s[7 + d], s[8 + d]) then RxOk else WrongChecksum
  {
    var d: nat := Be16(s[7], s[8]);
    var c := ConfirmationLength(mode);
    var n := d - Trailer(mode);
    ReceiveRest(s, address, mode, HeaderSum(s, c), s[9 + c..], n);
    RestSlices(s, c, d, s[9 + c..], n);
    ChecksumWindow(s, d, c);
  }

  /** In any accepted frame, changing one byte after the length field and before
      the checksum, or changing the type byte to another accepted type, turns
      the verdict into a checksum error. (A changed start code, address or
      length is caught, if at all, by the header checks or the framing.) */
  lemma CorruptionDetected(s: seq<uint8>, address: uint32, mode: Mode, i: nat, v: uint8)
    requires Receive(s, address, mode).status == RxOk
    requires 9 <= i < Receive(s, address, mode).consumed - 2 || (i == 6 && TypeAccepted(v))
    requires i < |s| && v != s[i]
    ensures Receive(s[i := v], address, mode).status == WrongChecksum
  {
    var t := s[i := v];
    var d := Be16(s[7], s[8]);
    assert |s| >= 9 && HeaderVerdict(s, address) == RxOk && LengthFits(d, mode);
    assert t[0] == s[0] && t[1] == s[1] && t[2] == s[2] && t[3] == s[3] && t[4] == s[4] && t[5] == s[5];
    assert t[7] == s[7] && t[8] == s[8] && TypeAccepted(t[6]);
    assert HeaderVerdict(t, address) == RxOk && Be16(t[7], t[8]) == d;
    ChecksumDecides(s, address, mode);
    ChecksumDecides(t, address, mode);
    assert t[6..7 + d] == s[6..7 + d][i - 6 := v];
    SumChangeDetected(s[6..7 + d], i - 6, v);
  }

  /** Changing any byte of the confirmation or payload of a reply, or its
      type to another accepted type, while leaving its checksum as sent, is
      always caught as a checksum error. */
  lemma CorruptedReplyRejected(address: uint32, packetType: uint8, confirmation: Option<uint8>, payload: seq<uint8>,
                               rest: seq<uint8>, mode: Mode, i: nat, v: uint8)
    requires TypeAccepted(packetType) && ReplyFits(confirmation, payload, mode)
    requires 9 <= i < |EncodeReply(address, packetType, confirmation, payload)| - 2 || (i == 6 && TypeAccepted(v))
    requires v != EncodeReply(address, packetType, confirmation, payload)[i]
    ensures Receive((EncodeReply(address, packetType, confirmation, payload) + rest)[i := v], address, mode).status
            == WrongChecksum
  {
    var f := EncodeReply(address, packetType, confirmation, payload);
    ReceiveReply(address, packetType, confirmation, payload, rest, mode);
    CorruptionDetected(f + rest, address, mode, i, v);
  }

  /** A reply cut short anywhere is never accepted: it times out. */
  lemma TruncatedReplyTimesOut(address: uint32, packetType: uint8, confirmation: Option<uint8>, payload: seq<uint8>,
                               mode: Mode, k: nat)
    requires TypeAccepted(packetType) && ReplyFits(confirmation, payload, mode)
    requires k < |EncodeReply(address, packetType, confirmation, payload)|
    ensures Receive(EncodeReply(address, packetType, confirmation, payload)[..k], address, mode).status == Timeout
  {
    var f := EncodeReply(address, packetType, confirmation, payload);
    ReplyLayout(address, packetType, confirmation, payload);
    if k >= 9 {
      var s := f[..k];
      assert s[..9] == f[..9];
      assert Be16(s[7], s[8]) == |f| - 9;
    }
  }
}
