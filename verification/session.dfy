/** The driver structure `__FPS` and the operations that update it: the frame
    sender and the two receivers, the stream reassembly, the parameter reset,
    the setters and the commands of the core. */
module Session {
  import opened Bytes
  import opened Protocol
  import opened Frame
  import opened Stream
  import opened SysPara
  import opened Commands
  import opened Timing
  import opened Transport

  /** Writing three pieces one after another appends the frame they make. */
  lemma AppendThree(sent: seq<uint8>, a: seq<uint8>, b: seq<uint8>, c: seq<uint8>)
    ensures sent + a + b + c == sent + (a + b + c)
  {
  }

  /** A reply the device sent to say the command succeeded: received OK with
      confirmation code 0. */
  predicate Accepted(r: Reception)
  {
    r.status == RxOk && r.confirmation == Some(RESP_OK)
  }

  class Fps {
    var devicePassword: uint32
    var deviceAddress: uint32
    var securityLevel: uint16
    var dataPacketLengthCode: uint16
    /** The device's maximum data length per packet (32, 64, 128 or 256). */
    var dataPacketLength: uint16
    var baudMultiplier: uint16
    var deviceBaudrate: uint32

    // What the last receive stored
    var rxPacketType: uint8
    var rxConfirmationCode: uint8
    const rxDataBuffer: array<uint8>
    var rxDataBufferLength: uint32

    var fingerId: uint16
    var matchScore: uint16
    var templateCount: uint16

    /** The `read`/`write` function pointers. */
    const port: Port

    ghost predicate Valid()
      reads this
    {
      rxDataBuffer.Length == RX_DATA_LENGTH
    }

    /** A zero-initialised structure whose address has been set, after
        `resetParameters`: the first steps of `R30X_init`. */
    constructor (port: Port, address: uint32)
      ensures Valid() && this.port == port && deviceAddress == address && devicePassword == DEFAULT_PASSWORD
      ensures Defaults()
    {
      this.port := port;
      rxDataBuffer := new uint8[RX_DATA_LENGTH](_ => 0);
      deviceAddress := address;
      devicePassword := DEFAULT_PASSWORD;
      new;
      ResetParameters();
    }

    /** The state `resetParameters` leaves. */
    ghost predicate Defaults()
      reads this, rxDataBuffer
    {
      && deviceBaudrate == DEFAULT_BAUDRATE
      && baudMultiplier == DEFAULT_BAUDRATE / 9600
      && securityLevel == DEFAULT_SECURITY_LEVEL
      && dataPacketLength == RX_DATA_LENGTH
      && rxPacketType == PID_COMMAND
      && rxConfirmationCode == CMD_VERIFYPASSWORD
      && rxDataBufferLength == 0
      && (forall i | 0 <= i < rxDataBuffer.Length :: rxDataBuffer[i] == 0)
      && fingerId == 0 && matchScore == 0 && templateCount == 0
    }

    /** `resetParameters`: the session defaults; the password, address,
        packet-size code and port are kept. */
    method ResetParameters()
      requires Valid()
      modifies this`deviceBaudrate, this`baudMultiplier, this`securityLevel, this`dataPacketLength,
               this`rxPacketType, this`rxConfirmationCode, this`rxDataBufferLength, rxDataBuffer,
               this`fingerId, this`matchScore, this`templateCount
      ensures Defaults()
    {
      deviceBaudrate := DEFAULT_BAUDRATE;
      baudMultiplier := DEFAULT_BAUDRATE / 9600;
      securityLevel := DEFAULT_SECURITY_LEVEL;
      dataPacketLength := RX_DATA_LENGTH;
      rxPacketType := PID_COMMAND;
      rxConfirmationCode := CMD_VERIFYPASSWORD;
      rxDataBufferLength := 0;
      forall i | 0 <= i < rxDataBuffer.Length {
        rxDataBuffer[i] := 0;
      }
      fingerId := 0;
      matchScore := 0;
      templateCount := 0;
    }

    // -------------------------------------------------------------- sending

    /** `sendPacket`: the 10-byte head (a local array in the C, a sequence
        value here), the checksum accumulated over its last four bytes and the
        data, and head, data (unless NULL) and checksum written in that
        order. */
    method SendPacket(command: uint8, data: Option<seq<uint8>>, dataLength: uint16)
      requires data.Some? ==> |data.value| == dataLength
      modifies port
      ensures port.outgoing == old(port.outgoing) + EncodeFrame(deviceAddress, command, data, dataLength)
      ensures port.incoming == old(port.incoming) && port.grants == old(port.grants)
      ensures port.readCalls == old(port.readCalls)
    {
      var packetLength: uint16 := (dataLength + 3) % TWO_TO_THE_16;
      var head := [START_HI, START_LO] + Be32Bytes(deviceAddress) + [PID_COMMAND] + Be16Bytes(packetLength) + [command];
      var checksum: uint16 := head[6] as int + head[7] as int + head[8] as int + head[9] as int;
      var body: seq<uint8> := [];
      if data.Some? {
        body := data.value;
        checksum := AddChecksum(checksum, body);
      }
      SendPacketBytes(deviceAddress, command, data, dataLength, head, checksum);
      ghost var sent := port.outgoing;
      var trailer := Be16Bytes(checksum);
      port.Write(head);
      if data.Some? {
        port.Write(data.value);
      } else {
        assert sent + head + body == sent + head;
      }
      port.Write(trailer);
      AppendThree(sent, head, body, trailer);
    }

    // ---------------------------------------------------- the polling loops

    /** One more `read` into a window being gathered: `dst[at..]` holds the
        first `have` of the stream `s` the gathering started from, over what
        `d0` held there, and asks for the remaining `want - have`. */
    method ReadMore(dst: array<uint8>, at: nat, want: nat, ghost d0: seq<uint8>, ghost s: seq<uint8>, have: nat)
      returns (got: nat)
      requires have <= want && at + want <= dst.Length && have <= |s|
      requires Landed(dst, d0, at, s[..have]) && port.incoming == s[have..]
      modifies port, dst
      ensures have + got <= want && have + got <= |s|
      ensures Landed(dst, d0, at, s[..have + got]) && port.incoming == s[have + got..]
      ensures old(port.grants) == [] ==> port.grants == [] && got == Min(want - have, |s| - have)
      ensures port.outgoing == old(port.outgoing) && port.readCalls == old(port.readCalls) + 1
    {
      LandedOverlay(dst, d0, at, s[..have]);
      ghost var pre := dst[..];
      got := port.Read(dst, at + have, want - have);
      assert Landed(dst, pre, at + have, s[have..][..got]);
      LandedStep(dst, d0, at, s, have, got);
    }

    /** The header and checksum phases of both receivers: one read of `want`
        bytes, then further reads for the rest, counting polls in a uint32
        that is compared with the timeout after every read, even one that
        completed the bytes. `arrived` is how many bytes came in. */
    method Gather(dst: array<uint8>, want: nat, timeout: uint32) returns (done: bool, ghost arrived: nat)
      requires want <= dst.Length
      modifies port, dst
      ensures port.outgoing == old(port.outgoing)
      ensures arrived <= want && arrived <= |old(port.incoming)|
      ensures Landed(dst, old(dst[..]), 0, old(port.incoming)[..arrived])
      ensures port.incoming == old(port.incoming)[arrived..]
      ensures done ==> arrived == want
      ensures old(port.grants) == [] ==> port.grants == [] && arrived == Min(want, |old(port.incoming)|)
                                         && (done <==> want <= |old(port.incoming)|)
      ensures |old(port.incoming)| == 0 < want ==> port.readCalls == old(port.readCalls) + 1 + Polls(timeout)
    {
      ghost var s := port.incoming;
      ghost var d0 := dst[..];
      assert Landed(dst, d0, 0, s[..0]);
      var readBytes: nat := ReadMore(dst, 0, want, d0, s, 0);
      done := true;
      var time: uint32 := 0;
      ghost var polls: nat := 0;
      while readBytes < want
        invariant readBytes <= want && readBytes <= |s| && done
        invariant Landed(dst, d0, 0, s[..readBytes]) && port.incoming == s[readBytes..]
        invariant port.outgoing == old(port.outgoing)
        invariant polls < Polls(timeout) && time == polls % TWO_TO_THE_32
        invariant old(port.grants) == [] ==> port.grants == [] && (readBytes == want || readBytes == |s|)
        invariant port.readCalls == old(port.readCalls) + 1 + polls
        decreases Polls(timeout) - polls
      {
        var got := ReadMore(dst, 0, want, d0, s, readBytes);
        readBytes := readBytes + got;
        UnitClockStep(timeout, time, polls);
        time := (time + 1) % TWO_TO_THE_32;
        polls := polls + 1;
        if time == timeout {
          done := false;
          break;
        }
      }
      arrived := readBytes;
      assert d0 == old(dst[..]) && s == old(port.incoming);
    }

    /** The confirmation phase of `receivePacket`: one-byte reads straight
        into `rxConfirmationCode` until one delivers, counting each failed
        read in a uint32 that is compared with the timeout. */
    method ReadConfirmation(timeout: uint32) returns (done: bool)
      modifies this`rxConfirmationCode, port
      ensures port.outgoing == old(port.outgoing)
      ensures done ==> 1 <= |old(port.incoming)| && rxConfirmationCode == old(port.incoming)[0]
                       && port.incoming == old(port.incoming)[1..]
      ensures !done ==> rxConfirmationCode == old(rxConfirmationCode)
      ensures old(port.grants) == [] ==> port.grants == [] && (done <==> 1 <= |old(port.incoming)|)
      ensures |old(port.incoming)| == 0 ==> port.readCalls == old(port.readCalls) + Polls(timeout)
    {
      ghost var s := port.incoming;
      var cell := new uint8[1];
      var time: uint32 := 0;
      ghost var polls: nat := 0;
      var got := port.Read(cell, 0, 1);
      while got < 1
        invariant got <= 1 && (got == 1 ==> 1 <= |s| && cell[0] == s[0] && port.incoming == s[1..])
        invariant got == 0 ==> port.incoming == s
        invariant rxConfirmationCode == old(rxConfirmationCode)
        invariant port.outgoing == old(port.outgoing)
        invariant polls < Polls(timeout) && time == polls % TWO_TO_THE_32
        invariant old(port.grants) == [] ==> port.grants == [] && got == Min(1, |s|)
        invariant port.readCalls == old(port.readCalls) + 1 + polls
        decreases Polls(timeout) - polls
      {
        UnitClockStep(timeout, time, polls);
        time := (time + 1) % TWO_TO_THE_32;
        polls := polls + 1;
        if time == timeout {
          return false;
        }
        got := port.Read(cell, 0, 1);
      }
      rxConfirmationCode := cell[0];
      return true;
    }

    /** The payload phase of both receivers, with the timeout test corrected
        from `==` to `>=`: one read of `want` bytes into `dst[at..]`, then
        further reads for the rest, adding 10 to the counter per read. */
    method GatherPayload(dst: array<uint8>, at: nat, want: nat, timeout: uint32) returns (done: bool, ghost arrived: nat)
      requires at + want <= dst.Length
      modifies port, dst
      ensures port.outgoing == old(port.outgoing)
      ensures arrived <= want && arrived <= |old(port.incoming)|
      ensures Landed(dst, old(dst[..]), at, old(port.incoming)[..arrived])
      ensures port.incoming == old(port.incoming)[arrived..]
      ensures done ==> arrived == want
      ensures old(port.grants) == [] ==> port.grants == [] && arrived == Min(want, |old(port.incoming)|)
                                         && (done <==> want <= |old(port.incoming)|)
      ensures |old(port.incoming)| == 0 < want ==> port.readCalls == old(port.readCalls) + 1 + CoarsePolls(timeout)
    {
      ghost var s := port.incoming;
      ghost var d0 := dst[..];
      assert Landed(dst, d0, at, s[..0]);
      var readBytes: nat := ReadMore(dst, at, want, d0, s, 0);
      done := true;
      var time: nat := 0;
      ghost var polls: nat := 0;
      while readBytes < want
        invariant readBytes <= want && readBytes <= |s| && done
        invariant Landed(dst, d0, at, s[..readBytes]) && port.incoming == s[readBytes..]
        invariant port.outgoing == old(port.outgoing)
        invariant time == 10 * polls && polls < CoarsePolls(timeout)
        invariant old(port.grants) == [] ==> port.grants == [] && (readBytes == want || readBytes == |s|)
        invariant port.readCalls == old(port.readCalls) + 1 + polls
        decreases CoarsePolls(timeout) - polls
      {
        var got := ReadMore(dst, at, want, d0, s, readBytes);
        readBytes := readBytes + got;
        CoarseClockStep(timeout, polls);
        time := time + 10;
        polls := polls + 1;
        if time >= timeout {
          done := false;
          break;
        }
      }
      arrived := readBytes;
      assert d0 == old(dst[..]) && s == old(port.incoming);
    }
  
    /** The common tail of both receivers, after the packet length is known:
        `n` payload bytes into `dst[at..]` when there are any, the two checksum
        bytes, the payload added to the running checksum `sum0`, and the
        comparison. */
    method ReceiveBody(dst: array<uint8>, at: nat, n: nat, sum0: uint16, timeout: uint32)
      returns (status: RxStatus, ghost arrived: nat)
      requires at + n <= dst.Length
      modifies port, dst
      ensures port.outgoing == old(port.outgoing)
      ensures status == RxOk || status == WrongChecksum || status == Timeout
      ensures arrived <= n && arrived <= |old(port.incoming)|
      ensures Landed(dst, old(dst[..]), at, old(port.incoming)[..arrived])
      ensures status != Timeout ==>
                && arrived == n && n + 2 <= |old(port.incoming)| && port.incoming == old(port.incoming)[n + 2..]
                && (status == RxOk <==> TrailerMatches(sum0, old(port.incoming), n))
      ensures old(port.grants) == [] ==> port.grants == [] && (status == Timeout <==> |old(port.incoming)| < n + 2)
      ensures old(port.grants) == [] ==> arrived == Min(n, |old(port.incoming)|)
    {
      ghost var s := port.incoming;
      ghost var d0 := dst[..];
      var done := true;
      arrived := 0;
      if n > 0 {
        done, arrived := GatherPayload(dst, at, n, timeout);
        if !done {
          return Timeout, arrived;
        }
      }
      assert Landed(dst, d0, at, s[..n]);
      LandedParts(dst, d0, at, s[..n]);
      ghost var payload := dst[at..at + n];
      assert payload == s[..n] && port.incoming == s[n..];
      var trailer := new uint8[2];
      ghost var t0 := trailer[..];
      ghost var got: nat;
      done, got := Gather(trailer, 2, timeout);
      if !done {
        return Timeout, arrived;
      }
      Advance(s, n, 2);
      ghost var cs := s[n..n + 2];
      assert trailer[0] == cs[0] == s[n];
      assert trailer[1] == cs[1] == s[n + 1];
      assert dst[at..at + n] == payload;
      var checksum := AddChecksum(sum0, dst[at..at + n]);
      if checksum != Be16(trailer[0], trailer[1]) {
        return WrongChecksum, arrived;
      }
      return RxOk, arrived;
    }

    // ------------------------------------------------------------ receiving

    /** The header phase of both receivers: the 9 header bytes, the checks
        on start code, address and type, and the packet type stored when they
        pass. `head` is the local buffer's content. */
    method ReceiveHeader(timeout: uint32) returns (status: RxStatus, head: seq<uint8>)
      modifies this`rxPacketType, port
      ensures port.outgoing == old(port.outgoing)
      ensures status == Timeout
              || (&& |old(port.incoming)| >= 9 && head == old(port.incoming)[..9]
                  && status == HeaderVerdict(old(port.incoming), deviceAddress)
                  && port.incoming == old(port.incoming)[9..])
      ensures rxPacketType == if status == RxOk then head[6] else old(rxPacketType)
      ensures old(port.grants) == [] ==> port.grants == [] && (status == Timeout <==> |old(port.incoming)| < 9)
      ensures |old(port.incoming)| == 0 ==> status == Timeout && port.readCalls == old(port.readCalls) + 1 + Polls(timeout)
    {
      ghost var s := port.incoming;
      var header := new uint8[9];
      ghost var pre := header[..];
      var done: bool;
      ghost var arrived: nat;
      done, arrived := Gather(header, 9, timeout);
      if !done {
        return Timeout, [];
      }
      LandedParts(header, pre, 0, s[..9]);
      head := header[..];
      HeaderVerdictPrefix(s, head, deviceAddress);
      status := HeaderVerdict(head, deviceAddress);
      if status == RxOk {
        rxPacketType := head[6];
      }
    }

    /** `receivePacket`: the 9 header bytes, the header checks, the packet type
        stored, the declared length checked (the guard the C lacks) and
        stored less 3, the confirmation byte, then the payload into
        rxDataBuffer and the checksum. The verdict is that of `Receive` on the
        bytes the module sends, except that a stalling transport may turn it
        into a Timeout. */
    method ReceivePacket(timeout: uint32) returns (status: RxStatus)
      requires Valid()
      modifies this`rxPacketType, this`rxConfirmationCode, this`rxDataBufferLength, rxDataBuffer, port
      ensures port.outgoing == old(port.outgoing)
      ensures var r := Receive(old(port.incoming), deviceAddress, AckMode);
              && (status == Timeout || status == r.status)
              && (old(port.grants) == [] ==> status == r.status)
              && (status != Timeout ==> port.incoming == old(port.incoming)[r.consumed..])
              && (rxPacketType == old(rxPacketType) || r.packetType == Some(rxPacketType))
              && (r.packetType.None? ==> rxPacketType == old(rxPacketType))
              && ((status != Timeout || old(port.grants) == []) && r.packetType.Some? ==>
                    rxPacketType == r.packetType.value)
      ensures var r := Receive(old(port.incoming), deviceAddress, AckMode);
              (status == RxOk || status == WrongChecksum) ==>
                && rxConfirmationCode == r.confirmation.value && rxDataBufferLength == |r.payload|
                && rxDataBuffer[..] == Overlay(old(rxDataBuffer[..]), 0, r.payload)
      ensures old(port.grants) == [] ==>
                rxDataBuffer[..] == Overlay(old(rxDataBuffer[..]), 0, Stored(old(port.incoming), deviceAddress, AckMode))
      ensures status == BadPacket || status == WrongAddress || status == WrongResponse ==>
                rxConfirmationCode == old(rxConfirmationCode) && rxDataBufferLength == old(rxDataBufferLength)
                && rxDataBuffer[..] == old(rxDataBuffer[..])
      ensures old(port.grants) == [] ==> port.grants == []
      ensures |old(port.incoming)| == 0 ==> status == Timeout && port.readCalls == old(port.readCalls) + 1 + Polls(timeout)
    {
      ghost var s := port.incoming;
      ghost var b0 := rxDataBuffer[..];
      assert Overlay(b0, 0, []) == b0;
      var head: seq<uint8>;
      status, head := ReceiveHeader(timeout);
      if status != RxOk {
        if status != Timeout {
          ReceiveRejects(s, deviceAddress, AckMode);
        }
        return;
      }
      var declared := Be16(head[7], head[8]);
      if !LengthFits(declared, AckMode) {
        ReceiveRejects(s, deviceAddress, AckMode);
        return BadPacket;
      }
      rxDataBufferLength := declared - 3;
      var checksum: uint16 := head[6] as int + head[7] as int + head[8] as int;
      var done := ReadConfirmation(timeout);
      if !done {
        assert old(port.grants) == [] ==> |s| < 10 && Stored(s, deviceAddress, AckMode) == [];
        return Timeout;
      }
      Advance(s, 9, 1);
      checksum := (checksum + rxConfirmationCode) % TWO_TO_THE_16;
      assert checksum == HeaderSum(s, 1);
      ghost var rest := s[10..];
      ghost var n := rxDataBufferLength;
      if |rest| < n + 2 {
        ReceiveCut(s, deviceAddress, AckMode, rest, n);
      } else {
        ReceiveRest(s, deviceAddress, AckMode, checksum, rest, n);
      }
      ghost var pre := rxDataBuffer[..];
      assert pre == b0;
      ghost var arrived: nat;
      status, arrived := ReceiveBody(rxDataBuffer, 0, rxDataBufferLength, checksum, timeout);
      LandedOverlay(rxDataBuffer, pre, 0, rest[..arrived]);
      StoredAfterHeader(s, deviceAddress, AckMode, rest, n);
      if status != Timeout {
        LandedParts(rxDataBuffer, pre, 0, rest[..n]);
        assert rxDataBuffer[..n] == rest[..n] && port.incoming == s[12 + n..];
      }
    }

    /** `receiveDataPacket`: as `receivePacket` without a confirmation byte,
        with the declared length less 2 and the payload stored in the
        caller's buffer at `at` (the C's `receive_buffer` pointer, with
        `buf.Length - at` bytes of room). `length` is what the C stores
        through `receive_length`; on the paths that end before that store it
        is 0 here, and neither caller reads it then. */
    method ReceiveDataPacket(buf: array<uint8>, at: nat, timeout: uint32) returns (status: RxStatus, length: uint16)
      requires at <= buf.Length
      modifies this`rxPacketType, this`rxDataBufferLength, buf, port
      ensures port.outgoing == old(port.outgoing)
      ensures var r := Receive(old(port.incoming), deviceAddress, DataMode(buf.Length - at));
              && (status == Timeout || status == r.status)
              && (old(port.grants) == [] ==> status == r.status)
              && (status != Timeout ==> port.incoming == old(port.incoming)[r.consumed..])
              && (rxPacketType == old(rxPacketType) || r.packetType == Some(rxPacketType))
              && (r.packetType.None? ==> rxPacketType == old(rxPacketType))
              && ((status != Timeout || old(port.grants) == []) && r.packetType.Some? ==>
                    rxPacketType == r.packetType.value)
      ensures var r := Receive(old(port.incoming), deviceAddress, DataMode(buf.Length - at));
              (status == RxOk || status == WrongChecksum) ==>
                && length == |r.payload| && rxDataBufferLength == |r.payload|
                && buf[..] == Overlay(old(buf[..]), at, r.payload)
      ensures old(port.grants) == [] ==>
                buf[..] == Overlay(old(buf[..]), at, Stored(old(port.incoming), deviceAddress, DataMode(buf.Length - at)))
      ensures buf[..at] == old(buf[..at])
      ensures status == BadPacket || status == WrongAddress || status == WrongResponse ==>
                rxDataBufferLength == old(rxDataBufferLength) && buf[..] == old(buf[..])
      ensures old(port.grants) == [] ==> port.grants == []
      ensures |old(port.incoming)| == 0 ==> status == Timeout && port.readCalls == old(port.readCalls) + 1 + Polls(timeout)
    {
      ghost var s := port.incoming;
      ghost var mode := DataMode(buf.Length - at);
      ghost var b0 := buf[..];
      assert Overlay(b0, at, []) == b0;
      var head: seq<uint8>;
      status, head := ReceiveHeader(timeout);
      if status != RxOk {
        if status != Timeout {
          ReceiveRejects(s, deviceAddress, mode);
        }
        return status, 0;
      }
      var declared := Be16(head[7], head[8]);
      if !LengthFits(declared, DataMode(buf.Length - at)) {
        ReceiveRejects(s, deviceAddress, mode);
        return BadPacket, 0;
      }
      rxDataBufferLength := declared - 2;
      length := declared - 2;
      var checksum: uint16 := head[6] as int + head[7] as int + head[8] as int;
      assert checksum == HeaderSum(s, 0);
      ghost var rest := s[9..];
      ghost var n := length;
      if |rest| < n + 2 {
        ReceiveCut(s, deviceAddress, mode, rest, n);
      } else {
        ReceiveRest(s, deviceAddress, mode, checksum, rest, n);
      }
      ghost var pre := buf[..];
      ghost var arrived: nat;
      status, arrived := ReceiveBody(buf, at, length, checksum, timeout);
      LandedParts(buf, pre, at, rest[..arrived]);
      LandedOverlay(buf, pre, at, rest[..arrived]);
      StoredAfterHeader(s, deviceAddress, mode, rest, n);
      if status != Timeout {
        assert buf[at..at + n] == rest[..n] && port.incoming == s[11 + n..];
      }
    }

    // ------------------------------------------------------------ streaming

    /** One Data-mode reception into `buf` at `index`, as the streaming loop
        sees it: `p` is the reception the bytes the module sends make, `more`
        says the loop goes on after it and `next` is where the next packet
        goes. */
    method ReceiveOne(buf: array<uint8>, index: nat) returns (more: bool, next: nat, ghost p: Reception)
      requires index <= buf.Length
      modifies this`rxPacketType, this`rxDataBufferLength, buf, port
      ensures port.outgoing == old(port.outgoing) && buf[..index] == old(buf[..index])
      ensures p == Receive(old(port.incoming), deviceAddress, DataMode(buf.Length - index))
      ensures old(port.grants) == [] ==> port.grants == []
      ensures more ==>
                && p.status == RxOk && p.packetType == Some(PID_DATA) && rxPacketType == PID_DATA
                && port.incoming == old(port.incoming)[p.consumed..]
                && index <= next == index + |p.payload| <= buf.Length && buf[index..next] == p.payload
                && buf[next..] == old(buf[next..])
      ensures !more ==> rxPacketType == old(rxPacketType) || TypeAccepted(rxPacketType)
      ensures !more && old(port.grants) == [] ==>
                && !(p.status == RxOk && p.packetType == Some(PID_DATA))
                && rxPacketType == (if p.packetType.Some? then p.packetType.value else old(rxPacketType))
                && buf[..] == Overlay(old(buf[..]), index, Stored(old(port.incoming), deviceAddress,
                                                                   DataMode(buf.Length - index)))
    {
      p := Receive(port.incoming, deviceAddress, DataMode(buf.Length - index));
      var status, length := ReceiveDataPacket(buf, index, DEFAULT_TIMEOUT);
      if status == RxOk {
        OverlayParts(old(buf[..]), index, p.payload);
      }
      more := status == RxOk && rxPacketType == PID_DATA;
      next := index + length;
    }

    /** One pass of the streaming loop: a Data packet is received into `buf`
        at `index`, and `more` says whether the loop goes on after it, from
        `next` (`index` plus the packet's length). `total` is the reassembly
        of the whole stream, `chunks` the payloads gone past so far and
        `after` those with this packet's payload added; `free` says the
        transport never stalls. */
    method ReceiveChunk(buf: array<uint8>, index: nat, ghost total: Reassembly, ghost chunks: seq<seq<uint8>>,
                        ghost free: bool)
      returns (more: bool, next: nat, ghost after: seq<seq<uint8>>)
      requires index == |Flatten(chunks)| <= buf.Length && buf[..index] == Flatten(chunks)
      requires free ==> port.grants == [] && Resumes(total, chunks, port.incoming, deviceAddress, buf.Length - index)
      modifies this`rxPacketType, this`rxDataBufferLength, buf, port
      ensures port.outgoing == old(port.outgoing) && buf[..index] == old(buf[..index])
      ensures more ==>
                && rxPacketType == PID_DATA && |port.incoming| < |old(port.incoming)|
                && index <= next == |Flatten(after)| <= buf.Length && buf[..next] == Flatten(after)
                && after == chunks + [buf[index..next]] && buf[next..] == old(buf[next..])
      ensures more && free ==> port.grants == [] && Resumes(total, after, port.incoming, deviceAddress, buf.Length - next)
      ensures !more ==> rxPacketType == old(rxPacketType) || TypeAccepted(rxPacketType)
      ensures !more && free ==>
                && total.chunks == chunks
                && rxPacketType == (if total.last.Some? then total.last.value else old(rxPacketType))
                && index + |total.tail| <= buf.Length && buf[..] == Overlay(old(buf[..]), index, total.tail)
    {
      ghost var cur := port.incoming;
      ghost var room := buf.Length - index;
      ghost var p;
      more, next, p := ReceiveOne(buf, index);
      after := chunks + [p.payload];
      if !more {
        if free {
          ReassembleEnds(total, chunks, cur, deviceAddress, room, p);
        }
        return;
      }
      FlattenExtend(buf[..], chunks, index, next);
      if free {
        ReassembleGoesOn(total, chunks, cur, deviceAddress, room, p);
      }
    }

    /** The loop `readSysPara` and `getImage` share: Data packets are received
        into `buf` one after another, each where the previous one ended, while
        they are received OK and are Data packets. `index` is the C's uint16
        offset; `chunks` are the payloads it went past. Without stalls the
        outcome is `Reassemble` of the bytes the module sends. */
    method ReceiveStream(buf: array<uint8>) returns (index: nat, ghost chunks: seq<seq<uint8>>)
      requires buf.Length < TWO_TO_THE_16
      modifies this`rxPacketType, this`rxDataBufferLength, buf, port
      ensures port.outgoing == old(port.outgoing)
      ensures index == |Flatten(chunks)| <= buf.Length && buf[..index] == Flatten(chunks)
      ensures rxPacketType == old(rxPacketType) || TypeAccepted(rxPacketType)
      ensures old(port.grants) == [] ==>
                var r := Reassemble(old(port.incoming), deviceAddress, buf.Length);
                && chunks == r.chunks && rxPacketType == EndType(r, old(rxPacketType))
                && index + |r.tail| <= buf.Length && buf[..] == Overlay(old(buf[..]), 0, Flatten(chunks) + r.tail)
    {
      ghost var previous := rxPacketType;
      ghost var address := deviceAddress;
      ghost var free := old(port.grants) == [];
      index := 0;
      chunks := [];
      ghost var total := Reassemble(port.incoming, deviceAddress, buf.Length - index);
      assert total == Reassemble(old(port.incoming), address, buf.Length);
      assert Prepend(chunks, total) == total;
      while true
        invariant index == |Flatten(chunks)| <= buf.Length && buf[..index] == Flatten(chunks)
        invariant buf[index..] == old(buf[index..])
        invariant rxPacketType == if chunks == [] then previous else PID_DATA
        invariant port.outgoing == old(port.outgoing) && deviceAddress == address
        invariant free ==> port.grants == [] && Resumes(total, chunks, port.incoming, deviceAddress, buf.Length - index)
        decreases |port.incoming|
      {
        ghost var b1 := buf[..];
        var more, next, after := ReceiveChunk(buf, index, total, chunks, free);
        if !more {
          if free {
            OverlayJoin(old(buf[..]), b1, Flatten(chunks), total.tail);
          }
          break;
        }
        index, chunks := next, after;
      }
      assert free ==> chunks == total.chunks && rxPacketType == EndType(total, previous);
    }

    // ------------------------------------------------------------- commands

    /** The reply `r` as `receivePacket` leaves it in the structure: its
        type, its confirmation code, its payload with that length at the start
        of rxDataBuffer, and the cells after it as they were in `before`. */
    ghost predicate HoldsReply(r: Reception, before: seq<uint8>)
      reads this, rxDataBuffer
    {
      && r.packetType.Some? && r.confirmation.Some?
      && rxPacketType == r.packetType.value && rxConfirmationCode == r.confirmation.value
      && rxDataBufferLength == |r.payload| && |r.payload| <= rxDataBuffer.Length == |before|
      && rxDataBuffer[..|r.payload|] == r.payload && rxDataBuffer[|r.payload|..] == before[|r.payload|..]
    }

    /** The fields a receive writes, taken together. */
    ghost function RxFields(): (uint8, uint8, uint32, seq<uint8>)
      reads this, rxDataBuffer
    {
      (rxPacketType, rxConfirmationCode, rxDataBufferLength, rxDataBuffer[..])
    }

    /** The round trip every command makes: its frame sent, then the reply
        received in ack mode with timeout `timeout`. `r` is the reply the
        bytes the module sends make. */
    method Exchange(command: uint8, data: Option<seq<uint8>>, dataLength: uint16, timeout: uint32)
      returns (status: RxStatus, ghost r: Reception)
      requires Valid() && (data.Some? ==> |data.value| == dataLength)
      modifies this`rxPacketType, this`rxConfirmationCode, this`rxDataBufferLength, rxDataBuffer, port
      ensures port.outgoing == old(port.outgoing) + EncodeFrame(deviceAddress, command, data, dataLength)
      ensures r == Receive(old(port.incoming), deviceAddress, AckMode)
      ensures status == Timeout || status == r.status
      ensures old(port.grants) == [] ==> status == r.status && port.grants == []
      ensures status != Timeout ==> port.incoming == old(port.incoming)[r.consumed..]
      ensures status == RxOk ==> HoldsReply(r, old(rxDataBuffer[..]))
      ensures old(port.grants) == [] ==>
                rxDataBuffer[..] == Overlay(old(rxDataBuffer[..]), 0, Stored(old(port.incoming), deviceAddress, AckMode))
    {
      ghost var b0 := rxDataBuffer[..];
      SendPacket(command, data, dataLength);
      r := Receive(port.incoming, deviceAddress, AckMode);
      status := ReceivePacket(timeout);
      if status == RxOk {
        OverlayParts(b0, 0, r.payload);
      }
    }

    /** `verifyPassword`: the password is sent high byte first and kept only
        when the device accepts it. The result is the receive status, so a
        password the device refuses still reports 0. */
    method VerifyPassword(password: uint32) returns (result: uint8)
      requires Valid()
      modifies this`devicePassword, this`rxPacketType, this`rxConfirmationCode, this`rxDataBufferLength,
               rxDataBuffer, port
      ensures port.outgoing ==
                old(port.outgoing) + EncodeFrame(deviceAddress, CMD_VERIFYPASSWORD, Some(Be32Bytes(password)), 4)
      ensures var r := Receive(old(port.incoming), deviceAddress, AckMode);
              && (result == Timeout.Code() || result == r.status.Code())
              && (old(port.grants) == [] ==> result == r.status.Code())
              && devicePassword == if result == RESP_OK && Accepted(r) then password else old(devicePassword)
      ensures var r := Receive(old(port.incoming), deviceAddress, AckMode);
              (old(port.grants) == [] || result != Timeout.Code()) && r.status == RxOk ==> HoldsReply(r, old(rxDataBuffer[..]))
    {
      var status, r := Exchange(CMD_VERIFYPASSWORD, Some(Be32Bytes(password)), 4, DEFAULT_TIMEOUT);
      if status == RxOk && rxConfirmationCode == RESP_OK {
        devicePassword := password;
        return RESP_OK;
      }
      return status.Code();
    }

    /** `setPassword`: as `verifyPassword`, with its own opcode. */
    method SetPassword(password: uint32) returns (result: uint8)
      requires Valid()
      modifies this`devicePassword, this`rxPacketType, this`rxConfirmationCode, this`rxDataBufferLength,
               rxDataBuffer, port
      ensures port.outgoing ==
                old(port.outgoing) + EncodeFrame(deviceAddress, CMD_SETPASSWORD, Some(Be32Bytes(password)), 4)
      ensures var r := Receive(old(port.incoming), deviceAddress, AckMode);
              && (result == Timeout.Code() || result == r.status.Code())
              && (old(port.grants) == [] ==> result == r.status.Code())
              && devicePassword == if result == RESP_OK && Accepted(r) then password else old(devicePassword)
      ensures var r := Receive(old(port.incoming), deviceAddress, AckMode);
              (old(port.grants) == [] || result != Timeout.Code()) && r.status == RxOk ==> HoldsReply(r, old(rxDataBuffer[..]))
    {
      var status, r := Exchange(CMD_SETPASSWORD, Some(Be32Bytes(password)), 4, DEFAULT_TIMEOUT);
      if status == RxOk && rxConfirmationCode == RESP_OK {
        devicePassword := password;
        return RESP_OK;
      }
      return status.Code();
    }

    /** `setAddress`: the request goes to, and the reply is checked against,
        the old address; the new one is kept only when the device accepts
        it. */
    method SetAddress(address: uint32) returns (result: uint8)
      requires Valid()
      modifies this`deviceAddress, this`rxPacketType, this`rxConfirmationCode, this`rxDataBufferLength,
               rxDataBuffer, port
      ensures port.outgoing ==
                old(port.outgoing) + EncodeFrame(old(deviceAddress), CMD_SETDEVICEADDRESS, Some(Be32Bytes(address)), 4)
      ensures var r := Receive(old(port.incoming), old(deviceAddress), AckMode);
              && (result == Timeout.Code() || result == r.status.Code())
              && (old(port.grants) == [] ==> result == r.status.Code())
              && deviceAddress == if result == RESP_OK && Accepted(r) then address else old(deviceAddress)
      ensures var r := Receive(old(port.incoming), old(deviceAddress), AckMode);
              (old(port.grants) == [] || result != Timeout.Code()) && r.status == RxOk ==> HoldsReply(r, old(rxDataBuffer[..]))
    {
      var status, r := Exchange(CMD_SETDEVICEADDRESS, Some(Be32Bytes(address)), 4, DEFAULT_TIMEOUT);
      if status == RxOk && rxConfirmationCode == RESP_OK {
        deviceAddress := address;
        return RESP_OK;
      }
      return status.Code();
    }

    /** `setBaudrate`: system parameter 4 set to the (truncated) multiplier.
        After an accepted reply the port is closed and reopened, which
        `reopenOk` stands for; the new rate is kept only when that succeeds.
        A rate whose multiplier is not 1 to 12 is refused with nothing
        sent. */
    method SetBaudrate(baud: uint32, reopenOk: bool) returns (result: uint8)
      requires Valid()
      modifies this`deviceBaudrate, this`rxPacketType, this`rxConfirmationCode, this`rxDataBufferLength,
               rxDataBuffer, port
      ensures !BaudAccepted(baud) ==>
                result == BAD_VALUE && port.outgoing == old(port.outgoing) && port.incoming == old(port.incoming)
      ensures BaudAccepted(baud) ==>
                port.outgoing ==
                  old(port.outgoing) + EncodeFrame(deviceAddress, CMD_SETSYSPARA, Some([4, BaudNumber(baud)]), 2)
      ensures var r := Receive(old(port.incoming), deviceAddress, AckMode);
              && (BaudAccepted(baud) ==> result == Timeout.Code() || result == r.status.Code())
              && (BaudAccepted(baud) && old(port.grants) == [] ==> result == r.status.Code())
              && deviceBaudrate ==
                   if BaudAccepted(baud) && result == RESP_OK && Accepted(r) && reopenOk then baud
                   else old(deviceBaudrate)
      ensures !(BaudAccepted(baud)) ==> RxFields() == old(RxFields())
      ensures var r := Receive(old(port.incoming), deviceAddress, AckMode);
              (BaudAccepted(baud)) && (old(port.grants) == [] || result != Timeout.Code()) && r.status == RxOk ==> HoldsReply(r, old(rxDataBuffer[..]))
    {
      var baudNumber := BaudNumber(baud);
      if !(0 < baudNumber < 13) {
        return BAD_VALUE;
      }
      var status, r := Exchange(CMD_SETSYSPARA, Some([4, baudNumber]), 2, DEFAULT_TIMEOUT);
      if status == RxOk && rxConfirmationCode == RESP_OK && reopenOk {
        deviceBaudrate := baud;
        return RESP_OK;
      }
      return status.Code();
    }

    /** `setSecurityLevel`: system parameter 5, levels 1 to 5. */
    method SetSecurityLevel(level: uint8) returns (result: uint8)
      requires Valid()
      modifies this`securityLevel, this`rxPacketType, this`rxConfirmationCode, this`rxDataBufferLength,
               rxDataBuffer, port
      ensures !SecurityLevelAccepted(level) ==>
                result == BAD_VALUE && port.outgoing == old(port.outgoing) && port.incoming == old(port.incoming)
      ensures SecurityLevelAccepted(level) ==>
                port.outgoing == old(port.outgoing) + EncodeFrame(deviceAddress, CMD_SETSYSPARA, Some([5, level]), 2)
      ensures var r := Receive(old(port.incoming), deviceAddress, AckMode);
              && (SecurityLevelAccepted(level) ==> result == Timeout.Code() || result == r.status.Code())
              && (SecurityLevelAccepted(level) && old(port.grants) == [] ==> result == r.status.Code())
              && securityLevel ==
                   if SecurityLevelAccepted(level) && result == RESP_OK && Accepted(r) then level
                   else old(securityLevel)
      ensures !(SecurityLevelAccepted(level)) ==> RxFields() == old(RxFields())
      ensures var r := Receive(old(port.incoming), deviceAddress, AckMode);
              (SecurityLevelAccepted(level)) && (old(port.grants) == [] || result != Timeout.Code()) && r.status == RxOk ==> HoldsReply(r, old(rxDataBuffer[..]))
    {
      if !(0 < level < 6) {
        return BAD_VALUE;
      }
      var status, r := Exchange(CMD_SETSYSPARA, Some([5, level]), 2, DEFAULT_TIMEOUT);
      if status == RxOk && rxConfirmationCode == RESP_OK {
        securityLevel := level;
        return RESP_OK;
      }
      return status.Code();
    }

    /** `setDataLength`: system parameter 6 set to the code of 32, 64, 128 or
        256. */
    method SetDataLength(length: uint16) returns (result: uint8)
      requires Valid()
      modifies this`dataPacketLength, this`rxPacketType, this`rxConfirmationCode, this`rxDataBufferLength,
               rxDataBuffer, port
      ensures DataLengthCode(length).None? ==>
                result == BAD_VALUE && port.outgoing == old(port.outgoing) && port.incoming == old(port.incoming)
      ensures DataLengthCode(length).Some? ==>
                port.outgoing == old(port.outgoing)
                  + EncodeFrame(deviceAddress, CMD_SETSYSPARA, Some([6, DataLengthCode(length).value]), 2)
      ensures var r := Receive(old(port.incoming), deviceAddress, AckMode);
              && (DataLengthCode(length).Some? ==> result == Timeout.Code() || result == r.status.Code())
              && (DataLengthCode(length).Some? && old(port.grants) == [] ==> result == r.status.Code())
              && dataPacketLength ==
                   if DataLengthCode(length).Some? && result == RESP_OK && Accepted(r) then length
                   else old(dataPacketLength)
      ensures !(DataLengthCode(length).Some?) ==> RxFields() == old(RxFields())
      ensures var r := Receive(old(port.incoming), deviceAddress, AckMode);
              (DataLengthCode(length).Some?) && (old(port.grants) == [] || result != Timeout.Code()) && r.status == RxOk ==> HoldsReply(r, old(rxDataBuffer[..]))
    {
      var code := DataLengthCode(length);
      if code.None? {
        return BAD_VALUE;
      }
      var status, r := Exchange(CMD_SETSYSPARA, Some([6, code.value]), 2, DEFAULT_TIMEOUT);
      if status == RxOk && rxConfirmationCode == RESP_OK {
        dataPacketLength := length;
        return RESP_OK;
      }
      return status.Code();
    }

    /** `portControl`: value 0 or 1, nothing kept. */
    method PortControl(value: uint8) returns (result: uint8)
      requires Valid()
      modifies this`rxPacketType, this`rxConfirmationCode, this`rxDataBufferLength, rxDataBuffer, port
      ensures !PortValueAccepted(value) ==>
                result == BAD_VALUE && port.outgoing == old(port.outgoing) && port.incoming == old(port.incoming)
      ensures PortValueAccepted(value) ==>
                port.outgoing == old(port.outgoing) + EncodeFrame(deviceAddress, CMD_PORTCONTROL, Some([value]), 1)
      ensures var r := Receive(old(port.incoming), deviceAddress, AckMode);
              && (PortValueAccepted(value) ==> result == Timeout.Code() || result == r.status.Code())
              && (PortValueAccepted(value) && old(port.grants) == [] ==> result == r.status.Code())
      ensures !(PortValueAccepted(value)) ==> RxFields() == old(RxFields())
      ensures var r := Receive(old(port.incoming), deviceAddress, AckMode);
              (PortValueAccepted(value)) && (old(port.grants) == [] || result != Timeout.Code()) && r.status == RxOk ==> HoldsReply(r, old(rxDataBuffer[..]))
    {
      if value != 0 && value != 1 {
        return BAD_VALUE;
      }
      var status, r := Exchange(CMD_PORTCONTROL, Some([value]), 1, DEFAULT_TIMEOUT);
      if status == RxOk && rxConfirmationCode == RESP_OK {
        return RESP_OK;
      }
      return status.Code();
    }

    /** `generateCharacter`: character buffer 1 or 2, nothing kept. */
    method GenerateCharacter(bufferId: uint8) returns (result: uint8)
      requires Valid()
      modifies this`rxPacketType, this`rxConfirmationCode, this`rxDataBufferLength, rxDataBuffer, port
      ensures !BufferIdAccepted(bufferId) ==>
                result == BAD_VALUE && port.outgoing == old(port.outgoing) && port.incoming == old(port.incoming)
      ensures BufferIdAccepted(bufferId) ==>
                port.outgoing == old(port.outgoing) + EncodeFrame(deviceAddress, CMD_IMAGETOCHARACTER, Some([bufferId]), 1)
      ensures var r := Receive(old(port.incoming), deviceAddress, AckMode);
              && (BufferIdAccepted(bufferId) ==> result == Timeout.Code() || result == r.status.Code())
              && (BufferIdAccepted(bufferId) && old(port.grants) == [] ==> result == r.status.Code())
      ensures !(BufferIdAccepted(bufferId)) ==> RxFields() == old(RxFields())
      ensures var r := Receive(old(port.incoming), deviceAddress, AckMode);
              (BufferIdAccepted(bufferId)) && (old(port.grants) == [] || result != Timeout.Code()) && r.status == RxOk ==> HoldsReply(r, old(rxDataBuffer[..]))
    {
      if bufferId != 1 && bufferId != 2 {
        return BAD_VALUE;
      }
      var status, r := Exchange(CMD_IMAGETOCHARACTER, Some([bufferId]), 1, DEFAULT_TIMEOUT);
      if status == RxOk && rxConfirmationCode == RESP_OK {
        return RESP_OK;
      }
      return status.Code();
    }

    /** `saveTemplate` (`load` false) and `loadTemplate` (`load` true): the
        same checks, data and result, with their own opcodes. */
    method TemplateSlot(load: bool, bufferId: uint8, location: uint16) returns (result: uint8)
      requires Valid()
      modifies this`rxPacketType, this`rxConfirmationCode, this`rxDataBufferLength, rxDataBuffer, port
      ensures var ok := BufferIdAccepted(bufferId) && LocationAccepted(location, templateCount);
              var opcode := if load then CMD_LOADTEMPLATE else CMD_STORETEMPLATE;
              var r := Receive(old(port.incoming), deviceAddress, AckMode);
              && (!ok ==> result == BAD_VALUE && port.outgoing == old(port.outgoing)
                          && port.incoming == old(port.incoming))
              && (ok ==> port.outgoing ==
                           old(port.outgoing) + EncodeFrame(deviceAddress, opcode, Some(TemplateSlotData(bufferId, location)), 3))
              && (ok ==> result == Timeout.Code() || result == r.status.Code())
              && (ok && old(port.grants) == [] ==> result == r.status.Code())
      ensures !(BufferIdAccepted(bufferId) && LocationAccepted(location, templateCount)) ==> RxFields() == old(RxFields())
      ensures var r := Receive(old(port.incoming), deviceAddress, AckMode);
              (BufferIdAccepted(bufferId) && LocationAccepted(location, templateCount)) && (old(port.grants) == [] || result != Timeout.Code()) && r.status == RxOk ==> HoldsReply(r, old(rxDataBuffer[..]))
    {
      if !(0 < bufferId < 3) {
        return BAD_VALUE;
      }
      if location > templateCount || location < 1 {
        return BAD_VALUE;
      }
      var opcode := if load then CMD_LOADTEMPLATE else CMD_STORETEMPLATE;
      var status, r := Exchange(opcode, Some(TemplateSlotData(bufferId, location)), 3, DEFAULT_TIMEOUT);
      if status == RxOk && rxConfirmationCode == RESP_OK {
        return RESP_OK;
      }
      return status.Code();
    }

    /** `deleteTemplate`: `count` templates from `startLocation`, all within
        the library. */
    method DeleteTemplate(startLocation: uint16, count: uint16) returns (result: uint8)
      requires Valid()
      modifies this`rxPacketType, this`rxConfirmationCode, this`rxDataBufferLength, rxDataBuffer, port
      ensures var ok := DeleteRangeAccepted(startLocation, count, templateCount);
              var r := Receive(old(port.incoming), deviceAddress, AckMode);
              && (!ok ==> result == BAD_VALUE && port.outgoing == old(port.outgoing)
                          && port.incoming == old(port.incoming))
              && (ok ==> port.outgoing == old(port.outgoing)
                           + EncodeFrame(deviceAddress, CMD_DELETETEMPLATE, Some(DeleteData(startLocation, count)), 4))
              && (ok ==> result == Timeout.Code() || result == r.status.Code())
              && (ok && old(port.grants) == [] ==> result == r.status.Code())
      ensures !(DeleteRangeAccepted(startLocation, count, templateCount)) ==> RxFields() == old(RxFields())
      ensures var r := Receive(old(port.incoming), deviceAddress, AckMode);
              (DeleteRangeAccepted(startLocation, count, templateCount)) && (old(port.grants) == [] || result != Timeout.Code()) && r.status == RxOk ==> HoldsReply(r, old(rxDataBuffer[..]))
    {
      if startLocation > templateCount || startLocation < 1 {
        return BAD_VALUE;
      }
      if count + startLocation > templateCount + 1 {
        return BAD_VALUE;
      }
      var status, r := Exchange(CMD_DELETETEMPLATE, Some(DeleteData(startLocation, count)), 4, DEFAULT_TIMEOUT);
      if status == RxOk && rxConfirmationCode == RESP_OK {
        return RESP_OK;
      }
      return status.Code();
    }

    /** `getTemplateCount`: the count from the reply's first two bytes, low
        byte first. */
    method GetTemplateCount() returns (result: uint8)
      requires Valid()
      modifies this`templateCount, this`rxPacketType, this`rxConfirmationCode, this`rxDataBufferLength,
               rxDataBuffer, port
      ensures port.outgoing == old(port.outgoing) + EncodeFrame(deviceAddress, CMD_TEMPLATECOUNT, None, 0)
      ensures var r := Receive(old(port.incoming), deviceAddress, AckMode);
              && (result == Timeout.Code() || result == r.status.Code())
              && (old(port.grants) == [] ==> result == r.status.Code())
              && templateCount == (if result == RESP_OK && Accepted(r) then TemplateCountOf(rxDataBuffer[..])
                                   else old(templateCount))
              && (result == RESP_OK && Accepted(r) && |r.payload| >= 2 ==> templateCount == TemplateCountOf(r.payload))
      ensures var r := Receive(old(port.incoming), deviceAddress, AckMode);
              (old(port.grants) == [] || result != Timeout.Code()) && r.status == RxOk ==> HoldsReply(r, old(rxDataBuffer[..]))
    {
      var status, r := Exchange(CMD_TEMPLATECOUNT, None, 0, DEFAULT_TIMEOUT);
      if status == RxOk && rxConfirmationCode == RESP_OK {
        templateCount := TemplateCountOf(rxDataBuffer[..]);
        return RESP_OK;
      }
      return status.Code();
    }

    /** `captureAndFullSearch`: the match from the reply, its location
        counted from 1. A reply that is received but refused clears the match
        and reports its confirmation code. */
    method CaptureAndFullSearch() returns (result: uint8)
      requires Valid()
      modifies this`fingerId, this`matchScore, this`rxPacketType, this`rxConfirmationCode,
               this`rxDataBufferLength, rxDataBuffer, port
      ensures port.outgoing == old(port.outgoing) + EncodeFrame(deviceAddress, CMD_SCANANDFULLSEARCH, None, 0)
      ensures var r := Receive(old(port.incoming), deviceAddress, AckMode);
              && (result == RESP_OK ==> Accepted(r) && Match(fingerId, matchScore) == FullSearchMatch(rxDataBuffer[..]))
              && (old(port.grants) == [] ==>
                    && result == (if r.status == RxOk then r.confirmation.value else r.status.Code())
                    && Match(fingerId, matchScore) ==
                         if Accepted(r) then FullSearchMatch(rxDataBuffer[..])
                         else if r.status == RxOk then Match(0, 0)
                         else Match(old(fingerId), old(matchScore)))
              && (old(port.grants) == [] && Accepted(r) && |r.payload| >= 4 ==>
                    Match(fingerId, matchScore) == FullSearchMatch(r.payload))
      ensures var r := Receive(old(port.incoming), deviceAddress, AckMode);
              (old(port.grants) == [] || result != Timeout.Code()) && r.status == RxOk ==> HoldsReply(r, old(rxDataBuffer[..]))
    {
      var status, r := Exchange(CMD_SCANANDFULLSEARCH, None, 0, 3000);
      if status != RxOk {
        return status.Code();
      }
      if rxConfirmationCode == RESP_OK {
        var m := FullSearchMatch(rxDataBuffer[..]);
        fingerId, matchScore := m.fingerId, m.matchScore;
        return RESP_OK;
      }
      fingerId, matchScore := 0, 0;
      return rxConfirmationCode;
    }

    /** `captureAndRangeSearch`: a capture within `captureTimeout`, searched
        over `count` locations from `startLocation`, with the reply awaited
        100 polls longer than the capture. */
    method CaptureAndRangeSearch(captureTimeout: uint16, startLocation: uint16, count: uint16) returns (result: uint8)
      requires Valid()
      modifies this`fingerId, this`matchScore, this`rxPacketType, this`rxConfirmationCode,
               this`rxDataBufferLength, rxDataBuffer, port
      ensures var ok := RangeSearchAccepted(captureTimeout, startLocation, count, templateCount);
              && (!ok ==> result == BAD_VALUE && port.outgoing == old(port.outgoing)
                          && port.incoming == old(port.incoming)
                          && fingerId == old(fingerId) && matchScore == old(matchScore))
              && (ok ==> port.outgoing == old(port.outgoing) + EncodeFrame(deviceAddress, CMD_SCANANDRANGESEARCH,
                                                                     Some(RangeSearchData(captureTimeout, startLocation, count)), 5))
      ensures var ok := RangeSearchAccepted(captureTimeout, startLocation, count, templateCount);
              var r := Receive(old(port.incoming), deviceAddress, AckMode);
              && (result == RESP_OK ==> ok && Accepted(r)
                                        && Match(fingerId, matchScore) == RangeSearchMatch(rxDataBuffer[..]))
              && (ok && old(port.grants) == [] ==>
                    && result == (if r.status == RxOk then r.confirmation.value else r.status.Code())
                    && Match(fingerId, matchScore) ==
                         if Accepted(r) then RangeSearchMatch(rxDataBuffer[..])
                         else if r.status == RxOk then Match(0, 0)
                         else Match(old(fingerId), old(matchScore)))
              && (ok && old(port.grants) == [] && Accepted(r) && |r.payload| >= 4 ==>
                    Match(fingerId, matchScore) == RangeSearchMatch(r.payload))
      ensures !(RangeSearchAccepted(captureTimeout, startLocation, count, templateCount)) ==> RxFields() == old(RxFields())
      ensures var r := Receive(old(port.incoming), deviceAddress, AckMode);
              (RangeSearchAccepted(captureTimeout, startLocation, count, templateCount)) && (old(port.grants) == [] || result != Timeout.Code()) && r.status == RxOk ==> HoldsReply(r, old(rxDataBuffer[..]))
    {
      if captureTimeout > 25500 {
        return BAD_VALUE;
      }
      if startLocation > templateCount {
        return BAD_VALUE;
      }
      if startLocation + count > 1001 {
        return BAD_VALUE;
      }
      var data := RangeSearchData(captureTimeout, startLocation, count);
      var status, r := Exchange(CMD_SCANANDRANGESEARCH, Some(data), 5, captureTimeout + 100);
      if status != RxOk {
        return status.Code();
      }
      if rxConfirmationCode == RESP_OK {
        var m := RangeSearchMatch(rxDataBuffer[..]);
        fingerId, matchScore := m.fingerId, m.matchScore;
        return RESP_OK;
      }
      fingerId, matchScore := 0, 0;
      return rxConfirmationCode;
    }

    /** `searchLibrary`: character buffer `bufferId` searched over `count`
        locations from `startLocation`. A reply that is received but refused
        clears the match and, unlike the capture searches, reports 0. */
    method SearchLibrary(bufferId: uint8, startLocation: uint16, count: uint16) returns (result: uint8)
      requires Valid()
      modifies this`fingerId, this`matchScore, this`rxPacketType, this`rxConfirmationCode,
               this`rxDataBufferLength, rxDataBuffer, port
      ensures var ok := SearchRangeAccepted(bufferId, startLocation, count, templateCount);
              && (!ok ==> result == BAD_VALUE && port.outgoing == old(port.outgoing)
                          && port.incoming == old(port.incoming)
                          && fingerId == old(fingerId) && matchScore == old(matchScore))
              && (ok ==> port.outgoing == old(port.outgoing) + EncodeFrame(deviceAddress, CMD_HISPEEDSEARCH,
                                                                     Some(SearchData(bufferId, startLocation, count)), 5))
      ensures var ok := SearchRangeAccepted(bufferId, startLocation, count, templateCount);
              var r := Receive(old(port.incoming), deviceAddress, AckMode);
              var received := ok && (old(port.grants) == [] || result != Timeout.Code());
              && (ok ==> result == Timeout.Code() || result == r.status.Code())
              && (received ==> result == r.status.Code())
              && (ok && !received ==> fingerId == old(fingerId) && matchScore == old(matchScore))
              && (received && Accepted(r) ==> Match(fingerId, matchScore) == LibrarySearchMatch(rxDataBuffer[..]))
              && (received && Accepted(r) && |r.payload| >= 4 ==>
                    Match(fingerId, matchScore) == LibrarySearchMatch(r.payload))
              && (received && r.status == RxOk && !Accepted(r) ==> fingerId == 0 && matchScore == 0)
              && (received && r.status != RxOk ==> fingerId == old(fingerId) && matchScore == old(matchScore))
      ensures !(SearchRangeAccepted(bufferId, startLocation, count, templateCount)) ==> RxFields() == old(RxFields())
      ensures var r := Receive(old(port.incoming), deviceAddress, AckMode);
              (SearchRangeAccepted(bufferId, startLocation, count, templateCount)) && (old(port.grants) == [] || result != Timeout.Code()) && r.status == RxOk ==> HoldsReply(r, old(rxDataBuffer[..]))
    {
      if bufferId != 1 && bufferId != 2 {
        return BAD_VALUE;
      }
      if startLocation > templateCount {
        return BAD_VALUE;
      }
      if startLocation + count > templateCount {
        return BAD_VALUE;
      }
      var status, r := Exchange(CMD_HISPEEDSEARCH, Some(SearchData(bufferId, startLocation, count)), 5, DEFAULT_TIMEOUT);
      if status == RxOk {
        if rxConfirmationCode == RESP_OK {
          var m := LibrarySearchMatch(rxDataBuffer[..]);
          fingerId, matchScore := m.fingerId, m.matchScore;
          return RESP_OK;
        }
        fingerId, matchScore := 0, 0;
      }
      return status.Code();
    }

    /** `generateRandomNumber`: four bytes, least significant first. `random`
        is None where the C leaves `*random` unwritten. */
    method GenerateRandomNumber() returns (result: uint8, random: Option<uint32>)
      requires Valid()
      modifies this`rxPacketType, this`rxConfirmationCode, this`rxDataBufferLength, rxDataBuffer, port
      ensures port.outgoing == old(port.outgoing) + EncodeFrame(deviceAddress, CMD_GETRANDOMCODE, None, 0)
      ensures var r := Receive(old(port.incoming), deviceAddress, AckMode);
              && (result == Timeout.Code() || result == r.status.Code())
              && (old(port.grants) == [] ==> result == r.status.Code())
              && (random.Some? <==> result == RESP_OK && Accepted(r))
              && (random.Some? ==> random.value == RandomNumberOf(rxDataBuffer[..]))
              && (random.Some? && |r.payload| >= 4 ==> random.value == RandomNumberOf(r.payload))
      ensures var r := Receive(old(port.incoming), deviceAddress, AckMode);
              (old(port.grants) == [] || result != Timeout.Code()) && r.status == RxOk ==> HoldsReply(r, old(rxDataBuffer[..]))
    {
      var status, r := Exchange(CMD_GETRANDOMCODE, None, 0, DEFAULT_TIMEOUT);
      if status == RxOk && rxConfirmationCode == RESP_OK {
        return RESP_OK, Some(RandomNumberOf(rxDataBuffer[..]));
      }
      return status.Code(), None;
    }

    /** The stream half of `readSysPara` and `getImage`, after an accepted
        acknowledgement: the Data packets reassembled into `buf` from its
        start, and the loop's result. */
    method ReceiveStreamCode(buf: array<uint8>) returns (result: uint8)
      requires buf.Length < TWO_TO_THE_16
      modifies this`rxPacketType, this`rxDataBufferLength, buf, port
      ensures port.outgoing == old(port.outgoing)
      ensures result == RESP_OK <==> rxPacketType == PID_ENDDATA
      ensures result == RESP_OK || result == RESP_RECIEVEERR
      ensures old(port.grants) == [] ==>
                var s := Reassemble(old(port.incoming), deviceAddress, buf.Length);
                && result == StreamCode(s, old(rxPacketType))
                && |Flatten(s.chunks)| + |s.tail| <= buf.Length
                && buf[..] == Overlay(old(buf[..]), 0, Flatten(s.chunks) + s.tail)
    {
      var index;
      ghost var chunks;
      index, chunks := ReceiveStream(buf);
      ghost var s := Reassemble(old(port.incoming), deviceAddress, buf.Length);
      if old(port.grants) == [] {
        assert buf[..index + |s.tail|] == buf[..index] + buf[index..index + |s.tail|];
      }
      result := if rxPacketType == PID_ENDDATA then RESP_OK else RESP_RECIEVEERR;
    }

    /** The parameter block of `readSysPara` streamed into `buf` and, when
        the stream ends with an EndData packet, decoded from its first 16
        bytes into the session. The baud rate is the multiplier times 9600,
        and a packet-size code other than 0 to 3 leaves the data length as it
        was. */
    method ReceiveSysPara(buf: array<uint8>) returns (result: uint8)
      requires buf.Length == 512
      modifies this`templateCount, this`securityLevel, this`deviceAddress, this`dataPacketLengthCode,
               this`baudMultiplier, this`dataPacketLength, this`deviceBaudrate,
               this`rxPacketType, this`rxDataBufferLength, buf, port
      ensures port.outgoing == old(port.outgoing)
      ensures result == RESP_OK || result == RESP_RECIEVEERR
      ensures old(port.grants) == [] ==>
                var s := Reassemble(old(port.incoming), old(deviceAddress), 512);
                && result == StreamCode(s, old(rxPacketType))
                && |Flatten(s.chunks)| + |s.tail| <= 512
                && buf[..] == Overlay(old(buf[..]), 0, Flatten(s.chunks) + s.tail)
      ensures result == RESP_OK ==>
                var p := DecodeSysPara(buf[..]);
                && rxPacketType == PID_ENDDATA
                && templateCount == p.templateCount && securityLevel == p.securityLevel
                && deviceAddress == p.address && dataPacketLengthCode == p.lengthCode
                && baudMultiplier == p.baudMultiplier && deviceBaudrate == p.baudMultiplier * 9600
                && dataPacketLength == (if PacketLength(p.lengthCode).Some? then PacketLength(p.lengthCode).value
                                        else old(dataPacketLength))
      ensures result != RESP_OK ==>
                && templateCount == old(templateCount) && securityLevel == old(securityLevel)
                && deviceAddress == old(deviceAddress) && dataPacketLengthCode == old(dataPacketLengthCode)
                && baudMultiplier == old(baudMultiplier) && deviceBaudrate == old(deviceBaudrate)
                && dataPacketLength == old(dataPacketLength)
    {
      result := ReceiveStreamCode(buf);
      if result != RESP_OK {
        return;
      }
      var p := DecodeSysPara(buf[..]);
      templateCount := p.templateCount;
      securityLevel := p.securityLevel;
      deviceAddress := p.address;
      dataPacketLengthCode := p.lengthCode;
      baudMultiplier := p.baudMultiplier;
      var length := PacketLength(p.lengthCode);
      if length.Some? {
        dataPacketLength := length.value;
      }
      deviceBaudrate := p.baudMultiplier * 9600;
    }

    /** `readSysPara`: the request, its acknowledgement, then the parameter
        block (into `buf`, the C's 512-byte local array, whose earlier
        contents are whatever it held). As with the setters, an
        acknowledgement the device refuses reports 0, so success is a result
        of 0 together with confirmation code 0. */
    method ReadSysPara(buf: array<uint8>) returns (result: uint8)
      requires Valid() && buf.Length == 512
      modifies this`templateCount, this`securityLevel, this`deviceAddress, this`dataPacketLengthCode,
               this`baudMultiplier, this`dataPacketLength, this`deviceBaudrate,
               this`rxPacketType, this`rxConfirmationCode, this`rxDataBufferLength, rxDataBuffer, buf, port
      ensures port.outgoing == old(port.outgoing) + EncodeFrame(old(deviceAddress), CMD_READALL_SYSPARA, None, 0)
      ensures var a := Receive(old(port.incoming), old(deviceAddress), AckMode);
              var s := Reassemble(old(port.incoming)[a.consumed..], old(deviceAddress), 512);
              && (result == RESP_OK && rxConfirmationCode == RESP_OK ==> Accepted(a) && rxPacketType == PID_ENDDATA)
              && (old(port.grants) == [] ==>
                    && result == (if Accepted(a) then StreamCode(s, a.packetType.value) else a.status.Code())
                    && (Accepted(a) ==> |Flatten(s.chunks)| + |s.tail| <= 512
                                        && buf[..] == Overlay(old(buf[..]), 0, Flatten(s.chunks) + s.tail))
                    && (!Accepted(a) ==> buf[..] == old(buf[..])))
      ensures result == RESP_OK && rxConfirmationCode == RESP_OK ==>
                var p := DecodeSysPara(buf[..]);
                && templateCount == p.templateCount && securityLevel == p.securityLevel
                && deviceAddress == p.address && dataPacketLengthCode == p.lengthCode
                && baudMultiplier == p.baudMultiplier && deviceBaudrate == p.baudMultiplier * 9600
                && dataPacketLength == (if PacketLength(p.lengthCode).Some? then PacketLength(p.lengthCode).value
                                        else old(dataPacketLength))
      ensures !(result == RESP_OK && rxConfirmationCode == RESP_OK) ==>
                && templateCount == old(templateCount) && securityLevel == old(securityLevel)
                && deviceAddress == old(deviceAddress) && dataPacketLengthCode == old(dataPacketLengthCode)
                && baudMultiplier == old(baudMultiplier) && deviceBaudrate == old(deviceBaudrate)
                && dataPacketLength == old(dataPacketLength)
    {
      var status, a := Exchange(CMD_READALL_SYSPARA, None, 0, DEFAULT_TIMEOUT);
      if !(status == RxOk && rxConfirmationCode == RESP_OK) {
        return status.Code();
      }
      result := ReceiveSysPara(buf);
    }

    /** `getImage`: the image is streamed into the caller's `buf` from its
        start. */
    method GetImage(buf: array<uint8>) returns (result: uint8)
      requires Valid() && buf.Length < TWO_TO_THE_16
      modifies this`rxPacketType, this`rxConfirmationCode, this`rxDataBufferLength, rxDataBuffer, buf, port
      ensures port.outgoing == old(port.outgoing) + EncodeFrame(deviceAddress, CMD_EXPORTIMAGE, None, 0)
      ensures var a := Receive(old(port.incoming), deviceAddress, AckMode);
              var s := Reassemble(old(port.incoming)[a.consumed..], deviceAddress, buf.Length);
              && (result == RESP_OK && rxConfirmationCode == RESP_OK ==> Accepted(a) && rxPacketType == PID_ENDDATA)
              && (old(port.grants) == [] ==>
                    && result == (if Accepted(a) then StreamCode(s, a.packetType.value) else a.status.Code())
                    && (Accepted(a) ==> |Flatten(s.chunks)| + |s.tail| <= buf.Length
                                        && buf[..|Flatten(s.chunks)| + |s.tail|] == Flatten(s.chunks) + s.tail)
                    && (buf != rxDataBuffer && Accepted(a) ==>
                          buf[..] == Overlay(old(buf[..]), 0, Flatten(s.chunks) + s.tail))
                    && (buf != rxDataBuffer && !Accepted(a) ==> buf[..] == old(buf[..])))
    {
      var status, a := Exchange(CMD_EXPORTIMAGE, None, 0, DEFAULT_TIMEOUT);
      if !(status == RxOk && rxConfirmationCode == RESP_OK) {
        return status.Code();
      }
      result := ReceiveStreamCode(buf);
    }
  }
}
