/** The reassembly loop of `readSysPara` and `getImage`, as a function of the
    bytes the module sends after its acknowledgement: Data packets are
    received one after another into a buffer, each at the offset where the
    previous one ended, until a packet is not received OK or is not a Data
    packet. */
module Stream {
  import opened Bytes
  import opened Protocol
  import opened Frame

  /** The chunks laid end to end. */
  function Flatten(cs: seq<seq<uint8>>): seq<uint8>
  {
    if cs == [] then [] else cs[0] + Flatten(cs[1..])
  }

  lemma {:induction false} FlattenSnoc(cs: seq<seq<uint8>>, c: seq<uint8>)
    ensures Flatten(cs + [c]) == Flatten(cs) + c
    decreases |cs|
  {
    if cs == [] {
      assert [] + [c] == [c];
      assert Flatten([c]) == c + Flatten([]);
    } else {
      assert (cs + [c])[1..] == cs[1..] + [c];
      FlattenSnoc(cs[1..], c);
    }
  }

  /** A buffer holding the chunks laid end to end, followed by one more
      chunk, holds the longer sequence of chunks laid end to end. */
  lemma FlattenExtend(a: seq<uint8>, chunks: seq<seq<uint8>>, index: nat, next: nat)
    requires index <= next <= |a| && a[..index] == Flatten(chunks)
    ensures a[..next] == Flatten(chunks + [a[index..next]])
  {
    FlattenSnoc(chunks, a[index..next]);
    assert a[..next] == a[..index] + a[index..next];
  }

  /** Chunk `k` lands at the offset equal to the total length of the chunks
      before it. */
  lemma {:induction false} ChunkOffset(cs: seq<seq<uint8>>, k: nat, j: nat)
    requires k < |cs| && j < |cs[k]|
    ensures |Flatten(cs[..k])| + j < |Flatten(cs)|
    ensures Flatten(cs)[|Flatten(cs[..k])| + j] == cs[k][j]
    decreases k
  {
    if k == 0 {
      assert cs[..0] == [];
    } else {
      assert cs[..k] == [cs[0]] + cs[1..][..k - 1];
      assert Flatten(cs[..k]) == cs[0] + Flatten(cs[1..][..k - 1]);
      ChunkOffset(cs[1..], k - 1, j);
    }
  }

  /** What the loop collects: the payloads of the Data packets it went on
      after, the bytes the packet that ended it stored at the next offset (its
      whole payload when it was read whole, the part that arrived when it was
      cut short, none when it was refused), and that packet's type when it got
      past the header checks. */
  datatype Reassembly = Reassembly(chunks: seq<seq<uint8>>, tail: seq<uint8>, last: Option<uint8>)

  /** Reassembly of the stream `s` into a buffer with `room` free bytes, when
      the transport never stalls. */
  function Reassemble(s: seq<uint8>, address: uint32, room: nat): (r: Reassembly)
    ensures |r.tail| <= room
    ensures r.last.Some? ==> TypeAccepted(r.last.value)
    decreases |s|, 1
  {
    ReassembleNext(s, address, room)
  }

  /** One packet of `Reassemble`, apart from it so that each use of
      `Reassemble` looks one packet ahead and no further. */
  function ReassembleNext(s: seq<uint8>, address: uint32, room: nat): (r: Reassembly)
    ensures |r.tail| <= room
    ensures r.last.Some? ==> TypeAccepted(r.last.value)
    decreases |s|, 0
  {
    var p := Receive(s, address, DataMode(room));
    if p.status == RxOk && p.packetType == Some(PID_DATA) then
      var rest := Reassemble(s[p.consumed..], address, room - |p.payload|);
      Reassembly([p.payload] + rest.chunks, rest.tail, rest.last)
    else
      Reassembly([], Stored(s, address, DataMode(room)), p.packetType)
  }

  /** Everything reassembly stores, the chunks and the tail after them,
      fits the room it started with: with the length guard, no packet
      writes past the end of the buffer. */
  lemma {:induction false} ReassembleFits(s: seq<uint8>, address: uint32, room: nat)
    ensures var r := Reassemble(s, address, room); |Flatten(r.chunks)| + |r.tail| <= room
    decreases |s|
  {
    var p := Receive(s, address, DataMode(room));
    if p.status == RxOk && p.packetType == Some(PID_DATA) {
      var rest := Reassemble(s[p.consumed..], address, room - |p.payload|);
      ReassembleFits(s[p.consumed..], address, room - |p.payload|);
      assert ([p.payload] + rest.chunks)[1..] == rest.chunks;
      assert Flatten([p.payload] + rest.chunks) == p.payload + Flatten(rest.chunks);
    }
  }

  /** The chunks `cs` gone past before reassembly goes on to `r`. */
  function Prepend(cs: seq<seq<uint8>>, r: Reassembly): (p: Reassembly)
    ensures p.tail == r.tail && p.last == r.last
  {
    Reassembly(cs + r.chunks, r.tail, r.last)
  }

  /** Reassembly of the whole stream came to `total`, having gone past
      `chunks` and going on as reassembly of `s` with `room` bytes left. The
      reassembly of `s` is named by a bound variable so that this relation can
      be passed along without unfolding `Reassemble`. */
  ghost predicate Resumes(total: Reassembly, chunks: seq<seq<uint8>>, s: seq<uint8>, address: uint32, room: nat)
  {
    forall r {:trigger Prepend(chunks, r)} :: r == Reassemble(s, address, room) ==> total == Prepend(chunks, r)
  }

  lemma PrependAppend(cs: seq<seq<uint8>>, c: seq<uint8>, r: Reassembly)
    ensures Prepend(cs, Prepend([c], r)) == Prepend(cs + [c], r)
  {
    assert cs + ([c] + r.chunks) == (cs + [c]) + r.chunks;
  }

  /** Reassembly that has gone past `chunks` and stands at `cur` goes past one
      more chunk when the next packet is a Data packet received OK. */
  lemma ReassembleGoesOn(total: Reassembly, chunks: seq<seq<uint8>>, cur: seq<uint8>, address: uint32, room: nat,
                         p: Reception)
    requires p == Receive(cur, address, DataMode(room))
    requires p.status == RxOk && p.packetType == Some(PID_DATA)
    requires total == Prepend(chunks, Reassemble(cur, address, room))
    ensures |p.payload| <= room
    ensures total == Prepend(chunks + [p.payload], Reassemble(cur[p.consumed..], address, room - |p.payload|))
  {
    var next := Reassemble(cur[p.consumed..], address, room - |p.payload|);
    assert Reassemble(cur, address, room) == Prepend([p.payload], next);
    PrependAppend(chunks, p.payload, next);
  }

  /** Any other packet ends reassembly: its payload is the tail when it was
      read whole, and its type is the last type seen. */
  lemma ReassembleEnds(total: Reassembly, chunks: seq<seq<uint8>>, cur: seq<uint8>, address: uint32, room: nat,
                       p: Reception)
    requires p == Receive(cur, address, DataMode(room))
    requires !(p.status == RxOk && p.packetType == Some(PID_DATA))
    requires total == Prepend(chunks, Reassemble(cur, address, room))
    ensures total.chunks == chunks && total.last == p.packetType
    ensures total.tail == Stored(cur, address, DataMode(room))
  {
    assert Reassemble(cur, address, room).chunks == [];
  }

  /** `rxPacketType` after the loop: the type of the packet that ended it, or
      Data when that packet failed its header checks after at least one Data
      packet, or the value from before. */
  function EndType(r: Reassembly, previous: uint8): uint8
  {
    if r.last.Some? then r.last.value else if r.chunks != [] then PID_DATA else previous
  }

  /** The result of the loop as both callers report it. */
  function StreamCode(r: Reassembly, previous: uint8): (c: uint8)
    ensures c == RESP_OK <==> EndType(r, previous) == PID_ENDDATA
    ensures c == RESP_OK || c == RESP_RECIEVEERR
  {
    if EndType(r, previous) == PID_ENDDATA then RESP_OK else RESP_RECIEVEERR
  }

  /** All chunks fit into a 16-bit length field with their checksum. */
  predicate ChunksSendable(chunks: seq<seq<uint8>>)
  {
    chunks == [] || (|chunks[0]| + 3 < TWO_TO_THE_16 && ChunksSendable(chunks[1..]))
  }

  /** The module's side: each chunk in its own Data packet, followed by
      `after`. */
  function DataFramesThen(address: uint32, chunks: seq<seq<uint8>>, after: seq<uint8>): seq<uint8>
    requires ChunksSendable(chunks)
  {
    if chunks == [] then after
    else EncodeReply(address, PID_DATA, None, chunks[0]) + DataFramesThen(address, chunks[1..], after)
  }

  /** A Data packet received OK is the next chunk; reassembly goes on after it
      with that much less room. */
  lemma ReassembleStep(s: seq<uint8>, address: uint32, room: nat)
    requires Receive(s, address, DataMode(room)).status == RxOk
    requires Receive(s, address, DataMode(room)).packetType == Some(PID_DATA)
    ensures var p := Receive(s, address, DataMode(room));
            var rest := Reassemble(s[p.consumed..], address, room - |p.payload|);
            Reassemble(s, address, room) == Reassembly([p.payload] + rest.chunks, rest.tail, rest.last)
  {
  }

  /** One well-formed Data packet contributes its payload as the next chunk. */
  lemma ReassembleDataReply(address: uint32, c: seq<uint8>, tail: seq<uint8>, room: nat)
    requires |c| + 3 < TWO_TO_THE_16 && |c| <= room
    ensures var rest := Reassemble(tail, address, room - |c|);
            Reassemble(EncodeReply(address, PID_DATA, None, c) + tail, address, room)
            == Reassembly([c] + rest.chunks, rest.tail, rest.last)
  {
    var f := EncodeReply(address, PID_DATA, None, c);
    var s := f + tail;
    ReceiveReply(address, PID_DATA, None, c, tail, DataMode(room));
    ReassembleStep(s, address, room);
    assert s[|f|..] == tail;
  }

  /** A well-formed EndData packet ends the loop with its payload stored. */
  lemma ReassembleEndReply(address: uint32, last: seq<uint8>, rest: seq<uint8>, room: nat)
    requires |last| + 3 < TWO_TO_THE_16 && |last| <= room
    ensures Reassemble(EncodeReply(address, PID_ENDDATA, None, last) + rest, address, room)
            == Reassembly([], last, Some(PID_ENDDATA))
  {
    ReceiveReply(address, PID_ENDDATA, None, last, rest, DataMode(room));
  }

  /** Data packets followed by an EndData packet, from the expected address and
      within the buffer, are reassembled to exactly their payloads, and the
      loop ends on the EndData packet. */
  lemma {:induction false} StreamRoundTrip(address: uint32, chunks: seq<seq<uint8>>, last: seq<uint8>,
                                           rest: seq<uint8>, room: nat)
    requires ChunksSendable(chunks) && |last| + 3 < TWO_TO_THE_16
    requires |Flatten(chunks)| + |last| <= room
    ensures Reassemble(DataFramesThen(address, chunks, EncodeReply(address, PID_ENDDATA, None, last) + rest),
                       address, room)
            == Reassembly(chunks, last, Some(PID_ENDDATA))
    decreases |chunks|
  {
    var after := EncodeReply(address, PID_ENDDATA, None, last) + rest;
    if chunks == [] {
      ReassembleEndReply(address, last, rest, room);
    } else {
      var c := chunks[0];
      var tail := DataFramesThen(address, chunks[1..], after);
      FramesCons(address, chunks, after);
      StreamRoundTrip(address, chunks[1..], last, rest, room - |c|);
      RoundTripStep(address, c, chunks[1..], last, tail, room);
    }
  }

  /** The first chunk's frame, then the frames of the others. */
  lemma FramesCons(address: uint32, chunks: seq<seq<uint8>>, after: seq<uint8>)
    requires ChunksSendable(chunks) && chunks != []
    ensures ChunksSendable(chunks[1..]) && |chunks[0]| + 3 < TWO_TO_THE_16
    ensures DataFramesThen(address, chunks, after)
            == EncodeReply(address, PID_DATA, None, chunks[0]) + DataFramesThen(address, chunks[1..], after)
    ensures Flatten(chunks) == chunks[0] + Flatten(chunks[1..])
    ensures [chunks[0]] + chunks[1..] == chunks
  {
  }

  /** The inductive step of `StreamRoundTrip`: one more Data packet in front
      adds its payload as the first chunk. */
  lemma RoundTripStep(address: uint32, c: seq<uint8>, chunks: seq<seq<uint8>>, last: seq<uint8>, tail: seq<uint8>,
                      room: nat)
    requires |c| + 3 < TWO_TO_THE_16 && |c| <= room
    requires Reassemble(tail, address, room - |c|) == Reassembly(chunks, last, Some(PID_ENDDATA))
    ensures Reassemble(EncodeReply(address, PID_DATA, None, c) + tail, address, room)
            == Reassembly([c] + chunks, last, Some(PID_ENDDATA))
  {
    ReassembleDataReply(address, c, tail, room);
  }

  /** `rxPacketType` is stored before the checksum is checked, so an EndData
      packet whose body was corrupted in transit still ends the loop as a
      completed transfer. */
  lemma CorruptedEndStillCompletes(address: uint32, last: seq<uint8>, rest: seq<uint8>, room: nat, previous: uint8,
                                   i: nat, v: uint8)
    requires |last| + 3 < TWO_TO_THE_16 && |last| <= room
    requires 9 <= i < |EncodeReply(address, PID_ENDDATA, None, last)| - 2
    requires v != EncodeReply(address, PID_ENDDATA, None, last)[i]
    ensures var s := (EncodeReply(address, PID_ENDDATA, None, last) + rest)[i := v];
            && Receive(s, address, DataMode(room)).status == WrongChecksum
            && StreamCode(Reassemble(s, address, room), previous) == RESP_OK
  {
    var f := EncodeReply(address, PID_ENDDATA, None, last);
    CorruptedReplyRejected(address, PID_ENDDATA, None, last, rest, DataMode(room), i, v);
    ReceiveReply(address, PID_ENDDATA, None, last, rest, DataMode(room));
    var s := (f + rest)[i := v];
    assert s[..9] == (f + rest)[..9];
  }
}
