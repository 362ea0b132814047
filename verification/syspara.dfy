/** The system-parameter block `readSysPara` decodes from the start of the
    reassembled buffer, and the packet-size code it maps to a data length. */
module SysPara {
  import opened Bytes

  /** The fields the driver takes from bytes 4..15, all big-endian. Bytes 0..3
      are not read. */
  datatype SysPara = SysPara(templateCount: uint16, securityLevel: uint16, address: uint32,
                             lengthCode: uint16, baudMultiplier: uint16)

  /** Bytes 4-5 template count, 6-7 security level, 8-11 address, 12-13
      packet-size code, 14-15 baud multiplier. */
  function DecodeSysPara(b: seq<uint8>): (p: SysPara)
    requires |b| >= 16
    ensures EncodeSysPara(p)[4..] == b[4..16]
  {
    var p := SysPara(Be16(b[4], b[5]), Be16(b[6], b[7]), Be32(b[8], b[9], b[10], b[11]),
                     Be16(b[12], b[13]), Be16(b[14], b[15]));
    Be16Injective(Be16Bytes(p.templateCount)[0], Be16Bytes(p.templateCount)[1], b[4], b[5]);
    Be16Injective(Be16Bytes(p.securityLevel)[0], Be16Bytes(p.securityLevel)[1], b[6], b[7]);
    Be32Injective(Be32Bytes(p.address), b[8..12]);
    Be16Injective(Be16Bytes(p.lengthCode)[0], Be16Bytes(p.lengthCode)[1], b[12], b[13]);
    Be16Injective(Be16Bytes(p.baudMultiplier)[0], Be16Bytes(p.baudMultiplier)[1], b[14], b[15]);
    assert EncodeSysPara(p)[4..] == b[4..16];
    p
  }

  /** The module's side of the block, with the four bytes the driver ignores
      set to zero. */
  function EncodeSysPara(p: SysPara): (b: seq<uint8>)
    ensures |b| == 16
  {
    [0, 0, 0, 0] + Be16Bytes(p.templateCount) + Be16Bytes(p.securityLevel) + Be32Bytes(p.address)
      + Be16Bytes(p.lengthCode) + Be16Bytes(p.baudMultiplier)
  }

  /** Every block reads back as the parameters it was built from, whatever
      follows it in the buffer. */
  lemma DecodeEncode(p: SysPara, rest: seq<uint8>)
    ensures DecodeSysPara(EncodeSysPara(p) + rest) == p
  {
    var b := EncodeSysPara(p) + rest;
    var q := DecodeSysPara(b);
    assert b[8..12] == Be32Bytes(p.address);
    Be32Injective(Be32Bytes(q.address), Be32Bytes(p.address));
  }

  /** The data length a packet-size code stands for; other codes leave the
      stored length unchanged. */
  function PacketLength(code: uint16): (n: Option<uint16>)
    ensures n.Some? <==> code <= 3
    ensures n.Some? ==> n.value == 32 * Pow2(code)
  {
    if code == 0 then Some(32)
    else if code == 1 then Some(64)
    else if code == 2 then Some(128)
    else if code == 3 then Some(256)
    else None
  }

  function Pow2(n: nat): nat
  {
    if n == 0 then 1 else 2 * Pow2(n - 1)
  }

  /** The code `setDataLength` sends for a data length: 32, 64, 128 and 256
      are the only lengths it accepts. */
  function DataLengthCode(length: uint16): (code: Option<uint8>)
    ensures code.Some? <==> length == 32 || length == 64 || length == 128 || length == 256
  {
    if length == 32 then Some(0)
    else if length == 64 then Some(1)
    else if length == 128 then Some(2)
    else if length == 256 then Some(3)
    else None
  }

  /** The two tables are inverse to each other: a length `setDataLength`
      accepts maps to a code that `readSysPara` maps back to that length, and
      every code it maps comes from such a length. */
  lemma LengthCodeRoundTrip(length: uint16, code: uint16)
    ensures DataLengthCode(length).Some? ==> PacketLength(DataLengthCode(length).value) == Some(length)
    ensures PacketLength(code).Some? ==> DataLengthCode(PacketLength(code).value) == Some(code)
  {
  }
}
