/** The argument checks the commands make before anything is sent, the data
    they send, and the fields they read back out of the 16-byte rxDataBuffer
    of an acknowledgement. */
module Commands {
  import opened Bytes

  // ------------------------------------------------------- argument checks

  /** `setBaudrate` keeps `baud / 9600` in a uint8, so the quotient is taken
      modulo 256 before it is checked. */
  function BaudNumber(baud: uint32): (n: uint8)
    ensures baud < 256 * 9600 ==> n * 9600 <= baud < (n + 1) * 9600
  {
    (baud / 9600) % 0x100
  }

  /** Multipliers 1 (9600 bps) to 12 (115200 bps). Below the truncation
      point these are exactly the rates from 9600 up to 13 * 9600. */
  predicate BaudAccepted(baud: uint32)
    ensures baud < 256 * 9600 ==> (BaudAccepted(baud) <==> 9600 <= baud < 13 * 9600)
  {
    0 < BaudNumber(baud) < 13
  }

  /** Every rate from 9600 to 115200 in steps of 9600 is accepted and sent as
      its multiplier; rates in between are rounded down. */
  lemma BaudRatesAccepted(baud: uint32)
    requires 9600 <= baud < 13 * 9600
    ensures BaudAccepted(baud) && BaudNumber(baud) * 9600 <= baud < BaudNumber(baud) * 9600 + 9600
  {
  }

  /** Because of the truncation, a rate of 257 * 9600 passes the check and is
      sent as multiplier 1. */
  lemma BaudTruncation()
    ensures BaudAccepted(257 * 9600) && BaudNumber(257 * 9600) == 1
  {
  }

  predicate SecurityLevelAccepted(level: uint8)
  {
    0 < level < 6
  }

  predicate PortValueAccepted(value: uint8)
  {
    value == 0 || value == 1
  }

  /** The two character buffers, 1 and 2 (`generateCharacter`,
      `searchLibrary`, and `saveTemplate`/`loadTemplate` as 0 < id < 3). */
  predicate BufferIdAccepted(bufferId: uint8)
  {
    bufferId == 1 || bufferId == 2
  }

  /** `saveTemplate`, `loadTemplate`: a location from 1 to the template count. */
  predicate LocationAccepted(location: uint16, templateCount: uint16)
  {
    1 <= location <= templateCount
  }

  /** `deleteTemplate`: a start location from 1 to the template count, and a
      range that does not pass the template count. */
  predicate DeleteRangeAccepted(startLocation: uint16, count: uint16, templateCount: uint16)
  {
    LocationAccepted(startLocation, templateCount) && count + startLocation <= templateCount + 1
  }

  /** Every location an accepted deletion touches is an existing one. */
  lemma DeleteRangeInLibrary(startLocation: uint16, count: uint16, templateCount: uint16, location: int)
    requires DeleteRangeAccepted(startLocation, count, templateCount)
    requires startLocation <= location < startLocation + count
    ensures LocationAccepted(location as uint16, templateCount)
  {
  }

  /** `searchLibrary`: a buffer id, a start location no greater than the
      template count, and a range that ends within it. */
  predicate SearchRangeAccepted(bufferId: uint8, startLocation: uint16, count: uint16, templateCount: uint16)
  {
    BufferIdAccepted(bufferId) && startLocation <= templateCount && startLocation + count <= templateCount
  }

  /** The locations an accepted search covers lie below the template count. */
  lemma SearchRangeInLibrary(bufferId: uint8, startLocation: uint16, count: uint16, templateCount: uint16,
                             location: int)
    requires SearchRangeAccepted(bufferId, startLocation, count, templateCount)
    requires startLocation <= location < startLocation + count
    ensures 0 <= location < templateCount
  {
  }

  /** `captureAndRangeSearch`: a capture timeout of at most 25500, a start
      location no greater than the template count, and a range that ends by
      location 1001. */
  predicate RangeSearchAccepted(captureTimeout: uint16, startLocation: uint16, count: uint16, templateCount: uint16)
  {
    captureTimeout <= 25500 && startLocation <= templateCount && startLocation + count <= 1001
  }

  // ------------------------------------------------------------ data sent

  /** `saveTemplate`, `loadTemplate`: buffer id, then the location high byte
      first. */
  function TemplateSlotData(bufferId: uint8, location: uint16): (d: seq<uint8>)
    ensures |d| == 3 && d[0] == bufferId && Be16(d[1], d[2]) == location
  {
    [bufferId] + Be16Bytes(location)
  }

  /** `deleteTemplate`: start location, then count, both high byte first. */
  function DeleteData(startLocation: uint16, count: uint16): (d: seq<uint8>)
    ensures |d| == 4 && Be16(d[0], d[1]) == startLocation && Be16(d[2], d[3]) == count
  {
    Be16Bytes(startLocation) + Be16Bytes(count)
  }

  /** `searchLibrary`: buffer id, start location, count, high bytes first. */
  function SearchData(bufferId: uint8, startLocation: uint16, count: uint16): (d: seq<uint8>)
    ensures |d| == 5 && d[0] == bufferId && Be16(d[1], d[2]) == startLocation && Be16(d[3], d[4]) == count
  {
    [bufferId] + Be16Bytes(startLocation) + Be16Bytes(count)
  }

  /** `captureAndRangeSearch` fills its array from the end: the count low
      byte first, then `startLocation - 1` low byte first (computed in int and
      masked, so a start of 0 becomes 0xFFFF), then the capture timeout in
      units of 140. */
  function RangeSearchData(captureTimeout: uint16, startLocation: uint16, count: uint16): (d: seq<uint8>)
    requires captureTimeout <= 25500
    ensures |d| == 5 && Le16(d[0], d[1]) == count
    ensures Le16(d[2], d[3]) == if startLocation == 0 then 0xFFFF else startLocation - 1
    ensures (d[4] as int) * 140 <= captureTimeout < (d[4] as int) * 140 + 140
  {
    Le16Bytes(count) + Le16Bytes((startLocation - 1) % TWO_TO_THE_16) + [captureTimeout / 140]
  }

  // ------------------------------------------------------ fields read back

  /** A search result: the location found and the match score. */
  datatype Match = Match(fingerId: uint16, matchScore: uint16)

  /** `getTemplateCount`: the count low byte first. */
  function TemplateCountOf(b: seq<uint8>): (n: uint16)
    requires |b| >= 2
    ensures Le16Bytes(n) == b[..2]
  {
    var n := Le16(b[0], b[1]);
    Le16Injective(Le16Bytes(n)[0], Le16Bytes(n)[1], b[0], b[1]);
    n
  }

  /** `captureAndFullSearch`: score in bytes 0-1 and location in bytes 2-3,
      low byte first; the location is reported one higher (it counts from 1),
      in a uint16, so 0xFFFF wraps to 0. */
  function FullSearchMatch(b: seq<uint8>): (m: Match)
    requires |b| >= 4
    ensures Le16Bytes(m.matchScore) == b[..2]
    ensures Le16Bytes(if m.fingerId == 0 then 0xFFFF else m.fingerId - 1) == b[2..4]
  {
    var id := Le16(b[2], b[3]);
    var m := Match(if id == 0xFFFF then 0 else id + 1, Le16(b[0], b[1]));
    Le16Injective(Le16Bytes(m.matchScore)[0], Le16Bytes(m.matchScore)[1], b[0], b[1]);
    Le16Injective(Le16Bytes(id)[0], Le16Bytes(id)[1], b[2], b[3]);
    m
  }

  /** `captureAndRangeSearch`: the same fields, the location as sent. */
  function RangeSearchMatch(b: seq<uint8>): (m: Match)
    requires |b| >= 4
    ensures Le16Bytes(m.matchScore) == b[..2] && Le16Bytes(m.fingerId) == b[2..4]
  {
    var m := Match(Le16(b[2], b[3]), Le16(b[0], b[1]));
    Le16Injective(Le16Bytes(m.matchScore)[0], Le16Bytes(m.matchScore)[1], b[0], b[1]);
    Le16Injective(Le16Bytes(m.fingerId)[0], Le16Bytes(m.fingerId)[1], b[2], b[3]);
    m
  }

  /** `searchLibrary`: location in bytes 0-1 and score in bytes 2-3, high byte
      first. */
  function LibrarySearchMatch(b: seq<uint8>): (m: Match)
    requires |b| >= 4
    ensures Be16Bytes(m.fingerId) == b[..2] && Be16Bytes(m.matchScore) == b[2..4]
  {
    var m := Match(Be16(b[0], b[1]), Be16(b[2], b[3]));
    Be16Injective(Be16Bytes(m.fingerId)[0], Be16Bytes(m.fingerId)[1], b[0], b[1]);
    Be16Injective(Be16Bytes(m.matchScore)[0], Be16Bytes(m.matchScore)[1], b[2], b[3]);
    m
  }

  /** `generateRandomNumber`: four bytes, least significant first. */
  function RandomNumberOf(b: seq<uint8>): (r: uint32)
    requires |b| >= 4
    ensures Le32Bytes(r) == b[..4]
  {
    var r := Le32(b[0], b[1], b[2], b[3]);
    Le32Injective(Le32Bytes(r), b[..4]);
    r
  }
}
