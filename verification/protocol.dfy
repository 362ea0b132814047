/** The constants of the R30X wire protocol and of the driver's session
    (source/R30X_FPS.h), and the receive-status codes the two frame receivers
    report. */
module Protocol {
  import opened Bytes

  // Start code EF 01
  const START_HI: uint8 := 0xEF
  const START_LO: uint8 := 0x01

  // Packet identifiers
  const PID_COMMAND: uint8 := 0x01
  const PID_DATA: uint8 := 0x02
  const PID_ACK: uint8 := 0x07
  const PID_ENDDATA: uint8 := 0x08

  // Response codes used by the core
  const RESP_OK: uint8 := 0x00
  const RESP_RECIEVEERR: uint8 := 0x01
  const BAD_VALUE: uint8 := 0x1F

  // Command opcodes
  const CMD_IMAGETOCHARACTER: uint8 := 0x02
  const CMD_STORETEMPLATE: uint8 := 0x06
  const CMD_LOADTEMPLATE: uint8 := 0x07
  const CMD_EXPORTIMAGE: uint8 := 0x0A
  const CMD_DELETETEMPLATE: uint8 := 0x0C
  const CMD_SETSYSPARA: uint8 := 0x0E
  const CMD_SETPASSWORD: uint8 := 0x12
  const CMD_VERIFYPASSWORD: uint8 := 0x13
  const CMD_GETRANDOMCODE: uint8 := 0x14
  const CMD_SETDEVICEADDRESS: uint8 := 0x15
  const CMD_READALL_SYSPARA: uint8 := 0x16
  const CMD_PORTCONTROL: uint8 := 0x17
  const CMD_HISPEEDSEARCH: uint8 := 0x1B
  const CMD_TEMPLATECOUNT: uint8 := 0x1D
  const CMD_SCANANDRANGESEARCH: uint8 := 0x32
  const CMD_SCANANDFULLSEARCH: uint8 := 0x34

  // Session defaults
  const DEFAULT_TIMEOUT: uint32 := 1000
  const DEFAULT_BAUDRATE: uint32 := 57600
  const RX_DATA_LENGTH: nat := 16
  const DEFAULT_SECURITY_LEVEL: uint16 := 3
  const DEFAULT_PASSWORD: uint32 := 0x0000_0000
  const DEFAULT_ADDRESS: uint32 := 0xFFFF_FFFF

  /** Outcome of one receive attempt (FPS_RX_OK .. FPS_RX_WRONG_CHECKSUM). */
  datatype RxStatus = RxOk | BadPacket | WrongAddress | WrongResponse | Timeout | WrongChecksum
  {
    /** The status byte the C receivers return. */
    function Code(): (c: uint8)
      ensures c <= 5
      ensures c == 0 <==> this == RxOk
    {
      match this
      case RxOk => 0x00
      case BadPacket => 0x01
      case WrongAddress => 0x02
      case WrongResponse => 0x03
      case Timeout => 0x04
      case WrongChecksum => 0x05
    }
  }

  /** The receivers accept Data, Ack and EndData packets and nothing else. */
  predicate TypeAccepted(t: uint8)
  {
    t == PID_DATA || t == PID_ACK || t == PID_ENDDATA
  }
}
