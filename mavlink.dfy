/**
 * The parts of the MAVLink C library the firmware relies on, seen from the
 * outside: the decoded message, the streaming parser's status record and
 * the parser itself as an abstract step function from (status, byte) to
 * (status, completed frame or nothing). Message ids and flag values are
 * those of the MAVLink "common" message set.
 */
module Mavlink {
  import opened Common

  const MSG_ID_HEARTBEAT: u32 := 0
  const MSG_ID_SYS_STATUS: u32 := 1
  const MSG_ID_GPS_RAW_INT: u32 := 24
  const MSG_ID_ATTITUDE: u32 := 30

  /** `MAV_MODE_FLAG_SAFETY_ARMED` in HEARTBEAT's `base_mode`. */
  const MAV_MODE_FLAG_SAFETY_ARMED: bv8 := 0x80

  /** `UINT16_MAX` in SYS_STATUS's `voltage_battery`: voltage not known. */
  const VOLTAGE_UNKNOWN: u16 := 0xFFFF

  /**
   * The payload fields the firmware reads through the library's
   * `mavlink_msg_*_decode` functions: HEARTBEAT's `base_mode`,
   * SYS_STATUS's `voltage_battery` (millivolts) and GPS_RAW_INT's
   * `fix_type` and `satellites_visible`.
   */
  datatype Payload = Payload(baseMode: byte, voltageBattery: u16, fixType: byte, satellitesVisible: byte)

  /** `mavlink_message_t`: a 24-bit message id, the sender and the payload. */
  datatype Frame = Frame(msgid: u32, sysid: byte, compid: byte, payload: Payload)

  /**
   * `mavlink_status_t`: the three fields the firmware resets, and the rest
   * of the parser's private state.
   */
  datatype MavStatus = MavStatus(parseState: nat, packetRxSuccessCount: u16, packetRxDropCount: u16,
                                 internal: seq<int>)

  /** What `mavlink_parse_char` leaves behind for one byte. */
  datatype Step = Step(status: MavStatus, frame: Option<Frame>)

  /** `mavlink_parse_char` on one channel: deterministic in its status and the byte. */
  type Parser = (MavStatus, byte) -> Step

  /** `(base_mode & MAV_MODE_FLAG_SAFETY_ARMED) != 0`. */
  function Armed(baseMode: byte): (armed: bool)
  {
    (baseMode as bv8) & MAV_MODE_FLAG_SAFETY_ARMED != 0
  }

  /** The armed flag is the top bit of `base_mode`. */
  lemma ArmedIsTopBit(baseMode: byte)
    ensures Armed(baseMode) <==> baseMode >= 128
  {
    var b := baseMode as bv8;
    if baseMode >= 128 {
      assert b >= 0x80;
    } else {
      assert b < 0x80;
    }
  }
}
