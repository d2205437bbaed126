/**
 * `TelemetryState`, the vehicle state the telemetry module keeps from the
 * MAVLink messages it sees, shared by the telemetry module, the summary
 * aggregator (which logs it) and the health rules (which judge it).
 */
module TelemetryData {
  import opened Common

  /**
   * `TelemetryState`. The battery voltage is kept as the millivolt reading of
   * SYS_STATUS it is computed from (the firmware stores it as a float number
   * of volts, `batteryMv * 0.001`).
   */
  datatype TelemetryState = TelemetryState(
    sysid: byte,
    compid: byte,
    lastHbMs: u32,
    hbCount: u32,
    armed: bool,
    hasBattery: bool,
    batteryMv: u16,
    hasGps: bool,
    gpsFixType: byte,
    gpsSatsVisible: byte,
    lastMsgMs: u32,
    msgCount: u32)

  /** The all-zero state `memset` leaves behind. */
  const ZERO_STATE: TelemetryState := TelemetryState(0, 0, 0, 0, false, false, 0, false, 0, 0, 0, 0)

  /** Time since `sinceMs` with wrapping subtraction, or `0xFFFFFFFF` ("never") when `sinceMs` is 0. */
  function Elapsed(nowMs: u32, sinceMs: u32): (dt: u32)
    ensures sinceMs == 0 ==> dt as int == U32_MOD - 1
    ensures sinceMs != 0 ==> Add32(sinceMs, dt as int) == nowMs
  {
    if sinceMs == 0 then 0xFFFF_FFFF else Sub32(nowMs, sinceMs)
  }
}
