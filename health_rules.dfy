/**
 * Health rules: a three-level verdict (OK, WARN, CRIT) on the telemetry
 * state from link age, heartbeat age, battery voltage and GPS fix, and a
 * `HEALTH` log line at most once per second.
 *
 * The battery voltage is a float in the firmware; its two comparisons
 * against the warning and critical thresholds enter the model as the
 * booleans `battLeCrit` (`voltage <= 10.5 V`) and `battLeWarn`
 * (`voltage <= 10.8 V`). Because 10.5 V is below 10.8 V, the firmware
 * never produces `battLeCrit` without `battLeWarn`; the model leaves the
 * two flags independent, so every rule and lemma here also holds for the
 * pairs the firmware cannot produce.
 */
module HealthRules {
  import opened Common
  import opened TelemetryData

  const LOG_PERIOD_MS: u32 := 1000
  const HEARTBEAT_WARN_MS: u32 := 2000
  /** Defined by the firmware but used by no rule: a stale heartbeat alone never makes CRIT. */
  const HEARTBEAT_CRIT_MS: u32 := 5000
  const LINK_WARN_MS: u32 := 2000
  const LINK_CRIT_MS: u32 := 5000

  /** `HealthLevel`, ordered `Ok < Warn < Crit`. */
  datatype HealthLevel = Ok | Warn | Crit

  /** The enum's numeric value. */
  function Rank(l: HealthLevel): (r: nat)
    ensures r <= 2
  {
    match l
    case Ok => 0
    case Warn => 1
    case Crit => 2
  }

  /** The more severe of two levels. */
  function Worse(a: HealthLevel, b: HealthLevel): (w: HealthLevel)
    ensures Rank(w) >= Rank(a) && Rank(w) >= Rank(b) && (w == a || w == b)
  {
    if Rank(a) >= Rank(b) then a else b
  }

  /** `level < HEALTH_WARN ? HEALTH_WARN : level`. */
  function AtLeastWarn(l: HealthLevel): (w: HealthLevel)
    ensures w == Worse(l, Warn)
  {
    if Rank(l) < Rank(Warn) then Warn else l
  }

  /**
   * HealthRules_Evaluate, rule by rule as the firmware applies them to its
   * running `level`: no state is CRIT; link age sets CRIT (5 s) or WARN
   * (2 s); a stale heartbeat (2 s) raises to WARN unless already CRIT; a
   * critical battery sets CRIT and a low one raises to WARN; a GPS without
   * a 2D fix raises to WARN.
   */
  function Evaluate(t: Option<TelemetryState>, nowMs: u32, battLeCrit: bool, battLeWarn: bool): (l: HealthLevel)
    ensures t.None? ==> l == Crit
  {
    match t
    case None => Crit
    case Some(s) =>
      var dtHb := Elapsed(nowMs, s.lastHbMs);
      var dtLink := Elapsed(nowMs, s.lastMsgMs);
      var l0 := if dtLink >= LINK_CRIT_MS then Crit else if dtLink >= LINK_WARN_MS then Warn else Ok;
      var l1 := if l0 != Crit && dtHb >= HEARTBEAT_WARN_MS then AtLeastWarn(l0) else l0;
      var l2 := if !s.hasBattery then l1
                else if battLeCrit then Crit
                else if battLeWarn then AtLeastWarn(l1)
                else l1;
      var l3 := if s.hasGps && s.gpsFixType < 2 then AtLeastWarn(l2) else l2;
      l3
  }

  /** The link rule on its own: CRIT after 5 s without a message, WARN after 2 s. */
  function LinkLevel(dtLink: u32): HealthLevel
  {
    if dtLink >= LINK_CRIT_MS then Crit else if dtLink >= LINK_WARN_MS then Warn else Ok
  }

  /** The heartbeat rule on its own: never more than WARN. */
  function HeartbeatLevel(dtHb: u32): HealthLevel
  {
    if dtHb >= HEARTBEAT_WARN_MS then Warn else Ok
  }

  /** The battery rule on its own, only when a voltage is known. */
  function BatteryLevel(hasBattery: bool, battLeCrit: bool, battLeWarn: bool): HealthLevel
  {
    if !hasBattery then Ok else if battLeCrit then Crit else if battLeWarn then Warn else Ok
  }

  /** The GPS rule on its own: WARN without a 2D fix, only when GPS is reported. */
  function GpsLevel(hasGps: bool, fixType: byte): HealthLevel
  {
    if hasGps && fixType < 2 then Warn else Ok
  }

  /** The verdict is the most severe of the four rules taken separately. */
  lemma EvaluateIsWorst(s: TelemetryState, nowMs: u32, battLeCrit: bool, battLeWarn: bool)
    ensures Evaluate(Some(s), nowMs, battLeCrit, battLeWarn) ==
      Worse(Worse(LinkLevel(Elapsed(nowMs, s.lastMsgMs)), HeartbeatLevel(Elapsed(nowMs, s.lastHbMs))),
            Worse(BatteryLevel(s.hasBattery, battLeCrit, battLeWarn), GpsLevel(s.hasGps, s.gpsFixType)))
  {
  }

  /** A link with no message yet, or silent for 5 s, is CRIT whatever else holds. */
  lemma SilentLinkIsCritical(s: TelemetryState, nowMs: u32, battLeCrit: bool, battLeWarn: bool)
    requires s.lastMsgMs == 0 || Sub32(nowMs, s.lastMsgMs) >= LINK_CRIT_MS
    ensures Evaluate(Some(s), nowMs, battLeCrit, battLeWarn) == Crit
  {
  }

  /**
   * While the link is alive, only a critical battery makes the verdict
   * CRIT: a stale heartbeat or a missing fix never does.
   */
  lemma CriticalNeedsLinkOrBattery(s: TelemetryState, nowMs: u32, battLeCrit: bool, battLeWarn: bool)
    requires Evaluate(Some(s), nowMs, battLeCrit, battLeWarn) == Crit
    ensures s.lastMsgMs == 0 || Sub32(nowMs, s.lastMsgMs) >= LINK_CRIT_MS || (s.hasBattery && battLeCrit)
  {
  }

  /** OK exactly when every rule is quiet. */
  lemma OkWhenAllQuiet(s: TelemetryState, nowMs: u32, battLeCrit: bool, battLeWarn: bool)
    ensures Evaluate(Some(s), nowMs, battLeCrit, battLeWarn) == Ok <==>
      Elapsed(nowMs, s.lastMsgMs) < LINK_WARN_MS && Elapsed(nowMs, s.lastHbMs) < HEARTBEAT_WARN_MS &&
      (!s.hasBattery || (!battLeCrit && !battLeWarn)) && !(s.hasGps && s.gpsFixType < 2)
  {
    EvaluateIsWorst(s, nowMs, battLeCrit, battLeWarn);
  }

  /**
   * HealthRules_LevelToStr over the level's numeric value: the three
   * levels by name, and "UNK" for any value outside the enum.
   */
  function LevelToStr(code: int): (s: string)
    ensures s == "UNK" <==> code !in {0, 1, 2}
    ensures |s| >= 2
  {
    if code == 0 then "OK"
    else if code == 1 then "WARN"
    else if code == 2 then "CRIT"
    else "UNK"
  }

  /** Each level has its own name in the log line, and none of them reads "UNK". */
  lemma LevelToStrInjective(a: HealthLevel, b: HealthLevel)
    ensures LevelToStr(Rank(a)) == LevelToStr(Rank(b)) ==> a == b
    ensures LevelToStr(Rank(a)) != "UNK"
  {
  }

  /**
   * The `HEALTH` line: level name, sender, armed flag, link and heartbeat
   * ages, heartbeat count, battery (millivolts, 0 when unknown) and the GPS
   * fix and satellites (0 when GPS is not reported).
   */
  datatype HealthLine = HealthLine(level: string, sysid: byte, compid: byte, armed: bool,
                                   linkDt: u32, hbDt: u32, hbCount: u32, battMv: u16,
                                   gpsFix: byte, sats: byte)

  /** `s_last_log_ms`. */
  class Health {
    var lastLogMs: u32

    /** HealthRules_Init. */
    constructor Init()
      ensures lastLogMs == 0
    {
      lastLogMs := 0;
    }

    /**
     * HealthRules_Update: evaluates the state; if a second has passed
     * since the last line (wrapping subtraction), stamps `nowMs` and
     * produces the line for the verdict, otherwise changes nothing.
     */
    method Update(nowMs: u32, t: TelemetryState, battLeCrit: bool, battLeWarn: bool)
      returns (line: Option<HealthLine>)
      modifies this
      ensures line.None? <==> Sub32(nowMs, old(lastLogMs)) < LOG_PERIOD_MS
      ensures line.None? ==> lastLogMs == old(lastLogMs)
      ensures line.Some? ==> lastLogMs == nowMs
      ensures line.Some? ==> line.value.level == LevelToStr(Rank(Evaluate(Some(t), nowMs, battLeCrit, battLeWarn)))
      ensures line.Some? ==> line.value.linkDt == Elapsed(nowMs, t.lastMsgMs) &&
                             line.value.hbDt == Elapsed(nowMs, t.lastHbMs)
      ensures line.Some? ==> line.value.sysid == t.sysid && line.value.compid == t.compid &&
                             line.value.armed == t.armed && line.value.hbCount == t.hbCount
      ensures line.Some? ==> line.value.battMv == (if t.hasBattery then t.batteryMv else 0)
      ensures line.Some? ==> line.value.gpsFix == (if t.hasGps then t.gpsFixType else 0) &&
                             line.value.sats == (if t.hasGps then t.gpsSatsVisible else 0)
    {
      var lvl := Evaluate(Some(t), nowMs, battLeCrit, battLeWarn);
      if Sub32(nowMs, lastLogMs) < LOG_PERIOD_MS {
        return None;
      }
      lastLogMs := nowMs;
      var dtHb := Elapsed(nowMs, t.lastHbMs);
      var dtLink := Elapsed(nowMs, t.lastMsgMs);
      line := Some(HealthLine(LevelToStr(Rank(lvl)), t.sysid, t.compid, t.armed, dtLink, dtHb, t.hbCount,
                              if t.hasBattery then t.batteryMv else 0,
                              if t.hasGps then t.gpsFixType else 0,
                              if t.hasGps then t.gpsSatsVisible else 0));
    }
  }
}
