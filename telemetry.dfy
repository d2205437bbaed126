/**
 * The telemetry module: keeps a `TelemetryState` up to date from every
 * MAVLink message (sender, arrival times, counters, armed flag, battery
 * voltage and GPS fix), feeds each message to the summary aggregator and
 * lets it report once per second.
 */
module Telemetry {
  import opened Common
  import opened Mavlink
  import opened TelemetryData
  import opened MavlinkSummary

  /** Summary period set by Telemetry_Init. */
  const SUMMARY_PERIOD_MS: u32 := 1000

  /** A message and the time it was handed to the telemetry module. */
  datatype Arrival = Arrival(frame: Frame, atMs: u32)

  function Frames(log: seq<Arrival>): (fs: seq<Frame>)
    ensures |fs| == |log| && forall i :: 0 <= i < |log| ==> fs[i] == log[i].frame
  {
    seq(|log|, i requires 0 <= i < |log| => log[i].frame)
  }

  /** The newest arrival in `log` whose message id is `m`. */
  function LastOf(log: seq<Arrival>, m: u32): (r: Option<Arrival>)
    ensures r.Some? ==> r.value in log && r.value.frame.msgid == m
    ensures r.None? ==> forall a :: a in log ==> a.frame.msgid != m
    decreases |log|
  {
    if log == [] then None
    else if log[|log| - 1].frame.msgid == m then Some(log[|log| - 1])
    else LastOf(log[..|log| - 1], m)
  }

  /** The newest SYS_STATUS arrival in `log` that carries a known battery voltage. */
  function LastBattery(log: seq<Arrival>): (r: Option<Arrival>)
    ensures r.Some? ==> r.value in log && r.value.frame.msgid == MSG_ID_SYS_STATUS
    ensures r.Some? ==> r.value.frame.payload.voltageBattery != VOLTAGE_UNKNOWN
    ensures r.None? ==>
      forall a :: a in log && a.frame.msgid == MSG_ID_SYS_STATUS ==> a.frame.payload.voltageBattery == VOLTAGE_UNKNOWN
    decreases |log|
  {
    if log == [] then None
    else
      var a := log[|log| - 1];
      if a.frame.msgid == MSG_ID_SYS_STATUS && a.frame.payload.voltageBattery != VOLTAGE_UNKNOWN then Some(a)
      else LastBattery(log[..|log| - 1])
  }

  /**
   * The state Telemetry_OnMavlink leaves after message `f` arriving at
   * `nowMs`: sender, arrival time and count always; for a heartbeat its
   * time, count and armed flag; for a SYS_STATUS with a known voltage the
   * battery; for a GPS_RAW_INT the fix and satellite count.
   */
  function Observe(t: TelemetryState, f: Frame, nowMs: u32): TelemetryState
  {
    var t1 := t.(sysid := f.sysid, compid := f.compid, lastMsgMs := nowMs, msgCount := Inc32(t.msgCount));
    if f.msgid == MSG_ID_HEARTBEAT then
      t1.(lastHbMs := nowMs, hbCount := Inc32(t1.hbCount), armed := Armed(f.payload.baseMode))
    else if f.msgid == MSG_ID_SYS_STATUS then
      if f.payload.voltageBattery != VOLTAGE_UNKNOWN then
        t1.(hasBattery := true, batteryMv := f.payload.voltageBattery)
      else t1
    else if f.msgid == MSG_ID_GPS_RAW_INT then
      t1.(hasGps := true, gpsFixType := f.payload.fixType, gpsSatsVisible := f.payload.satellitesVisible)
    else t1
  }

  /**
   * The state is determined by the arrivals since Init: the counters count
   * them (in 32 bits), the sender and link time come from the newest one,
   * the heartbeat fields from the newest heartbeat, the battery from the
   * newest known voltage and the GPS fields from the newest GPS_RAW_INT;
   * each is zero (false) while no such message has arrived.
   */
  ghost predicate Reflects(t: TelemetryState, log: seq<Arrival>)
  {
    t.msgCount == Count32(|log|) && t.hbCount == Count32(CountId(Frames(log), MSG_ID_HEARTBEAT)) &&
    (if log == [] then t.sysid == 0 && t.compid == 0 && t.lastMsgMs == 0
     else t.sysid == log[|log| - 1].frame.sysid && t.compid == log[|log| - 1].frame.compid &&
          t.lastMsgMs == log[|log| - 1].atMs) &&
    (match LastOf(log, MSG_ID_HEARTBEAT)
     case None => t.lastHbMs == 0 && !t.armed
     case Some(a) => t.lastHbMs == a.atMs && t.armed == Armed(a.frame.payload.baseMode)) &&
    (match LastBattery(log)
     case None => !t.hasBattery && t.batteryMv == 0
     case Some(a) => t.hasBattery && t.batteryMv == a.frame.payload.voltageBattery) &&
    (match LastOf(log, MSG_ID_GPS_RAW_INT)
     case None => !t.hasGps && t.gpsFixType == 0 && t.gpsSatsVisible == 0
     case Some(a) => t.hasGps && t.gpsFixType == a.frame.payload.fixType &&
                     t.gpsSatsVisible == a.frame.payload.satellitesVisible)
  }

  lemma LastOfAppend(log: seq<Arrival>, a: Arrival, m: u32)
    ensures LastOf(log + [a], m) == if a.frame.msgid == m then Some(a) else LastOf(log, m)
  {
    assert (log + [a])[..|log|] == log;
  }

  lemma LastBatteryAppend(log: seq<Arrival>, a: Arrival)
    ensures LastBattery(log + [a]) ==
      if a.frame.msgid == MSG_ID_SYS_STATUS && a.frame.payload.voltageBattery != VOLTAGE_UNKNOWN
      then Some(a) else LastBattery(log)
  {
    assert (log + [a])[..|log|] == log;
  }

  lemma FramesAppend(log: seq<Arrival>, a: Arrival)
    ensures Frames(log + [a]) == Frames(log) + [a.frame]
  {
  }

  /** The zero state reflects no arrivals. */
  lemma ZeroReflectsNothing()
    ensures Reflects(ZERO_STATE, [])
  {
    assert Frames([]) == [];
  }

  /** Observing one more message keeps the state a function of the arrivals. */
  lemma ObserveReflects(t: TelemetryState, log: seq<Arrival>, f: Frame, nowMs: u32)
    requires Reflects(t, log)
    ensures Reflects(Observe(t, f, nowMs), log + [Arrival(f, nowMs)])
  {
    var a := Arrival(f, nowMs);
    LastOfAppend(log, a, MSG_ID_HEARTBEAT);
    LastOfAppend(log, a, MSG_ID_GPS_RAW_INT);
    LastBatteryAppend(log, a);
    FramesAppend(log, a);
    CountIdAppend(Frames(log), f, MSG_ID_HEARTBEAT);
  }

  /**
   * The telemetry counters agree with the summary's totals, and the
   * sender fields with its last-message fields, when both saw the same
   * messages.
   */
  lemma CountsAgree(t: TelemetryState, log: seq<Arrival>, v: SumView, window: seq<Frame>)
    requires Reflects(t, log) && Describes(v, Frames(log), window)
    ensures t.msgCount == v.totalMsgs && t.hbCount == v.totalHb
    ensures log != [] ==> t.sysid == v.lastSysid && t.compid == v.lastCompid
  {
    if log != [] {
      assert Frames(log)[|log| - 1] == log[|log| - 1].frame;
    }
  }

  /** `s_tlm` together with `s_sum`. */
  class TelemetryModule {
    var tlm: TelemetryState
    const summary: Summary

    /** Every message handed to OnMavlink since Init, with its arrival time. */
    ghost var log: seq<Arrival>

    ghost predicate Valid()
      reads this, summary, summary.winMsgidCounts
    {
      summary.Valid() && summary.periodMs == SUMMARY_PERIOD_MS &&
      Reflects(tlm, log) && summary.history == Frames(log)
    }

    /** Telemetry_Init: a zero state and a summary that reports once a second. */
    constructor Init()
      ensures tlm == ZERO_STATE && log == [] && fresh(summary) && fresh(summary.winMsgidCounts)
      ensures summary.history == [] && summary.window == []
      ensures Valid()
    {
      tlm := ZERO_STATE;
      summary := new Summary.Init(SUMMARY_PERIOD_MS);
      log := [];
      new;
      ZeroReflectsNothing();
    }

    /**
     * Telemetry_OnMavlink: a null message changes nothing; any other is
     * counted by the summary and observed into the state.
     */
    method OnMavlink(msg: Option<Frame>, nowMs: u32)
      requires Valid()
      modifies this, summary, summary.winMsgidCounts
      ensures msg.None? ==> unchanged(this, summary, summary.winMsgidCounts)
      ensures msg.Some? ==> tlm == Observe(old(tlm), msg.value, nowMs)
      ensures msg.Some? ==> log == old(log) + [Arrival(msg.value, nowMs)]
      ensures msg.Some? ==> summary.View() == Counted(old(summary.View()), msg.value)
      ensures Valid()
    {
      if msg.None? {
        return;
      }
      var f := msg.value;
      ObserveReflects(tlm, log, f, nowMs);
      FramesAppend(log, Arrival(f, nowMs));
      summary.OnMessage(msg);
      tlm := Observe(tlm, f, nowMs);
      log := log + [Arrival(f, nowMs)];
    }

    /** Telemetry_Update: lets the summary report, with the current state, once its period has passed. */
    method Update(nowMs: u32) returns (line: Option<SummaryLine>)
      requires Valid()
      modifies summary, summary.winMsgidCounts
      ensures line.None? <==> Sub32(nowMs, old(summary.lastLogMs)) < SUMMARY_PERIOD_MS
      ensures line.Some? ==> line.value.fields == FillLogFields(nowMs, Some(tlm))
      ensures line.Some? ==> line.value.msgs == old(summary.winMsgs)
      ensures line.Some? ==> summary.View() == Cleared(old(summary.View()), nowMs)
      ensures line.None? ==> unchanged(summary, summary.winMsgidCounts)
      ensures Valid()
    {
      line := summary.UpdateAndLog(nowMs, Some(tlm));
    }

    /** Telemetry_Get: the current state, which reflects the arrivals since Init. */
    method Get() returns (t: TelemetryState)
      requires Valid()
      ensures t == tlm && Reflects(t, log)
    {
      t := tlm;
    }
  }
}
