/**
 * The MAVLink message-statistics aggregator: running totals since boot,
 * per-window counters (per low-8-bit message id and for a few important
 * messages) that are reported and cleared once per period, and the three
 * most frequent message ids of the window.
 */
module MavlinkSummary {
  import opened Common
  import opened Mavlink
  import opened TelemetryData

  /** `MAV_SUM_MSGID_MAX`: one window counter per 8-bit message id. */
  const MSGID_MAX: nat := 256

  /** Period used when Init is given 0. */
  const DEFAULT_PERIOD_MS: u32 := 1000

  /** `TopMsg`: a message id and its count in the window. */
  datatype TopMsg = TopMsg(id: byte, count: u16)

  const NO_MSG: TopMsg := TopMsg(0, 0)

  /** Ranking of the top list: higher count first, and for equal counts the smaller id. */
  predicate Better(a: TopMsg, b: TopMsg)
  {
    a.count > b.count || (a.count == b.count && a.id < b.id)
  }

  /** `Better` is a strict total order on entries with different ids. */
  lemma BetterIsStrictTotal(a: TopMsg, b: TopMsg, c: TopMsg)
    ensures !(Better(a, b) && Better(b, a))
    ensures Better(a, b) && Better(b, c) ==> Better(a, c)
    ensures a.id != b.id ==> Better(a, b) || Better(b, a)
  {
  }

  /** The window entry of id `i`. */
  function Entry(counts: seq<u16>, i: nat): TopMsg
    requires i < |counts| <= MSGID_MAX
  {
    TopMsg(i as byte, counts[i])
  }

  /** A slot of the top list: empty as `{0, 0}`, or a nonzero entry among ids `[0, n)`. */
  ghost predicate Slot(counts: seq<u16>, n: nat, x: TopMsg)
    requires n <= |counts| <= MSGID_MAX
  {
    (x.count == 0 ==> x == NO_MSG) &&
    (x.count > 0 ==> x.id as int < n && counts[x.id] == x.count)
  }

  /**
   * `t` is the top three of the nonzero counts among ids `[0, n)`: filled
   * slots first, strictly ranked, empty slots `{0, 0}` after them, and
   * every nonzero entry either listed or ranked below the third slot.
   */
  ghost predicate IsTopOf(counts: seq<u16>, n: nat, t: seq<TopMsg>)
    requires n <= |counts| <= MSGID_MAX
  {
    |t| == 3 &&
    Slot(counts, n, t[0]) && Slot(counts, n, t[1]) && Slot(counts, n, t[2]) &&
    (t[1].count > 0 ==> Better(t[0], t[1])) &&
    (t[2].count > 0 ==> Better(t[1], t[2])) &&
    forall i :: 0 <= i < n && counts[i] > 0 ==>
      Entry(counts, i) == t[0] || Entry(counts, i) == t[1] || Entry(counts, i) == t[2] ||
      Better(t[2], Entry(counts, i))
  }

  /** The top list is fully determined: at most one list satisfies the characterisation. */
  lemma TopIsUnique(counts: seq<u16>, n: nat, t: seq<TopMsg>, u: seq<TopMsg>)
    requires n <= |counts| <= MSGID_MAX
    requires IsTopOf(counts, n, t) && IsTopOf(counts, n, u)
    ensures t == u
  {
    forall j | 0 <= j < 3 && t[j].count > 0
      ensures t[j] == Entry(counts, t[j].id as int)
    {
    }
    forall j | 0 <= j < 3 && u[j].count > 0
      ensures u[j] == Entry(counts, u[j].id as int)
    {
    }
    assert t[0] == u[0];
    assert t[1] == u[1];
    assert t[2] == u[2];
  }

  /** Before any id is scanned the list of three empty slots is the top three. */
  lemma TopOfNone(counts: seq<u16>)
    requires |counts| <= MSGID_MAX
    ensures IsTopOf(counts, 0, [NO_MSG, NO_MSG, NO_MSG])
  {
  }

  /** Scanning an id with a zero count keeps the top three. */
  lemma TopSkip(counts: seq<u16>, i: nat, t: seq<TopMsg>)
    requires i < |counts| <= MSGID_MAX && counts[i] == 0
    requires IsTopOf(counts, i, t)
    ensures IsTopOf(counts, i + 1, t)
  {
  }

  /** A new entry that outranks the first slot goes first; the others move down one. */
  lemma TopInsertFirst(counts: seq<u16>, i: nat, t: seq<TopMsg>)
    requires i < |counts| <= MSGID_MAX && counts[i] > 0
    requires IsTopOf(counts, i, t) && Better(Entry(counts, i), t[0])
    ensures IsTopOf(counts, i + 1, [Entry(counts, i), t[0], t[1]])
  {
  }

  /** A new entry ranked between the first and second slots goes second. */
  lemma TopInsertSecond(counts: seq<u16>, i: nat, t: seq<TopMsg>)
    requires i < |counts| <= MSGID_MAX && counts[i] > 0
    requires IsTopOf(counts, i, t) && !Better(Entry(counts, i), t[0]) && Better(Entry(counts, i), t[1])
    ensures IsTopOf(counts, i + 1, [t[0], Entry(counts, i), t[1]])
  {
  }

  /** A new entry ranked between the second and third slots replaces the third. */
  lemma TopInsertThird(counts: seq<u16>, i: nat, t: seq<TopMsg>)
    requires i < |counts| <= MSGID_MAX && counts[i] > 0
    requires IsTopOf(counts, i, t) && !Better(Entry(counts, i), t[0]) && !Better(Entry(counts, i), t[1])
    requires Better(Entry(counts, i), t[2])
    ensures IsTopOf(counts, i + 1, [t[0], t[1], Entry(counts, i)])
  {
  }

  /** A new entry that outranks no slot stays out. */
  lemma TopKeep(counts: seq<u16>, i: nat, t: seq<TopMsg>)
    requires i < |counts| <= MSGID_MAX && counts[i] > 0
    requires IsTopOf(counts, i, t) && !Better(Entry(counts, i), t[0]) && !Better(Entry(counts, i), t[1])
    requires !Better(Entry(counts, i), t[2])
    ensures IsTopOf(counts, i + 1, t)
  {
  }

  /** Number of messages in `msgs` with message id `m`. */
  function CountId(msgs: seq<Frame>, m: u32): (k: nat)
    ensures k <= |msgs|
    decreases |msgs|
  {
    if msgs == [] then 0
    else CountId(msgs[..|msgs| - 1], m) + (if msgs[|msgs| - 1].msgid == m then 1 else 0)
  }

  /** Number of messages in `msgs` whose message id truncated to 8 bits is `id`. */
  function CountLow8(msgs: seq<Frame>, id: nat): (k: nat)
    ensures k <= |msgs|
    decreases |msgs|
  {
    if msgs == [] then 0
    else CountLow8(msgs[..|msgs| - 1], id) + (if msgs[|msgs| - 1].msgid as int % 256 == id then 1 else 0)
  }

  lemma CountIdAppend(msgs: seq<Frame>, f: Frame, m: u32)
    ensures CountId(msgs + [f], m) == CountId(msgs, m) + (if f.msgid == m then 1 else 0)
  {
    assert (msgs + [f])[..|msgs|] == msgs;
  }

  lemma CountLow8Append(msgs: seq<Frame>, f: Frame, id: nat)
    ensures CountLow8(msgs + [f], id) == CountLow8(msgs, id) + (if f.msgid as int % 256 == id then 1 else 0)
  {
    assert (msgs + [f])[..|msgs|] == msgs;
  }

  /**
   * The per-id table describes `msgs`: slot `id` holds the number of its
   * messages whose 8-bit id is `id`, kept in 16 bits.
   */
  ghost predicate Tabulates(counts: seq<u16>, msgs: seq<Frame>)
  {
    |counts| == MSGID_MAX && forall id :: 0 <= id < MSGID_MAX ==> counts[id] == Count16(CountLow8(msgs, id))
  }

  /** An all-zero table describes the empty window. */
  lemma TabulatesEmpty(counts: seq<u16>)
    requires |counts| == MSGID_MAX && forall id :: 0 <= id < MSGID_MAX ==> counts[id] == 0
    ensures Tabulates(counts, [])
  {
  }

  /** Bumping the slot of one more message's 8-bit id keeps the table describing the window. */
  lemma TabulatesAppend(counts: seq<u16>, msgs: seq<Frame>, f: Frame)
    requires Tabulates(counts, msgs)
    ensures var id := f.msgid as int % 256; Tabulates(counts[id := Inc16(counts[id])], msgs + [f])
  {
    var id := f.msgid as int % 256;
    var c := counts[id := Inc16(counts[id])];
    forall i | 0 <= i < MSGID_MAX
      ensures c[i] == Count16(CountLow8(msgs + [f], i))
    {
      CountLow8Append(msgs, f, i);
    }
  }

  /** Appending one message to both keeps the window a tail of the history. */
  lemma TailAppend(history: seq<Frame>, window: seq<Frame>, f: Frame)
    requires |window| <= |history| && window == history[|history| - |window|..]
    ensures (history + [f])[|history| - |window|..] == window + [f]
  {
  }

  /** The telemetry fields of the `MAV_SUM` line (MavSumLogFields) without the float voltage. */
  datatype LogFields = LogFields(linkDt: u32, hbDt: u32, armed: bool, hasBatt: bool, battMv: u16,
                                 hasGps: bool, gpsFix: byte, sats: byte)

  /** "Unknown / not available" in every field. */
  const UNKNOWN_FIELDS: LogFields := LogFields(0xFFFF_FFFF, 0xFFFF_FFFF, false, false, 0, false, 0, 0)

  /**
   * MavSummary_FillLogFields: the defaults without a telemetry state;
   * otherwise the link and heartbeat ages ("never" while no message or
   * heartbeat has arrived) and the state's flags, with the voltage only
   * where a battery reading exists.
   */
  function FillLogFields(nowMs: u32, tlm: Option<TelemetryState>): (f: LogFields)
    ensures tlm.None? ==> f == UNKNOWN_FIELDS
    ensures tlm.Some? ==> f.armed == tlm.value.armed && f.hasBatt == tlm.value.hasBattery
    ensures tlm.Some? ==> f.hasGps == tlm.value.hasGps && f.gpsFix == tlm.value.gpsFixType
    ensures tlm.Some? ==> f.sats == tlm.value.gpsSatsVisible
    ensures tlm.Some? && tlm.value.lastMsgMs != 0 ==> Add32(tlm.value.lastMsgMs, f.linkDt as int) == nowMs
    ensures tlm.Some? && tlm.value.lastHbMs != 0 ==> Add32(tlm.value.lastHbMs, f.hbDt as int) == nowMs
    ensures tlm.Some? && tlm.value.lastMsgMs == 0 ==> f.linkDt == 0xFFFF_FFFF
    ensures tlm.Some? && tlm.value.lastHbMs == 0 ==> f.hbDt == 0xFFFF_FFFF
    ensures f.battMv != 0 ==> f.hasBatt
    ensures tlm.Some? && tlm.value.hasBattery ==> f.battMv == tlm.value.batteryMv
  {
    match tlm
    case None => UNKNOWN_FIELDS
    case Some(t) =>
      LogFields(Elapsed(nowMs, t.lastMsgMs), Elapsed(nowMs, t.lastHbMs), t.armed, t.hasBattery,
                if t.hasBattery then t.batteryMv else 0, t.hasGps, t.gpsFixType, t.gpsSatsVisible)
  }

  /** The window line of `MAV_SUM`: window counters, telemetry fields, last message, top three. */
  datatype SummaryLine = SummaryLine(msgs: u32, hb: u32, fields: LogFields,
                                     lastMsgid: byte, lastSysid: byte, lastCompid: byte, top: seq<TopMsg>)

  /** The fields of a `MavlinkSummary` as one value; `table` is `win_msgid_counts`. */
  datatype SumView = SumView(totalMsgs: u32, totalHb: u32, winMsgs: u32, winHb: u32,
                             lastMsgid: byte, lastSysid: byte, lastCompid: byte,
                             lastLogMs: u32, periodMs: u32,
                             table: seq<u16>, winSysStatus: u16, winGpsRawInt: u16, winAttitude: u16)

  /** The fields after MavlinkSummary_OnMessage has counted message `f`. */
  function Counted(v: SumView, f: Frame): (w: SumView)
    requires |v.table| == MSGID_MAX
    ensures |w.table| == MSGID_MAX
    ensures w.lastLogMs == v.lastLogMs && w.periodMs == v.periodMs
    ensures forall id :: 0 <= id < MSGID_MAX && id != f.msgid as int % 256 ==> w.table[id] == v.table[id]
  {
    var id := f.msgid as int % 256;
    v.(totalMsgs := Inc32(v.totalMsgs), winMsgs := Inc32(v.winMsgs),
       lastMsgid := id as byte, lastSysid := f.sysid, lastCompid := f.compid,
       table := v.table[id := Inc16(v.table[id])],
       totalHb := if f.msgid == MSG_ID_HEARTBEAT then Inc32(v.totalHb) else v.totalHb,
       winHb := if f.msgid == MSG_ID_HEARTBEAT then Inc32(v.winHb) else v.winHb,
       winSysStatus := if f.msgid == MSG_ID_SYS_STATUS then Inc16(v.winSysStatus) else v.winSysStatus,
       winGpsRawInt := if f.msgid == MSG_ID_GPS_RAW_INT then Inc16(v.winGpsRawInt) else v.winGpsRawInt,
       winAttitude := if f.msgid == MSG_ID_ATTITUDE then Inc16(v.winAttitude) else v.winAttitude)
  }

  /** The fields after a report at `nowMs`: the window cleared, totals and last message kept. */
  function Cleared(v: SumView, nowMs: u32): (w: SumView)
    ensures |w.table| == MSGID_MAX && forall id :: 0 <= id < MSGID_MAX ==> w.table[id] == 0
    ensures w.totalMsgs == v.totalMsgs && w.totalHb == v.totalHb && w.periodMs == v.periodMs
  {
    v.(lastLogMs := nowMs, winMsgs := 0, winHb := 0, table := seq(MSGID_MAX, _ => 0),
       winSysStatus := 0, winGpsRawInt := 0, winAttitude := 0)
  }

  /**
   * The fields describe a message history and the window of it since the
   * last report: each counter is the number of matching messages, kept in
   * its own width, and the last-message fields describe the newest message.
   */
  ghost predicate Describes(v: SumView, history: seq<Frame>, window: seq<Frame>)
  {
    v.totalMsgs == Count32(|history|) && v.totalHb == Count32(CountId(history, MSG_ID_HEARTBEAT)) &&
    v.winMsgs == Count32(|window|) && v.winHb == Count32(CountId(window, MSG_ID_HEARTBEAT)) &&
    v.winSysStatus == Count16(CountId(window, MSG_ID_SYS_STATUS)) &&
    v.winGpsRawInt == Count16(CountId(window, MSG_ID_GPS_RAW_INT)) &&
    v.winAttitude == Count16(CountId(window, MSG_ID_ATTITUDE)) &&
    Tabulates(v.table, window) &&
    |window| <= |history| && window == history[|history| - |window|..] &&
    (|history| > 0 ==> var last := history[|history| - 1];
       v.lastMsgid as int == last.msgid as int % 256 && v.lastSysid == last.sysid && v.lastCompid == last.compid)
  }

  /** Counting a message keeps the fields describing the history and window, each extended by it. */
  lemma CountedDescribes(v: SumView, history: seq<Frame>, window: seq<Frame>, f: Frame)
    requires Describes(v, history, window)
    ensures Describes(Counted(v, f), history + [f], window + [f])
  {
    CountIdAppend(history, f, MSG_ID_HEARTBEAT);
    CountIdAppend(window, f, MSG_ID_HEARTBEAT);
    CountIdAppend(window, f, MSG_ID_SYS_STATUS);
    CountIdAppend(window, f, MSG_ID_GPS_RAW_INT);
    CountIdAppend(window, f, MSG_ID_ATTITUDE);
    TabulatesAppend(v.table, window, f);
    TailAppend(history, window, f);
  }

  /** A report keeps the fields describing the same history with an empty window. */
  lemma ClearedDescribes(v: SumView, history: seq<Frame>, window: seq<Frame>, nowMs: u32)
    requires Describes(v, history, window)
    ensures Describes(Cleared(v, nowMs), history, [])
  {
    TabulatesEmpty(Cleared(v, nowMs).table);
  }

  /** Each counter holds its true count modulo 2^32 or 2^16. */
  lemma DescribesCounts(v: SumView, history: seq<Frame>, window: seq<Frame>)
    requires Describes(v, history, window)
    ensures v.totalMsgs as int == |history| % U32_MOD
    ensures v.totalHb as int == CountId(history, MSG_ID_HEARTBEAT) % U32_MOD
    ensures v.winMsgs as int == |window| % U32_MOD
    ensures v.winHb as int == CountId(window, MSG_ID_HEARTBEAT) % U32_MOD
    ensures v.winSysStatus as int == CountId(window, MSG_ID_SYS_STATUS) % U16_MOD
    ensures v.winGpsRawInt as int == CountId(window, MSG_ID_GPS_RAW_INT) % U16_MOD
    ensures v.winAttitude as int == CountId(window, MSG_ID_ATTITUDE) % U16_MOD
    ensures forall id :: 0 <= id < MSGID_MAX ==> v.table[id] as int == CountLow8(window, id) % U16_MOD
  {
    Count32Mod(|history|);
    Count32Mod(CountId(history, MSG_ID_HEARTBEAT));
    Count32Mod(|window|);
    Count32Mod(CountId(window, MSG_ID_HEARTBEAT));
    Count16Mod(CountId(window, MSG_ID_SYS_STATUS));
    Count16Mod(CountId(window, MSG_ID_GPS_RAW_INT));
    Count16Mod(CountId(window, MSG_ID_ATTITUDE));
    forall id | 0 <= id < MSGID_MAX
      ensures v.table[id] as int == CountLow8(window, id) % U16_MOD
    {
      Count16Mod(CountLow8(window, id));
    }
  }

  /**
   * Until the totals wrap, heartbeats never outnumber messages, and the
   * window never holds more messages than the totals.
   */
  lemma HeartbeatsWithinMessages(v: SumView, history: seq<Frame>, window: seq<Frame>)
    requires Describes(v, history, window) && |history| < U32_MOD
    ensures v.totalHb <= v.totalMsgs && v.winHb <= v.winMsgs && v.winMsgs <= v.totalMsgs
  {
    DescribesCounts(v, history, window);
  }

  /** `MavlinkSummary`. */
  class Summary {
    var totalMsgs: u32
    var totalHb: u32
    var winMsgs: u32
    var winHb: u32
    var lastMsgid: byte
    var lastSysid: byte
    var lastCompid: byte
    var lastLogMs: u32
    var periodMs: u32
    const winMsgidCounts: array<u16>
    var winSysStatus: u16
    var winGpsRawInt: u16
    var winAttitude: u16

    /** Every message seen since Init, and those seen since the last report. */
    ghost var history: seq<Frame>
    ghost var window: seq<Frame>

    function View(): (v: SumView)
      reads this, winMsgidCounts
      ensures |v.table| == winMsgidCounts.Length
    {
      SumView(totalMsgs, totalHb, winMsgs, winHb, lastMsgid, lastSysid, lastCompid, lastLogMs, periodMs,
              winMsgidCounts[..], winSysStatus, winGpsRawInt, winAttitude)
    }

    ghost predicate Valid()
      reads this, winMsgidCounts
    {
      periodMs > 0 && winMsgidCounts.Length == MSGID_MAX && Describes(View(), history, window)
    }

    /** MavlinkSummary_Init: everything zero and a period of `periodMs` (1000 when given 0). */
    constructor Init(periodMs: u32)
      ensures fresh(winMsgidCounts) && history == [] && window == []
      ensures View() == SumView(0, 0, 0, 0, 0, 0, 0, 0, if periodMs == 0 then DEFAULT_PERIOD_MS else periodMs,
                                seq(MSGID_MAX, _ => 0), 0, 0, 0)
      ensures Valid()
    {
      totalMsgs, totalHb, winMsgs, winHb := 0, 0, 0, 0;
      lastMsgid, lastSysid, lastCompid := 0, 0, 0;
      winMsgidCounts := new u16[MSGID_MAX](_ => 0);
      winSysStatus, winGpsRawInt, winAttitude := 0, 0, 0;
      this.periodMs := if periodMs == 0 then DEFAULT_PERIOD_MS else periodMs;
      lastLogMs := 0;
      history, window := [], [];
      new;
      TabulatesEmpty(winMsgidCounts[..]);
    }

    /**
     * MavlinkSummary_OnMessage: counts one message in the totals, the
     * window, its 8-bit id's slot and (for their ids) the heartbeat and
     * important-message counters, and remembers its sender. A null message
     * changes nothing.
     */
    method OnMessage(msg: Option<Frame>)
      requires Valid()
      modifies this, winMsgidCounts
      ensures msg.None? ==> unchanged(this, winMsgidCounts)
      ensures msg.Some? ==> View() == Counted(old(View()), msg.value)
      ensures msg.Some? ==> history == old(history) + [msg.value] && window == old(window) + [msg.value]
      ensures Valid()
    {
      if msg.None? {
        return;
      }
      CountedDescribes(View(), history, window, msg.value);
      Count(msg.value);
    }

    /** The counting done by OnMessage for a message that is present. */
    method Count(f: Frame)
      requires winMsgidCounts.Length == MSGID_MAX
      modifies this, winMsgidCounts
      ensures View() == Counted(old(View()), f)
      ensures history == old(history) + [f] && window == old(window) + [f]
    {
      ghost var v1 := Counted(View(), f);
      totalMsgs := Inc32(totalMsgs);
      winMsgs := Inc32(winMsgs);

      var id := (f.msgid as int % 256) as byte;
      lastMsgid := id;
      lastSysid := f.sysid;
      lastCompid := f.compid;

      if (id as int) < MSGID_MAX {
        winMsgidCounts[id] := Inc16(winMsgidCounts[id]);
      }
      assert winMsgidCounts[..] == v1.table;

      if f.msgid == MSG_ID_HEARTBEAT {
        totalHb := Inc32(totalHb);
        winHb := Inc32(winHb);
      }
      assert totalHb == v1.totalHb && winHb == v1.winHb;

      if f.msgid == MSG_ID_SYS_STATUS {
        winSysStatus := Inc16(winSysStatus);
      } else if f.msgid == MSG_ID_GPS_RAW_INT {
        winGpsRawInt := Inc16(winGpsRawInt);
      } else if f.msgid == MSG_ID_ATTITUDE {
        winAttitude := Inc16(winAttitude);
      }
      assert winSysStatus == v1.winSysStatus && winGpsRawInt == v1.winGpsRawInt && winAttitude == v1.winAttitude;
      history := history + [f];
      window := window + [f];
    }

    /**
     * MavSummary_FindTop3: three `{0, 0}` entries for an empty window,
     * otherwise the three most frequent 8-bit ids of the window, ranked by
     * `Better`, with `{0, 0}` filling the slots nonzero counts do not.
     */
    method FindTop3() returns (top: seq<TopMsg>)
      requires winMsgidCounts.Length == MSGID_MAX
      ensures |top| == 3
      ensures winMsgs == 0 ==> top == [NO_MSG, NO_MSG, NO_MSG]
      ensures winMsgs != 0 ==> IsTopOf(winMsgidCounts[..], MSGID_MAX, top)
    {
      var t0, t1, t2 := NO_MSG, NO_MSG, NO_MSG;
      if winMsgs == 0 {
        return [t0, t1, t2];
      }
      ghost var counts := winMsgidCounts[..];
      TopOfNone(counts);
      for i := 0 to MSGID_MAX
        invariant IsTopOf(counts, i, [t0, t1, t2])
      {
        var c := winMsgidCounts[i];
        if c == 0 {
          TopSkip(counts, i, [t0, t1, t2]);
          continue;
        }
        var e := TopMsg(i as byte, c);
        assert e == Entry(counts, i);
        if c > t0.count || (c == t0.count && e.id < t0.id) {
          TopInsertFirst(counts, i, [t0, t1, t2]);
          t2 := t1;
          t1 := t0;
          t0 := e;
        } else if c > t1.count || (c == t1.count && e.id < t1.id) {
          TopInsertSecond(counts, i, [t0, t1, t2]);
          t2 := t1;
          t1 := e;
        } else if c > t2.count || (c == t2.count && e.id < t2.id) {
          TopInsertThird(counts, i, [t0, t1, t2]);
          t2 := e;
        } else {
          TopKeep(counts, i, [t0, t1, t2]);
        }
      }
      top := [t0, t1, t2];
    }

    /**
     * MavlinkSummary_UpdateAndLog: nothing happens until `periodMs` has
     * elapsed since the last report (wrapping subtraction). Then the report
     * time becomes `nowMs`, the window's line is produced (with the
     * telemetry fields and the top three) and every window counter, the
     * per-id table included, is cleared; totals and the last-message
     * fields stay.
     */
    method UpdateAndLog(nowMs: u32, tlm: Option<TelemetryState>) returns (line: Option<SummaryLine>)
      requires Valid()
      modifies this, winMsgidCounts
      ensures Sub32(nowMs, old(lastLogMs)) < old(periodMs) ==> line == None && unchanged(this, winMsgidCounts)
      ensures Sub32(nowMs, old(lastLogMs)) >= old(periodMs) ==>
        View() == Cleared(old(View()), nowMs) && history == old(history) && window == [] && line.Some? &&
        line.value == SummaryLine(old(winMsgs), old(winHb), FillLogFields(nowMs, tlm),
                                  old(lastMsgid), old(lastSysid), old(lastCompid), line.value.top) &&
        (old(winMsgs) == 0 ==> line.value.top == [NO_MSG, NO_MSG, NO_MSG]) &&
        (old(winMsgs) != 0 ==> IsTopOf(old(winMsgidCounts[..]), MSGID_MAX, line.value.top))
      ensures Valid()
    {
      if Sub32(nowMs, lastLogMs) < periodMs {
        return None;
      }
      ghost var v0 := View();
      ClearedDescribes(v0, history, window, nowMs);
      lastLogMs := nowMs;
      var fields := FillLogFields(nowMs, tlm);
      var top := FindTop3();
      line := Some(SummaryLine(winMsgs, winHb, fields, lastMsgid, lastSysid, lastCompid, top));
      assert View() == v0.(lastLogMs := nowMs);
      ResetWindow();
      assert Cleared(v0.(lastLogMs := nowMs), nowMs) == Cleared(v0, nowMs);
    }

    /** The reset at the end of a report: every window counter and the per-id table cleared. */
    method ResetWindow()
      requires winMsgidCounts.Length == MSGID_MAX
      modifies this, winMsgidCounts
      ensures View() == Cleared(old(View()), old(lastLogMs))
      ensures history == old(history) && window == []
    {
      winMsgs := 0;
      winHb := 0;
      forall id | 0 <= id < MSGID_MAX {
        winMsgidCounts[id] := 0;
      }
      winSysStatus, winGpsRawInt, winAttitude := 0, 0, 0;
      window := [];
      assert winMsgidCounts[..] == seq(MSGID_MAX, _ => 0);
    }
  }
}
