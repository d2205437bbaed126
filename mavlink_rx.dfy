/**
 * The MAVLink frame pump: each update polls the receive bridge once, drains
 * the software ring in reads of at most 64 bytes and hands the bytes one at
 * a time to the streaming parser; each completed frame goes to the single
 * registered callback, if there is one.
 */
module MavlinkRx {
  import opened Common
  import opened Mavlink
  import UartRxRing

  /** `MAVLINK_RX_READ_CHUNK`. */
  const READ_CHUNK: u16 := 64

  /** The parser's status after a run of bytes, and the frames it completed, in order. */
  datatype Fed = Fed(status: MavStatus, frames: seq<Frame>)

  function FrameOf(o: Option<Frame>): (fs: seq<Frame>)
    ensures |fs| <= 1
  {
    if o.Some? then [o.value] else []
  }

  /** Bytes fed to the parser one at a time, oldest first. */
  function Feed(parse: Parser, st: MavStatus, bytes: seq<byte>): Fed
    decreases |bytes|
  {
    if bytes == [] then Fed(st, [])
    else
      var before := Feed(parse, st, bytes[..|bytes| - 1]);
      var step := parse(before.status, bytes[|bytes| - 1]);
      Fed(step.status, before.frames + FrameOf(step.frame))
  }

  /** What the parser reports for the byte at position `i` of a run. */
  function ReportAt(parse: Parser, st: MavStatus, bytes: seq<byte>, i: nat): Option<Frame>
    requires i < |bytes|
  {
    parse(Feed(parse, st, bytes[..i]).status, bytes[i]).frame
  }

  /**
   * `idx` lists, in increasing order, exactly the positions of the bytes on
   * which the parser reported a completed frame, and the frames of the run
   * are the reported frames in that order.
   */
  ghost predicate CompletionPoints(parse: Parser, st: MavStatus, bytes: seq<byte>, idx: seq<nat>)
  {
    var frames := Feed(parse, st, bytes).frames;
    |idx| == |frames| &&
    (forall j :: 0 <= j < |idx| ==> idx[j] < |bytes| && ReportAt(parse, st, bytes, idx[j]) == Some(frames[j])) &&
    (forall j, k :: 0 <= j < k < |idx| ==> idx[j] < idx[k]) &&
    (forall i :: 0 <= i < |bytes| && ReportAt(parse, st, bytes, i).Some? ==> i in idx)
  }

  /** Reports on a prefix do not depend on the bytes after it. */
  lemma ReportAtPrefix(parse: Parser, st: MavStatus, bytes: seq<byte>, n: nat, i: nat)
    requires i < n <= |bytes|
    ensures ReportAt(parse, st, bytes[..n], i) == ReportAt(parse, st, bytes, i)
  {
    assert bytes[..n][..i] == bytes[..i];
  }

  /**
   * One frame per completion, in completion order: the frames a run yields
   * are exactly the frames the parser reported, byte by byte, in the order
   * of those bytes; no frame is invented, lost or reordered.
   */
  lemma {:induction false} FeedCompletions(parse: Parser, st: MavStatus, bytes: seq<byte>)
    ensures exists idx :: CompletionPoints(parse, st, bytes, idx)
    decreases |bytes|
  {
    if bytes == [] {
      assert CompletionPoints(parse, st, bytes, []);
    } else {
      var n: nat := |bytes| - 1;
      var pre := bytes[..n];
      FeedCompletions(parse, st, pre);
      var idx' :| CompletionPoints(parse, st, pre, idx');
      var idx := CompletionsExtend(parse, st, bytes, idx');
    }
  }

  /** The completion points of a run, extended by one more byte. */
  lemma CompletionsExtend(parse: Parser, st: MavStatus, bytes: seq<byte>, idx': seq<nat>) returns (idx: seq<nat>)
    requires bytes != [] && CompletionPoints(parse, st, bytes[..|bytes| - 1], idx')
    ensures CompletionPoints(parse, st, bytes, idx)
  {
    var n: nat := |bytes| - 1;
    var pre := bytes[..n];
    var frames', frames := Feed(parse, st, pre).frames, Feed(parse, st, bytes).frames;
    var step := parse(Feed(parse, st, pre).status, bytes[n]);
    assert frames == frames' + FrameOf(step.frame);
    assert ReportAt(parse, st, bytes, n) == step.frame;
    idx := if step.frame.Some? then idx' + [n] else idx';
    forall j | 0 <= j < |idx|
      ensures idx[j] < |bytes| && ReportAt(parse, st, bytes, idx[j]) == Some(frames[j])
    {
      if j < |idx'| {
        ReportAtPrefix(parse, st, bytes, n, idx'[j]);
      }
    }
    forall i | 0 <= i < |bytes| && ReportAt(parse, st, bytes, i).Some?
      ensures i in idx
    {
      if i < n {
        ReportAtPrefix(parse, st, bytes, n, i);
        assert i in idx';
      }
    }
    assert forall j, k :: 0 <= j < k < |idx| ==> idx[j] < idx[k];
  }

  /** A run of `k` bytes completes at most `k` frames. */
  lemma {:induction false} FeedBound(parse: Parser, st: MavStatus, bytes: seq<byte>)
    ensures |Feed(parse, st, bytes).frames| <= |bytes|
    decreases |bytes|
  {
    if bytes != [] {
      FeedBound(parse, st, bytes[..|bytes| - 1]);
    }
  }

  /** One call of the registered callback: which function, with which context, for which frame. */
  datatype Delivery = Delivery(fn: nat, ctx: nat, frame: Frame)

  /** The parser's status after a run of bytes, and the callback calls made for it. */
  datatype Pumped = Pumped(status: MavStatus, calls: seq<Delivery>)

  /**
   * The inner loop of MavlinkRx_Update over a run of bytes: each byte to the
   * parser and, on each completed frame, a call of the registered callback
   * (if any) with its context.
   */
  function Pump(parse: Parser, onMessage: Option<nat>, ctx: nat, st: MavStatus, bytes: seq<byte>): Pumped
    decreases |bytes|
  {
    if bytes == [] then Pumped(st, [])
    else
      var before := Pump(parse, onMessage, ctx, st, bytes[..|bytes| - 1]);
      var step := parse(before.status, bytes[|bytes| - 1]);
      var call := if step.frame.Some? && onMessage.Some?
                  then [Delivery(onMessage.value, ctx, step.frame.value)] else [];
      Pumped(step.status, before.calls + call)
  }

  /**
   * Pumping `a` and then `b` is pumping `a + b`: the chunked drain of the
   * ring gives the parser and the callback the same stream as one long run.
   */
  lemma {:induction false} PumpAppend(parse: Parser, onMessage: Option<nat>, ctx: nat, st: MavStatus,
                                      a: seq<byte>, b: seq<byte>)
    ensures var pa := Pump(parse, onMessage, ctx, st, a);
      var pb := Pump(parse, onMessage, ctx, pa.status, b);
      Pump(parse, onMessage, ctx, st, a + b) == Pumped(pb.status, pa.calls + pb.calls)
    decreases |b|
  {
    if b == [] {
      assert a + b == a;
    } else {
      var b' := b[..|b| - 1];
      assert (a + b)[..|a + b| - 1] == a + b';
      assert (a + b)[|a + b| - 1] == b[|b| - 1];
      PumpAppend(parse, onMessage, ctx, st, a, b');
    }
  }

  /**
   * The pump leaves the parser where feeding it the bytes does, and calls
   * the registered callback once per completed frame, in completion order,
   * with its context; with no callback registered it makes no call.
   */
  lemma {:induction false} PumpCalls(parse: Parser, onMessage: Option<nat>, ctx: nat, st: MavStatus, bytes: seq<byte>)
    ensures var p, f := Pump(parse, onMessage, ctx, st, bytes), Feed(parse, st, bytes);
      p.status == f.status &&
      (onMessage.None? ==> p.calls == []) &&
      (onMessage.Some? ==> |p.calls| == |f.frames|) &&
      (onMessage.Some? ==> forall j :: 0 <= j < |f.frames| ==> p.calls[j] == Delivery(onMessage.value, ctx, f.frames[j]))
    decreases |bytes|
  {
    if bytes != [] {
      PumpCalls(parse, onMessage, ctx, st, bytes[..|bytes| - 1]);
    }
  }

  /** `MavlinkRx`: the receive ring, the parser status and the optional subscriber. */
  class Receiver {
    const ring: UartRxRing.RxRing
    const parse: Parser
    var status: MavStatus
    /** The registered callback (by identity), or none. */
    var onMessage: Option<nat>
    /** Its opaque context pointer, as a number (0 for NULL). */
    var onMessageCtx: nat
    /** Every callback call made so far, oldest first. */
    var delivered: seq<Delivery>

    ghost predicate Valid()
      reads this, ring
    {
      ring.Valid()
    }

    /**
     * MavlinkRx_Init: no callback, the parser's state and counters at 0
     * (the rest of its status as it was), and a freshly initialised ring.
     */
    constructor Init(uartAttached: bool, dmaRxLinked: bool, parse: Parser, prior: MavStatus)
      ensures Valid() && fresh(ring) && fresh(ring.swBuf) && fresh(ring.dmaBuf)
      ensures this.parse == parse && onMessage == None && onMessageCtx == 0 && delivered == []
      ensures status == prior.(parseState := 0, packetRxSuccessCount := 0, packetRxDropCount := 0)
      ensures ring.Contents() == [] && ring.dmaLastPos == 0
      ensures ring.uartAttached == uartAttached && ring.dmaRxLinked == dmaRxLinked
    {
      this.parse := parse;
      onMessage := None;
      onMessageCtx := 0;
      status := prior.(parseState := 0, packetRxSuccessCount := 0, packetRxDropCount := 0);
      delivered := [];
      ring := new UartRxRing.RxRing.Init(uartAttached, dmaRxLinked);
    }

    /** MavlinkRx_Start: the ring's reception start, passed through. */
    method Start(halResult: HalStatus) returns (result: HalStatus)
      requires Valid()
      modifies ring`dmaLastPos
      ensures Valid()
      ensures !ring.uartAttached ==> result == HalError && ring.dmaLastPos == old(ring.dmaLastPos)
      ensures ring.uartAttached ==> result == halResult && ring.dmaLastPos == 0
    {
      result := ring.StartDma(halResult);
    }

    /** MavlinkRx_SetOnMessage: replaces the single subscriber (or removes it). */
    method SetOnMessage(fn: Option<nat>, ctx: nat)
      modifies this`onMessage, this`onMessageCtx
      ensures onMessage == fn && onMessageCtx == ctx
    {
      onMessage := fn;
      onMessageCtx := ctx;
    }

    /** MavlinkRx_GetRxStats: the ring's counters, passed through. */
    method GetRxStats() returns (stats: UartRxRing.RxStats)
      ensures stats == UartRxRing.RxStats(ring.pushedBytes, ring.droppedBytes, ring.overflowEvents)
    {
      stats := ring.GetStats();
    }

    /**
     * The inner loop of MavlinkRx_Update: `buf[..n)` to the parser, byte by
     * byte, with a callback call per completed frame when one is registered.
     */
    method FeedBytes(buf: array<byte>, n: nat)
      requires n <= buf.Length
      modifies this`status, this`delivered
      ensures var p := Pump(parse, onMessage, onMessageCtx, old(status), buf[..n]);
        status == p.status && delivered == old(delivered) + p.calls
    {
      ghost var s0, d0 := status, delivered;
      for i := 0 to n
        invariant var p := Pump(parse, onMessage, onMessageCtx, s0, buf[..i]);
          status == p.status && delivered == d0 + p.calls
      {
        assert buf[..i + 1][..i] == buf[..i];
        var step := parse(status, buf[i]);
        status := step.status;
        if step.frame.Some? && onMessage.Some? {
          delivered := delivered + [Delivery(onMessage.value, onMessageCtx, step.frame.value)];
        }
      }
    }

    /**
     * One pass of the drain loop of MavlinkRx_Update: a read of at most 64
     * bytes from the ring, then those bytes to the parser. Returns the bytes
     * read (none only when the ring was empty).
     */
    method ReadAndFeed(buf: array<byte>) returns (chunk: seq<byte>)
      requires Valid() && buf.Length == READ_CHUNK as int && buf != ring.swBuf && buf != ring.dmaBuf
      modifies ring`swTail, buf, this`status, this`delivered
      ensures Valid()
      ensures |chunk| == Min(READ_CHUNK as int, |old(ring.Contents())|)
      ensures chunk == old(ring.Contents())[..|chunk|] && ring.Contents() == old(ring.Contents())[|chunk|..]
      ensures var p := Pump(parse, onMessage, onMessageCtx, old(status), chunk);
        status == p.status && delivered == old(delivered) + p.calls
    {
      var n := ring.Read(buf, READ_CHUNK);
      chunk := buf[..n];
      FeedBytes(buf, n as nat);
    }

    /**
     * The drain loop's invariant: the ring holds what is left of the polled
     * bytes after `consumed`, with the counters and bridge position the poll
     * left, and the parser and subscriber have had exactly `consumed`.
     */
    ghost predicate Draining(pos: nat, polled: UartRxRing.RxView, s0: MavStatus, d0: seq<Delivery>,
                             consumed: seq<byte>)
      reads this, ring, ring.swBuf
    {
      Valid() && ring.dmaLastPos == pos &&
      ring.pushedBytes == polled.pushed && ring.droppedBytes == polled.dropped &&
      ring.overflowEvents == polled.overflows &&
      consumed + ring.Contents() == polled.contents &&
      var p := Pump(parse, onMessage, onMessageCtx, s0, consumed);
      status == p.status && delivered == d0 + p.calls
    }

    /** One pass of the drain loop keeps its invariant and consumes the bytes read. */
    method DrainStep(buf: array<byte>, ghost pos: nat, ghost polled: UartRxRing.RxView, ghost s0: MavStatus,
                     ghost d0: seq<Delivery>, ghost consumed: seq<byte>) returns (n: nat, ghost consumed': seq<byte>)
      requires buf.Length == READ_CHUNK as int && buf != ring.swBuf && buf != ring.dmaBuf
      requires Draining(pos, polled, s0, d0, consumed)
      modifies ring`swTail, buf, this`status, this`delivered
      ensures Draining(pos, polled, s0, d0, consumed')
      ensures n == Min(READ_CHUNK as int, old(ring.Available())) && ring.Available() == old(ring.Available()) - n
      ensures consumed' == consumed + old(ring.Contents())[..n]
    {
      ghost var rest := ring.Contents();
      var chunk := ReadAndFeed(buf);
      n := |chunk|;
      PumpAppend(parse, onMessage, onMessageCtx, s0, consumed, chunk);
      SplitAt(consumed, rest, n);
      consumed' := consumed + chunk;
    }

    /**
     * MavlinkRx_Update: one poll of the bridge (`ndtr` is the hardware's
     * remaining-transfer counter), then the whole software ring drained into
     * the parser in FIFO order. The ring ends empty with its counters as the
     * poll left them, the parser has seen exactly the polled ring contents,
     * and the subscriber got one call per completed frame, in order.
     */
    method Update(ndtr: u16)
      requires Valid()
      modifies ring`swHead, ring`swTail, ring`pushedBytes, ring`droppedBytes, ring`overflowEvents,
        ring`dmaLastPos, ring.swBuf, this`status, this`delivered
      ensures Valid()
      ensures var polled := UartRxRing.PushAll(old(ring.View()), old(ring.NewBytes(ndtr)));
        var p := Pump(parse, onMessage, onMessageCtx, old(status), polled.contents);
        ring.View() == polled.(contents := []) && status == p.status && delivered == old(delivered) + p.calls
      ensures ring.dmaLastPos == if ring.uartAttached then ring.DmaWritePos(ndtr) else old(ring.dmaLastPos)
    {
      ring.PollFromDma(ndtr);
      ghost var polled, pos := ring.View(), ring.dmaLastPos;
      ghost var s0, d0 := status, delivered;
      ghost var consumed: seq<byte> := [];
      assert Draining(pos, polled, s0, d0, consumed);
      var buf := new byte[READ_CHUNK];
      while ring.Available() > 0
        invariant Draining(pos, polled, s0, d0, consumed)
        decreases ring.Available()
      {
        var n;
        n, consumed := DrainStep(buf, pos, polled, s0, d0, consumed);
        if n == 0 {
          break;
        }
      }
      assert consumed == polled.contents;
    }
  }
}
