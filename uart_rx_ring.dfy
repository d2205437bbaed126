/**
 * The UART receive path: a circular buffer that the DMA engine fills on its
 * own, and a software ring (one slot always kept empty) that polling copies
 * the new bytes into and that readers drain in FIFO order. When the software
 * ring is full the newest byte is dropped and counted.
 */
module UartRxRing {
  import opened Common
  import Circular

  /** `UART_RX_RING_DMA_BUF_SIZE` and `UART_RX_RING_SW_BUF_SIZE`. */
  const DMA_SIZE: nat := 256
  const SW_SIZE: nat := 512

  /** `UartRxRing_Stats`. */
  datatype RxStats = RxStats(pushedBytes: u32, droppedBytes: u32, overflowEvents: u32)

  /** Free slots of the software ring; one slot is reserved so that full and empty differ. */
  function SwFreeSpace(head: nat, tail: nat): (free: nat)
    requires head < SW_SIZE && tail < SW_SIZE
    ensures free + Circular.Count(tail, head, SW_SIZE) == SW_SIZE - 1
  {
    if head >= tail then SW_SIZE - (head - tail) - 1 else (tail - head) - 1
  }

  /** Of `n` bytes offered to a ring with `free` free slots, how many it keeps. */
  function Kept(n: nat, free: nat): (k: nat)
    ensures k <= n && k <= free && (k == n || k == free)
  {
    Min(n, free)
  }

  /** The software ring seen abstractly: the bytes it holds, oldest first, and its counters. */
  datatype RxView = RxView(contents: seq<byte>, pushed: u32, dropped: u32, overflows: u32)

  /** One byte offered to the ring: kept when a slot is free, otherwise dropped and counted. */
  function Push(v: RxView, b: byte): RxView
  {
    if |v.contents| >= SW_SIZE - 1 then
      v.(dropped := Add32(v.dropped, 1), overflows := Add32(v.overflows, 1))
    else
      v.(contents := v.contents + [b], pushed := Add32(v.pushed, 1))
  }

  /** Bytes offered one after another, in order. */
  function PushAll(v: RxView, bytes: seq<byte>): RxView
    decreases |bytes|
  {
    if bytes == [] then v else Push(PushAll(v, bytes[..|bytes| - 1]), bytes[|bytes| - 1])
  }

  /**
   * Offering `a` and then `b` is offering `a + b`: the two copy loops of a
   * wrapped range leave the ring as one copy of the whole range would.
   */
  lemma {:induction false} PushAllAppend(v: RxView, a: seq<byte>, b: seq<byte>)
    ensures PushAll(v, a + b) == PushAll(PushAll(v, a), b)
    decreases |b|
  {
    if b != [] {
      var b' := b[..|b| - 1];
      assert (a + b)[..|a + b| - 1] == a + b';
      PushAllAppend(v, a, b');
    } else {
      assert a + b == a;
    }
  }

  /**
   * Newest-byte drop: of the offered bytes the ring keeps the oldest ones
   * that fit, in order; every other byte counts once as dropped and once
   * as an overflow event, so kept plus dropped is the number offered.
   */
  lemma {:induction false} PushAllKeeps(v: RxView, bytes: seq<byte>)
    requires |v.contents| <= SW_SIZE - 1
    ensures var k := Kept(|bytes|, SW_SIZE - 1 - |v.contents|);
      PushAll(v, bytes) == RxView(v.contents + bytes[..k], Add32(v.pushed, k),
                                  Add32(v.dropped, |bytes| - k), Add32(v.overflows, |bytes| - k))
    decreases |bytes|
  {
    if bytes == [] {
      assert v.contents + bytes[..0] == v.contents;
      assert Add32(v.pushed, 0) == v.pushed && Add32(v.dropped, 0) == v.dropped;
      assert Add32(v.overflows, 0) == v.overflows;
    } else {
      var n := |bytes| - 1;
      var free := SW_SIZE - 1 - |v.contents|;
      PushAllKeeps(v, bytes[..n]);
      var k := Kept(n, free);
      assert bytes[..n][..k] == bytes[..k];
      if k < free {
        assert bytes[..k] + [bytes[n]] == bytes[..k + 1];
        Add32Twice(v.pushed, k, 1);
      } else {
        Add32Twice(v.dropped, n - k, 1);
        Add32Twice(v.overflows, n - k, 1);
      }
    }
  }

  class RxRing {
    /** `huart != NULL` and `huart->hdmarx != NULL`, fixed by Init. */
    const uartAttached: bool
    const dmaRxLinked: bool

    /** Written by the DMA engine only; software reads it. */
    const dmaBuf: array<byte>
    var dmaLastPos: nat

    const swBuf: array<byte>
    var swHead: nat
    var swTail: nat

    var pushedBytes: u32
    var droppedBytes: u32
    var overflowEvents: u32

    ghost predicate Valid()
      reads this
    {
      dmaBuf.Length == DMA_SIZE && swBuf.Length == SW_SIZE && dmaBuf != swBuf &&
      dmaLastPos < DMA_SIZE && swHead < SW_SIZE && swTail < SW_SIZE
    }

    /** The bytes waiting in the software ring, oldest first. */
    ghost function Contents(): seq<byte>
      reads this, swBuf
      requires Valid()
    {
      Circular.Window(swBuf[..], swTail, swHead)
    }

    /** The ring's bytes together with its counters. */
    ghost function View(): RxView
      reads this, swBuf
      requires Valid()
    {
      RxView(Contents(), pushedBytes, droppedBytes, overflowEvents)
    }

    /** UartRxRing_Init on fresh storage. */
    constructor Init(uartAttached: bool, dmaRxLinked: bool)
      ensures Valid() && fresh(dmaBuf) && fresh(swBuf)
      ensures this.uartAttached == uartAttached && this.dmaRxLinked == dmaRxLinked
      ensures Contents() == [] && swHead == 0 && swTail == 0 && dmaLastPos == 0
      ensures pushedBytes == 0 && droppedBytes == 0 && overflowEvents == 0
      ensures forall i :: 0 <= i < DMA_SIZE ==> dmaBuf[i] == 0
    {
      this.uartAttached := uartAttached;
      this.dmaRxLinked := dmaRxLinked;
      dmaBuf := new byte[DMA_SIZE](_ => 0);
      dmaLastPos := 0;
      swBuf := new byte[SW_SIZE];
      swHead, swTail := 0, 0;
      pushedBytes, droppedBytes, overflowEvents := 0, 0, 0;
    }

    /**
     * UartRxRing_StartDma: without a UART handle it fails and changes nothing;
     * otherwise it restarts the bridge at position 0 and reports what the HAL
     * reception start (`halResult`) returned.
     */
    method StartDma(halResult: HalStatus) returns (status: HalStatus)
      requires Valid()
      modifies this`dmaLastPos
      ensures Valid()
      ensures !uartAttached ==> status == HalError && dmaLastPos == old(dmaLastPos)
      ensures uartAttached ==> status == halResult && dmaLastPos == 0
    {
      if !uartAttached {
        return HalError;
      }
      dmaLastPos := 0;
      status := halResult;
    }

    /**
     * UartRxRing_GetDmaWritePos: `dma_size - NDTR` in 16 bits, with anything
     * outside the buffer (and a missing handle) read as 0.
     */
    function DmaWritePos(ndtr: u16): (pos: nat)
      reads this
      ensures pos < DMA_SIZE
      ensures pos == if uartAttached && dmaRxLinked && 0 < ndtr as int <= DMA_SIZE
                     then DMA_SIZE - ndtr as int else 0
    {
      if !uartAttached || !dmaRxLinked then 0
      else
        var p := (DMA_SIZE - ndtr as int) % U16_MOD;
        if p >= DMA_SIZE then 0 else p
    }

    /**
     * The bytes the hardware wrote since the last poll, in arrival order.
     * A whole lap of the hardware buffer reads as no bytes at all.
     */
    ghost function NewBytes(ndtr: u16): seq<byte>
      reads this, dmaBuf
      requires Valid()
    {
      if !uartAttached then [] else Circular.Window(dmaBuf[..], dmaLastPos, DmaWritePos(ndtr))
    }

    /**
     * UartRxRing_SwPushByte_NoLock: appends `b` when a slot is free; into a
     * full ring it changes neither the bytes nor the indices and counts one
     * dropped byte and one overflow event.
     */
    method SwPushByte(b: byte)
      requires Valid()
      modifies this`swHead, this`pushedBytes, this`droppedBytes, this`overflowEvents, swBuf
      ensures Valid() && swTail == old(swTail)
      ensures View() == Push(old(View()), b)
      ensures swHead == if old(SwFreeSpace(swHead, swTail)) == 0 then old(swHead)
                        else (old(swHead) + 1) % SW_SIZE
      ensures old(SwFreeSpace(swHead, swTail)) == 0 ==> swBuf[..] == old(swBuf[..])
    {
      var free := SwFreeSpace(swHead, swTail);
      if free == 0 {
        overflowEvents := Add32(overflowEvents, 1);
        droppedBytes := Add32(droppedBytes, 1);
        return;
      }
      Circular.WindowPush(swBuf[..], swTail, swHead, b);
      Circular.AdvanceIsMod(swHead, 1, SW_SIZE);
      swBuf[swHead] := b;
      swHead := (swHead + 1) % SW_SIZE;
      pushedBytes := Add32(pushedBytes, 1);
    }

    /** One of the copy loops of UartRxRing_PollFromDma: offers `dmaBuf[lo..hi)` in order. */
    method PushRange(lo: nat, hi: nat)
      requires Valid() && lo <= hi <= DMA_SIZE
      modifies this`swHead, this`pushedBytes, this`droppedBytes, this`overflowEvents, swBuf
      ensures Valid() && swTail == old(swTail)
      ensures View() == PushAll(old(View()), dmaBuf[lo..hi])
    {
      ghost var v0 := View();
      ghost var src := dmaBuf[lo..hi];
      for i := lo to hi
        invariant Valid() && swTail == old(swTail) && dmaBuf[lo..hi] == src
        invariant View() == PushAll(v0, src[..i - lo])
      {
        var b := dmaBuf[i];
        assert src[..i + 1 - lo][..i - lo] == src[..i - lo] && src[..i + 1 - lo][i - lo] == b;
        SwPushByte(b);
      }
      assert src[..hi - lo] == src;
    }

    /**
     * UartRxRing_PollFromDma: offers the bytes written since the last poll
     * to the software ring, oldest first (PushAllKeeps says which are kept
     * and how the counters move), and moves the bridge to the current
     * hardware position whether or not bytes were dropped.
     */
    method PollFromDma(ndtr: u16)
      requires Valid()
      modifies this`swHead, this`pushedBytes, this`droppedBytes, this`overflowEvents,
        this`dmaLastPos, swBuf
      ensures Valid() && swTail == old(swTail)
      ensures View() == PushAll(old(View()), old(NewBytes(ndtr)))
      ensures dmaLastPos == if uartAttached then DmaWritePos(ndtr) else old(dmaLastPos)
    {
      ghost var v0, span := View(), NewBytes(ndtr);
      if !uartAttached {
        return;
      }
      var pos := DmaWritePos(ndtr);
      var last := dmaLastPos;
      if pos == last {
        return;
      }
      if pos > last {
        PushRange(last, pos);
      } else {
        assert span == dmaBuf[last..DMA_SIZE] + dmaBuf[0..pos];
        PushRange(last, DMA_SIZE);
        PushRange(0, pos);
        PushAllAppend(v0, dmaBuf[last..DMA_SIZE], dmaBuf[0..pos]);
      }
      dmaLastPos := pos;
    }

    /** UartRxRing_Available: the number of bytes waiting. */
    function Available(): (avail: nat)
      reads this, swBuf
      requires Valid()
      ensures avail == |Contents()| && avail <= SW_SIZE - 1
    {
      if swHead >= swTail then swHead - swTail else SW_SIZE - swTail + swHead
    }

    /**
     * UartRxRing_Read: pops up to `maxLen` bytes in FIFO order into `out`.
     * A null `out` or a zero `maxLen` reads nothing.
     */
    method Read(out: array?<byte>, maxLen: u16) returns (n: u16)
      requires Valid()
      requires out != null ==> out.Length >= maxLen as int && out != swBuf && out != dmaBuf
      modifies this`swTail, out
      ensures Valid()
      ensures n as int == if out == null || maxLen == 0 then 0 else Min(maxLen as int, |old(Contents())|)
      ensures Contents() == old(Contents())[n..]
      ensures out != null ==> out[..n] == old(Contents())[..n] && out[n..] == old(out[n..])
    {
      if out == null || maxLen == 0 {
        return 0;
      }
      ghost var c0 := Contents();
      var count: nat := 0;
      while count < maxLen as int
        invariant Valid()
        invariant count <= maxLen as int && count <= |c0| && Contents() == c0[count..]
        invariant out[..count] == c0[..count] && out[count..] == old(out[count..])
      {
        if swTail == swHead {
          break;
        }
        var b := PopByte();
        out[count] := b;
        count := count + 1;
      }
      n := count as u16;
    }

    /** One iteration of Read's copy loop: takes the oldest byte out of the ring. */
    method PopByte() returns (b: byte)
      requires Valid() && swTail != swHead
      modifies this`swTail
      ensures Valid()
      ensures |old(Contents())| > 0 && b == old(Contents())[0] && Contents() == old(Contents())[1..]
    {
      ghost var rest := Contents();
      Circular.WindowSkip(swBuf[..], swTail, swHead, 1);
      assert rest[0] == swBuf[swTail];
      b := swBuf[swTail];
      assert (swTail + 1) % SW_SIZE == Circular.Advance(swTail, 1, SW_SIZE);
      swTail := (swTail + 1) % SW_SIZE;
    }

    /** UartRxRing_GetStats: a snapshot of the three counters. */
    method GetStats() returns (stats: RxStats)
      ensures stats.pushedBytes == pushedBytes && stats.droppedBytes == droppedBytes
      ensures stats.overflowEvents == overflowEvents
    {
      stats := RxStats(pushedBytes, droppedBytes, overflowEvents);
    }
  }
}
