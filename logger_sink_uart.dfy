/**
 * The logger's UART transmit path: writers copy bytes into a software ring
 * (one slot always kept empty) and never block, dropping what does not fit;
 * a two-state burst machine hands the hardware one contiguous, non-wrapping
 * span at a time and, on each completion, advances the read index by exactly
 * that span and starts the next one.
 */
module LoggerSinkUart {
  import opened Common
  import Circular

  /** `LOGGER_SINK_UART_TX_BUF_SIZE` and `LOGGER_SINK_UART_WRITE_CHUNK_MAX`. */
  const TX_SIZE: nat := 1024
  const WRITE_CHUNK_MAX: nat := 64

  /** `LoggerSinkUart_Stats`. */
  datatype SinkStats = SinkStats(droppedBytes: u32, overflowEvents: u32, dmaErrors: u32)

  /** FreeSpace_NoLock: free slots of the ring, one slot being reserved. */
  function FreeSpace(head: nat, tail: nat): (free: nat)
    requires head < TX_SIZE && tail < TX_SIZE
    ensures free + Circular.Count(tail, head, TX_SIZE) == TX_SIZE - 1
  {
    if head >= tail then TX_SIZE - (head - tail) - 1 else (tail - head) - 1
  }

  /**
   * ContiguousBytes_NoLock: the longest run of queued bytes starting at
   * `tail` that does not cross the physical end of the buffer.
   */
  function ContiguousBytes(head: nat, tail: nat): (c: nat)
    requires head < TX_SIZE && tail < TX_SIZE
    ensures c <= Circular.Count(tail, head, TX_SIZE) && tail + c <= TX_SIZE
    ensures c == 0 <==> head == tail
    ensures c == Circular.Count(tail, head, TX_SIZE) || tail + c == TX_SIZE
  {
    if head >= tail then head - tail else TX_SIZE - tail
  }

  /**
   * Burst chaining: with no writes in between, at most two bursts (the span
   * up to the physical end, then the span from slot 0) empty the ring.
   */
  lemma BurstsDrainInTwo(head: nat, tail: nat)
    requires head < TX_SIZE && tail < TX_SIZE
    ensures var t1 := (tail + ContiguousBytes(head, tail)) % TX_SIZE;
            (t1 + ContiguousBytes(head, t1)) % TX_SIZE == head
  {
  }

  /**
   * Bytes copied by one pass of the Write loop: what is left, capped by the
   * free space and by the chunk limit. This is the evidently intended size;
   * ChunkSizeAsWritten is the size the code computes.
   */
  function ChunkSize(remaining: nat, free: nat): (n: nat)
    ensures n <= remaining && n <= free && n <= WRITE_CHUNK_MAX
    ensures remaining > 0 && free > 0 ==> n > 0
    ensures n == remaining || n == free || n == WRITE_CHUNK_MAX
  {
    Min(Min(remaining, free), WRITE_CHUNK_MAX)
  }

  /** The chunk size as the code computes it: `len - offset` is first cast to `uint16_t`. */
  function ChunkSizeAsWritten(remaining: nat, free: nat): (n: nat)
    ensures n <= free && n <= WRITE_CHUNK_MAX
  {
    var toWrite := remaining % U16_MOD;
    var toWrite := if toWrite > free then free else toWrite;
    if toWrite > WRITE_CHUNK_MAX then WRITE_CHUNK_MAX else toWrite
  }

  /** Both sizes agree whenever what is left fits in 16 bits. */
  lemma ChunkSizeAgreesBelow64K(remaining: nat, free: nat)
    requires remaining < U16_MOD
    ensures ChunkSizeAsWritten(remaining, free) == ChunkSize(remaining, free)
  {
  }

  /**
   * A write of 65536 bytes into an empty ring: the cast makes the chunk 0,
   * so `offset` never advances and the loop never ends.
   */
  lemma ChunkSizeAsWrittenStalls()
    ensures FreeSpace(0, 0) == TX_SIZE - 1
    ensures ChunkSizeAsWritten(65536, FreeSpace(0, 0)) == 0
  {
  }

  /** Number of passes of the Write loop that copy `k` bytes in chunks of at most 64 (WRITE_CHUNK_MAX). */
  function Chunks(k: nat): nat
  {
    (k + 63) / 64
  }

  /** Pass `p` copies something exactly when `p < Chunks(k)`; the passes cover all `k` bytes. */
  lemma ChunksBounds(k: nat, p: nat)
    ensures 64 * p < k <==> p < Chunks(k)
    ensures k <= 64 * Chunks(k)
  {
  }

  /**
   * The first of passes `0 .. passes - 1` whose burst attempt the HAL
   * accepts, where `accepts` holds the passes on which HAL_UART_Transmit_DMA
   * returns HAL_OK; `passes` if it refuses every one.
   */
  function FirstAccepted(accepts: set<nat>, passes: nat): (f: nat)
    ensures f <= passes
    ensures f < passes ==> (f in accepts)
    ensures forall q :: 0 <= q < f ==> !(q in accepts)
  {
    if passes == 0 then 0
    else
      var f := FirstAccepted(accepts, passes - 1);
      if f < passes - 1 then f
      else if passes - 1 in accepts then passes - 1
      else passes
  }

  /**
   * The sink's state as values: ring indices, the queued bytes, the ghost
   * traces of accepted and sent bytes, the burst machine and the counters.
   */
  datatype TxView = TxView(
    head: nat, tail: nat, queued: seq<byte>, accepted: seq<byte>, sent: seq<byte>,
    busy: bool, inFlight: nat, dropped: u32, overflows: u32, errors: u32)

  /**
   * The ring invariant: as many bytes are queued as lie from `tail` to
   * `head`; what was sent followed by what is queued is exactly what was
   * accepted; a burst in flight is a non-empty prefix of the queued bytes
   * that does not wrap; an idle machine has length 0.
   */
  ghost predicate RingOk(head: nat, tail: nat, queued: seq<byte>, accepted: seq<byte>, sent: seq<byte>,
                         busy: bool, inFlight: nat)
  {
    head < TX_SIZE && tail < TX_SIZE &&
    |queued| == Circular.Count(tail, head, TX_SIZE) &&
    accepted == sent + queued &&
    (busy ==> 0 < inFlight <= |queued| && tail + inFlight <= TX_SIZE) &&
    (!busy ==> inFlight == 0)
  }

  ghost predicate ViewOk(v: TxView)
  {
    RingOk(v.head, v.tail, v.queued, v.accepted, v.sent, v.busy, v.inFlight)
  }

  /** TryStartDma_NoLock on values. */
  function TryStart(v: TxView, halOk: bool): TxView
    requires v.head < TX_SIZE && v.tail < TX_SIZE
  {
    if v.busy || ContiguousBytes(v.head, v.tail) == 0 then v
    else if halOk then v.(busy := true, inFlight := ContiguousBytes(v.head, v.tail))
    else v.(busy := false, inFlight := 0, errors := Add32(v.errors, 1))
  }

  /**
   * TryStart keeps the ring invariant and touches only the burst machine and
   * the error counter: a burst is running afterwards exactly when one was
   * before or the ring holds bytes and the HAL accepted one; a new burst
   * covers ContiguousBytes; one error is counted exactly when a burst was due
   * and the HAL refused it.
   */
  lemma TryStartEffect(v: TxView, halOk: bool)
    requires ViewOk(v)
    ensures var w := TryStart(v, halOk);
            ViewOk(w) &&
            w.(busy := v.busy, inFlight := v.inFlight, errors := v.errors) == v &&
            (w.busy <==> v.busy || (halOk && v.head != v.tail)) &&
            (w.busy ==> w.inFlight == if v.busy then v.inFlight else ContiguousBytes(v.head, v.tail)) &&
            w.errors == if v.busy || v.head == v.tail || halOk then v.errors else Add32(v.errors, 1)
  {
  }

  /** Appending `k` slots past `to` adds `k` to the count, while the window stays short of full. */
  lemma CountAdvance(from: nat, to: nat, k: nat)
    requires from < TX_SIZE && to < TX_SIZE && Circular.Count(from, to, TX_SIZE) + k < TX_SIZE
    ensures Circular.Count(from, Circular.Advance(to, k, TX_SIZE), TX_SIZE) == Circular.Count(from, to, TX_SIZE) + k
  {
  }

  /** One pass of the Write loop on values: `chunk` is appended, then a burst is tried. */
  function Pass(v: TxView, chunk: seq<byte>, halOk: bool): TxView
    requires v.head < TX_SIZE && v.tail < TX_SIZE && |chunk| <= FreeSpace(v.head, v.tail)
  {
    var h := Circular.Advance(v.head, |chunk|, TX_SIZE);
    TryStart(v.(head := h, queued := v.queued + chunk, accepted := v.accepted + chunk), halOk)
  }

  /** One pass appends its chunk to the queued and accepted bytes and leaves the tail alone. */
  lemma PassData(v: TxView, chunk: seq<byte>, halOk: bool)
    requires v.head < TX_SIZE && v.tail < TX_SIZE && |chunk| <= FreeSpace(v.head, v.tail)
    ensures var w := Pass(v, chunk, halOk);
            w.queued == v.queued + chunk && w.accepted == v.accepted + chunk &&
            w.(busy := v.busy, inFlight := v.inFlight, errors := v.errors, head := v.head,
               queued := v.queued, accepted := v.accepted) == v
  {
  }

  /** The burst machine and error counter after one pass: a burst is tried once the chunk is queued. */
  lemma PassFields(v: TxView, chunk: seq<byte>, halOk: bool)
    requires v.head < TX_SIZE && v.tail < TX_SIZE && |chunk| <= FreeSpace(v.head, v.tail)
    ensures var h := Circular.Advance(v.head, |chunk|, TX_SIZE);
            var w := Pass(v, chunk, halOk);
            var due := !v.busy && h != v.tail;
            (w.busy <==> v.busy || (due && halOk)) &&
            (w.busy ==> w.inFlight == if v.busy then v.inFlight else ContiguousBytes(h, v.tail)) &&
            (!w.busy ==> w.inFlight == if due then 0 else v.inFlight) &&
            w.errors == (if due && !halOk then Add32(v.errors, 1) else v.errors)
  {
  }

  /**
   * The state after `p` passes of the Write loop over the first `k` bytes of
   * `src`: pass `q` copies bytes `64 * q` up to `64 * (q + 1)` (at most `k`),
   * then tries a burst, which the HAL accepts exactly when `q` is in `accepts`.
   */
  function Passes(v: TxView, src: seq<byte>, k: nat, p: nat, accepts: set<nat>): (w: TxView)
    requires v.head < TX_SIZE && v.tail < TX_SIZE
    requires k <= |src| && k <= FreeSpace(v.head, v.tail)
    ensures w.head < TX_SIZE && w.tail == v.tail
    ensures w.head == Circular.Advance(v.head, Min(k, 64 * p), TX_SIZE)
    ensures FreeSpace(w.head, w.tail) == FreeSpace(v.head, v.tail) - Min(k, 64 * p)
    decreases p
  {
    if p == 0 then v
    else
      var s := Min(k, 64 * (p - 1));
      var e := Min(k, 64 * p);
      Circular.AdvanceTwice(v.head, s, e - s, TX_SIZE);
      CountAdvance(v.tail, v.head, e);
      Pass(Passes(v, src, k, p - 1, accepts), src[s..e], p - 1 in accepts)
  }

  /** The state after the Write loop has copied the first `m` bytes of `src`, in Chunks(m) passes. */
  function Written(v: TxView, src: seq<byte>, m: nat, accepts: set<nat>): (w: TxView)
    requires v.head < TX_SIZE && v.tail < TX_SIZE
    requires m <= |src| && m <= FreeSpace(v.head, v.tail)
    ensures w.head < TX_SIZE && w.tail == v.tail
    ensures FreeSpace(w.head, w.tail) == FreeSpace(v.head, v.tail) - m
  {
    ChunksBounds(m, 0);
    Passes(v, src, m, Chunks(m), accepts)
  }

  /**
   * LoggerSink_Write on values: the longest prefix of `src` that fits is
   * written; if some bytes did not fit, they are all counted as dropped and
   * one overflow event is counted.
   */
  function WriteResult(v: TxView, src: seq<byte>, accepts: set<nat>): TxView
    requires v.head < TX_SIZE && v.tail < TX_SIZE
  {
    var k := Min(|src|, FreeSpace(v.head, v.tail));
    var w := Written(v, src, k, accepts);
    if k < |src| then w.(overflows := Add32(w.overflows, 1), dropped := Add32(w.dropped, |src| - k))
    else w
  }

  /** Pass `p` follows the first `p` passes: it copies the next chunk of at most 64 bytes. */
  lemma PassesNext(v: TxView, src: seq<byte>, k: nat, p: nat, accepts: set<nat>)
    requires v.head < TX_SIZE && v.tail < TX_SIZE
    requires k <= |src| && k <= FreeSpace(v.head, v.tail)
    ensures Min(k, 64 * p) <= Min(k, 64 * p + 64)
    ensures Passes(v, src, k, p + 1, accepts) ==
            Pass(Passes(v, src, k, p, accepts), src[Min(k, 64 * p)..Min(k, 64 * p + 64)], p in accepts)
  {
  }

  /**
   * Pass `pass` of the Write loop starts where the previous passes stopped
   * and, copying ChunkSize bytes, ends where the next pass starts; the
   * state it leaves is the state after `pass + 1` passes.
   */
  lemma PassStep(before: TxView, v0: TxView, src: seq<byte>, len: nat, k: nat, offset: nat, n: nat,
                 pass: nat, accepts: set<nat>)
    requires v0.head < TX_SIZE && v0.tail < TX_SIZE && len <= |src|
    requires k == Min(len, FreeSpace(v0.head, v0.tail))
    requires offset == Min(k, 64 * pass) && offset < len
    requires before == Passes(v0, src, k, pass, accepts) && FreeSpace(before.head, before.tail) > 0
    requires n == ChunkSize(len - offset, FreeSpace(before.head, before.tail))
    ensures offset + n == Min(k, 64 * (pass + 1)) && pass < Chunks(k) && n > 0
    ensures offset + n <= |src| && n <= FreeSpace(before.head, before.tail)
    ensures Pass(before, src[offset..offset + n], pass in accepts) == Passes(v0, src, k, pass + 1, accepts)
  {
    ChunksBounds(k, pass);
    PassesNext(v0, src, k, pass, accepts);
  }

  /** Once a pass leaves no bytes or no room, the passes made are exactly Chunks(k): the state is Written. */
  lemma PassesDone(v0: TxView, src: seq<byte>, len: nat, k: nat, offset: nat, pass: nat, accepts: set<nat>)
    requires v0.head < TX_SIZE && v0.tail < TX_SIZE && len <= |src|
    requires k == Min(len, FreeSpace(v0.head, v0.tail)) && pass <= Chunks(k)
    requires offset == Min(k, 64 * pass)
    requires var w := Passes(v0, src, k, pass, accepts); !(offset < len && FreeSpace(w.head, w.tail) > 0)
    ensures offset == k
    ensures Passes(v0, src, k, pass, accepts) == Written(v0, src, offset, accepts)
  {
    ChunksBounds(k, pass);
  }

  /** The passes look only at the bytes they copy. */
  lemma {:induction false} PassesPrefix(v: TxView, src: seq<byte>, len: nat, k: nat, p: nat, accepts: set<nat>)
    requires v.head < TX_SIZE && v.tail < TX_SIZE
    requires k <= len <= |src| && k <= FreeSpace(v.head, v.tail)
    ensures Passes(v, src[..len], k, p, accepts) == Passes(v, src, k, p, accepts)
    decreases p
  {
    if p > 0 {
      PassesPrefix(v, src, len, k, p - 1, accepts);
      var s, e := Min(k, 64 * (p - 1)), Min(k, 64 * p);
      assert src[..len][s..e] == src[s..e];
    }
  }

  /**
   * What the passes copy: the first `min(k, 64 * p)` bytes of `src` are
   * queued and accepted in order, and nothing but `head`, the burst machine
   * and the error counter changes otherwise.
   */
  lemma {:induction false} PassesData(v: TxView, src: seq<byte>, k: nat, p: nat, accepts: set<nat>)
    requires v.head < TX_SIZE && v.tail < TX_SIZE
    requires k <= |src| && k <= FreeSpace(v.head, v.tail)
    ensures var w := Passes(v, src, k, p, accepts);
            var e := Min(k, 64 * p);
            w.queued == v.queued + src[..e] && w.accepted == v.accepted + src[..e] &&
            w.(busy := v.busy, inFlight := v.inFlight, errors := v.errors, head := v.head,
               queued := v.queued, accepted := v.accepted) == v
    decreases p
  {
    if p == 0 {
      assert src[..0] == [];
    } else {
      PassesData(v, src, k, p - 1, accepts);
      var s, e := Min(k, 64 * (p - 1)), Min(k, 64 * p);
      PassData(Passes(v, src, k, p - 1, accepts), src[s..e], p - 1 in accepts);
      AppendPrefix(v.queued, src, s, e);
      AppendPrefix(v.accepted, src, s, e);
    }
  }

  /** One more pass keeps the error count of PassesErrors. */
  lemma ErrorsStep(u: TxView, chunk: seq<byte>, accepts: set<nat>, p: nat, busy0: bool, errors0: u32)
    requires u.head < TX_SIZE && u.tail < TX_SIZE && |chunk| <= FreeSpace(u.head, u.tail)
    requires p > 0 && |chunk| > 0
    requires u.busy <==> busy0 || FirstAccepted(accepts, p - 1) < p - 1
    requires u.errors == if busy0 then errors0 else Add32(errors0, FirstAccepted(accepts, p - 1))
    ensures Pass(u, chunk, p - 1 in accepts).errors ==
            if busy0 then errors0 else Add32(errors0, FirstAccepted(accepts, p))
  {
    CountAdvance(u.tail, u.head, |chunk|);
    PassFields(u, chunk, p - 1 in accepts);
    if !busy0 && FirstAccepted(accepts, p - 1) == p - 1 && p - 1 !in accepts {
      Add32Twice(errors0, p - 1, 1);
    }
  }

  /**
   * A burst runs after the passes exactly when one was running before or
   * the HAL accepted one of the attempts.
   */
  lemma {:induction false} PassesBusy(v: TxView, src: seq<byte>, k: nat, p: nat, accepts: set<nat>)
    requires v.head < TX_SIZE && v.tail < TX_SIZE
    requires k <= |src| && k <= FreeSpace(v.head, v.tail) && p <= Chunks(k)
    ensures Passes(v, src, k, p, accepts).busy <==> v.busy || FirstAccepted(accepts, p) < p
    decreases p
  {
    if p > 0 {
      ChunksBounds(k, p - 1);
      var u := Passes(v, src, k, p - 1, accepts);
      var s, e := Min(k, 64 * (p - 1)), Min(k, 64 * p);
      assert u.busy <==> v.busy || FirstAccepted(accepts, p - 1) < p - 1 by {
        PassesBusy(v, src, k, p - 1, accepts);
      }
      CountAdvance(u.tail, u.head, e - s);
      PassFields(u, src[s..e], p - 1 in accepts);
    }
  }

  /**
   * With no burst running before, every refused attempt up to the first
   * accepted one counts one DMA error; with one running, none is made.
   */
  lemma {:induction false} PassesErrors(v: TxView, src: seq<byte>, k: nat, p: nat, accepts: set<nat>)
    requires v.head < TX_SIZE && v.tail < TX_SIZE
    requires k <= |src| && k <= FreeSpace(v.head, v.tail) && p <= Chunks(k)
    ensures Passes(v, src, k, p, accepts).errors ==
            if v.busy then v.errors else Add32(v.errors, FirstAccepted(accepts, p))
    decreases p
  {
    if p > 0 {
      ChunksBounds(k, p - 1);
      var s, e := Min(k, 64 * (p - 1)), Min(k, 64 * p);
      var u := Passes(v, src, k, p - 1, accepts);
      assert u.busy <==> v.busy || FirstAccepted(accepts, p - 1) < p - 1 by {
        PassesBusy(v, src, k, p - 1, accepts);
      }
      assert u.errors == if v.busy then v.errors else Add32(v.errors, FirstAccepted(accepts, p - 1)) by {
        PassesErrors(v, src, k, p - 1, accepts);
      }
      ErrorsStep(u, src[s..e], accepts, p, v.busy, v.errors);
    }
  }

  /** One pass keeps the ring invariant and appends its chunk to the queued and accepted bytes. */
  lemma PassOk(v: TxView, chunk: seq<byte>, halOk: bool)
    requires ViewOk(v) && |chunk| <= FreeSpace(v.head, v.tail)
    ensures ViewOk(Pass(v, chunk, halOk))
  {
    var u := v.(head := Circular.Advance(v.head, |chunk|, TX_SIZE), queued := v.queued + chunk,
                accepted := v.accepted + chunk);
    CountAdvance(v.tail, v.head, |chunk|);
    assert ViewOk(u);
    TryStartEffect(u, halOk);
  }

  /** Any number of passes keeps the ring invariant. */
  lemma {:induction false} PassesOk(v: TxView, src: seq<byte>, k: nat, p: nat, accepts: set<nat>)
    requires ViewOk(v) && k <= |src| && k <= FreeSpace(v.head, v.tail)
    ensures ViewOk(Passes(v, src, k, p, accepts))
    decreases p
  {
    if p > 0 {
      PassesOk(v, src, k, p - 1, accepts);
      var s, e := Min(k, 64 * (p - 1)), Min(k, 64 * p);
      PassOk(Passes(v, src, k, p - 1, accepts), src[s..e], p - 1 in accepts);
    }
  }

  /**
   * A Write keeps the ring invariant (every accepted byte is either sent or
   * still queued, in order), and every byte of `src` is either accepted or
   * counted as dropped; bytes are dropped only once the ring is full.
   */
  lemma WriteResultOk(v: TxView, src: seq<byte>, accepts: set<nat>)
    requires ViewOk(v)
    ensures var w := WriteResult(v, src, accepts);
            ViewOk(w) && w.sent == v.sent &&
            (v.dropped as int + |src| < U32_MOD ==>
               (|w.accepted| - |v.accepted|) + (w.dropped as int - v.dropped as int) == |src|) &&
            (w.dropped != v.dropped ==> FreeSpace(w.head, w.tail) == 0)
  {
    var k := Min(|src|, FreeSpace(v.head, v.tail));
    ChunksBounds(k, 0);
    PassesData(v, src, k, Chunks(k), accepts);
    PassesOk(v, src, k, Chunks(k), accepts);
  }

  /**
   * A completed burst on values: the span in flight moves from the queued
   * bytes to the sent ones, `tail` advances by its length, the machine goes
   * idle and at once tries the next burst.
   */
  function Completed(v: TxView, halOk: bool): TxView
    requires ViewOk(v)
  {
    TryStart(v.(tail := Circular.Advance(v.tail, v.inFlight, TX_SIZE),
                queued := v.queued[v.inFlight..], sent := v.sent + v.queued[..v.inFlight],
                busy := false, inFlight := 0), halOk)
  }

  /**
   * A completion keeps the ring invariant and sends bytes strictly in the
   * order they were accepted: exactly the span that was in flight, the
   * oldest queued bytes, is appended to what was sent; nothing is accepted,
   * and a new burst runs afterwards exactly when bytes remain and the HAL
   * accepts it.
   */
  lemma CompletedEffect(v: TxView, halOk: bool)
    requires ViewOk(v)
    ensures var w := Completed(v, halOk);
            ViewOk(w) && w.accepted == v.accepted && w.head == v.head &&
            w.sent == v.sent + v.queued[..v.inFlight] && w.queued == v.queued[v.inFlight..] &&
            (w.busy <==> halOk && |w.queued| > 0) &&
            w.errors == (if !halOk && |w.queued| > 0 then Add32(v.errors, 1) else v.errors)
  {
    var u := v.(tail := Circular.Advance(v.tail, v.inFlight, TX_SIZE),
                queued := v.queued[v.inFlight..], sent := v.sent + v.queued[..v.inFlight],
                busy := false, inFlight := 0);
    SplitAt(v.sent, v.queued, v.inFlight);
    Circular.CountSkip(v.tail, v.head, v.inFlight, TX_SIZE);
    assert ViewOk(u);
    TryStartEffect(u, halOk);
  }

  /**
   * A transfer error on values: one more DMA error, the machine goes idle
   * without moving `tail`, and a burst is tried again from `tail`.
   */
  function Failed(v: TxView, halOk: bool): TxView
    requires v.head < TX_SIZE && v.tail < TX_SIZE
  {
    TryStart(v.(errors := Add32(v.errors, 1), busy := false, inFlight := 0), halOk)
  }

  /**
   * An error keeps the ring invariant and loses nothing: no byte counts as
   * sent, the span that was in flight is still queued and is what the retry
   * sends first; one error is counted, two if the retry is refused too.
   */
  lemma FailedEffect(v: TxView, halOk: bool)
    requires ViewOk(v)
    ensures var w := Failed(v, halOk);
            ViewOk(w) && w.queued == v.queued && w.sent == v.sent && w.tail == v.tail &&
            (w.busy <==> halOk && |v.queued| > 0) &&
            (w.busy ==> w.inFlight == ContiguousBytes(v.head, v.tail)) &&
            w.errors == Add32(v.errors, if !halOk && |v.queued| > 0 then 2 else 1)
  {
    var u := v.(errors := Add32(v.errors, 1), busy := false, inFlight := 0);
    TryStartEffect(u, halOk);
    Add32Twice(v.errors, 1, if !halOk && |v.queued| > 0 then 1 else 0);
  }

  class Sink {
    const txBuf: array<byte>
    var head: nat
    var tail: nat

    /** The burst machine: idle, or one span of `dmaLenInFlight` bytes from `tail` in flight. */
    var dmaLenInFlight: nat
    var dmaInProgress: bool

    var droppedBytes: u32
    var overflowEvents: u32
    var dmaErrors: u32

    /** The queued bytes, oldest first: the window from `tail` to `head`. */
    ghost var queued: seq<byte>
    /** Every byte a write placed in the ring, in order. */
    ghost var accepted: seq<byte>
    /** The spans of all completed bursts, concatenated in completion order. */
    ghost var sent: seq<byte>

    ghost function View(): TxView
      reads this
    {
      TxView(head, tail, queued, accepted, sent, dmaInProgress, dmaLenInFlight,
             droppedBytes, overflowEvents, dmaErrors)
    }

    /** The ring invariant, and `queued` is the window of `txBuf` from `tail` to `head`. */
    ghost predicate Valid()
      reads this`head, this`tail, this`queued, this`accepted, this`sent, this`dmaInProgress,
        this`dmaLenInFlight, txBuf
    {
      txBuf.Length == TX_SIZE &&
      RingOk(head, tail, queued, accepted, sent, dmaInProgress, dmaLenInFlight) &&
      queued == Circular.Window(txBuf[..], tail, head)
    }

    /** The module's static storage at reset. */
    constructor ()
      ensures Valid() && fresh(txBuf)
      ensures head == 0 && tail == 0 && queued == [] && !dmaInProgress
      ensures droppedBytes == 0 && overflowEvents == 0 && dmaErrors == 0
      ensures accepted == [] && sent == []
    {
      txBuf := new byte[TX_SIZE];
      head, tail := 0, 0;
      dmaLenInFlight, dmaInProgress := 0, false;
      droppedBytes, overflowEvents, dmaErrors := 0, 0, 0;
      queued, accepted, sent := [], [], [];
    }

    /** TryStartDma_NoLock; `halOk` is the result of HAL_UART_Transmit_DMA. */
    method TryStartDma(halOk: bool)
      requires Valid()
      modifies this`dmaInProgress, this`dmaLenInFlight, this`dmaErrors
      ensures Valid() && View() == TryStart(old(View()), halOk)
    {
      if dmaInProgress {
        return;
      }
      var chunk := ContiguousBytes(head, tail);
      if chunk == 0 {
        return;
      }
      dmaInProgress := true;
      dmaLenInFlight := chunk;
      if !halOk {
        dmaInProgress := false;
        dmaLenInFlight := 0;
        dmaErrors := Add32(dmaErrors, 1);
      }
    }

    /** One pass of the inner copy loop of LoggerSink_Write: stores `b` at `head`. */
    method PutByte(b: byte)
      requires Valid() && FreeSpace(head, tail) > 0
      modifies this`head, this`queued, this`accepted, txBuf
      ensures Valid()
      ensures head == Circular.Advance(old(head), 1, TX_SIZE)
      ensures queued == old(queued) + [b] && accepted == old(accepted) + [b]
    {
      Circular.WindowPush(txBuf[..], tail, head, b);
      Circular.AdvanceIsMod(head, 1, TX_SIZE);
      txBuf[head] := b;
      head := (head + 1) % TX_SIZE;
      queued := queued + [b];
      accepted := accepted + [b];
    }

    /** The inner copy loop of LoggerSink_Write: appends `data[offset..offset + n)`. */
    method CopyChunk(data: seq<byte>, offset: nat, n: nat)
      requires Valid()
      requires offset + n <= |data| && n <= FreeSpace(head, tail)
      modifies this`head, this`queued, this`accepted, txBuf
      ensures Valid()
      ensures head == Circular.Advance(old(head), n, TX_SIZE)
      ensures queued == old(queued) + data[offset..offset + n]
      ensures accepted == old(accepted) + data[offset..offset + n]
    {
      ghost var h0, q0, a0, f0 := head, queued, accepted, FreeSpace(head, tail);
      for i := 0 to n
        invariant Valid()
        invariant head == Circular.Advance(h0, i, TX_SIZE)
        invariant FreeSpace(head, tail) == f0 - i
        invariant queued == q0 + data[offset..offset + i]
        invariant accepted == a0 + data[offset..offset + i]
      {
        var b := data[offset + i];
        assert data[offset..offset + i] + [b] == data[offset..offset + i + 1];
        PutByte(b);
      }
    }

    /** One pass of the LoggerSink_Write loop: a chunk is copied, then a burst is tried. */
    method WritePass(data: seq<byte>, offset: nat, n: nat, halOk: bool)
      requires Valid()
      requires offset + n <= |data| && n <= FreeSpace(head, tail)
      modifies this`head, this`queued, this`accepted, txBuf, this`dmaInProgress, this`dmaLenInFlight,
        this`dmaErrors
      ensures Valid() && View() == Pass(old(View()), data[offset..offset + n], halOk)
    {
      CopyChunk(data, offset, n);
      TryStartDma(halOk);
    }

    /**
     * Pass number `pass` of the LoggerSink_Write loop, which starts at
     * `offset` while bytes remain and the ring has room: it copies ChunkSize
     * bytes, returned in `toWrite`, and then tries a burst, which the HAL
     * accepts exactly when `pass` is in `accepts`. `v0` is the state before
     * the loop and `k` the number of bytes that fit.
     */
    method NextPass(data: seq<byte>, len: nat, offset: nat, pass: nat, accepts: set<nat>,
                    ghost v0: TxView, ghost k: nat) returns (toWrite: nat)
      requires Valid() && len <= |data| && v0.head < TX_SIZE && v0.tail < TX_SIZE
      requires k == Min(len, FreeSpace(v0.head, v0.tail))
      requires offset == Min(k, 64 * pass) && offset < len && FreeSpace(head, tail) > 0
      requires View() == Passes(v0, data, k, pass, accepts)
      modifies this`head, this`queued, this`accepted, txBuf, this`dmaInProgress, this`dmaLenInFlight,
        this`dmaErrors
      ensures Valid() && View() == Passes(v0, data, k, pass + 1, accepts)
      ensures offset + toWrite == Min(k, 64 * (pass + 1)) && pass < Chunks(k)
    {
      toWrite := ChunkSize(len - offset, FreeSpace(head, tail));
      ghost var before := View();
      PassStep(before, v0, data, len, k, offset, toWrite, pass, accepts);
      WritePass(data, offset, toWrite, pass in accepts);
    }

    /**
     * The loop of LoggerSink_Write while the ring has room: passes of
     * ChunkSize bytes, each followed by a burst attempt whose HAL answer is
     * acceptance exactly on the passes in `accepts`, until all `len` bytes
     * are copied or the ring is full. It returns how many were copied.
     */
    method WriteChunks(data: seq<byte>, len: nat, accepts: set<nat>) returns (offset: nat)
      requires Valid() && len <= |data|
      modifies this`head, this`queued, this`accepted, txBuf, this`dmaInProgress, this`dmaLenInFlight,
        this`dmaErrors
      ensures Valid() && offset == Min(len, old(FreeSpace(head, tail)))
      ensures View() == Written(old(View()), data, offset, accepts)
    {
      ghost var v0 := View();
      ghost var k := Min(len, FreeSpace(head, tail));
      offset := 0;
      var pass: nat := 0;
      while offset < len && FreeSpace(head, tail) > 0
        invariant Valid() && pass <= Chunks(k) && offset == Min(k, 64 * pass)
        invariant View() == Passes(v0, data, k, pass, accepts)
        decreases len - offset
      {
        var toWrite := NextPass(data, len, offset, pass, accepts, v0, k);
        offset := offset + toWrite;
        pass := pass + 1;
      }
      PassesDone(v0, data, len, k, offset, pass, accepts);
    }

    /**
     * LoggerSink_Write: never blocks. A null `data` or a zero `len` changes
     * nothing; otherwise the state becomes WriteResult: the longest prefix
     * that fits is queued, in passes of at most 64 bytes each followed by a
     * burst attempt, and if the ring filled up with bytes left, those are
     * counted as dropped together with one overflow event.
     */
    method Write(data: Option<seq<byte>>, len: nat, accepts: set<nat>)
      requires Valid()
      requires data.Some? ==> len <= |data.value|
      modifies this`head, this`queued, this`accepted, txBuf, this`dmaInProgress, this`dmaLenInFlight,
        this`dmaErrors, this`droppedBytes, this`overflowEvents
      ensures Valid()
      ensures data.None? || len == 0 ==> View() == old(View())
      ensures data.Some? && len > 0 ==> View() == WriteResult(old(View()), data.value[..len], accepts)
    {
      if data.None? || len == 0 {
        return;
      }
      var offset := WriteChunks(data.value, len, accepts);
      PassesPrefix(old(View()), data.value, len, offset, Chunks(offset), accepts);
      if offset < len {
        overflowEvents := Add32(overflowEvents, 1);
        droppedBytes := Add32(droppedBytes, len - offset);
      }
    }

    /** LoggerSinkUart_GetStats: a snapshot of the three counters. */
    method GetStats() returns (stats: SinkStats)
      ensures stats.droppedBytes == droppedBytes && stats.overflowEvents == overflowEvents
      ensures stats.dmaErrors == dmaErrors
    {
      stats := SinkStats(droppedBytes, overflowEvents, dmaErrors);
    }

    /**
     * LoggerSinkUart_OnTxComplete: for the logger's UART the state becomes
     * Completed; any other UART is ignored.
     */
    method OnTxComplete(fromLogUart: bool, halOk: bool)
      requires Valid()
      modifies this`tail, this`queued, this`sent, this`dmaInProgress, this`dmaLenInFlight, this`dmaErrors
      ensures Valid()
      ensures !fromLogUart ==> View() == old(View())
      ensures fromLogUart ==> View() == Completed(old(View()), halOk)
    {
      if !fromLogUart {
        return;
      }
      ghost var v := View();
      ghost var idle := v.(tail := Circular.Advance(v.tail, v.inFlight, TX_SIZE),
                           queued := v.queued[v.inFlight..], sent := v.sent + v.queued[..v.inFlight],
                           busy := false, inFlight := 0);
      CompletedEffect(v, halOk);
      Circular.WindowSkip(txBuf[..], tail, head, dmaLenInFlight);
      Circular.AdvanceIsMod(tail, dmaLenInFlight, TX_SIZE);
      sent := idle.sent;
      queued := idle.queued;
      tail := (tail + dmaLenInFlight) % TX_SIZE;
      dmaLenInFlight := 0;
      dmaInProgress := false;
      assert View() == idle;
      TryStartDma(halOk);
    }

    /**
     * LoggerSinkUart_OnError: for the logger's UART the state becomes
     * Failed; any other UART is ignored.
     */
    method OnError(fromLogUart: bool, halOk: bool)
      requires Valid()
      modifies this`dmaInProgress, this`dmaLenInFlight, this`dmaErrors
      ensures Valid()
      ensures !fromLogUart ==> View() == old(View())
      ensures fromLogUart ==> View() == Failed(old(View()), halOk)
    {
      if !fromLogUart {
        return;
      }
      dmaErrors := Add32(dmaErrors, 1);
      dmaInProgress := false;
      dmaLenInFlight := 0;
      TryStartDma(halOk);
    }
  }
}
