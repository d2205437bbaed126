# STM32 MAVLink telemetry firmware: verified model of the core

This project is a Dafny model of the core of a small STM32F4 firmware. The
firmware receives MAVLink telemetry on one UART, keeps a summary of the
vehicle's state, judges its health and logs one line per second on a second
UART. It also drives a status LED and a push button. The model covers:

- **UART receive path** (`uart_rx_ring.dfy`). A 256-byte buffer that the DMA
  engine fills circularly, bridged by polling into a 512-byte software ring.
  One slot of the ring is always kept empty. When the ring is full the
  newest byte is dropped and counted.
- **Logger transmit path** (`logger_sink_uart.dfy`). A 1024-byte ring that
  writers fill in chunks of at most 64 bytes without blocking. A two-state
  burst machine sends one contiguous, non-wrapping span at a time and
  advances the read index when the hardware completes.
- **MAVLink frame pump** (`mavlink_rx.dfy`). Each update polls the receive
  bridge once and drains the ring into the streaming parser. Every
  completed frame goes to the single registered subscriber. The parser is
  an abstract step function (`mavlink.dfy`).
- **Summary aggregator** (`mavlink_summary.dfy`). Totals, per-window
  counters, a per-8-bit-id table and the three most frequent ids, reported
  and cleared once per period.
- **Telemetry state** (`telemetry.dfy`, `telemetry_data.dfy`). The vehicle
  state kept from decoded messages.
- **Health rules** (`health_rules.dfy`). An OK/WARN/CRIT verdict and its
  rate-limited log line.
- **Button** (`button.dfy`). A debounced button with short- and long-press
  events.
- **LED** (`led_fsm.dfy`). A blink/SOS scheduler.
- **Application** (`app.dfy`). The application's mode cycling.

`common.dfy` holds the fixed-width integer types and the wrap-around
arithmetic. `circular.dfy` holds the circular-window index arithmetic that
both rings share.

How the source maps to Dafny:

- Each source file's static state or struct is a class.
- Every state-changing method is proved against a pure specification
  function or a ghost view of its state.
- Lemmas prove the properties of those functions.
- Integer widths are explicit:
  - `u32`, `u16` and `byte` are newtypes;
  - counters wrap through `Inc32`, `Inc16`, `Add32` and `Add16`;
  - elapsed times use the wrapping `Sub32`.
- The pin level, the DMA counter (NDTR), HAL results and the current
  tick are parameters:
  - the pin level is `PinState`;
  - `ndtr` is the DMA counter;
  - `halOk` or `halResult` is what the HAL returned;
  - `accepts` is the set of passes of one `LoggerSink_Write` on which
    `HAL_UART_Transmit_DMA` returns HAL_OK, since each pass calls it anew;
  - `nowMs` is the current tick.
- The ISR callbacks (`OnTxComplete`, `OnError`, `OnExti`) are methods that
  may be called between main-loop steps.

## Model

| member | source | states |
|---|---|---|
| Circular.WindowIsLinear | Core/Src/drivers/uart/uart_rx_ring.c:140-157 | copying a wrapped range as "to the physical end, then from slot 0" yields the same bytes as one circular range |
| Circular.WindowPush | Core/Src/drivers/uart/uart_rx_ring.c:46-48 | writing at the head slot and advancing the head appends the byte at the logical end of the window and grows it by one |
| Circular.WindowSkip | Core/Src/drivers/uart/uart_rx_ring.c:225-235 | advancing the read index by k drops exactly the k oldest elements of the window |
| UartRxRing.SwFreeSpace | Core/Src/drivers/uart/uart_rx_ring.c:20-34 | free space plus occupancy is always `sw_size - 1` (one slot reserved) |
| UartRxRing.PushAllAppend | Core/Src/drivers/uart/uart_rx_ring.c:147-157 | offering the two halves of a wrapped range in turn leaves the ring as offering the whole range at once |
| UartRxRing.PushAllKeeps | Core/Src/drivers/uart/uart_rx_ring.c:36-49 | of the bytes offered, the oldest ones that fit are appended in order; each other byte adds one to `dropped_bytes` and one to `overflow_events`; kept plus dropped equals offered |
| UartRxRing.RxRing.Init | Core/Src/drivers/uart/uart_rx_ring.c:51-73 | empty ring: head, tail and `dma_last_pos` 0, all three counters 0, DMA buffer zeroed |
| UartRxRing.RxRing.StartDma | Core/Src/drivers/uart/uart_rx_ring.c:75-87 | without a UART handle returns HAL_ERROR and changes nothing; otherwise resets `dma_last_pos` to 0 and returns the HAL's result |
| UartRxRing.RxRing.DmaWritePos | Core/Src/drivers/uart/uart_rx_ring.c:89-109 | the position is always inside the DMA buffer: `dma_size - NDTR` when NDTR is in `1..dma_size`, else 0 (also without a handle) |
| UartRxRing.RxRing.SwPushByte | Core/Src/drivers/uart/uart_rx_ring.c:36-49 | into a full ring: buffer, head and tail unchanged, dropped and overflow counts +1; otherwise: the byte appended, head advanced by 1 mod 512, pushed count +1 |
| UartRxRing.RxRing.PushRange | Core/Src/drivers/uart/uart_rx_ring.c:142-155 | one copy loop offers `dma_buf[lo..hi)` to the ring in order |
| UartRxRing.RxRing.PollFromDma | Core/Src/drivers/uart/uart_rx_ring.c:111-161 | the ring becomes the bytes written since the last poll, offered in arrival order (none when the position has not moved); `dma_last_pos` becomes the current position even if bytes were dropped |
| UartRxRing.RxRing.Available | Core/Src/drivers/uart/uart_rx_ring.c:187-212 | the number of bytes waiting, never more than `sw_size - 1` |
| UartRxRing.RxRing.Read | Core/Src/drivers/uart/uart_rx_ring.c:214-240 | returns `n = min(max_len, available)` (0 for a null `out` or `max_len == 0`); `out[0..n)` is the FIFO prefix, exactly that prefix leaves the ring and the rest of `out` is untouched |
| UartRxRing.RxRing.PopByte | Core/Src/drivers/uart/uart_rx_ring.c:227-234 | one pass of the read loop takes out exactly the oldest byte |
| UartRxRing.RxRing.GetStats | Core/Src/drivers/uart/uart_rx_ring.c:242-256 | the three counters, copied without change |
| LoggerSinkUart.FreeSpace | Core/Src/logger_sink_uart.c:35-45 | free space plus occupancy is always 1023 |
| LoggerSinkUart.ContiguousBytes | Core/Src/logger_sink_uart.c:47-57 | the span never wraps (`tail + len <= 1024`) and never exceeds the occupancy; it is 0 exactly when the ring is empty; it is either all queued bytes or runs to the physical end |
| LoggerSinkUart.BurstsDrainInTwo | Core/Src/logger_sink_uart.c:151-167 | with no writes in between, at most two chained bursts empty the ring |
| LoggerSinkUart.ChunkSize | Core/Src/logger_sink_uart.c:110-118 | a pass copies at most `min(len - offset, free, 64)` bytes, and at least one while bytes remain and space is free (corrected size, see Findings) |
| LoggerSinkUart.ChunkSizeAsWritten | Core/Src/logger_sink_uart.c:110-118 | the size as written (`len - offset` cast to 16 bits first) never exceeds the free space or 64 |
| LoggerSinkUart.ChunkSizeAgreesBelow64K | Core/Src/logger_sink_uart.c:110-118 | the size as written and the corrected size agree whenever fewer than 65536 bytes remain |
| LoggerSinkUart.ChunkSizeAsWrittenStalls | Core/Src/logger_sink_uart.c:110-129 | a 65536-byte write into an empty ring computes a chunk of 0, so `offset` never advances |
| LoggerSinkUart.TryStartEffect | Core/Src/logger_sink_uart.c:59-81 | an attempt does nothing while a burst runs or the ring is empty; a new burst covers ContiguousBytes; a HAL failure leaves the machine idle with length 0 and counts one DMA error; the ring invariant is kept |
| LoggerSinkUart.FirstAccepted | Core/Src/logger_sink_uart.c:75-80 | the index of the first pass whose `HAL_UART_Transmit_DMA` returns HAL_OK, or the number of passes if every call is refused: every earlier pass was refused |
| LoggerSinkUart.PassesData | Core/Src/logger_sink_uart.c:97-130 | after `p` passes the first `min(k, 64p)` bytes of the data are queued and accepted in order, and nothing but the head, the burst machine and the DMA error counter changes |
| LoggerSinkUart.PassesBusy | Core/Src/logger_sink_uart.c:97-130 | after `p` passes a burst runs exactly when one ran before the write or one of the `p` per-pass HAL calls accepted it |
| LoggerSinkUart.PassesErrors | Core/Src/logger_sink_uart.c:97-130 | with no burst running before the write, every refused attempt up to the first accepted one counts one DMA error and later passes count none; with a burst running, no pass counts one |
| LoggerSinkUart.WriteResultOk | Core/Src/logger_sink_uart.c:88-131 | a write keeps the ring invariant (sent followed by queued is all accepted bytes) and sends nothing; until the counter wraps, accepted plus dropped equals `len`; bytes are dropped only when the ring is full |
| LoggerSinkUart.CompletedEffect | Core/Src/logger_sink_uart.c:151-167 | a completion moves exactly the in-flight span (the oldest queued bytes) to the sent bytes, advances `tail` by its length, keeps the invariant and starts a new burst exactly when bytes remain and the HAL accepts |
| LoggerSinkUart.FailedEffect | Core/Src/logger_sink_uart.c:169-185 | an error counts one DMA error (two if the retry is refused too), leaves `tail` and the queued bytes unchanged and retries from `tail` |
| LoggerSinkUart.Sink.constructor | Core/Src/logger_sink_uart.c:8-21 | the static storage at reset: empty ring, idle machine, counters 0 |
| LoggerSinkUart.Sink.TryStartDma | Core/Src/logger_sink_uart.c:59-81 | the state becomes TryStart of the old state |
| LoggerSinkUart.Sink.PutByte | Core/Src/logger_sink_uart.c:122-123 | the byte is stored at `head`, which advances by 1 mod 1024; the byte is appended to the queued and accepted bytes |
| LoggerSinkUart.Sink.CopyChunk | Core/Src/logger_sink_uart.c:120-124 | the inner loop appends `data[offset..offset+n)` in order |
| LoggerSinkUart.Sink.WritePass | Core/Src/logger_sink_uart.c:110-129 | one pass of the write loop appends its chunk, then tries a burst |
| LoggerSinkUart.Sink.NextPass | Core/Src/logger_sink_uart.c:98-129 | pass `pass` copies the next `min(k - offset, 64)` bytes and tries a burst with that pass's own HAL answer, leaving the state after `pass + 1` passes |
| LoggerSinkUart.Sink.WriteChunks | Core/Src/logger_sink_uart.c:95-130 | the loop copies `min(len, free)` bytes in passes of at most 64 bytes, each followed by a burst attempt whose HAL answer is that pass's own (`pass in accepts`) |
| LoggerSinkUart.Sink.Write | Core/Src/logger_sink_uart.c:88-131 | a null `data` or `len == 0` changes nothing; otherwise the state becomes WriteResult: the longest fitting prefix is queued with a burst attempt after each pass, each answered by the HAL independently, and the rest counted as dropped with one overflow event |
| LoggerSinkUart.Sink.GetStats | Core/Src/logger_sink_uart.c:133-147 | the three counters, copied without change |
| LoggerSinkUart.Sink.OnTxComplete | Core/Src/logger_sink_uart.c:151-167 | for the logger's UART the state becomes Completed; other UARTs change nothing |
| LoggerSinkUart.Sink.OnError | Core/Src/logger_sink_uart.c:169-185 | for the logger's UART the state becomes Failed; other UARTs change nothing |
| Mavlink.ArmedIsTopBit | Core/Src/app/telemetry/telemetry.c:45-46 | the armed flag is set exactly when `base_mode >= 128` (the SAFETY_ARMED bit) |
| MavlinkRx.FeedCompletions | Core/Src/protocol/mavlink/mavlink_rx.c:86-95 | the frames a run of bytes yields are exactly the frames the parser reported, in the order of the bytes that completed them |
| MavlinkRx.FeedBound | Core/Src/protocol/mavlink/mavlink_rx.c:86-95 | a run of k bytes completes at most k frames |
| MavlinkRx.PumpAppend | Core/Src/protocol/mavlink/mavlink_rx.c:73-95 | pumping the ring chunk by chunk gives the parser and the subscriber the same stream as one long run |
| MavlinkRx.PumpCalls | Core/Src/protocol/mavlink/mavlink_rx.c:86-95 | the subscriber is called once per completed frame, in completion order, with its context; with no subscriber no call is made, but the parser state still advances |
| MavlinkRx.Receiver.Init | Core/Src/protocol/mavlink/mavlink_rx.c:11-30 | no callback, context 0, parse state and both packet counters 0, and a freshly initialised ring |
| MavlinkRx.Receiver.Start | Core/Src/protocol/mavlink/mavlink_rx.c:32-40 | returns the ring's StartDma result |
| MavlinkRx.Receiver.SetOnMessage | Core/Src/protocol/mavlink/mavlink_rx.c:42-51 | replaces the single `(fn, ctx)` pair |
| MavlinkRx.Receiver.GetRxStats | Core/Src/protocol/mavlink/mavlink_rx.c:53-61 | the ring's counters, passed through unchanged |
| MavlinkRx.Receiver.FeedBytes | Core/Src/protocol/mavlink/mavlink_rx.c:86-95 | the bytes are fed to the parser one at a time and the deliveries are extended as Pump says |
| MavlinkRx.Receiver.ReadAndFeed | Core/Src/protocol/mavlink/mavlink_rx.c:76-95 | one read of `min(64, available)` FIFO bytes, which are removed from the ring and pumped |
| MavlinkRx.Receiver.DrainStep | Core/Src/protocol/mavlink/mavlink_rx.c:73-96 | one pass of the drain loop keeps its invariant: consumed plus the ring's contents equals what was polled |
| MavlinkRx.Receiver.Update | Core/Src/protocol/mavlink/mavlink_rx.c:63-115 | one poll, then the ring is drained empty with the counters the poll left; the parser has seen exactly the polled contents in FIFO order, and the deliveries are Pump of those bytes |
| MavlinkSummary.BetterIsStrictTotal | Core/Src/app/telemetry/mavlink_summary.c:111-136 | the ranking (count descending, then smaller id) is a strict total order on distinct ids |
| MavlinkSummary.TopIsUnique | Core/Src/app/telemetry/mavlink_summary.c:111-136 | at most one list meets the top-three characterisation |
| MavlinkSummary.TabulatesAppend | Core/Src/app/telemetry/mavlink_summary.c:164-174 | bumping the slot of a message's 8-bit id keeps every slot equal to its count in the window |
| MavlinkSummary.FillLogFields | Core/Src/app/telemetry/mavlink_summary.c:30-86 | without a state every field is unknown (ages `0xFFFFFFFF`); otherwise the ages are the wrapped time since the last message and heartbeat ("never" while 0), the flags are copied and a voltage appears only with a battery reading |
| MavlinkSummary.Counted | Core/Src/app/telemetry/mavlink_summary.c:154-206 | counting a message keeps the table size, the report time and the period, and changes no per-id slot but its own |
| MavlinkSummary.Cleared | Core/Src/app/telemetry/mavlink_summary.c:252-259 | after a report every table slot is 0, and the totals and period are unchanged |
| MavlinkSummary.CountedDescribes | Core/Src/app/telemetry/mavlink_summary.c:154-206 | counting keeps each counter equal to the number of matching messages in the history or window (heartbeats only for id 0, each important counter only for its own id) and the last-message fields equal to the newest message |
| MavlinkSummary.ClearedDescribes | Core/Src/app/telemetry/mavlink_summary.c:252-259 | a report leaves the fields describing the same history with an empty window |
| MavlinkSummary.DescribesCounts | Core/Src/app/telemetry/mavlink_summary.c:161-205 | each counter holds its true count modulo 2^32 (totals, window) or 2^16 (important messages, per-id table) |
| MavlinkSummary.HeartbeatsWithinMessages | Core/Src/app/telemetry/mavlink_summary.c:161-181 | until the totals wrap, heartbeats never outnumber messages and the window never exceeds the totals |
| MavlinkSummary.Summary.Init | Core/Src/app/telemetry/mavlink_summary.c:141-152 | every field zero, and the period is 1000 when given 0, otherwise the given value |
| MavlinkSummary.Summary.OnMessage | Core/Src/app/telemetry/mavlink_summary.c:154-206 | a null message changes nothing; otherwise the fields become Counted and the invariant Describes is kept for the extended history and window |
| MavlinkSummary.Summary.Count | Core/Src/app/telemetry/mavlink_summary.c:161-205 | the field-by-field updates produce Counted of the old fields |
| MavlinkSummary.Summary.FindTop3 | Core/Src/app/telemetry/mavlink_summary.c:89-138 | three `{0,0}` entries for an empty window; otherwise the true top three nonzero counts, ranked, with `{0,0}` filling unused slots, and every unlisted count ranks below the third |
| MavlinkSummary.Summary.UpdateAndLog | Core/Src/app/telemetry/mavlink_summary.c:208-260 | before the period has elapsed (wrapping subtraction) nothing changes; then `last_log_ms := now`, the line carries the window counters, telemetry fields, last message and top three, and every window counter is cleared while the totals stay |
| MavlinkSummary.Summary.ResetWindow | Core/Src/app/telemetry/mavlink_summary.c:252-259 | the window counters and the whole per-id table become 0 |
| TelemetryData.Elapsed | Core/Src/health_rules.c:131-132 | "never" (`0xFFFFFFFF`) for a zero timestamp, otherwise the wrapped time that takes the timestamp to now |
| Telemetry.LastOfAppend | Core/Src/app/telemetry/telemetry.c:35-48 | the newest message of an id after one more arrival is that arrival if it has the id, else the previous newest one |
| Telemetry.ZeroReflectsNothing | Core/Src/app/telemetry/telemetry.c:9-11 | the zeroed state is the state of no arrivals |
| Telemetry.ObserveReflects | Core/Src/app/telemetry/telemetry.c:17-81 | after each message the state is determined by the arrivals: counts are the numbers of messages and heartbeats, the sender and link time come from the newest message, armed from the newest heartbeat, the battery from the newest known SYS_STATUS voltage (an unknown one changes nothing) and the GPS fields from the newest GPS_RAW_INT |
| Telemetry.CountsAgree | Core/Src/app/telemetry/telemetry.c:27-33 | the state's message and heartbeat counts equal the summary's totals, and its sender the summary's last sender |
| Telemetry.TelemetryModule.Init | Core/Src/app/telemetry/telemetry.c:9-15 | a zeroed state and a summary with a 1000 ms period |
| Telemetry.TelemetryModule.OnMavlink | Core/Src/app/telemetry/telemetry.c:17-81 | a null message changes nothing; otherwise the summary counts it and the state observes it, keeping Reflects |
| Telemetry.TelemetryModule.Update | Core/Src/app/telemetry/telemetry.c:83-87 | the summary reports with the current state once its period has passed |
| Telemetry.TelemetryModule.Get | Core/Src/app/telemetry/telemetry.c:89-92 | the current state, which reflects the arrivals since Init |
| HealthRules.Evaluate | Core/Src/health_rules.c:38-41 | a null state is CRIT |
| HealthRules.EvaluateIsWorst | Core/Src/health_rules.c:43-101 | the verdict is the worst of the link, heartbeat, battery and GPS rules taken separately, so no later rule lowers it |
| HealthRules.SilentLinkIsCritical | Core/Src/health_rules.c:47-57 | a link never seen, or silent for at least 5000 ms, is CRIT whatever else holds |
| HealthRules.CriticalNeedsLinkOrBattery | Core/Src/health_rules.c:59-99 | CRIT only from a dead link or a critical battery: a stale heartbeat or a missing fix alone never makes it CRIT |
| HealthRules.OkWhenAllQuiet | Core/Src/health_rules.c:36-102 | OK exactly when the link is younger than 2 s, the heartbeat younger than 2 s, the battery (if known) above both thresholds and any GPS has a 2D fix |
| HealthRules.LevelToStr | Core/Src/health_rules.c:104-113 | "UNK" exactly for values outside the enum |
| HealthRules.LevelToStrInjective | Core/Src/health_rules.c:104-113 | each level gets its own name, never "UNK" |
| HealthRules.Health.Init | Core/Src/health_rules.c:115-118 | `s_last_log_ms` is 0 |
| HealthRules.Health.Update | Core/Src/health_rules.c:120-148 | a line is produced, and `s_last_log_ms := now`, exactly when at least 1000 ms have passed (wrapping subtraction); the line carries the verdict's name, the ages, the counters and the battery and GPS fields only when known |
| ButtonDriver.Button.Boot | Core/Src/button.c:7-22 | the static initialisers: no port, released, 50 ms debounce, 1000 ms long press |
| ButtonDriver.Button.Init | Core/Src/button.c:24-39 | raw and stable state are the pin reading, pressed iff it is the pressed level, no flag, no long press |
| ButtonDriver.Button.OnExti | Core/Src/button.c:41-47 | the flag is raised only for the configured pin |
| ButtonDriver.PollEvents | Core/Src/button.c:54-127 | no port, or no flag while released: NONE and no change; the stable state follows the raw one only after `debounce_ms` (wrapping subtraction); a stable press gives NONE and starts a press; a stable release gives SHORT iff pressed without LONG and clears both flags; with no stable change, LONG exactly when pressed, not yet fired, and `long_press_ms` has passed since the press (so at most once per press) |
| ButtonDriver.Button.Update | Core/Src/button.c:54-127 | the event returned and the new fields are those of Poll on the old fields, the time and the pin reading, so every PollEvents case holds of the method |
| LedFsm.NextStepIsMod | Core/Src/led_fsm.c:56 | `(step + 1) % 12` is the next step round the table |
| LedFsm.StepsFromWraps | Core/Src/led_fsm.c:53-57 | k SOS updates (k <= 12) advance the step by k places, wrapping once |
| LedFsm.TwelveStepsCycle | Core/Src/led_fsm.c:11-20 | twelve consecutive SOS updates return the step to its start, and no fewer do |
| LedFsm.FullCycleDuration | Core/Src/led_fsm.c:11-18 | one round of the SOS table takes 5400 ms from any starting step |
| LedFsm.Led.Boot | Core/Src/led_fsm.c:4-9 | OFF, step 0, due at once |
| LedFsm.Led.Init | Core/Src/led_fsm.c:22-26 | records the port and pin |
| LedFsm.Led.SetMode | Core/Src/led_fsm.c:28-33 | sets the mode and resets `step` and `next_ms` to 0 |
| LedFsm.TickEffect | Core/Src/led_fsm.c:35-59 | while `now < next_ms` (plain unsigned comparison) nothing changes; once due, OFF drives the pin low; BLINK toggles it and is due 500 ms later mod 2^32; SOS toggles it, is due after the step's duration and advances the step one place round the 12-step table, so the step stays below 12; the mode never changes |
| LedFsm.Led.Update | Core/Src/led_fsm.c:35-59 | the new mode, deadline, step and pin level are Tick of the old ones, so every TickEffect case holds of the method |
| App.NextMode | Core/Src/app/app.c:22-31 | the result is always a valid mode, and any other value maps to OFF |
| App.NextModeCycles | Core/Src/app/app.c:22-31 | each press changes a valid mode, and three presses bring it back |
| App.Application.Init | Core/Src/app/app.c:33-57 | the LED on PC13 and in BLINK mode, the button on PA0 and active low, the mode BLINK |
| App.Application.Update | Core/Src/app/app.c:59-88 | the LED is ticked (Tick) and the button polled (Poll) with the same time; the event is the poll's event; NONE keeps the mode and the ticked LED, SHORT moves to NextMode and LONG to OFF, and then the LED restarts in the new mode at step 0, due at once, with the pin level the tick left |

## Left out

- Interrupt masking (PRIMASK) is not modelled. Each critical section is an atomic method body. The ISR callbacks are methods called between main-loop steps, so true preemption is not captured.
- HAL and hardware calls become parameters:
  - `HAL_UART_Transmit_DMA` and `HAL_UART_Receive_DMA` results;
  - the DMA counter read by `__HAL_DMA_GET_COUNTER`;
  - the pin reading of `HAL_GPIO_ReadPin`;
  - the tick.
- The LED pin written by `HAL_GPIO_WritePin` and `HAL_GPIO_TogglePin` is ghost state.
- The UART handle's identity is the boolean `fromLogUart`. The handle's presence is `uartAttached` and `dmaRxLinked`.
- The MAVLink C library is not part of this model. `mavlink_parse_char` is an abstract deterministic step function. Decoded payload fields are inputs carried in the frame.
- Callbacks are recorded as a trace of deliveries (function identity, context, frame) instead of being called.
- Floating point is not modelled:
  - The battery voltage is kept as its millivolt reading.
  - The health rules take the outcomes of the two threshold comparisons (`voltage <= 10.5 V`, `voltage <= 10.8 V`) as boolean inputs.
  - The float `batt_v` of the summary line and its rounding are not modelled.
- Logging (`logger.c`, formatting and every `Logger_Write` call) is not part of this model. The summary and health lines are returned as values.
- Null `self`, ring or handle pointers on the object-style APIs are not representable. Those no-op and `HAL_ERROR` branches are not modelled. This covers:
  - `MavlinkRx_Start` and `MavlinkRx_Update` with a null `self`;
  - `UartRxRing_*` with a null `ring`;
  - `MavlinkSummary_*` with a null `self`.
- Null message, data and output pointers are modelled as `Option` or `array?`.
- App.Application.Init: covers the LED and button part of `App_Init` only. The telemetry, health, logger and MAVLink initialisation and the `AppTests_Init` call are modelled by their own modules and are not composed here.
- App.Application.Update: covers the LED, button and mode dispatch of `App_Update` only. The calls to `MavlinkRx_Update`, `Telemetry_Update` and `HealthRules_Update` are modelled by their own modules and are not composed here.
- UartRxRing.RxRing.PollFromDma: a full lap of the DMA buffer between two polls reads as no new bytes, as in the firmware. The model does not detect it.
- The diagnostic byte count `moved` in the poll and the commented-out diagnostic blocks have no effect and are not modelled.
- The `mavlink_msg_*_decode` calls of `Telemetry_OnMavlink` are replaced by payload fields carried in the frame.
- `stm32_uart_callbacks.c`, `hal_exti.c`, `debug_hw.c` and `app_tests.c` (callback routing, ITM output, test logging) are not part of this model.

## Findings

| source | as written | input that shows it | evidently intended | confidence | as-written member | corrected member |
|---|---|---|---|---|---|---|
| Core/Src/logger_sink_uart.c:110 | `to_write = (uint16_t)(len - offset)` truncates the remaining length to 16 bits before it is capped by the free space and the chunk limit | `LoggerSink_Write` with `len == 65536` into an empty ring: `to_write` is 0, `offset` never advances and the loop spins forever; interrupts are masked only within each pass, so the ISRs still run between passes | the chunk is `min(len - offset, free, 64)`, at least 1 while bytes remain and space is free | not executed | LoggerSinkUart.ChunkSizeAsWrittenStalls | LoggerSinkUart.ChunkSize |
