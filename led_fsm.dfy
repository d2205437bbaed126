/**
 * The status LED: off, blinking at 1 Hz, or flashing SOS from a
 * twelve-step table of durations. Led_Update acts only once its next
 * deadline has come; the pin itself is ghost state.
 */
module LedFsm {
  import opened Common

  /** `LedMode` as the enum's numbers; a mode variable may hold any value. */
  const LED_MODE_OFF: int := 0
  const LED_MODE_BLINK: int := 1
  const LED_MODE_SOS: int := 2

  /** Half period of BLINK. */
  const BLINK_MS: u32 := 500

  /** `sos_pattern`: three short, a gap, three long, a gap, three short and a pause, in ms. */
  const SOS_PATTERN: seq<u16> := [200, 200, 200, 600, 600, 600, 600, 600, 200, 200, 200, 1200]

  /** `SOS_STEPS`. */
  const SOS_STEPS: nat := 12

  /** The SOS step after `step`, going round the table. */
  function NextStep(step: nat): (s: nat)
    requires step < SOS_STEPS
    ensures s < SOS_STEPS
  {
    if step == SOS_STEPS - 1 then 0 else step + 1
  }

  /** The firmware's `(step + 1) % SOS_STEPS` is the next step. */
  lemma NextStepIsMod(step: nat)
    requires step < SOS_STEPS
    ensures (step + 1) % 12 == NextStep(step)
  {
  }

  /** The SOS step after `k` SOS updates from `step`. */
  function StepsFrom(step: nat, k: nat): (s: nat)
    requires step < SOS_STEPS
    ensures s < SOS_STEPS
    decreases k
  {
    if k == 0 then step else NextStep(StepsFrom(step, k - 1))
  }

  /** Up to a full round, `k` SOS updates advance the step by `k` places, wrapping once. */
  lemma {:induction false} StepsFromWraps(step: nat, k: nat)
    requires step < SOS_STEPS && k <= SOS_STEPS
    ensures StepsFrom(step, k) == if step + k < SOS_STEPS then step + k else step + k - SOS_STEPS
    decreases k
  {
    if k > 0 {
      StepsFromWraps(step, k - 1);
    }
  }

  /** Twelve SOS updates bring the step back to where it started, and no fewer do. */
  lemma TwelveStepsCycle(step: nat)
    requires step < SOS_STEPS
    ensures StepsFrom(step, SOS_STEPS) == step
    ensures forall k :: 0 < k < SOS_STEPS ==> StepsFrom(step, k) != step
  {
    StepsFromWraps(step, SOS_STEPS);
    forall k | 0 < k < SOS_STEPS
      ensures StepsFrom(step, k) != step
    {
      StepsFromWraps(step, k);
    }
  }

  /** Total of the durations of the `k` steps from `step` on. */
  function Duration(step: nat, k: nat): (d: nat)
    requires step < SOS_STEPS
    decreases k
  {
    if k == 0 then 0 else SOS_PATTERN[step] as nat + Duration(NextStep(step), k - 1)
  }

  /** Splitting `a + b` steps into the first `a` and the next `b`. */
  lemma {:induction false} DurationSplit(step: nat, a: nat, b: nat)
    requires step < SOS_STEPS
    ensures Duration(step, a + b) == Duration(step, a) + Duration(StepsFrom(step, a), b)
    decreases a
  {
    if a > 0 {
      DurationSplit(NextStep(step), a - 1, b);
      StepsFromShift(step, a - 1);
    }
  }

  /** Stepping once and then `k` times is stepping `k` times and then once. */
  lemma {:induction false} StepsFromShift(step: nat, k: nat)
    requires step < SOS_STEPS
    ensures StepsFrom(NextStep(step), k) == StepsFrom(step, k + 1)
    decreases k
  {
    if k > 0 {
      StepsFromShift(step, k - 1);
    }
  }

  /** A full round of the table takes as long from one step as from the next. */
  lemma CycleRotates(step: nat)
    requires step < SOS_STEPS
    ensures Duration(step, SOS_STEPS) == Duration(NextStep(step), SOS_STEPS)
  {
    var n := NextStep(step);
    DurationSplit(step, 1, SOS_STEPS - 1);
    DurationSplit(n, SOS_STEPS - 1, 1);
    StepsFromShift(step, SOS_STEPS - 1);
    TwelveStepsCycle(step);
  }

  /** Going once round the table, from any step, takes the whole SOS period of 5.4 s. */
  lemma {:induction false} FullCycleDuration(step: nat)
    requires step < SOS_STEPS
    ensures Duration(step, SOS_STEPS) == 5400
    decreases step
  {
    if step == 0 {
      assert Duration(0, SOS_STEPS) == 5400;
    } else {
      FullCycleDuration(step - 1);
      CycleRotates(step - 1);
    }
  }

  /** The state Led_Update acts on: mode, deadline, SOS step and pin level (true for set). */
  datatype LedView = LedView(mode: int, nextMs: u32, step: byte, pinHigh: bool)

  /**
   * Led_Update on values: before the deadline nothing changes. When due,
   * OFF drives the pin low; BLINK toggles it and is next due 500 ms later;
   * SOS toggles it, is next due after the current step's duration and
   * moves to the next step; any other mode does nothing. Deadlines are
   * computed in 32 bits.
   */
  function Tick(v: LedView, nowMs: u32): LedView
    requires v.step as nat < SOS_STEPS
  {
    if nowMs < v.nextMs then v
    else if v.mode == LED_MODE_OFF then v.(pinHigh := false)
    else if v.mode == LED_MODE_BLINK then v.(pinHigh := !v.pinHigh, nextMs := Add32(nowMs, BLINK_MS as int))
    else if v.mode == LED_MODE_SOS then
      v.(pinHigh := !v.pinHigh, nextMs := Add32(nowMs, SOS_PATTERN[v.step] as int),
         step := NextStep(v.step as nat) as byte)
    else v
  }

  /**
   * What an update promises: the mode never changes and the step stays
   * inside the table; before the deadline nothing changes; OFF drives the
   * pin low and keeps deadline and step; BLINK and SOS toggle the pin and
   * push the deadline 500 ms, or the step's duration, past `nowMs`
   * (modulo 2^32); only SOS moves the step, by one place round the table.
   */
  lemma TickEffect(v: LedView, nowMs: u32)
    requires v.step as nat < SOS_STEPS
    ensures var w := Tick(v, nowMs); w.mode == v.mode && w.step as nat < SOS_STEPS
    ensures nowMs < v.nextMs ==> Tick(v, nowMs) == v
    ensures var w := Tick(v, nowMs); nowMs >= v.nextMs && v.mode == LED_MODE_OFF ==>
      !w.pinHigh && w.nextMs == v.nextMs && w.step == v.step
    ensures var w := Tick(v, nowMs); nowMs >= v.nextMs && v.mode == LED_MODE_BLINK ==>
      w.pinHigh == !v.pinHigh && (w.nextMs as int - nowMs as int - 500) % U32_MOD == 0 && w.step == v.step
    ensures var w := Tick(v, nowMs); nowMs >= v.nextMs && v.mode == LED_MODE_SOS ==>
      w.pinHigh == !v.pinHigh && (w.nextMs as int - nowMs as int - SOS_PATTERN[v.step] as int) % U32_MOD == 0 &&
      w.step as nat == StepsFrom(v.step as nat, 1)
    ensures v.mode !in {LED_MODE_OFF, LED_MODE_BLINK, LED_MODE_SOS} ==> Tick(v, nowMs) == v
  {
    var n := if v.mode == LED_MODE_BLINK then BLINK_MS as int else if v.mode == LED_MODE_SOS then SOS_PATTERN[v.step] as int else 0;
    var s := nowMs as int + n;
    assert s == (s / U32_MOD) * U32_MOD + s % U32_MOD;
  }

  /** The driver's static state; `port` is the GPIO port, `None` standing for NULL. */
  class Led {
    var port: Option<nat>
    var pin: u16
    var mode: int
    var nextMs: u32
    var step: byte

    /** Level of the LED pin (true for set). */
    ghost var pinHigh: bool

    ghost function View(): LedView
      reads this
    {
      LedView(mode, nextMs, step, pinHigh)
    }

    ghost predicate Valid()
      reads this`step
    {
      step as nat < SOS_STEPS
    }

    /** The static initialisers: no port, OFF, step 0, due at once; the pin starts at `pinHigh`. */
    constructor Boot(ghost pinHigh: bool)
      ensures port == None && pin == 0 && mode == LED_MODE_OFF && nextMs == 0 && step == 0
      ensures this.pinHigh == pinHigh
      ensures Valid()
    {
      port, pin := None, 0;
      mode, nextMs, step := LED_MODE_OFF, 0, 0;
      this.pinHigh := pinHigh;
    }

    /** Led_Init: the pin the LED is on. */
    method Init(port: Option<nat>, pin: u16)
      modifies this`port, this`pin
      ensures this.port == port && this.pin == pin
    {
      this.port := port;
      this.pin := pin;
    }

    /** Led_SetMode: the new mode starts from step 0 and is due at once. */
    method SetMode(mode: int)
      modifies this`mode, this`step, this`nextMs
      ensures this.mode == mode && step == 0 && nextMs == 0
      ensures Valid()
    {
      this.mode := mode;
      step := 0;
      nextMs := 0;
    }

    /** Led_Update: the LED state becomes Tick of the old one. */
    method Update(nowMs: u32)
      requires Valid()
      modifies this`nextMs, this`step, this`pinHigh
      ensures View() == Tick(old(View()), nowMs)
      ensures Valid()
    {
      if nowMs < nextMs {
        return;
      }
      if mode == LED_MODE_OFF {
        pinHigh := false;
      } else if mode == LED_MODE_BLINK {
        pinHigh := !pinHigh;
        nextMs := Add32(nowMs, BLINK_MS as int);
      } else if mode == LED_MODE_SOS {
        pinHigh := !pinHigh;
        nextMs := Add32(nowMs, SOS_PATTERN[step] as int);
        NextStepIsMod(step as nat);
        step := ((step as nat + 1) % 12) as byte;
      }
    }
  }
}
