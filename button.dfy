/**
 * The push button: a debounced stable state derived from raw pin readings,
 * woken by the external interrupt of its pin and polled while pressed,
 * reporting a SHORT press on release and a LONG press once per press after
 * the long-press time.
 */
module ButtonDriver {
  import opened Common

  const DEBOUNCE_MS_DEFAULT: u32 := 50
  const LONG_PRESS_MS_DEFAULT: u32 := 1000

  /** `GPIO_PinState`. */
  datatype PinState = PinReset | PinSet

  /** `ButtonEvent`. */
  datatype ButtonEvent = EventNone | EventShort | EventLong

  /** The driver's static state as one value; `port` is the GPIO port, `None` standing for NULL. */
  datatype ButtonView = ButtonView(
    port: Option<nat>, pin: u16, pressedLevel: PinState, extiFlag: bool,
    rawState: PinState, stableState: PinState, rawChangedMs: u32,
    isPressed: bool, longFired: bool, pressedStartMs: u32,
    debounceMs: u32, longPressMs: u32)

  /** What one Button_Update leaves behind: the new state and the event it returns. */
  datatype Polled = Polled(state: ButtonView, ev: ButtonEvent)

  /**
   * `isPressed` always says whether the stable state is the pressed level
   * (Button_IsPressed), and a long press has fired only during a press.
   */
  ghost predicate ButtonOk(b: ButtonView)
  {
    (b.isPressed <==> b.stableState == b.pressedLevel) && (b.longFired ==> b.isPressed)
  }

  /**
   * Button_Update on values, with `reading` the pin level read during the
   * call. Without a port, or with no interrupt pending while released,
   * nothing changes. Otherwise the flag is cleared and the reading becomes
   * the raw state, a change restarting the debounce timer; once the raw
   * state has held for `debounceMs` the stable state follows it, a press
   * starting (NONE) and a release ending the press (SHORT unless LONG
   * fired); without a stable change, a press held for `longPressMs`
   * reports LONG once.
   */
  function Poll(b: ButtonView, nowMs: u32, reading: PinState): Polled
  {
    if b.port.None? || (!b.extiFlag && !b.isPressed) then Polled(b, EventNone)
    else
      var changedMs := if reading != b.rawState then nowMs else b.rawChangedMs;
      var b1 := b.(extiFlag := false, rawState := reading, rawChangedMs := changedMs);
      if Sub32(nowMs, changedMs) >= b.debounceMs && b.stableState != reading then
        if reading == b.pressedLevel then
          Polled(b1.(stableState := reading, isPressed := true, longFired := false, pressedStartMs := nowMs),
                 EventNone)
        else
          Polled(b1.(stableState := reading, isPressed := false, longFired := false),
                 if b.isPressed && !b.longFired then EventShort else EventNone)
      else if b.isPressed && !b.longFired && Sub32(nowMs, b.pressedStartMs) >= b.longPressMs then
        Polled(b1.(longFired := true), EventLong)
      else
        Polled(b1, EventNone)
  }

  /**
   * What a poll promises. It keeps the invariant and the configuration.
   * The stable state follows the reading only after the debounce time
   * (wrapping subtraction). A stable press gives NONE and starts a press;
   * a stable release gives SHORT exactly when LONG had not fired, and
   * clears both flags. Without a stable change the event is LONG exactly
   * when a press without LONG has been held for `longPressMs`, and NONE
   * otherwise; so LONG comes once per press.
   */
  lemma PollEvents(b: ButtonView, nowMs: u32, reading: PinState)
    requires ButtonOk(b)
    ensures var p := Poll(b, nowMs, reading); var c := p.state;
      ButtonOk(c) &&
      c.port == b.port && c.pin == b.pin && c.pressedLevel == b.pressedLevel &&
      c.debounceMs == b.debounceMs && c.longPressMs == b.longPressMs
    ensures b.port.None? || (!b.extiFlag && !b.isPressed) ==> Poll(b, nowMs, reading) == Polled(b, EventNone)
    ensures var c := Poll(b, nowMs, reading).state;
      b.port.Some? && (b.extiFlag || b.isPressed) ==>
        !c.extiFlag && c.rawState == reading &&
        c.rawChangedMs == (if reading != b.rawState then nowMs else b.rawChangedMs) &&
        c.stableState == (if Sub32(nowMs, c.rawChangedMs) >= b.debounceMs then reading else b.stableState)
    ensures var p := Poll(b, nowMs, reading); var c := p.state;
      c.stableState != b.stableState && c.stableState == b.pressedLevel ==>
        p.ev == EventNone && c.isPressed && !c.longFired && c.pressedStartMs == nowMs
    ensures var p := Poll(b, nowMs, reading); var c := p.state;
      c.stableState != b.stableState && c.stableState != b.pressedLevel ==>
        !c.isPressed && !c.longFired && (p.ev == EventShort <==> !b.longFired) && p.ev != EventLong
    ensures var p := Poll(b, nowMs, reading); var c := p.state;
      c.stableState == b.stableState ==>
        p.ev != EventShort &&
        (p.ev == EventLong <==>
           b.port.Some? && b.isPressed && !b.longFired && Sub32(nowMs, b.pressedStartMs) >= b.longPressMs) &&
        c.isPressed == b.isPressed && c.pressedStartMs == b.pressedStartMs &&
        (c.longFired <==> b.longFired || p.ev == EventLong)
    ensures var p := Poll(b, nowMs, reading);
      (p.ev == EventShort ==> b.isPressed && !p.state.isPressed) &&
      (p.ev == EventLong ==> b.isPressed && p.state.isPressed && p.state.longFired) &&
      (b.longFired ==> p.ev != EventLong)
  {
  }

  /** The driver's static state. */
  class Button {
    var port: Option<nat>
    var pin: u16
    var pressedLevel: PinState
    var extiFlag: bool
    var rawState: PinState
    var stableState: PinState
    var rawChangedMs: u32
    var isPressed: bool
    var longFired: bool
    var pressedStartMs: u32
    var debounceMs: u32
    var longPressMs: u32

    function View(): ButtonView
      reads this
    {
      ButtonView(port, pin, pressedLevel, extiFlag, rawState, stableState, rawChangedMs,
                 isPressed, longFired, pressedStartMs, debounceMs, longPressMs)
    }

    ghost predicate Valid()
      reads this
    {
      ButtonOk(View())
    }

    /** The static initialisers: no port, released, default timings. */
    constructor Boot()
      ensures port == None && pin == 0 && pressedLevel == PinReset && !extiFlag
      ensures rawState == PinSet && stableState == PinSet && rawChangedMs == 0
      ensures !isPressed && !longFired && pressedStartMs == 0
      ensures debounceMs == DEBOUNCE_MS_DEFAULT && longPressMs == LONG_PRESS_MS_DEFAULT
      ensures Valid()
    {
      port, pin, pressedLevel, extiFlag := None, 0, PinReset, false;
      rawState, stableState, rawChangedMs := PinSet, PinSet, 0;
      isPressed, longFired, pressedStartMs := false, false, 0;
      debounceMs, longPressMs := DEBOUNCE_MS_DEFAULT, LONG_PRESS_MS_DEFAULT;
    }

    /**
     * Button_Init: configures the pin and takes the current reading
     * `reading` as both raw and stable state, pressed iff it is the
     * pressed level.
     */
    method Init(port: Option<nat>, pin: u16, pressedLevel: PinState, reading: PinState)
      modifies this
      ensures this.port == port && this.pin == pin && this.pressedLevel == pressedLevel && !extiFlag
      ensures rawState == reading && stableState == reading && rawChangedMs == 0
      ensures isPressed == (reading == pressedLevel) && !longFired && pressedStartMs == 0
      ensures debounceMs == old(debounceMs) && longPressMs == old(longPressMs)
      ensures Valid()
    {
      this.port := port;
      this.pin := pin;
      this.pressedLevel := pressedLevel;
      extiFlag := false;
      rawState := reading;
      stableState := rawState;
      rawChangedMs := 0;
      isPressed := stableState == pressedLevel;
      longFired := false;
      pressedStartMs := 0;
    }

    /** Button_OnExti: raises the flag only for the configured pin. */
    method OnExti(gpioPin: u16)
      modifies this`extiFlag
      ensures extiFlag == (old(extiFlag) || gpioPin == pin)
    {
      if gpioPin == pin {
        extiFlag := true;
      }
    }

    /**
     * Button_Update with `reading` the pin level read during the call: the
     * state and the event are those of Poll.
     */
    method Update(nowMs: u32, reading: PinState) returns (ev: ButtonEvent)
      requires Valid()
      modifies this
      ensures View() == Poll(old(View()), nowMs, reading).state
      ensures ev == Poll(old(View()), nowMs, reading).ev
      ensures Valid()
    {
      PollEvents(View(), nowMs, reading);
      if port.None? {
        return EventNone;
      }
      if !extiFlag && !isPressed {
        return EventNone;
      }
      extiFlag := false;

      var current := reading;
      if current != rawState {
        rawState := current;
        rawChangedMs := nowMs;
      }

      if Sub32(nowMs, rawChangedMs) < debounceMs {
        // still bouncing: only the long-press check below
      } else {
        if stableState != rawState {
          stableState := rawState;
          if stableState == pressedLevel {
            isPressed := true;
            longFired := false;
            pressedStartMs := nowMs;
            return EventNone;
          } else {
            var wasPressed := isPressed;
            var wasLong := longFired;
            isPressed := false;
            longFired := false;
            if wasPressed && !wasLong {
              return EventShort;
            }
            return EventNone;
          }
        }
      }

      if isPressed && !longFired {
        if Sub32(nowMs, pressedStartMs) >= longPressMs {
          longFired := true;
          return EventLong;
        }
      }
      return EventNone;
    }
  }
}
