/**
 * The application's mode handling: the LED mode cycles OFF, BLINK, SOS on a
 * short button press and returns to OFF on a long one; every main-loop
 * step advances the LED and polls the button before acting on its event.
 */
module App {
  import opened Common
  import opened LedFsm
  import opened ButtonDriver

  /** STM32F4 GPIO port base addresses and pin masks used by the board. */
  const GPIOA_BASE: nat := 0x4002_0000
  const GPIOC_BASE: nat := 0x4002_0800
  const GPIO_PIN_0: u16 := 0x0001
  const GPIO_PIN_13: u16 := 0x2000

  /** App_NextMode: OFF to BLINK to SOS to OFF; any other value to OFF. */
  function NextMode(mode: int): (m: int)
    ensures m == LED_MODE_OFF || m == LED_MODE_BLINK || m == LED_MODE_SOS
    ensures mode !in {LED_MODE_OFF, LED_MODE_BLINK, LED_MODE_SOS} ==> m == LED_MODE_OFF
  {
    if mode == LED_MODE_OFF then LED_MODE_BLINK
    else if mode == LED_MODE_BLINK then LED_MODE_SOS
    else if mode == LED_MODE_SOS then LED_MODE_OFF
    else LED_MODE_OFF
  }

  /** Three short presses bring every mode back, and one press always changes it. */
  lemma NextModeCycles(mode: int)
    requires mode in {LED_MODE_OFF, LED_MODE_BLINK, LED_MODE_SOS}
    ensures NextMode(NextMode(NextMode(mode))) == mode
    ensures NextMode(mode) != mode && NextMode(NextMode(mode)) != mode
  {
  }

  /** `s_mode` and the drivers App_Update drives. */
  class Application {
    var mode: int
    const led: Led
    const button: Button

    ghost predicate Valid()
      reads this, led, button
    {
      led.Valid() && button.Valid() && led.mode == mode &&
      mode in {LED_MODE_OFF, LED_MODE_BLINK, LED_MODE_SOS}
    }

    /**
     * The LED and button part of App_Init: the LED on PC13 in BLINK mode,
     * the button on PA0, pressed when low; `reading` is PA0's level at
     * Init and `pinHigh` the LED pin's level at reset.
     */
    constructor Init(ghost pinHigh: bool, reading: PinState)
      ensures fresh(led) && fresh(button)
      ensures mode == LED_MODE_BLINK && led.mode == LED_MODE_BLINK && led.step == 0 && led.nextMs == 0
      ensures led.port == Some(GPIOC_BASE) && led.pin == GPIO_PIN_13
      ensures button.port == Some(GPIOA_BASE) && button.pin == GPIO_PIN_0 && button.pressedLevel == PinReset
      ensures button.isPressed == (reading == PinReset) && !button.longFired
      ensures Valid()
    {
      var l := new Led.Boot(pinHigh);
      l.Init(Some(GPIOC_BASE), GPIO_PIN_13);
      l.SetMode(LED_MODE_BLINK);
      var b := new Button.Boot();
      b.Init(Some(GPIOA_BASE), GPIO_PIN_0, PinReset, reading);
      led := l;
      button := b;
      mode := LED_MODE_BLINK;
    }

    /**
     * The LED and button part of App_Update: the LED is updated, the
     * button polled (its pin reads `reading`), and its event applied: none
     * keeps the mode, SHORT moves to the next mode and LONG to OFF, the
     * LED restarting in the new mode with the pin level the update left.
     */
    method Update(nowMs: u32, reading: PinState) returns (ev: ButtonEvent)
      requires Valid()
      modifies this`mode, led, button
      ensures Valid()
      ensures ev == Poll(old(button.View()), nowMs, reading).ev
      ensures button.View() == Poll(old(button.View()), nowMs, reading).state
      ensures var t := Tick(old(led.View()), nowMs);
        led.View() == if ev == EventNone then t else LedView(mode, 0, 0, t.pinHigh)
      ensures led.port == old(led.port) && led.pin == old(led.pin)
      ensures ev == EventNone ==> mode == old(mode)
      ensures ev == EventShort ==> mode == NextMode(old(mode))
      ensures ev == EventLong ==> mode == LED_MODE_OFF
      ensures ev != EventNone ==> led.step == 0 && led.nextMs == 0
    {
      led.Update(nowMs);
      ev := button.Update(nowMs, reading);
      if ev == EventNone {
        return;
      }
      if ev == EventShort {
        mode := NextMode(mode);
        led.SetMode(mode);
      } else if ev == EventLong {
        mode := LED_MODE_OFF;
        led.SetMode(mode);
      }
    }
  }
}
