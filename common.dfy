/**
 * Fixed-width integer types and the wrap-around arithmetic the firmware
 * relies on, plus the small value types shared by every component.
 */
module Common {

  const U32_MOD: int := 0x1_0000_0000
  const U16_MOD: int := 0x1_0000

  /** `uint32_t`, `uint16_t` and `uint8_t` as value ranges. */
  newtype u32 = x: int | 0 <= x < 0x1_0000_0000
  newtype u16 = x: int | 0 <= x < 0x1_0000
  newtype byte = x: int | 0 <= x < 0x100

  datatype Option<+T> = None | Some(value: T)

  /** `HAL_StatusTypeDef`. */
  datatype HalStatus = HalOk | HalError | HalBusy | HalTimeout

  function Min(a: int, b: int): (m: int)
    ensures m <= a && m <= b && (m == a || m == b)
  {
    if a <= b then a else b
  }

  /** `a + n` computed in a `uint32_t`: the sum taken modulo 2^32. */
  function Add32(a: u32, n: int): (r: u32)
    ensures 0 <= a as int + n < U32_MOD ==> r as int == a as int + n
  {
    ((a as int + n) % 0x1_0000_0000) as u32
  }

  /** `a - b` computed in a `uint32_t`: the elapsed time from timestamp `b` to `a`. */
  function Sub32(a: u32, b: u32): (r: u32)
    ensures r as int == if a >= b then a as int - b as int else U32_MOD + a as int - b as int
  {
    ((a as int - b as int) % U32_MOD) as u32
  }

  /** `a + n` computed in a `uint16_t`. */
  function Add16(a: u16, n: int): (r: u16)
    ensures (r as int - a as int - n) % U16_MOD == 0
    ensures 0 <= a as int + n < U16_MOD ==> r as int == a as int + n
  {
    ((a as int + n) % U16_MOD) as u16
  }

  /** Two successive wrapping additions are one wrapping addition of the sum. */
  lemma Add32Twice(a: u32, m: int, n: int)
    ensures Add32(Add32(a, m), n) == Add32(a, m + n)
  {
    var s := a as int + m;
    var q := s / U32_MOD;
    assert s == q * U32_MOD + s % U32_MOD;
    assert (s % U32_MOD + n) == (s + n) - q * U32_MOD;
    ModShift(s + n, -q);
  }

  lemma ModShift(x: int, q: int)
    ensures (x + q * U32_MOD) % U32_MOD == x % U32_MOD
  {
  }

  /** `x++` on a `uint32_t`: the largest value wraps to 0. */
  function Inc32(x: u32): u32
  {
    if x as int == U32_MOD - 1 then 0 else x + 1
  }

  /** `x++` on a `uint16_t`. */
  function Inc16(x: u16): u16
  {
    if x as int == U16_MOD - 1 then 0 else x + 1
  }

  /** A `uint32_t` counter started at 0 after `n` increments. */
  function Count32(n: nat): u32
    decreases n
  {
    if n == 0 then 0 else Inc32(Count32(n - 1))
  }

  /** A `uint16_t` counter started at 0 after `n` increments. */
  function Count16(n: nat): u16
    decreases n
  {
    if n == 0 then 0 else Inc16(Count16(n - 1))
  }

  /** The increment is the wrapping addition of 1. */
  lemma Inc32IsAdd(x: u32)
    ensures Inc32(x) == Add32(x, 1)
  {
  }

  /** After `n` increments a 32-bit counter holds `n mod 2^32`. */
  lemma {:induction false} Count32Mod(n: nat)
    ensures Count32(n) as int == n % U32_MOD
    decreases n
  {
    if n > 0 {
      Count32Mod(n - 1);
      var q := (n - 1) / U32_MOD;
      assert n - 1 == q * U32_MOD + (n - 1) % U32_MOD;
      if (n - 1) % U32_MOD == U32_MOD - 1 {
        assert n == (q + 1) * U32_MOD;
      } else {
        assert n == q * U32_MOD + ((n - 1) % U32_MOD + 1);
      }
    }
  }

  /** After `n` increments a 16-bit counter holds `n mod 2^16`. */
  lemma {:induction false} Count16Mod(n: nat)
    ensures Count16(n) as int == n % U16_MOD
    decreases n
  {
    if n > 0 {
      Count16Mod(n - 1);
      var q := (n - 1) / U16_MOD;
      assert n - 1 == q * U16_MOD + (n - 1) % U16_MOD;
      if (n - 1) % U16_MOD == U16_MOD - 1 {
        assert n == (q + 1) * U16_MOD;
      } else {
        assert n == q * U16_MOD + ((n - 1) % U16_MOD + 1);
      }
    }
  }

  /** Moving the first `k` elements of `q` onto the end of `s`. */
  lemma SplitAt<T>(s: seq<T>, q: seq<T>, k: nat)
    requires k <= |q|
    ensures s + q == (s + q[..k]) + q[k..]
  {
    assert q == q[..k] + q[k..];
  }

  /** Appending `s[..b]` and then `s[b..c]` is appending `s[..c]`. */
  lemma AppendPrefix<T>(q: seq<T>, s: seq<T>, b: nat, c: nat)
    requires b <= c <= |s|
    ensures (q + s[..b]) + s[b..c] == q + s[..c]
  {
    assert s[..b] + s[b..c] == s[..c];
  }
}
