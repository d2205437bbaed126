/**
 * Index arithmetic of a circular buffer of `n` slots: the window of slots
 * from a read index up to (not including) a write index, read as one
 * sequence. Both software rings and the hardware-filled receive buffer use
 * it: the software rings for their valid bytes (`tail` up to `head`), the
 * receive bridge for the bytes the hardware wrote since the last poll.
 */
module Circular {

  /** Number of slots from `from` forward to `to`, i.e. `(to - from) mod n`. */
  function Count(from: nat, to: nat, n: nat): (c: nat)
    requires from < n && to < n
    ensures c < n
    ensures c == 0 <==> from == to
  {
    if from <= to then to - from else n - from + to
  }

  /** The slot `k` places after `from`, i.e. `(from + k) mod n`, for `k <= n`. */
  function Advance(from: nat, k: nat, n: nat): (s: nat)
    requires from < n && k <= n
    ensures s < n
  {
    if from + k < n then from + k else from + k - n
  }

  /** `(from + k) mod n` as the firmware computes it with `%`. */
  lemma AdvanceIsMod(from: nat, k: nat, n: nat)
    requires from < n && k <= n
    ensures (from + k) % n == Advance(from, k, n)
  {
    if from + k >= n {
      assert from + k == n + (from + k - n);
    }
  }

  /** Advancing the read index by `k` slots shortens the window by `k`. */
  lemma CountSkip(from: nat, to: nat, k: nat, n: nat)
    requires from < n && to < n && k <= Count(from, to, n)
    ensures Count(Advance(from, k, n), to, n) == Count(from, to, n) - k
  {
  }

  /** Advancing by `a` and then by `b` is advancing by `a + b`. */
  lemma AdvanceTwice(from: nat, a: nat, b: nat, n: nat)
    requires from < n && a + b <= n
    ensures Advance(Advance(from, a, n), b, n) == Advance(from, a + b, n)
  {
  }

  /**
   * The slots `[from, to)` read circularly, as the firmware copies them:
   * one contiguous range when the window does not wrap, otherwise the
   * range up to the physical end followed by the range from slot 0.
   */
  function Window<T>(buf: seq<T>, from: nat, to: nat): (w: seq<T>)
    requires from < |buf| && to < |buf|
    ensures |w| == Count(from, to, |buf|)
  {
    if from <= to then buf[from..to] else buf[from..] + buf[..to]
  }

  /** The same number of slots read one at a time as a single circular range. */
  function Linear<T>(buf: seq<T>, from: nat, len: nat): (w: seq<T>)
    requires from < |buf| && len <= |buf|
    ensures |w| == len
  {
    seq(len, i requires 0 <= i < len => buf[Advance(from, i, |buf|)])
  }

  /** The split copy equals the single circular range. */
  lemma WindowIsLinear<T>(buf: seq<T>, from: nat, to: nat)
    requires from < |buf| && to < |buf|
    ensures Window(buf, from, to) == Linear(buf, from, Count(from, to, |buf|))
  {
    var w, l := Window(buf, from, to), Linear(buf, from, Count(from, to, |buf|));
    forall i | 0 <= i < |w|
      ensures w[i] == l[i]
    {
      if from <= to || i < |buf| - from {
        assert w[i] == buf[from + i];
      } else {
        assert w[i] == buf[from + i - |buf|];
      }
    }
  }

  /**
   * Writing `x` into the write slot and advancing the write index appends
   * `x` to the window, provided one slot stays free.
   */
  lemma WindowPush<T>(buf: seq<T>, from: nat, to: nat, x: T)
    requires from < |buf| && to < |buf|
    requires Count(from, to, |buf|) < |buf| - 1
    ensures Count(from, Advance(to, 1, |buf|), |buf|) == Count(from, to, |buf|) + 1
    ensures Window(buf[to := x], from, Advance(to, 1, |buf|)) == Window(buf, from, to) + [x]
  {
    var n := |buf|;
    var b' := buf[to := x];
    var c := Count(from, to, n);
    var to' := Advance(to, 1, n);
    WindowIsLinear(buf, from, to);
    WindowIsLinear(b', from, to');
    var l, l' := Linear(buf, from, c), Linear(b', from, c + 1);
    forall i | 0 <= i < c + 1
      ensures l'[i] == (l + [x])[i]
    {
      if i < c {
        assert Advance(from, i, n) != to;
      } else {
        assert Advance(from, c, n) == to;
      }
    }
  }

  /** Advancing the read index by `k` slots drops the first `k` elements of the window. */
  lemma WindowSkip<T>(buf: seq<T>, from: nat, to: nat, k: nat)
    requires from < |buf| && to < |buf|
    requires k <= Count(from, to, |buf|)
    ensures Count(Advance(from, k, |buf|), to, |buf|) == Count(from, to, |buf|) - k
    ensures Window(buf, Advance(from, k, |buf|), to) == Window(buf, from, to)[k..]
  {
    var n := |buf|;
    var from' := Advance(from, k, n);
    var c := Count(from, to, n);
    WindowIsLinear(buf, from, to);
    WindowIsLinear(buf, from', to);
    var l, l' := Linear(buf, from, c), Linear(buf, from', c - k);
    forall i | 0 <= i < c - k
      ensures l'[i] == l[k + i]
    {
      assert Advance(from', i, n) == Advance(from, k + i, n);
    }
  }
}
