/**
 * The random number generator, as a fixed but arbitrary stream of integer
 * draws read from a cursor. Every draw is folded into the requested range;
 * a draw already in range is returned as it is, so any sequence of outcomes
 * the real generator can produce is some stream here.
 */
module Random {
  import opened Wrappers

  /** The value a draw `d` yields for `range(lo, hi)`. */
  function ToRange(d: int, lo: int, hi: int): (v: int)
    requires lo < hi
    ensures lo <= v < hi
    ensures lo <= d < hi ==> v == d
    decreases if d < lo then lo - d else d - hi
  {
    if d < lo then ToRange(d + (hi - lo), lo, hi)
    else if d >= hi then ToRange(d - (hi - lo), lo, hi)
    else d
  }

  lemma MulAtLeast(n: int, w: int)
    requires n >= 1 && w > 0
    ensures n * w >= w
  {
    var m := n - 1;
    assert n * w == m * w + w;
    assert m * w >= 0;
  }

  /** The remainder is the unique `r` with `a == q * w + r` and `0 <= r < w`. */
  lemma RemainderUnique(a: int, w: int, q: int, r: int)
    requires w > 0 && 0 <= r < w && a == q * w + r
    ensures a % w == r
  {
    var q0, r0 := a / w, a % w;
    assert a == q0 * w + r0;
    assert (q - q0) * w == r0 - r;
    if q > q0 {
      MulAtLeast(q - q0, w);
    } else if q < q0 {
      assert (q0 - q) * w == r - r0;
      MulAtLeast(q0 - q, w);
    }
  }

  lemma RemainderShift(a: int, w: int)
    requires w > 0
    ensures (a + w) % w == a % w
  {
    var q := a / w;
    assert a == q * w + a % w;
    assert (q + 1) * w == q * w + w;
    RemainderUnique(a + w, w, q + 1, a % w);
  }

  /** Folding by whole widths is the remainder a uniform `range` takes: `lo + (d - lo) mod (hi - lo)`. */
  lemma {:induction false} ToRangeIsRemainder(d: int, lo: int, hi: int)
    requires lo < hi
    ensures ToRange(d, lo, hi) == lo + (d - lo) % (hi - lo)
    decreases if d < lo then lo - d else d - hi
  {
    var w := hi - lo;
    if d < lo {
      ToRangeIsRemainder(d + w, lo, hi);
      RemainderShift(d - lo, w);
    } else if d >= hi {
      ToRangeIsRemainder(d - w, lo, hi);
      RemainderShift(d - w - lo, w);
    } else {
      RemainderUnique(d - lo, w, 0, d - lo);
    }
  }

  /** The draws `random_slice_index` spends on a slice of `n` elements: one, unless there is no choice to make. */
  function SliceDraws(n: nat): nat {
    if n <= 1 then 0 else 1
  }

  class Rng {
    const stream: nat -> int
    var pos: nat

    constructor (stream: nat -> int)
      ensures this.stream == stream && pos == 0
    {
      this.stream := stream;
      pos := 0;
    }

    /** `range(lo, hi)`: one draw in `[lo, hi)`. */
    method Range(lo: int, hi: int) returns (v: int)
      requires lo < hi
      modifies this
      ensures pos == old(pos) + 1
      ensures v == ToRange(stream(old(pos)), lo, hi)
    {
      v := ToRange(stream(pos), lo, hi);
      pos := pos + 1;
    }

    /**
     * `random_slice_index`: `None` for an empty slice and `Some(0)` for a
     * one-element slice, neither with a draw; otherwise one draw in `[0, n)`.
     */
    method RandomSliceIndex(n: nat) returns (r: Option<nat>)
      modifies this
      ensures n == 0 ==> r == None && pos == old(pos)
      ensures n > 0 ==> r == Some(ToRange(stream(old(pos)), 0, n)) && pos == old(pos) + SliceDraws(n)
      ensures n == 1 ==> r == Some(0)
    {
      if n == 0 {
        r := None;
      } else if n == 1 {
        r := Some(0);
      } else {
        var v := Range(0, n);
        r := Some(v);
      }
    }
  }
}
