/**
 * The random draws the automaton takes from its noise sampler, as an oracle. The
 * sampler keeps one stream of draws; `Range` and `BoolValue` each take the next
 * one. Here the stream is a pair of functions indexed by the position of the draw,
 * and a cursor (a `nat`) counts the draws taken so far.
 */
module VoronoiOracle {

  /**
   * `range(k, min, max)` is what `Range(min, max)` returns as draw number k;
   * `coin(k)` is what `BoolValue()` returns as draw number k.
   */
  datatype Noise = Noise(range: (nat, int, int) -> int, coin: nat -> bool)

  /**
   * The one thing the automaton relies on: `Range(min, max)` with `min < max` lies in
   * the half-open interval [min, max). Callers never ask for an empty span.
   */
  ghost predicate RangeIsHalfOpen(noise: Noise)
  {
    forall k: nat, lo: int, hi: int :: lo < hi ==> lo <= noise.range(k, lo, hi) < hi
  }

  /** `m / 2` on a C# int: the quotient is truncated toward zero. */
  function Half(m: int): (q: int)
    ensures m >= 0 ==> 0 <= q && 2 * q <= m <= 2 * q + 1
    ensures m < 0 ==> q <= 0 && 2 * q - 1 <= m <= 2 * q
  {
    if m >= 0 then m / 2 else -((-m) / 2)
  }
}
