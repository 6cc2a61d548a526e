/** JavaScript's number rounding, on exact reals. */
module JsMath {
  /** `Math.round`: the nearest integer, halves rounding up. */
  function JsRound(x: real): (r: int)
    ensures x - 0.5 < r as real <= x + 0.5
  {
    (x + 0.5).Floor
  }

  /** `Math.round` is the only integer within half of `x`, counting the
      half above. */
  lemma JsRoundUnique(x: real, n: int)
    requires x - 0.5 < n as real <= x + 0.5
    ensures JsRound(x) == n
  {
  }
}
