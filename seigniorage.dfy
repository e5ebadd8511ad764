/** The values the proprietary seigniorage package hands to the manager.  Only
    their shape is known; the package that computes them is not part of this
    model. */
module Seigniorage {

  datatype AdjustmentType = None | Expansion | Contraction

  /** A `time.Time` instant: whole seconds since the Unix epoch and the
      nanoseconds within that second (0 <= nsec < 10^9 for a normalised time). */
  datatype Time = Time(unix: int, nsec: nat)

  /** `t.After(u)`: t is a strictly later instant than u. */
  predicate After(t: Time, u: Time)
  {
    t.unix > u.unix || (t.unix == u.unix && t.nsec > u.nsec)
  }

  /** The zero `time.Time` (January 1 of year 1, UTC), in Unix seconds. */
  const ZeroTime := Time(-62135596800, 0)

  /** `seigniorage.AdjustmentResult`.  The four quantities are Go `*big.Int`
      values and so are signed and unbounded. */
  datatype Adjustment = Adjustment(
    kind: AdjustmentType,
    amount: int,        // stable-token supply to mint or burn
    valueTokens: int,   // value tokens to burn from or mint to the treasury
    deviationBps: int,  // deviation from target, in basis points
    newSupply: int,     // the supply the decision expects afterwards
    timestamp: Time)
}
