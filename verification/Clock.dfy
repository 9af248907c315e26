/** The steady clock, the casts applied to its readings, and sequence numbers. */
module Clock {
  /** A reading of the steady clock, in nanoseconds. */
  type Time = int

  type Word64 = x: nat | x < 0x1_0000_0000_0000_0000

  const MS := 1_000_000

  /** `duration_cast` to milliseconds: the fraction is cut off towards zero. */
  function ToMs(ns: int): (ms: int) {
    if ns >= 0 then ns / MS else -(-ns / MS)
  }

  lemma ToMsAtMost(ns: int, limit: int)
    ensures limit >= 0 ==> (ToMs(ns) <= limit <==> ns < (limit + 1) * MS)
  {
  }
}
