/** The constants of the ticket-buying problem and its two actions. Names follow the
    program's globals; every derived value is computed with the program's own expression. */
module Ticket {

  const MinPrice: int := 100
  const MaxPrice: int := 3000
  const PriceIncrement: int := 10
  /** Number of price buckets; declared as a literal in the program. */
  const NumPricePts: int := 290
  const NumDays: int := 270
  const NumActions: int := 2

  /** `NUM_DAYS * (MAX_PRICE - MIN_PRICE) // PRICE_INCREMENT + 1`: multiplication and floor
      division associate to the left, so this is `(270 * 2900) // 10 + 1`. */
  const NumStates: int := NumDays * (MaxPrice - MinPrice) / PriceIncrement + 1

  /** The last state index, reserved for "ticket bought or deadline passed". */
  const AbsorbingState: int := NumStates - 1

  const Epsilon: real := 0.99
  const DiscountFactor: real := 0.99
  const LearningRate: real := 0.1

  /** Action 0 buys the ticket now, action 1 waits another day. */
  datatype Action = Buy | Wait {
    function Index(): (i: nat)
      ensures i < NumActions
      ensures (i == 0) <==> this == Buy
    {
      if Buy? then 0 else 1
    }
  }

  /** The derived constants take the values the rest of the program assumes. */
  lemma DerivedConstants()
    ensures NumStates == 78301 && AbsorbingState == 78300
    ensures NumPricePts == (MaxPrice - MinPrice) / PriceIncrement
    ensures NumStates == NumDays * NumPricePts + 1
  {
  }
}
