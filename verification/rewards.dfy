/** `get_reward`: the reward for taking an action in a state. */
module Rewards {
  import opened PySemantics
  import opened Ticket
  import opened Codec

  /** Zero in the absorbing state; for a purchase, the number of price increments below the
      maximum price; for waiting, a large penalty on the last day and -1 otherwise. An index
      above the absorbing one decodes to the marker string, whose unpacking raises. */
  function Reward(s: int, a: Action): (r: Result<int>)
    ensures s == AbsorbingState ==> r == Success(0)
    ensures s > AbsorbingState ==> r == Failure(ValueError)
    ensures s < AbsorbingState && a == Buy ==>
              r == Success(NumPricePts - s % NumPricePts) && 1 <= r.value <= NumPricePts
    ensures s < AbsorbingState && a == Wait ==>
              r.Success? && (r.value == -MaxPrice <==> Decode(s).day == NumDays - 1)
                         && (r.value != -MaxPrice ==> r.value == -1)
  {
    if s == NumStates - 1 then Success(0)
    else match Decode(s)
      case Absorbing => Failure(ValueError)
      case NonTerminal(d, p) =>
        if a == Buy then Success((MaxPrice - p) / PriceIncrement)
        else if d == NumDays - 1 then Success(-MaxPrice)
        else Success(-1)
  }

  /** The purchase reward of a grid point depends only on its price bucket: cheaper
      buckets earn strictly more. */
  lemma BuyRewardOfGridPoint(d: int, p: int)
    requires InGrid(d, p)
    ensures Reward(Encode(d, p), Buy) == Success((MaxPrice - BucketFloor(p)) / PriceIncrement)
    ensures Reward(Encode(d, p), Buy) == Success(NumPricePts - Bucket(p))
  {
    var s := Encode(d, p);
    assert s % NumPricePts == Bucket(p);
  }

  /** Because a decoded day is at most 2, the last-day penalty never fires: waiting costs
      -1 in every state below the absorbing one. */
  lemma WaitNeverPenalised(s: int)
    requires s < AbsorbingState
    ensures Reward(s, Wait) == Success(-1)
  {
    assert Decode(s).day <= 2;
  }
}
