/** The Q-table: one row of two action values per state, and the numpy operations the
    program applies to a row (argmax, max) and the temporal-difference update. */
module QTable {
  import opened Ticket

  /** `Q[s, :]`: the estimated values of buying and of waiting in one state. */
  datatype Row = Row(buy: real, wait: real) {
    function Get(a: Action): real {
      match a
      case Buy => buy
      case Wait => wait
    }

    /** Writes the value of one action, keeping the other. */
    function Set(a: Action, v: real): (r: Row)
      ensures r.Get(a) == v
      ensures r.Get(Other(a)) == Get(Other(a))
    {
      match a
      case Buy => Row(v, wait)
      case Wait => Row(buy, v)
    }
  }

  function Other(a: Action): (b: Action)
    ensures b != a
  {
    if a == Buy then Wait else Buy
  }

  /** The initial table: one row per state, both action values zero. */
  function Zeros(): (q: seq<Row>)
    ensures |q| == NumStates
    ensures forall i :: 0 <= i < |q| ==> q[i].Get(Buy) == 0.0 && q[i].Get(Wait) == 0.0
  {
    seq(NumStates, i => Row(0.0, 0.0))
  }

  /** `np.argmax` of a row: an action of maximal value, the first one (Buy) on a tie. */
  function Greedy(row: Row): (a: Action)
    ensures forall b :: row.Get(b) <= row.Get(a)
    ensures a == Wait ==> row.Get(Buy) < row.Get(Wait)
  {
    if row.buy >= row.wait then Buy else Wait
  }

  /** `np.max` of a row: an upper bound of both values that is one of them. */
  function RowMax(row: Row): (m: real)
    ensures forall b :: row.Get(b) <= m
    ensures m == row.Get(Buy) || m == row.Get(Wait)
  {
    if row.buy >= row.wait then row.buy else row.wait
  }

  /** The temporal-difference update of one cell toward the target `reward + 0.99 * nextMax`:
      the estimate moves a tenth of the way toward the target, so it lands between the
      old estimate and the target. */
  function UpdatedValue(current: real, reward: int, nextMax: real): (v: real)
    ensures var target := reward as real + DiscountFactor * nextMax;
            && v == current + LearningRate * (target - current)
            && (current <= target ==> current <= v <= target)
            && (target <= current ==> target <= v <= current)
  {
    (1.0 - LearningRate) * current + LearningRate * (reward as real + DiscountFactor * nextMax)
  }
}
