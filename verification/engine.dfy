/** The Q-learning engine: one pass of the training loop's body, and an episode of such
    steps. The random draws of epsilon-greedy selection come in as `Draw` values. */
module Engine {
  import opened PySemantics
  import opened Ticket
  import opened Codec
  import opened Rewards
  import opened QTable

  /** One step's randomness: the uniform draw compared with epsilon, and the action the
      second draw picks when exploring. */
  datatype Draw = Draw(u: real, explore: Action)

  /** What a step leaves behind: the updated table, the next state, and the action and
      reward of the step. */
  datatype StepOut = StepOut(q: seq<Row>, next: int, action: Action, reward: int)

  /** What an episode leaves behind: the table, the state it stopped in, the steps taken. */
  datatype EpisodeOut = EpisodeOut(q: seq<Row>, state: int, steps: nat)

  /** One price per day, each inside the price grid. */
  predicate ValidTrajectory(prices: seq<int>) {
    && |prices| >= NumDays
    && forall i :: 0 <= i < |prices| ==> MinPrice <= prices[i] < MaxPrice
  }

  /** Epsilon-greedy: explore when the draw is below epsilon, otherwise take the row's
      argmax, Buy on a tie. */
  function SelectAction(row: Row, d: Draw): (a: Action)
    ensures d.u < Epsilon ==> a == d.explore
    ensures d.u >= Epsilon ==> forall b :: row.Get(b) <= row.Get(a)
    ensures d.u >= Epsilon && a == Wait ==> row.Get(Buy) < row.Get(Wait)
  {
    if d.u < Epsilon then d.explore else Greedy(row)
  }

  /** The transition: buying or the last day leads to the absorbing state; otherwise the
      next day's price is read from the trajectory (Python indexing) and encoded. */
  function NextState(prices: seq<int>, day: int, a: Action): (r: Result<int>)
    ensures a == Buy || day == NumDays - 1 ==> r == Success(AbsorbingState)
    ensures a == Wait && day != NumDays - 1 ==>
              (r.Success? <==> -|prices| <= day + 1 < |prices|)
    ensures a == Wait && day != NumDays - 1 && 0 <= day + 1 < |prices| ==>
              r == Success(Encode(day + 1, prices[day + 1]))
    ensures a == Wait && day != NumDays - 1 && -|prices| <= day + 1 < 0 ==>
              r == Success(Encode(day + 1, prices[day + 1 + |prices|]))
  {
    if a == Buy || day == NumDays - 1 then Success(NumStates - 1)
    else match PyIndex(day + 1, |prices|)
      case None => Failure(IndexError)
      case Some(i) => Success(Encode(day + 1, prices[i]))
  }

  /** The start of an episode: day 0 at the trajectory's first price. */
  function StartState(prices: seq<int>): (r: Result<int>)
    ensures |prices| == 0 ==> r == Failure(IndexError)
    ensures |prices| > 0 ==> r == Success(Encode(0, prices[0]))
    ensures ValidTrajectory(prices) ==> 0 <= r.value < NumPricePts
  {
    if |prices| == 0 then Failure(IndexError) else Success(Encode(0, prices[0]))
  }

  /** One pass of the training loop's body from a non-absorbing `state`. Only the cell of
      the state's row and the chosen action changes, to the temporal-difference update
      toward the reward plus the discounted best value of the next state's row. */
  function Step(q: seq<Row>, prices: seq<int>, state: int, d: Draw): (r: Result<StepOut>)
    requires |q| == NumStates
    requires state != AbsorbingState
    ensures state > AbsorbingState ==> r == Failure(ValueError)
    ensures state < AbsorbingState && r.Failure? ==> r.fault == IndexError
    ensures state < AbsorbingState ==>
              (r.Success? <==>
                 && PyIndex(state, |q|).Some?
                 && var next := NextState(prices, Decode(state).day,
                                          SelectAction(q[PyIndex(state, |q|).value], d));
                    next.Success? && PyIndex(next.value, |q|).Some?)
    ensures r.Success? ==>
              var o := r.value;
              && state < AbsorbingState
              && PyIndex(state, |q|).Some?
              && PyIndex(o.next, |q|).Some?
              && o.action == SelectAction(q[PyIndex(state, |q|).value], d)
              && Reward(state, o.action) == Success(o.reward)
              && NextState(prices, Decode(state).day, o.action) == Success(o.next)
    ensures r.Success? ==>
              var o, i := r.value, PyIndex(state, |q|).value;
              && |o.q| == |q|
              && (forall j :: 0 <= j < |q| && j != i ==> o.q[j] == q[j])
              && o.q[i].Get(Other(o.action)) == q[i].Get(Other(o.action))
              && o.q[i].Get(o.action)
                   == (1.0 - LearningRate) * q[i].Get(o.action)
                      + LearningRate * (o.reward as real
                                        + DiscountFactor * RowMax(q[PyIndex(o.next, |q|).value]))
  {
    match Decode(state)
    case Absorbing => Failure(ValueError)
    case NonTerminal(day, _) =>
      match PyIndex(state, |q|)
      case None => Failure(IndexError)
      case Some(i) =>
        var a := SelectAction(q[i], d);
        var reward := Reward(state, a).value;
        match NextState(prices, day, a)
        case Failure(f) => Failure(f)
        case Success(next) =>
          match PyIndex(next, |q|)
          case None => Failure(IndexError)
          case Some(k) =>
            var v := UpdatedValue(q[i].Get(a), reward, RowMax(q[k]));
            Success(StepOut(q[i := q[i].Set(a, v)], next, a, reward))
  }

  /** On a well-formed trajectory a step from any grid state succeeds and lands inside the
      table, and it never leaves the decoded day 0: after a day-0 state, waiting leads to
      the state of day 1 at the second price, and buying ends the episode. */
  lemma StepOnValidTrajectory(q: seq<Row>, prices: seq<int>, state: int, d: Draw)
    requires |q| == NumStates
    requires ValidTrajectory(prices)
    requires 0 <= state < AbsorbingState
    ensures Step(q, prices, state, d).Success?
    ensures 0 <= Step(q, prices, state, d).value.next < NumStates
    ensures Decode(state).day == 0 ==>
              Step(q, prices, state, d).value.next
                in {AbsorbingState, Encode(1, prices[1])}
  {
    var day := Decode(state).day;
    var a := SelectAction(q[state], d);
    if a == Wait && day != NumDays - 1 {
      assert 0 <= day + 1 <= 3;
      assert InGrid(day + 1, prices[day + 1]);
    }
  }

  /** The first purchase from a fresh table: the next state is absorbing and its row is
      zero, so the bought cell becomes a tenth of the purchase reward. */
  lemma BuyFromZeroTable(prices: seq<int>, state: int, u: real)
    requires 0 <= state < AbsorbingState
    requires u < Epsilon
    ensures Step(Zeros(), prices, state, Draw(u, Buy)).Success?
    ensures var o := Step(Zeros(), prices, state, Draw(u, Buy)).value;
            && o.next == AbsorbingState
            && o.q[state].Get(Buy) == LearningRate * ((NumPricePts - state % NumPricePts) as real)
            && o.q[state].Get(Wait) == 0.0
  {
  }

  /** The day-1 state at the second price decodes to day 0, so exploring Wait from it
      returns to the very same state: an episode need not reach the absorbing state. */
  lemma WaitFromDayOneLoops(q: seq<Row>, prices: seq<int>, u: real)
    requires |q| == NumStates
    requires ValidTrajectory(prices)
    requires u < Epsilon
    ensures Step(q, prices, Encode(1, prices[1]), Draw(u, Wait)).Success?
    ensures Step(q, prices, Encode(1, prices[1]), Draw(u, Wait)).value.next == Encode(1, prices[1])
  {
    var s := Encode(1, prices[1]);
    assert InGrid(1, prices[1]);
    assert Decode(s).day == 0;
  }

  /** The states an episode on a well-formed trajectory can be in: the absorbing state
      and the states of the first two prices. */
  predicate EpisodeState(prices: seq<int>, state: int)
    requires |prices| >= 2
  {
    state == AbsorbingState || state == Encode(0, prices[0]) || state == Encode(1, prices[1])
  }

  /** `table` agrees with `q` on every row but those of the first two prices. */
  predicate SameOutsideFirstTwo(prices: seq<int>, q: seq<Row>, table: seq<Row>)
    requires |prices| >= 2
  {
    && |table| == |q|
    && forall j :: 0 <= j < |q| && j != Encode(0, prices[0]) && j != Encode(1, prices[1]) ==>
         table[j] == q[j]
  }

  /** One step of an episode on a well-formed trajectory keeps it among its possible states
      and writes only the rows of those states. */
  lemma EpisodeStepStaysInside(q: seq<Row>, table: seq<Row>, prices: seq<int>, state: int, d: Draw)
    requires |q| == NumStates
    requires ValidTrajectory(prices)
    requires state != AbsorbingState && EpisodeState(prices, state)
    requires SameOutsideFirstTwo(prices, q, table)
    ensures Step(table, prices, state, d).Success?
    ensures EpisodeState(prices, Step(table, prices, state, d).value.next)
    ensures SameOutsideFirstTwo(prices, q, Step(table, prices, state, d).value.q)
  {
    assert InGrid(0, prices[0]) && InGrid(1, prices[1]);
    assert 0 <= state < AbsorbingState && Decode(state).day == 0;
    StepOnValidTrajectory(table, prices, state, d);
  }

  /** Counts `k` more steps on a successful episode. */
  function AddSteps(r: Result<EpisodeOut>, k: nat): Result<EpisodeOut> {
    match r
    case Failure(f) => Failure(f)
    case Success(e) => Success(EpisodeOut(e.q, e.state, e.steps + k))
  }

  /** Counting steps in two goes is counting them at once. */
  lemma AddStepsTwice(r: Result<EpisodeOut>, a: nat, b: nat)
    ensures AddSteps(AddSteps(r, a), b) == AddSteps(r, a + b)
  {
  }

  /** Reference semantics of the episode loop: while the state is not absorbing, take one
      step with the next draw; stop in the absorbing state or when the draws run out, and
      propagate the first exception. */
  function Episode(table: seq<Row>, prices: seq<int>, state: int, draws: seq<Draw>): (r: Result<EpisodeOut>)
    requires |table| == NumStates
    ensures r.Success? ==> |r.value.q| == NumStates && r.value.steps <= |draws|
    ensures r.Success? && r.value.state != AbsorbingState ==> r.value.steps == |draws|
    ensures r.Success? && r.value.steps == 0 ==> r.value.state == state && r.value.q == table
    ensures state == AbsorbingState ==> r == Success(EpisodeOut(table, state, 0))
    decreases |draws|
  {
    if state == AbsorbingState || |draws| == 0 then Success(EpisodeOut(table, state, 0))
    else match Step(table, prices, state, draws[0])
      case Failure(f) => Failure(f)
      case Success(o) => AddSteps(Episode(o.q, prices, o.next, draws[1..]), 1)
  }

  /** One unfolding of `Episode` from a non-absorbing state with a draw left. */
  lemma EpisodeUnfolds(table: seq<Row>, prices: seq<int>, state: int, draws: seq<Draw>)
    requires |table| == NumStates
    requires state != AbsorbingState && |draws| > 0
    ensures var step := Step(table, prices, state, draws[0]);
            Episode(table, prices, state, draws)
              == if step.Failure? then Failure(step.fault)
                 else AddSteps(Episode(step.value.q, prices, step.value.next, draws[1..]), 1)
  {
  }

  /** One pass of the episode loop after `k` draws: the step's exception is the episode's,
      and a successful step leaves the rest of the episode one draw shorter. */
  lemma EpisodeAdvances(table: seq<Row>, prices: seq<int>, state: int, draws: seq<Draw>, k: nat)
    requires |table| == NumStates
    requires state != AbsorbingState && k < |draws|
    ensures var step := Step(table, prices, state, draws[k]);
            && (step.Failure? ==>
                  AddSteps(Episode(table, prices, state, draws[k..]), k) == Failure(step.fault))
            && (step.Success? ==>
                  && |step.value.q| == NumStates
                  && AddSteps(Episode(table, prices, state, draws[k..]), k)
                       == AddSteps(Episode(step.value.q, prices, step.value.next, draws[k + 1..]), k + 1))
  {
    assert draws[k..][0] == draws[k] && draws[k..][1..] == draws[k + 1..];
    EpisodeUnfolds(table, prices, state, draws[k..]);
    var step := Step(table, prices, state, draws[k]);
    if step.Success? {
      var rest := Episode(step.value.q, prices, step.value.next, draws[k + 1..]);
      assert Episode(table, prices, state, draws[k..]) == AddSteps(rest, 1);
      AddStepsTwice(rest, 1, k);
    }
  }

  /** An episode on a well-formed trajectory from one of its possible states succeeds,
      ends among those states, and writes only the rows of the first two prices. */
  lemma {:induction false} EpisodeStaysInside(q: seq<Row>, table: seq<Row>, prices: seq<int>,
                                              state: int, draws: seq<Draw>)
    requires |q| == NumStates
    requires ValidTrajectory(prices)
    requires EpisodeState(prices, state)
    requires SameOutsideFirstTwo(prices, q, table)
    ensures var e := Episode(table, prices, state, draws);
            e.Success? && EpisodeState(prices, e.value.state) && SameOutsideFirstTwo(prices, q, e.value.q)
    decreases |draws|
  {
    if state != AbsorbingState && |draws| > 0 {
      EpisodeStepStaysInside(q, table, prices, state, draws[0]);
      var o := Step(table, prices, state, draws[0]).value;
      EpisodeStaysInside(q, o.q, prices, o.next, draws[1..]);
    }
  }

  /** The loop of an episode from `state`: one step per draw until the absorbing state or
      the draws run out. It computes the reference semantics `Episode`. */
  method StepUntilAbsorbed(q: seq<Row>, prices: seq<int>, state: int, draws: seq<Draw>)
    returns (r: Result<EpisodeOut>)
    requires |q| == NumStates
    ensures r == Episode(q, prices, state, draws)
  {
    var table := q;
    var current := state;
    var k := 0;
    while current != AbsorbingState && k < |draws|
      invariant 0 <= k <= |draws|
      invariant |table| == NumStates
      invariant Episode(q, prices, state, draws)
                  == AddSteps(Episode(table, prices, current, draws[k..]), k)
      decreases |draws| - k
    {
      EpisodeAdvances(table, prices, current, draws, k);
      var step := Step(table, prices, current, draws[k]);
      if step.Failure? {
        return Failure(step.fault);
      }
      table := step.value.q;
      current := step.value.next;
      k := k + 1;
    }
    return Success(EpisodeOut(table, current, k));
  }

  /** An episode of the training loop: start on day 0 at the first price, then step until
      absorbed or out of draws. On a well-formed trajectory it visits only the two states
      of the first two prices, so every other row of the table is left as it was. */
  method RunEpisode(q: seq<Row>, prices: seq<int>, draws: seq<Draw>) returns (r: Result<EpisodeOut>)
    requires |q| == NumStates
    ensures |prices| == 0 ==> r == Failure(IndexError)
    ensures |prices| > 0 ==> r == Episode(q, prices, Encode(0, prices[0]), draws)
    ensures ValidTrajectory(prices) ==>
              && r.Success?
              && r.value.state in {AbsorbingState, Encode(0, prices[0]), Encode(1, prices[1])}
              && forall j :: 0 <= j < NumStates && j != Encode(0, prices[0]) && j != Encode(1, prices[1]) ==>
                   r.value.q[j] == q[j]
  {
    var start := StartState(prices);
    if start.Failure? {
      return Failure(start.fault);
    }
    if ValidTrajectory(prices) {
      EpisodeStaysInside(q, q, prices, start.value, draws);
    }
    r := StepUntilAbsorbed(q, prices, start.value, draws);
  }
}
