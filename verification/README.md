# Ticket-buying Q-learning, modelled in Dafny

The program learns when to buy a concert ticket. A state is a (day, price bucket) pair on a
grid of 270 days and 290 price buckets of width 10 between 100 and 3000, plus one absorbing
state meaning "ticket bought or deadline passed". Training runs tabular Q-learning over daily
price trajectories with epsilon-greedy action selection. The greedy action of every
non-absorbing state is then written out as a (day, price, "B"/"W") policy table.

The model follows `final.py` as written, with its constants and its operator precedence:

- `Ticket`: the constants (`NumStates` = 78301, absorbing index 78300) and the two actions.
- `PySemantics`: the Python behaviour the program depends on. Exceptions become `Fault`
  values (`IndexError`, `ValueError`). A negative index counts back from the end of the
  Q-table's rows, or of the columns of the price row.
- `Codec`: `encode_state` and `decode_state`. Decoding returns the tagged value
  `NonTerminal(day, price) | Absorbing` instead of a tuple-or-string.
- `Rewards`: `get_reward`. Decoding an index above the absorbing one yields the marker
  string, so unpacking it into a pair raises a `ValueError`.
- `QTable`: rows of two `real` values, numpy's `argmax` (the first index wins ties, so Buy
  wins), `max`, and the update formula.
- `Engine`: one pass of the training loop's body, as a pure `Step` over an immutable
  table. `Episode` is the reference meaning of the episode loop, one `Step` per supplied
  random draw; the loop itself is `StepUntilAbsorbed`, and `RunEpisode` starts it on day 0.
- `Policy`: the greedy action list and the decoding loop that produces the output rows.

Facts proved about the program as written:

- `decode_state` computes the day as `s // 2900 // 10`, that is `s // 29000`. A decoded day
  is therefore at most 2, and a grid point `(d, p)` decodes to day `d // 100`. The price does
  come back as the lower bound of its bucket.
- The last-day checks in `get_reward` and in the transition can never fire, so waiting
  always costs -1.
- On a well-formed trajectory an episode only ever visits the states of the first two prices
  (and the absorbing state). Exploring Wait from the second of them leads back to the same
  state, so an episode need not terminate.

The engine keeps the as-written decoder because its behaviour is what the model describes.
The corrected decoder `DecodeIntended` is given beside it, with its round trip proved (see
Findings).

## Model

| member | source | states |
|---|---|---|
| Ticket.DerivedConstants | final.py:5-12 | the state count parses as `(270*2900)//10 + 1` = 78301, the absorbing index is 78300, and the count equals days times price buckets plus one |
| PySemantics.PyIndex | final.py:75-82 | an index resolves exactly when it lies in `[-n, n)`, and then to the in-range index congruent to it modulo `n`; in-range indices are unchanged |
| Codec.Encode | final.py:25-29 | a day before the deadline gives `day*290 + bucket`; a day at or past the deadline gives the absorbing index whatever the price; a grid point lands in `[0, 78300)` and is never the absorbing index |
| Codec.NestedDivision | final.py:33 | the decoder's `s // 2900 // 10` equals `s // 29000` for every integer |
| Codec.Decode | final.py:31-37 | the result is the absorbing marker exactly when `s >= 78300`; otherwise the day is `s // 29000` and at most 2 (non-negative for `s >= 0`), and the price is the lower bound of bucket `s % 290`, inside `[100, 3000)` |
| Codec.DecodeIntended | final.py:31-37 | corrected decoder: the absorbing marker exactly when `s >= 78300`; otherwise a day in `[0, 270)` for `s >= 0` and a bucket lower bound inside `[100, 3000)` |
| Codec.EncodeInjective | final.py:26-27 | two grid points get the same state if and only if they share the day and the price bucket |
| Codec.RoundTripAsWritten | final.py:25-35 | decoding an encoded grid point returns the bucket's lower bound as the price and `d // 100` as the day |
| Codec.DayRoundTripsOnlyOnDayZero | final.py:25-35 | the decoded day equals the encoded day if and only if the day is 0 |
| Codec.DecodeLosesDayOne | final.py:27-34 | day 1 at price 100 encodes to 290, which the program decodes to day 0 and the corrected decoder to day 1 |
| Codec.IntendedRoundTrip | final.py:25-34 | with the corrected decoder, decode after encode returns the day and the bucket's lower bound, and encode after decode is the identity on `[0, 78300)` |
| Codec.AbsorbingRoundTrip | final.py:28-37 | any day at or past the deadline encodes to a state that decodes to the absorbing marker |
| Rewards.Reward | final.py:39-50 | 0 in the absorbing state; a `ValueError` above it; for Buy, `290 - s % 290`, which is in `[1, 290]`; for Wait, `-3000` exactly when the decoded day is 269 and `-1` otherwise |
| Rewards.BuyRewardOfGridPoint | final.py:43-45 | the purchase reward of a grid point is `(3000 - bucket lower bound) // 10`, that is `290 - bucket` |
| Rewards.WaitNeverPenalised | final.py:46-50 | waiting yields -1 in every state below the absorbing one, because no decoded day reaches 269 |
| QTable.Zeros | final.py:20 | the initial table has 78301 rows, all zero |
| QTable.Greedy | final.py:69 | the chosen action's value is maximal, and Wait is chosen only when it is strictly better than Buy |
| QTable.RowMax | final.py:82 | the row maximum bounds both values and is one of them |
| QTable.UpdatedValue | final.py:82 | the new estimate moves a tenth of the way from the current one toward `reward + 0.99 * nextMax`, so it lies between them |
| Engine.SelectAction | final.py:65-69 | a draw below epsilon takes the explored action; otherwise the action is maximal in the row, with ties going to Buy |
| Engine.StartState | final.py:57 | an empty trajectory raises `IndexError`; otherwise the start is day 0 at the first price, a bucket index in `[0, 290)` on a well-formed trajectory |
| Engine.NextState | final.py:72-76 | Buy or the last day leads to the absorbing state; a Wait succeeds exactly when the next-day index lies in `[-n, n)` for `n` prices, and then encodes the price at that index, counted from the end when negative; otherwise it raises `IndexError` |
| Engine.Step | final.py:61-84 | a state above the absorbing one raises `ValueError`; below it the step succeeds exactly when the state's row, the transition and the next state's row all resolve, and fails with `IndexError` otherwise; on success the action is the selected one, the reward and next state are those of the reward and transition, and only the (state, action) cell changes, to `0.9*current + 0.1*(reward + 0.99*max of the next row)` |
| Engine.StepOnValidTrajectory | final.py:62-84 | on a well-formed trajectory a step from any grid state succeeds, its next state is inside the table, and from a decoded day 0 it is absorbing or the state of day 1 at the second price |
| Engine.BuyFromZeroTable | final.py:71-84 | buying from a fresh table makes the next state absorbing and sets the bought cell to a tenth of the purchase reward, leaving Wait at zero |
| Engine.WaitFromDayOneLoops | final.py:61-84 | exploring Wait from the state of day 1 at the second price returns to that same state |
| Engine.EpisodeStepStaysInside | final.py:61-84 | a step from one of an episode's possible states stays among them and writes only their rows |
| Engine.Episode | final.py:61-84 | the episode from a state: in the absorbing state nothing happens; otherwise one step per draw, stopping only in the absorbing state or when the draws run out, with the table's shape kept and no step leaving the state and table as given |
| Engine.EpisodeStaysInside | final.py:61-84 | on a well-formed trajectory, an episode from one of its possible states succeeds, ends in one of them, and writes only the rows of the first two prices |
| Engine.StepUntilAbsorbed | final.py:61-84 | the episode loop computes exactly the reference episode from its state |
| Engine.RunEpisode | final.py:57-84 | an empty trajectory raises `IndexError`; otherwise the result is the reference episode from day 0 at the first price (so the table keeps its shape and the loop stops only in the absorbing state or when the draws run out); on a well-formed trajectory it succeeds, stops in one of three states, and leaves every row but those two untouched |
| Policy.Label | final.py:92 | the label is "B" exactly for action index 0 and "W" for any other |
| Policy.GreedyPolicy | final.py:86 | one action per non-absorbing state, Buy exactly when buying is worth at least as much as waiting |
| Policy.DecodePolicy | final.py:88-93 | 78300 rows in ascending state order; row `s` carries the decoded day and price of state `s`, is labelled "B" exactly when `Q[s][Buy] >= Q[s][Wait]` and "W" otherwise, and its day is 0, 1 or 2 |

## Left out

- Reading the price trajectories from CSV (`get_data`, including its lines after `return`), writing the policy CSV, `print`, and `main`: file I/O with external collaborators. The trajectory is a `seq<int>` parameter, and `DecodePolicy` returns the rows the writer would receive.
- The random draws of epsilon-greedy selection: each step takes a `Draw` (the uniform value and the explored action) as a parameter.
- The outer loop over 500 dataframe rows: each episode is modelled on its own, starting from any table.
- Unbounded episode length: `RunEpisode` takes one step per supplied draw. Running out of draws stands in for the program looping on, which `WaitFromDayOneLoops` shows it can do.
- Floating-point arithmetic of the update: values are Dafny `real`, so rounding and NaN handling of numpy's `argmax`/`max` are not modelled.
- Prices are integers, so the float type of the price column is not modelled. A finite fractional price falls in the bucket of its floor, because the floor division in `encode_state` already rounds it down. A NaN price is not covered: `int(...)` of a NaN state raises `ValueError` at final.py:57, 82 and 84.
- The commented-out code (the alternative state formula, the alternative rewards, the bounds check before the update).

## Findings

| source | as written | input that shows it | evidently intended | confidence | as-written member | corrected member |
|---|---|---|---|---|---|---|
| final.py:33 | `s // (MAX_PRICE - MIN_PRICE) // PRICE_INCREMENT`, which is `s // 29000` | state 290 (day 1, price 100) decodes to day 0; a day-1 state then waits back into itself | `s // NUM_PRICE_PTS`, which is `s // 290`, the inverse of the day-major encoding | high; not executed | Codec.DecodeLosesDayOne | Codec.IntendedRoundTrip |
