/** Policy extraction after training: the greedy action of every non-absorbing state,
    decoded into (day, price, label) rows in ascending state order. */
module Policy {
  import opened Ticket
  import opened Codec
  import opened QTable

  /** One row of the extracted policy. */
  datatype PolicyRow = PolicyRow(day: int, price: int, action: string)

  /** "B" for action 0 (buy), "W" for any other. */
  function Label(a: Action): (l: string)
    ensures l == "B" <==> a.Index() == 0
    ensures l == "W" <==> a.Index() != 0
  {
    if a == Buy then "B" else "W"
  }

  /** The greedy action of every non-absorbing state, in ascending state order: Buy unless
      waiting is worth strictly more. */
  function GreedyPolicy(q: seq<Row>): (p: seq<Action>)
    requires |q| == NumStates
    ensures |p| == AbsorbingState
    ensures forall s :: 0 <= s < |p| ==> (p[s] == Buy <==> q[s].Get(Buy) >= q[s].Get(Wait))
  {
    seq(NumStates - 1, s requires 0 <= s < NumStates - 1 => Greedy(q[s]))
  }

  /** The decoding loop: row `s` carries the decoded day and price of state `s` and the
      label of its greedy action, so a state is labelled "B" exactly when buying is worth
      at least as much as waiting. Every decoded day is 0, 1 or 2. */
  method DecodePolicy(q: seq<Row>) returns (rows: seq<PolicyRow>)
    requires |q| == NumStates
    ensures |rows| == AbsorbingState
    ensures forall s :: 0 <= s < |rows| ==> Decode(s) == NonTerminal(rows[s].day, rows[s].price)
    ensures forall s :: 0 <= s < |rows| ==>
              (rows[s].action == "B" <==> q[s].Get(Buy) >= q[s].Get(Wait))
              && (rows[s].action == "W" <==> q[s].Get(Buy) < q[s].Get(Wait))
    ensures forall s :: 0 <= s < |rows| ==> 0 <= rows[s].day <= 2
  {
    var policy := GreedyPolicy(q);
    rows := [];
    var s := 0;
    while s < NumStates - 1
      invariant 0 <= s <= NumStates - 1
      invariant |rows| == s
      invariant forall t :: 0 <= t < s ==> Decode(t) == NonTerminal(rows[t].day, rows[t].price)
      invariant forall t :: 0 <= t < s ==> rows[t].action == Label(policy[t])
    {
      var decoded := Decode(s);
      rows := rows + [PolicyRow(decoded.day, decoded.price, Label(policy[s]))];
      s := s + 1;
    }
  }
}
