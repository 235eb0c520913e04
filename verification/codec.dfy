/** The state codec: a (day, price) pair to a dense state index and back. Both directions
    are modelled exactly as the program parses them, surprises included. */
module Codec {
  import opened Ticket

  /** What decoding a state index yields: a (day, price) pair, or the absorbing marker
      (the program returns the string "Absorbing state" there). */
  datatype Decoded = NonTerminal(day: int, price: int) | Absorbing

  /** Index of the price bucket `p` falls in (floor division, as in the program). */
  function Bucket(p: int): int {
    (p - MinPrice) / PriceIncrement
  }

  /** The lower bound of the bucket `p` falls in. */
  function BucketFloor(p: int): int {
    MinPrice + PriceIncrement * Bucket(p)
  }

  /** A day before the deadline and a price inside the grid. */
  predicate InGrid(d: int, p: int) {
    0 <= d < NumDays && MinPrice <= p < MaxPrice
  }

  /** `encode_state`: day-major, price-bucket-minor index; any day at or past the
      deadline maps to the absorbing state whatever the price. */
  function Encode(d: int, p: int): (s: int)
    ensures d < NumDays ==> s == d * NumPricePts + Bucket(p)
    ensures d >= NumDays ==> s == AbsorbingState
    ensures InGrid(d, p) ==> 0 <= s < AbsorbingState
  {
    if d < NumDays then
      d * (MaxPrice - MinPrice) / PriceIncrement + (p - MinPrice) / PriceIncrement
    else
      NumStates - 1
  }

  /** Floor division by 2900 and then by 10 is floor division by 29000. */
  lemma NestedDivision(s: int)
    ensures s / (MaxPrice - MinPrice) / PriceIncrement == s / 29000
  {
    var q1, r1 := s / 2900, s % 2900;
    var q2, r2 := q1 / 10, q1 % 10;
    assert s == 29000 * q2 + (2900 * r2 + r1);
    assert 0 <= 2900 * r2 + r1 < 29000;
  }

  /** `decode_state` as written. The day is `s // 2900 // 10`, that is `s // 29000`, so it
      never exceeds 2 below the absorbing index; the price is the bucket's lower bound. */
  function Decode(s: int): (r: Decoded)
    ensures r.Absorbing? <==> s >= AbsorbingState
    ensures r.NonTerminal? ==> r.day == s / 29000 && r.day <= 2
    ensures r.NonTerminal? && 0 <= s ==> 0 <= r.day
    ensures r.NonTerminal? ==> r.price == MinPrice + PriceIncrement * (s % NumPricePts)
    ensures r.NonTerminal? ==> MinPrice <= r.price < MaxPrice && BucketFloor(r.price) == r.price
  {
    if s < NumStates - 1 then
      NonTerminal(s / (MaxPrice - MinPrice) / PriceIncrement,
                  (s % ((MaxPrice - MinPrice) / PriceIncrement)) * PriceIncrement + MinPrice)
    else
      Absorbing
  }

  /** The decoder the layout of `Encode` calls for: day `s // 290`, bucket `s % 290`. */
  function DecodeIntended(s: int): (r: Decoded)
    ensures r.Absorbing? <==> s >= AbsorbingState
    ensures r.NonTerminal? && 0 <= s ==> 0 <= r.day < NumDays
    ensures r.NonTerminal? ==> MinPrice <= r.price < MaxPrice && BucketFloor(r.price) == r.price
  {
    if s < NumStates - 1 then
      NonTerminal(s / NumPricePts, (s % NumPricePts) * PriceIncrement + MinPrice)
    else
      Absorbing
  }

  /** Distinct (day, price-bucket) pairs of the grid get distinct states, and equal
      pairs the same state. */
  lemma EncodeInjective(d1: int, p1: int, d2: int, p2: int)
    requires InGrid(d1, p1) && InGrid(d2, p2)
    ensures Encode(d1, p1) == Encode(d2, p2) <==> d1 == d2 && Bucket(p1) == Bucket(p2)
  {
    if Encode(d1, p1) == Encode(d2, p2) {
      var s := Encode(d1, p1);
      assert s / NumPricePts == d1 && s % NumPricePts == Bucket(p1);
      assert s / NumPricePts == d2 && s % NumPricePts == Bucket(p2);
    }
  }

  /** Decoding an encoded grid point gives back the bucket's lower bound as the price,
      but day `d // 100` as the day. */
  lemma RoundTripAsWritten(d: int, p: int)
    requires InGrid(d, p)
    ensures Decode(Encode(d, p)) == NonTerminal(d / 100, BucketFloor(p))
  {
    var s := Encode(d, p);
    assert s / NumPricePts == d && s % NumPricePts == Bucket(p);
    assert s / 29000 == d / 100 by {
      NestedDivisionBy290(s);
    }
  }

  /** Floor division by 29000 is floor division by 290 and then by 100. */
  lemma NestedDivisionBy290(s: int)
    ensures s / 29000 == s / NumPricePts / 100
  {
    var q1, r1 := s / 290, s % 290;
    var q2, r2 := q1 / 100, q1 % 100;
    assert s == 29000 * q2 + (290 * r2 + r1);
    assert 0 <= 290 * r2 + r1 < 29000;
  }

  /** The day survives the round trip only on day 0. */
  lemma DayRoundTripsOnlyOnDayZero(d: int, p: int)
    requires InGrid(d, p)
    ensures Decode(Encode(d, p)).day == d <==> d == 0
  {
  }

  /** A concrete witness: day 1 at price 100 is state 290, which decodes to day 0. */
  lemma DecodeLosesDayOne()
    ensures Encode(1, 100) == 290
    ensures Decode(290) == NonTerminal(0, 100)
    ensures DecodeIntended(290) == NonTerminal(1, 100)
  {
  }

  /** With the intended decoder, decode after encode returns the day and the bucket's lower
      bound, and encode after decode returns the state: the codec is a bijection between
      the grid's buckets and `[0, AbsorbingState)`. */
  lemma IntendedRoundTrip(d: int, p: int, s: int)
    requires InGrid(d, p)
    requires 0 <= s < AbsorbingState
    ensures DecodeIntended(Encode(d, p)) == NonTerminal(d, BucketFloor(p))
    ensures DecodeIntended(s).NonTerminal?
    ensures Encode(DecodeIntended(s).day, DecodeIntended(s).price) == s
  {
    var e := Encode(d, p);
    assert e / NumPricePts == d && e % NumPricePts == Bucket(p);
    var r := DecodeIntended(s);
    assert Bucket(r.price) == s % NumPricePts;
    assert r.day * NumPricePts + s % NumPricePts == s;
  }

  /** Any day at or past the deadline encodes to a state that decodes to the absorbing marker. */
  lemma AbsorbingRoundTrip(d: int, p: int)
    requires d >= NumDays
    ensures Decode(Encode(d, p)) == Absorbing
  {
  }
}
