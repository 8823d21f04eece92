/** The per-passenger fare rule of the booking handler: a passenger's age picks
    one of four bands, tested in order with the first match winning, and the
    band scales the route's base fare. Money is exact `real` arithmetic. */
module Fares {

  /** The four age bands, in the order the rule tests them. */
  datatype AgeBand = Free | Child | Senior | Adult

  /** The band an age falls into. The rule is an if-chain where the first
      test that holds wins; the contract states the same bands as four
      disjoint age ranges that together cover every integer. */
  function BandOf(age: int): (b: AgeBand)
    ensures b == Free <==> age < 5
    ensures b == Child <==> 5 <= age < 12
    ensures b == Senior <==> 60 <= age
    ensures b == Adult <==> 12 <= age < 60
  {
    if age < 5 then Free
    else if age < 12 then Child
    else if age >= 60 then Senior
    else Adult
  }

  /** The share of the base fare each band pays. */
  function Multiplier(b: AgeBand): (m: real)
    ensures 0.0 <= m <= 1.0
    ensures m == 0.0 <==> b == Free
    ensures m == 1.0 <==> b == Adult
  {
    match b
    case Free => 0.0
    case Child => 0.5
    case Senior => 0.75
    case Adult => 1.0
  }

  /** The fare one passenger of the given age pays on a route with the given
      base fare. Ages are not validated: a negative age is below 5 and so
      travels free. */
  function CalculateFare(age: int, baseFare: real): (fare: real)
    ensures age < 5 ==> fare == 0.0
    ensures 5 <= age < 12 ==> fare == baseFare * 0.5
    ensures 60 <= age ==> fare == baseFare * 0.75
    ensures 12 <= age < 60 ==> fare == baseFare
    ensures 0.0 <= baseFare ==> 0.0 <= fare <= baseFare
  {
    if age < 5 then 0.0
    else if age < 12 then baseFare * 0.5
    else if age >= 60 then baseFare * 0.75
    else baseFare
  }

  /** The if-chain agrees with the band table: every fare is the base fare
      scaled by the multiplier of the passenger's band. */
  lemma FareIsBandShare(age: int, baseFare: real)
    ensures CalculateFare(age, baseFare) == Multiplier(BandOf(age)) * baseFare
  {
  }

  /** The exact edges of the bands: 4 is free, 5 and 11 pay half, 12 and 59
      pay in full, 60 pays three quarters. */
  lemma BandBoundaries(baseFare: real)
    ensures CalculateFare(4, baseFare) == 0.0
    ensures CalculateFare(5, baseFare) == baseFare * 0.5
    ensures CalculateFare(11, baseFare) == baseFare * 0.5
    ensures CalculateFare(12, baseFare) == baseFare
    ensures CalculateFare(59, baseFare) == baseFare
    ensures CalculateFare(60, baseFare) == baseFare * 0.75
  {
  }

  /** A higher base fare never lowers anyone's fare. */
  lemma FareMonotoneInBase(age: int, lo: real, hi: real)
    requires lo <= hi
    ensures CalculateFare(age, lo) <= CalculateFare(age, hi)
  {
  }
}
