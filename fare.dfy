/**
 * The tiered fare of a trip, as a function of its total distance in km.
 * Every step is linear: 2 up to 4 km, then 1 per 4 km up to 12 km, 1 per
 * 6 km up to 24 km, 1 per 8 km up to 40 km, 1 per 10 km up to 50 km and
 * 1 per 20 km beyond.
 */
module Fare {

  /**
   * The fare as the source computes it. Its last bracket starts from 10,
   * although the bracket before it ends at 9 (see FareJumpsAtFifty).
   */
  function CalculateFare(distance: real): (total: real)
    ensures total >= 2.0
    ensures distance <= 4.0 ==> total == 2.0
    ensures distance > 4.0 ==> total > 2.0
  {
    if distance <= 4.0 then 2.0
    else if distance > 4.0 && distance <= 12.0 then 2.0 + (distance - 4.0) * 0.25
    else if distance > 12.0 && distance <= 24.0 then 4.0 + (distance - 12.0) * 1.0 / 6.0
    else if distance > 24.0 && distance <= 40.0 then 6.0 + (distance - 24.0) * 0.125
    else if distance > 40.0 && distance <= 50.0 then 8.0 + (distance - 40.0) * 0.1
    else if distance > 50.0 then 10.0 + (distance - 50.0) * 0.05
    else 0.0
  }

  /** The fare at each bracket boundary; 50 km costs 9, not 10. */
  lemma FareAtBoundaries()
    ensures CalculateFare(4.0) == 2.0
    ensures CalculateFare(12.0) == 4.0
    ensures CalculateFare(24.0) == 6.0
    ensures CalculateFare(40.0) == 8.0
    ensures CalculateFare(50.0) == 9.0
  {
  }

  /** The fare never falls as the distance grows. */
  lemma FareMonotone(a: real, b: real)
    requires a <= b
    ensures CalculateFare(a) <= CalculateFare(b)
  {
  }

  /**
   * Up to 50 km the fare grows by at most a quarter of the extra distance,
   * so it has no jump at the boundaries 4, 12, 24 and 40.
   */
  lemma FareContinuousUpToFifty(a: real, b: real)
    requires a <= b <= 50.0
    ensures CalculateFare(b) - CalculateFare(a) <= (b - a) * 0.25
  {
  }

  /** Half a kilometre past 50 km the fare rises by more than 1: the last bracket jumps. */
  lemma FareJumpsAtFifty()
    ensures CalculateFare(50.0) == 9.0
    ensures CalculateFare(50.5) == 10.025
    ensures CalculateFare(50.5) - CalculateFare(50.0) > (50.5 - 50.0) * 0.25
  {
  }

  /** The fare with the last bracket starting from the 9 the bracket before it reaches. */
  function IntendedFare(distance: real): (total: real)
    ensures total >= 2.0
    ensures distance <= 50.0 ==> total == CalculateFare(distance)
    ensures distance > 50.0 ==> total == CalculateFare(distance) - 1.0
  {
    if distance <= 4.0 then 2.0
    else if distance <= 12.0 then 2.0 + (distance - 4.0) * 0.25
    else if distance <= 24.0 then 4.0 + (distance - 12.0) * 1.0 / 6.0
    else if distance <= 40.0 then 6.0 + (distance - 24.0) * 0.125
    else if distance <= 50.0 then 8.0 + (distance - 40.0) * 0.1
    else 9.0 + (distance - 50.0) * 0.05
  }

  /** The intended fare is non-decreasing and continuous everywhere. */
  lemma IntendedFareMonotoneAndContinuous(a: real, b: real)
    requires a <= b
    ensures IntendedFare(a) <= IntendedFare(b)
    ensures IntendedFare(b) - IntendedFare(a) <= (b - a) * 0.25
  {
  }

  /** The step each bracket of the intended fare charges per extra km. */
  lemma IntendedFareSlopes(a: real, b: real)
    requires a <= b
    ensures 4.0 <= a && b <= 12.0 ==> IntendedFare(b) - IntendedFare(a) == (b - a) * 0.25
    ensures 12.0 <= a && b <= 24.0 ==> IntendedFare(b) - IntendedFare(a) == (b - a) / 6.0
    ensures 24.0 <= a && b <= 40.0 ==> IntendedFare(b) - IntendedFare(a) == (b - a) * 0.125
    ensures 40.0 <= a && b <= 50.0 ==> IntendedFare(b) - IntendedFare(a) == (b - a) * 0.1
    ensures 50.0 <= a ==> IntendedFare(b) - IntendedFare(a) == (b - a) * 0.05
  {
  }
}
