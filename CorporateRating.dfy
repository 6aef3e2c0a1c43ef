/** CorporateRating: ten tiers in increasing order, platelayer (0) to
    tycoon (9). The band of performance each tier covers is stated only in
    the comments beside the enumeration (10%-wide bands, the last one
    closed at 100%); the mapping below is taken from those comments, with
    the performance index counted in tenths of a percent (the comments'
    bands end at 9.9%, 19.9%, ...). */
module Rating {
  import opened Ints

  datatype CorporateRating =
    | Platelayer
    | Engineer
    | TrafficManager
    | TransportCoordinator
    | RouteSupervisor
    | Director
    | ChiefExecutive
    | Chairman
    | President
    | Tycoon

  /** The uint8_t value of the enumerator. */
  function Ordinal(r: CorporateRating): (n: nat)
    ensures n < 10
    ensures n == 0 <==> r == Platelayer
    ensures n == 9 <==> r == Tycoon
  {
    match r
    case Platelayer => 0
    case Engineer => 1
    case TrafficManager => 2
    case TransportCoordinator => 3
    case RouteSupervisor => 4
    case Director => 5
    case ChiefExecutive => 6
    case Chairman => 7
    case President => 8
    case Tycoon => 9
  }

  /** static_cast<CorporateRating>(n). */
  function FromOrdinal(n: nat): (r: CorporateRating)
    requires n < 10
    ensures Ordinal(r) == n
  {
    match n
    case 0 => Platelayer
    case 1 => Engineer
    case 2 => TrafficManager
    case 3 => TransportCoordinator
    case 4 => RouteSupervisor
    case 5 => Director
    case 6 => ChiefExecutive
    case 7 => Chairman
    case 8 => President
    case _ => Tycoon
  }

  /** Ordinals name the tiers one to one. */
  lemma OrdinalRoundTrip(r: CorporateRating)
    ensures FromOrdinal(Ordinal(r)) == r
  {
  }

  /** The tier order: by enumerator value. */
  predicate AtMost(a: CorporateRating, b: CorporateRating) {
    Ordinal(a) <= Ordinal(b)
  }

  /** The order is a total order with platelayer least and tycoon greatest. */
  lemma TotalOrder(a: CorporateRating, b: CorporateRating, c: CorporateRating)
    ensures AtMost(a, a)
    ensures AtMost(a, b) && AtMost(b, a) ==> a == b
    ensures AtMost(a, b) && AtMost(b, c) ==> AtMost(a, c)
    ensures AtMost(a, b) || AtMost(b, a)
    ensures AtMost(Platelayer, a) && AtMost(a, Tycoon)
  {
    OrdinalRoundTrip(a);
    OrdinalRoundTrip(b);
  }

  /** Width of one band, in tenths of a percent. */
  const BAND: nat := 100

  /** performanceToRating as the comments give it: tier n covers
      [10n%, 10n% + 9.9%]; tycoon covers 90% to 100% and, like platelayer
      below 0, everything beyond. */
  function PerformanceToRating(performanceIndex: Int16): (r: CorporateRating)
    ensures 0 <= performanceIndex ==>
      Ordinal(r) * BAND <= performanceIndex
    ensures performanceIndex < 9 * BAND ==>
      performanceIndex < Ordinal(r) * BAND + BAND
    ensures performanceIndex < BAND <==> r == Platelayer
    ensures performanceIndex >= 9 * BAND <==> r == Tycoon
  {
    if performanceIndex < 0 then Platelayer
    else if performanceIndex >= 9 * BAND then Tycoon
    else FromOrdinal(performanceIndex / BAND)
  }

  /** A higher performance index never gives a lower tier. */
  lemma RatingMonotonic(p: Int16, q: Int16)
    requires p <= q
    ensures AtMost(PerformanceToRating(p), PerformanceToRating(q))
  {
  }

  /** At each boundary 10n% the tier goes up by exactly one. */
  lemma RatingSteps(n: nat)
    requires 1 <= n <= 9
    ensures Ordinal(PerformanceToRating((n * BAND - 1) as Int16)) + 1
         == Ordinal(PerformanceToRating((n * BAND) as Int16))
  {
  }
}
