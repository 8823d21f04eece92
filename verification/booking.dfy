/** The booking handler's fare computation: look up the chosen bus, price each
    passenger by age, sum the unrounded fares, and take 10% off the sum for a
    group of more than four. */
module Booking {
  import opened Fares
  import opened Routes

  /** A passenger as the booking request lists them. */
  datatype Passenger = Passenger(name: string, age: int)

  /** One line of the fare breakdown: the passenger as given, and their fare. */
  datatype PassengerDetail = PassengerDetail(name: string, age: int, fare: real)

  /** What a successful booking reports about its money. */
  datatype BookingSummary = BookingSummary(
    baseFare: real,
    totalPassengers: nat,
    details: seq<PassengerDetail>,
    discount: real,
    totalFare: real)

  /** A booking either names no bus of the dataset or is priced. */
  datatype BookingOutcome = BusNotFound | Booked(summary: BookingSummary)

  /** The group discount needs strictly more passengers than this. */
  const GroupThreshold: nat := 4

  /** One line of the breakdown: the passenger's name and age as given, and
      their fare, which at a non-negative base fare is at most that fare. */
  function Detail(p: Passenger, baseFare: real): (d: PassengerDetail)
    ensures d.name == p.name && d.age == p.age
    ensures 0.0 <= baseFare ==> 0.0 <= d.fare <= baseFare
  {
    PassengerDetail(p.name, p.age, CalculateFare(p.age, baseFare))
  }

  /** The fare breakdown, one line per passenger, appended in request order. */
  function Details(ps: seq<Passenger>, baseFare: real): (ds: seq<PassengerDetail>)
    ensures |ds| == |ps|
    ensures forall i :: 0 <= i < |ps| ==>
      ds[i].name == ps[i].name && ds[i].age == ps[i].age && ds[i].fare == CalculateFare(ps[i].age, baseFare)
  {
    if |ps| == 0 then []
    else Details(ps[..|ps| - 1], baseFare) + [Detail(ps[|ps| - 1], baseFare)]
  }

  /** No fare of the breakdown is negative. */
  ghost predicate NoNegativeFare(ds: seq<PassengerDetail>)
  {
    forall i :: 0 <= i < |ds| ==> 0.0 <= ds[i].fare
  }

  /** The sum of the breakdown's fares, added up in order. The sum of
      non-negative fares is non-negative. */
  function SumFares(ds: seq<PassengerDetail>): (total: real)
    ensures NoNegativeFare(ds) ==> 0.0 <= total
  {
    if |ds| == 0 then 0.0
    else
      assert NoNegativeFare(ds) ==> NoNegativeFare(ds[..|ds| - 1]);
      SumFares(ds[..|ds| - 1]) + ds[|ds| - 1].fare
  }

  /** Extending a prefix of the breakdown by one line adds that line's fare. */
  lemma SumFaresPrefix(ds: seq<PassengerDetail>, k: nat)
    requires k < |ds|
    ensures SumFares(ds[..k + 1]) == SumFares(ds[..k]) + ds[k].fare
  {
    assert ds[..k + 1][..k] == ds[..k];
  }

  /** Putting one line in front of a breakdown adds that line's fare to its
      sum, whichever end the sum is added up from. */
  lemma SumFaresCons(d: PassengerDetail, ds: seq<PassengerDetail>)
    ensures SumFares([d] + ds) == d.fare + SumFares(ds)
  {
    SumFaresAppend([d], ds);
    assert [d][..0] == [];
  }

  /** Every fare of the breakdown lies between 0 and `cap`. */
  ghost predicate FaresWithin(ds: seq<PassengerDetail>, cap: real)
  {
    forall i :: 0 <= i < |ds| ==> 0.0 <= ds[i].fare <= cap
  }

  /** What `n` passengers pay at the full base fare, added up one by one. */
  function FullFares(n: nat, baseFare: real): real
  {
    if n == 0 then 0.0 else FullFares(n - 1, baseFare) + baseFare
  }

  /** Adding the base fare up `n` times is `n` times the base fare. */
  lemma {:induction false} FullFaresIsProduct(n: nat, baseFare: real)
    ensures FullFares(n, baseFare) == (n as real) * baseFare
  {
    if n > 0 {
      FullFaresIsProduct(n - 1, baseFare);
    }
  }

  /** When every fare lies between 0 and `cap`, their sum lies between 0 and
      what as many passengers pay at the fare `cap`. */
  lemma {:induction false} SumFaresBounds(ds: seq<PassengerDetail>, cap: real)
    requires FaresWithin(ds, cap)
    ensures 0.0 <= SumFares(ds) <= FullFares(|ds|, cap)
  {
    if |ds| > 0 {
      var init := ds[..|ds| - 1];
      assert FaresWithin(init, cap) by {
        forall i | 0 <= i < |init|
          ensures 0.0 <= init[i].fare <= cap
        {
          assert init[i] == ds[i];
        }
      }
      SumFaresBounds(init, cap);
    }
  }

  /** The sum of a breakdown read in two parts is the sum of the parts' sums. */
  lemma {:induction false} SumFaresAppend(a: seq<PassengerDetail>, b: seq<PassengerDetail>)
    ensures SumFares(a + b) == SumFares(a) + SumFares(b)
  {
    if |b| == 0 {
      assert a + b == a;
    } else {
      var b' := b[..|b| - 1];
      assert (a + b)[..|a + b| - 1] == a + b';
      SumFaresAppend(a, b');
    }
  }

  /** The group discount on `sum` for a booking of `count` passengers. */
  function GroupDiscount(count: nat, sum: real): (d: real)
    ensures count <= GroupThreshold ==> sum - d == sum
    ensures count > GroupThreshold ==> sum - d == sum * 0.9
    ensures 0.0 <= sum ==> 0.0 <= d <= sum
  {
    if count > GroupThreshold then sum * 0.1 else 0.0
  }

  /** The priced booking, as a function of the base fare and the passengers. */
  function Summarize(baseFare: real, passengers: seq<Passenger>): (s: BookingSummary)
    ensures s.baseFare == baseFare && s.totalPassengers == |passengers|
    ensures |s.details| == |passengers|
    ensures forall i :: 0 <= i < |passengers| ==>
      s.details[i].name == passengers[i].name && s.details[i].age == passengers[i].age
      && s.details[i].fare == CalculateFare(passengers[i].age, baseFare)
    ensures |passengers| == 0 ==> s.discount == 0.0 && s.totalFare == 0.0
    ensures |passengers| <= GroupThreshold ==> s.discount == 0.0 && s.totalFare == SumFares(s.details)
    ensures |passengers| > GroupThreshold ==>
      && s.discount == SumFares(s.details) * 0.1
      && s.totalFare == SumFares(s.details) * 0.9
    ensures 0.0 <= baseFare ==> 0.0 <= s.discount && 0.0 <= s.totalFare <= SumFares(s.details)
  {
    var ds := Details(passengers, baseFare);
    var sum := SumFares(ds);
    var discount := GroupDiscount(|passengers|, sum);
    var summary := BookingSummary(baseFare, |passengers|, ds, discount, sum - discount);
    if 0.0 <= baseFare then
      assert NoNegativeFare(ds);
      summary
    else
      summary
  }

  /** At a non-negative base fare every line of the breakdown costs between
      0 and the base fare. */
  lemma DetailsWithinBase(passengers: seq<Passenger>, baseFare: real)
    requires 0.0 <= baseFare
    ensures FaresWithin(Details(passengers, baseFare), baseFare)
  {
  }

  /** At a non-negative base fare the undiscounted sum is at most what every
      passenger would pay at the full base fare. */
  lemma SummaryAtMostFullFares(baseFare: real, passengers: seq<Passenger>)
    requires 0.0 <= baseFare
    ensures SumFares(Summarize(baseFare, passengers).details) <= FullFares(|passengers|, baseFare)
  {
  }

  /** The booking computation as the handler runs it: one pass over the
      passengers that appends each one's line and adds their unrounded fare
      to a running total, then the group discount. */
  method ComputeBooking(baseFare: real, passengers: seq<Passenger>) returns (s: BookingSummary)
    ensures s == Summarize(baseFare, passengers)
  {
    var details: seq<PassengerDetail> := [];
    var total := 0.0;
    for i := 0 to |passengers|
      invariant details == Details(passengers[..i], baseFare)
      invariant total == SumFares(details)
    {
      var line := Detail(passengers[i], baseFare);
      assert passengers[..i + 1][..i] == passengers[..i];
      assert (details + [line])[..|details|] == details;
      total := total + line.fare;
      details := details + [line];
    }
    assert passengers[..|passengers|] == passengers;
    var discount := 0.0;
    if |passengers| > GroupThreshold {
      discount := total * 0.1;
      total := total - discount;
    }
    assert discount == GroupDiscount(|passengers|, SumFares(details));
    s := BookingSummary(baseFare, |passengers|, details, discount, total);
  }

  /** A whole booking request: find the bus by route number, origin and
      destination, and price the passengers at its fare. */
  function SubmitBooking(
    data: seq<RouteRecord>,
    routeNo: Option<string>, from: Option<string>, to: Option<string>,
    passengers: seq<Passenger>): (r: BookingOutcome)
    ensures r.BusNotFound? <==> forall i :: 0 <= i < |data| ==> !MatchesBooking(data[i], routeNo, from, to)
    ensures r.Booked? ==> exists i ::
      && IsFirstMatch(data, row => MatchesBooking(row, routeNo, from, to), i)
      && r.summary == Summarize(data[i].fare, passengers)
  {
    match FindBus(data, routeNo, from, to)
    case None => BusNotFound
    case Some(bus) => Booked(Summarize(bus.fare, passengers))
  }

  /** When every fare in the dataset is non-negative, a priced booking has a
      non-negative discount and a total between 0 and the undiscounted sum. */
  lemma BookingTotalsInRange(
    data: seq<RouteRecord>,
    routeNo: Option<string>, from: Option<string>, to: Option<string>,
    passengers: seq<Passenger>)
    requires forall i :: 0 <= i < |data| ==> 0.0 <= data[i].fare
    requires SubmitBooking(data, routeNo, from, to, passengers).Booked?
    ensures var s := SubmitBooking(data, routeNo, from, to, passengers).summary;
      0.0 <= s.discount && 0.0 <= s.totalFare <= SumFares(s.details)
  {
  }

  /** Five passengers aged 3, 10, 30, 65 and 40 at a base fare of 100 pay
      0, 50, 100, 75 and 100; the sum 325 earns a discount of 32.5, leaving
      292.5. */
  lemma GroupBookingExample()
    ensures var s := Summarize(100.0, [Passenger("A", 3), Passenger("B", 10), Passenger("C", 30),
                                       Passenger("D", 65), Passenger("E", 40)]);
      s.discount == 32.5 && s.totalFare == 292.5
  {
    var ps := [Passenger("A", 3), Passenger("B", 10), Passenger("C", 30), Passenger("D", 65), Passenger("E", 40)];
    var ds := Details(ps, 100.0);
    SumFaresPrefix(ds, 0);
    SumFaresPrefix(ds, 1);
    SumFaresPrefix(ds, 2);
    SumFaresPrefix(ds, 3);
    SumFaresPrefix(ds, 4);
    assert ds[..5] == ds;
    assert SumFares(ds) == 325.0;
  }

  /** Two adults at a base fare of 200 pay 400 with no discount. */
  lemma SmallBookingExample()
    ensures var s := Summarize(200.0, [Passenger("A", 25), Passenger("B", 30)]);
      s.discount == 0.0 && s.totalFare == 400.0
  {
    var ds := Details([Passenger("A", 25), Passenger("B", 30)], 200.0);
    SumFaresPrefix(ds, 0);
    SumFaresPrefix(ds, 1);
    assert ds[..2] == ds;
  }
}
