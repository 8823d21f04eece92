# Bus search and booking fares, modelled in Dafny

The system is a small web backend for searching bus routes and booking
tickets, built over a flat dataset of routes. This project models its logic
as pure Dafny functions over immutable datatypes:

- **Fare rule** (`fares.dfy`, module `Fares`). A passenger's age picks one of
  four bands, tested in order with the first match winning. Under 5 travels
  free, under 12 pays half, 60 and over pays three quarters, and everyone
  else pays the full base fare. Money is exact `real` arithmetic.
- **Route catalogue** (`routes.dfy`, module `Routes`). The dataset is a
  `seq<RouteRecord>`, one record per row with the columns `Route No.`,
  `From`, `To`, `Type` and `Fare`. The bus search keeps the rows whose
  origin, destination and type equal the request's, in dataset order. It
  reports "no buses" when there are none. The booking lookup keeps the rows
  whose route number, origin and destination equal the request's and takes
  the first of them. It reports "bus not found" when there is none. Both
  filters are one order-preserving `Filter`. Its results are proved sound,
  complete, in dataset order and with the dataset's multiplicities.
- **Booking computation** (`booking.dfy`, module `Booking`). Each passenger
  gets one line of the fare breakdown, in request order, keeping name and
  age. Their unrounded fares are summed. A 10% group discount comes off the
  sum only when there are strictly more than 4 passengers. `Summarize` is the
  functional definition. `ComputeBooking` is the single loop the handler
  runs, proved equal to it. `SubmitBooking` puts the lookup and the pricing
  together.

A request field can be missing from the request. The handler then compares a
column with `None`, which matches no row. The model therefore takes request
fields as `Option<string>`, and `None` matches nothing.

In the code the first test is `age < 5`, so a negative age travels
free. `Fares.BandOf` and `Fares.CalculateFare` state this.

## Model

| member | source | states |
|---|---|---|
| `Fares.BandOf` | app.py:89-96 | The first-match chain of age tests gives four disjoint age ranges covering every integer: under 5 is free (negative ages included), 5 to 11 is child, 60 and over is senior, 12 to 59 is adult. |
| `Fares.Multiplier` | app.py:90-96 | Each band pays a share of the base fare between 0 and 1. Only the free band pays nothing and only the adult band pays in full. |
| `Fares.CalculateFare` | app.py:87-96 | An age under 5 pays 0 whatever the base fare. Ages 5 to 11 pay exactly half, 60 and over exactly 0.75, and 12 to 59 exactly the base fare. For a non-negative base fare every fare lies between 0 and the base fare. |
| `Fares.FareIsBandShare` | app.py:87-96 | Every fare equals the base fare times the multiplier of the passenger's band, so the if-chain agrees with the band table. |
| `Fares.BandBoundaries` | app.py:89-96 | At the band edges, age 4 is free, 5 and 11 pay half, 12 and 59 pay in full, and 60 pays 0.75. |
| `Fares.FareMonotoneInBase` | app.py:87-96 | A higher base fare never lowers a passenger's fare. |
| `Routes.FieldIs` | app.py:25-29 | A missing request field matches no column value. A present field matches a column exactly when the two strings are equal. |
| `Routes.MatchesSearch` | app.py:25-29 | A row matches a search exactly when origin, destination and type all equal the request's. A request missing any of the three fields matches no row. |
| `Routes.MatchesBooking` | app.py:71-75 | A row matches a booking lookup exactly when route number, origin and destination all equal the request's. A request missing any of the three fields matches no row. |
| `Routes.Filter` | app.py:25-29 | The filtered rows are no more than the dataset's. Every kept row satisfies the condition and comes from the dataset. Every dataset row that satisfies the condition is kept. |
| `Routes.FilterPreservesOrder` | app.py:25-29 | The filter's result is the dataset read at strictly increasing positions, and those positions are exactly the ones whose row matches. |
| `Routes.FilterCounts` | app.py:25-29 | Each matching row appears in the result as often as in the dataset, and a non-matching row never appears. |
| `Routes.FilterAppend` | app.py:25-29 | Filtering a dataset in two parts and joining the results gives the filter of the whole dataset. |
| `Routes.FilterHeadIsFirstMatch` | app.py:71-83 | When the filter keeps anything, its first row is the first matching row of the dataset. |
| `Routes.SearchBuses` | app.py:25-45 | The search reports "no buses" exactly when no row has the requested origin, destination and type. Otherwise it reports a non-empty list of matching dataset rows that contains every matching row. |
| `Routes.SearchBusesInDatasetOrder` | app.py:25-33 | The reported buses are the dataset read at strictly increasing positions, and those positions are exactly the rows with the requested origin, destination and type. |
| `Routes.SearchBusesCounts` | app.py:25-33 | Each matching row appears among the reported buses as often as the dataset lists it, and no other row appears. |
| `Routes.FindBus` | app.py:71-83 | The booking lookup finds nothing exactly when no row has the requested route number, origin and destination. Otherwise it returns a matching dataset row, and that row is the first matching row. |
| `Booking.Detail` | app.py:105-109 | A breakdown line keeps the passenger's name and age. At a non-negative base fare its fare lies between 0 and the base fare. |
| `Booking.Details` | app.py:99-109 | The breakdown has one line per passenger in input order. Line i keeps passenger i's name and age and carries that passenger's fare. |
| `Booking.SumFares` | app.py:100-104 | The running total of fares that are all non-negative is non-negative. |
| `Booking.SumFaresCons` | app.py:100-104 | Putting one line in front of a breakdown adds exactly that line's fare to the sum, so the total does not depend on which end it is added up from. |
| `Booking.SumFaresAppend` | app.py:100-104 | The sum of a breakdown split in two parts is the sum of the parts' sums. |
| `Booking.FullFaresIsProduct` | app.py:100-104 | Adding the base fare once per passenger gives the passenger count times the base fare. |
| `Booking.SumFaresBounds` | app.py:100-104 | When every fare lies between 0 and a cap, the sum lies between 0 and what as many passengers pay at the cap. |
| `Booking.GroupDiscount` | app.py:111-115 | With 4 or fewer passengers the discount leaves the sum unchanged. With more than 4 it leaves 0.9 of the sum. For a non-negative sum the discount lies between 0 and the sum. |
| `Booking.Summarize` | app.py:99-115 | The booking keeps the base fare and the passenger count. Its breakdown matches the passengers one for one with the age-band fare. An empty booking has total and discount 0. Up to 4 passengers get no discount and pay the sum. More than 4 get a discount of 0.1 of the sum and pay 0.9 of it. At a non-negative base fare, discount and total are non-negative and the total is at most the sum. |
| `Booking.DetailsWithinBase` | app.py:87-109 | At a non-negative base fare every line of the breakdown costs between 0 and the base fare. |
| `Booking.SummaryAtMostFullFares` | app.py:99-115 | At a non-negative base fare the undiscounted sum is at most what every passenger pays at the full base fare, which `Booking.FullFaresIsProduct` shows is the passenger count times the base fare. |
| `Booking.ComputeBooking` | app.py:99-115 | The single loop that appends each passenger's line and adds their unrounded fare, followed by the group discount, computes exactly `Summarize`. |
| `Booking.SubmitBooking` | app.py:71-115 | A booking is "bus not found" exactly when no row has the requested route number, origin and destination. Otherwise it is priced at the fare of the first such row. |
| `Booking.BookingTotalsInRange` | app.py:83-115 | When every dataset fare is non-negative, a priced booking's discount and total are non-negative and the total is at most the undiscounted sum. |
| `Booking.GroupBookingExample` | app.py:87-115 | Base fare 100 with ages 3, 10, 30, 65 and 40 gives discount 32.5 and total 292.5. |
| `Booking.SmallBookingExample` | app.py:87-115 | Base fare 200 with ages 25 and 30 gives no discount and total 400. |

## Left out

- HTTP routing, page rendering, CORS, JSON request parsing and response building, and status codes (app.py:1-19, 35-52, 58-65, 139-165): transport only. The model returns `SearchResult` and `BookingOutcome` values in their place.
- Reading `bus_data.csv` (app.py:22, 68): file I/O through pandas. The dataset is a `seq<RouteRecord>` parameter. Columns beyond the five a search reports, empty (NaN) cells and cells that pandas parses as numbers are not modelled: every column is a string except `Fare`, which is a `real`.
- `float(...)` and `round(x, 2)` (app.py:83, 108, 133, 135, 147, 150-151): IEEE floating point and Python rounding. Money is exact `real`. Breakdown lines, discount and total carry unrounded values, and rounding is treated as display formatting. The free band's integer `0` is the real `0.0`.
- Response messages ("Found N bus(es)", "No buses available from …", "Bus not found") and the echoed date, bus type and route fields: display text, no logic.
- Console printing and traceback output (app.py:119-136, 155-157): side effects only.
- Malformed passengers, such as a missing `age` or `name` key or an age that is not an integer (app.py:47-52, 154-161): passengers are well-typed records with integer ages. A missing `passengers` list defaults to empty in the handler and is the empty sequence here.
- Booking.BookingTotalsInRange: does not restate the upper bound of the passenger count times the base fare. That bound is stated on the summary itself by `Booking.SummaryAtMostFullFares`.
