/** The route catalogue: the bus dataset as a sequence of rows, and the two
    conjunctive equality filters run over it, one by the bus search and one by
    the booking to find the chosen bus. */
module Routes {

  datatype Option<T> = None | Some(value: T)

  /** One row of the dataset: the columns `Route No.`, `From`, `To`, `Type`
      and `Fare`. */
  datatype RouteRecord = RouteRecord(
    routeNo: string,
    origin: string,
    destination: string,
    busType: string,
    fare: real)

  /** The rows of `xs` that satisfy `keep`, in the order they appear. */
  function Filter<T>(xs: seq<T>, keep: T -> bool): (r: seq<T>)
    ensures |r| <= |xs|
    ensures forall i :: 0 <= i < |r| ==> keep(r[i]) && r[i] in xs
    ensures forall i :: 0 <= i < |xs| && keep(xs[i]) ==> xs[i] in r
  {
    if |xs| == 0 then []
    else if keep(xs[0]) then [xs[0]] + Filter(xs[1..], keep)
    else Filter(xs[1..], keep)
  }

  /** `ys` is the elements of `xs` read at the positions `idx`. */
  ghost predicate ReadsAt<T>(ys: seq<T>, xs: seq<T>, idx: seq<int>)
  {
    && |idx| == |ys|
    && forall k :: 0 <= k < |idx| ==> 0 <= idx[k] < |xs| && xs[idx[k]] == ys[k]
  }

  /** The positions `idx` are strictly increasing. */
  ghost predicate Increasing(idx: seq<int>)
  {
    forall k, l :: 0 <= k < l < |idx| ==> idx[k] < idx[l]
  }

  /** The positions `idx` are exactly those of `xs` whose element satisfies `keep`. */
  ghost predicate MarksExactly<T>(xs: seq<T>, keep: T -> bool, idx: seq<int>)
  {
    forall j :: 0 <= j < |xs| ==> (keep(xs[j]) <==> j in idx)
  }

  /** `idx` lists, in strictly increasing order, exactly the positions of `xs`
      whose element satisfies `keep`, and `ys` is the elements at those
      positions. */
  ghost predicate SelectsInOrder<T>(ys: seq<T>, xs: seq<T>, keep: T -> bool, idx: seq<int>)
  {
    ReadsAt(ys, xs, idx) && Increasing(idx) && MarksExactly(xs, keep, idx)
  }

  /** Every position moved one place on. */
  function Shift(idx: seq<int>): (r: seq<int>)
    ensures |r| == |idx|
    ensures forall k :: 0 <= k < |r| ==> r[k] == idx[k] + 1
  {
    seq(|idx|, k requires 0 <= k < |idx| => idx[k] + 1)
  }

  /** Position `j` of the longer sequence is in the shifted selection exactly
      when position `j - 1` was in the original one. */
  lemma ShiftMembership(idx: seq<int>, j: int)
    ensures j in Shift(idx) <==> j - 1 in idx
  {
  }

  /** A selection from `xs` is still one from `xs` with a rejected `x` put in
      front, once every position is moved one place on. */
  lemma SelectsConsSkip<T>(x: T, xs: seq<T>, ys: seq<T>, keep: T -> bool, idx: seq<int>)
    requires SelectsInOrder(ys, xs, keep, idx)
    requires !keep(x)
    ensures SelectsInOrder(ys, [x] + xs, keep, Shift(idx))
  {
  }

  /** A selection from `xs` extends, with position 0 put in front, to one from
      `xs` with a kept `x` put in front. */
  lemma SelectsConsKeep<T>(x: T, xs: seq<T>, ys: seq<T>, keep: T -> bool, idx: seq<int>)
    requires SelectsInOrder(ys, xs, keep, idx)
    requires keep(x)
    ensures SelectsInOrder([x] + ys, [x] + xs, keep, [0] + Shift(idx))
  {
    var sh := Shift(idx);
    var xs' := [x] + xs;
    var ys' := [x] + ys;
    var idx' := [0] + sh;
    ConsReads(x, xs, ys, idx);
    ConsIncreasing(idx);
    forall j | 0 <= j < |xs'|
      ensures keep(xs'[j]) <==> j in idx'
    {
      ShiftMembership(idx, j);
      if j > 0 {
        assert xs'[j] == xs[j - 1];
        assert j in idx' <==> j in sh;
      }
    }
    assert MarksExactly(xs', keep, idx');
  }

  /** Reading `x` first and then `ys` from the shifted positions. */
  lemma ConsReads<T>(x: T, xs: seq<T>, ys: seq<T>, idx: seq<int>)
    requires ReadsAt(ys, xs, idx)
    ensures ReadsAt([x] + ys, [x] + xs, [0] + Shift(idx))
  {
  }

  /** Putting position 0 in front of shifted positions keeps them increasing. */
  lemma ConsIncreasing(idx: seq<int>)
    requires Increasing(idx)
    requires forall k :: 0 <= k < |idx| ==> 0 <= idx[k]
    ensures Increasing([0] + Shift(idx))
  {
    var idx' := [0] + Shift(idx);
    forall k, l | 0 <= k < l < |idx'|
      ensures idx'[k] < idx'[l]
    {
      assert idx'[l] == idx[l - 1] + 1;
      if k > 0 {
        assert idx'[k] == idx[k - 1] + 1;
      }
    }
  }

  /** The filter keeps the dataset's order: its result is the matching rows
      read at increasing positions, and every matching position is read. */
  lemma {:induction false} FilterPreservesOrder<T>(xs: seq<T>, keep: T -> bool)
    ensures exists idx :: SelectsInOrder(Filter(xs, keep), xs, keep, idx)
  {
    if |xs| == 0 {
      assert SelectsInOrder(Filter(xs, keep), xs, keep, []);
    } else {
      FilterPreservesOrder(xs[1..], keep);
      var idx :| SelectsInOrder(Filter(xs[1..], keep), xs[1..], keep, idx);
      assert [xs[0]] + xs[1..] == xs;
      if keep(xs[0]) {
        SelectsConsKeep(xs[0], xs[1..], Filter(xs[1..], keep), keep, idx);
        assert SelectsInOrder(Filter(xs, keep), xs, keep, [0] + Shift(idx));
      } else {
        SelectsConsSkip(xs[0], xs[1..], Filter(xs[1..], keep), keep, idx);
        assert SelectsInOrder(Filter(xs, keep), xs, keep, Shift(idx));
      }
    }
  }

  /** The filter keeps every matching row as many times as the dataset holds
      it, and no other row. */
  lemma {:induction false} FilterCounts<T>(xs: seq<T>, keep: T -> bool, x: T)
    ensures multiset(Filter(xs, keep))[x] == if keep(x) then multiset(xs)[x] else 0
  {
    if |xs| != 0 {
      FilterCounts(xs[1..], keep, x);
      assert xs == [xs[0]] + xs[1..];
    }
  }

  /** Filtering a dataset read in two parts is filtering each part. */
  lemma {:induction false} FilterAppend<T>(a: seq<T>, b: seq<T>, keep: T -> bool)
    ensures Filter(a + b, keep) == Filter(a, keep) + Filter(b, keep)
  {
    if |a| == 0 {
      assert a + b == b;
    } else {
      var ab := a + b;
      assert ab[0] == a[0];
      assert ab[1..] == a[1..] + b;
      FilterAppend(a[1..], b, keep);
      assert Filter(ab, keep) == (if keep(a[0]) then [a[0]] else []) + Filter(a[1..] + b, keep);
    }
  }

  /** Position `i` holds the first element of `xs` that satisfies `keep`. */
  ghost predicate IsFirstMatch<T>(xs: seq<T>, keep: T -> bool, i: int)
  {
    && 0 <= i < |xs|
    && keep(xs[i])
    && forall j :: 0 <= j < i ==> !keep(xs[j])
  }

  /** When the filter keeps anything, the first row it keeps is the first
      matching row of the dataset. */
  lemma {:induction false} FilterHeadIsFirstMatch<T>(xs: seq<T>, keep: T -> bool)
    requires |Filter(xs, keep)| > 0
    ensures exists i :: IsFirstMatch(xs, keep, i) && xs[i] == Filter(xs, keep)[0]
  {
    if keep(xs[0]) {
      assert IsFirstMatch(xs, keep, 0);
    } else {
      FilterHeadIsFirstMatch(xs[1..], keep);
      var i :| IsFirstMatch(xs[1..], keep, i) && xs[1..][i] == Filter(xs[1..], keep)[0];
      assert IsFirstMatch(xs, keep, i + 1);
    }
  }

  /** A request field equals a column only when the request carried it: a
      field missing from the request (None) matches no row, as comparing a
      column with None matches none. */
  predicate FieldIs(column: string, wanted: Option<string>)
    ensures wanted.None? ==> !FieldIs(column, wanted)
    ensures wanted.Some? ==> (FieldIs(column, wanted) <==> wanted.value == column)
  {
    wanted == Some(column)
  }

  /** The search condition: same origin, destination and bus type. */
  predicate MatchesSearch(row: RouteRecord, from: Option<string>, to: Option<string>, busType: Option<string>)
    ensures from.None? || to.None? || busType.None? ==> !MatchesSearch(row, from, to, busType)
    ensures MatchesSearch(row, from, to, busType) <==>
      from == Some(row.origin) && to == Some(row.destination) && busType == Some(row.busType)
  {
    FieldIs(row.origin, from) && FieldIs(row.destination, to) && FieldIs(row.busType, busType)
  }

  /** The booking condition: same route number, origin and destination. The
      bus type plays no part in it. */
  predicate MatchesBooking(row: RouteRecord, routeNo: Option<string>, from: Option<string>, to: Option<string>)
    ensures routeNo.None? || from.None? || to.None? ==> !MatchesBooking(row, routeNo, from, to)
    ensures MatchesBooking(row, routeNo, from, to) <==>
      routeNo == Some(row.routeNo) && from == Some(row.origin) && to == Some(row.destination)
  {
    FieldIs(row.routeNo, routeNo) && FieldIs(row.origin, from) && FieldIs(row.destination, to)
  }

  /** The answer to a search: the matching buses, or the report that there
      are none. */
  datatype SearchResult = Found(buses: seq<RouteRecord>) | NoBuses

  /** Searches the dataset for buses on a route of a given type. */
  function SearchBuses(data: seq<RouteRecord>, from: Option<string>, to: Option<string>, busType: Option<string>): (r: SearchResult)
    ensures r.NoBuses? <==> forall i :: 0 <= i < |data| ==> !MatchesSearch(data[i], from, to, busType)
    ensures r.Found? ==> 0 < |r.buses| <= |data|
    ensures r.Found? ==> forall k :: 0 <= k < |r.buses| ==> r.buses[k] in data && MatchesSearch(r.buses[k], from, to, busType)
    ensures r.Found? ==> forall i :: 0 <= i < |data| && MatchesSearch(data[i], from, to, busType) ==> data[i] in r.buses
  {
    var filtered := Filter(data, row => MatchesSearch(row, from, to, busType));
    if |filtered| > 0 then
      assert MatchesSearch(filtered[0], from, to, busType);
      Found(filtered)
    else NoBuses
  }

  /** The buses a search reports are the matching rows read in dataset
      order, and every matching row is read. */
  lemma SearchBusesInDatasetOrder(data: seq<RouteRecord>, from: Option<string>, to: Option<string>, busType: Option<string>)
    requires SearchBuses(data, from, to, busType).Found?
    ensures var keep := row => MatchesSearch(row, from, to, busType);
            exists idx :: SelectsInOrder(SearchBuses(data, from, to, busType).buses, data, keep, idx)
  {
    FilterPreservesOrder(data, row => MatchesSearch(row, from, to, busType));
  }

  /** A search reports each matching row as often as the dataset lists it,
      and no other row. */
  lemma SearchBusesCounts(data: seq<RouteRecord>, from: Option<string>, to: Option<string>, busType: Option<string>, x: RouteRecord)
    requires SearchBuses(data, from, to, busType).Found?
    ensures multiset(SearchBuses(data, from, to, busType).buses)[x]
            == if MatchesSearch(x, from, to, busType) then multiset(data)[x] else 0
  {
    FilterCounts(data, row => MatchesSearch(row, from, to, busType), x);
  }

  /** Looks up the bus a booking names: the first row with the requested route
      number, origin and destination, or None when no row has all three. */
  function FindBus(data: seq<RouteRecord>, routeNo: Option<string>, from: Option<string>, to: Option<string>): (r: Option<RouteRecord>)
    ensures r.None? <==> forall i :: 0 <= i < |data| ==> !MatchesBooking(data[i], routeNo, from, to)
    ensures r.Some? ==> r.value in data && MatchesBooking(r.value, routeNo, from, to)
    ensures r.Some? ==> exists i :: IsFirstMatch(data, row => MatchesBooking(row, routeNo, from, to), i) && data[i] == r.value
  {
    var keep := row => MatchesBooking(row, routeNo, from, to);
    var selected := Filter(data, keep);
    if |selected| == 0 then None
    else
      FilterHeadIsFirstMatch(data, keep);
      Some(selected[0])
  }
}
