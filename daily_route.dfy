/** The daily bookings route: the confirmed bookings that start on one day,
    earliest first. The day's local midnight (`startOfDay(parseISO(date))`)
    arrives already computed. */
module DailyRoute {
  import opened Wrappers
  import opened Model
  import opened Seqs
  import opened Ordering
  import BookingsRoute

  /** The `date` query parameter: absent or empty, not a date, or the instant
      of the day's local midnight. */
  datatype DateParam = Missing | Unparsable | Day(start: Instant)

  datatype Response = Response(status: Http, rows: seq<Booking>)

  /** `.eq('status', 'CONFIRMED').gte('startTime', dayStart).lt('startTime', dayEnd)`. */
  predicate StartsOnDay(b: Booking, dayStart: Instant)
  {
    b.status == Confirmed && dayStart <= b.startTime < dayStart + DAY_MS
  }

  /** `GET /api/bookings/daily?date=…`. A day whose midnight is not a valid
      `Date` fails the NaN check (400); a day whose end is past the `Date`
      range makes `toISOString` throw, which the catch answers with 500. */
  function Get(caller: Option<Id>, date: DateParam, bookings: seq<Booking>, queryFails: bool): (r: Response)
    ensures caller.None? ==> r.status == Unauthorized
    ensures caller.Some? && !(date.Day? && InDateRange(date.start)) ==> r.status == BadRequest
    ensures caller.Some? && date.Day? && InDateRange(date.start) && !InDateRange(date.start + DAY_MS) ==>
              r.status == ServerError
    ensures r.status == Ok <==>
              caller.Some? && date.Day? && InDateRange(date.start) && InDateRange(date.start + DAY_MS) && !queryFails
    ensures r.status != Ok ==> r.rows == []
    ensures r.status == Ok ==> forall b :: b in r.rows <==> b in bookings && StartsOnDay(b, date.start)
    ensures r.status == Ok ==> multiset(r.rows) == multiset(Filter(bookings, (b: Booking) => StartsOnDay(b, date.start)))
    ensures SortedBy(r.rows, ByKey(BookingsRoute.StartOf))
  {
    if caller.None? then Response(Unauthorized, [])
    else if date.Missing? then Response(BadRequest, [])
    else if date.Unparsable? || !InDateRange(date.start) then Response(BadRequest, [])
    else if !InDateRange(date.start + DAY_MS) then Response(ServerError, [])
    else if queryFails then Response(ServerError, [])
    else
      var found := Filter(bookings, (b: Booking) => StartsOnDay(b, date.start));
      FilterMembers(bookings, (b: Booking) => StartsOnDay(b, date.start));
      KeyOrdersArePreorders(BookingsRoute.StartOf);
      var rows := SortBy(found, ByKey(BookingsRoute.StartOf));
      assert forall b :: b in rows <==> b in multiset(rows);
      Response(Ok, rows)
  }

  /** Only the start is tested: a booking that begins before the day and runs
      into it is not listed. */
  lemma StartBeforeDayIsExcluded(caller: Id, dayStart: Instant, bookings: seq<Booking>, b: Booking)
    requires b.startTime < dayStart < b.endTime
    ensures b !in Get(Some(caller), Day(dayStart), bookings, false).rows
  {
  }
}
