/** The daily summary route: how many confirmed bookings start on each day of
    a window. Day keys (`format(startTime, 'yyyy-MM-dd')`) come from a given
    function of the instant. */
module DailySummaryRoute {
  import opened Wrappers
  import opened Model
  import opened Seqs
  import DailyRoute

  /** The `days` query parameter: absent or empty, `Number(days)` not finite,
      or a whole number of days. */
  datatype DaysParam = NoDays | NotFinite | Days(n: int)

  /** The confirmed bookings whose start lies in [start, start + n days). */
  predicate StartsInWindow(b: Booking, start: Instant, n: int)
  {
    b.status == Confirmed && start <= b.startTime < start + n * DAY_MS
  }

  /** The number of bookings whose start falls on day `key`. */
  function CountOn(bookings: seq<Booking>, dayKey: Instant -> string, key: string): nat
  {
    |Filter(bookings, (b: Booking) => dayKey(b.startTime) == key)|
  }

  lemma CountOnPositiveIff(bookings: seq<Booking>, dayKey: Instant -> string, key: string)
    ensures CountOn(bookings, dayKey, key) > 0 <==> exists b :: b in bookings && dayKey(b.startTime) == key
  {
    var kept := Filter(bookings, (b: Booking) => dayKey(b.startTime) == key);
    FilterMembers(bookings, (b: Booking) => dayKey(b.startTime) == key);
    if kept != [] {
      assert kept[0] in kept;
    }
  }

  /** The loop `counts[dayKey] = (counts[dayKey] || 0) + 1` over the fetched rows. */
  method CountByDay(bookings: seq<Booking>, dayKey: Instant -> string) returns (counts: map<string, nat>)
    ensures forall k :: k in counts <==> CountOn(bookings, dayKey, k) > 0
    ensures forall k :: k in counts ==> counts[k] == CountOn(bookings, dayKey, k)
  {
    counts := map[];
    var i := 0;
    while i < |bookings|
      invariant 0 <= i <= |bookings|
      invariant forall k :: k in counts <==> CountOn(bookings[..i], dayKey, k) > 0
      invariant forall k :: k in counts ==> counts[k] == CountOn(bookings[..i], dayKey, k)
    {
      var key := dayKey(bookings[i].startTime);
      counts := counts[key := (if key in counts then counts[key] else 0) + 1];
      assert bookings[..i + 1] == bookings[..i] + [bookings[i]];
      forall k ensures CountOn(bookings[..i + 1], dayKey, k) == CountOn(bookings[..i], dayKey, k) + (if k == key then 1 else 0) {
        FilterAppend(bookings[..i], [bookings[i]], (b: Booking) => dayKey(b.startTime) == k);
      }
      i := i + 1;
    }
    assert bookings[..i] == bookings;
  }

  /** The sum of the counts of the keys in `keys`. */
  function SumCounts(bookings: seq<Booking>, dayKey: Instant -> string, keys: seq<string>): nat
  {
    if keys == [] then 0 else CountOn(bookings, dayKey, keys[0]) + SumCounts(bookings, dayKey, keys[1..])
  }

  lemma {:induction false} SumCountsIsFilter(bookings: seq<Booking>, dayKey: Instant -> string, keys: seq<string>)
    requires forall i, j :: 0 <= i < j < |keys| ==> keys[i] != keys[j]
    ensures SumCounts(bookings, dayKey, keys) == |Filter(bookings, (b: Booking) => dayKey(b.startTime) in keys)|
  {
    if keys == [] {
      FilterPartition(bookings, (b: Booking) => dayKey(b.startTime) in keys, (b: Booking) => true);
      FilterAll(bookings, (b: Booking) => true);
    } else {
      SumCountsIsFilter(bookings, dayKey, keys[1..]);
      assert forall x :: x in keys <==> x == keys[0] || x in keys[1..];
      FilterDisjointUnion(bookings, (b: Booking) => dayKey(b.startTime) == keys[0],
                          (b: Booking) => dayKey(b.startTime) in keys[1..],
                          (b: Booking) => dayKey(b.startTime) in keys);
    }
  }

  /** Summed over the distinct day keys of the rows, the counts add up to the
      number of rows fetched. */
  lemma CountsSumToTotal(bookings: seq<Booking>, dayKey: Instant -> string, keys: seq<string>)
    requires forall i, j :: 0 <= i < j < |keys| ==> keys[i] != keys[j]
    requires forall i :: 0 <= i < |bookings| ==> dayKey(bookings[i].startTime) in keys
    ensures SumCounts(bookings, dayKey, keys) == |bookings|
  {
    SumCountsIsFilter(bookings, dayKey, keys);
    FilterAll(bookings, (b: Booking) => dayKey(b.startTime) in keys);
  }

  /** `GET /api/bookings/daily-summary?start=…&days=…`. A start that is not a
      valid `Date` fails the NaN check (400); a window whose end is past the
      `Date` range makes `toISOString` throw, which the catch answers with 500. */
  method Get(caller: Option<Id>, start: DailyRoute.DateParam, days: DaysParam, bookings: seq<Booking>,
             dayKey: Instant -> string, queryFails: bool) returns (status: Http, counts: map<string, nat>)
    ensures caller.None? ==> status == Unauthorized
    ensures caller.Some? && (start.Missing? || days.NoDays?) ==> status == BadRequest
    ensures (caller.Some? && !start.Missing? && !days.NoDays?
             && (start.Unparsable? || (start.Day? && !InDateRange(start.start)) || days.NotFinite? || (days.Days? && days.n <= 0)))
            ==> status == BadRequest
    ensures (caller.Some? && start.Day? && InDateRange(start.start) && days.Days? && days.n > 0
             && !InDateRange(start.start + days.n * DAY_MS)) ==> status == ServerError
    ensures status == Ok <==>
              && caller.Some? && start.Day? && InDateRange(start.start) && days.Days? && days.n > 0
              && InDateRange(start.start + days.n * DAY_MS) && !queryFails
    ensures status != Ok ==> counts == map[]
    ensures status == Ok ==>
              var fetched := Filter(bookings, (b: Booking) => StartsInWindow(b, start.start, days.n));
              && (forall k :: k in counts <==> CountOn(fetched, dayKey, k) > 0)
              && (forall k :: k in counts ==> counts[k] == CountOn(fetched, dayKey, k))
  {
    counts := map[];
    if caller.None? {
      return Unauthorized, counts;
    }
    if start.Missing? || days.NoDays? {
      return BadRequest, counts;
    }
    if start.Unparsable? || !InDateRange(start.start) || days.NotFinite? || days.n <= 0 {
      return BadRequest, counts;
    }
    if !InDateRange(start.start + days.n * DAY_MS) {
      return ServerError, counts;
    }
    if queryFails {
      return ServerError, counts;
    }
    var fetched := Filter(bookings, (b: Booking) => StartsInWindow(b, start.start, days.n));
    counts := CountByDay(fetched, dayKey);
    status := Ok;
  }

  /** Only confirmed bookings inside the window are counted. */
  lemma OnlyWindowIsCounted(bookings: seq<Booking>, start: Instant, n: int, b: Booking)
    requires !StartsInWindow(b, start, n)
    ensures b !in Filter(bookings, (x: Booking) => StartsInWindow(x, start, n))
  {
    FilterMembers(bookings, (x: Booking) => StartsInWindow(x, start, n));
  }
}
