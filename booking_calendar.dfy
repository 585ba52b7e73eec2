/** The booking calendar of one boat: the 2-hour slots of the selected day,
    the full-day range, and for each the label and the button offered. The
    instant of the selected day's local midnight (`startOfDay`) is given as
    `dayBase`; the list of bookings is the one the boat page passes in. */
module BookingCalendar {
  import opened Wrappers
  import opened Model
  import BookingsRoute

  const DAY_START_HOUR: int := 6
  const DAY_END_HOUR: int := 20
  const SLOT_HOURS: int := 2
  const SLOT_COUNT: int := 7

  datatype Range = Range(start: Instant, end: Instant)

  /** `t` lies in the half-open range. */
  predicate InRange(r: Range, t: Instant)
  {
    r.start <= t < r.end
  }

  /** The `k`-th slot of the day: it starts at 06:00 + 2k hours and lasts 2 hours. */
  function SlotAt(dayBase: Instant, k: int): Range
  {
    Range(dayBase + (DAY_START_HOUR + SLOT_HOURS * k) * HOUR_MS, dayBase + (DAY_START_HOUR + SLOT_HOURS * k + SLOT_HOURS) * HOUR_MS)
  }

  /** `getDayBounds`: 06:00 to 20:00 of the selected day. */
  function DayBounds(dayBase: Instant): (r: Range)
    ensures r.end - r.start == 14 * HOUR_MS
    ensures r.start == SlotAt(dayBase, 0).start && r.end == SlotAt(dayBase, SLOT_COUNT - 1).end
  {
    Range(dayBase + DAY_START_HOUR * HOUR_MS, dayBase + DAY_END_HOUR * HOUR_MS)
  }

  /** `generateTimeSlots`: the loop from hour 6 while below 20, in steps of 2. */
  method GenerateTimeSlots(dayBase: Instant) returns (slots: seq<Range>)
    ensures |slots| == SLOT_COUNT
    ensures forall k :: 0 <= k < |slots| ==> slots[k] == SlotAt(dayBase, k)
    ensures forall k :: 0 <= k < |slots| ==> slots[k].end - slots[k].start == SLOT_HOURS * HOUR_MS
    ensures forall k :: 0 <= k < |slots| - 1 ==> slots[k].end == slots[k + 1].start
    ensures slots[0].start == DayBounds(dayBase).start && slots[|slots| - 1].end == DayBounds(dayBase).end
  {
    slots := [];
    var hour := DAY_START_HOUR;
    while hour < DAY_END_HOUR
      invariant DAY_START_HOUR <= hour <= DAY_END_HOUR
      invariant hour == DAY_START_HOUR + SLOT_HOURS * |slots|
      invariant forall k :: 0 <= k < |slots| ==> slots[k] == SlotAt(dayBase, k)
    {
      var start := dayBase + hour * HOUR_MS;
      var end := dayBase + (hour + SLOT_HOURS) * HOUR_MS;
      slots := slots + [Range(start, end)];
      hour := hour + SLOT_HOURS;
    }
  }

  /** The slots tile the day bounds: every instant of [06:00, 20:00) lies in
      exactly one slot, and no instant outside it lies in any slot. */
  lemma SlotsTileDay(dayBase: Instant, t: Instant)
    ensures InRange(DayBounds(dayBase), t) ==>
              var k := (t - dayBase - DAY_START_HOUR * HOUR_MS) / (SLOT_HOURS * HOUR_MS);
              && 0 <= k < SLOT_COUNT
              && forall j :: 0 <= j < SLOT_COUNT ==> (InRange(SlotAt(dayBase, j), t) <==> j == k)
    ensures !InRange(DayBounds(dayBase), t) ==> forall j :: 0 <= j < SLOT_COUNT ==> !InRange(SlotAt(dayBase, j), t)
  {
    if InRange(DayBounds(dayBase), t) {
      var d := t - dayBase - DAY_START_HOUR * HOUR_MS;
      var k := d / (SLOT_HOURS * HOUR_MS);
      assert k * (SLOT_HOURS * HOUR_MS) <= d < (k + 1) * (SLOT_HOURS * HOUR_MS);
      forall j | 0 <= j < SLOT_COUNT
        ensures InRange(SlotAt(dayBase, j), t) <==> j == k
      {
        if j < k {
          assert (j + 1) * (SLOT_HOURS * HOUR_MS) <= k * (SLOT_HOURS * HOUR_MS);
        } else if j > k {
          assert (k + 1) * (SLOT_HOURS * HOUR_MS) <= j * (SLOT_HOURS * HOUR_MS);
        }
      }
    }
  }

  /** `isRangeBooked`: `bookings.some(b => start < b.end && end > b.start)`. */
  predicate IsRangeBooked(bookings: seq<Booking>, r: Range)
  {
    bookings != [] && (BookingsRoute.Overlaps(r.start, r.end, bookings[0].startTime, bookings[0].endTime) || IsRangeBooked(bookings[1..], r))
  }

  /** A range is booked exactly when some passed booking overlaps it as a half-open range. */
  lemma {:induction false} IsRangeBookedIff(bookings: seq<Booking>, r: Range)
    ensures IsRangeBooked(bookings, r) <==>
              exists b :: b in bookings && r.start < b.endTime && r.end > b.startTime
  {
    if bookings != [] {
      IsRangeBookedIff(bookings[1..], r);
      assert bookings == [bookings[0]] + bookings[1..];
    }
  }

  /** Ranges that only touch a booking's ends are free, and nothing is booked
      when there are no bookings. */
  lemma AbuttingRangeIsFree(b: Booking, r: Range)
    requires r.end == b.startTime || r.start == b.endTime
    ensures !IsRangeBooked([b], r)
    ensures !IsRangeBooked([], r)
  {
    IsRangeBookedIff([b], r);
  }

  /** Monotonicity: a range inside one that is not booked is not booked either. */
  lemma {:induction false} SubRangeOfFreeRangeIsFree(bookings: seq<Booking>, outer: Range, inner: Range)
    requires outer.start <= inner.start && inner.end <= outer.end
    requires !IsRangeBooked(bookings, outer)
    ensures !IsRangeBooked(bookings, inner)
  {
    if bookings != [] {
      SubRangeOfFreeRangeIsFree(bookings[1..], outer, inner);
    }
  }

  /** When the full day is free, so is every slot of it. */
  lemma FreeDayHasFreeSlots(bookings: seq<Booking>, dayBase: Instant, k: int)
    requires 0 <= k < SLOT_COUNT
    requires !IsRangeBooked(bookings, DayBounds(dayBase))
    ensures !IsRangeBooked(bookings, SlotAt(dayBase, k))
  {
    SubRangeOfFreeRangeIsFree(bookings, DayBounds(dayBase), SlotAt(dayBase, k));
  }

  /** The booking is the viewer's and covers exactly the range. */
  predicate IsExactUserBooking(b: Booking, userId: Id, r: Range)
  {
    b.userId == userId && b.startTime == r.start && b.endTime == r.end
  }

  /** `getExactUserBooking`: the first passed booking of the viewer whose start
      and end equal the range's, if any. */
  function GetExactUserBooking(bookings: seq<Booking>, userId: Id, r: Range): (found: Option<Booking>)
    ensures found.Some? ==> found.value in bookings && IsExactUserBooking(found.value, userId, r)
    ensures found.None? <==> forall b :: b in bookings ==> !IsExactUserBooking(b, userId, r)
  {
    if bookings == [] then None
    else if IsExactUserBooking(bookings[0], userId, r) then Some(bookings[0])
    else GetExactUserBooking(bookings[1..], userId, r)
  }

  /** `find` returns the first match: no earlier booking matches. */
  lemma {:induction false} ExactUserBookingIsFirst(bookings: seq<Booking>, userId: Id, r: Range)
    requires GetExactUserBooking(bookings, userId, r).Some?
    ensures exists i :: 0 <= i < |bookings| && bookings[i] == GetExactUserBooking(bookings, userId, r).value
              && forall j :: 0 <= j < i ==> !IsExactUserBooking(bookings[j], userId, r)
  {
    if !IsExactUserBooking(bookings[0], userId, r) {
      ExactUserBookingIsFirst(bookings[1..], userId, r);
      var i :| 0 <= i < |bookings[1..]| && bookings[1..][i] == GetExactUserBooking(bookings[1..], userId, r).value
               && forall j :: 0 <= j < i ==> !IsExactUserBooking(bookings[1..][j], userId, r);
      assert bookings[i + 1] == bookings[1..][i];
    } else {
      assert bookings[0] == GetExactUserBooking(bookings, userId, r).value;
    }
  }

  /** `isSlotPast`: the range starts before now. */
  predicate IsSlotPast(r: Range, now: Instant)
  {
    r.start < now
  }

  datatype SlotLabel = YourBooking | AlreadyBooked | PastSlot | Available

  /** The button shown for a slot or for the full day. */
  datatype SlotButton = CancelButton(bookingId: Id, disabled: bool) | BookButton(disabled: bool)

  datatype SlotView = SlotView(text: SlotLabel, button: SlotButton)

  /** One row of the slot list. */
  function ViewSlot(bookings: seq<Booking>, userId: Id, slot: Range, now: Instant, isBooking: bool): (v: SlotView)
    ensures v.button.CancelButton? <==> GetExactUserBooking(bookings, userId, slot).Some?
    ensures v.button.CancelButton? ==>
              v.button.bookingId == GetExactUserBooking(bookings, userId, slot).value.id && (v.button.disabled <==> isBooking)
    ensures v.button.BookButton? ==>
              (v.button.disabled <==> IsRangeBooked(bookings, slot) || IsSlotPast(slot, now) || isBooking)
    ensures v.text == YourBooking <==> v.button.CancelButton?
    ensures v.text == AlreadyBooked <==> v.button.BookButton? && IsRangeBooked(bookings, slot)
    ensures v.text == PastSlot <==> v.button.BookButton? && !IsRangeBooked(bookings, slot) && IsSlotPast(slot, now)
  {
    var isBooked := IsRangeBooked(bookings, slot);
    var isPast := IsSlotPast(slot, now);
    var userBooking := GetExactUserBooking(bookings, userId, slot);
    var text := if userBooking.Some? then YourBooking
                 else if isBooked then AlreadyBooked
                 else if isPast then PastSlot
                 else Available;
    var button := if userBooking.Some? then CancelButton(userBooking.value.id, isBooking)
                  else BookButton(isBooked || isPast || isBooking);
    SlotView(text, button)
  }

  /** A slot labelled "Available" offers an enabled Book button unless a
      booking request is in flight. */
  lemma AvailableSlotIsBookable(bookings: seq<Booking>, userId: Id, slot: Range, now: Instant, isBooking: bool)
    requires ViewSlot(bookings, userId, slot, now, isBooking).text == Available
    ensures ViewSlot(bookings, userId, slot, now, isBooking).button == BookButton(isBooking)
  {
  }

  /** The viewer's own non-empty booking of a slot also books it, which is
      why "Your booking" has to be tested before "Already booked". */
  lemma {:induction false} OwnBookingBooksSlot(bookings: seq<Booking>, userId: Id, slot: Range)
    requires slot.start < slot.end
    requires GetExactUserBooking(bookings, userId, slot).Some?
    ensures IsRangeBooked(bookings, slot)
  {
    IsRangeBookedIff(bookings, slot);
    var b := GetExactUserBooking(bookings, userId, slot).value;
    assert b in bookings && slot.start < b.endTime && slot.end > b.startTime;
  }

  datatype FullDayNote = FullDayTaken | OnlyFutureDates

  datatype FullDayView = FullDayView(button: SlotButton, note: Option<FullDayNote>)

  /** The full-day panel: Cancel when the viewer holds exactly the full day,
      otherwise Book, disabled when the day is booked or past or a request is
      in flight, with a note saying why. */
  function ViewFullDay(bookings: seq<Booking>, userId: Id, dayBase: Instant, now: Instant, isBooking: bool): (v: FullDayView)
    ensures v.button.CancelButton? <==> GetExactUserBooking(bookings, userId, DayBounds(dayBase)).Some?
    ensures v.button.CancelButton? ==> (v.button.disabled <==> isBooking) && v.note.None?
    ensures v.button.BookButton? ==>
              (v.button.disabled <==> isBooking || IsSlotPast(DayBounds(dayBase), now) || IsRangeBooked(bookings, DayBounds(dayBase)))
    ensures v.note == Some(FullDayTaken) <==> v.button.BookButton? && IsRangeBooked(bookings, DayBounds(dayBase))
    ensures v.note == Some(OnlyFutureDates) <==>
              v.button.BookButton? && !IsRangeBooked(bookings, DayBounds(dayBase)) && IsSlotPast(DayBounds(dayBase), now)
  {
    var day := DayBounds(dayBase);
    var fullDayUserBooking := GetExactUserBooking(bookings, userId, day);
    var isFullDayBooked := IsRangeBooked(bookings, day);
    var isFullDayPast := IsSlotPast(day, now);
    if fullDayUserBooking.Some? then
      FullDayView(CancelButton(fullDayUserBooking.value.id, isBooking), None)
    else
      FullDayView(BookButton(isBooking || isFullDayPast || isFullDayBooked),
                  if isFullDayBooked then Some(FullDayTaken) else if isFullDayPast then Some(OnlyFutureDates) else None)
  }

  /** The full-day button asks the booking route for a 14-hour range, which
      its duration check refuses with 400. */
  lemma FullDayRequestFailsDurationCheck(dayBase: Instant)
    ensures !BookingsRoute.IsTwoHourSlot(BookingsRoute.At(DayBounds(dayBase).start), BookingsRoute.At(DayBounds(dayBase).end))
  {
  }

  /** Every generated slot passes the route's duration check. */
  lemma SlotPassesDurationCheck(dayBase: Instant, k: int)
    ensures BookingsRoute.IsTwoHourSlot(BookingsRoute.At(SlotAt(dayBase, k).start), BookingsRoute.At(SlotAt(dayBase, k).end))
  {
  }
}
