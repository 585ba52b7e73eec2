/** The admin bookings page: the all / upcoming / past-or-cancelled views of
    the fetched bookings, the counts on the three buttons, and what each table
    row shows. The current instant is a parameter. */
module AdminBookingsPage {
  import opened Wrappers
  import opened Model
  import opened Seqs

  /** The `filter` state of the page. */
  datatype View = All | Upcoming | Past

  /** Starts now or later and is still confirmed. */
  predicate IsUpcoming(b: Booking, now: Instant)
  {
    b.startTime >= now && b.status == Confirmed
  }

  /** Started before now, or was cancelled. */
  predicate IsPast(b: Booking, now: Instant)
  {
    b.startTime < now || b.status == Cancelled
  }

  predicate Shown(view: View, b: Booking, now: Instant)
  {
    match view
    case All => true
    case Upcoming => IsUpcoming(b, now)
    case Past => IsPast(b, now)
  }

  /** `filteredBookings`. */
  function FilteredBookings(bookings: seq<Booking>, view: View, now: Instant): (r: seq<Booking>)
    ensures IsSubseq(r, bookings)
    ensures forall b :: b in r <==> b in bookings && Shown(view, b, now)
    ensures view.All? ==> r == bookings
  {
    var p := (b: Booking) => Shown(view, b, now);
    FilterMembers(bookings, p);
    FilterIsSubseq(bookings, p);
    if view.All? then
      FilterAll(bookings, p);
      Filter(bookings, p)
    else
      Filter(bookings, p)
  }

  /** Every booking is in exactly one of the upcoming and past views. */
  lemma UpcomingXorPast(b: Booking, now: Instant)
    ensures IsUpcoming(b, now) <==> !IsPast(b, now)
  {
  }

  /** The upcoming and past views split the list between them. */
  lemma ViewsPartition(bookings: seq<Booking>, now: Instant)
    ensures |FilteredBookings(bookings, Upcoming, now)| + |FilteredBookings(bookings, Past, now)| == |bookings|
    ensures forall b :: b in bookings ==>
              (b in FilteredBookings(bookings, Upcoming, now) <==> b !in FilteredBookings(bookings, Past, now))
  {
    FilterPartition(bookings, (b: Booking) => Shown(Upcoming, b, now), (b: Booking) => Shown(Past, b, now));
  }

  /** The counts shown on the three buttons. */
  datatype ButtonCounts = ButtonCounts(all: nat, upcoming: nat, past: nat)

  /** `bookings.length` and the two inline `filter(...).length` expressions. */
  function Counts(bookings: seq<Booking>, now: Instant): (c: ButtonCounts)
    ensures c.all == |FilteredBookings(bookings, All, now)|
    ensures c.upcoming == |FilteredBookings(bookings, Upcoming, now)|
    ensures c.past == |FilteredBookings(bookings, Past, now)|
    ensures c.upcoming + c.past == c.all
  {
    ViewsPartition(bookings, now);
    FilterCongruent(bookings, (b: Booking) => b.startTime >= now && b.status == Confirmed,
                    (b: Booking) => Shown(Upcoming, b, now));
    FilterCongruent(bookings, (b: Booking) => b.startTime < now || b.status == Cancelled,
                    (b: Booking) => Shown(Past, b, now));
    ButtonCounts(|bookings|,
                 |Filter(bookings, (b: Booking) => b.startTime >= now && b.status == Confirmed)|,
                 |Filter(bookings, (b: Booking) => b.startTime < now || b.status == Cancelled)|)
  }

  /** What one table row shows. */
  datatype RowView = RowView(shaded: bool, badge: string, cancel: Option<CancelButton>)

  datatype CancelButton = CancelButton(disabled: bool, text: string)

  /** One row: shaded when its start has passed, a Cancel button only for a
      confirmed booking, disabled and relabelled while that booking is being
      cancelled. */
  function ViewRow(b: Booking, now: Instant, cancelling: Option<Id>): (v: RowView)
    ensures v.shaded <==> b.startTime < now
    ensures v.cancel.Some? <==> b.status == Confirmed
    ensures v.badge == (if b.status == Confirmed then "Confirmed" else "Cancelled")
    ensures v.cancel.Some? ==> (v.cancel.value.disabled <==> cancelling == Some(b.id))
    ensures v.cancel.Some? ==> v.cancel.value.text == (if cancelling == Some(b.id) then "Cancelling..." else "Cancel")
  {
    var isPast := b.startTime < now;
    var badge := if b.status == Confirmed then "Confirmed" else "Cancelled";
    if b.status == Confirmed then
      var busy := cancelling == Some(b.id);
      RowView(isPast, badge, Some(CancelButton(busy, if busy then "Cancelling..." else "Cancel")))
    else
      RowView(isPast, badge, None)
  }

  /** Upcoming rows are never shaded and always offer Cancel; a confirmed
      booking whose start has passed is shaded but still offers Cancel. */
  lemma RowsOfViews(b: Booking, now: Instant, cancelling: Option<Id>)
    ensures IsUpcoming(b, now) ==> !ViewRow(b, now, cancelling).shaded && ViewRow(b, now, cancelling).cancel.Some?
    ensures b.status == Confirmed && b.startTime < now ==>
              IsPast(b, now) && ViewRow(b, now, cancelling).shaded && ViewRow(b, now, cancelling).cancel.Some?
    ensures b.status == Cancelled ==> IsPast(b, now) && ViewRow(b, now, cancelling).cancel.None?
  {
  }
}
