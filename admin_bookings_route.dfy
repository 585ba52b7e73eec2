/** The admin bookings route: `GET` lists every booking, latest start first;
    `DELETE` cancels the booking with the given id. Both sit behind the admin
    gate. */
module AdminBookingsRoute {
  import opened Model
  import opened Wrappers
  import opened Ordering
  import opened Store
  import opened AdminLib
  import BookingsRoute

  /** `GET /api/admin/bookings`. */
  method Get(db: Store, caller: Option<Id>, adminQueryFails: bool, queryFails: bool) returns (status: Http, rows: seq<Booking>)
    ensures caller.None? ==> status == Unauthorized && rows == []
    ensures caller.Some? && !IsAdminInStore(db.userGroups, db.groups, caller.value, adminQueryFails) ==> status == Forbidden && rows == []
    ensures status == Ok <==> caller.Some? && IsAdminInStore(db.userGroups, db.groups, caller.value, adminQueryFails) && !queryFails
    ensures status != Ok ==> rows == []
    ensures status == Ok ==> multiset(rows) == multiset(db.bookings)
    ensures SortedBy(rows, ByKeyDesc(BookingsRoute.StartOf))
  {
    var gate := Authorize(db.userGroups, db.groups, caller, adminQueryFails);
    if gate.Failure? {
      RequireAdminStatus(caller, caller.Some? && IsAdminInStore(db.userGroups, db.groups, caller.value, adminQueryFails));
      return ErrorStatus(gate.error), [];
    }
    if queryFails {
      return ServerError, [];
    }
    KeyOrdersArePreorders(BookingsRoute.StartOf);
    rows := SortBy(db.bookings, ByKeyDesc(BookingsRoute.StartOf));
    status := Ok;
  }

  /** `update({ status: 'CANCELLED' }).eq('id', id)`: every row with that id is
      cancelled, every other row is kept as it is. */
  function CancelById(bookings: seq<Booking>, id: Id): (r: seq<Booking>)
    ensures |r| == |bookings|
    ensures forall i :: 0 <= i < |r| ==> r[i].status == (if bookings[i].id == id then Cancelled else bookings[i].status)
    ensures forall i :: 0 <= i < |r| ==> r[i].(status := bookings[i].status) == bookings[i]
  {
    seq(|bookings|, i requires 0 <= i < |bookings| => if bookings[i].id == id then bookings[i].(status := Cancelled) else bookings[i])
  }

  /** Cancelling twice is cancelling once. */
  lemma CancelIsIdempotent(bookings: seq<Booking>, id: Id)
    ensures CancelById(CancelById(bookings, id), id) == CancelById(bookings, id)
  {
  }

  /** Cancelling an id no row carries changes nothing. */
  lemma CancelUnknownIdChangesNothing(bookings: seq<Booking>, id: Id)
    requires forall i :: 0 <= i < |bookings| ==> bookings[i].id != id
    ensures CancelById(bookings, id) == bookings
  {
  }

  /** Cancelling only ever removes confirmed bookings, so it cannot create a
      double booking. */
  lemma CancelKeepsNoDoubleBooking(bookings: seq<Booking>, id: Id)
    requires BookingsRoute.NoDoubleBooking(bookings)
    ensures BookingsRoute.NoDoubleBooking(CancelById(bookings, id))
  {
    var r := CancelById(bookings, id);
    forall i, j | 0 <= i < j < |r| && r[i].status == Confirmed && r[j].status == Confirmed && r[i].boatId == r[j].boatId
      ensures !BookingsRoute.Overlaps(r[i].startTime, r[i].endTime, r[j].startTime, r[j].endTime)
    {
      assert r[i] == bookings[i] && r[j] == bookings[j];
    }
  }

  /** `DELETE /api/admin/bookings?id=…`. The id is "" when the parameter is
      missing or empty. */
  method Delete(db: Store, caller: Option<Id>, adminQueryFails: bool, bookingId: Id, updateFails: bool) returns (status: Http)
    modifies db
    ensures db.boats == old(db.boats) && db.boatGroups == old(db.boatGroups) && db.userGroups == old(db.userGroups)
    ensures db.users == old(db.users) && db.groups == old(db.groups)
    ensures caller.None? ==> status == Unauthorized
    ensures caller.Some? && !IsAdminInStore(db.userGroups, db.groups, caller.value, adminQueryFails) ==> status == Forbidden
    ensures caller.Some? && IsAdminInStore(db.userGroups, db.groups, caller.value, adminQueryFails) ==>
              if bookingId == "" then status == BadRequest
              else if updateFails then status == ServerError
              else status == Ok
    ensures status == Ok ==> db.bookings == CancelById(old(db.bookings), bookingId)
    ensures status != Ok ==> db.bookings == old(db.bookings)
  {
    var gate := Authorize(db.userGroups, db.groups, caller, adminQueryFails);
    if gate.Failure? {
      RequireAdminStatus(caller, caller.Some? && IsAdminInStore(db.userGroups, db.groups, caller.value, adminQueryFails));
      return ErrorStatus(gate.error);
    }
    if bookingId == "" {
      return BadRequest;
    }
    if updateFails {
      return ServerError;
    }
    db.bookings := CancelById(db.bookings, bookingId);
    return Ok;
  }
}
