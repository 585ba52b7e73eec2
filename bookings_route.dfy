/** The booking route: `POST` admits a booking request through a chain of
    early-return checks and inserts one CONFIRMED booking; `GET` lists the
    caller's upcoming confirmed bookings. */
module BookingsRoute {
  import opened Wrappers
  import opened Model
  import opened Seqs
  import opened Ordering
  import opened Store

  /** A time field of the request body as `new Date(field)` sees it: absent or
      empty (falsy), not a date (an invalid Date), or an instant. */
  datatype TimeField = Missing | Unparsable | At(ms: Instant)

  datatype BookingRequest = BookingRequest(boatId: Id, startTime: TimeField, endTime: TimeField)

  /** Which of the store calls made by `POST` report an error. */
  datatype PostFaults = PostFaults(
    boatQuery: bool,
    userGroupsQuery: bool,
    conflictQuery: bool,
    insert: bool)

  const SLOT_MS: int := 2 * HOUR_MS

  /** `!boatId || !startTime || !endTime` is false. */
  predicate HasRequiredFields(req: BookingRequest)
  {
    req.boatId != "" && !req.startTime.Missing? && !req.endTime.Missing?
  }

  /** `(end - start) / (1000 * 60 * 60) === 2`. An unparsable time makes the
      quotient NaN; for whole milliseconds the quotient is 2 exactly when the
      difference is 7 200 000. */
  predicate IsTwoHourSlot(start: TimeField, end: TimeField)
  {
    start.At? && end.At? && end.ms - start.ms == SLOT_MS
  }

  /** `Boat.eq('id', boatId).eq('isActive', true).single()`: the one active boat
      with that id, or nothing when there is no such row (or more than one). */
  function FindBookableBoat(boats: seq<Boat>, boatId: Id): (r: Option<Boat>)
    ensures r.Some? ==> r.value in boats && r.value.id == boatId && r.value.isActive
    ensures (exists b :: b in boats && b.id == boatId && b.isActive) && r.None? ==>
              |Filter(boats, (b: Boat) => b.id == boatId && b.isActive)| > 1
  {
    var matches := Filter(boats, (b: Boat) => b.id == boatId && b.isActive);
    FilterMembers(boats, (b: Boat) => b.id == boatId && b.isActive);
    if |matches| == 1 then Some(matches[0]) else None
  }

  /** `boatGroupIds.some(id => userGroupIds.includes(id))`. */
  predicate SomeShared(boatGroupIds: seq<Id>, userGroupIds: seq<Id>)
  {
    boatGroupIds != [] && (boatGroupIds[0] in userGroupIds || SomeShared(boatGroupIds[1..], userGroupIds))
  }

  /** The access gate: a boat without groups is open to everybody, otherwise the
      user must share one of its groups. */
  predicate HasAccess(boatGroupIds: seq<Id>, userGroupIds: seq<Id>)
  {
    |boatGroupIds| == 0 || SomeShared(boatGroupIds, userGroupIds)
  }

  lemma {:induction false} SomeSharedIff(boatGroupIds: seq<Id>, userGroupIds: seq<Id>)
    ensures SomeShared(boatGroupIds, userGroupIds) <==> exists g :: g in boatGroupIds && g in userGroupIds
  {
    if boatGroupIds != [] {
      SomeSharedIff(boatGroupIds[1..], userGroupIds);
      assert boatGroupIds == [boatGroupIds[0]] + boatGroupIds[1..];
    }
  }

  /** Access is granted exactly when the boat's group set is empty or meets the user's. */
  lemma HasAccessIff(boatGroupIds: seq<Id>, userGroupIds: seq<Id>)
    ensures HasAccess(boatGroupIds, userGroupIds) <==>
              (set g | g in boatGroupIds) == {} || (set g | g in boatGroupIds) * (set g | g in userGroupIds) != {}
  {
    SomeSharedIff(boatGroupIds, userGroupIds);
    var mine, theirs := set g | g in boatGroupIds, set g | g in userGroupIds;
    if boatGroupIds != [] {
      assert boatGroupIds[0] in mine;
    }
    if exists g :: g in boatGroupIds && g in userGroupIds {
      var g :| g in boatGroupIds && g in userGroupIds;
      assert g in mine * theirs;
    }
    if mine * theirs != {} {
      var g :| g in mine * theirs;
      assert g in boatGroupIds && g in userGroupIds;
    }
  }

  /** Half-open interval overlap of [s1, e1) and [s2, e2). */
  predicate Overlaps(s1: Instant, e1: Instant, s2: Instant, e2: Instant)
  {
    s1 < e2 && e1 > s2
  }

  /** The `.or(...)` filter of the conflict query as written:
      `startTime <= start OR endTime > start OR startTime < end OR endTime >= end`. */
  predicate RouteConflict(b: Booking, start: Instant, end: Instant)
  {
    b.startTime <= start || b.endTime > start || b.startTime < end || b.endTime >= end
  }

  /** The rows the conflict query returns: confirmed bookings of the boat that
      pass the `.or(...)` filter. */
  function ConflictRows(bookings: seq<Booking>, boatId: Id, start: Instant, end: Instant): seq<Booking>
  {
    Filter(bookings, (b: Booking) => b.boatId == boatId && b.status == Confirmed && RouteConflict(b, start, end))
  }

  /** Every half-open overlap passes the route's filter. */
  lemma RouteConflictCoversOverlap(b: Booking, start: Instant, end: Instant)
    requires Overlaps(b.startTime, b.endTime, start, end)
    ensures RouteConflict(b, start, end)
  {
  }

  /** The route's filter matches every booking whose start precedes its end,
      whatever the requested range. */
  lemma RouteConflictMatchesProperBooking(b: Booking, start: Instant, end: Instant)
    requires b.startTime < b.endTime
    ensures RouteConflict(b, start, end)
  {
  }

  /** When the conflict query comes back empty, the boat has no confirmed
      booking whose start precedes its end. */
  lemma {:induction false} NoConflictRowsMeansNoProperBooking(bookings: seq<Booking>, boatId: Id, start: Instant, end: Instant)
    requires ConflictRows(bookings, boatId, start, end) == []
    ensures forall b :: b in bookings && b.boatId == boatId && b.status == Confirmed ==> b.endTime <= b.startTime
  {
    FilterMembers(bookings, (b: Booking) => b.boatId == boatId && b.status == Confirmed && RouteConflict(b, start, end));
  }

  /** No two confirmed bookings of one boat overlap. */
  ghost predicate NoDoubleBooking(bs: seq<Booking>)
  {
    forall i, j :: 0 <= i < j < |bs| && bs[i].status == Confirmed && bs[j].status == Confirmed && bs[i].boatId == bs[j].boatId ==>
      !Overlaps(bs[i].startTime, bs[i].endTime, bs[j].startTime, bs[j].endTime)
  }

  /** Appending a booking that overlaps no confirmed booking of its boat keeps the schedule free of double bookings. */
  lemma AppendKeepsNoDoubleBooking(bs: seq<Booking>, nb: Booking)
    requires NoDoubleBooking(bs)
    requires forall b :: b in bs && b.boatId == nb.boatId && b.status == Confirmed ==>
               !Overlaps(b.startTime, b.endTime, nb.startTime, nb.endTime)
    ensures NoDoubleBooking(bs + [nb])
  {
    var r := bs + [nb];
    forall i, j | 0 <= i < j < |r| && r[i].status == Confirmed && r[j].status == Confirmed && r[i].boatId == r[j].boatId
      ensures !Overlaps(r[i].startTime, r[i].endTime, r[j].startTime, r[j].endTime)
    {
      if j == |bs| {
        assert r[i] in bs;
      }
    }
  }

  /** Under the route's filter, an empty conflict query rules out every overlap,
      so the admitted booking cannot double-book the boat. */
  lemma {:induction false} RouteAdmissionKeepsNoDoubleBooking(bs: seq<Booking>, nb: Booking)
    requires NoDoubleBooking(bs)
    requires ConflictRows(bs, nb.boatId, nb.startTime, nb.endTime) == []
    ensures NoDoubleBooking(bs + [nb])
  {
    FilterMembers(bs, (b: Booking) => b.boatId == nb.boatId && b.status == Confirmed && RouteConflict(b, nb.startTime, nb.endTime));
    forall b | b in bs && b.boatId == nb.boatId && b.status == Confirmed
      ensures !Overlaps(b.startTime, b.endTime, nb.startTime, nb.endTime)
    {
      assert b !in ConflictRows(bs, nb.boatId, nb.startTime, nb.endTime);
    }
    AppendKeepsNoDoubleBooking(bs, nb);
  }

  /** As written, the filter refuses a slot that only abuts an existing booking:
      with [10:00, 12:00) confirmed, a request for [12:00, 14:00) finds a conflict
      row although the two ranges do not overlap. */
  lemma RouteRefusesAbuttingSlot()
    ensures var existing := Booking("b1", "boat", "u1", 10 * HOUR_MS, 12 * HOUR_MS, Confirmed, 0);
            && !Overlaps(existing.startTime, existing.endTime, 12 * HOUR_MS, 14 * HOUR_MS)
            && ConflictRows([existing], "boat", 12 * HOUR_MS, 14 * HOUR_MS) == [existing]
  {
  }

  /** The evidently intended conflict query: confirmed bookings of the boat that
      overlap [start, end) as half-open ranges. */
  function OverlapRows(bookings: seq<Booking>, boatId: Id, start: Instant, end: Instant): (r: seq<Booking>)
    ensures forall b :: b in r <==> b in bookings && b.boatId == boatId && b.status == Confirmed && Overlaps(b.startTime, b.endTime, start, end)
  {
    FilterMembers(bookings, (b: Booking) => b.boatId == boatId && b.status == Confirmed && Overlaps(b.startTime, b.endTime, start, end));
    Filter(bookings, (b: Booking) => b.boatId == boatId && b.status == Confirmed && Overlaps(b.startTime, b.endTime, start, end))
  }

  /** With the half-open test, an abutting slot is admitted, and admitting any
      slot the test passes keeps the schedule free of double bookings. */
  lemma {:induction false} OverlapAdmissionKeepsNoDoubleBooking(bs: seq<Booking>, nb: Booking)
    requires NoDoubleBooking(bs)
    requires OverlapRows(bs, nb.boatId, nb.startTime, nb.endTime) == []
    ensures NoDoubleBooking(bs + [nb])
  {
    forall b | b in bs && b.boatId == nb.boatId && b.status == Confirmed
      ensures !Overlaps(b.startTime, b.endTime, nb.startTime, nb.endTime)
    {
      assert b !in OverlapRows(bs, nb.boatId, nb.startTime, nb.endTime);
    }
    AppendKeepsNoDoubleBooking(bs, nb);
  }

  lemma OverlapAdmitsAbuttingSlot()
    ensures var existing := Booking("b1", "boat", "u1", 10 * HOUR_MS, 12 * HOUR_MS, Confirmed, 0);
            OverlapRows([existing], "boat", 12 * HOUR_MS, 14 * HOUR_MS) == []
  {
  }

  /** The request passes the checks made before any store lookup: a signed-in
      caller, the three required fields, a two-hour slot. */
  predicate PassesRequestChecks(caller: Option<Id>, req: BookingRequest)
  {
    caller.Some? && HasRequiredFields(req) && IsTwoHourSlot(req.startTime, req.endTime)
  }

  /** The caller's group ids as the access check sees them: a failed query
      (`userGroups` null) yields none. */
  function SeenUserGroupIds(userGroups: seq<UserGroup>, caller: Option<Id>, faults: PostFaults): seq<Id>
  {
    if faults.userGroupsQuery || caller.None? then [] else UserGroupIds(userGroups, caller.value)
  }

  /** The request checks pass and the boat lookup finds one active boat. */
  predicate FindsBoat(boats: seq<Boat>, caller: Option<Id>, req: BookingRequest, faults: PostFaults)
  {
    PassesRequestChecks(caller, req) && !faults.boatQuery && FindBookableBoat(boats, req.boatId).Some?
  }

  /** ... and the caller may book that boat. */
  predicate PassesAccessCheck(boats: seq<Boat>, boatGroups: seq<BoatGroup>, userGroups: seq<UserGroup>,
                              caller: Option<Id>, req: BookingRequest, faults: PostFaults)
  {
    FindsBoat(boats, caller, req, faults)
    && HasAccess(BoatGroupIds(boatGroups, req.boatId), SeenUserGroupIds(userGroups, caller, faults))
  }

  /** ... and the conflict query returns no row (a failed query returns none). */
  predicate PassesConflictCheck(boats: seq<Boat>, boatGroups: seq<BoatGroup>, userGroups: seq<UserGroup>,
                                bookings: seq<Booking>, caller: Option<Id>, req: BookingRequest, faults: PostFaults)
  {
    PassesAccessCheck(boats, boatGroups, userGroups, caller, req, faults)
    && (faults.conflictQuery || ConflictRows(bookings, req.boatId, req.startTime.ms, req.endTime.ms) == [])
  }

  /** `POST /api/bookings`. The checks run in the source's order and each
      refusal leaves the store untouched; success inserts exactly one row. */
  method Post(db: Store, caller: Option<Id>, req: BookingRequest, newId: Id, now: Instant, faults: PostFaults)
    returns (status: Http, created: Option<Booking>)
    modifies db
    ensures db.boats == old(db.boats) && db.boatGroups == old(db.boatGroups) && db.userGroups == old(db.userGroups)
    ensures db.users == old(db.users) && db.groups == old(db.groups)
    ensures status != Created ==> db.bookings == old(db.bookings) && created.None?
    ensures caller.None? ==> status == Unauthorized
    ensures caller.Some? && !HasRequiredFields(req) ==> status == BadRequest
    ensures caller.Some? && HasRequiredFields(req) && !IsTwoHourSlot(req.startTime, req.endTime) ==> status == BadRequest
    ensures PassesRequestChecks(caller, req) && !FindsBoat(old(db.boats), caller, req, faults) ==> status == NotFound
    ensures status == Forbidden <==>
              FindsBoat(old(db.boats), caller, req, faults)
              && !PassesAccessCheck(old(db.boats), old(db.boatGroups), old(db.userGroups), caller, req, faults)
    ensures status == Conflict <==>
              PassesAccessCheck(old(db.boats), old(db.boatGroups), old(db.userGroups), caller, req, faults)
              && !PassesConflictCheck(old(db.boats), old(db.boatGroups), old(db.userGroups), old(db.bookings), caller, req, faults)
    ensures status == ServerError <==>
              PassesConflictCheck(old(db.boats), old(db.boatGroups), old(db.userGroups), old(db.bookings), caller, req, faults)
              && faults.insert
    ensures status == Created <==>
              PassesConflictCheck(old(db.boats), old(db.boatGroups), old(db.userGroups), old(db.bookings), caller, req, faults)
              && !faults.insert
    ensures status == Created ==>
              && created == Some(Booking(newId, req.boatId, caller.value, req.startTime.ms, req.endTime.ms, Confirmed, now))
              && db.bookings == old(db.bookings) + [created.value]
    ensures !faults.conflictQuery && old(NoDoubleBooking(db.bookings)) ==> NoDoubleBooking(db.bookings)
  {
    created := None;
    if caller.None? {
      return Unauthorized, None;
    }
    if !HasRequiredFields(req) {
      return BadRequest, None;
    }
    if !IsTwoHourSlot(req.startTime, req.endTime) {
      return BadRequest, None;
    }
    var start, end := req.startTime.ms, req.endTime.ms;

    var boat := if faults.boatQuery then None else FindBookableBoat(db.boats, req.boatId);
    if boat.None? {
      return NotFound, None;
    }

    var userGroupIds := if faults.userGroupsQuery then [] else UserGroupIds(db.userGroups, caller.value);
    var boatGroupIds := BoatGroupIds(db.boatGroups, req.boatId);
    if !HasAccess(boatGroupIds, userGroupIds) {
      return Forbidden, None;
    }

    // A failed conflict query yields no rows, and the check lets the request through.
    var existing := if faults.conflictQuery then [] else ConflictRows(db.bookings, req.boatId, start, end);
    if |existing| > 0 {
      return Conflict, None;
    }

    if faults.insert {
      return ServerError, None;
    }
    var booking := Booking(newId, req.boatId, caller.value, start, end, Confirmed, now);
    if !faults.conflictQuery && NoDoubleBooking(db.bookings) {
      RouteAdmissionKeepsNoDoubleBooking(db.bookings, booking);
    }
    db.bookings := db.bookings + [booking];
    return Created, Some(booking);
  }

  /** The caller's confirmed bookings that have not ended by `now`, in table order. */
  function UpcomingBookings(bookings: seq<Booking>, userId: Id, now: Instant): seq<Booking>
  {
    Filter(bookings, (b: Booking) => b.userId == userId && b.status == Confirmed && b.endTime >= now)
  }

  function StartOf(b: Booking): int
  {
    b.startTime
  }

  /** `GET /api/bookings`: the caller's upcoming confirmed bookings, ascending by start. */
  method Get(db: Store, caller: Option<Id>, now: Instant, queryFails: bool) returns (status: Http, rows: seq<Booking>)
    ensures caller.None? ==> status == Unauthorized && rows == []
    ensures caller.Some? && queryFails ==> status == ServerError && rows == []
    ensures caller.Some? && !queryFails ==> status == Ok
    ensures forall b :: b in rows ==> b in db.bookings && b.userId == caller.value && b.status == Confirmed && b.endTime >= now
    ensures caller.Some? && !queryFails ==>
              forall b :: b in db.bookings && b.userId == caller.value && b.status == Confirmed && b.endTime >= now ==> b in rows
    ensures caller.Some? && !queryFails ==> multiset(rows) == multiset(UpcomingBookings(db.bookings, caller.value, now))
    ensures SortedBy(rows, ByKey(StartOf))
  {
    if caller.None? {
      return Unauthorized, [];
    }
    if queryFails {
      return ServerError, [];
    }
    var found := UpcomingBookings(db.bookings, caller.value, now);
    FilterMembers(db.bookings, (b: Booking) => b.userId == caller.value && b.status == Confirmed && b.endTime >= now);
    KeyOrdersArePreorders(StartOf);
    rows := SortBy(found, ByKey(StartOf));
    assert forall b :: b in rows <==> b in multiset(rows);
    status := Ok;
  }
}
