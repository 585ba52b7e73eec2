/** The rows of the hosted database as values, and the HTTP statuses the route
    handlers answer with. Instants are milliseconds since the epoch. */
module Model {
  import opened Wrappers

  /** Row identifiers (UUID strings). The empty string is how a missing or
      falsy identifier reaches a handler. */
  type Id = string

  type Instant = int

  const HOUR_MS: int := 3600000
  const DAY_MS: int := 86400000

  /** A JavaScript `Date` holds at most 8.64e15 ms either side of the epoch;
      beyond that it is an Invalid Date, whose `getTime()` is NaN and whose
      `toISOString()` throws. */
  const MAX_DATE_MS: int := 8_640_000_000_000_000

  predicate InDateRange(t: Instant)
  {
    -MAX_DATE_MS <= t <= MAX_DATE_MS
  }

  datatype BookingStatus = Confirmed | Cancelled

  datatype Booking = Booking(
    id: Id,
    boatId: Id,
    userId: Id,
    startTime: Instant,
    endTime: Instant,
    status: BookingStatus,
    createdAt: Instant)

  datatype Boat = Boat(
    id: Id,
    name: string,
    description: Option<string>,
    capacity: int,
    imageUrl: Option<string>,
    isActive: bool,
    boatType: Option<string>)

  /** One row of the Boat-Group association: the group may book the boat. */
  datatype BoatGroup = BoatGroup(boatId: Id, groupId: Id)

  /** One row of the User-Group association: the user belongs to the group. */
  datatype UserGroup = UserGroup(userId: Id, groupId: Id)

  datatype User = User(
    id: Id,
    name: Option<string>,
    email: string,
    isActive: bool,
    lastLogin: Option<Instant>,
    createdAt: Instant)

  datatype Group = Group(id: Id, name: string)

  /** The statuses the route handlers return. */
  datatype Http = Ok | Created | BadRequest | Unauthorized | Forbidden | NotFound | Conflict | ServerError {
    function Code(): int
    {
      match this
      case Ok => 200
      case Created => 201
      case BadRequest => 400
      case Unauthorized => 401
      case Forbidden => 403
      case NotFound => 404
      case Conflict => 409
      case ServerError => 500
    }
  }

  /** The group ids of the BoatGroup rows of one boat, in table order
      (`boat.boatGroups.map(bg => bg.groupId)`). */
  function BoatGroupIds(rows: seq<BoatGroup>, boatId: Id): (ids: seq<Id>)
    ensures forall g :: g in ids <==> BoatGroup(boatId, g) in rows
  {
    if rows == [] then []
    else (if rows[0].boatId == boatId then [rows[0].groupId] else []) + BoatGroupIds(rows[1..], boatId)
  }

  /** The group ids of the UserGroup rows of one user, in table order
      (`userGroups.map(ug => ug.groupId)`). */
  function UserGroupIds(rows: seq<UserGroup>, userId: Id): (ids: seq<Id>)
    ensures forall g :: g in ids <==> UserGroup(userId, g) in rows
  {
    if rows == [] then []
    else (if rows[0].userId == userId then [rows[0].groupId] else []) + UserGroupIds(rows[1..], userId)
  }
}
