/** The hosted relational database, as an in-memory object whose tables the
    route handlers read and update in place. Table order stands for the
    store's unspecified row order. */
module Store {
  import opened Model

  class Store {
    var boats: seq<Boat>
    var bookings: seq<Booking>
    var boatGroups: seq<BoatGroup>
    var userGroups: seq<UserGroup>
    var users: seq<User>
    var groups: seq<Group>

    constructor (boats: seq<Boat>, bookings: seq<Booking>, boatGroups: seq<BoatGroup>,
                 userGroups: seq<UserGroup>, users: seq<User>, groups: seq<Group>)
      ensures this.boats == boats && this.bookings == bookings
      ensures this.boatGroups == boatGroups && this.userGroups == userGroups
      ensures this.users == users && this.groups == groups
    {
      this.boats := boats;
      this.bookings := bookings;
      this.boatGroups := boatGroups;
      this.userGroups := userGroups;
      this.users := users;
      this.groups := groups;
    }
  }
}
