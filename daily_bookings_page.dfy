/** The daily bookings page: the day's bookings grouped by time of day, the
    cancel rule, and the "has bookings" dot of the date strip. The label of a
    booking (`format(start, 'h:mm a') - format(end, 'h:mm a')`) comes from a
    given function of its start and end. */
module DailyBookingsPage {
  import opened Wrappers
  import opened Model
  import opened Ordering
  import opened DailySummaryRoute
  import BookingsRoute

  datatype TimeGroup = TimeGroup(text: string, start: Instant, members: seq<Booking>)

  function LabelOf(b: Booking, labelOf: (Instant, Instant) -> string): string
  {
    labelOf(b.startTime, b.endTime)
  }

  function GroupStart(g: TimeGroup): int
  {
    g.start
  }

  /** All bookings of all groups, with multiplicity. */
  function MembersOf(groups: seq<TimeGroup>): multiset<Booking>
  {
    if groups == [] then multiset{} else multiset(groups[0].members) + MembersOf(groups[1..])
  }

  /** `groupedBookings.reduce((count, group) => count + group.bookings.length, 0)`. */
  function TotalBookings(groups: seq<TimeGroup>): nat
  {
    if groups == [] then 0 else |groups[0].members| + TotalBookings(groups[1..])
  }

  lemma {:induction false} TotalBookingsCountsMembers(groups: seq<TimeGroup>)
    ensures TotalBookings(groups) == |MembersOf(groups)|
  {
    if groups != [] {
      TotalBookingsCountsMembers(groups[1..]);
    }
  }

  lemma {:induction false} MembersOfAppend(groups: seq<TimeGroup>, g: TimeGroup)
    ensures MembersOf(groups + [g]) == MembersOf(groups) + multiset(g.members)
  {
    if groups != [] {
      assert (groups + [g])[1..] == groups[1..] + [g];
      MembersOfAppend(groups[1..], g);
    }
  }

  lemma {:induction false} MembersOfUpdate(groups: seq<TimeGroup>, k: int, g: TimeGroup)
    requires 0 <= k < |groups|
    ensures MembersOf(groups[k := g]) + multiset(groups[k].members) == MembersOf(groups) + multiset(g.members)
  {
    var updated := groups[k := g];
    if k > 0 {
      assert updated[0] == groups[0];
      assert updated[1..] == groups[1..][k - 1 := g];
      assert groups[1..][k - 1] == groups[k];
      MembersOfUpdate(groups[1..], k - 1, g);
      assert MembersOf(updated) == multiset(groups[0].members) + MembersOf(groups[1..][k - 1 := g]);
      assert MembersOf(groups) == multiset(groups[0].members) + MembersOf(groups[1..]);
      calc {
        MembersOf(updated) + multiset(groups[k].members);
        multiset(groups[0].members) + (MembersOf(groups[1..][k - 1 := g]) + multiset(groups[1..][k - 1].members));
        multiset(groups[0].members) + (MembersOf(groups[1..]) + multiset(g.members));
        MembersOf(groups) + multiset(g.members);
      }
    } else {
      assert updated[1..] == groups[1..];
    }
  }

  /** `b` lies in one of the groups exactly when it is among their members. */
  lemma {:induction false} MembersOfContains(groups: seq<TimeGroup>, b: Booking)
    ensures b in MembersOf(groups) <==> exists k :: 0 <= k < |groups| && b in groups[k].members
  {
    if groups != [] {
      MembersOfContains(groups[1..], b);
      if b in MembersOf(groups[1..]) {
        var k :| 0 <= k < |groups[1..]| && b in groups[1..][k].members;
        assert groups[k + 1] == groups[1..][k];
      }
      if exists k :: 0 <= k < |groups| && b in groups[k].members {
        var k :| 0 <= k < |groups| && b in groups[k].members;
        if k > 0 {
          assert groups[1..][k - 1] == groups[k];
        }
      }
    }
  }

  /** One group as `groupedBookings` builds it: not empty, starting at its
      first member, every member carrying the group's label, members ascending
      by start. */
  ghost predicate GroupOk(g: TimeGroup, labelOf: (Instant, Instant) -> string)
  {
    && |g.members| > 0
    && g.start == g.members[0].startTime
    && (forall b :: b in g.members ==> LabelOf(b, labelOf) == g.text)
    && SortedBy(g.members, ByKey(BookingsRoute.StartOf))
  }

  /** The shape `groupedBookings` produces: well-formed groups, one group per
      label, the groups ascending by start. */
  ghost predicate WellGrouped(groups: seq<TimeGroup>, labelOf: (Instant, Instant) -> string)
  {
    && (forall k :: 0 <= k < |groups| ==> GroupOk(groups[k], labelOf))
    && (forall k, l :: 0 <= k < l < |groups| ==> groups[k].text != groups[l].text)
    && SortedBy(groups, ByKey(GroupStart))
  }

  /** In a well-formed grouping every booking lies in exactly one group. */
  lemma {:induction false} ExactlyOneGroup(groups: seq<TimeGroup>, labelOf: (Instant, Instant) -> string, b: Booking)
    requires WellGrouped(groups, labelOf)
    requires b in MembersOf(groups)
    ensures exists k :: 0 <= k < |groups| && b in groups[k].members
              && forall l :: 0 <= l < |groups| && l != k ==> b !in groups[l].members
  {
    MembersOfContains(groups, b);
    var k :| 0 <= k < |groups| && b in groups[k].members;
    assert GroupOk(groups[k], labelOf);
    forall l | 0 <= l < |groups| && l != k
      ensures b !in groups[l].members
    {
      assert GroupOk(groups[l], labelOf);
      if l < k {
        assert groups[l].text != groups[k].text;
      } else {
        assert groups[k].text != groups[l].text;
      }
    }
  }

  /** The index of the group with that label, or -1 (`groups.has(label)`). */
  function IndexOfLabel(groups: seq<TimeGroup>, text: string): (k: int)
    ensures -1 <= k < |groups|
    ensures k >= 0 ==> groups[k].text == text
    ensures k == -1 <==> forall l :: 0 <= l < |groups| ==> groups[l].text != text
  {
    if groups == [] then -1
    else if groups[|groups| - 1].text == text then |groups| - 1
    else IndexOfLabel(groups[..|groups| - 1], text)
  }

  /** Every booking in the group starts no later than `t`. */
  ghost predicate GroupStartsBy(g: TimeGroup, t: Instant)
  {
    forall x :: x in g.members ==> x.startTime <= t
  }

  /** Every booking in the groups starts no later than `t`. */
  ghost predicate StartsBy(groups: seq<TimeGroup>, t: Instant)
  {
    forall k :: 0 <= k < |groups| ==> GroupStartsBy(groups[k], t)
  }

  /** One step of `groupedBookings`: `b` joins the group of its label, or opens
      a new group at the end when there is none. */
  function AddBooking(groups: seq<TimeGroup>, b: Booking, labelOf: (Instant, Instant) -> string): (r: seq<TimeGroup>)
    ensures MembersOf(r) == MembersOf(groups) + multiset{b}
  {
    var text := LabelOf(b, labelOf);
    var k := IndexOfLabel(groups, text);
    if k == -1 then
      MembersOfAppend(groups, TimeGroup(text, b.startTime, [b]));
      groups + [TimeGroup(text, b.startTime, [b])]
    else
      JoinGroup(groups, k, b)
  }

  /** `groups.get(label).bookings.push(booking)`. */
  function JoinGroup(groups: seq<TimeGroup>, k: int, b: Booking): (r: seq<TimeGroup>)
    requires 0 <= k < |groups|
    ensures MembersOf(r) == MembersOf(groups) + multiset{b}
  {
    var g := groups[k].(members := groups[k].members + [b]);
    MembersOfUpdate(groups, k, g);
    assert multiset(g.members) == multiset(groups[k].members) + multiset{b};
    assert MembersOf(groups[k := g]) + multiset(groups[k].members)
        == (MembersOf(groups) + multiset{b}) + multiset(groups[k].members);
    MultisetCancel(MembersOf(groups[k := g]), MembersOf(groups) + multiset{b}, multiset(groups[k].members));
    groups[k := g]
  }

  lemma MultisetCancel<T>(x: multiset<T>, y: multiset<T>, a: multiset<T>)
    requires x + a == y + a
    ensures x == y
  {
    forall o
      ensures x[o] == y[o]
    {
      assert (x + a)[o] == (y + a)[o];
    }
  }

  /** Adding a booking that starts no earlier than every grouped one keeps the
      grouping well formed. */
  lemma AddBookingKeepsWellGrouped(groups: seq<TimeGroup>, b: Booking, labelOf: (Instant, Instant) -> string)
    requires WellGrouped(groups, labelOf) && StartsBy(groups, b.startTime)
    ensures WellGrouped(AddBooking(groups, b, labelOf), labelOf)
    ensures StartsBy(AddBooking(groups, b, labelOf), b.startTime)
  {
    var k := IndexOfLabel(groups, LabelOf(b, labelOf));
    if k == -1 {
      NewGroupKeepsWellGrouped(groups, b, labelOf);
    } else {
      JoinGroupKeepsWellGrouped(groups, k, b, labelOf);
    }
  }

  /** A booking whose label has no group yet opens the last group. */
  lemma NewGroupKeepsWellGrouped(groups: seq<TimeGroup>, b: Booking, labelOf: (Instant, Instant) -> string)
    requires WellGrouped(groups, labelOf) && StartsBy(groups, b.startTime)
    requires IndexOfLabel(groups, LabelOf(b, labelOf)) == -1
    ensures var r := groups + [TimeGroup(LabelOf(b, labelOf), b.startTime, [b])];
            WellGrouped(r, labelOf) && StartsBy(r, b.startTime)
  {
    var newGroup := TimeGroup(LabelOf(b, labelOf), b.startTime, [b]);
    var r := groups + [newGroup];
    assert GroupOk(newGroup, labelOf);
    assert GroupStartsBy(newGroup, b.startTime);
    forall i | 0 <= i < |groups|
      ensures GroupStart(groups[i]) <= GroupStart(newGroup)
    {
      assert GroupOk(groups[i], labelOf) && GroupStartsBy(groups[i], b.startTime);
      assert groups[i].members[0] in groups[i].members;
    }
    forall i, j | 0 <= i < j < |r|
      ensures ByKey(GroupStart)(r[i], r[j])
    {
      if j < |groups| {
        assert ByKey(GroupStart)(groups[i], groups[j]);
      }
    }
  }

  /** A booking whose label has group `k` joins that group at its end. */
  lemma JoinGroupKeepsWellGrouped(groups: seq<TimeGroup>, k: int, b: Booking, labelOf: (Instant, Instant) -> string)
    requires WellGrouped(groups, labelOf) && StartsBy(groups, b.startTime)
    requires 0 <= k < |groups| && groups[k].text == LabelOf(b, labelOf)
    ensures WellGrouped(JoinGroup(groups, k, b), labelOf) && StartsBy(JoinGroup(groups, k, b), b.startTime)
  {
    var g := groups[k].(members := groups[k].members + [b]);
    var r := groups[k := g];
    assert JoinGroup(groups, k, b) == r;
    assert GroupOk(groups[k], labelOf) && GroupStartsBy(groups[k], b.startTime);
    AppendKeepsSorted(groups[k].members, b);
    assert g.members[0] == groups[k].members[0];
    assert GroupOk(g, labelOf);
    assert GroupStartsBy(g, b.startTime);
    forall i, j | 0 <= i < j < |r|
      ensures ByKey(GroupStart)(r[i], r[j])
    {
      assert ByKey(GroupStart)(groups[i], groups[j]);
      assert GroupStart(r[i]) == GroupStart(groups[i]) && GroupStart(r[j]) == GroupStart(groups[j]);
    }
  }

  /** Everything that starts by `t` starts by any later `u`. */
  lemma StartsByLater(groups: seq<TimeGroup>, t: Instant, u: Instant)
    requires StartsBy(groups, t) && t <= u
    ensures StartsBy(groups, u)
  {
    forall k | 0 <= k < |groups|
      ensures GroupStartsBy(groups[k], u)
    {
      assert GroupStartsBy(groups[k], t);
    }
  }

  /** A booking starting no earlier than every member may go last. */
  lemma AppendKeepsSorted(s: seq<Booking>, b: Booking)
    requires SortedBy(s, ByKey(BookingsRoute.StartOf))
    requires forall x :: x in s ==> x.startTime <= b.startTime
    ensures SortedBy(s + [b], ByKey(BookingsRoute.StartOf))
  {
    var t := s + [b];
    forall i, j | 0 <= i < j < |t|
      ensures ByKey(BookingsRoute.StartOf)(t[i], t[j])
    {
      if j < |s| {
        assert t[i] == s[i] && t[j] == s[j];
        assert ByKey(BookingsRoute.StartOf)(s[i], s[j]);
      } else {
        assert t[j] == b && t[i] == s[i];
        assert s[i] in s;
        assert BookingsRoute.StartOf(t[i]) <= BookingsRoute.StartOf(t[j]);
      }
    }
  }

  /** What the grouping loop keeps after the first `i` bookings of `sorted`. */
  ghost predicate GroupedPrefix(groups: seq<TimeGroup>, sorted: seq<Booking>, i: int, labelOf: (Instant, Instant) -> string)
  {
    && 0 <= i <= |sorted|
    && MembersOf(groups) == multiset(sorted[..i])
    && WellGrouped(groups, labelOf)
    && (i == 0 ==> groups == [])
    && (i > 0 ==> StartsBy(groups, sorted[i - 1].startTime))
  }

  /** One iteration of the grouping loop: the groups hold one more booking
      and stay well formed. */
  lemma GroupStep(groups: seq<TimeGroup>, sorted: seq<Booking>, i: int, labelOf: (Instant, Instant) -> string)
    requires SortedBy(sorted, ByKey(BookingsRoute.StartOf))
    requires GroupedPrefix(groups, sorted, i, labelOf) && i < |sorted|
    ensures GroupedPrefix(AddBooking(groups, sorted[i], labelOf), sorted, i + 1, labelOf)
  {
    var b := sorted[i];
    assert StartsBy(groups, b.startTime) by {
      if i > 0 {
        NextStartsLater(sorted, i);
        StartsByLater(groups, sorted[i - 1].startTime, b.startTime);
      }
    }
    AddBookingKeepsWellGrouped(groups, b, labelOf);
    assert multiset(sorted[..i + 1]) == multiset(sorted[..i]) + multiset{b} by {
      assert sorted[..i + 1] == sorted[..i] + [b];
    }
  }

  lemma NextStartsLater(sorted: seq<Booking>, i: int)
    requires SortedBy(sorted, ByKey(BookingsRoute.StartOf)) && 0 < i < |sorted|
    ensures sorted[i - 1].startTime <= sorted[i].startTime
  {
    assert ByKey(BookingsRoute.StartOf)(sorted[i - 1], sorted[i]);
    assert BookingsRoute.StartOf(sorted[i - 1]) <= BookingsRoute.StartOf(sorted[i]);
  }

  /** The loop of `groupedBookings` over bookings already in start order. */
  method GroupInOrder(sorted: seq<Booking>, labelOf: (Instant, Instant) -> string) returns (groups: seq<TimeGroup>)
    requires SortedBy(sorted, ByKey(BookingsRoute.StartOf))
    ensures MembersOf(groups) == multiset(sorted)
    ensures WellGrouped(groups, labelOf)
  {
    groups := [];
    var i := 0;
    while i < |sorted|
      invariant GroupedPrefix(groups, sorted, i, labelOf)
    {
      GroupStep(groups, sorted, i, labelOf);
      groups := AddBooking(groups, sorted[i], labelOf);
      i := i + 1;
    }
    assert sorted[..i] == sorted;
  }

  /** `groupedBookings`: sort by start, put each booking into the group of its
      label (creating the group at its first booking), then sort the groups by
      start. */
  method GroupBookings(bookings: seq<Booking>, labelOf: (Instant, Instant) -> string) returns (groups: seq<TimeGroup>)
    ensures MembersOf(groups) == multiset(bookings)
    ensures WellGrouped(groups, labelOf)
    ensures TotalBookings(groups) == |bookings|
    ensures PluralSuffix(TotalBookings(groups)) == "" <==> |bookings| == 1
  {
    KeyOrdersArePreorders(BookingsRoute.StartOf);
    var sorted := SortBy(bookings, ByKey(BookingsRoute.StartOf));
    groups := GroupInOrder(sorted, labelOf);
    // The groups were created in order of their first booking, so sorting them changes nothing.
    KeyOrdersArePreorders(GroupStart);
    SortSortedIsIdentity(groups, ByKey(GroupStart));
    groups := SortBy(groups, ByKey(GroupStart));
    TotalBookingsCountsMembers(groups);
  }

  /** `canCancelBooking`: the viewer owns the booking, or is admin. */
  predicate CanCancel(currentUserId: Option<Id>, booking: Booking, isAdmin: bool)
  {
    (currentUserId.Some? && currentUserId.value != "" && booking.userId == currentUserId.value) || isAdmin
  }

  /** The endpoint the cancel button calls. */
  datatype CancelEndpoint = AdminCancel(bookingId: Id) | OwnerCancel(bookingId: Id)

  function CancelEndpointFor(isAdmin: bool, bookingId: Id): (e: CancelEndpoint)
    ensures e.AdminCancel? <==> isAdmin
    ensures e.bookingId == bookingId
  {
    if isAdmin then AdminCancel(bookingId) else OwnerCancel(bookingId)
  }

  /** A signed-in non-admin may cancel only their own bookings; an admin may
      cancel every booking, through the admin endpoint. */
  lemma CancelRule(currentUserId: Option<Id>, booking: Booking, isAdmin: bool)
    ensures !isAdmin ==> (CanCancel(currentUserId, booking, isAdmin) <==>
              currentUserId.Some? && currentUserId.value != "" && booking.userId == currentUserId.value)
    ensures isAdmin ==> CanCancel(currentUserId, booking, isAdmin) && CancelEndpointFor(isAdmin, booking.id).AdminCancel?
    ensures currentUserId.None? && !isAdmin ==> !CanCancel(currentUserId, booking, isAdmin)
  {
  }

  /** The dot under a day: `(dailyCounts[key] || 0) > 0`. */
  predicate HasBookingsDot(dailyCounts: map<string, int>, key: string)
  {
    (if key in dailyCounts then dailyCounts[key] else 0) > 0
  }

  /** With the counts of the summary route, a day shows the dot exactly when
      some counted booking starts on it. */
  lemma DotIffSomeBooking(counts: map<string, nat>, fetched: seq<Booking>, dayKey: Instant -> string, key: string)
    requires forall k :: k in counts <==> CountOn(fetched, dayKey, k) > 0
    requires forall k :: k in counts ==> counts[k] == CountOn(fetched, dayKey, k)
    ensures HasBookingsDot(map k | k in counts :: counts[k] as int, key) <==>
              exists b :: b in fetched && dayKey(b.startTime) == key
  {
    CountOnPositiveIff(fetched, dayKey, key);
  }

  /** "booking" or "bookings" after the total. */
  function PluralSuffix(total: nat): (s: string)
    ensures s == "" <==> total == 1
  {
    if total == 1 then "" else "s"
  }
}
