# Boat booking — a verified model

This project models the decision rules and table updates of a small boat
reservation web application. Members of a rowing club sign in and book a boat
in 2-hour slots between 06:00 and 20:00. Boats can be restricted to user
groups. Administrators (members of the group named "Admin") manage boats,
groups, memberships and bookings.

Each source file of the application becomes one Dafny module:

- The hosted database is a `Store` class whose tables are sequences of rows
  (`Store.Store`).
- Every route handler that changes the store is a method with a `modifies`
  clause that returns an `Http` status. Each store call that can fail is a
  boolean fault parameter.
- Read-only handlers and client components are functions.
- Client pages that keep form state are classes. Their handlers return the
  request they would send, and whether the server accepted it is a
  parameter.
- Instants are integer milliseconds. Day keys (`format(…, 'yyyy-MM-dd')`),
  time-of-day labels and weekdays are given functions or data.

Shared pieces:

- `Wrappers` holds Option and Result.
- `Seqs` holds filtering, substring search, ASCII lower-casing and `trim`.
- `Ordering` is a stable sort by a total preorder, standing for `.order(...)`
  and `Array.prototype.sort`.
- `Model` holds the row types and the HTTP statuses.
- `Selection` is the checkbox toggle shared by three admin pages.
- `DateStrip` is the weekend-boxing date strip, shared by the calendar and
  the daily bookings page.

Behaviour of the code as written that the model keeps:

- The booking route's conflict filter matches any confirmed booking of the
  boat that starts before it ends. See "## Findings".
- A conflict query that fails is read as "no conflicts", so the booking is
  admitted.
- The calendar's "Book Full Day" button asks for a 14-hour range, which the
  route's exact-2-hour check refuses with 400 (`FullDayRequestFailsDurationCheck`).
- In the boat list, a stored `boatType` is used unchecked. A stored "all"
  raises the "all" count above the number of boats. Any other unknown type
  adds an entry whose value is NaN (`BoatFilter.Tally`).
- The middleware records `lastLogin` even for a user it then signs out.
- The admin group is protected case-insensitively ("admin", "ADMIN").
  Administrator rights need the exact name "Admin".
- The groups list shows "0 users" and "0 boats" for every group, because its
  query carries no counts. See "## Findings".
- Instants are unbounded integers, but a JavaScript `Date` is not. The two
  daily routes answer 400 for a start date outside plus or minus 8.64e15 ms.
  They answer 500 when the window ends past that range, where `toISOString`
  throws (`Model.InDateRange`).

## Model

| member | source | states |
|---|---|---|
| Model.BoatGroupIds | src/app/api/bookings/route.ts:53 | a group id is listed for a boat exactly when a BoatGroup row links the two |
| Model.UserGroupIds | src/app/api/bookings/route.ts:52 | a group id is listed for a user exactly when a UserGroup row links the two |
| Ordering.SortBy | src/app/api/admin/bookings/route.ts:18 | the ordered result is a permutation of the rows and is sorted by the given order |
| Ordering.SortSortedIsIdentity | src/app/daily-bookings/page.tsx:170-172 | sorting rows that are already in order leaves them exactly as they were (the sort is stable) |
| Seqs.IsBlankIff | src/app/admin/groups/page.tsx:108 | `!name.trim()` holds exactly when the name is empty or all white space |
| BookingsRoute.FindBookableBoat | src/app/api/bookings/route.ts:35-44 | a boat found is in the table, has the requested id and is active; if an active row with that id exists but none is returned, the id matched several rows (`.single()`) |
| BookingsRoute.SomeSharedIff | src/app/api/bookings/route.ts:57 | `boatGroupIds.some(id => userGroupIds.includes(id))` holds exactly when some id is in both lists |
| BookingsRoute.HasAccessIff | src/app/api/bookings/route.ts:52-57 | access is granted exactly when the boat's group set is empty or meets the user's group set |
| BookingsRoute.RouteConflictCoversOverlap | src/app/api/bookings/route.ts:67-79 | every booking that overlaps the request as a half-open range is matched by the conflict filter as written |
| BookingsRoute.RouteConflictMatchesProperBooking | src/app/api/bookings/route.ts:72 | the filter as written matches every booking whose start precedes its end, whatever range is requested |
| BookingsRoute.NoConflictRowsMeansNoProperBooking | src/app/api/bookings/route.ts:67-79 | an empty conflict answer means the boat has no confirmed booking whose start precedes its end |
| BookingsRoute.AppendKeepsNoDoubleBooking | src/app/api/bookings/route.ts:82-92 | inserting a booking that overlaps no confirmed booking of its boat keeps every boat free of overlapping confirmed bookings |
| BookingsRoute.RouteAdmissionKeepsNoDoubleBooking | src/app/api/bookings/route.ts:67-92 | a booking admitted after an empty conflict answer cannot double-book its boat |
| BookingsRoute.RouteRefusesAbuttingSlot | src/app/api/bookings/route.ts:72-79 | with [10:00, 12:00) confirmed, the request [12:00, 14:00) does not overlap it, yet the conflict query returns that booking |
| BookingsRoute.OverlapRows | src/app/api/bookings/route.ts:72 | corrected query: a row is returned exactly when it is a confirmed booking of the boat that overlaps the range as a half-open interval |
| BookingsRoute.OverlapAdmissionKeepsNoDoubleBooking | src/app/api/bookings/route.ts:67-92 | with the corrected query, every admitted booking keeps the schedule free of double bookings |
| BookingsRoute.OverlapAdmitsAbuttingSlot | src/app/api/bookings/route.ts:72-79 | with the corrected query, the slot that only touches [10:00, 12:00) finds no conflict |
| BookingsRoute.Post | src/app/api/bookings/route.ts:4-110 | the statuses come in the source's order: 401 without a user; 400 for a missing field or a duration other than 7 200 000 ms; 404 when no single active boat is found; 403 exactly when the access gate fails; 409 exactly when the conflict query returns rows; 500 on a failed insert. Every refusal leaves the store unchanged. 201 appends exactly one CONFIRMED row with the caller, boat and times. A schedule free of double bookings stays so whenever the conflict query succeeds |
| BookingsRoute.Get | src/app/api/bookings/route.ts:112-147 | 401 without a user, 500 on a query error; otherwise exactly the caller's CONFIRMED bookings whose end is not before now, ascending by start |
| BookingCalendar.DayBounds | src/components/BookingCalendar.tsx:71-76 | the full day is 14 hours long and runs from the start of the first slot to the end of the last |
| BookingCalendar.GenerateTimeSlots | src/components/BookingCalendar.tsx:56-67 | seven slots, the k-th starting at 06:00 + 2k hours; each lasts 2 hours, each ends where the next begins, and together they span the day bounds |
| BookingCalendar.SlotsTileDay | src/components/BookingCalendar.tsx:56-76 | every instant of [06:00, 20:00) lies in exactly one slot, and no instant outside it lies in any slot |
| BookingCalendar.IsRangeBookedIff | src/components/BookingCalendar.tsx:78-90 | a range is booked exactly when some passed booking overlaps it as a half-open interval |
| BookingCalendar.AbuttingRangeIsFree | src/components/BookingCalendar.tsx:78-90 | a range that only touches a booking's start or end is not booked, and nothing is booked in an empty list |
| BookingCalendar.SubRangeOfFreeRangeIsFree | src/components/BookingCalendar.tsx:78-93 | a range inside a free range is free |
| BookingCalendar.FreeDayHasFreeSlots | src/components/BookingCalendar.tsx:172-175 | when the full day is not booked, no slot of it is booked |
| BookingCalendar.GetExactUserBooking | src/components/BookingCalendar.tsx:104-114 | a booking is returned only if it belongs to the viewer and its start and end equal the range's; none is returned exactly when no passed booking does |
| BookingCalendar.ExactUserBookingIsFirst | src/components/BookingCalendar.tsx:104-114 | `find` returns the first such booking: no earlier one matches |
| BookingCalendar.ViewSlot | src/components/BookingCalendar.tsx:330-385 | Cancel replaces Book exactly when the viewer owns the exact booking, and is disabled only while a request is in flight; Book is disabled exactly when the slot is booked, past or a request is in flight; the label follows "Your booking" > "Already booked" > "Past slot" > "Available" |
| BookingCalendar.AvailableSlotIsBookable | src/components/BookingCalendar.tsx:359-385 | a slot labelled "Available" offers Book, enabled unless a request is in flight |
| BookingCalendar.OwnBookingBooksSlot | src/components/BookingCalendar.tsx:359-366 | the viewer's own booking of a slot also makes the slot booked, so "Your booking" must be tested before "Already booked" |
| BookingCalendar.ViewFullDay | src/components/BookingCalendar.tsx:295-322 | the full-day panel offers Cancel exactly when the viewer holds exactly the day; otherwise Book, disabled exactly when the day is booked, past or a request is in flight, with the "already booked" note before the "future dates" note |
| BookingCalendar.FullDayRequestFailsDurationCheck | src/components/BookingCalendar.tsx:305 | the full-day request fails the booking route's exact-2-hour check |
| BookingCalendar.SlotPassesDurationCheck | src/components/BookingCalendar.tsx:60-63 | every generated slot passes the booking route's duration check |
| DateStrip.NextDays | src/components/BookingCalendar.tsx:171 | 28 days, starting now and one day apart |
| DateStrip.BuildStrip | src/components/BookingCalendar.tsx:239-274 | each day is shown exactly once and in order; weekdays are plain buttons; weekend days are boxed; a Saturday directly followed by a Sunday shares one box (the same loop is src/app/daily-bookings/page.tsx:260-295) |
| BoatsPage.Render | src/app/boats/page.tsx:8-41 | a visitor without a session is redirected; the admin link is shown exactly when the user is an administrator; the listing is the accessible active boats for the caller's groups (no groups when the membership query fails), and empty when the boat query fails |
| BoatsPage.RenderedListingIff | src/app/boats/page.tsx:26-41 | on the rendered page a boat is shown exactly when it is active and unrestricted or shares a group with the caller |
| BoatsPage.ListedIff | src/app/boats/page.tsx:32-41 | a boat is listed exactly when it is active and its group set is empty or meets the user's |
| BoatsPage.ListingIsSubsequence | src/app/boats/page.tsx:38-41 | the listing keeps the order of the active boats and only drops some of them |
| BoatsPage.UserWithoutGroupsSeesOpenBoats | src/app/boats/page.tsx:26-40 | a user with no groups sees exactly the active boats without groups |
| BoatsPage.ListedIffRouteGrantsAccess | src/app/boats/page.tsx:40 | for a boat the booking route finds, its access check passes exactly when the page lists the boat |
| AdminLib.GroupName | src/lib/admin.ts:12 | the joined group name exists exactly when a group with that id exists, and it is that group's name |
| AdminLib.MembershipRows | src/lib/admin.ts:10-13 | one row per membership of the user, and a name appears exactly when the user belongs to a group of that name |
| AdminLib.SomeAdminRowIff | src/lib/admin.ts:19 | `some(ug => ug.group?.name === 'Admin')` holds exactly when one row names "Admin" |
| AdminLib.IsAdminIff | src/lib/admin.ts:15-19 | a failed query is never admin; otherwise admin exactly when a row names "Admin"; no memberships, or only a group named "admin", is not admin |
| AdminLib.IsAdminInStoreIff | src/lib/admin.ts:7-20 | against the store, a user is admin exactly when one of their memberships links a group named exactly "Admin" |
| AdminLib.RequireAdmin | src/lib/admin.ts:26-41 | the user is returned exactly when signed in and admin; no user gives "Unauthorized - please sign in"; a signed-in non-admin gives "Forbidden - admin access required" |
| AdminLib.RequireAdminStatus | src/app/api/admin/bookings/route.ts:29-34 | the admin routes' catch answers 401 when nobody is signed in and 403 for a signed-in non-admin |
| AdminBookingsRoute.Get | src/app/api/admin/bookings/route.ts:6-36 | 401, 403 or 500 with no rows; otherwise every booking of any status, latest start first |
| AdminBookingsRoute.CancelById | src/app/api/admin/bookings/route.ts:53-56 | the rows with the id become CANCELLED; no other row and no other field changes |
| AdminBookingsRoute.CancelIsIdempotent | src/app/api/admin/bookings/route.ts:53-66 | cancelling twice is cancelling once |
| AdminBookingsRoute.CancelUnknownIdChangesNothing | src/app/api/admin/bookings/route.ts:53-66 | cancelling an id no row carries leaves the table as it was |
| AdminBookingsRoute.CancelKeepsNoDoubleBooking | src/app/api/admin/bookings/route.ts:53-56 | cancelling can never create a double booking |
| AdminBookingsRoute.Delete | src/app/api/admin/bookings/route.ts:39-74 | 401 or 403 from the gate, 400 without an id, 500 on a failed update, and each of these leaves the bookings unchanged; 200 cancels exactly the rows with that id |
| AdminUsersRoute.Get | src/app/api/admin/users/route.ts:6-37 | 401, 403 or 500 with no rows; otherwise every user, newest first |
| AdminUsersRoute.MembershipsOf | src/app/api/admin/users/route.ts:61-64 | one row for each given group id, in order, all for that user |
| AdminUsersRoute.WithoutUserIds | src/app/api/admin/users/route.ts:53-57 | after the delete the user has no groups, and every other user keeps theirs in order |
| AdminUsersRoute.MembershipsOfIds | src/app/api/admin/users/route.ts:59-68 | the inserted rows give the user exactly the given ids and nobody else anything |
| AdminUsersRoute.ReplaceMembershipsIds | src/app/api/admin/users/route.ts:53-77 | after the replacement the user's groups are exactly `groupIds` (none when it is empty), and every other user's groups are unchanged |
| AdminUsersRoute.Post | src/app/api/admin/users/route.ts:40-87 | 401 or 403 from the gate, or 400 for a missing user id or non-array `groupIds`, all with memberships unchanged; 200 replaces the user's groups; a failed insert answers 500 after the delete has already removed the user's groups |
| AdminBoatsRoute.ByNameIsPreorder | src/app/api/admin/boats/route.ts:19 | ordering by name is a total preorder, so the ordered listing is well defined |
| AdminBoatsRoute.Get | src/app/api/admin/boats/route.ts:6-37 | 401, 403 or 500 with no rows; otherwise every boat, ascending by name |
| AdminBoatsRoute.ApplyUpdate | src/app/api/admin/boats/route.ts:54-63 | each field sent overwrites the column and an absent one keeps it; `isActive` becomes true when absent; id and boat type never change |
| AdminBoatsRoute.UpdateBoats | src/app/api/admin/boats/route.ts:54-63 | only the rows with the boat's id are updated; the others stay as they were |
| AdminBoatsRoute.FullUpdateForgetsOldValues | src/app/api/admin/boats/route.ts:54-63 | an update carrying every field gives the same row whatever the row held before |
| AdminBoatsRoute.BoatGroupsOf | src/app/api/admin/boats/route.ts:83-86 | one row for each given group id, in order, all for that boat |
| AdminBoatsRoute.WithoutBoatIds | src/app/api/admin/boats/route.ts:76-79 | after the delete the boat has no groups, and every other boat keeps its groups in order |
| AdminBoatsRoute.BoatGroupsOfIds | src/app/api/admin/boats/route.ts:81-90 | the inserted rows give the boat exactly the given ids and no other boat anything |
| AdminBoatsRoute.ReplaceBoatGroupsIds | src/app/api/admin/boats/route.ts:74-100 | after the replacement the boat's groups are exactly `groupIds`, and every other boat's groups are unchanged |
| AdminBoatsRoute.Post | src/app/api/admin/boats/route.ts:40-110 | 401, 403 or 400 (no boat id) change nothing; a failed update answers 500 before any BoatGroup row is touched; otherwise the boat rows are updated, an array `groupIds` replaces the boat's groups and no array leaves them alone, and a failed insert answers 500 after the delete, leaving the boat's groups removed, or, when the delete itself failed, removing nothing; other boats' groups are never touched |
| AdminBoatsRoute.OrNull | src/app/api/admin/boats/route.ts:130-132 | `value \|\| null` is null exactly for an absent or empty string, and keeps any other value |
| AdminBoatsRoute.CreatedBoat | src/app/api/admin/boats/route.ts:126-136 | the new row has the given name, null for an empty description or image, capacity 1 when it is absent or 0 (never 0), `isActive` true when absent, and no boat type |
| AdminBoatsRoute.Put | src/app/api/admin/boats/route.ts:113-170 | 401, 403, 400 (no name) and 500 (failed insert) create nothing; 200 appends exactly the created row and returns it, adds one BoatGroup row per given id, and still succeeds when the group insert fails |
| AdminBoatsRoute.CreatedBoatGroups | src/app/api/admin/boats/route.ts:147-155 | for a fresh boat id, the boat's groups after `PUT` are exactly the given ids |
| DailyRoute.Get | src/app/api/bookings/daily/route.ts:5-54 | 401 without a user; 400 for a missing or unparsable date, or a day outside the `Date` range; 500 when the day's end is past the `Date` range (`toISOString` throws) or the query fails; otherwise exactly the CONFIRMED bookings starting in [day start, day start + 1 day), ascending by start |
| DailyRoute.StartBeforeDayIsExcluded | src/app/api/bookings/daily/route.ts:33-35 | a booking that starts before the day and runs into it is not listed |
| DailySummaryRoute.CountOnPositiveIff | src/app/api/bookings/daily-summary/route.ts:49-53 | a day's count is positive exactly when some fetched booking starts on that day |
| DailySummaryRoute.CountByDay | src/app/api/bookings/daily-summary/route.ts:49-53 | a day key is present exactly when some booking starts on it, and its value is the number of bookings starting on it |
| DailySummaryRoute.SumCountsIsFilter | src/app/api/bookings/daily-summary/route.ts:49-53 | summed over distinct keys, the counts equal the number of bookings whose day is one of those keys |
| DailySummaryRoute.CountsSumToTotal | src/app/api/bookings/daily-summary/route.ts:49-53 | summed over all the days present, the counts add up to the number of bookings fetched |
| DailySummaryRoute.Get | src/app/api/bookings/daily-summary/route.ts:5-63 | 401 without a user; 400 for a missing start or days, an unparsable or out-of-range start, or days that are not finite or not positive; 500 when the window's end is past the `Date` range (`toISOString` throws) or the query fails; otherwise the per-day counts of the CONFIRMED bookings starting in the window |
| DailySummaryRoute.OnlyWindowIsCounted | src/app/api/bookings/daily-summary/route.ts:34-39 | a booking that is not a CONFIRMED booking starting inside the window is not fetched |
| DailyBookingsPage.TotalBookingsCountsMembers | src/app/daily-bookings/page.tsx:175-178 | `totalBookings` is the number of bookings across all groups |
| DailyBookingsPage.ExactlyOneGroup | src/app/daily-bookings/page.tsx:149-173 | in a well-formed grouping every grouped booking lies in exactly one group |
| DailyBookingsPage.IndexOfLabel | src/app/daily-bookings/page.tsx:163 | the group with that label, or -1 exactly when no group carries it |
| DailyBookingsPage.AddBooking | src/app/daily-bookings/page.tsx:158-168 | one step adds exactly the booking to the groups' contents |
| DailyBookingsPage.JoinGroup | src/app/daily-bookings/page.tsx:166 | pushing into an existing group adds exactly that booking |
| DailyBookingsPage.AddBookingKeepsWellGrouped | src/app/daily-bookings/page.tsx:158-168 | adding a booking that starts no earlier than every grouped one keeps the groups well formed: non-empty, one label per group, members and groups ascending by start |
| DailyBookingsPage.GroupInOrder | src/app/daily-bookings/page.tsx:156-168 | over bookings in start order, the loop builds well-formed groups holding exactly those bookings |
| DailyBookingsPage.GroupBookings | src/app/daily-bookings/page.tsx:149-173 | `groupedBookings` holds exactly the day's bookings; each group shares one label and is ascending by start; the groups are ascending by start; the total equals the number of bookings, so the header reads "1 booking" exactly when one booking was fetched |
| DailyBookingsPage.CancelEndpointFor | src/app/daily-bookings/page.tsx:126-128 | the admin endpoint is used exactly when the viewer is an administrator, always for the chosen booking |
| DailyBookingsPage.CancelRule | src/app/daily-bookings/page.tsx:146-147 | a non-admin may cancel exactly their own bookings (nothing when signed out); an admin may cancel every booking, through the admin endpoint |
| DailyBookingsPage.DotIffSomeBooking | src/app/daily-bookings/page.tsx:246-254 | with the summary route's counts, a day shows the dot exactly when some counted booking starts on it |
| DailyBookingsPage.PluralSuffix | src/app/daily-bookings/page.tsx:211-214 | "booking" has no plural suffix exactly when the total is 1 |
| AdminBookingsPage.FilteredBookings | src/app/admin/bookings/page.tsx:74-84 | each view keeps the order and exactly the bookings it shows (upcoming: start not before now and CONFIRMED; past: start before now or CANCELLED); "all" is the list itself |
| AdminBookingsPage.UpcomingXorPast | src/app/admin/bookings/page.tsx:78-81 | every booking is upcoming or past, never both |
| AdminBookingsPage.ViewsPartition | src/app/admin/bookings/page.tsx:78-81 | the upcoming and past views split the list between them |
| AdminBookingsPage.Counts | src/app/admin/bookings/page.tsx:128-164 | each button's count is the length of its view, and the upcoming and past counts add up to the total |
| AdminBookingsPage.ViewRow | src/app/admin/bookings/page.tsx:203-243 | a row is shaded exactly when its start has passed; Cancel is offered exactly for a CONFIRMED booking, and is disabled and relabelled "Cancelling..." exactly while that booking is being cancelled |
| AdminBookingsPage.RowsOfViews | src/app/admin/bookings/page.tsx:204-243 | upcoming rows are unshaded and cancellable; a confirmed booking that has started is past, shaded and still cancellable; a cancelled booking is past and offers no Cancel |
| Selection.Toggle | src/app/admin/groups/page.tsx:205-211 | the toggled id becomes selected exactly when it was not; every other id keeps its state; an unselected id is appended at the end |
| Selection.ToggleKeepsOthersInOrder | src/app/admin/boats/page.tsx:154-160 | apart from the toggled id, the selection is the same list in the same order |
| Selection.ToggleTwiceRestoresMembership | src/app/admin/users/page.tsx:90-96 | toggling the same id twice restores which ids are selected |
| Selection.ToggleTwiceOnUnselected | src/app/admin/groups/page.tsx:213-219 | toggling an unselected id twice gives back the very same list |
| Selection.ToggleKeepsNoDuplicates | src/app/admin/groups/page.tsx:205-219 | toggling keeps a selection free of duplicates |
| Selection.IdsOf | src/app/admin/groups/page.tsx:221-223 | the selection lists the rows' ids, one per row, in list order |
| Selection.IdsOfDistinctRows | src/app/admin/groups/page.tsx:229-231 | rows with distinct ids give a duplicate-free selection |
| AdminGroupsPage.FirstCount | src/app/admin/groups/page.tsx:237-243 | `?.[0]?.count \|\| 0`: an absent or empty aggregate shows 0, otherwise its first count |
| AdminGroupsPage.ListedCountsAreZero | src/app/api/admin/groups/route.ts:11-14 | as written, the list route's rows carry no aggregate, so every group shows "0 users" and "0 boats" |
| AdminGroupsPage.ListedCountIgnoresRows | src/app/admin/groups/page.tsx:237-243 | a group with one UserGroup row and one BoatGroup row is still listed with 0 users and 0 boats |
| AdminGroupsPage.AggregateCountsShowRows | src/app/admin/groups/page.tsx:237-243 | with the counts embedded in the list query, each row shows the group's numbers of UserGroup and BoatGroup rows, positive exactly when some row links the group |
| AdminGroupsPage.ProtectionIgnoresCase | src/app/admin/groups/page.tsx:290 | "Admin", "admin" and "ADMIN" are protected from deletion and renaming but "Admins" is not; membership in "admin" does not confer admin rights, while membership in "Admin" does |
| AdminGroupsPage.GroupsPage.constructor | src/app/admin/groups/page.tsx:32-40 | the page starts with no form open, an empty name and empty selections |
| AdminGroupsPage.GroupsPage.CreateGroup | src/app/admin/groups/page.tsx:90-95 | opens the create form with an empty name and no users or boats selected |
| AdminGroupsPage.GroupsPage.EditGroup | src/app/admin/groups/page.tsx:97-105 | when the details arrive, the form holds the group's name and its users' and boats' ids in order; when they do not, nothing changes |
| AdminGroupsPage.GroupsPage.TypeCreateName | src/app/admin/groups/page.tsx:362-376 | while the create form is open, the typed text becomes the name; nothing else changes |
| AdminGroupsPage.GroupsPage.TypeEditName | src/app/admin/groups/page.tsx:519-536 | while a group is edited, the typed text becomes the name unless the group's name is "admin" in any case, whose field is disabled and keeps the name |
| AdminGroupsPage.GroupsPage.ToggleUser | src/app/admin/groups/page.tsx:205-211 | only the user selection changes, by `Toggle` |
| AdminGroupsPage.GroupsPage.ToggleBoat | src/app/admin/groups/page.tsx:213-219 | only the boat selection changes, by `Toggle` |
| AdminGroupsPage.GroupsPage.SelectAllUsers | src/app/admin/groups/page.tsx:221-223 | every loaded user is selected, in list order; nothing else changes |
| AdminGroupsPage.GroupsPage.DeselectAllUsers | src/app/admin/groups/page.tsx:225-227 | no user is selected; nothing else changes |
| AdminGroupsPage.GroupsPage.SelectAllBoats | src/app/admin/groups/page.tsx:229-231 | every loaded boat is selected, in list order; nothing else changes |
| AdminGroupsPage.GroupsPage.DeselectAllBoats | src/app/admin/groups/page.tsx:233-235 | no boat is selected; nothing else changes |
| AdminGroupsPage.GroupsPage.CreateSubmit | src/app/admin/groups/page.tsx:107-141 | a request is sent exactly when the name is not blank, carrying the name and both selections; on success the form closes and resets; otherwise nothing changes |
| AdminGroupsPage.GroupsPage.SaveGroup | src/app/admin/groups/page.tsx:143-178 | a request is sent exactly when a group is being edited and the name is not blank, carrying the group's id, name and selections; on success the form closes and resets |
| AdminGroupsPage.GroupsPage.CancelCreate | src/app/admin/groups/page.tsx:494-500 | closes the create form and resets the name and selections |
| AdminGroupsPage.GroupsPage.CancelEdit | src/app/admin/groups/page.tsx:659-663 | closes the edit form and resets the name and selections |
| AdminBoatsPage.FormOf | src/app/admin/boats/page.tsx:68-74 | the form holds the boat's name, capacity and state, with a null description or image shown as "" |
| AdminBoatsPage.SaveUnchangedForm | src/app/admin/boats/page.tsx:90-103 | saving an opened boat unchanged keeps its name, capacity, state and groups, and only turns a null description or image into "" |
| AdminBoatsPage.CapacityInput | src/app/admin/boats/page.tsx:398 | `parseInt(value) \|\| 1` is never 0: NaN and 0 become 1, and every other number, negative ones included, is kept |
| AdminBoatsPage.CreateRequestRoundTrip | src/app/admin/boats/page.tsx:129-135 | a created boat keeps the form's name, capacity and state; an empty description or image is stored as null; editing the new boat shows the very form it was created from |
| AdminBoatsPage.ActiveBoatCountBounds | src/app/admin/boats/page.tsx:173 | the active count is at most the number of boats, and equal to it exactly when every boat is active |
| AdminBoatsPage.CapacityUnit | src/app/admin/boats/page.tsx:227 | "person" exactly for capacity 1, "people" otherwise |
| AdminBoatsPage.CapacityUnitAgreesWithList | src/app/admin/boats/page.tsx:227 | the admin list reads "person" exactly when the boat list's seat rule files the capacity under "single", and for a boat typed by its seats exactly when the boat list shows it under "single" |
| AdminBoatsPage.AccessGroupsText | src/app/admin/boats/page.tsx:233-244 | "All users" for a boat without groups, otherwise the groups' names in order |
| AdminBoatsPage.AllUsersMeansOpen | src/app/admin/boats/page.tsx:233-244 | an active boat shown as "All users" is listed to every user on the boats page |
| AdminBoatsPage.BoatsAdminPage.constructor | src/app/admin/boats/page.tsx:27-37 | the page starts with no form open, the empty form and no groups selected |
| AdminBoatsPage.BoatsAdminPage.EditBoat | src/app/admin/boats/page.tsx:66-76 | the form holds the boat, and the selection holds its group ids in order |
| AdminBoatsPage.BoatsAdminPage.CreateBoat | src/app/admin/boats/page.tsx:78-88 | opens the create form with capacity 1, active, empty strings and no groups |
| AdminBoatsPage.BoatsAdminPage.SetCapacity | src/app/admin/boats/page.tsx:397-399 | only the form's capacity changes, to the parsed input |
| AdminBoatsPage.BoatsAdminPage.ToggleGroup | src/app/admin/boats/page.tsx:154-160 | only the selection changes, by `Toggle` |
| AdminBoatsPage.BoatsAdminPage.SaveBoat | src/app/admin/boats/page.tsx:90-119 | a request is sent exactly when a boat is being edited, carrying its id, the form and the selection; on success the form closes and resets; otherwise nothing changes |
| AdminBoatsPage.BoatsAdminPage.CreateSubmit | src/app/admin/boats/page.tsx:121-152 | a request is sent exactly when the name is not blank; on success the create form closes and resets; otherwise nothing changes |
| AdminBoatsPage.BoatsAdminPage.CancelEdit | src/app/admin/boats/page.tsx:469-472 | closes the edit form and resets the form and selection |
| AdminBoatsPage.BoatsAdminPage.CancelCreate | src/app/admin/boats/page.tsx:583-586 | closes the create form and resets the form and selection |
| AdminUsersPage.SaveUnchangedKeepsMemberships | src/app/admin/users/page.tsx:56-72 | saving a user's dialog as opened keeps their groups and every other user's |
| AdminUsersPage.SaveAfterToggleAddsGroup | src/app/admin/users/page.tsx:90-96 | ticking one more group and saving adds exactly that group after the user's existing ones |
| AdminUsersPage.UsersPage.constructor | src/app/admin/users/page.tsx:25-26 | no user is being edited and nothing is selected |
| AdminUsersPage.UsersPage.EditUser | src/app/admin/users/page.tsx:56-59 | the dialog opens for the user with their group ids selected, in order |
| AdminUsersPage.UsersPage.ToggleGroup | src/app/admin/users/page.tsx:90-96 | the toggled group becomes selected exactly when it was not; the edited user stays |
| AdminUsersPage.UsersPage.SaveGroups | src/app/admin/users/page.tsx:61-88 | a request is sent exactly when a user is being edited, carrying the user's id and the selection; on success the dialog closes and the selection empties; otherwise nothing changes |
| AdminUsersPage.UsersPage.Cancel | src/app/admin/users/page.tsx:209-212 | closes the dialog and empties the selection |
| BoatFilter.SavedFilter | src/components/BoatFilter.tsx:19-23 | a stored value is adopted exactly when it is one of the seven filter names |
| BoatFilter.ClickSurvivesReload | src/components/BoatFilter.tsx:18-31 | the value a click stores is the one the next mount restores |
| BoatFilter.DisplayedCount | src/components/BoatFilter.tsx:46-66 | a count is shown exactly when the table has a numeric entry above 0; a missing table, a missing entry or NaN shows nothing |
| BoatFilter.FilterBar.ExactlyOneSelected | src/components/BoatFilter.tsx:33-47 | exactly one of the seven distinct buttons matches the selection |
| BoatFilter.FilterBar.constructor | src/components/BoatFilter.tsx:15 | the selection starts at "all" |
| BoatFilter.FilterBar.Mount | src/components/BoatFilter.tsx:18-25 | a valid stored choice is adopted and reported; otherwise the selection stays and nothing is reported |
| BoatFilter.FilterBar.Click | src/components/BoatFilter.tsx:27-31 | the clicked filter is selected, stored under "boat-filter-selection" and reported |
| BoatsList.RecreationalNameIff | src/components/BoatsList.tsx:30 | the "xR " test adds nothing: a name is recreational exactly when it contains "R " or, lower-cased, "recreational" |
| BoatsList.CapacityType | src/components/BoatsList.tsx:36-50 | 1 seat is single, 2 double, 4 or 5 four, 9 eight, and anything else (the 8-seat launches included) other |
| BoatsList.BoatType | src/components/BoatsList.tsx:23-51 | a non-empty stored type is used unchanged; otherwise the type is recreational exactly for a recreational name, and by capacity for the rest |
| BoatsList.InitialCounts | src/components/BoatsList.tsx:58-66 | the table starts with exactly the seven filter names as keys |
| BoatsList.Increment | src/components/BoatsList.tsx:70 | `counts[type]++` adds one to a numeric entry and leaves NaN for a missing or NaN entry; other keys are untouched |
| BoatsList.IncrementKeepsEntry | src/components/BoatsList.tsx:68-71 | counting one more boat keeps every entry of the table right |
| BoatsList.CountBoats | src/components/BoatsList.tsx:57-74 | "all" is the number of boats plus the boats stored as "all"; each type filter counts the boats of that type; any other stored type has a NaN entry exactly when some boat carries it |
| BoatsList.KnownTypesCountEveryBoat | src/components/BoatsList.tsx:57-74 | when every type is one of the six, the six counts add up to the number of boats and no other type is counted |
| BoatsList.FilteredBoats | src/components/BoatsList.tsx:77-83 | "all" shows the list itself; any other filter shows exactly the boats of that type, in order |
| BoatsList.CountMatchesList | src/components/BoatsList.tsx:57-83 | a type button's count is the number of boats that selecting it shows, and the empty message appears exactly when no count is shown |
| BoatsList.AllCountMatchesList | src/components/BoatsList.tsx:57-83 | when every type is one of the six, the "all" count is the number of listed boats and the table has exactly the seven keys |
| BoatsList.BoatList.constructor | src/components/BoatsList.tsx:54 | the list starts with the "all" filter |
| BoatsList.BoatList.OnFilterChange | src/components/BoatsList.tsx:87 | the filter reported by the bar becomes the selection |
| Middleware.FindUser | src/middleware.ts:42-46 | a row is found exactly when one row has the id, and it is that row |
| Middleware.SetLastLogin | src/middleware.ts:50-53 | the rows with the id get the new `lastLogin` and every other row is unchanged |
| Middleware.SetLastLoginKeepsMatches | src/middleware.ts:50-53 | the update keeps the number of rows with any given id |
| Middleware.SetLastLoginKeepsDecision | src/middleware.ts:41-62 | recording the login never changes whether the user is found or active, so the next request meets the same decision |
| Middleware.Decide | src/middleware.ts:57-62 | sign-out with a redirect to "/auth/signin" and error "account_disabled" exactly when the row exists and is inactive |
| Middleware.Handle | src/middleware.ts:38-65 | without a user the request passes and the User table is untouched; otherwise the answer is the decision for the row, and a found row, inactive ones included, gets `lastLogin` set to now unless the update fails |

## Left out

- The `email.ts` module is not part of this model. It calls an external mail service and formats dates with the locale.
- Everything the pages render beyond the modelled decisions is not modelled: markup, toasts, `alert`, `confirm`, `router.refresh` and the calendar's scroll-and-highlight effect.
- The `saving`, `loading`, `deleting` and `isBooking` flags are not modelled as state. `isBooking` enters the button rules only as a parameter.
- The data reloads that follow a successful save (`loadData`, `loadBookings`, `loadDailySummary`) are left out. So are the page loaders and the `fetch` calls themselves. A handler returns the request it would send.
- The cookie adapter of the middleware (src/middleware.ts:11-35) and its matcher pattern (src/middleware.ts:77) are I/O plumbing and are left out. So are the store's query builder and JSON (de)serialisation.
- Local time is not modelled: no time zone and no daylight-saving shifts. A day is 86 400 000 ms. Day keys, time-of-day labels and weekdays are given functions or data.
- The current instant is a parameter, and so is whether each store call fails.
- `toLowerCase` and `trim` are modelled for ASCII letters and the common white-space characters only.
- Request bodies are modelled in the shapes that reach the checks: a falsy id is "", and a non-array `groupIds` is None. Numbers other than whole integers (fractional capacities or `days`, NaN beyond the modelled cases) are not modelled.
- Concurrency is not modelled. The conflict check followed by the insert, and the delete-then-insert replacements, run sequentially in the model and are not atomic in the application.
- The owner's cancel route (src/app/api/bookings/[id]/route.ts), the admin groups routes and the admin status route are not part of this model, except for the columns the groups list selects (src/app/api/admin/groups/route.ts:11-14). That list's order by name is not modelled: `ListedGroups` keeps the order of the rows it is given. The daily page's cancel rule names the endpoint it calls but not that endpoint's behaviour.
- The sign-in flow, the navigation and layout components, and the admin dashboard's statistics are not part of this model.
- DailySummaryRoute.Get: `days` is a whole number; `addDays` with a fractional `days` is not modelled.
- AdminBoatsRoute.Get and the other name orderings: `.order('name')` is modelled as ordering by character code (a byte-wise collation). Under a locale collation such as en_US, "apple" sorts before "Banana", which the model's ordering does not allow.
- The admin groups page sends its create (POST), save (PUT) and delete (DELETE) requests to `/api/admin/groups` (src/app/admin/groups/page.tsx:115-116, 151-152, 187-188). The route file there (src/app/api/admin/groups/route.ts:6) exports only GET, so as written these requests would get 405 and the page would report a failure. The model leaves the server's answer as the `accepted` parameter and does not capture this outcome.
- Middleware.Handle: `.single()` on the User table is modelled as "exactly one row with the id". A duplicated id is therefore treated as a missing row.

## Findings

| source | as written | input that shows it | evidently intended | confidence | as-written member | corrected member |
|---|---|---|---|---|---|---|
| src/app/api/bookings/route.ts:72 | the conflict query matches a confirmed booking of the boat when `startTime <= start OR endTime > start OR startTime < end OR endTime >= end`, which holds for every booking whose start precedes its end | confirmed booking [10:00, 12:00) of a boat; request for [12:00, 14:00) of the same boat is answered 409 | a booking conflicts when it overlaps the request as a half-open range (`startTime < end AND endTime > start`), the test the calendar uses | not executed | BookingsRoute.RouteRefusesAbuttingSlot | BookingsRoute.OverlapAdmissionKeepsNoDoubleBooking |
| src/app/api/admin/groups/route.ts:11-14 | the groups list selects only `*` from Group, so no row carries the `boatGroups` or `userGroups` aggregate that `getBoatCount` and `getUserCount` (src/app/admin/groups/page.tsx:237-243) read | a group with one member and one boat is listed as "0 users" and "0 boats" | the list query embeds the counts (`select('*, boatGroups(count), userGroups(count)')`), and each row shows the group's numbers of association rows | not executed | AdminGroupsPage.ListedCountIgnoresRows | AdminGroupsPage.AggregateCountsShowRows |
