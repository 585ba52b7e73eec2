/** The admin users route: `GET` lists users, newest first; `POST` replaces a
    user's group memberships by deleting them all and inserting the new ones. */
module AdminUsersRoute {
  import opened Model
  import opened Wrappers
  import opened Seqs
  import opened Ordering
  import opened Store
  import opened AdminLib

  function CreatedAtOf(u: User): int
  {
    u.createdAt
  }

  /** `GET /api/admin/users`. */
  method Get(db: Store, caller: Option<Id>, adminQueryFails: bool, queryFails: bool) returns (status: Http, rows: seq<User>)
    ensures caller.None? ==> status == Unauthorized
    ensures caller.Some? && !IsAdminInStore(db.userGroups, db.groups, caller.value, adminQueryFails) ==> status == Forbidden
    ensures status == Ok <==> caller.Some? && IsAdminInStore(db.userGroups, db.groups, caller.value, adminQueryFails) && !queryFails
    ensures status != Ok ==> rows == []
    ensures status == Ok ==> multiset(rows) == multiset(db.users)
    ensures SortedBy(rows, ByKeyDesc(CreatedAtOf))
  {
    var gate := Authorize(db.userGroups, db.groups, caller, adminQueryFails);
    if gate.Failure? {
      RequireAdminStatus(caller, caller.Some? && IsAdminInStore(db.userGroups, db.groups, caller.value, adminQueryFails));
      return ErrorStatus(gate.error), [];
    }
    if queryFails {
      return ServerError, [];
    }
    KeyOrdersArePreorders(CreatedAtOf);
    rows := SortBy(db.users, ByKeyDesc(CreatedAtOf));
    status := Ok;
  }

  /** `delete().eq('userId', userId)`: the rows of other users, in order. */
  function WithoutUser(rows: seq<UserGroup>, userId: Id): seq<UserGroup>
  {
    Filter(rows, (ug: UserGroup) => ug.userId != userId)
  }

  /** `groupIds.map(groupId => ({ userId, groupId }))`. */
  function MembershipsOf(userId: Id, groupIds: seq<Id>): (r: seq<UserGroup>)
    ensures |r| == |groupIds|
    ensures forall i :: 0 <= i < |r| ==> r[i] == UserGroup(userId, groupIds[i])
  {
    seq(|groupIds|, i requires 0 <= i < |groupIds| => UserGroup(userId, groupIds[i]))
  }

  lemma {:induction false} UserGroupIdsAppend(a: seq<UserGroup>, b: seq<UserGroup>, userId: Id)
    ensures UserGroupIds(a + b, userId) == UserGroupIds(a, userId) + UserGroupIds(b, userId)
  {
    if a == [] {
      assert a + b == b;
    } else {
      assert (a + b)[1..] == a[1..] + b;
      UserGroupIdsAppend(a[1..], b, userId);
    }
  }

  /** After the delete the user has no memberships, and every other user keeps
      theirs in the same order. */
  lemma {:induction false} WithoutUserIds(rows: seq<UserGroup>, userId: Id, other: Id)
    ensures UserGroupIds(WithoutUser(rows, userId), userId) == []
    ensures other != userId ==> UserGroupIds(WithoutUser(rows, userId), other) == UserGroupIds(rows, other)
  {
    if rows != [] {
      WithoutUserIds(rows[1..], userId, other);
      var rest := WithoutUser(rows[1..], userId);
      if rows[0].userId != userId {
        assert WithoutUser(rows, userId) == [rows[0]] + rest;
        assert ([rows[0]] + rest)[1..] == rest;
      }
    }
  }

  /** The inserted rows give the user exactly `groupIds`, in order, and nobody else anything. */
  lemma {:induction false} MembershipsOfIds(userId: Id, groupIds: seq<Id>, other: Id)
    ensures UserGroupIds(MembershipsOf(userId, groupIds), userId) == groupIds
    ensures other != userId ==> UserGroupIds(MembershipsOf(userId, groupIds), other) == []
  {
    if groupIds != [] {
      MembershipsOfIds(userId, groupIds[1..], other);
      assert MembershipsOf(userId, groupIds)[1..] == MembershipsOf(userId, groupIds[1..]);
    }
  }

  /** The table after a successful replacement. */
  function ReplaceMemberships(rows: seq<UserGroup>, userId: Id, groupIds: seq<Id>): seq<UserGroup>
  {
    WithoutUser(rows, userId) + MembershipsOf(userId, groupIds)
  }

  /** Replacing sets the user's groups to exactly `groupIds` (empty included)
      and leaves every other user's groups as they were. */
  lemma ReplaceMembershipsIds(rows: seq<UserGroup>, userId: Id, groupIds: seq<Id>, other: Id)
    ensures UserGroupIds(ReplaceMemberships(rows, userId, groupIds), userId) == groupIds
    ensures other != userId ==> UserGroupIds(ReplaceMemberships(rows, userId, groupIds), other) == UserGroupIds(rows, other)
  {
    UserGroupIdsAppend(WithoutUser(rows, userId), MembershipsOf(userId, groupIds), userId);
    UserGroupIdsAppend(WithoutUser(rows, userId), MembershipsOf(userId, groupIds), other);
    WithoutUserIds(rows, userId, other);
    MembershipsOfIds(userId, groupIds, other);
  }

  /** `POST /api/admin/users` with body `{ userId, groupIds }`; `groupIds` is
      None when it is not an array. The delete's own error is not checked. */
  method Post(db: Store, caller: Option<Id>, adminQueryFails: bool, userId: Id, groupIds: Option<seq<Id>>,
              deleteFails: bool, insertFails: bool) returns (status: Http)
    modifies db
    ensures db.boats == old(db.boats) && db.bookings == old(db.bookings) && db.boatGroups == old(db.boatGroups)
    ensures db.users == old(db.users) && db.groups == old(db.groups)
    ensures caller.None? ==> status == Unauthorized
    ensures caller.Some? && !IsAdminInStore(old(db.userGroups), old(db.groups), caller.value, adminQueryFails) ==> status == Forbidden
    ensures status == Unauthorized || status == Forbidden || status == BadRequest ==> db.userGroups == old(db.userGroups)
    ensures caller.Some? && IsAdminInStore(old(db.userGroups), old(db.groups), caller.value, adminQueryFails) ==>
              if userId == "" || groupIds.None? then status == BadRequest
              else if |groupIds.value| > 0 && insertFails then status == ServerError
              else status == Ok
    ensures status == Ok && !deleteFails ==> db.userGroups == ReplaceMemberships(old(db.userGroups), userId, groupIds.value)
    ensures status == Ok && deleteFails ==> db.userGroups == old(db.userGroups) + MembershipsOf(userId, groupIds.value)
    ensures status == ServerError && !deleteFails ==> db.userGroups == WithoutUser(old(db.userGroups), userId)
    ensures status == ServerError && deleteFails ==> db.userGroups == old(db.userGroups)
  {
    var gate := Authorize(db.userGroups, db.groups, caller, adminQueryFails);
    if gate.Failure? {
      RequireAdminStatus(caller, caller.Some? && IsAdminInStore(db.userGroups, db.groups, caller.value, adminQueryFails));
      return ErrorStatus(gate.error);
    }
    if userId == "" || groupIds.None? {
      return BadRequest;
    }
    if !deleteFails {
      db.userGroups := WithoutUser(db.userGroups, userId);
    }
    if |groupIds.value| > 0 {
      if insertFails {
        return ServerError;
      }
      db.userGroups := db.userGroups + MembershipsOf(userId, groupIds.value);
    } else {
      assert MembershipsOf(userId, groupIds.value) == [];
      assert db.userGroups + [] == db.userGroups;
    }
    return Ok;
  }
}
