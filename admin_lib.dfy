/** Admin membership (`isAdmin`), the admin gate (`requireAdmin`) and the way
    the admin routes turn the gate's error message into a status. */
module AdminLib {
  import opened Wrappers
  import opened Model
  import opened Seqs

  const ADMIN_GROUP_NAME: string := "Admin"
  const UNAUTHORIZED_MESSAGE: string := "Unauthorized - please sign in"
  const FORBIDDEN_MESSAGE: string := "Forbidden - admin access required"

  /** The name of the group with id `groupId`, or None when no such row exists
      (the joined `group` is then null). */
  function GroupName(groups: seq<Group>, groupId: Id): (r: Option<string>)
    ensures r.Some? <==> exists g :: g in groups && g.id == groupId
    ensures r.Some? ==> Group(groupId, r.value) in groups
  {
    if groups == [] then None
    else if groups[0].id == groupId then Some(groups[0].name)
    else GroupName(groups[1..], groupId)
  }

  /** `UserGroup.select('group:Group(name)').eq('userId', userId)`: one row per
      membership of the user, holding the joined group's name. */
  function MembershipRows(userGroups: seq<UserGroup>, groups: seq<Group>, userId: Id): (rows: seq<Option<string>>)
    ensures |rows| <= |userGroups|
    ensures forall n :: Some(n) in rows <==>
              exists gid :: UserGroup(userId, gid) in userGroups && GroupName(groups, gid) == Some(n)
  {
    if userGroups == [] then []
    else
      var rest := MembershipRows(userGroups[1..], groups, userId);
      assert forall ug :: ug in userGroups <==> ug == userGroups[0] || ug in userGroups[1..];
      if userGroups[0].userId == userId then [GroupName(groups, userGroups[0].groupId)] + rest else rest
  }

  /** `data.some(ug => ug.group?.name === 'Admin')`. */
  predicate SomeAdminRow(rows: seq<Option<string>>)
  {
    rows != [] && (rows[0] == Some(ADMIN_GROUP_NAME) || SomeAdminRow(rows[1..]))
  }

  /** `isAdmin` on the query's answer: None stands for an error or no data. */
  predicate IsAdmin(answer: Option<seq<Option<string>>>)
  {
    answer.Some? && SomeAdminRow(answer.value)
  }

  lemma {:induction false} SomeAdminRowIff(rows: seq<Option<string>>)
    ensures SomeAdminRow(rows) <==> Some(ADMIN_GROUP_NAME) in rows
  {
    if rows != [] {
      SomeAdminRowIff(rows[1..]);
      assert rows == [rows[0]] + rows[1..];
    }
  }

  /** A failed query is never admin; otherwise admin means a row whose group is
      named exactly "Admin", so a user without memberships, or one in a group
      named "admin", is not. */
  lemma IsAdminIff(answer: Option<seq<Option<string>>>)
    ensures answer.None? ==> !IsAdmin(answer)
    ensures answer.Some? ==> (IsAdmin(answer) <==> Some(ADMIN_GROUP_NAME) in answer.value)
    ensures answer == Some([]) ==> !IsAdmin(answer)
    ensures answer == Some([Some("admin")]) ==> !IsAdmin(answer)
  {
    if answer.Some? {
      SomeAdminRowIff(answer.value);
    }
  }

  /** The admin check as the routes run it against the store. */
  predicate IsAdminInStore(userGroups: seq<UserGroup>, groups: seq<Group>, userId: Id, queryFails: bool)
  {
    IsAdmin(if queryFails then None else Some(MembershipRows(userGroups, groups, userId)))
  }

  /** A user is admin exactly when one of their memberships names a group called "Admin". */
  lemma IsAdminInStoreIff(userGroups: seq<UserGroup>, groups: seq<Group>, userId: Id)
    ensures IsAdminInStore(userGroups, groups, userId, false) <==>
              exists gid :: UserGroup(userId, gid) in userGroups && Group(gid, ADMIN_GROUP_NAME) in groups && GroupName(groups, gid) == Some(ADMIN_GROUP_NAME)
  {
    SomeAdminRowIff(MembershipRows(userGroups, groups, userId));
  }

  /** `requireAdmin`: the signed-in user, or the message it throws. The
      sign-in check comes first. */
  function RequireAdmin(caller: Option<Id>, isAdmin: bool): (r: Result<Id, string>)
    ensures r.Success? <==> caller.Some? && isAdmin
    ensures r.Success? ==> r.value == caller.value
    ensures caller.None? ==> r == Failure(UNAUTHORIZED_MESSAGE)
    ensures caller.Some? && !isAdmin ==> r == Failure(FORBIDDEN_MESSAGE)
  {
    if caller.None? then Failure(UNAUTHORIZED_MESSAGE)
    else if !isAdmin then Failure(FORBIDDEN_MESSAGE)
    else Success(caller.value)
  }

  /** The gate against the store: `requireAdmin()` as the admin routes call it. */
  function Authorize(userGroups: seq<UserGroup>, groups: seq<Group>, caller: Option<Id>, queryFails: bool): Result<Id, string>
  {
    RequireAdmin(caller, caller.Some? && IsAdminInStore(userGroups, groups, caller.value, queryFails))
  }

  /** The admin routes' catch block: `error.message?.includes('Unauthorized') ? 401 : 403`. */
  function ErrorStatus(message: string): Http
  {
    if Contains(message, "Unauthorized") then Unauthorized else Forbidden
  }

  /** A caller who is not signed in gets 401 from an admin route, a signed-in
      non-admin 403. */
  lemma RequireAdminStatus(caller: Option<Id>, isAdmin: bool)
    ensures caller.None? ==> ErrorStatus(RequireAdmin(caller, isAdmin).error) == Unauthorized
    ensures caller.Some? && !isAdmin ==> ErrorStatus(RequireAdmin(caller, isAdmin).error) == Forbidden
  {
    assert StartsWith(UNAUTHORIZED_MESSAGE, "Unauthorized") by {
      assert UNAUTHORIZED_MESSAGE[..12] == "Unauthorized";
    }
    assert 'U' !in FORBIDDEN_MESSAGE by {
      forall i | 0 <= i < |FORBIDDEN_MESSAGE| ensures FORBIDDEN_MESSAGE[i] != 'U' {
      }
    }
    NotContainsWithoutFirstChar(FORBIDDEN_MESSAGE, "Unauthorized");
  }
}
