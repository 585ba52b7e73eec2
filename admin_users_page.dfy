/** The admin users page: the dialog that edits one user's group memberships.
    The request the save handler sends is returned; whether the server
    accepted it is a parameter. */
module AdminUsersPage {
  import opened Wrappers
  import opened Model
  import opened Selection
  import AdminUsersRoute

  /** A user of the list with the groups joined through its UserGroup rows. */
  datatype UserRow = UserRow(user: User, groups: seq<Group>)

  /** The body of the POST request: `{ userId, groupIds }`. */
  datatype MembershipRequest = MembershipRequest(userId: Id, groupIds: seq<Id>)

  function GroupId(g: Group): Id
  {
    g.id
  }

  /** Saving the dialog as it was opened writes back the user's groups as they
      were, and leaves every other user's groups alone. */
  lemma SaveUnchangedKeepsMemberships(rows: seq<UserGroup>, row: UserRow, other: Id)
    requires IdsOf(row.groups, GroupId) == UserGroupIds(rows, row.user.id)
    ensures var r := AdminUsersRoute.ReplaceMemberships(rows, row.user.id, IdsOf(row.groups, GroupId));
            && UserGroupIds(r, row.user.id) == UserGroupIds(rows, row.user.id)
            && UserGroupIds(r, other) == UserGroupIds(rows, other)
  {
    AdminUsersRoute.ReplaceMembershipsIds(rows, row.user.id, IdsOf(row.groups, GroupId), other);
  }

  /** Ticking one more group and saving makes the user a member of exactly that
      group in addition to the ones they had. */
  lemma SaveAfterToggleAddsGroup(rows: seq<UserGroup>, row: UserRow, groupId: Id)
    requires IdsOf(row.groups, GroupId) == UserGroupIds(rows, row.user.id)
    requires groupId !in UserGroupIds(rows, row.user.id)
    ensures var r := AdminUsersRoute.ReplaceMemberships(rows, row.user.id, Toggle(IdsOf(row.groups, GroupId), groupId));
            UserGroupIds(r, row.user.id) == UserGroupIds(rows, row.user.id) + [groupId]
  {
    AdminUsersRoute.ReplaceMembershipsIds(rows, row.user.id, Toggle(IdsOf(row.groups, GroupId), groupId), row.user.id);
  }

  class UsersPage {
    var editingUser: Option<UserRow>
    var selectedGroups: seq<Id>

    constructor()
      ensures editingUser.None? && selectedGroups == []
    {
      editingUser := None;
      selectedGroups := [];
    }

    /** `handleEditUser`: opens the dialog with the user's groups ticked, in order. */
    method EditUser(row: UserRow)
      modifies this
      ensures editingUser == Some(row)
      ensures selectedGroups == IdsOf(row.groups, GroupId)
      ensures forall g :: g in row.groups ==> g.id in selectedGroups
    {
      editingUser := Some(row);
      selectedGroups := IdsOf(row.groups, GroupId);
      forall g | g in row.groups
        ensures g.id in selectedGroups
      {
        var i :| 0 <= i < |row.groups| && row.groups[i] == g;
        assert selectedGroups[i] == g.id;
      }
    }

    /** `toggleGroup`. */
    method ToggleGroup(groupId: Id)
      modifies this
      ensures selectedGroups == Toggle(old(selectedGroups), groupId)
      ensures groupId in selectedGroups <==> groupId !in old(selectedGroups)
      ensures editingUser == old(editingUser)
    {
      selectedGroups := Toggle(selectedGroups, groupId);
    }

    /** `handleSaveGroups`: does nothing when no user is being edited;
        otherwise sends the user's id and the ticked groups, and on success
        closes the dialog and clears the selection. */
    method SaveGroups(accepted: bool) returns (sent: Option<MembershipRequest>)
      modifies this
      ensures sent.Some? <==> old(editingUser).Some?
      ensures sent.Some? ==> sent.value == MembershipRequest(old(editingUser).value.user.id, old(selectedGroups))
      ensures sent.Some? && accepted ==> editingUser.None? && selectedGroups == []
      ensures !(sent.Some? && accepted) ==> editingUser == old(editingUser) && selectedGroups == old(selectedGroups)
    {
      if editingUser.None? {
        return None;
      }
      sent := Some(MembershipRequest(editingUser.value.user.id, selectedGroups));
      if accepted {
        editingUser := None;
        selectedGroups := [];
      }
    }

    /** The Cancel button. */
    method Cancel()
      modifies this
      ensures editingUser.None? && selectedGroups == []
    {
      editingUser := None;
      selectedGroups := [];
    }
  }
}
