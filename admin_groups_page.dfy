/** The admin groups page: the create and edit forms with their user and boat
    selections, the handlers that fill and reset them, the name check, the
    protection of the admin group, and the member counts of the list. The
    requests the handlers send are returned; whether the server accepted them
    is a parameter. */
module AdminGroupsPage {
  import opened Wrappers
  import opened Model
  import opened Seqs
  import opened Selection
  import opened AdminLib

  /** A row of the group list with its aggregated counts
      (`boatGroups(count)`, `userGroups(count)`; None when absent). */
  datatype GroupSummary = GroupSummary(id: Id, name: string, boatCounts: Option<seq<int>>, userCounts: Option<seq<int>>)

  /** The answer of `/api/admin/groups/{id}`: the group with its members and boats. */
  datatype GroupDetails = GroupDetails(id: Id, name: string, users: seq<User>, boats: seq<Boat>)

  /** The body of the POST (create, no id) or PUT (save) request. */
  datatype GroupRequest = GroupRequest(groupId: Option<Id>, name: string, userIds: seq<Id>, boatIds: seq<Id>)

  function UserId(u: User): Id
  {
    u.id
  }

  function BoatId(b: Boat): Id
  {
    b.id
  }

  /** `getBoatCount` / `getUserCount`: `counts?.[0]?.count || 0`. */
  function FirstCount(counts: Option<seq<int>>): (r: int)
    ensures counts.None? || counts.value == [] ==> r == 0
    ensures counts.Some? && counts.value != [] ==> r == counts.value[0]
  {
    if counts.Some? && counts.value != [] then counts.value[0] else 0
  }

  /** How many BoatGroup rows link a boat to the group. */
  function BoatRowsOf(boatGroups: seq<BoatGroup>, groupId: Id): nat
  {
    |Filter(boatGroups, (r: BoatGroup) => r.groupId == groupId)|
  }

  /** How many UserGroup rows link a user to the group. */
  function UserRowsOf(userGroups: seq<UserGroup>, groupId: Id): nat
  {
    |Filter(userGroups, (r: UserGroup) => r.groupId == groupId)|
  }

  /** The rows `GET /api/admin/groups` answers with, as written: `select('*')`
      on Group embeds no association, so no row carries a count. */
  function ListedGroups(groups: seq<Group>): seq<GroupSummary>
  {
    seq(|groups|, i requires 0 <= i < |groups| => GroupSummary(groups[i].id, groups[i].name, None, None))
  }

  /** As written, every row of the list shows "0 users" and "0 boats". */
  lemma ListedCountsAreZero(groups: seq<Group>, i: int)
    requires 0 <= i < |groups|
    ensures FirstCount(ListedGroups(groups)[i].userCounts) == 0
    ensures FirstCount(ListedGroups(groups)[i].boatCounts) == 0
  {
  }

  /** A group with one member and one boat is listed with "0 users" and
      "0 boats". */
  lemma ListedCountIgnoresRows()
    ensures BoatRowsOf([BoatGroup("b1", "g1")], "g1") == 1
    ensures UserRowsOf([UserGroup("u1", "g1")], "g1") == 1
    ensures FirstCount(ListedGroups([Group("g1", "Juniors")])[0].boatCounts) == 0
    ensures FirstCount(ListedGroups([Group("g1", "Juniors")])[0].userCounts) == 0
  {
    assert Filter([BoatGroup("b1", "g1")], (r: BoatGroup) => r.groupId == "g1") == [BoatGroup("b1", "g1")];
    assert Filter([UserGroup("u1", "g1")], (r: UserGroup) => r.groupId == "g1") == [UserGroup("u1", "g1")];
  }

  /** The rows a query embedding the counts gives
      (`select('*, boatGroups(count), userGroups(count)')`): each group with
      one aggregate row counting its association rows. */
  function AggregatedGroups(groups: seq<Group>, boatGroups: seq<BoatGroup>, userGroups: seq<UserGroup>): seq<GroupSummary>
  {
    seq(|groups|, i requires 0 <= i < |groups| =>
      GroupSummary(groups[i].id, groups[i].name,
                   Some([BoatRowsOf(boatGroups, groups[i].id)]), Some([UserRowsOf(userGroups, groups[i].id)])))
  }

  /** With the counts embedded, a row shows the group's numbers of
      association rows, and a count is positive exactly when some row links
      the group. */
  lemma AggregateCountsShowRows(groups: seq<Group>, boatGroups: seq<BoatGroup>, userGroups: seq<UserGroup>, i: int)
    requires 0 <= i < |groups|
    ensures var row := AggregatedGroups(groups, boatGroups, userGroups)[i];
            && row.id == groups[i].id && row.name == groups[i].name
            && FirstCount(row.boatCounts) == BoatRowsOf(boatGroups, groups[i].id)
            && FirstCount(row.userCounts) == UserRowsOf(userGroups, groups[i].id)
            && (FirstCount(row.boatCounts) > 0 <==> exists r :: r in boatGroups && r.groupId == groups[i].id)
            && (FirstCount(row.userCounts) > 0 <==> exists r :: r in userGroups && r.groupId == groups[i].id)
  {
    var id := groups[i].id;
    var boatRows := Filter(boatGroups, (r: BoatGroup) => r.groupId == id);
    var userRows := Filter(userGroups, (r: UserGroup) => r.groupId == id);
    FilterMembers(boatGroups, (r: BoatGroup) => r.groupId == id);
    FilterMembers(userGroups, (r: UserGroup) => r.groupId == id);
    if boatRows != [] {
      assert boatRows[0] in boatRows;
    }
    if userRows != [] {
      assert userRows[0] in userRows;
    }
  }

  /** `name.toLowerCase() === "admin"`: the group may not be deleted or renamed. */
  predicate IsProtectedName(name: string)
  {
    ToLower(name) == "admin"
  }

  /** Delete is offered only for an unprotected group. */
  predicate CanDelete(g: GroupSummary)
  {
    !IsProtectedName(g.name)
  }

  /** The name field of the edit form is disabled for a protected group. */
  predicate RenameLocked(details: GroupDetails)
  {
    IsProtectedName(details.name)
  }

  /** The protection ignores case, while the admin check does not: the group
      named "Admin" is protected, and so is a group named "admin", although
      membership in the latter makes nobody an administrator. */
  lemma ProtectionIgnoresCase()
    ensures IsProtectedName(ADMIN_GROUP_NAME)
    ensures IsProtectedName("admin") && IsProtectedName("ADMIN")
    ensures !IsAdmin(Some([Some("admin")])) && IsAdmin(Some([Some(ADMIN_GROUP_NAME)]))
    ensures !IsProtectedName("Admins")
  {
    assert ToLower(ADMIN_GROUP_NAME) == "admin";
    assert ToLower("admin") == "admin";
    assert ToLower("ADMIN") == "admin";
    assert |ToLower("Admins")| == 6;
    IsAdminIff(Some([Some("admin")]));
    IsAdminIff(Some([Some(ADMIN_GROUP_NAME)]));
  }

  class GroupsPage {
    /** The loaded user and boat lists. */
    var users: seq<User>
    var boats: seq<Boat>
    var creating: bool
    var editing: Option<GroupDetails>
    var name: string
    var selectedUsers: seq<Id>
    var selectedBoats: seq<Id>

    constructor(users: seq<User>, boats: seq<Boat>)
      ensures this.users == users && this.boats == boats
      ensures !creating && editing.None?
      ensures name == "" && selectedUsers == [] && selectedBoats == []
    {
      this.users := users;
      this.boats := boats;
      creating := false;
      editing := None;
      name := "";
      selectedUsers := [];
      selectedBoats := [];
    }

    /** `handleCreateGroup`: opens an empty create form. */
    method CreateGroup()
      modifies this
      ensures creating && editing == old(editing)
      ensures name == "" && selectedUsers == [] && selectedBoats == []
      ensures users == old(users) && boats == old(boats)
    {
      creating := true;
      name := "";
      selectedUsers := [];
      selectedBoats := [];
    }

    /** `handleEditGroup`: when the details arrive, the form holds the group's
        name and its members' and boats' ids, in order. */
    method EditGroup(details: Option<GroupDetails>)
      modifies this
      ensures details.None? ==>
                editing == old(editing) && name == old(name)
                && selectedUsers == old(selectedUsers) && selectedBoats == old(selectedBoats)
      ensures details.Some? ==>
                editing == details && name == details.value.name
                && selectedUsers == IdsOf(details.value.users, UserId)
                && selectedBoats == IdsOf(details.value.boats, BoatId)
      ensures creating == old(creating) && users == old(users) && boats == old(boats)
    {
      if details.Some? {
        editing := details;
        name := details.value.name;
        selectedUsers := IdsOf(details.value.users, UserId);
        selectedBoats := IdsOf(details.value.boats, BoatId);
      }
    }

    method ToggleUser(userId: Id)
      modifies this
      ensures selectedUsers == Toggle(old(selectedUsers), userId)
      ensures selectedBoats == old(selectedBoats) && name == old(name)
      ensures creating == old(creating) && editing == old(editing)
      ensures users == old(users) && boats == old(boats)
    {
      selectedUsers := Toggle(selectedUsers, userId);
    }

    method ToggleBoat(boatId: Id)
      modifies this
      ensures selectedBoats == Toggle(old(selectedBoats), boatId)
      ensures selectedUsers == old(selectedUsers) && name == old(name)
      ensures creating == old(creating) && editing == old(editing)
      ensures users == old(users) && boats == old(boats)
    {
      selectedBoats := Toggle(selectedBoats, boatId);
    }

    /** The name field of the create form: whatever is typed becomes the name.
        The field exists only while the create form is open. */
    method TypeCreateName(value: string)
      modifies this
      ensures name == (if old(creating) then value else old(name))
      ensures selectedUsers == old(selectedUsers) && selectedBoats == old(selectedBoats)
      ensures creating == old(creating) && editing == old(editing)
      ensures users == old(users) && boats == old(boats)
    {
      if creating {
        name := value;
      }
    }

    /** The name field of the edit form: it exists only while a group is being
        edited, and it is disabled for a protected group, so typing there
        cannot rename it. */
    method TypeEditName(value: string)
      modifies this
      ensures old(editing).Some? && RenameLocked(old(editing).value) ==> name == old(name)
      ensures old(editing).Some? && !RenameLocked(old(editing).value) ==> name == value
      ensures old(editing).None? ==> name == old(name)
      ensures selectedUsers == old(selectedUsers) && selectedBoats == old(selectedBoats)
      ensures creating == old(creating) && editing == old(editing)
      ensures users == old(users) && boats == old(boats)
    {
      if editing.Some? && !RenameLocked(editing.value) {
        name := value;
      }
    }

    /** `selectAllUsers`: every loaded user, in list order. */
    method SelectAllUsers()
      modifies this
      ensures selectedUsers == IdsOf(users, UserId)
      ensures forall u :: u in users ==> u.id in selectedUsers
      ensures selectedBoats == old(selectedBoats) && name == old(name)
      ensures creating == old(creating) && editing == old(editing)
      ensures users == old(users) && boats == old(boats)
    {
      selectedUsers := IdsOf(users, UserId);
      forall u | u in users
        ensures u.id in selectedUsers
      {
        var i :| 0 <= i < |users| && users[i] == u;
        assert selectedUsers[i] == u.id;
      }
    }

    method DeselectAllUsers()
      modifies this
      ensures selectedUsers == []
      ensures selectedBoats == old(selectedBoats) && name == old(name)
      ensures creating == old(creating) && editing == old(editing)
      ensures users == old(users) && boats == old(boats)
    {
      selectedUsers := [];
    }

    /** `selectAllBoats`: every loaded boat, in list order. */
    method SelectAllBoats()
      modifies this
      ensures selectedBoats == IdsOf(boats, BoatId)
      ensures forall b :: b in boats ==> b.id in selectedBoats
      ensures selectedUsers == old(selectedUsers) && name == old(name)
      ensures creating == old(creating) && editing == old(editing)
      ensures users == old(users) && boats == old(boats)
    {
      selectedBoats := IdsOf(boats, BoatId);
      forall b | b in boats
        ensures b.id in selectedBoats
      {
        var i :| 0 <= i < |boats| && boats[i] == b;
        assert selectedBoats[i] == b.id;
      }
    }

    method DeselectAllBoats()
      modifies this
      ensures selectedBoats == []
      ensures selectedUsers == old(selectedUsers) && name == old(name)
      ensures creating == old(creating) && editing == old(editing)
      ensures users == old(users) && boats == old(boats)
    {
      selectedBoats := [];
    }

    /** `handleCreateSubmit`: refuses a blank name; otherwise sends the name
        and both selections, and on success closes and clears the form. */
    method CreateSubmit(accepted: bool) returns (sent: Option<GroupRequest>)
      modifies this
      ensures sent.Some? <==> !IsBlank(old(name))
      ensures sent.Some? ==> sent.value == GroupRequest(None, old(name), old(selectedUsers), old(selectedBoats))
      ensures sent.Some? && accepted ==>
                !creating && name == "" && selectedUsers == [] && selectedBoats == []
      ensures !(sent.Some? && accepted) ==>
                creating == old(creating) && name == old(name)
                && selectedUsers == old(selectedUsers) && selectedBoats == old(selectedBoats)
      ensures editing == old(editing) && users == old(users) && boats == old(boats)
    {
      if IsBlank(name) {
        return None;
      }
      sent := Some(GroupRequest(None, name, selectedUsers, selectedBoats));
      if accepted {
        creating := false;
        name := "";
        selectedUsers := [];
        selectedBoats := [];
      }
    }

    /** `handleSaveGroup`: needs a group being edited and a non-blank name;
        sends the group's id with the form, and on success closes and clears it. */
    method SaveGroup(accepted: bool) returns (sent: Option<GroupRequest>)
      modifies this
      ensures sent.Some? <==> old(editing).Some? && !IsBlank(old(name))
      ensures sent.Some? ==>
                sent.value == GroupRequest(Some(old(editing).value.id), old(name), old(selectedUsers), old(selectedBoats))
      ensures sent.Some? && accepted ==>
                editing.None? && name == "" && selectedUsers == [] && selectedBoats == []
      ensures !(sent.Some? && accepted) ==>
                editing == old(editing) && name == old(name)
                && selectedUsers == old(selectedUsers) && selectedBoats == old(selectedBoats)
      ensures creating == old(creating) && users == old(users) && boats == old(boats)
    {
      if editing.None? || IsBlank(name) {
        return None;
      }
      sent := Some(GroupRequest(Some(editing.value.id), name, selectedUsers, selectedBoats));
      if accepted {
        editing := None;
        name := "";
        selectedUsers := [];
        selectedBoats := [];
      }
    }

    /** The Cancel button of the create form. */
    method CancelCreate()
      modifies this
      ensures !creating && name == "" && selectedUsers == [] && selectedBoats == []
      ensures editing == old(editing) && users == old(users) && boats == old(boats)
    {
      creating := false;
      name := "";
      selectedUsers := [];
      selectedBoats := [];
    }

    /** The Cancel button of the edit form. */
    method CancelEdit()
      modifies this
      ensures editing.None? && name == "" && selectedUsers == [] && selectedBoats == []
      ensures creating == old(creating) && users == old(users) && boats == old(boats)
    {
      editing := None;
      name := "";
      selectedUsers := [];
      selectedBoats := [];
    }
  }
}
