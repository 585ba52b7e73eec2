/** The admin boats page: the edit and create forms with their group
    selection, the handlers that fill and reset them, the capacity input, and
    the figures and labels of the boat list. The requests the handlers send are
    returned; whether the server accepted them is a parameter. */
module AdminBoatsPage {
  import opened Wrappers
  import opened Model
  import opened Seqs
  import opened Selection
  import BoatsPage
  import AdminBoatsRoute
  import BoatsList

  /** `formData`. */
  datatype BoatForm = BoatForm(name: string, description: string, capacity: int, imageUrl: string, isActive: bool)

  /** The form a create starts from and every reset returns to. */
  const EMPTY_FORM: BoatForm := BoatForm("", "", 1, "", true)

  /** A boat of the list with the groups joined through its BoatGroup rows. */
  datatype BoatRow = BoatRow(boat: Boat, groups: seq<Group>)

  /** The body of the POST (save, with the boat's id) or PUT (create) request. */
  datatype BoatRequest = BoatRequest(boatId: Option<Id>, form: BoatForm, groupIds: seq<Id>)

  function GroupId(g: Group): Id
  {
    g.id
  }

  /** `handleEditBoat`'s form: the boat's values, a null description or image as "". */
  function FormOf(b: Boat): (f: BoatForm)
    ensures f.name == b.name && f.capacity == b.capacity && f.isActive == b.isActive
    ensures f.description == (if b.description.Some? then b.description.value else "")
    ensures f.imageUrl == (if b.imageUrl.Some? then b.imageUrl.value else "")
  {
    BoatForm(b.name, b.description.GetOr(""), b.capacity, b.imageUrl.GetOr(""), b.isActive)
  }

  /** The update the admin boats route receives from a save: every field is present. */
  function UpdateOf(boatId: Id, form: BoatForm, groupIds: seq<Id>): AdminBoatsRoute.BoatUpdate
  {
    AdminBoatsRoute.BoatUpdate(boatId, Some(form.name), Some(Some(form.description)), Some(form.capacity),
                               Some(Some(form.imageUrl)), Some(form.isActive), Some(groupIds))
  }

  /** Opening a boat and saving it unchanged keeps its name, capacity, state
      and group ids; a null description or image is stored back as "". */
  lemma SaveUnchangedForm(b: Boat, rows: seq<BoatGroup>)
    ensures var u := UpdateOf(b.id, FormOf(b), BoatGroupIds(rows, b.id));
            && AdminBoatsRoute.ApplyUpdate(b, u) == b.(description := Some(FormOf(b).description), imageUrl := Some(FormOf(b).imageUrl))
            && BoatGroupIds(AdminBoatsRoute.ReplaceBoatGroups(rows, b.id, u.groupIds.value), b.id) == BoatGroupIds(rows, b.id)
  {
    AdminBoatsRoute.ReplaceBoatGroupsIds(rows, b.id, BoatGroupIds(rows, b.id), b.id);
  }

  /** What `parseInt` made of the capacity field. */
  datatype ParsedInt = NaN | Int(n: int)

  /** `parseInt(value) || 1`: NaN and 0 become 1, every other number, negative
      ones included, is kept. */
  function CapacityInput(p: ParsedInt): (c: int)
    ensures c != 0
    ensures p.Int? && p.n != 0 ==> c == p.n
    ensures p.NaN? || p.n == 0 ==> c == 1
  {
    if p.Int? && p.n != 0 then p.n else 1
  }

  /** The body of a create request as the admin boats route reads it. */
  function NewBoatOf(req: BoatRequest): AdminBoatsRoute.NewBoat
  {
    AdminBoatsRoute.NewBoat(req.form.name, Some(req.form.description), Some(req.form.capacity),
                            Some(req.form.imageUrl), Some(req.form.isActive), Some(req.groupIds))
  }

  /** What a create form becomes in the store: name, capacity and state as
      entered (the form never holds the 0 the route would replace, see
      `CapacityInput`), an empty description or image stored as null, and
      editing the new boat shows the very form it was created from. */
  lemma CreateRequestRoundTrip(id: Id, form: BoatForm, groupIds: seq<Id>)
    requires form.capacity != 0
    ensures var b := AdminBoatsRoute.CreatedBoat(id, NewBoatOf(BoatRequest(None, form, groupIds)));
            && b.name == form.name && b.capacity == form.capacity && b.isActive == form.isActive
            && FormOf(b) == form
            && (b.description.None? <==> form.description == "")
            && (b.imageUrl.None? <==> form.imageUrl == "")
  {
  }

  /** `boats.filter(boat => boat.isActive).length`. */
  function ActiveBoatCount(boats: seq<Boat>): nat
  {
    |BoatsPage.ActiveBoats(boats)|
  }

  /** The active count is at most the total, equal to it exactly when no boat is inactive. */
  lemma ActiveBoatCountBounds(boats: seq<Boat>)
    ensures ActiveBoatCount(boats) <= |boats|
    ensures ActiveBoatCount(boats) == |boats| <==> forall b :: b in boats ==> b.isActive
  {
    var inactive := Filter(boats, (b: Boat) => !b.isActive);
    FilterPartition(boats, (b: Boat) => b.isActive, (b: Boat) => !b.isActive);
    FilterMembers(boats, (b: Boat) => !b.isActive);
    if inactive != [] {
      assert inactive[0] in inactive;
    }
  }

  /** `capacity === 1 ? "person" : "people"`. */
  function CapacityUnit(capacity: int): (s: string)
    ensures s == "person" <==> capacity == 1
    ensures s == "people" <==> capacity != 1
  {
    if capacity == 1 then "person" else "people"
  }

  /** The admin list's "person" and the boat list's "single" filter agree on
      capacity: for a boat the list types by its seats, the admin row reads
      "1 person" exactly when the boat is filed under "single". */
  lemma CapacityUnitAgreesWithList(b: Boat)
    ensures CapacityUnit(b.capacity) == "person" <==> BoatsList.CapacityType(b.capacity) == "single"
    ensures !BoatsList.HasStoredType(b) && !BoatsList.IsRecreationalName(b.name) ==>
              (CapacityUnit(b.capacity) == "person" <==> BoatsList.BoatType(b) == "single")
  {
  }

  /** The group badges of a row, or "All users" when it has none. */
  function AccessGroupsText(row: BoatRow): (labels: seq<string>)
    ensures row.groups == [] ==> labels == ["All users"]
    ensures row.groups != [] ==> |labels| == |row.groups| && forall i :: 0 <= i < |labels| ==> labels[i] == row.groups[i].name
  {
    if row.groups == [] then ["All users"]
    else seq(|row.groups|, i requires 0 <= i < |row.groups| => row.groups[i].name)
  }

  /** "All users" tells the truth: an active boat shown without groups is
      listed to every user, whatever their groups. */
  lemma AllUsersMeansOpen(boats: seq<Boat>, rows: seq<BoatGroup>, row: BoatRow, userGroupIds: seq<Id>)
    requires IdsOf(row.groups, GroupId) == BoatGroupIds(rows, row.boat.id)
    requires row.boat in boats && row.boat.isActive
    requires AccessGroupsText(row) == ["All users"] && row.groups == []
    ensures row.boat in BoatsPage.AccessibleBoats(boats, rows, userGroupIds)
  {
    BoatsPage.ListedIff(boats, rows, userGroupIds, row.boat);
    forall g
      ensures g in BoatsPage.BoatGroupSet(rows, row.boat.id) ==> BoatGroup(row.boat.id, g) in rows
    {
    }
    assert BoatsPage.BoatGroupSet(rows, row.boat.id) == {};
  }

  class BoatsAdminPage {
    var editing: Option<BoatRow>
    var creating: bool
    var form: BoatForm
    var selectedGroups: seq<Id>

    constructor()
      ensures editing.None? && !creating && form == EMPTY_FORM && selectedGroups == []
    {
      editing := None;
      creating := false;
      form := EMPTY_FORM;
      selectedGroups := [];
    }

    /** `handleEditBoat`: the form holds the boat, the selection its groups in order. */
    method EditBoat(row: BoatRow)
      modifies this
      ensures editing == Some(row) && form == FormOf(row.boat)
      ensures selectedGroups == IdsOf(row.groups, GroupId)
      ensures creating == old(creating)
    {
      editing := Some(row);
      form := FormOf(row.boat);
      selectedGroups := IdsOf(row.groups, GroupId);
    }

    /** `handleCreateBoat`: opens the create form with the defaults. */
    method CreateBoat()
      modifies this
      ensures creating && form == EMPTY_FORM && selectedGroups == []
      ensures form.capacity == 1 && form.isActive && form.name == "" && form.description == "" && form.imageUrl == ""
      ensures editing == old(editing)
    {
      creating := true;
      form := EMPTY_FORM;
      selectedGroups := [];
    }

    /** The capacity field's `onChange`. */
    method SetCapacity(p: ParsedInt)
      modifies this
      ensures form == old(form).(capacity := CapacityInput(p))
      ensures editing == old(editing) && creating == old(creating) && selectedGroups == old(selectedGroups)
    {
      form := form.(capacity := CapacityInput(p));
    }

    method ToggleGroup(groupId: Id)
      modifies this
      ensures selectedGroups == Toggle(old(selectedGroups), groupId)
      ensures editing == old(editing) && creating == old(creating) && form == old(form)
    {
      selectedGroups := Toggle(selectedGroups, groupId);
    }

    /** `handleSaveBoat`: does nothing without a boat being edited; otherwise
        sends the boat's id with the form and the selection, and on success
        closes and clears the form. */
    method SaveBoat(accepted: bool) returns (sent: Option<BoatRequest>)
      modifies this
      ensures sent.Some? <==> old(editing).Some?
      ensures sent.Some? ==> sent.value == BoatRequest(Some(old(editing).value.boat.id), old(form), old(selectedGroups))
      ensures sent.Some? && accepted ==> editing.None? && form == EMPTY_FORM && selectedGroups == []
      ensures !(sent.Some? && accepted) ==>
                editing == old(editing) && form == old(form) && selectedGroups == old(selectedGroups)
      ensures creating == old(creating)
    {
      if editing.None? {
        return None;
      }
      sent := Some(BoatRequest(Some(editing.value.boat.id), form, selectedGroups));
      if accepted {
        editing := None;
        form := EMPTY_FORM;
        selectedGroups := [];
      }
    }

    /** `handleCreateSubmit`: refuses a blank name; otherwise sends the form
        and the selection, and on success closes and clears the form. */
    method CreateSubmit(accepted: bool) returns (sent: Option<BoatRequest>)
      modifies this
      ensures sent.Some? <==> !IsBlank(old(form).name)
      ensures sent.Some? ==> sent.value == BoatRequest(None, old(form), old(selectedGroups))
      ensures sent.Some? && accepted ==> !creating && form == EMPTY_FORM && selectedGroups == []
      ensures !(sent.Some? && accepted) ==>
                creating == old(creating) && form == old(form) && selectedGroups == old(selectedGroups)
      ensures editing == old(editing)
    {
      if IsBlank(form.name) {
        return None;
      }
      sent := Some(BoatRequest(None, form, selectedGroups));
      if accepted {
        creating := false;
        form := EMPTY_FORM;
        selectedGroups := [];
      }
    }

    /** The Cancel button of the edit form. */
    method CancelEdit()
      modifies this
      ensures editing.None? && form == EMPTY_FORM && selectedGroups == []
      ensures creating == old(creating)
    {
      editing := None;
      form := EMPTY_FORM;
      selectedGroups := [];
    }

    /** The Cancel button of the create form. */
    method CancelCreate()
      modifies this
      ensures !creating && form == EMPTY_FORM && selectedGroups == []
      ensures editing == old(editing)
    {
      creating := false;
      form := EMPTY_FORM;
      selectedGroups := [];
    }
  }
}
